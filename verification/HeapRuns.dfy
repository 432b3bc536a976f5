/** Whole runs of calls to malloc and the others, and what a program finds in its blocks after them. */
module HeapRuns {
  import opened Chunks
  import opened FreeLists
  import opened HeapSteps
  import opened HeapMoves
  import opened HeapResize
  import opened Allocator
  import Limbs

  /** A block a program holds: the words it may use, and those it has stored there, counted from the start of the block. */
  datatype Block = Block(mem: int, room: int, words: map<int, int>)

  /** A call, or a store into a block; a block is named by its place among those that are held. */
  datatype Event =
    | Allocate(bytes: nat)
    | Release(i: nat)
    | Resize(i: nat, bytes: nat)
    | Align(alignment: nat, bytes: nat)
    | Shrink(pad: nat)
    | Put(i: nat, k: nat, w: int)

  /** The block is live, and every word stored in it is still there. */
  ghost predicate Intact(m: Mem, h: Layout, b: Block)
  {
    && h.Live(b.mem - 1) && b.room <= UserWords(h.sz[b.mem - 1])
    && forall k :: k in b.words ==> WordIn(m, h, b, k)
  }

  ghost predicate WordIn(m: Mem, h: Layout, b: Block, k: int)
    requires h.Live(b.mem - 1) && k in b.words
  {
    0 <= k < b.room && b.room <= UserWords(h.sz[b.mem - 1]) && Fetch(m, UserWord(b.mem - 1) + k) == b.words[k]
  }

  /** The live chunks are the blocks held, each once, and all of them are intact. */
  ghost predicate Holding(m: Mem, h: Layout, held: seq<Block>)
  {
    && (forall i :: 0 <= i < |held| ==> Intact(m, h, held[i]))
    && (forall i, j :: 0 <= i < j < |held| ==> held[i].mem != held[j].mem)
    && (forall p :: p in LiveSet(h) ==> HeldAt(held, p))
  }

  ghost predicate HeldAt(held: seq<Block>, p: int)
  {
    exists i :: 0 <= i < |held| && held[i].mem == p + 1
  }

  lemma IntactKept(m: Mem, h: Layout, m': Mem, h': Layout, p: int, b: Block)
    requires Keeps(m, h, m', h', p) && Intact(m, h, b) && b.mem - 1 != p
    ensures Intact(m', h', b)
  {
    var q := b.mem - 1;
    forall k | k in b.words
      ensures WordIn(m', h', b, k)
    {
      assert WordIn(m, h, b, k);
      PayloadWords(m, m', q, h.sz[q]);
      assert SameWord(m, UserWord(q), m', UserWord(q), k);
    }
  }

  lemma HeldStill(m: Mem, h: Layout, m': Mem, h': Layout, held: seq<Block>)
    requires Holding(m, h, held) && Keeps(m, h, m', h', h.base - 1) && LiveSet(h') == LiveSet(h) && h.base - 1 !in h.sz
    ensures Holding(m', h', held)
  {
    hide Keeps, LiveSet;
    forall i | 0 <= i < |held|
      ensures Intact(m', h', held[i])
    {
      IntactKept(m, h, m', h', h.base - 1, held[i]);
    }
  }

  lemma HeldMore(m: Mem, h: Layout, m': Mem, h': Layout, held: seq<Block>, p: int, room: int)
    requires h'.Live(p) && room <= UserWords(h'.sz[p])
    requires Holding(m, h, held) && Keeps(m, h, m', h', p) && !h.Live(p) && h'.Live(p) && LiveSet(h') == LiveSet(h) + {p}
    ensures Holding(m', h', held + [Block(p + 1, room, map[])])
  {
    hide Keeps;
    var more := held + [Block(p + 1, room, map[])];
    forall i | 0 <= i < |more|
      ensures Intact(m', h', more[i])
    {
      if i < |held| {
        IntactKept(m, h, m', h', p, held[i]);
      }
    }
    forall q | q in LiveSet(h')
      ensures HeldAt(more, q)
    {
      if q == p {
        assert more[|held|].mem == q + 1;
      } else {
        assert HeldAt(held, q);
        var i :| 0 <= i < |held| && held[i].mem == q + 1;
        assert more[i].mem == q + 1;
      }
    }
  }

  lemma HeldLess(m: Mem, h: Layout, m': Mem, h': Layout, held: seq<Block>, i: nat)
    requires Holding(m, h, held) && i < |held| && Keeps(m, h, m', h', held[i].mem - 1)
    requires LiveSet(h') == LiveSet(h) - {held[i].mem - 1}
    ensures Holding(m', h', held[..i] + held[i + 1..])
  {
    hide Keeps, LiveSet;
    var less := held[..i] + held[i + 1..];
    forall j | 0 <= j < |less|
      ensures Intact(m', h', less[j])
    {
      IntactKept(m, h, m', h', held[i].mem - 1, less[j]);
    }
    forall q | q in LiveSet(h')
      ensures HeldAt(less, q)
    {
      assert HeldAt(held, q);
      var j :| 0 <= j < |held| && held[j].mem == q + 1;
      assert less[if j < i then j else j - 1].mem == q + 1;
    }
  }

  /** What is left of block b at mem, with nb units: the words stored in what both have room for. */
  function Remade(b: Block, mem: int, nb: int): Block
  {
    Block(mem, UserWords(nb), map k | k in b.words && k < UserWords(nb) :: b.words[k])
  }

  lemma HeldMoved(m: Mem, h: Layout, m': Mem, h': Layout, held: seq<Block>, i: nat, q: int, nb: int)
    requires Holding(m, h, held) && i < |held| && Moved(m, h, m', h', held[i].mem - 1, q, nb) && nb >= MINSIZE
    ensures Holding(m', h', held[i := Remade(held[i], q + 1, nb)])
  {
    hide Keeps;
    var p := held[i].mem - 1;
    var b := Remade(held[i], q + 1, nb);
    var now := held[i := b];
    assert Intact(m', h', b) by {
      assert Intact(m, h, held[i]);
      forall k | k in b.words
        ensures WordIn(m', h', b, k)
      {
        assert WordIn(m, h, held[i], k);
        assert SameWord(m, UserWord(p), m', UserWord(q), k);
      }
    }
    forall j | 0 <= j < |now|
      ensures Intact(m', h', now[j]) && (j != i ==> now[j].mem != q + 1)
    {
      if j != i {
        IntactKept(m, h, m', h', p, held[j]);
        assert Intact(m, h, held[j]);
      }
    }
    forall x | x in LiveSet(h')
      ensures HeldAt(now, x)
    {
      if x == q {
        assert now[i].mem == x + 1;
      } else {
        assert HeldAt(held, x);
        var j :| 0 <= j < |held| && held[j].mem == x + 1;
        assert now[j].mem == x + 1;
      }
    }
  }

  // ---------------------------------------------------------------- stores

  /** u is a unit of block p behind its size word, or the one where the next chunk begins. */
  ghost predicate UserUnit(h: Layout, p: int, u: int)
  {
    Tiled(h) && h.Live(p) && p < u <= Next(h.sz, p)
  }

  lemma StoredApart(h: Layout, p: int, x: int, u: int)
    requires UserUnit(h, p, u) && x in h.sz
    ensures x != p ==> !(x < u <= Next(h.sz, x))
    ensures x == u ==> u == Next(h.sz, p)
  {
  }

  /** m' is m but for one word in unit u, the first if the unit is the next chunk's. */
  ghost predicate Stored(m: Mem, m': Mem, h: Layout, p: int, u: int)
  {
    && UserUnit(h, p, u) && (u == Next(h.sz, p) ==> m'.hi == m.hi)
    && forall v {:trigger m'.lo[v]} {:trigger m'.hi[v]} :: v != u ==> m'.lo[v] == m.lo[v] && m'.hi[v] == m.hi[v]
  }

  lemma StoreStored(m: Mem, h: Layout, p: int, k: int, w: int)
    requires Tiled(h) && h.Live(p) && 0 <= k < UserWords(h.sz[p])
    ensures Stored(m, Store(m, UserWord(p) + k, w), h, p, (UserWord(p) + k) / 2)
  {
  }

  lemma StoreHeads(m: Mem, m': Mem, h: Layout, p: int, u: int)
    requires Stored(m, m', h, p, u) && Heads(m, h)
    ensures Heads(m', h)
  {
    hide Tiled;
    forall x | x in h.sz
      ensures m'.hi[x] == m.hi[x]
    {
      StoredApart(h, p, x, u);
    }
    HeadsFrame(m, m', h);
  }

  lemma StoreFeet(m: Mem, m': Mem, h: Layout, p: int, u: int)
    requires Stored(m, m', h, p, u) && FeetOf(m, h.sz, h.free)
    ensures FeetOf(m', h.sz, h.free)
  {
    hide Tiled;
    forall x | x in h.free && x in h.sz
      ensures m'.lo[Next(h.sz, x)] == 16 * h.sz[x]
    {
      BehindChunk(h, p, x, u);
      StoredApart(h, p, x, u);
    }
  }

  lemma BehindChunk(h: Layout, p: int, x: int, u: int)
    requires UserUnit(h, p, u) && x in h.sz
    ensures x + 1 < Next(h.sz, x)
  {
  }

  lemma StoreLinks(m: Mem, m': Mem, h: Layout, lists: seq<seq<int>>, blocks: nat, p: int, u: int)
    requires Stored(m, m', h, p, u) && Linked(m, lists) && Binned(h.sz, h.free, lists, blocks) && h.free <= h.sz.Keys
    ensures Linked(m', lists)
  {
    hide Linked, Binned, Tiled;
    forall x | x < -1 || x in h.free
      ensures Fd(m', x) == Fd(m, x) && Bk(m', x) == Bk(m, x)
    {
      if x in h.free {
        BehindChunk(h, p, x, u);
        StoredApart(h, p, x, u);
      } else {
        BaseFirst(h, p);
      }
    }
    LinkedFrame(m, m', h.sz, h.free, lists, blocks);
  }

  lemma StorePayloads(m: Mem, m': Mem, h: Layout, p: int, u: int)
    requires Stored(m, m', h, p, u)
    ensures Keeps(m, h, m', h, p)
  {
    hide Tiled;
    forall x | h.Live(x) && x != p
      ensures SamePayload(m, m', x, h.sz[x])
    {
      StoredApart(h, p, x, u);
      BehindChunk(h, p, x, u);
    }
  }

  /** A word of a live block is no size word, no foot and no link: a store into the block leaves the heap as it is. */
  lemma StoreKeeps(m: Mem, h: Layout, lists: seq<seq<int>>, blocks: nat, p: int, k: int, w: int)
    requires Closed(m, h, lists, blocks) && h.Live(p) && 0 <= k < UserWords(h.sz[p])
    ensures var m' := Store(m, UserWord(p) + k, w); Closed(m', h, lists, blocks) && Keeps(m, h, m', h, p)
  {
    hide Linked, Binned, Coalesced, Heads, FeetOf, Stored, Store, Keeps, Tiled;
    var u, m' := (UserWord(p) + k) / 2, Store(m, UserWord(p) + k, w);
    StoreStored(m, h, p, k, w);
    StoreHeads(m, m', h, p, u);
    StoreFeet(m, m', h, p, u);
    StoreLinks(m, m', h, lists, blocks, p, u);
    StorePayloads(m, m', h, p, u);
  }

  lemma HeldStored(m: Mem, h: Layout, m': Mem, held: seq<Block>, i: nat, k: int, w: int)
    requires Holding(m, h, held) && i < |held| && h.Live(held[i].mem - 1) && 0 <= k < held[i].room
    requires m' == Store(m, UserWord(held[i].mem - 1) + k, w) && Keeps(m, h, m', h, held[i].mem - 1)
    ensures Holding(m', h, held[i := held[i].(words := held[i].words[k := w])])
  {
    hide Keeps, LiveSet, Store, Fetch;
    var p, b := held[i].mem - 1, held[i].(words := held[i].words[k := w]);
    var now := held[i := b];
    forall j | 0 <= j < |now|
      ensures Intact(m', h, now[j])
    {
      if j == i {
        assert Intact(m, h, held[i]);
        forall x | x in b.words
          ensures WordIn(m', h, b, x)
        {
          StoreFetch(m, UserWord(p) + k, w, UserWord(p) + x);
          assert x != k ==> WordIn(m, h, held[i], x);
        }
      } else {
        IntactKept(m, h, m', h, p, held[j]);
      }
    }
    forall q | q in LiveSet(h)
      ensures HeldAt(now, q)
    {
      assert HeldAt(held, q);
      var j :| 0 <= j < |held| && held[j].mem == q + 1;
      assert now[j].mem == q + 1;
    }
  }

  // ---------------------------------------------------------------- runs

  /** Requests far from the 2^31 bytes that sbrk cannot be asked for, or refused at once. */
  predicate Modest(e: Event)
  {
    match e
    case Allocate(bytes) => bytes < 0x7FFF_E000 || bytes >= LONG_END
    case Resize(_, bytes) => bytes < 0x7FFF_E000 || bytes >= LONG_END
    case Align(alignment, bytes) => Limbs.PowerOfTwo(alignment) && (alignment + bytes < 0x7FFF_E000 || bytes >= LONG_END)
    case Shrink(pad) => pad + 16 * MINSIZE < LONG_END
    case _ => true
  }

  function Named(held: seq<Block>, i: nat): int
  {
    if i < |held| then held[i].mem else 0
  }

  /** What a program holds after an event that returned ret; a place that is not held stands for NULL. */
  function After(held: seq<Block>, e: Event, ret: int): seq<Block>
  {
    match e
    case Allocate(bytes) => if ret == 0 then held else held + [Block(ret, UserWords(Units(bytes)), map[])]
    case Align(_, bytes) => if ret == 0 then held else held + [Block(ret, UserWords(Units(bytes)), map[])]
    case Release(i) => if i < |held| then held[..i] + held[i + 1..] else held
    case Resize(i, bytes) =>
      if ret == 0 then held
      else if i < |held| then held[i := Remade(held[i], ret, Units(bytes))]
      else held + [Block(ret, UserWords(Units(bytes)), map[])]
    case Shrink(_) => held
    case Put(i, k, w) =>
      if i < |held| && k < held[i].room then held[i := held[i].(words := held[i].words[k := w])] else held
  }

  function AfterAll(held: seq<Block>, events: seq<Event>, rets: seq<int>): seq<Block>
    requires |rets| == |events|
  {
    if events == [] then held
    else
      var n := |events| - 1;
      After(AfterAll(held, events[..n], rets[..n]), events[n], rets[n])
  }

  /** A heap as it is at one moment. */
  datatype Heap = Heap(m: Mem, h: Layout, brk: int, first: bool, full: bool)

  ghost function HeapOf(a: Arena): Heap
    reads a
  {
    Heap(a.m, a.h, a.brk, a.sbrkBase == -1, a.Full())
  }

  /** No free chunk has nb units, and the break cannot move as far as they need. */
  ghost predicate NoRoom(x: Heap, memEnd: int, nb: int)
  {
    memEnd == 0 || (TooSmall(x.h, nb) && Exhausted(x.brk, memEnd, nb, x.first, x.full))
  }

  /** When a call may return NULL. */
  ghost predicate Refusable(x: Heap, memEnd: int, held: seq<Block>, e: Event)
  {
    match e
    case Allocate(bytes) => bytes >= LONG_END || NoRoom(x, memEnd, Units(bytes))
    case Align(alignment, bytes) => bytes >= LONG_END || NoRoom(x, memEnd, Units(Padded(alignment, bytes)))
    case Resize(i, bytes) =>
      || bytes >= LONG_END
      || (NoRoom(x, memEnd, Units(bytes))
          && (i < |held| && held[i].mem - 1 in x.h.sz && memEnd != 0 ==>
                x.h.sz[held[i].mem - 1] < Units(bytes) && !Growable(x.h, held[i].mem - 1, Units(bytes))))
    case _ => true
  }

  ghost predicate Sound(a: Arena, held: seq<Block>)
    reads a
  {
    a.Valid() && Holding(a.m, a.h, held)
  }

  lemma SmallAsked(bytes: nat, first: bool)
    requires bytes < 0x7FFF_E100
    ensures Asked(Units(bytes), first) < 0x8000_0000
  {
    PageUpFacts(16 * Units(bytes) + 16 * MINSIZE);
    hide PageUp;
  }

  lemma ModestCopes(a: Arena, bytes: nat)
    requires bytes < 0x7FFF_E100 || bytes >= LONG_END
    ensures a.Copes(bytes)
  {
    hide Asked, Units, TooSmall;
    if bytes < LONG_END {
      SmallAsked(bytes, a.sbrkBase == -1);
    }
  }

  lemma ModestAlign(a: Arena, alignment: nat, bytes: nat)
    requires alignment + bytes < 0x7FFF_E000 || bytes >= LONG_END
    ensures a.AlignCopes(alignment, bytes)
  {
    hide Arena.Copes;
    if bytes < LONG_END {
      assert 16 * Units(bytes) <= bytes + 23 + 16 * MINSIZE;
      ModestCopes(a, bytes);
      ModestCopes(a, 16 * Units(bytes) + alignment + 16 * MINSIZE);
    }
  }

  lemma ModestPadded(alignment: nat, bytes: nat)
    requires alignment + bytes < 0x7FFF_E000 || bytes >= LONG_END
    ensures bytes < LONG_END ==> Padded(alignment, bytes) < LONG_END
  {
  }

  /** The heap is full once a block is held. */
  lemma HeldFull(a: Arena, held: seq<Block>, i: nat)
    requires Sound(a, held) && i < |held|
    ensures a.Full() && a.h.Live(held[i].mem - 1) && held[i].mem != 0
    ensures held[i].room <= UserWords(a.h.sz[held[i].mem - 1])
  {
    hide Heads, FeetOf, Linked, Binned, Coalesced, Settled, WordSized, LiveSet;
    assert Intact(a.m, a.h, held[i]);
  }

  lemma ObtainedHeld(m: Mem, h: Layout, m': Mem, h': Layout, held: seq<Block>, p: int, bytes: nat)
    requires Holding(m, h, held) && Obtained(m, h, m', h', p, Units(bytes))
    ensures Holding(m', h', held + [Block(p + 1, UserWords(Units(bytes)), map[])])
  {
    hide Holding, Keeps;
    HeldMore(m, h, m', h', held, p, UserWords(Units(bytes)));
  }

  method Allocating(a: Arena, held: seq<Block>, bytes: nat) returns (ret: int)
    requires Sound(a, held) && Modest(Allocate(bytes))
    modifies a
    ensures Sound(a, After(held, Allocate(bytes), ret))
    ensures ret == 0 ==> Refusable(old(HeapOf(a)), a.memEnd, held, Allocate(bytes))
  {
    hide Holding, Obtained, Keeps, LiveSet, Units, Arena.Full, Arena.Copes, Chosen, TooSmall, Exhausted, Erased, Destroyed;
    ghost var m0, h0 := a.m, a.h;
    ModestCopes(a, bytes);
    BaseApart(a);
    ret := a.Malloc(bytes);
    if ret != 0 {
      ObtainedHeld(m0, h0, a.m, a.h, held, ret - 1, bytes);
    } else {
      HeldStill(m0, h0, a.m, a.h, held);
    }
  }

  lemma BaseApart(a: Arena)
    requires a.Valid()
    ensures a.h.base - 1 !in a.h.sz
  {
    hide Heads, FeetOf, Linked, Binned, Coalesced, Settled, WordSized;
  }

  method Aligning(a: Arena, held: seq<Block>, alignment: nat, bytes: nat) returns (ret: int)
    requires Sound(a, held) && Modest(Align(alignment, bytes))
    modifies a
    ensures Sound(a, After(held, Align(alignment, bytes), ret))
    ensures ret == 0 ==> Refusable(old(HeapOf(a)), a.memEnd, held, Align(alignment, bytes))
  {
    hide Holding, Keeps, LiveSet, Units, Arena.Full, Arena.Empty, Arena.AlignCopes, Limbs.PowerOfTwo, Obtained, TooSmall, Exhausted, Padded;
    ModestPadded(alignment, bytes);
    ghost var m0, h0 := a.m, a.h;
    ModestAlign(a, alignment, bytes);
    BaseApart(a);
    ret := a.MemAlign(alignment, bytes);
    if ret != 0 {
      HeldMore(m0, h0, a.m, a.h, held, ret - 1, UserWords(Units(bytes)));
    } else {
      HeldStill(m0, h0, a.m, a.h, held);
    }
  }

  method Releasing(a: Arena, held: seq<Block>, i: nat)
    requires Sound(a, held)
    modifies a
    ensures Sound(a, After(held, Release(i), 0))
  {
    hide Holding, Keeps, LiveSet, Arena.Full;
    ghost var m0, h0 := a.m, a.h;
    if i < |held| {
      HeldFull(a, held, i);
      a.Free(held[i].mem);
      HeldLess(m0, h0, a.m, a.h, held, i);
    } else {
      a.Free(0);
    }
  }

  method Resizing(a: Arena, held: seq<Block>, i: nat, bytes: nat) returns (ret: int)
    requires Sound(a, held) && Modest(Resize(i, bytes))
    modifies a
    ensures Sound(a, After(held, Resize(i, bytes), ret))
    ensures ret == 0 ==> Refusable(old(HeapOf(a)), a.memEnd, held, Resize(i, bytes))
  {
    hide Holding, Obtained, Keeps, LiveSet, Moved, Units, Arena.Full, Arena.Copes, TooSmall, Exhausted, Growable;
    ghost var m0, h0 := a.m, a.h;
    ModestCopes(a, bytes);
    BaseApart(a);
    if i < |held| {
      HeldFull(a, held, i);
      ret := a.Realloc(held[i].mem, bytes);
    } else {
      ret := a.Realloc(0, bytes);
    }
    if ret == 0 {
      HeldStill(m0, h0, a.m, a.h, held);
    } else if i < |held| {
      HeldMoved(m0, h0, a.m, a.h, held, i, ret - 1, Units(bytes));
    } else {
      ObtainedHeld(m0, h0, a.m, a.h, held, ret - 1, bytes);
    }
  }

  method Shrinking(a: Arena, held: seq<Block>, pad: nat)
    requires Sound(a, held) && Modest(Shrink(pad))
    modifies a
    ensures Sound(a, After(held, Shrink(pad), 0))
  {
    hide Holding, Keeps, LiveSet, Arena.Full, Arena.Empty;
    ghost var m0, h0 := a.m, a.h;
    BaseApart(a);
    var released := a.Trim(pad);
    HeldStill(m0, h0, a.m, a.h, held);
  }

  /** The program stores w as the k-th word of a block. */
  method Putting(a: Arena, held: seq<Block>, i: nat, k: nat, w: int)
    requires Sound(a, held)
    modifies a
    ensures Sound(a, After(held, Put(i, k, w), 0))
  {
    hide Holding, Keeps, LiveSet, Store, Open, Coalesced, Settled, WordSized;
    if i < |held| && k < held[i].room {
      HeldFull(a, held, i);
      var p := held[i].mem - 1;
      StoreKeeps(a.m, a.h, a.lists, a.blocks, p, k, w);
      ghost var m0 := a.m;
      a.m := Store(a.m, UserWord(p) + k, w);
      HeldStored(m0, a.h, a.m, held, i, k, w);
    }
  }

  method Happen(a: Arena, held: seq<Block>, e: Event) returns (ret: int)
    requires Sound(a, held) && Modest(e)
    modifies a
    ensures Sound(a, After(held, e, ret))
    ensures ret == 0 ==> Refusable(old(HeapOf(a)), a.memEnd, held, e)
  {
    hide Sound, After, Modest, HeapOf;
    match e {
      case Allocate(bytes) => ret := Allocating(a, held, bytes);
      case Align(alignment, bytes) => ret := Aligning(a, held, alignment, bytes);
      case Release(i) => ret := 0; Releasing(a, held, i);
      case Resize(i, bytes) => ret := Resizing(a, held, i, bytes);
      case Shrink(pad) => ret := 0; Shrinking(a, held, pad);
      case Put(i, k, w) => ret := 0; Putting(a, held, i, k, w);
    }
  }

  lemma AfterMore(held: seq<Block>, events: seq<Event>, rets: seq<int>, n: nat, ret: int)
    requires |rets| == n < |events|
    ensures AfterAll(held, events[..n + 1], rets + [ret]) == After(AfterAll(held, events[..n], rets), events[n], ret)
  {
    hide After;
    assert events[..n + 1][..n] == events[..n] && (rets + [ret])[..n] == rets;
  }

  /** At each event the blocks held are intact, and NULL is returned only when it may be. */
  ghost predicate Told(heaps: seq<Heap>, memEnd: int, events: seq<Event>, rets: seq<int>, n: nat)
    requires n < |heaps| <= |rets| && |heaps| <= |events|
  {
    var held := AfterAll([], events[..n], rets[..n]);
    Holding(heaps[n].m, heaps[n].h, held) && (rets[n] == 0 ==> Refusable(heaps[n], memEnd, held, events[n]))
  }

  /**
   Any program of modest calls and stores: at its end the heap is sound, the live chunks are the blocks the program
   holds, each block is as large as it was asked for, and it still has the last word stored at every place, through all
   moves. On the way NULL is returned only to a request that is no long, or for which nothing fits, the break cannot
   move, and, when it is a resize, the block cannot grow in place.
   */
  method Run(a: Arena, events: seq<Event>) returns (rets: seq<int>, held: seq<Block>, ghost heaps: seq<Heap>)
    requires Sound(a, []) && forall e <- events :: Modest(e)
    modifies a
    ensures |rets| == |events| && held == AfterAll([], events, rets) && Sound(a, held)
    ensures |heaps| == |events| && (events != [] ==> heaps[0] == old(HeapOf(a)))
    ensures forall n: nat :: n < |events| ==> Told(heaps, a.memEnd, events, rets, n)
  {
    hide Sound, After, Modest, Refusable, Holding, HeapOf, Told, AfterAll;
    rets, held, heaps := [], [], [];
    NothingAfter();
    assert events[..0] == [];
    for n := 0 to |events|
      invariant n > 0 ==> |heaps| > 0 && heaps[0] == old(HeapOf(a))
      invariant n == 0 ==> HeapOf(a) == old(HeapOf(a))
      invariant |rets| == n == |heaps| && held == AfterAll([], events[..n], rets) && Sound(a, held)
      invariant forall k: nat :: k < n ==> Told(heaps, a.memEnd, events, rets, k)
    {
      assert events[n] in events;
      ghost var x, heaps0, rets0 := HeapOf(a), heaps, rets;
      SoundHolds(a, held);
      var ret := Happen(a, held, events[n]);
      AfterMore([], events, rets, n, ret);
      heaps := heaps + [x];
      rets := rets + [ret];
      assert rets[..n] == rets0;
      ToldNow(heaps, a.memEnd, events, rets, n, held);
      ToldStill(heaps0, heaps, a.memEnd, events, rets0, rets);
      held := After(held, events[n], ret);
    }
    assert events[..|events|] == events;
  }

  lemma NothingAfter()
    ensures AfterAll([], [], []) == []
  {
  }

  lemma SoundHolds(a: Arena, held: seq<Block>)
    requires Sound(a, held)
    ensures Holding(HeapOf(a).m, HeapOf(a).h, held)
  {
  }

  lemma ToldNow(heaps: seq<Heap>, memEnd: int, events: seq<Event>, rets: seq<int>, n: nat, held: seq<Block>)
    requires |heaps| == |rets| == n + 1 <= |events| && held == AfterAll([], events[..n], rets[..n])
    requires Holding(heaps[n].m, heaps[n].h, held) && (rets[n] == 0 ==> Refusable(heaps[n], memEnd, held, events[n]))
    ensures Told(heaps, memEnd, events, rets, n)
  {
  }

  lemma ToldStill(heaps: seq<Heap>, heaps': seq<Heap>, memEnd: int, events: seq<Event>, rets: seq<int>, rets': seq<int>)
    requires |heaps| == |rets| < |events| && |heaps'| == |rets'| == |heaps| + 1
    requires heaps'[..|heaps|] == heaps && rets'[..|rets|] == rets
    requires forall k: nat :: k < |heaps| ==> Told(heaps, memEnd, events, rets, k)
    ensures forall k: nat :: k < |heaps| ==> Told(heaps', memEnd, events, rets', k)
  {
    hide Holding, Refusable, AfterAll;
    forall k: nat | k < |heaps|
      ensures Told(heaps', memEnd, events, rets', k)
    {
      assert Told(heaps, memEnd, events, rets, k);
      assert heaps'[k] == heaps'[..|heaps|][k] && rets'[k] == rets'[..|rets|][k];
      assert rets'[..k] == rets'[..|rets|][..k] == rets[..k];
    }
  }

  // ---------------------------------------------------------------- requests that sbrk mistakes

  /** No chunk has more than the 2^27 units of the largest arena. */
  lemma ChunksSmall(a: Arena, x: int)
    requires a.Valid() && a.Full() && x in a.h.sz
    ensures a.h.sz[x] <= 0x800_0000
  {
    hide Heads, FeetOf, Linked, Binned, Coalesced, WordSized;
    assert Next(a.h.sz, a.h.top) == a.h.end;
    assert x != a.h.top ==> Next(a.h.sz, x) <= a.h.top;
  }

  lemma NothingLarge(a: Arena, nb: int)
    requires a.Valid() && a.Full() && nb > 0x800_0000
    ensures TooSmall(a.h, nb) && a.TopSize() - nb < MINSIZE && a.sbrkBase != -1
  {
    hide Open, Coalesced, Settled, WordSized, Arena.Full;
    a.TopBounds();
    a.TopFacts();
    ChunksSmall(a, a.h.top);
    forall x | x in a.h.free && x in a.h.sz
      ensures a.h.sz[x] < nb
    {
      ChunksSmall(a, x);
    }
  }

  /**
   In every heap, however sound: 2^31 bytes are a negative amount that leads below the arena, so that malloc clears
   it; 2^32 bytes are one page, so that malloc returns a block of 4 GiB when there is one page left.
   */
  lemma OversizedRequests(a: Arena)
    requires a.Valid() && a.Full()
    ensures a.brk - a.memStart < 0x7FFF_F000 ==>
      !a.Copes(0x8000_0000) && a.brk + ToInt(Asked(Units(0x8000_0000), false)) < a.memStart
    ensures a.brk + PAGE <= a.memEnd ==>
      !a.Copes(0x1_0000_0000) && a.brk + ToInt(Asked(Units(0x1_0000_0000), false)) >= a.memStart
  {
    hide Arena.Full, Arena.TopSize, TooSmall;
    assert Units(0x8000_0000) == 0x800_0001 && Units(0x1_0000_0000) == 0x1000_0001;
    assert PageUp(0x8000_0000 + 48) == 0x8000_1000 && PageUp(0x1_0000_0000 + 48) == 0x1_0000_1000;
    NothingLarge(a, 0x800_0001);
    NothingLarge(a, 0x1000_0001);
  }

  lemma NothingHeld(a: Arena)
    requires a.Valid() && a.Empty()
    ensures Sound(a, [])
  {
    hide Linked, Opened;
    BlankFacts(a.m, a.h, a.lists, a.blocks, a.top, a.m, a.h);
  }

  lemma RoomAtFirst()
    ensures Units(24) == MINSIZE && !Exhausted(0x1_0000, 0x11_0000, MINSIZE, true, false)
  {
  }

  lemma WordErased(m: Mem, h: Layout, p: int)
    requires Tiled(h) && p in h.sz && Erased(m, h.base, h.end)
    ensures Fetch(m, UserWord(p)) == 0
  {
    assert Next(h.sz, p) <= h.top + h.sz[h.top];
  }

  lemma StoredReads(a: Arena, held: seq<Block>, k: int)
    requires Sound(a, held) && |held| == 1 && k in held[0].words
    ensures Fetch(a.m, UserWord(held[0].mem - 1) + k) == held[0].words[k] && a.Full() && Tiled(a.h) && held[0].mem - 1 in a.h.sz
  {
    hide Heads, FeetOf, Linked, Binned, Coalesced, Settled, WordSized, LiveSet, Fetch;
    HeldFull(a, held, 0);
    assert Intact(a.m, a.h, held[0]) && WordIn(a.m, a.h, held[0], k);
  }

  /** A word stored in a live block, and read again after malloc has refused 2^31 bytes. */
  method LostBlock(words: Mem) returns (before: int, refused: int, after: int)
    requires forall i :: 1 <= i < NAV ==> Fd(words, BinAt(i)) == BinAt(i) && Bk(words, BinAt(i)) == BinAt(i)
    ensures before == 7 && refused == 0 && after == 0
  {
    hide Holding, Fetch, Asked, Chosen, TooSmall, Obtained, Erased, ToInt, Exhausted, Arena.Full, Arena.Empty, Arena.Copes, Keeps, LiveSet, Tiled;
    var a := new Arena(0x1_0000, 0x10_0000, words);
    NothingHeld(a);
    ModestCopes(a, 24);
    RoomAtFirst();
    a.MarkedHeap();
    ghost var m0, h0 := a.m, a.h;
    var mem := a.Malloc(24);
    assert mem != 0;
    ObtainedHeld(m0, h0, a.m, a.h, [], mem - 1, 24);
    var held := [Block(mem, UserWords(MINSIZE), map[])];
    assert [] + held == held;
    Putting(a, held, 0, 0, 7);
    var b := held[0].(words := held[0].words[0 := 7]);
    assert held[0 := b] == [b];
    held := [b];
    StoredReads(a, held, 0);
    before := Fetch(a.m, UserWord(mem - 1));
    OversizedRequests(a);
    ghost var h1 := a.h;
    refused := a.Malloc(0x8000_0000);
    WordErased(a.m, h1, mem - 1);
    after := Fetch(a.m, UserWord(mem - 1));
  }
}
