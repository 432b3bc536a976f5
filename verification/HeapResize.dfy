/** What realloc and memalign do to memory and layout, beyond taking and freeing whole chunks. */
module HeapResize {
  import opened Chunks
  import opened FreeLists
  import opened HeapSteps
  import opened HeapMoves

  // ---------------------------------------------------------------- contents as words

  /** The word at index a: two to a unit. */
  function Fetch(m: Mem, a: int): int
  {
    if a % 2 == 0 then m.lo[a / 2] else m.hi[a / 2]
  }

  function Store(m: Mem, a: int, v: int): Mem
  {
    if a % 2 == 0 then m.(lo := m.lo[a / 2 := v]) else m.(hi := m.hi[a / 2 := v])
  }

  /** The first word a user of chunk p sees, and how many there are in a chunk of n units. */
  function UserWord(p: int): int
  {
    2 * (p + 1)
  }

  function UserWords(n: int): int
  {
    2 * n - 1
  }

  lemma StoreFetch(m: Mem, a: int, v: int, b: int)
    ensures Fetch(Store(m, a, v), b) == if a == b then v else Fetch(m, b)
  {
  }

  ghost predicate SameWord(m: Mem, src: int, m': Mem, dst: int, i: int)
  {
    Fetch(m', dst + i) == Fetch(m, src + i)
  }

  /** k words from src in m are k words from dst in m'. */
  ghost predicate SameWords(m: Mem, src: int, m': Mem, dst: int, k: int)
  {
    forall i :: 0 <= i < k ==> SameWord(m, src, m', dst, i)
  }

  /** k words from src are at dst now, and no other word differs. */
  ghost predicate Copied(m: Mem, m': Mem, dst: int, src: int, k: int)
  {
    SameWords(m, src, m', dst, k) && forall a {:trigger Fetch(m', a)} :: !(dst <= a < dst + k) ==> Fetch(m', a) == Fetch(m, a)
  }

  lemma CopiedNone(m: Mem, dst: int, src: int)
    ensures Copied(m, m, dst, src, 0)
  {
  }

  /** One more word copied upwards: the source has not been overwritten yet. */
  lemma CopiedMore(m: Mem, m': Mem, dst: int, src: int, i: int, k: int)
    requires Copied(m, m', dst, src, i) && 0 <= i < k && (dst <= src || src + k <= dst)
    ensures Copied(m, Store(m', dst + i, Fetch(m', src + i)), dst, src, i + 1)
  {
    hide Fetch, Store;
    var m'' := Store(m', dst + i, Fetch(m', src + i));
    forall a
      ensures Fetch(m'', a) == if a == dst + i then Fetch(m', src + i) else Fetch(m', a)
    {
      StoreFetch(m', dst + i, Fetch(m', src + i), a);
    }
    forall j | 0 <= j < i + 1
      ensures SameWord(m, src, m'', dst, j)
    {
      assert j < i ==> SameWord(m, src, m', dst, j);
    }
  }

  /** m' is m but for units strictly between c and e. */
  ghost predicate SameBut(m: Mem, m': Mem, c: int, e: int)
  {
    forall u {:trigger SameUnit(m, m', u)} :: !(c < u < e) ==> SameUnit(m, m', u)
  }

  /** Copying the contents of a chunk of n units into a larger chunk q stays inside q. */
  lemma CopyInside(m: Mem, m': Mem, q: int, p: int, n: int, size: int)
    requires Copied(m, m', UserWord(q), UserWord(p), UserWords(n)) && 0 < n < size
    ensures SameBut(m, m', q, q + size)
  {
    forall u | !(q < u < q + size)
      ensures SameUnit(m, m', u)
    {
      assert Fetch(m', 2 * u) == Fetch(m, 2 * u);
      assert Fetch(m', 2 * u + 1) == Fetch(m, 2 * u + 1);
    }
  }

  /** The contents of a chunk, as payload and as words. */
  lemma PayloadWords(m: Mem, m': Mem, p: int, n: int)
    requires SamePayload(m, m', p, n) && n > 0
    ensures SameWords(m, UserWord(p), m', UserWord(p), UserWords(n))
  {
    forall i | 0 <= i < UserWords(n)
      ensures SameWord(m, UserWord(p), m', UserWord(p), i)
    {
      var u := p + 1 + i / 2;
      assert UserWord(p) + i == 2 * u + i % 2;
      assert u < p + n ==> SameUnit(m, m', u);
    }
  }

  lemma WordsOn(m: Mem, p: int, m': Mem, q: int, m'': Mem, k: int, k': int)
    requires SameWords(m, p, m', q, k) && SameWords(m', q, m'', q, k')
    ensures SameWords(m, p, m'', q, if k <= k' then k else k')
  {
    hide Fetch;
    forall i | 0 <= i < k && i < k'
      ensures SameWord(m, p, m'', q, i)
    {
      assert SameWord(m, p, m', q, i) && SameWord(m', q, m'', q, i);
    }
  }

  // ---------------------------------------------------------------- moving contents inside a chunk

  /** The inside of a chunk that is in no bin may be written at will. */
  lemma Scribbled(m: Mem, m': Mem, h: Layout, F: set<int>, lists: seq<seq<int>>, blocks: nat, c: int)
    requires Open(m, h, F, lists, blocks) && c in h.sz && c !in F && SameBut(m, m', c, Next(h.sz, c))
    ensures Open(m', h, F, lists, blocks) && SamePayloads(m, m', h, c)
  {
    hide Linked, Binned, Heads, FeetOf;
    ScribbledTags(m, m', h, c);
    HeadsFrame(m, m', h);
    FeetFrame(m, m', h, F, F);
    ScribbledLinks(m, m', h, F, lists, blocks, c);
    forall a | h.Live(a) && a != c
      ensures SamePayload(m, m', a, h.sz[a])
    {
      OutsidePayload(m, m', h, c, a);
    }
  }

  lemma ScribbledTags(m: Mem, m': Mem, h: Layout, c: int)
    requires Tiled(h) && c in h.sz && SameBut(m, m', c, Next(h.sz, c))
    ensures SameHeads(m, m', h.sz, h.base - 1) && forall a {:trigger a in h.sz} :: a in h.sz ==> m'.lo[a] == m.lo[a]
  {
    NoneBetween(h, c);
    forall a | a in h.sz
      ensures m'.hi[a] == m.hi[a] && m'.lo[a] == m.lo[a]
    {
      assert SameUnit(m, m', a);
    }
  }

  lemma OutsidePayload(m: Mem, m': Mem, h: Layout, c: int, a: int)
    requires Tiled(h) && c in h.sz && a in h.sz && a != c && a != h.top && SameBut(m, m', c, Next(h.sz, c))
    ensures SamePayload(m, m', a, h.sz[a])
  {
    assert Next(h.sz, a) == a + h.sz[a];
    if a < c {
      Apart(h, a, c);
    } else {
      Apart(h, c, a);
    }
    assert SameUnit(m, m', a + h.sz[a]);
    forall u | a < u < a + h.sz[a]
      ensures SameUnit(m, m', u)
    {
    }
  }

  lemma ScribbledLinks(m: Mem, m': Mem, h: Layout, F: set<int>, lists: seq<seq<int>>, blocks: nat, c: int)
    requires Tiled(h) && Linked(m, lists) && Binned(h.sz, F, lists, blocks) && c in h.sz && c !in F
    requires SameBut(m, m', c, Next(h.sz, c))
    ensures Linked(m', lists)
  {
    hide Linked, BinIndex, Bit, Sorted, Tiled;
    BaseFirst(h, c);
    forall q | q < -1 || q in F
      ensures Fd(m', q) == Fd(m, q) && Bk(m', q) == Bk(m, q)
    {
      if q in F && c < q + 1 < Next(h.sz, c) {
        LinkApart(h, q, c, q + 1);
        assert false;
      }
      assert SameUnit(m, m', q + 1);
    }
    LinkedFrame(m, m', h.sz, F, lists, blocks);
  }

  // ---------------------------------------------------------------- a chunk that has swallowed its neighbours

  /** q has s units, though its size word does not say so yet; it is the one chunk that is live or in limbo. */
  ghost predicate Swelled(m: Mem, h: Layout, F: set<int>, lists: seq<seq<int>>, blocks: nat, q: int, s: int)
  {
    && Held(JoinMem(m, q, s), h, F, lists, blocks, q) && q in h.sz && h.sz[q] == s && q != h.top && q !in F
  }

  /** Rewriting an in-use bit with what it is already. */
  lemma BitAgain(m: Mem, h: Layout, F: set<int>, lists: seq<seq<int>>, blocks: nat, p: int)
    requires Open(m, h, F, lists, blocks) && h.Live(p)
    ensures Open(SetBit(m, Next(h.sz, p)), h, F, lists, blocks)
    ensures SamePayloads(m, SetBit(m, Next(h.sz, p)), h, h.base - 1)
  {
    var n := Next(h.sz, p);
    assert HeadAt(m, h, p) && n in h.sz && HeadAt(m, h, n);
    hide Linked, Binned, FeetOf, Heads, Tag, ChunkSize, PrevInuse, SamePayloads;
    Retagged(m, h, F, lists, blocks, n);
  }

  /** set_head_size and set_inuse_bit_at_offset: q is in use, with all its units. */
  lemma SwelledTaken(m: Mem, h: Layout, F: set<int>, lists: seq<seq<int>>, blocks: nat, q: int, s: int)
    requires Swelled(m, h, F, lists, blocks, q, s)
    ensures var m', h' := SetBit(JoinMem(m, q, s), q + s), h.(free := F);
      && Closed(m', h', lists, blocks) && Keeps(m, h, m', h', q) && LiveSet(h') == LiveSet(h) + {q} && h'.Live(q)
      && SamePayload(m, m', q, s)
  {
    hide Open, SamePayloads, SetBit, LiveSet, SameLive, JoinMem, SamePayload;
    var m1 := JoinMem(m, q, s);
    OpenFacts(m1, h, F, lists, blocks);
    assert Next(h.sz, q) == q + s;
    TakenPayload(m, h, q, s);
    HeadInside(m, h, q, s);
    if q in h.free {
      TakenWhole(m1, h, F, lists, blocks, q);
    } else {
      BitAgain(m1, h, F, lists, blocks, q);
      assert h.(free := F) == h;
      ClosedIsHeld(SetBit(m1, q + s), h, lists, blocks, q);
      assert LiveSet(h) == LiveSet(h) + {q} by {
        LiveIn(h, q);
      }
      LiveSame(h, q);
    }
    KeptThrough(m, m1, SetBit(m1, q + s), h, h.(free := F), q);
  }

  lemma LiveIn(h: Layout, q: int)
    requires h.Live(q)
    ensures LiveSet(h) == LiveSet(h) + {q}
  {
  }

  /** Size words are no payload: q's own, and its successor's. */
  lemma TakenPayload(m: Mem, h: Layout, q: int, s: int)
    requires Tiled(h) && q in h.sz && h.sz[q] == s
    ensures SamePayload(m, SetBit(JoinMem(m, q, s), q + s), q, s)
  {
    assert s > 0;
  }

  lemma HeadInside(m: Mem, h: Layout, q: int, s: int)
    requires Tiled(h) && q in h.sz && h.sz[q] == s
    ensures SamePayloads(m, JoinMem(m, q, s), h, h.base - 1)
  {
    assert q < Next(h.sz, q);
    HeadWrite(m, h, q, q, Tag(s, PrevInuse(m.hi[q])));
  }

  /** The writes that cut q down to n units, in the order realloc makes them. */
  function TrimmedMem(m: Mem, q: int, s: int, n: int): Mem
  {
    SetBit(SetHead(JoinMem(m, q, n), q + n, Tag(s - n, true)), q + s)
  }

  lemma TrimmedOrder(m: Mem, q: int, s: int, n: int)
    requires 0 < n < s
    ensures TrimmedMem(m, q, s, n) == CutMem(SetBit(JoinMem(m, q, s), q + s), q, s, n)
  {
    hide Tag, PrevInuse, ChunkSize, SetHead, SetBit;
    var e, w, w', r := q + s, Tag(s, PrevInuse(m.hi[q])), Tag(n, PrevInuse(m.hi[q])), Tag(s - n, true);
    var x := Tag(ChunkSize(m.hi[e]), true);
    TagReads(s, PrevInuse(m.hi[q]));
    HeadReads(m, q, w, q);
    HeadReads(m, q, w, e);
    HeadReads(m, q, w', e);
    HeadReads(SetHead(m, q, w'), q + n, r, e);
    HeadReads(SetHead(m, q, w), e, x, q);
    BitReads(SetHead(m, q, w), e);
    BitReads(SetHead(SetHead(m, q, w'), q + n, r), e);
    SwapHeads(m, q, w, e, x);
    SwapHeads(SetHead(m, q, w'), q + n, r, e, x);
    SwapHeads(m, e, x, q, w');
    OverwriteHead(SetHead(m, e, x), q, w, w');
  }

  lemma HeadReads(m: Mem, a: int, w: int, b: int)
    ensures SetHead(m, a, w).hi[b] == if a == b then w else m.hi[b]
  {
  }

  lemma BitReads(m: Mem, b: int)
    ensures SetBit(m, b) == SetHead(m, b, Tag(ChunkSize(m.hi[b]), true))
  {
  }

  lemma SwapHeads(m: Mem, a: int, w: int, b: int, x: int)
    requires a != b
    ensures SetHead(SetHead(m, a, w), b, x) == SetHead(SetHead(m, b, x), a, w)
  {
    SwapWords(m.hi, a, w, b, x);
  }

  lemma OverwriteHead(m: Mem, a: int, w: int, w': int)
    ensures SetHead(SetHead(m, a, w), a, w') == SetHead(m, a, w')
  {
    OverwriteWord(m.hi, a, w, w');
  }

  /** The swollen chunk is cut after n units; both parts are live until the second one is freed. */
  lemma SwelledCut(m: Mem, h: Layout, F: set<int>, lists: seq<seq<int>>, blocks: nat, q: int, s: int, n: int)
    requires Swelled(m, h, F, lists, blocks, q, s) && MINSIZE <= n <= s - MINSIZE
    ensures var m', h' := TrimmedMem(m, q, s, n), CutOf(h.(free := F), q, n);
      && Closed(m', h', lists, blocks) && Keeps(m, h, m', h', q) && LiveSet(h') == LiveSet(h) + {q, q + n}
      && h'.Live(q) && h'.sz[q] == n && h'.Live(q + n) && SamePayload(m, m', q, n) && q + n !in h.sz
      && h'.top == h.top && h'.base == h.base && h'.end == h.end
  {
    hide Open, SamePayloads, SetBit, LiveSet, SameLive, JoinMem, SamePayload, Cut, CutMem, TrimmedMem;
    var m1, h1 := SetBit(JoinMem(m, q, s), q + s), h.(free := F);
    SwelledTaken(m, h, F, lists, blocks, q, s);
    OpenFacts(m1, h1, F, lists, blocks);
    var m', h' := CutMem(m1, q, s, n), CutOf(h1, q, n);
    CutStep(m1, h1, F, lists, blocks, q, n);
    CutLive(h1, q, n);
    CoalescedHeld(h1, F);
    CutParted(h1, F, q, n);
    CutPayload(m1, q, s, n);
    TrimmedOrder(m, q, s, n);
    ClosedIsHeld(m', h', lists, blocks, q);
    hide Held, Coalesced, Parted;
    KeptTwice(m, h, m1, h1, m', h', q);
    PayloadShorter(m, m1, q, s, n);
    PayloadTransitive(m, m1, m', q, n);
  }

  lemma CoalescedHeld(h: Layout, F: set<int>)
    requires Tiled(h) && Coalesced(h) && F <= h.free
    ensures Parted(h, h.free) && Parted(h, F)
  {
  }

  lemma CutPayload(m: Mem, q: int, s: int, n: int)
    requires n > 0
    ensures SamePayload(m, CutMem(m, q, s, n), q, n)
  {
  }

  lemma PayloadShorter(m: Mem, m': Mem, q: int, s: int, n: int)
    requires SamePayload(m, m', q, s) && 0 < n <= s
    ensures SamePayload(m, m', q, n)
  {
    assert n < s ==> SameUnit(m, m', q + n);
  }

  lemma KeptTwice(m: Mem, h: Layout, m': Mem, h': Layout, m'': Mem, h'': Layout, p: int)
    requires Keeps(m, h, m', h', p) && SamePayloads(m', m'', h', p) && SameLive(h', h'', p)
    ensures Keeps(m, h, m'', h'', p)
  {
    KeepsTransitive(m, h, m', h', m'', h'', p);
  }

  // ---------------------------------------------------------------- growing over the neighbours

  /** p is live, q the chunk it is to start at; whatever it grows over has left its bin, and F is all that is binned. */
  ghost predicate Growing(h: Layout, F: set<int>, q: int, p: int, forward: bool)
  {
    && h.Live(p) && (q == p || (q in h.sz && q in h.free && q != h.top && Next(h.sz, q) == p))
    && p !in F && q !in F && Next(h.sz, p) in h.sz && (forward ==> Next(h.sz, p) !in F)
    && h.free == F + (if q == p then {} else {q}) + (if forward && Next(h.sz, p) != h.top then {Next(h.sz, p)} else {})
    && Parted(h, F)
  }

  /** The layout of the swollen chunk. */
  lemma Grown(h: Layout, F: set<int>, q: int, p: int, forward: bool)
    requires Tiled(h) && h.free <= h.sz.Keys - {h.top} && Growing(h, F, q, p, forward) && F <= h.free
    ensures var h' := MergeOf(h, q, p, forward);
      && Tiled(h') && q in h'.sz && SameLive(h, h', p) && h'.base == h.base && h'.end == h.end
      && LiveSet(h') == LiveSet(h) - {p} + (if forward then {} else {q})
      && h'.free == F + (if forward && Next(h.sz, p) != h.top then {q} else {})
      && (if forward && Next(h.sz, p) == h.top then h'.top == q else h'.top == h.top != q && Parted(h', F))
  {
    hide Tiled, Joined;
    var h', last := MergeOf(h, q, p, forward), LastOf(h, p, forward);
    MergeSpan(h, q, p, forward);
    FusedLive(h, h', q, last, p);
    if last != h.top {
      GrownParted(h, h', F, q, last);
    }
    hide MergeOf;
  }

  lemma GrownParted(h: Layout, h': Layout, F: set<int>, q: int, last: int)
    requires Tiled(h) && Fused(h, h', q, last) && Parted(h, F) && last != h.top && F <= h.free <= h.sz.Keys
    requires forall x :: x in F ==> !(q <= x <= last)
    ensures Parted(h', F)
  {
    hide Tiled;
    forall x | x in F
      ensures x in h'.sz && Next(h'.sz, x) == Next(h.sz, x)
    {
    }
  }

  /** Growing, with the contents moved from p to q meanwhile. */
  lemma Gathered(m: Mem, m': Mem, h: Layout, F: set<int>, lists: seq<seq<int>>, blocks: nat, q: int, p: int, forward: bool)
    requires Open(m, h, F, lists, blocks) && Growing(h, F, q, p, forward)
    requires SameBut(m, m', q, q + MergeOf(h, q, p, forward).sz[q])
    ensures var h' := MergeOf(h, q, p, forward);
      Open(JoinMem(m', q, h'.sz[q]), h', F, lists, blocks) && Keeps(m, h, m', h', p)
  {
    hide Open, Tiled, SamePayloads, JoinMem, Joined, SameBut, SameLive, MergeOf, Parted, SamePayload, LiveSet;
    OpenFacts(m, h, F, lists, blocks);
    var h' := MergeOf(h, q, p, forward);
    var s := h'.sz[q];
    Grown(h, F, q, p, forward);
    Merged(m, h, F, lists, blocks, q, p, forward);
    JoinOutside(m, m', q, s);
    Scribbled(JoinMem(m, q, s), JoinMem(m', q, s), h', F, lists, blocks, q);
    MergeSpan(h, q, p, forward);
    forall a | h.Live(a) && a != p
      ensures SamePayload(m, m', a, h.sz[a])
    {
      OutsideFused(m, m', h, h', q, p, forward, a);
    }
    assert SamePayloads(m, m', h, p) by {
      PayloadsOf(m, m', h, p);
    }
  }

  lemma PayloadsOf(m: Mem, m': Mem, h: Layout, p: int)
    requires forall a {:trigger h.Live(a)} :: h.Live(a) && a != p ==> SamePayload(m, m', a, h.sz[a])
    ensures SamePayloads(m, m', h, p)
  {
    forall a | h.Live(a) && a != p
      ensures SamePayload(m, m', a, h.sz[a])
    {
    }
  }

  lemma JoinOutside(m: Mem, m': Mem, q: int, s: int)
    requires SameBut(m, m', q, q + s)
    ensures SameBut(JoinMem(m, q, s), JoinMem(m', q, s), q, q + s)
  {
    assert SameUnit(m, m', q);
    hide Tag, PrevInuse;
    forall u | !(q < u < q + s)
      ensures SameUnit(JoinMem(m, q, s), JoinMem(m', q, s), u)
    {
      assert SameUnit(m, m', u);
    }
  }

  lemma OutsideFused(m: Mem, m': Mem, h: Layout, h': Layout, q: int, p: int, forward: bool, a: int)
    requires Tiled(h) && p in h.sz && p != h.top && (q == p || (q in h.sz && q != h.top && q in h.free && Next(h.sz, q) == p))
    requires forward ==> Next(h.sz, p) == h.top || Next(h.sz, p) in h.free
    requires Fused(h, h', q, LastOf(h, p, forward)) && h.Live(a) && a != p && SameBut(m, m', q, q + h'.sz[q])
    ensures SamePayload(m, m', a, h.sz[a])
  {
    MergeSpan(h, q, p, forward);
    var last := LastOf(h, p, forward);
    assert Next(h.sz, a) == a + h.sz[a];
    if a < q {
      Apart(h, a, q);
    } else {
      Apart(h, last, a);
    }
    assert SameUnit(m, m', a + h.sz[a]);
    forall u | a < u < a + h.sz[a]
      ensures SameUnit(m, m', u)
    {
    }
  }

  /** A chunk that grew, but not over top, before its size word is written. */
  lemma SwelledFrom(m: Mem, m': Mem, h: Layout, F: set<int>, lists: seq<seq<int>>, blocks: nat, q: int, p: int, forward: bool)
    requires Open(m, h, F, lists, blocks) && Growing(h, F, q, p, forward) && (forward ==> Next(h.sz, p) != h.top)
    requires SameBut(m, m', q, q + MergeOf(h, q, p, forward).sz[q])
    ensures var h' := MergeOf(h, q, p, forward);
      && Swelled(m', h', F, lists, blocks, q, h'.sz[q]) && Keeps(m, h, m', h', p) && LiveSet(h') + {q} == LiveSet(h) - {p} + {q}
      && h'.base == h.base && h'.end == h.end && h'.top == h.top && q in h'.sz
  {
    hide Open, Tiled, SameBut, JoinMem, MergeOf, Parted, Fused, Keeps, LiveSet, SameLive;
    OpenFacts(m, h, F, lists, blocks);
    Grown(h, F, q, p, forward);
    Gathered(m, m', h, F, lists, blocks, q, p, forward);
  }

  /** A chunk that grows over top gives back all but n units. */
  lemma IntoTop(m: Mem, m': Mem, h: Layout, F: set<int>, lists: seq<seq<int>>, blocks: nat, q: int, p: int, n: int)
    requires Open(m, h, F, lists, blocks) && Growing(h, F, q, p, true) && Next(h.sz, p) == h.top
    requires SameBut(m, m', q, q + MergeOf(h, q, p, true).sz[q]) && MINSIZE <= n <= MergeOf(h, q, p, true).sz[q] - MINSIZE
    ensures var g := MergeOf(h, q, p, true);
      var m'', h' := JoinMem(SetHead(m', q + n, Tag(g.sz[q] - n, true)), q, n), CutOf(g, q, n);
      && Closed(m'', h', lists, blocks) && Keeps(m, h, m'', h', p) && LiveSet(h') == LiveSet(h) - {p} + {q}
      && h'.Live(q) && h'.sz[q] == n && h'.top == q + n && h'.base == h.base && h'.end == h.end
      && SamePayload(m', m'', q, n)
  {
    hide Open, Tiled, SamePayloads, SameBut, JoinMem, MergeOf, Parted, Fused, LiveSet, SameLive, Tag, Cut, CutMem, SamePayload, SetHead;
    OpenFacts(m, h, F, lists, blocks);
    var g := MergeOf(h, q, p, true);
    var s := g.sz[q];
    Grown(h, F, q, p, true);
    Gathered(m, m', h, F, lists, blocks, q, p, true);
    var m1 := JoinMem(m', q, s);
    CutStep(m1, g, F, lists, blocks, q, n);
    OpenFacts(m1, g, F, lists, blocks);
    CutLive(g, q, n);
    TopCutParted(h, g, F, q, p, n);
    TopCutOrder(m', q, s, n);
    var m'', h' := CutMem(m1, q, s, n), CutOf(g, q, n);
    JoinedContents(m', m1, m'', g, q, s);
    TopCutPayload(m', q, s, n);
    assert h'.free == F;
    ClosedIsHeld(m'', h', lists, blocks, q);
    assert LiveSet(h') == LiveSet(h) - {p} + {q};
    KeptPast(m, h, m', g, m'', h', p, q);
  }

  lemma TopCutParted(h: Layout, g: Layout, F: set<int>, q: int, p: int, n: int)
    requires Tiled(h) && Tiled(g) && h.free <= h.sz.Keys - {h.top} && Growing(h, F, q, p, true) && Next(h.sz, p) == h.top
    requires Fused(h, g, q, h.top) && MINSIZE <= n <= g.sz[q] - MINSIZE
    ensures Parted(CutOf(g, q, n), F)
  {
    MergeSpan(h, q, p, true);
    CutShape(g, CutOf(g, q, n), q, n);
    hide Cut;
    forall x | x in F
      ensures Next(CutOf(g, q, n).sz, x) == Next(h.sz, x) && Next(h.sz, x) in h.sz && x in CutOf(g, q, n).sz
    {
      assert x in h.sz && x != q;
      assert !(q < x <= h.top);
    }
    NotInside(h, g, q, n);
  }

  lemma NotInside(h: Layout, g: Layout, q: int, n: int)
    requires Tiled(g) && Fused(h, g, q, h.top) && Tiled(h) && MINSIZE <= n <= g.sz[q] - MINSIZE
    ensures forall x {:trigger x in h.sz} :: x in h.sz && x <= q ==> x != q + n
  {
  }

  lemma TopCutOrder(m: Mem, q: int, s: int, n: int)
    requires n > 0
    ensures JoinMem(SetHead(m, q + n, Tag(s - n, true)), q, n) == CutMem(JoinMem(m, q, s), q, s, n)
  {
    hide Tag, PrevInuse, SetHead;
    var w, w', r := Tag(s, PrevInuse(m.hi[q])), Tag(n, PrevInuse(m.hi[q])), Tag(s - n, true);
    TagReads(s, PrevInuse(m.hi[q]));
    HeadReads(m, q, w, q);
    HeadReads(m, q + n, r, q);
    OverwriteHead(m, q, w, w');
    SwapHeads(m, q, w', q + n, r);
  }

  lemma TopCutPayload(m: Mem, q: int, s: int, n: int)
    requires n > 0
    ensures SamePayload(m, JoinMem(SetHead(m, q + n, Tag(s - n, true)), q, n), q, n)
  {
  }

  lemma JoinedContents(m: Mem, m1: Mem, m': Mem, g: Layout, q: int, s: int)
    requires Tiled(g) && q in g.sz && m1 == JoinMem(m, q, s) && SamePayloads(m1, m', g, q)
    ensures SamePayloads(m, m', g, q)
  {
    assert q < Next(g.sz, q);
    HeadWrite(m, g, q, q, Tag(s, PrevInuse(m.hi[q])));
    hide JoinMem;
    OtherPayloads(m, m1, m', g, q);
  }

  lemma KeptPast(m: Mem, h: Layout, m': Mem, g: Layout, m'': Mem, h': Layout, p: int, q: int)
    requires Keeps(m, h, m', g, p) && SamePayloads(m', m'', g, q) && SameLive(g, h', q) && !g.Live(q)
    ensures Keeps(m, h, m'', h', p)
  {
    forall a | h.Live(a) && a != p
      ensures h'.Live(a) && h'.sz[a] == h.sz[a] && SamePayload(m, m'', a, h.sz[a])
    {
      assert g.Live(a) && a in g.sz && a != q;
      PayloadTransitive(m, m', m'', a, h.sz[a]);
    }
  }
}
