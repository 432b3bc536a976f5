/** Whole moves of malloc, free and realloc on memory and layout, each made of the steps of HeapSteps. */
module HeapMoves {
  import opened Chunks
  import opened FreeLists
  import opened HeapSteps

  ghost function LiveSet(h: Layout): set<int>
  {
    h.sz.Keys - h.free - {h.top}
  }

  /** The chunks of F are not neighbours of each other, nor of top. */
  ghost predicate Parted(h: Layout, F: set<int>)
  {
    forall a {:trigger Next(h.sz, a)} :: a in F && a in h.sz ==> Next(h.sz, a) !in F && Next(h.sz, a) != h.top
  }

  /** An open heap whose limbo chunk, if there is one, is p: all other free chunks are binned and apart. */
  ghost predicate Held(m: Mem, h: Layout, F: set<int>, lists: seq<seq<int>>, blocks: nat, p: int)
  {
    Open(m, h, F, lists, blocks) && Parted(h, F) && (h.free == F || (h.free == F + {p} && p !in F))
  }

  lemma ClosedIsHeld(m: Mem, h: Layout, lists: seq<seq<int>>, blocks: nat, p: int)
    ensures Closed(m, h, lists, blocks) <==> Held(m, h, h.free, lists, blocks, p)
  {
    hide FeetOf, Heads, Linked, Binned;
    if Open(m, h, h.free, lists, blocks) {
      assert h.free + {p} == h.free ==> p in h.free;
    }
  }

  /** A free chunk's predecessor is in use, and so is top's. */
  lemma FreeAfterUsed(m: Mem, h: Layout, F: set<int>, q: int)
    requires Tiled(h) && Heads(m, h) && Parted(h, F) && h.free == F && q in h.sz && (q in F || q == h.top)
    ensures PrevInuse(m.hi[q])
  {
    if q != h.base {
      var r := Predecessor(h, q);
      assert HeadAt(m, h, r) && Next(h.sz, r) == q;
    }
  }

  // ---------------------------------------------------------------- taking a chunk

  /** A whole chunk is taken: its in-use bit is set. */
  lemma TakenWhole(m: Mem, h: Layout, F: set<int>, lists: seq<seq<int>>, blocks: nat, p: int)
    requires Held(m, h, F, lists, blocks, p) && p in h.free && p !in F
    ensures var m', h' := SetBit(m, Next(h.sz, p)), h.(free := F);
      && Closed(m', h', lists, blocks) && SamePayloads(m, m', h, h.base - 1) && SameLive(h, h', p)
      && LiveSet(h') == LiveSet(h) + {p}
  {
    hide FeetOf, Heads, Linked, Binned, SetBit, SamePayloads;
    MarkedUsed(m, h, F, lists, blocks, p);
    assert h.free - {p} == F;
    LiveByFree(h, h.(free := F), p);
  }

  /** Only the free set changes, and only as to p. */
  lemma LiveByFree(h: Layout, h': Layout, p: int)
    requires h' == h.(free := h'.free) && p in h.sz && p != h.top
    requires h.free + {p} == h'.free + {p}
    ensures SameLive(h, h', p)
    ensures p in h.free && p !in h'.free ==> LiveSet(h') == LiveSet(h) + {p}
    ensures p !in h.free && p in h'.free ==> LiveSet(h') == LiveSet(h) - {p}
  {
    forall a | a in h.sz && a != p
      ensures h.Live(a) <==> h'.Live(a)
    {
      assert a in h.free <==> a in h.free + {p};
      assert a in h'.free <==> a in h'.free + {p};
    }
  }

  // ---------------------------------------------------------------- splitting a chunk

  /** What a cut does to the live chunks. */
  lemma CutLive(h: Layout, a: int, n: int)
    requires Tiled(h) && a in h.sz && MINSIZE <= n <= h.sz[a] - MINSIZE && h.free <= h.sz.Keys - {h.top}
    ensures SameLive(h, CutOf(h, a, n), a)
    ensures LiveSet(CutOf(h, a, n)) == LiveSet(h) + if h.Live(a) then {a + n} else {a}
    ensures CutOf(h, a, n).Live(a) && CutOf(h, a, n).sz[a] == n
    ensures h.Live(a) ==> CutOf(h, a, n).Live(a + n) && CutOf(h, a, n).sz[a + n] == h.sz[a] - n
  {
    var h' := CutOf(h, a, n);
    CutShape(h, h', a, n);
    hide Cut;
    forall b | b in h.sz && b != a
      ensures h.Live(b) <==> h'.Live(b)
    {
      assert b != a + n;
    }
    assert forall b :: b in LiveSet(h') <==> b in LiveSet(h) + if h.Live(a) then {a + n} else {a};
  }

  lemma CutParted(h: Layout, F: set<int>, a: int, n: int)
    requires Tiled(h) && a in h.sz && MINSIZE <= n <= h.sz[a] - MINSIZE && h.free <= h.sz.Keys - {h.top}
    requires Parted(h, h.free) && F <= h.free && a !in F
    ensures Parted(CutOf(h, a, n), F)
    ensures a in h.free ==> Parted(CutOf(h, a, n), F + {a + n})
  {
    var h' := CutOf(h, a, n);
    assert Next(h.sz, a) == a + h.sz[a];
    CutShape(h, h', a, n);
    hide Cut;
    forall b | b in F + {a + n} && b in h'.sz && (b in F || a in h.free)
      ensures Next(h'.sz, b) !in F + {a + n} && Next(h'.sz, b) != h'.top
    {
      if b != a + n {
        assert b in h.sz && Next(h'.sz, b) == Next(h.sz, b);
      }
    }
  }

  /** set_head, link_last_remainder, set_head, set_foot: the writes of a split, as malloc orders them. */
  function SplitMem(m: Mem, p: int, size: int, n: int): Mem
  {
    SetFoot(SetHead(LinkLast(SetHead(m, p, Tag(n, true)), p + n), p + n, Tag(size - n, true)), p + n, size - n)
  }

  /** Updates of different words commute; of two updates of one word the later one stands. */
  lemma SwapWords(w: Words, a: int, x: int, b: int, y: int)
    requires a != b
    ensures w[a := x][b := y] == w[b := y][a := x]
  {
  }

  lemma OverwriteWord(w: Words, a: int, x: int, y: int)
    ensures w[a := x][a := y] == w[a := y]
  {
  }

  lemma LastWords(m: Mem, r: int)
    ensures LinkLast(m, r) == Mem(m.lo[BinAt(1) + 1 := r][r + 1 := BinAt(1)], m.hi[BinAt(1) + 1 := r][r + 1 := BinAt(1)])
    ensures ClearLast(m) == Mem(m.lo[BinAt(1) + 1 := BinAt(1)], m.hi[BinAt(1) + 1 := BinAt(1)])
  {
  }

  /** Linking the last remainder commutes with writing tags. */
  lemma LinkLastOrder(m: Mem, r: int, a: int, w: int)
    requires a >= 0 && a != r + 1
    ensures LinkLast(SetHead(m, a, w), r) == SetHead(LinkLast(m, r), a, w)
  {
    hide LinkLast, ClearLast;
    LastWords(m, r);
    LastWords(SetHead(m, a, w), r);
    SwapWords(m.hi, a, w, BinAt(1) + 1, r);
    SwapWords(m.hi[BinAt(1) + 1 := r], a, w, r + 1, BinAt(1));
  }

  lemma LinkLastForgets(m: Mem, r: int)
    ensures LinkLast(ClearLast(m), r) == LinkLast(m, r)
  {
    hide LinkLast, ClearLast;
    LastWords(m, r);
    LastWords(ClearLast(m), r);
    OverwriteWord(m.lo, BinAt(1) + 1, BinAt(1), r);
    OverwriteWord(m.hi, BinAt(1) + 1, BinAt(1), r);
  }

  lemma LinkLastFoot(m: Mem, r: int, a: int, n: int)
    requires a + n >= 0 && a + n != r + 1
    ensures LinkLast(SetFoot(m, a, n), r) == SetFoot(LinkLast(m, r), a, n)
  {
    hide LinkLast;
    LastWords(m, r);
    LastWords(SetFoot(m, a, n), r);
    SwapWords(m.lo, a + n, 16 * n, BinAt(1) + 1, r);
    SwapWords(m.lo[BinAt(1) + 1 := r], a + n, 16 * n, r + 1, BinAt(1));
  }

  /** The links of the remainder are neither its size word nor its foot, so the order is no matter. */
  lemma SplitOrder(m: Mem, p: int, size: int, n: int)
    requires p >= 0 && n >= MINSIZE && size - n >= MINSIZE && PrevInuse(m.hi[p])
    ensures SplitMem(m, p, size, n) == LinkLast(SetFoot(CutMem(m, p, size, n), p + n, size - n), p + n)
    ensures SplitMem(ClearLast(m), p, size, n) == SplitMem(m, p, size, n)
  {
    hide Tag, PrevInuse, LinkLast, SetFoot, SetHead, ClearLast;
    var r, w, w' := p + n, Tag(n, true), Tag(size - n, true);
    LinkLastForgets(m, r);
    LinkLastOrder(m, r, p, w);
    LinkLastOrder(ClearLast(m), r, p, w);
    LinkLastOrder(SetHead(m, p, w), r, r, w');
    LinkLastFoot(SetHead(SetHead(m, p, w), r, w'), r, r, size - n);
  }

  /** A free chunk that is in no bin is split: its first n units are taken, the rest is the last remainder. */
  lemma SplitOff(m: Mem, h: Layout, F: set<int>, lists: seq<seq<int>>, blocks: nat, p: int, n: int)
    requires Held(m, h, F, lists, blocks, p) && Parted(h, h.free) && p in h.free && p !in F && lists[1] == []
    requires MINSIZE <= n <= h.sz[p] - MINSIZE
    ensures var m', h' := SplitMem(m, p, h.sz[p], n), CutOf(h, p, n);
      && Closed(m', h', lists[1 := [p + n]], blocks) && SamePayloads(m, m', h, p) && SameLive(h, h', p)
      && LiveSet(h') == LiveSet(h) + {p} && h'.Live(p) && h'.sz[p] == n
  {
    hide Tiled, FeetOf, Heads, Linked, Binned, SetFoot, LinkLast, CutMem, SamePayloads, Cut, Parted, SplitMem;
    hide SameLive;
    var h' := CutOf(h, p, n);
    var m1 := CutMem(m, p, h.sz[p], n);
    ListCount(m, lists);
    CutStep(m, h, F, lists, blocks, p, n);
    CutLive(h, p, n);
    CutParted(h, F, p, n);
    CutEnd(h, p, n);
    assert h'.free == F + {p + n};
    var m2 := SetFoot(m1, p + n, h.sz[p] - n);
    Footed(m1, h', F, lists, blocks, p + n);
    var m3 := LinkLast(m2, p + n);
    LastLinked(m2, h', F, lists, blocks, p + n);
    ThroughCut(m, m1, m2, h, h', p);
    ThroughCut(m, m2, m3, h, h', p);
    UsedBefore(m, h, p);
    SplitOrder(m, p, h.sz[p], n);
    ClosedIsHeld(m3, h', lists[1 := [p + n]], blocks, p + n);
  }

  lemma ListCount(m: Mem, lists: seq<seq<int>>)
    requires Linked(m, lists)
    ensures |lists| == NAV
  {
  }

  lemma CutEnd(h: Layout, a: int, n: int)
    requires Tiled(h) && a in h.sz && MINSIZE <= n <= h.sz[a] - MINSIZE
    ensures a + n in CutOf(h, a, n).sz && CutOf(h, a, n).sz[a + n] == h.sz[a] - n && a >= 0 && a + n !in h.sz
    ensures CutOf(h, a, n).base == h.base && Tiled(CutOf(h, a, n))
  {
    CutShape(h, CutOf(h, a, n), a, n);
    CutTiled(h, CutOf(h, a, n), a, n);
  }

  lemma UsedBefore(m: Mem, h: Layout, q: int)
    requires Tiled(h) && Heads(m, h) && Parted(h, h.free) && q in h.sz && (q in h.free || q == h.top)
    ensures PrevInuse(m.hi[q])
  {
    FreeAfterUsed(m, h, h.free, q);
  }

  /** Contents kept under h' are kept for the chunks h and h' share. */
  lemma ThroughCut(m: Mem, m': Mem, m'': Mem, h: Layout, h': Layout, p: int)
    requires SamePayloads(m, m', h, p) && SameLive(h, h', p) && SamePayloads(m', m'', h', h'.base - 1)
    requires Tiled(h')
    ensures SamePayloads(m, m'', h, p)
  {
    forall a | h.Live(a) && a != p
      ensures SamePayload(m, m'', a, h.sz[a])
    {
      assert h'.Live(a) && a in h'.sz;
      PayloadTransitive(m, m', m'', a, h.sz[a]);
    }
  }

  // ---------------------------------------------------------------- top

  /** The front of top is taken; top is what remains of it. */
  lemma TopSplit(m: Mem, h: Layout, lists: seq<seq<int>>, blocks: nat, n: int)
    requires Closed(m, h, lists, blocks) && MINSIZE <= n <= h.sz[h.top] - MINSIZE
    ensures var m', h' := SetHead(SetHead(m, h.top, Tag(n, true)), h.top + n, Tag(h.sz[h.top] - n, true)), CutOf(h, h.top, n);
      && Closed(m', h', lists, blocks) && SamePayloads(m, m', h, h.top) && SameLive(h, h', h.top)
      && LiveSet(h') == LiveSet(h) + {h.top} && h'.Live(h.top) && h'.sz[h.top] == n && h'.top == h.top + n
      && h'.end == h.end && h'.base == h.base
  {
    hide FeetOf, Heads, Linked, Binned, SamePayloads, Cut, Parted, Tag, PrevInuse, SetHead;
    ClosedIsHeld(m, h, lists, blocks, h.top);
    CutStep(m, h, h.free, lists, blocks, h.top, n);
    CutLive(h, h.top, n);
    CutParted(h, h.free, h.top, n);
    UsedBefore(m, h, h.top);
    ClosedIsHeld(CutMem(m, h.top, h.sz[h.top], n), CutOf(h, h.top, n), lists, blocks, h.top);
  }

  /** top with d units more at its end, or -d units fewer. */
  ghost function Resized(h: Layout, d: int): Layout
    requires h.top in h.sz
  {
    h.(sz := h.sz[h.top := h.sz[h.top] + d], end := h.end + d)
  }

  /** m' is m up to the nearer end, apart from top's size word. */
  ghost predicate SameBelow(m: Mem, m': Mem, top: int, end: int)
  {
    && (forall u {:trigger m'.lo[u]} :: u < end ==> m'.lo[u] == m.lo[u])
    && (forall u {:trigger m'.hi[u]} :: u < end && u != top ==> m'.hi[u] == m.hi[u])
  }

  lemma ResizedShape(h: Layout, d: int)
    requires Tiled(h) && h.sz[h.top] + d >= MINSIZE && h.free <= h.sz.Keys - {h.top}
    ensures Tiled(Resized(h, d)) && LiveSet(Resized(h, d)) == LiveSet(h)
    ensures SameLive(h, Resized(h, d), h.base - 1)
    ensures forall a {:trigger Next(Resized(h, d).sz, a)} :: a in h.sz && a != h.top ==>
      Next(Resized(h, d).sz, a) == Next(h.sz, a) && Resized(h, d).sz[a] == h.sz[a]
    ensures Parted(h, h.free) ==> Parted(Resized(h, d), h.free)
  {
    var h' := Resized(h, d);
    assert Next(h.sz, h.top) == h.top + h.sz[h.top];
    assert h'.sz.Keys == h.sz.Keys;
    forall a | a in h.sz && a != h.top
      ensures a in h'.sz && h'.sz[a] == h.sz[a] && (h.Live(a) <==> h'.Live(a))
      ensures Next(h'.sz, a) == Next(h.sz, a) && Next(h.sz, a) in h'.sz
    {
    }
    assert LiveSet(h') == LiveSet(h);
  }

  /** Memory added after top, or given back from its end, changes nothing else. */
  lemma TopResized(m: Mem, m': Mem, h: Layout, lists: seq<seq<int>>, blocks: nat, d: int)
    requires Closed(m, h, lists, blocks) && h.sz[h.top] + d >= MINSIZE
    requires m'.hi[h.top] == Tag(h.sz[h.top] + d, true) && SameBelow(m, m', h.top, h.top + MINSIZE)
    ensures Closed(m', Resized(h, d), lists, blocks) && SamePayloads(m, m', h, h.base - 1)
  {
    var h' := Resized(h, d);
    ResizedShape(h, d);
    UsedBefore(m, h, h.top) by {
      ClosedIsHeld(m, h, lists, blocks, h.top);
    }
    ResizedHeads(m, m', h, d);
    ResizedLists(m, m', h, h', lists, blocks);
    ResizedContents(m, m', h, h');
    hide FeetOf, Heads, Linked, Binned, Parted, Tiled, SamePayloads, Tag, Resized;
    ClosedIsHeld(m, h, lists, blocks, h.top);
    ClosedIsHeld(m', h', lists, blocks, h.top);
  }

  lemma ResizedHead(m: Mem, m': Mem, h: Layout, d: int, a: int)
    requires Tiled(h) && Heads(m, h) && h.sz[h.top] + d >= MINSIZE && h.free <= h.sz.Keys - {h.top}
    requires m'.hi[h.top] == Tag(h.sz[h.top] + d, true) && SameBelow(m, m', h.top, h.top + MINSIZE)
    requires PrevInuse(m.hi[h.top]) && a in Resized(h, d).sz
    ensures HeadAt(m', Resized(h, d), a)
  {
    hide Tag, ChunkSize, PrevInuse, SameLive, LiveSet, Parted;
    ResizedShape(h, d);
    TagReads(h.sz[h.top] + d, true);
    assert HeadAt(m, h, a);
  }

  lemma ResizedBase(m: Mem, m': Mem, h: Layout, d: int)
    requires Tiled(h) && Heads(m, h) && h.sz[h.top] + d >= MINSIZE
    requires m'.hi[h.top] == Tag(h.sz[h.top] + d, true) && SameBelow(m, m', h.top, h.top + MINSIZE)
    ensures PrevInuse(m'.hi[h.base])
  {
    hide Tag, ChunkSize, PrevInuse;
    TagReads(h.sz[h.top] + d, true);
  }

  lemma ResizedHeads(m: Mem, m': Mem, h: Layout, d: int)
    requires Tiled(h) && Heads(m, h) && h.sz[h.top] + d >= MINSIZE && h.free <= h.sz.Keys - {h.top}
    requires m'.hi[h.top] == Tag(h.sz[h.top] + d, true) && SameBelow(m, m', h.top, h.top + MINSIZE)
    requires PrevInuse(m.hi[h.top])
    ensures Heads(m', Resized(h, d))
  {
    hide Tag, ChunkSize, PrevInuse, HeadAt, SameBelow;
    ResizedBase(m, m', h, d);
    var h' := Resized(h, d);
    forall a | a in h'.sz
      ensures HeadAt(m', h', a)
    {
      ResizedHead(m, m', h, d, a);
    }
  }

  lemma ResizedLists(m: Mem, m': Mem, h: Layout, h': Layout, lists: seq<seq<int>>, blocks: nat)
    requires Tiled(h) && Linked(m, lists) && Binned(h.sz, h.free, lists, blocks) && h.free <= h.sz.Keys - {h.top}
    requires h'.free == h.free && SameBelow(m, m', h.top, h.top + MINSIZE)
    requires forall a :: a in h.free ==> a in h'.sz && h'.sz[a] == h.sz[a]
    ensures Linked(m', lists) && Binned(h'.sz, h.free, lists, blocks)
  {
    hide BinIndex, Bit, Ring;
    forall q | q < -1 || q in h.free
      ensures Fd(m', q) == Fd(m, q) && Bk(m', q) == Bk(m, q)
    {
      if q in h.free {
        Apart(h, q, h.top);
      } else {
        BaseFirst(h, h.top);
      }
    }
    LinkedFrame(m, m', h.sz, h.free, lists, blocks);
    BinnedFrame(h.sz, h'.sz, h.free, lists, blocks);
  }

  lemma ResizedContents(m: Mem, m': Mem, h: Layout, h': Layout)
    requires Tiled(h) && h.free <= h.sz.Keys - {h.top} && SameBelow(m, m', h.top, h.top + MINSIZE)
    requires forall a :: a in h.free ==> a in h'.sz && h'.sz[a] == h.sz[a]
    requires FeetOf(m, h.sz, h.free)
    ensures FeetOf(m', h'.sz, h.free) && SamePayloads(m, m', h, h.base - 1)
  {
    forall a | a in h.free
      ensures m'.lo[Next(h'.sz, a)] == 16 * h'.sz[a]
    {
      Apart(h, a, h.top);
      assert Next(h'.sz, a) == Next(h.sz, a);
    }
    forall a | h.Live(a)
      ensures SamePayload(m, m', a, h.sz[a])
    {
      Apart(h, a, h.top);
      assert Next(h.sz, a) == a + h.sz[a];
    }
  }

  // ---------------------------------------------------------------- merging neighbours

  /** h' is h with the chunks from q to last made one, which has the standing of the last of them. */
  ghost predicate Fused(h: Layout, h': Layout, q: int, last: int)
  {
    && q in h.sz && last in h.sz && q <= last && q in h'.sz
    && h'.base == h.base && h'.end == h.end && h'.top == (if last == h.top then q else h.top)
    && h'.sz[q] == Next(h.sz, last) - q
    && (forall x {:trigger x in h'.sz} :: x in h'.sz <==> x in h.sz && !(q < x <= last))
    && (forall x {:trigger h'.sz[x]} :: x in h'.sz && x != q ==> h'.sz[x] == h.sz[x])
    && (forall x {:trigger x in h'.free} :: x in h'.free <==>
      if x == q then last in h.free else x in h.free && !(q < x <= last))
  }

  lemma FusedSelf(h: Layout, q: int)
    requires q in h.sz
    ensures Fused(h, h, q, q)
  {
  }

  lemma FusedJoin(h: Layout, h': Layout, q: int, last: int)
    requires Tiled(h) && Tiled(h') && Fused(h, h', q, last) && last != h.top
    requires h.free <= h.sz.Keys && h'.free <= h'.sz.Keys
    ensures Next(h'.sz, q) == Next(h.sz, last) && q != h'.top && Next(h.sz, last) in h'.sz
    ensures Next(h'.sz, q) in h'.free <==> Next(h.sz, last) in h.free
    ensures Fused(h, JoinOf(h', q), q, Next(h.sz, last)) && Tiled(JoinOf(h', q))
  {
    var n, g := Next(h.sz, last), JoinOf(h', q);
    assert Next(h'.sz, q) == n > last;
    JoinTiled(h', g, q);
    JoinShape(h', g, q);
    NoneBetween(h, last);
    hide Joined, Tiled;
    assert Next(g.sz, q) == Next(h'.sz, n) && g.sz[q] == Next(g.sz, q) - q;
    assert h'.sz[n] == h.sz[n] && Next(h.sz, n) == Next(h'.sz, n);
  }

  lemma NoneBetween(h: Layout, a: int)
    requires Tiled(h) && a in h.sz
    ensures forall x {:trigger x in h.sz} :: x in h.sz ==> !(a < x < Next(h.sz, a))
  {
  }

  /** What a merge does to the live chunks, when at most p among the merged ones was live. */
  lemma FusedLive(h: Layout, h': Layout, q: int, last: int, p: int)
    requires Tiled(h) && Tiled(h') && Fused(h, h', q, last) && q <= p <= last
    requires forall x :: x in h.sz && q <= x <= last && x != p ==> !h.Live(x)
    ensures SameLive(h, h', p)
    ensures LiveSet(h') == LiveSet(h) - {p} + if h.Live(last) then {q} else {}
    ensures h'.Live(q) <==> h.Live(last)
  {
    forall x | x in h.sz && !(q <= x <= last)
      ensures x in h'.sz && h'.sz[x] == h.sz[x] && (h.Live(x) <==> h'.Live(x))
    {
    }
    forall x
      ensures x in LiveSet(h') <==> x in LiveSet(h) - {p} + if h.Live(last) then {q} else {}
    {
      if x in h.sz && q <= x <= last && x != p {
        assert !h.Live(x);
      }
    }
    assert LiveSet(h') == LiveSet(h) - {p} + if h.Live(last) then {q} else {};
  }

  /** No chunk of F ends where q begins. */
  ghost predicate NoneBefore(h: Layout, F: set<int>, q: int)
  {
    forall x {:trigger Next(h.sz, x)} :: x in F && x in h.sz ==> Next(h.sz, x) != q
  }

  lemma FusedParted(h: Layout, h': Layout, F: set<int>, q: int, last: int)
    requires Tiled(h) && Fused(h, h', q, last) && Parted(h, F) && NoneBefore(h, F, q)
    requires forall x :: x in F ==> x in h.sz && !(q <= x <= last)
    ensures Parted(h', F) && NoneBefore(h', F, q)
    ensures Next(h.sz, last) !in F && Next(h.sz, last) != h.top && last != h.top ==> Parted(h', F + {q})
  {
    assert Next(h.sz, last) > last && Next(h'.sz, q) == Next(h.sz, last);
    forall x | x in F
      ensures x in h'.sz && Next(h'.sz, x) == Next(h.sz, x)
    {
    }
    forall x | x in F + {q} && x in h'.sz && Next(h.sz, last) !in F && Next(h.sz, last) != h.top && last != h.top
      ensures Next(h'.sz, x) !in F + {q} && Next(h'.sz, x) != h'.top
    {
      if x != q {
        assert x in F && Next(h.sz, x) !in F;
      }
    }
  }

  /** A size word may be rewritten with the size and bit it already has. */
  lemma Retagged(m: Mem, h: Layout, F: set<int>, lists: seq<seq<int>>, blocks: nat, a: int)
    requires Open(m, h, F, lists, blocks) && a in h.sz
    ensures Open(JoinMem(m, a, h.sz[a]), h, F, lists, blocks) && SamePayloads(m, JoinMem(m, a, h.sz[a]), h, h.base - 1)
  {
    var w := Tag(h.sz[a], PrevInuse(m.hi[a]));
    assert a < Next(h.sz, a);
    TagReads(h.sz[a], PrevInuse(m.hi[a]));
    hide Linked, Binned, FeetOf, Tag, ChunkSize, PrevInuse, SamePayloads;
    HeadStep(m, h, F, lists, blocks, a, a, w);
    forall b | b in h.sz
      ensures HeadAt(SetHead(m, a, w), h, b)
    {
      assert HeadAt(m, h, b);
    }
  }

  /** Joining twice leaves only the last size word. */
  lemma Rejoined(m: Mem, q: int, s: int, s': int)
    ensures JoinMem(JoinMem(m, q, s), q, s') == JoinMem(m, q, s')
    ensures PrevInuse(JoinMem(m, q, s).hi[q]) <==> PrevInuse(m.hi[q])
  {
    TagReads(s, PrevInuse(m.hi[q]));
    hide Tag, PrevInuse, ChunkSize;
    OverwriteWord(m.hi, q, Tag(s, PrevInuse(m.hi[q])), Tag(s', PrevInuse(m.hi[q])));
  }

  /** p joined with q, when q is the chunk before it, and then with its successor, when that is wanted. */
  ghost function MergeOf(h: Layout, q: int, p: int, forward: bool): (h': Layout)
    requires Tiled(h) && p in h.sz && p != h.top && (q == p || (q in h.sz && q != h.top && Next(h.sz, q) == p))
    requires h.free <= h.sz.Keys - {h.top}
    ensures Fused(h, h', q, if forward then Next(h.sz, p) else p) && Tiled(h') && q in h'.sz
  {
    FusedSelf(h, q);
    if q == p then
      if forward then
        FusedJoin(h, h, q, q);
        JoinOf(h, q)
      else h
    else
      FusedJoin(h, h, q, q);
      if forward then
        JoinFree(h, q);
        FusedJoin(h, JoinOf(h, q), q, p);
        JoinOf(JoinOf(h, q), q)
      else JoinOf(h, q)
  }

  lemma JoinFree(h: Layout, q: int)
    requires Tiled(h) && q in h.sz && q != h.top && h.free <= h.sz.Keys - {h.top}
    ensures JoinOf(h, q).free <= JoinOf(h, q).sz.Keys - {JoinOf(h, q).top}
  {
    JoinShape(h, JoinOf(h, q), q);
  }

  /** Merging takes one size word; neither q nor p nor the successor that is joined is in a bin. */
  lemma Merged(m: Mem, h: Layout, F: set<int>, lists: seq<seq<int>>, blocks: nat, q: int, p: int, forward: bool)
    requires Open(m, h, F, lists, blocks)
    requires p in h.sz && p != h.top && (q == p || (q in h.sz && q != h.top && Next(h.sz, q) == p))
    requires q !in F && p !in F && (forward ==> Next(h.sz, p) !in F)
    ensures var h' := MergeOf(h, q, p, forward);
      var m' := JoinMem(m, q, h'.sz[q]);
      Open(m', h', F, lists, blocks) && SamePayloads(m, m', h, h.base - 1)
  {
    hide Linked, Binned, FeetOf, Heads, SamePayloads, JoinMem, Joined, Fused;
    if q == p {
      if forward {
        JoinedStep(m, h, F, lists, blocks, p);
      } else {
        Retagged(m, h, F, lists, blocks, p);
      }
    } else {
      JoinedStep(m, h, F, lists, blocks, q);
      if forward {
        MergedOn(m, h, F, lists, blocks, q, p);
      }
    }
  }

  lemma MergedOn(m: Mem, h: Layout, F: set<int>, lists: seq<seq<int>>, blocks: nat, q: int, p: int)
    requires Open(m, h, F, lists, blocks)
    requires p in h.sz && p != h.top && q in h.sz && q != h.top && Next(h.sz, q) == p
    requires q !in F && p !in F && Next(h.sz, p) !in F
    ensures var h' := MergeOf(h, q, p, true);
      var m' := JoinMem(m, q, h'.sz[q]);
      Open(m', h', F, lists, blocks) && SamePayloads(m, m', h, h.base - 1)
  {
    hide Tiled, Linked, Binned, FeetOf, Heads, SamePayloads, Joined, Fused, Tag, JoinMem;
    var h1 := JoinOf(h, q);
    JoinTop(h, q);
    var s := h.sz[q] + h.sz[p];
    JoinedStep(m, h, F, lists, blocks, q);
    var m1 := JoinMem(m, q, s);
    JoinedStep(m1, h1, F, lists, blocks, q);
    var s' := MergeOf(h, q, p, true).sz[q];
    Rejoined(m, q, s, s');
    HeadWritten(m, h, q, s');
  }

  lemma JoinTop(h: Layout, q: int)
    requires Tiled(h) && q in h.sz && q != h.top && Next(h.sz, q) != h.top
    ensures Next(h.sz, q) in h.sz && q in JoinOf(h, q).sz && JoinOf(h, q).top != q && JoinOf(h, q).base == h.base
    ensures Next(JoinOf(h, q).sz, q) == Next(h.sz, Next(h.sz, q))
  {
    JoinShape(h, JoinOf(h, q), q);
  }

  lemma HeadWritten(m: Mem, h: Layout, q: int, s: int)
    requires Tiled(h) && q in h.sz
    ensures SamePayloads(m, JoinMem(m, q, s), h, h.base - 1)
  {
    HeadWrite(m, h, q, q, Tag(s, PrevInuse(m.hi[q])));
  }

  // ---------------------------------------------------------------- free

  /** The last of the chunks that a merge around p takes in. */
  ghost function LastOf(h: Layout, p: int, forward: bool): int
    requires p in h.sz
  {
    if forward then Next(h.sz, p) else p
  }

  /** p is marked free, and it and the free chunks beside it have left the bins: what free merges. */
  ghost predicate Freeing(h: Layout, F: set<int>, q: int, p: int, forward: bool)
  {
    && p in h.sz && p in h.free && p != h.top && p !in F
    && (q == p || (q in h.sz && q != h.top && q !in F && Next(h.sz, q) == p))
    && (forward ==> Next(h.sz, p) in h.sz && Next(h.sz, p) !in F)
    && h.free == F + {q, p} + (if forward then {Next(h.sz, p)} else {})
    && Parted(h, F) && NoneBefore(h, F, q)
    && LastOf(h, p, forward) in h.sz && LastOf(h, p, forward) != h.top
    && Next(h.sz, LastOf(h, p, forward)) !in F && Next(h.sz, LastOf(h, p, forward)) != h.top
  }

  /** Which chunks free merges: those whose tags say so. */
  lemma FreeingStarts(m: Mem, h: Layout, lists: seq<seq<int>>, blocks: nat, p: int, q: int, forward: bool)
    requires Closed(m, h, lists, blocks) && h.Live(p) && Next(h.sz, p) != h.top
    requires if PrevInuse(m.hi[p]) then q == p else q in h.free && Next(h.sz, q) == p
    requires forward <==> Next(h.sz, p) in h.free
    ensures Freeing(h.(free := h.free + {p}), h.free - {q} - {LastOf(h, p, forward)}, q, p, forward)
  {
    hide Linked, Binned, FeetOf;
    var F := h.free - {q} - {LastOf(h, p, forward)};
    var n := Next(h.sz, p);
    assert n in h.sz && p < n;
    forall x | x in h.free
      ensures Next(h.sz, x) !in h.free && (Next(h.sz, x) == q ==> x == q)
    {
      assert HeadAt(m, h, x);
    }
    if forward {
      assert Next(h.sz, n) !in h.free;
      assert Next(h.sz, n) > n;
    }
    assert h.free + {p} == F + {q, p} + (if forward then {n} else {});
  }

  /** What free's merge leaves: one free chunk more than F, apart from all the others. */
  lemma FreeingEnds(h: Layout, F: set<int>, q: int, p: int, forward: bool)
    requires Tiled(h) && Freeing(h, F, q, p, forward) && F <= h.free <= h.sz.Keys - {h.top}
    ensures var h' := MergeOf(h, q, p, forward);
      && q in h'.sz && h'.free == F + {q} && q !in F && Parted(h', F + {q}) && Tiled(h')
      && SameLive(h, h', p) && LiveSet(h') == LiveSet(h)
      && h'.base == h.base && h'.end == h.end && h'.top == h.top
  {
    hide Tiled, Joined;
    var h', last := MergeOf(h, q, p, forward), LastOf(h, p, forward);
    MergeSpan(h, q, p, forward);
    forall x | x in F
      ensures x in h.sz && !(q <= x <= last)
    {
    }
    FusedParted(h, h', F, q, last);
    FusedLive(h, h', q, last, p);
    hide Fused, MergeOf;
  }

  /** A merge takes in q, p and the successor, and nothing else. */
  lemma MergeSpan(h: Layout, q: int, p: int, forward: bool)
    requires Tiled(h) && p in h.sz && p != h.top && (q == p || (q in h.sz && q != h.top && Next(h.sz, q) == p))
    ensures forall x {:trigger x in h.sz} :: x in h.sz && q <= x <= LastOf(h, p, forward) ==>
      x == q || x == p || (forward && x == Next(h.sz, p))
    ensures q <= p <= LastOf(h, p, forward)
  {
    NoneBetween(h, q);
    NoneBetween(h, p);
  }

  /** set_head and set_foot of the merged chunk. */
  function FreedMem(m: Mem, q: int, size: int): Mem
  {
    SetFoot(SetHead(m, q, Tag(size, true)), q, size)
  }

  lemma FreedLoose(m: Mem, h: Layout, F: set<int>, lists: seq<seq<int>>, blocks: nat, q: int, p: int, forward: bool)
    requires Open(m, h, F, lists, blocks) && Freeing(h, F, q, p, forward) && PrevInuse(m.hi[q])
    ensures var h' := MergeOf(h, q, p, forward);
      var m' := FreedMem(m, q, h'.sz[q]);
      && Open(m', h', F, lists, blocks) && Loose(m', h', F, q) && SamePayloads(m, m', h, h.base - 1)
  {
    hide Tiled, Linked, Binned, FeetOf, Heads, SamePayloads, Joined, Fused, Tag, SetFoot, SetHead, MergeOf, SameLive;
    hide PrevInuse;
    var h' := MergeOf(h, q, p, forward);
    FreeingEnds(h, F, q, p, forward);
    Merged(m, h, F, lists, blocks, q, p, forward);
    var m1 := JoinMem(m, q, h'.sz[q]);
    Footed(m1, h', F, lists, blocks, q);
    MergeContents(m, m1, FreedMem(m, q, h'.sz[q]), h, h', q, p, forward);
  }

  /** Live chunks are never merged away, so what the merged heap keeps, the heap before it keeps. */
  lemma MergeContents(m: Mem, m': Mem, m'': Mem, h: Layout, h': Layout, q: int, p: int, forward: bool)
    requires Tiled(h) && Tiled(h') && SameLive(h, h', p) && p in h.free && h'.base == h.base
    requires SamePayloads(m, m', h, h.base - 1) && SamePayloads(m', m'', h', h.base - 1)
    ensures SamePayloads(m, m'', h, h.base - 1)
  {
    forall a | h.Live(a)
      ensures SamePayload(m, m'', a, h.sz[a])
    {
      assert h'.Live(a) && a in h'.sz;
      PayloadTransitive(m, m', m'', a, h.sz[a]);
    }
  }

  /** The tags of the merged chunk are no links. */
  lemma FreedOrder(m: Mem, q: int, size: int)
    requires q >= 0 && size >= MINSIZE
    ensures FreedMem(LinkLast(m, q), q, size) == LinkLast(FreedMem(m, q, size), q)
  {
    hide Tag, LinkLast, SetFoot, SetHead, ClearLast;
    LinkLastOrder(m, q, q, Tag(size, true));
    LinkLastFoot(SetHead(m, q, Tag(size, true)), q, q, size);
  }

  /** The merged chunk is, or stays, the last remainder. */
  lemma FreedLast(m: Mem, h: Layout, F: set<int>, lists: seq<seq<int>>, blocks: nat, q: int, p: int, forward: bool)
    requires Open(m, h, F, lists, blocks) && Freeing(h, F, q, p, forward) && PrevInuse(m.hi[q])
    requires |lists| == NAV && lists[1] == []
    ensures var h' := MergeOf(h, q, p, forward);
      var m' := FreedMem(LinkLast(m, q), q, h'.sz[q]);
      && Closed(m', h', lists[1 := [q]], blocks) && SamePayloads(m, m', h, h.base - 1)
  {
    hide Tiled, Linked, Binned, FeetOf, Heads, SamePayloads, Joined, Fused, FreedMem, MergeOf, SameLive, LinkLast;
    hide PrevInuse;
    var h' := MergeOf(h, q, p, forward);
    FreedLoose(m, h, F, lists, blocks, q, p, forward);
    FreeingEnds(h, F, q, p, forward);
    var m1 := FreedMem(m, q, h'.sz[q]);
    LastLinked(m1, h', F, lists, blocks, q);
    MergeContents(m, m1, LinkLast(m1, q), h, h', q, p, forward);
    ChunkBounds(h', q);
    FreedOrder(m, q, h'.sz[q]);
    ClosedIsHeld(LinkLast(m1, q), h', lists[1 := [q]], blocks, q);
  }

  lemma ChunkBounds(h: Layout, q: int)
    requires Tiled(h) && q in h.sz
    ensures q >= 0 && h.sz[q] >= MINSIZE
  {
  }

  /** p borders top, and the free chunk before it, if there is one, has left its bin. */
  ghost predicate Topping(h: Layout, F: set<int>, q: int, p: int)
  {
    && h.Live(p) && Next(h.sz, p) == h.top
    && (q == p || (q in h.sz && q in h.free && Next(h.sz, q) == p && q != h.top))
    && q !in F && h.free == F + (if q == p then {} else {q})
    && Parted(h, F) && NoneBefore(h, F, q)
  }

  lemma ToppingStarts(m: Mem, h: Layout, lists: seq<seq<int>>, blocks: nat, p: int, q: int)
    requires Closed(m, h, lists, blocks) && h.Live(p) && Next(h.sz, p) == h.top
    requires if PrevInuse(m.hi[p]) then q == p else q in h.free && Next(h.sz, q) == p
    ensures Topping(h, h.free - {q}, q, p)
  {
    hide Linked, Binned, FeetOf;
    forall x | x in h.free
      ensures Next(h.sz, x) !in h.free && Next(h.sz, x) != q
    {
      assert HeadAt(m, h, x);
    }
  }

  /** p, and the free chunk before it, become part of top. */
  lemma FreedTop(m: Mem, h: Layout, F: set<int>, lists: seq<seq<int>>, blocks: nat, q: int, p: int)
    requires Open(m, h, F, lists, blocks) && Topping(h, F, q, p) && PrevInuse(m.hi[q])
    ensures var h' := MergeOf(h, q, p, true);
      var m' := SetHead(m, q, Tag(h'.sz[q], true));
      && Closed(m', h', lists, blocks) && SamePayloads(m, m', h, h.base - 1) && SameLive(h, h', p)
      && LiveSet(h') == LiveSet(h) - {p} && h'.top == q && h'.base == h.base && h'.end == h.end && q in h.sz
  {
    hide Linked, Binned, FeetOf, Heads, SamePayloads, Joined, Tag, SetHead, PrevInuse;
    var h' := MergeOf(h, q, p, true);
    assert h.top in h.sz && q <= p < h.top;
    Merged(m, h, F, lists, blocks, q, p, true);
    MergeSpan(h, q, p, true);
    forall x | x in F
      ensures x in h.sz && !(q <= x <= h.top)
    {
    }
    FusedParted(h, h', F, q, h.top);
    FusedLive(h, h', q, h.top, p);
    assert h'.free == F;
    ClosedIsHeld(SetHead(m, q, Tag(h'.sz[q], true)), h', lists, blocks, q);
  }

  // ---------------------------------------------------------------- what moves have in common

  lemma OpenFacts(m: Mem, h: Layout, F: set<int>, lists: seq<seq<int>>, blocks: nat)
    requires Open(m, h, F, lists, blocks)
    ensures Tiled(h) && h.free <= h.sz.Keys - {h.top} && h.top in h.sz && Heads(m, h) && F <= h.free
    ensures |lists| == NAV && |lists[1]| <= 1 && Next(h.sz, h.top) == h.end && h.top >= 0
  {
  }

  lemma LiveSame(h: Layout, p: int)
    ensures SameLive(h, h, p)
  {
  }

  lemma ContentsSame(m: Mem, h: Layout)
    ensures SamePayloads(m, m, h, h.base - 1)
  {
    forall a | h.Live(a)
      ensures SamePayload(m, m, a, h.sz[a])
    {
    }
  }

  lemma KeptThrough(m: Mem, m': Mem, m'': Mem, h: Layout, h': Layout, p: int)
    requires SamePayloads(m, m', h, h.base - 1) && Tiled(h) && SameLive(h, h', p)
    requires SamePayloads(m', m'', h, h.base - 1) || SamePayloads(m', m'', h, p)
    ensures Keeps(m, h, m'', h', p)
  {
    forall a | h.Live(a) && a != p
      ensures SamePayload(m, m'', a, h.sz[a])
    {
      PayloadTransitive(m, m', m'', a, h.sz[a]);
    }
  }
}
