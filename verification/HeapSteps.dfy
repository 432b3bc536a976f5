/** One tag or link update at a time: what each of them keeps of the heap invariant. */
module HeapSteps {
  import opened Chunks
  import opened FreeLists

  /** The feet of the chunks in F. */
  ghost predicate FeetOf(m: Mem, sz: map<int, int>, F: set<int>)
  {
    forall a {:trigger a in F} :: a in F && a in sz ==> m.lo[Next(sz, a)] == 16 * sz[a]
  }

  /**
   The heap while an operation is under way: free chunks outside F are in no bin and may lack a foot,
   and may still have free neighbours.
   */
  ghost predicate Open(m: Mem, h: Layout, F: set<int>, lists: seq<seq<int>>, blocks: nat)
  {
    && Tiled(h) && Heads(m, h) && FeetOf(m, h.sz, F)
    && Linked(m, lists) && Binned(h.sz, F, lists, blocks)
    && F <= h.free && h.free <= h.sz.Keys - {h.top}
  }

  /** The heap between operations. */
  ghost predicate Closed(m: Mem, h: Layout, lists: seq<seq<int>>, blocks: nat)
  {
    Open(m, h, h.free, lists, blocks) && Coalesced(h)
  }

  lemma LinkedFrame(m: Mem, m': Mem, sz: map<int, int>, F: set<int>, lists: seq<seq<int>>, blocks: nat)
    requires Linked(m, lists) && Binned(sz, F, lists, blocks)
    requires forall q :: q < -1 || q in F ==> Fd(m', q) == Fd(m, q) && Bk(m', q) == Bk(m, q)
    ensures Linked(m', lists)
  {
    hide Ring, Fd, Bk, BinIndex, Bit, Sorted;
    forall i | 1 <= i < NAV
      ensures Members(BinAt(i), lists[i]) && Ring(m', BinAt(i), lists[i])
    {
      assert Members(BinAt(i), lists[i]);
      RingFrame(m, m', BinAt(i), lists[i]);
    }
  }

  /** A size word is no link word. */
  lemma HeadKeepsLinks(m: Mem, h: Layout, F: set<int>, lists: seq<seq<int>>, blocks: nat, c: int, u: int, w: int)
    requires Linked(m, lists) && Binned(h.sz, F, lists, blocks) && Tiled(h)
    requires c in h.sz && c <= u < Next(h.sz, c) && (u == c || (c !in F && u != c + 1))
    ensures Linked(SetHead(m, u, w), lists)
  {
    hide Linked, Tiled, BinIndex, Bit, Sorted;
    forall q | q < -1 || q in F
      ensures Fd(SetHead(m, u, w), q) == Fd(m, q) && Bk(SetHead(m, u, w), q) == Bk(m, q)
    {
      if q in F {
        LinkApart(h, q, c, u);
      } else {
        assert u >= 0 by {
          BaseFirst(h, c);
        }
      }
    }
    LinkedFrame(m, SetHead(m, u, w), h.sz, F, lists, blocks);
  }

  lemma BaseFirst(h: Layout, c: int)
    requires Tiled(h) && c in h.sz
    ensures c >= 0
  {
  }

  lemma LinkApart(h: Layout, q: int, c: int, u: int)
    requires Tiled(h) && q in h.sz && c in h.sz && c <= u < Next(h.sz, c) && (u == c || q != c)
    ensures u != q + 1
  {
    if q < c {
      Apart(h, q, c);
    } else if c < q {
      Apart(h, c, q);
    }
  }

  /** A foot is no link word either. */
  lemma FootKeepsLinks(m: Mem, h: Layout, F: set<int>, lists: seq<seq<int>>, blocks: nat, c: int)
    requires Linked(m, lists) && Binned(h.sz, F, lists, blocks) && Tiled(h) && c in h.sz && c != h.top
    ensures Linked(SetFoot(m, c, h.sz[c]), lists)
  {
    var n := Next(h.sz, c);
    assert n == c + h.sz[c] && n in h.sz && n >= 0;
    hide Linked, Tiled, BinIndex, Bit, Sorted;
    forall q | q < -1 || q in F
      ensures Fd(SetFoot(m, c, h.sz[c]), q) == Fd(m, q) && Bk(SetFoot(m, c, h.sz[c]), q) == Bk(m, q)
    {
      if q in F {
        LinkApart(h, q, n, n);
      }
    }
    LinkedFrame(m, SetFoot(m, c, h.sz[c]), h.sz, F, lists, blocks);
  }

  // ---------------------------------------------------------------- unlink and the bins

  lemma LinksAt(m: Mem, m': Mem, u: int)
    requires Fd(m', u - 1) == Fd(m, u - 1) && Bk(m', u - 1) == Bk(m, u - 1)
    ensures m'.lo[u] == m.lo[u] && m'.hi[u] == m.hi[u]
  {
  }

  lemma LinkPairs(m: Mem, m': Mem, F: set<int>, x: int, y: int, z: int)
    requires (x < -1 || x in F) && (y < -1 || y in F) && (z < -1 || z in F)
    requires forall q {:trigger Fd(m', q)} :: q != x && q != y && q != z ==> Fd(m', q) == Fd(m, q)
    requires forall q {:trigger Bk(m', q)} :: q != x && q != y && q != z ==> Bk(m', q) == Bk(m, q)
    ensures LinksOnly(m, m', F)
  {
    hide Fd, Bk;
    forall u | u >= 0 && u - 1 !in F
      ensures m'.lo[u] == m.lo[u] && m'.hi[u] == m.hi[u]
    {
      var q := u - 1;
      assert q != x && q != y && q != z;
      assert Fd(m', q) == Fd(m, q) && Bk(m', q) == Bk(m, q);
      LinksAt(m, m', u);
    }
  }

  /** A change of link words alone: the bins may change, tags and contents stay. */
  lemma Relinked(m: Mem, m': Mem, h: Layout, F: set<int>, lists: seq<seq<int>>, blocks: nat,
                 F': set<int>, lists': seq<seq<int>>, blocks': nat)
    requires Open(m, h, F, lists, blocks) && LinksOnly(m, m', F + F')
    requires Linked(m', lists') && Binned(h.sz, F', lists', blocks') && FeetOf(m, h.sz, F') && F' <= h.free
    ensures Open(m', h, F', lists', blocks') && SamePayloads(m, m', h, h.base - 1)
  {
    hide Linked, Binned, Heads;
    LinkWrites(m, m', h, F + F');
    FeetFrame(m, m', h, F', F');
  }

  lemma UnlinkLinksOnly(m: Mem, h: Layout, F: set<int>, lists: seq<seq<int>>, blocks: nat, i: int, k: int)
    requires Linked(m, lists) && Binned(h.sz, F, lists, blocks) && 1 <= i < NAV && 0 <= k < |lists[i]|
    ensures LinksOnly(m, UnlinkMem(m, lists[i][k]), F)
  {
    var L, p := lists[i], lists[i][k];
    UnlinkRing(m, BinAt(i), L, k);
    var c := Cycle(BinAt(i), L);
    assert c[k] == BinAt(i) || c[k] in L;
    assert c[k + 2] == BinAt(i) || c[k + 2] in L;
    hide Linked, BinIndex, Bit, Sorted;
    LinkPairs(m, UnlinkMem(m, p), F, c[k], c[k + 2], c[k]);
  }

  /** unlink(P, BK, FD) on a binned chunk. */
  lemma Unlinked(m: Mem, h: Layout, F: set<int>, lists: seq<seq<int>>, blocks: nat, i: int, k: int)
    requires Open(m, h, F, lists, blocks) && 1 <= i < NAV && 0 <= k < |lists[i]|
    ensures Open(UnlinkMem(m, lists[i][k]), h, F - {lists[i][k]}, lists[i := Without(lists[i], k)], blocks)
    ensures SamePayloads(m, UnlinkMem(m, lists[i][k]), h, h.base - 1)
    ensures lists[i][k] in F
  {
    var p := lists[i][k];
    assert Members(BinAt(i), lists[i]) && p in lists[i];
    UnlinkLinksOnly(m, h, F, lists, blocks, i, k);
    UnlinkLinked(m, lists, i, k);
    BinnedRemove(h.sz, F, lists, blocks, i, k);
    hide *;
    LinksOnlyMore(m, UnlinkMem(m, p), F, F + (F - {p}));
    FewerFeet(m, h.sz, F, F - {p});
    Relinked(m, UnlinkMem(m, p), h, F, lists, blocks, F - {p}, lists[i := Without(lists[i], k)], blocks);
  }

  lemma LinksOnlyMore(m: Mem, m': Mem, F: set<int>, F': set<int>)
    requires LinksOnly(m, m', F) && F <= F'
    ensures LinksOnly(m, m', F')
  {
  }

  lemma FewerFeet(m: Mem, sz: map<int, int>, F: set<int>, F': set<int>)
    requires FeetOf(m, sz, F) && F' <= F
    ensures FeetOf(m, sz, F')
  {
  }

  lemma FeetFrame(m: Mem, m': Mem, h: Layout, F: set<int>, F': set<int>)
    requires Tiled(h) && FeetOf(m, h.sz, F) && F' <= F <= h.sz.Keys - {h.top}
    requires forall a {:trigger a in h.sz} :: a in h.sz ==> m'.lo[a] == m.lo[a]
    ensures FeetOf(m', h.sz, F')
  {
    forall a | a in F'
      ensures m'.lo[Next(h.sz, a)] == 16 * h.sz[a]
    {
      assert a in F && Next(h.sz, a) in h.sz;
    }
  }

  /** q is a free chunk in no bin whose foot is in place. */
  ghost predicate Loose(m: Mem, h: Layout, F: set<int>, q: int)
  {
    q in h.free && q !in F && q in h.sz && m.lo[Next(h.sz, q)] == 16 * h.sz[q]
  }

  lemma NotListed(sz: map<int, int>, F: set<int>, lists: seq<seq<int>>, blocks: nat, q: int)
    requires Binned(sz, F, lists, blocks) && q !in F
    ensures forall j :: 0 <= j < NAV ==> q !in lists[j]
  {
  }

  /** frontlink: q goes into its bin at place k. */
  lemma FrontLinked(m: Mem, h: Layout, F: set<int>, lists: seq<seq<int>>, blocks: nat, blocks': nat, k: int, q: int)
    requires Open(m, h, F, lists, blocks) && Loose(m, h, F, q)
    requires Place(h.sz, lists[BinIndex(h.sz[q])], k, h.sz[q])
    requires Bit(blocks', BinIndex(h.sz[q]) / 4)
    requires forall i :: 2 <= i < NAV && Bit(blocks, i / 4) ==> Bit(blocks', i / 4)
    ensures var i := BinIndex(h.sz[q]);
      var c := Cycle(BinAt(i), lists[i]);
      && Open(InsertMem(m, q, c[k], c[k + 1]), h, F + {q}, lists[i := With(lists[i], k, q)], blocks')
      && SamePayloads(m, InsertMem(m, q, c[k], c[k + 1]), h, h.base - 1)
  {
    var i := BinIndex(h.sz[q]);
    var c := Cycle(BinAt(i), lists[i]);
    BaseFirst(h, q);
    assert h.sz[q] >= MINSIZE;
    NotListed(h.sz, F, lists, blocks, q);
    InsertLinked(m, lists, i, k, q);
    BinnedInsert(h.sz, F, lists, blocks, blocks', k, q);
    InsertLinksOnly(m, h, F, lists, blocks, i, k, q);
    LooseFeet(m, h, F, q);
    hide *;
    LinksOnlyMore(m, InsertMem(m, q, c[k], c[k + 1]), F + {q}, F + (F + {q}));
    Relinked(m, InsertMem(m, q, c[k], c[k + 1]), h, F, lists, blocks,
             F + {q}, lists[i := With(lists[i], k, q)], blocks');
  }

  lemma LooseFeet(m: Mem, h: Layout, F: set<int>, q: int)
    requires FeetOf(m, h.sz, F) && Loose(m, h, F, q) && F <= h.free
    ensures FeetOf(m, h.sz, F + {q}) && F + {q} <= h.free
  {
  }

  lemma InsertLinksOnly(m: Mem, h: Layout, F: set<int>, lists: seq<seq<int>>, blocks: nat, i: int, k: int, q: int)
    requires Binned(h.sz, F, lists, blocks) && 1 <= i < NAV && 0 <= k <= |lists[i]| && q !in F && q >= 0
    ensures var c := Cycle(BinAt(i), lists[i]); LinksOnly(m, InsertMem(m, q, c[k], c[k + 1]), F + {q})
  {
    var c := Cycle(BinAt(i), lists[i]);
    var m' := InsertMem(m, q, c[k], c[k + 1]);
    assert c[k] == BinAt(i) || c[k] in lists[i];
    assert c[k + 1] == BinAt(i) || c[k + 1] in lists[i];
    InsertReads(m, q, c[k], c[k + 1]);
    LinkPairs(m, m', F + {q}, c[k], c[k + 1], q);
  }

  /** link_last_remainder: q becomes the last remainder; the slot was empty. */
  lemma LastLinked(m: Mem, h: Layout, F: set<int>, lists: seq<seq<int>>, blocks: nat, q: int)
    requires Open(m, h, F, lists, blocks) && Loose(m, h, F, q) && lists[1] == []
    ensures Open(LinkLast(m, q), h, F + {q}, lists[1 := [q]], blocks)
    ensures SamePayloads(m, LinkLast(m, q), h, h.base - 1)
  {
    BaseFirst(h, q);
    assert h.sz[q] >= MINSIZE;
    NotListed(h.sz, F, lists, blocks, q);
    LinkLastLinked(m, lists, q);
    BinnedLast(h.sz, F, lists, blocks, q);
    assert F - (set x | x in lists[1]) + {q} == F + {q};
    LooseFeet(m, h, F, q);
    LastLinksOnly(m, F, q);
    hide *;
    LinksOnlyMore(m, LinkLast(m, q), F + {q}, F + (F + {q}));
    Relinked(m, LinkLast(m, q), h, F, lists, blocks, F + {q}, lists[1 := [q]], blocks);
  }

  lemma LastLinksOnly(m: Mem, F: set<int>, q: int)
    requires q >= 0
    ensures LinksOnly(m, LinkLast(m, q), F + {q}) && LinksOnly(m, ClearLast(m), F)
  {
    LinkPairs(m, LinkLast(m, q), F + {q}, BinAt(1), q, q);
    LinkPairs(m, ClearLast(m), F, BinAt(1), BinAt(1), BinAt(1));
  }

  /** clear_last_remainder: what was the last remainder is in no bin any more. */
  lemma LastCleared(m: Mem, h: Layout, F: set<int>, lists: seq<seq<int>>, blocks: nat, q: int)
    requires Open(m, h, F, lists, blocks) && lists[1] == [q]
    ensures Open(ClearLast(m), h, F - {q}, lists[1 := []], blocks)
    ensures SamePayloads(m, ClearLast(m), h, h.base - 1)
    ensures Loose(ClearLast(m), h, F - {q}, q)
  {
    assert q in lists[1];
    BaseFirst(h, q);
    ClearLastLinked(m, lists);
    BinnedClear(h.sz, F, lists, blocks);
    assert F - (set x | x in lists[1]) == F - {q};
    LastLinksOnly(m, F, q);
    StillFooted(m, ClearLast(m), h, F, q);
    hide *;
    LinksOnlyMore(m, ClearLast(m), F, F + (F - {q}));
    FewerFeet(m, h.sz, F, F - {q});
    Relinked(m, ClearLast(m), h, F, lists, blocks, F - {q}, lists[1 := []], blocks);
  }

  lemma StillFooted(m: Mem, m': Mem, h: Layout, F: set<int>, q: int)
    requires Tiled(h) && FeetOf(m, h.sz, F) && LinksOnly(m, m', F) && q in F && F <= h.free
    requires h.free <= h.sz.Keys - {h.top}
    ensures Loose(m', h, F - {q}, q)
  {
    var n := Next(h.sz, q);
    NotALink(h, F, n);
    BaseFirst(h, n);
  }

  // ---------------------------------------------------------------- size words and feet

  /** set_foot on a free chunk that is in no bin. */
  lemma Footed(m: Mem, h: Layout, F: set<int>, lists: seq<seq<int>>, blocks: nat, q: int)
    requires Open(m, h, F, lists, blocks) && q in h.free && q !in F
    ensures Open(SetFoot(m, q, h.sz[q]), h, F, lists, blocks)
    ensures SamePayloads(m, SetFoot(m, q, h.sz[q]), h, h.base - 1)
    ensures Loose(SetFoot(m, q, h.sz[q]), h, F, q)
  {
    var m' := SetFoot(m, q, h.sz[q]);
    FootKeepsLinks(m, h, F, lists, blocks, q);
    hide Linked, Binned, BinIndex, Bit;
    FootWrite(m, h, q);
    HeadsFrame(m, m', h);
    forall a | a in F
      ensures m'.lo[Next(h.sz, a)] == 16 * h.sz[a]
    {
      if Next(h.sz, a) == Next(h.sz, q) {
        OnePredecessor(h, a, q);
      }
    }
  }

  /** A size word at the start of a chunk, or inside one that is not live, changes no list, foot or contents. */
  lemma HeadStep(m: Mem, h: Layout, F: set<int>, lists: seq<seq<int>>, blocks: nat, c: int, u: int, w: int)
    requires Open(m, h, F, lists, blocks)
    requires c in h.sz && c <= u < Next(h.sz, c) && (u == c || (c !in F && u != c + 1 && !h.Live(c)))
    ensures Linked(SetHead(m, u, w), lists) && FeetOf(SetHead(m, u, w), h.sz, F)
    ensures SamePayloads(m, SetHead(m, u, w), h, h.base - 1)
  {
    HeadKeepsLinks(m, h, F, lists, blocks, c, u, w);
    HeadWrite(m, h, c, u, w);
  }

  /** The bit update that marks a live chunk free. */
  lemma MarkedFree(m: Mem, h: Layout, F: set<int>, lists: seq<seq<int>>, blocks: nat, p: int)
    requires Open(m, h, F, lists, blocks) && h.Live(p)
    ensures Open(ClearBit(m, Next(h.sz, p)), h.(free := h.free + {p}), F, lists, blocks)
    ensures SamePayloads(m, ClearBit(m, Next(h.sz, p)), h, h.base - 1)
  {
    var n, h' := Next(h.sz, p), h.(free := h.free + {p});
    var w := Tag(ChunkSize(m.hi[n]), false);
    assert n in h.sz && n < Next(h.sz, n);
    hide Linked, Binned, FeetOf, Tag, ChunkSize, PrevInuse, SamePayloads;
    HeadStep(m, h, F, lists, blocks, n, n, w);
    MarkHeads(m, SetHead(m, n, w), h, h', p);
  }

  /** The bit update that takes a free chunk; it is in no bin any more. */
  lemma MarkedUsed(m: Mem, h: Layout, F: set<int>, lists: seq<seq<int>>, blocks: nat, p: int)
    requires Open(m, h, F, lists, blocks) && p in h.free && p !in F
    ensures Open(SetBit(m, Next(h.sz, p)), h.(free := h.free - {p}), F, lists, blocks)
    ensures SamePayloads(m, SetBit(m, Next(h.sz, p)), h, h.base - 1)
  {
    var n, h' := Next(h.sz, p), h.(free := h.free - {p});
    var w := Tag(ChunkSize(m.hi[n]), true);
    assert n in h.sz && n < Next(h.sz, n);
    hide Linked, Binned, FeetOf, Tag, ChunkSize, PrevInuse, SamePayloads;
    HeadStep(m, h, F, lists, blocks, n, n, w);
    MarkHeads(m, SetHead(m, n, w), h, h', p);
  }

  /** The size word of a chunk joined with its successor. */
  function JoinMem(m: Mem, a: int, size: int): Mem
  {
    SetHead(m, a, Tag(size, PrevInuse(m.hi[a])))
  }

  ghost function JoinOf(h: Layout, a: int): Layout
    requires Tiled(h) && a in h.sz && a != h.top
  {
    var b := Next(h.sz, a);
    Layout(Joined(h, a), h.free - {a, b} + if b in h.free then {a} else {}, h.base,
           if b == h.top then a else h.top, h.end)
  }

  /** Joining a with its successor; neither is in a bin. */
  lemma JoinedStep(m: Mem, h: Layout, F: set<int>, lists: seq<seq<int>>, blocks: nat, a: int)
    requires Open(m, h, F, lists, blocks) && a in h.sz && a != h.top && a !in F && Next(h.sz, a) !in F
    ensures Open(JoinMem(m, a, h.sz[a] + h.sz[Next(h.sz, a)]), JoinOf(h, a), F, lists, blocks)
    ensures SamePayloads(m, JoinMem(m, a, h.sz[a] + h.sz[Next(h.sz, a)]), h, h.base - 1)
    ensures Next(JoinOf(h, a).sz, a) == Next(h.sz, Next(h.sz, a))
    ensures JoinOf(h, a).sz[a] == h.sz[a] + h.sz[Next(h.sz, a)]
    ensures forall b {:trigger b in h.sz} :: b in h.sz && b != a && b != Next(h.sz, a) ==>
      b in JoinOf(h, a).sz && JoinOf(h, a).sz[b] == h.sz[b]
  {
    var h' := JoinOf(h, a);
    var w := Tag(h.sz[a] + h.sz[Next(h.sz, a)], PrevInuse(m.hi[a]));
    assert Next(h.sz, a) in h.sz && a < Next(h.sz, a);
    JoinShape(h, h', a);
    JoinTiled(h, h', a);
    JoinBinned(h, h', F, lists, blocks, a);
    hide Linked, Binned, Tag, ChunkSize, PrevInuse, SamePayloads, Joined;
    HeadStep(m, h, F, lists, blocks, a, a, w);
    JoinHeads(m, SetHead(m, a, w), h, h', a);
    SameFeet(SetHead(m, a, w), h.sz, h'.sz, F);
  }

  lemma SameFeet(m: Mem, sz: map<int, int>, sz': map<int, int>, F: set<int>)
    requires FeetOf(m, sz, F) && forall x :: x in F ==> x in sz && x in sz' && sz'[x] == sz[x]
    ensures FeetOf(m, sz', F)
  {
  }

  lemma JoinBinned(h: Layout, h': Layout, F: set<int>, lists: seq<seq<int>>, blocks: nat, a: int)
    requires Tiled(h) && Tiled(h') && JoinedLayout(h, h', a) && F <= h.free <= h.sz.Keys - {h.top}
    requires a !in F && Next(h.sz, a) !in F && Disjoint(lists) && Binned(h.sz, F, lists, blocks)
    ensures Binned(h'.sz, F, lists, blocks) && F <= h'.free <= h'.sz.Keys - {h'.top}
    ensures forall x :: x in F ==> x in h.sz && x in h'.sz && h'.sz[x] == h.sz[x]
  {
    JoinShape(h, h', a);
    hide BinIndex, Bit, Sorted, Joined;
    assert forall x :: x in F ==> x in h'.sz && h'.sz[x] == h.sz[x];
    BinnedFrame(h.sz, h'.sz, F, lists, blocks);
  }

  /** The two size words of a chunk cut after n units. */
  function CutMem(m: Mem, a: int, size: int, n: int): Mem
  {
    SetHead(SetHead(m, a, Tag(n, PrevInuse(m.hi[a]))), a + n, Tag(size - n, true))
  }

  ghost function CutOf(h: Layout, a: int, n: int): Layout
    requires a in h.sz
  {
    Layout(Cut(h, a, n), if a in h.free then h.free - {a} + {a + n} else h.free, h.base,
           if a == h.top then a + n else h.top, h.end)
  }

  /** Cutting a chunk that is in no bin; its first n units become, or stay, a live chunk. */
  lemma CutStep(m: Mem, h: Layout, F: set<int>, lists: seq<seq<int>>, blocks: nat, a: int, n: int)
    requires Open(m, h, F, lists, blocks) && a in h.sz && a !in F && MINSIZE <= n <= h.sz[a] - MINSIZE
    ensures Open(CutMem(m, a, h.sz[a], n), CutOf(h, a, n), F, lists, blocks)
    ensures SamePayloads(m, CutMem(m, a, h.sz[a], n), h, a)
    ensures a + n !in h.sz
  {
    hide Linked, Binned, Tag, ChunkSize, PrevInuse, SamePayloads, SetHead, Heads, FeetOf, CutMem, SameHeads, Disjoint;
    LinkedApart(m, lists);
    CutHeadWrites(m, h, a, n);
    var h', m' := CutOf(h, a, n), CutMem(m, a, h.sz[a], n);
    assert Next(h.sz, a) == a + h.sz[a];
    CutShape(h, h', a, n);
    CutTiled(h, h', a, n);
    CutBinned(h, h', F, lists, blocks, a, n);
    CutWrites(m, h, F, lists, blocks, a, n);
    CutHeads(m, m', h, h', a, n);
    SameFeet(m', h.sz, h'.sz, F);
  }

  lemma LinkedApart(m: Mem, lists: seq<seq<int>>)
    requires Linked(m, lists)
    ensures Disjoint(lists)
  {
  }

  lemma CutHeadWrites(m: Mem, h: Layout, a: int, n: int)
    requires Tiled(h) && a in h.sz && MINSIZE <= n <= h.sz[a] - MINSIZE
    ensures var m' := CutMem(m, a, h.sz[a], n);
      && m'.hi[a] == Tag(n, PrevInuse(m.hi[a])) && m'.hi[a + n] == Tag(h.sz[a] - n, true)
      && SameHeads(m, m', h.sz, a)
  {
    hide Tag, PrevInuse;
    assert Next(h.sz, a) == a + h.sz[a];
  }

  lemma CutWrites(m: Mem, h: Layout, F: set<int>, lists: seq<seq<int>>, blocks: nat, a: int, n: int)
    requires Open(m, h, F, lists, blocks) && a in h.sz && a !in F && MINSIZE <= n <= h.sz[a] - MINSIZE
    ensures Linked(CutMem(m, a, h.sz[a], n), lists) && FeetOf(CutMem(m, a, h.sz[a], n), h.sz, F)
    ensures SamePayloads(m, CutMem(m, a, h.sz[a], n), h, a)
  {
    hide Linked, Binned, Heads, FeetOf, Tag, PrevInuse, SamePayloads, SetHead;
    var m1 := SetHead(m, a, Tag(n, PrevInuse(m.hi[a])));
    assert Next(h.sz, a) == a + h.sz[a];
    HeadStep(m, h, F, lists, blocks, a, a, Tag(n, PrevInuse(m.hi[a])));
    HeadKeepsFeet(m1, h.sz, F, a + n, Tag(h.sz[a] - n, true));
    HeadKeepsLinks(m1, h, F, lists, blocks, a, a + n, Tag(h.sz[a] - n, true));
    InsideWrite(m1, h, a, a + n, Tag(h.sz[a] - n, true));
    OtherPayloads(m, m1, SetHead(m1, a + n, Tag(h.sz[a] - n, true)), h, a);
  }

  lemma HeadKeepsFeet(m: Mem, sz: map<int, int>, F: set<int>, u: int, w: int)
    requires FeetOf(m, sz, F)
    ensures FeetOf(SetHead(m, u, w), sz, F)
  {
  }

  /** A size word inside chunk a matters to no other chunk. */
  lemma InsideWrite(m: Mem, h: Layout, a: int, u: int, w: int)
    requires Tiled(h) && a in h.sz && a <= u < Next(h.sz, a)
    ensures SamePayloads(m, SetHead(m, u, w), h, a)
  {
    forall b | h.Live(b) && b != a
      ensures SamePayload(m, SetHead(m, u, w), b, h.sz[b])
    {
      assert Next(h.sz, b) == b + h.sz[b];
    }
  }

  lemma OtherPayloads(m: Mem, m': Mem, m'': Mem, h: Layout, p: int)
    requires SamePayloads(m, m', h, h.base - 1) && SamePayloads(m', m'', h, p) && Tiled(h)
    ensures SamePayloads(m, m'', h, p)
  {
    forall a | h.Live(a) && a != p
      ensures SamePayload(m, m'', a, h.sz[a])
    {
      PayloadTransitive(m, m', m'', a, h.sz[a]);
    }
  }

  lemma CutBinned(h: Layout, h': Layout, F: set<int>, lists: seq<seq<int>>, blocks: nat, a: int, n: int)
    requires Tiled(h) && Tiled(h') && CutLayout(h, h', a, n) && F <= h.free <= h.sz.Keys - {h.top}
    requires a !in F && Disjoint(lists) && Binned(h.sz, F, lists, blocks)
    ensures Binned(h'.sz, F, lists, blocks) && F <= h'.free <= h'.sz.Keys - {h'.top}
    ensures forall x :: x in F ==> x in h.sz && x in h'.sz && h'.sz[x] == h.sz[x]
  {
    CutShape(h, h', a, n);
    hide BinIndex, Bit, Sorted, Cut;
    assert forall x :: x in F ==> x in h'.sz && h'.sz[x] == h.sz[x];
    BinnedFrame(h.sz, h'.sz, F, lists, blocks);
  }
}
