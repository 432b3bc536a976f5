/** malloc, free, realloc, memalign and trim of dlmalloc.c over its private sbrk arena. */
module Allocator {
  import opened Chunks
  import opened FreeLists
  import opened HeapSteps
  import opened HeapMoves
  import opened HeapResize
  import Limbs

  /** bin_at(0): where top points before the first extension. */
  const INITIAL_TOP: int := -1000

  /** What malloc promises of the chunk p it takes for nb units. */
  ghost predicate Obtained(m: Mem, h: Layout, m': Mem, h': Layout, p: int, nb: int)
  {
    && Keeps(m, h, m', h', p) && !h.Live(p) && LiveSet(h') == LiveSet(h) + {p}
    && h'.Live(p) && nb <= h'.sz[p] < nb + MINSIZE && PrevInuse(m'.hi[p])
  }

  const TRIM_THRESHOLD: int := 128 * 1024
  const TOP_PAD: int := 0
  const PAGE: int := 4096

  class Arena {
    const memStart: int   // mem_malloc_start
    const memEnd: int     // mem_malloc_end
    var brk: int          // mem_malloc_brk, in bytes like the two bounds
    var m: Mem
    var top: int          // av_[2]
    var blocks: nat       // binblocks, av_[1]
    var sbrkBase: int     // sbrk_base, -1 before the first extension
    var sbrkedMem: int    // sbrked_mem
    ghost var h: Layout
    ghost var lists: seq<seq<int>>
    ghost var stranded: bool   // the first extension got memory but not its correction

    ghost predicate Empty()
      reads this
    {
      Blank(m, h, lists, blocks, top) && Opened(brk, sbrkBase, sbrkedMem, stranded)
    }

    /** Once there is a top chunk: the heap invariant, and a heap that ends at the break, on a page boundary. */
    ghost predicate Full()
      reads this
    {
      && top == h.top && WordSized(blocks) && Closed(m, h, lists, blocks)
      && Settled(h.base, h.end, brk, sbrkBase, sbrkedMem, stranded) && memStart <= 16 * h.base
    }

    ghost predicate Valid()
      reads this
    {
      && 0 <= memStart <= brk <= memEnd <= memStart + 0x8000_0000
      && (Empty() || Full())
    }

    /** mem_malloc_init on memory whose av_ array has its static value: every bin header links to itself. */
    constructor (start: int, size: int, words: Mem)
      requires 0 <= start && 0 <= size <= 0x8000_0000
      requires forall i :: 1 <= i < NAV ==> Fd(words, BinAt(i)) == BinAt(i) && Bk(words, BinAt(i)) == BinAt(i)
      ensures Valid() && Empty() && memStart == start && memEnd == start + size && brk == start
      ensures sbrkBase == -1 && !stranded
    {
      memStart, memEnd, brk := start, start + size, start;
      m, top, blocks, sbrkBase, sbrkedMem := words, INITIAL_TOP, 0, -1, 0;
      h := Layout(map[], {}, 0, INITIAL_TOP, 0);
      lists := NoLists();
      stranded := false;
      EmptyLinked(words);
    }

    // -------------------------------------------------------------- bins

    /** mark_binblock(ii) */
    method MarkBin(i: int)
      requires 4 <= i < NAV && WordSized(blocks)
      modifies this`blocks
      ensures Bit(blocks, i / 4) && Covers(blocks, old(blocks)) && WordSized(blocks)
    {
      MarkedBits(blocks, i / 4);
      blocks := MarkBlock(blocks, i / 4);
    }

    /** The walk to the place of a chunk of n units in a bin kept in decreasing order. */
    method FindPlace(i: int, n: int, ghost F: set<int>) returns (bk: int, fd: int, ghost k: int)
      requires Open(m, h, F, lists, blocks) && 4 <= i < NAV
      ensures 0 <= k <= |lists[i]| && Place(h.sz, lists[i], k, n)
      ensures bk == Cycle(BinAt(i), lists[i])[k] && fd == Cycle(BinAt(i), lists[i])[k + 1]
    {
      hide Open, Fd, Bk, BinAt, Cycle, Place, ChunkSize;
      BinCount(m, h, F, lists, blocks);
      ghost var L, c := lists[i], Cycle(BinAt(i), lists[i]);
      WalkFrom(m, h, F, lists, blocks, i, 0);
      bk := BinAt(i);
      fd := Fd(m, bk);
      k := 0;
      while fd != BinAt(i) && n < ChunkSize(m.hi[fd])
        invariant 0 <= k <= |L| && fd == c[k + 1]
        invariant forall j :: 0 <= j < k ==> L[j] in h.sz && h.sz[L[j]] > n
        decreases |L| - k
      {
        WalkFrom(m, h, F, lists, blocks, i, k);
        k := k + 1;
        WalkFrom(m, h, F, lists, blocks, i, k);
        fd := Fd(m, fd);
      }
      WalkFrom(m, h, F, lists, blocks, i, k);
      PlaceHere(m, h, F, lists, blocks, i, k, n);
      bk := Bk(m, fd);
    }

    /** frontlink(P, S, IDX, BK, FD) for a free chunk that is in no bin. */
    method FrontLink(p: int, n: int, ghost F: set<int>)
      requires Open(m, h, F, lists, blocks) && Loose(m, h, F, p) && h.sz[p] == n && WordSized(blocks)
      modifies this`m, this`blocks, this`lists
      ensures Open(m, h, F + {p}, lists, blocks) && SamePayloads(old(m), m, h, h.base - 1)
      ensures WordSized(blocks) && |lists| == |old(lists)| == NAV && lists[1] == old(lists)[1]
    {
      hide Open, Loose, Place, Bit, Fd, Bk, InsertMem, Cycle, SamePayloads, BinIndex, WordSized, Covers, With, BinAt;
      FrontOf(m, h, F, lists, blocks, p, BinIndex(n), n);
      BinIndexMonotone(n, n);
      var idx := BinIndex(n);
      var bk, fd := BinAt(idx), Fd(m, BinAt(idx));
      ghost var k := 0;
      CoversItself(blocks);
      if 16 * n < 512 {
        MarkBin(idx);
      } else if fd == bk {
        MarkBin(idx);
      } else {
        bk, fd, k := FindPlace(idx, n, F);
      }
      Fronted(m, h, F, lists, old(blocks), blocks, k, p, idx);
      m := InsertMem(m, p, bk, fd);
      lists := lists[idx := With(lists[idx], k, p)];
    }

    // -------------------------------------------------------------- free

    /** The heap while an operation is under way, with the binned chunks F. */
    ghost predicate At(F: set<int>)
      reads this
    {
      top == h.top && WordSized(blocks) && Open(m, h, F, lists, blocks)
    }

    /** unlink(P, BK, FD) for a chunk in a bin. */
    method Unlink(x: int, ghost F: set<int>)
      requires At(F) && x in F
      modifies this`m, this`lists
      ensures At(F - {x}) && SamePayloads(old(m), m, h, h.base - 1) && SameTags(old(m), m, h)
      ensures |lists| == |old(lists)| == NAV && (x !in old(lists)[1] ==> lists[1] == old(lists)[1])
      ensures x in old(lists)[1] ==> lists[1] == []
    {
      hide Open, SamePayloads, SameTags, UnlinkMem, WordSized, Without;
      ghost var i, k := Locate(m, h, F, lists, blocks, x);
      Unlinked(m, h, F, lists, blocks, i, k);
      UnlinkKeepsTags(m, h, F, lists, blocks, i, k);
      m := UnlinkMem(m, x);
      lists := lists[i := Without(lists[i], k)];
    }

    /** free: the case of a chunk that borders top. */
    method FreeIntoTop(p: int, n: int)
      requires Full() && h.Live(p) && n == h.sz[p] && p + n == h.top
      modifies this`m, this`lists, this`h, this`top
      ensures Full() && Keeps(old(m), old(h), m, h, p) && LiveSet(h) == LiveSet(old(h)) - {p}
      ensures top in h.sz && top + h.sz[top] == h.end
    {
      hide Open, Tiled, Heads, Topping, SamePayloads, SameLive, MergeOf, Fused, WordSized, Tag, ChunkSize, PrevInuse, LiveSet;
      hide SetHead, Settled;
      ghost var F := h.free;
      OpenFacts(m, h, F, lists, blocks);
      TagsRead(m, h, lists, blocks, p);
      var hd := m.hi[p];
      var sz := n + ChunkSize(m.hi[top]);
      var q := p;
      if !PrevInuse(hd) {
        var prevsz := ChunkSize(m.lo[p]);
        q := p - prevsz;
        sz := sz + prevsz;
      }
      ToppingStarts(m, h, lists, blocks, p, q);
      ContentsSame(m, h);
      if !PrevInuse(hd) {
        Unlink(q, F);
      } else {
        assert F - {q} == F;
      }
      FreedTop(m, h, F - {q}, lists, blocks, q, p);
      ToppingSize(h, F - {q}, q, p);
      KeptThrough(old(m), m, SetHead(m, q, Tag(sz, true)), h, MergeOf(h, q, p, true), p);
      m := SetHead(m, q, Tag(sz, true));
      top := q;
      h := MergeOf(h, q, p, true);
    }

    /** free: what becomes of the free chunk q before the freed one. The last remainder stays where it is. */
    method DetachPrevious(q: int, ghost F: set<int>) returns (islr: bool)
      requires At(F) && q in F
      modifies this`m, this`lists
      ensures At(if islr then F else F - {q}) && SamePayloads(old(m), m, h, h.base - 1) && SameTags(old(m), m, h)
      ensures |lists| == NAV && if islr then lists[1] == [q] else q !in lists[1]
    {
      hide Open, SamePayloads, SameTags, WordSized, Fd;
      LastTest(m, h, F, lists, blocks, q);
      ContentsSame(m, h);
      TagsSame(m, h);
      islr := Fd(m, q) == BinAt(1);
      if !islr {
        Unlink(q, F);
      }
    }

    /**
     free: what becomes of the free chunk after the freed one. When it is the last remainder, the chunk q that
     swallows it is linked in its place; mg is the memory without that link.
     */
    method DetachNext(next: int, q: int, prior: bool, ghost F: set<int>) returns (islr: bool, ghost mg: Mem)
      requires At(F) && next in F && |lists| == NAV
      requires prior ==> next !in lists[1]
      modifies this`m, this`lists
      ensures Open(mg, h, F - {next}, lists, blocks)
      ensures SamePayloads(old(m), mg, h, h.base - 1) && SameTags(old(m), mg, h)
      ensures |lists| == NAV && (prior ==> islr && lists[1] == old(lists)[1])
      ensures !prior ==> next !in lists[1] && (islr ==> lists[1] == []) && (!islr ==> lists[1] == old(lists)[1])
      ensures m == if islr && !prior then LinkLast(mg, q) else mg
    {
      hide Open, SamePayloads, SameTags, WordSized, Fd, LinkLast, ClearLast;
      LastTest(m, h, F, lists, blocks, next);
      islr := prior;
      if !islr && Fd(m, next) == BinAt(1) {
        islr := true;
        LastCleared(m, h, F, lists, blocks, next);
        ClearKeepsTags(m, h, F, lists, blocks);
        mg := ClearLast(m);
        LinkLastForgets(m, q);
        m := LinkLast(m, q);
        lists := lists[1 := []];
      } else {
        Unlink(next, F);
        mg := m;
      }
    }

    /** free: tags and bin of the merged chunk q, when none of its parts was the last remainder. */
    method BinMerged(q: int, sz: int, ghost p: int, ghost forward: bool, ghost F: set<int>)
      requires At(F) && Freeing(h, F, q, p, forward) && PrevInuse(m.hi[q])
      requires sz == MergeOf(h, q, p, forward).sz[q]
      modifies this`m, this`lists, this`h, this`blocks
      ensures h == MergeOf(old(h), q, p, forward) && top == h.top && WordSized(blocks) && Closed(m, h, lists, blocks)
      ensures SamePayloads(old(m), m, old(h), h.base - 1)
    {
      hide Open, Tiled, Heads, Parted, NoneBefore, Loose, SamePayloads, SameLive, MergeOf, Fused, WordSized, PrevInuse, FreedMem;
      ghost var g, m0 := h, m;
      OpenFacts(m, h, F, lists, blocks);
      FreeingEnds(h, F, q, p, forward);
      FreedLoose(m, h, F, lists, blocks, q, p, forward);
      m := FreedMem(m, q, sz);
      h := MergeOf(h, q, p, forward);
      ghost var m1 := m;
      FrontLink(q, sz, F);
      MergeContents(m0, m1, m, g, h, q, p, forward);
      ClosedIsHeld(m, h, lists, blocks, q);
    }

    /** free: the free chunk before p leaves its bin, unless it is the last remainder; q is the first of the two. */
    method DetachBehind(p: int, hd: int, ghost next: int, ghost F: set<int>) returns (q: int, gained: int, islr: bool)
      requires At(F) && Around(m, h, F, p, hd, next)
      modifies this`m, this`lists
      ensures q == (if PrevInuse(hd) then p else p - ChunkSize(old(m).lo[p])) && q in h.sz && (q != p ==> q in F && q != next)
      ensures gained == if q == p then 0 else h.sz[q]
      ensures At(if islr then F else F - {q}) && SamePayloads(old(m), m, h, h.base - 1) && SameTags(old(m), m, h)
      ensures |lists| == NAV && (islr ==> q != p && lists[1] == [q])
    {
      hide Open, SamePayloads, SameTags, WordSized, Fd, ChunkSize, PrevInuse;
      ContentsSame(m, h);
      TagsSame(m, h);
      OpenFacts(m, h, F, lists, blocks);
      q, gained, islr := p, 0, false;
      if !PrevInuse(hd) {
        gained := ChunkSize(m.lo[p]);
        q := p - gained;
        islr := DetachPrevious(q, F);
      } else {
        assert F - {p} == F;
      }
    }

    /** free: the free chunk after the freed one, if there is one. */
    method DetachAhead(next: int, nextsz: int, q: int, prior: bool, ghost G: set<int>)
      returns (gained: int, islr: bool, ghost mg: Mem)
      requires At(G) && next in h.sz && nextsz == h.sz[next] && |lists| == NAV && next != q
      requires prior ==> lists[1] == [q]
      requires PrevInuse(m.hi[Next(h.sz, next)]) <==> next !in G
      modifies this`m, this`lists
      ensures gained == if next in G then nextsz else 0
      ensures Open(mg, h, if next in G then G - {next} else G, lists, blocks)
      ensures SamePayloads(old(m), mg, h, h.base - 1) && SameTags(old(m), mg, h)
      ensures |lists| == NAV && (prior ==> islr && lists[1] == [q]) && (islr && !prior ==> lists[1] == [])
      ensures m == if islr && !prior then LinkLast(mg, q) else mg
    {
      hide Open, SamePayloads, SameTags, WordSized, Fd, LinkLast, ClearLast, PrevInuse;
      gained, islr, mg := 0, prior, m;
      if !PrevInuse(m.hi[next + nextsz]) {
        gained := nextsz;
        islr, mg := DetachNext(next, q, prior, G);
      } else {
        TagsSame(m, h);
        ContentsSame(m, h);
      }
    }

    /**
     free: the free neighbours of p leave the bins. When one of them is the last remainder, q takes its place;
     mg is the memory without that link.
     */
    method DetachAround(p: int, n: int, hd: int, next: int, nextsz: int, ghost F: set<int>)
      returns (q: int, sz: int, islr: bool, ghost mg: Mem)
      requires At(F) && Around(m, h, F, p, hd, next) && n == h.sz[p] && nextsz == h.sz[next]
      modifies this`m, this`lists
      ensures q == (if PrevInuse(hd) then p else p - ChunkSize(old(m).lo[p])) && q in h.sz
      ensures sz == n + (if q == p then 0 else h.sz[q]) + (if next in F then nextsz else 0)
      ensures Open(mg, h, F - {q} - {LastOf(h, p, next in F)}, lists, blocks) && PrevInuse(mg.hi[q])
      ensures SamePayloads(old(m), mg, h, h.base - 1)
      ensures m == (if islr then LinkLast(mg, q) else mg) && |lists| == NAV && (islr ==> lists[1] == [])
    {
      hide Open, SamePayloads, SameTags, WordSized, Fd, LinkLast, ClearLast, Tag, ChunkSize, PrevInuse, Before, Tiled, Around, LastOf;
      ghost var m0 := m;
      AroundTags(m, h, F, lists, blocks, p, hd, next);
      OpenFacts(m, h, F, lists, blocks);
      var gained;
      q, gained, islr := DetachBehind(p, hd, next, F);
      ghost var G, prior, m1 := if islr then F else F - {q}, islr, m;
      sz := n + gained;
      TagKept(m0, m, h, Next(h.sz, next));
      gained, islr, mg := DetachAhead(next, nextsz, q, islr, G);
      sz := sz + gained;
      G := if next in F then G - {next} else G;
      TagsOn(m0, m1, mg, h);
      OtherPayloads(m0, m1, mg, h, h.base - 1);
      LastSeenApart(m0, m, mg, h, G, lists, blocks, q, prior, islr);
      mg := if prior then ClearLast(m) else mg;
      lists := if prior then lists[1 := []] else lists;
      TagKept(m0, mg, h, q);
      DetachedSet(h, F, q, p, next, prior);
    }

    /** free: tags of the merged chunk q, when it holds the last remainder; mg is the memory without that link. */
    method LinkMerged(q: int, sz: int, ghost p: int, ghost forward: bool, ghost F: set<int>, ghost mg: Mem)
      requires Open(mg, h, F, lists, blocks) && Freeing(h, F, q, p, forward) && PrevInuse(mg.hi[q])
      requires m == LinkLast(mg, q) && |lists| == NAV && lists[1] == [] && top == h.top && sz == MergeOf(h, q, p, forward).sz[q]
      modifies this`m, this`lists, this`h
      ensures h == MergeOf(old(h), q, p, forward) && top == h.top && Closed(m, h, lists, blocks)
      ensures SamePayloads(mg, m, old(h), h.base - 1)
    {
      hide Open, Tiled, Heads, Parted, NoneBefore, SamePayloads, SameLive, MergeOf, Fused, PrevInuse, FreedMem, LinkLast;
      OpenFacts(mg, h, F, lists, blocks);
      FreeingEnds(h, F, q, p, forward);
      FreedLast(mg, h, F, lists, blocks, q, p, forward);
      m := FreedMem(m, q, sz);
      lists := lists[1 := [q]];
      h := MergeOf(h, q, p, forward);
    }

    /** free: p leaves the bins together with its free neighbours, and goes back as one chunk. */
    method MergeAround(p: int, n: int, hd: int, next: int, nextsz: int, ghost F0: set<int>)
      requires At(F0) && Around(m, h, F0, p, hd, next) && n == h.sz[p] && nextsz == h.sz[next] && F0 <= h.free
      requires var q := if PrevInuse(hd) then p else p - ChunkSize(m.lo[p]);
        Freeing(h, F0 - {q} - {LastOf(h, p, next in F0)}, q, p, next in F0)
      modifies this`m, this`lists, this`h, this`blocks
      ensures top == h.top && WordSized(blocks) && Closed(m, h, lists, blocks)
      ensures SamePayloads(old(m), m, old(h), h.base - 1)
      ensures SameLive(old(h), h, p) && LiveSet(h) == LiveSet(old(h)) && h.base == old(h.base) && h.end == old(h.end)
    {
      hide Open, Tiled, Heads, SamePayloads, SameLive, MergeOf, WordSized, PrevInuse, Parted, LiveSet, LinkLast, Around, ChunkSize, NoneBefore, Linked, Binned, FeetOf, Coalesced;
      OpenFacts(m, h, F0, lists, blocks);
      AroundNext(m, h, F0, p, hd, next);
      ghost var h1, m1, forward := h, m, next in F0;
      var q, sz, islr;
      ghost var mg;
      q, sz, islr, mg := DetachAround(p, n, hd, next, nextsz, F0);
      ghost var F := F0 - {q} - {LastOf(h, p, forward)};
      OpenFacts(mg, h, F, lists, blocks);
      MergeSize(h, q, p, forward);
      LinkFreed(q, sz, islr, p, forward, F, mg);
      OtherPayloads(m1, mg, m, h1, h1.base - 1);
    }

    /** free: the merged chunk is linked in, as the last remainder or in its bin. */
    method LinkFreed(q: int, sz: int, islr: bool, ghost p: int, ghost forward: bool, ghost F: set<int>, ghost mg: Mem)
      requires Open(mg, h, F, lists, blocks) && Freeing(h, F, q, p, forward) && PrevInuse(mg.hi[q]) && WordSized(blocks)
      requires m == (if islr then LinkLast(mg, q) else mg) && |lists| == NAV && (islr ==> lists[1] == [])
      requires top == h.top && sz == MergeOf(h, q, p, forward).sz[q]
      modifies this`m, this`lists, this`h, this`blocks
      ensures h == MergeOf(old(h), q, p, forward) && top == h.top && WordSized(blocks) && Closed(m, h, lists, blocks)
      ensures SamePayloads(mg, m, old(h), h.base - 1)
      ensures SameLive(old(h), h, p) && LiveSet(h) == LiveSet(old(h)) && h.base == old(h.base) && h.end == old(h.end)
    {
      hide Open, Tiled, Heads, SamePayloads, SameLive, MergeOf, WordSized, PrevInuse, Parted, LiveSet, LinkLast, Freeing;
      OpenFacts(mg, h, F, lists, blocks);
      FreeingEnds(h, F, q, p, forward);
      if islr {
        LinkMerged(q, sz, p, forward, F, mg);
      } else {
        BinMerged(q, sz, p, forward, F);
      }
    }

    /** free: the case of a chunk that does not border top; it is merged with its free neighbours and binned. */
    method FreeInside(p: int, n: int)
      requires Full() && h.Live(p) && n == h.sz[p] && p + n != h.top
      modifies this`m, this`lists, this`h, this`blocks
      ensures Full() && Keeps(old(m), old(h), m, h, p) && LiveSet(h) == LiveSet(old(h)) - {p}
    {
      hide Open, Tiled, Heads, SamePayloads, SameLive, MergeOf, Fused, WordSized, Tag, ChunkSize, PrevInuse, Around, Parted;
      hide NoneBefore, LiveSet, Settled, SetHead, LinkLast, FreedMem, ClearBit;
      OpenFacts(m, h, h.free, lists, blocks);
      TagsRead(m, h, lists, blocks, p);
      var hd, next := m.hi[p], p + n;
      var nextsz := ChunkSize(m.hi[next]);
      ghost var h0, m0, F0, forward := h, m, h.free, next in h.free;
      FreeMarked(m, h, lists, blocks, p);
      m := SetHead(m, next, Tag(nextsz, false));
      h := h.(free := h.free + {p});
      ghost var h1, m1 := h, m;
      MergeAround(p, n, hd, next, nextsz, F0);
      FreeKeeps(m0, m1, m, h0, h1, h, p);
    }

    // -------------------------------------------------------------- memory from the private sbrk

    /** memset((void*) from, 0, to - from); both addresses are unit boundaries whenever a chunk is given back. */
    method Clear(from: int, to: int)
      modifies this`m
      ensures Wiped(old(m), m, UnitAt(from + 15), UnitAt(to))
    {
      ghost var m0 := m;
      hide Wiped;
      var u, end := UnitAt(from + 15), UnitAt(to);
      ghost var start := u;
      WipedNone(m, start);
      while u < end
        invariant start <= u && Wiped(m0, m, start, u) && (u <= end || u == start)
      {
        WipedMore(m0, m, start, u);
        m := Mem(m.lo[u := 0], m.hi[u := 0]);
        u := u + 1;
      }
      WipedTo(m0, m, start, u, end);
    }

    /** sbrk(increment): the old break, or -1. Memory given back is cleared, before the range is checked. */
    method Sbrk(increment: int) returns (prior: int)
      requires Fits32(increment)
      modifies this`brk, this`m
      ensures if increment < 0 then Wiped(old(m), m, UnitAt(old(brk) + increment + 15), UnitAt(old(brk))) else m == old(m)
      ensures if memStart <= old(brk) + increment <= memEnd
        then prior == old(brk) && brk == old(brk) + increment
        else prior == -1 && brk == old(brk)
    {
      var next := brk + increment;
      if increment < 0 {
        Clear(next, brk);
      }
      if next < memStart || next > memEnd {
        return -1;
      }
      prior := brk;
      brk := next;
    }

    /** malloc_trim: d units are given back from the end of top. */
    method Release(d: int, topSize: int)
      requires Valid() && Full() && topSize == h.sz[h.top] && 0 < d <= topSize - MINSIZE && d % 256 == 0
      modifies this`m, this`brk, this`sbrkedMem, this`h
      ensures Valid() && Full() && Keeps(old(m), old(h), m, h, old(h).base - 1) && LiveSet(h) == LiveSet(old(h))
      ensures h == Resized(old(h), -d) && brk == old(brk) - 16 * d
    {
      hide Open, Coalesced, Tiled, Keeps, WordSized, Tag, Wiped, LiveSet, SetHead, Settled, Resized, UnitAt;
      ghost var m0, h0 := m, h;
      OpenFacts(m, h, h.free, lists, blocks);
      BaseLow(h);
      SettledMoves(h.base, h.end, brk, sbrkBase, sbrkedMem, stranded, -d);
      ResizedEnds(h, -d);
      UnitAtExact(h.end);
      UnitAtExact(h.end - d);
      var newBrk := Sbrk(-(16 * d));
      var rest := topSize - d;
      TopShrunk(m0, m, h0, lists, blocks, d, rest);
      m := SetHead(m, top, Tag(rest, true));
      sbrkedMem := sbrkedMem - 16 * d;
      h := Resized(h, -d);
    }

    lemma TopBounds()
      requires Valid()
      ensures 0 <= 16 * TopSize() <= 0x8000_0000
      ensures Full() ==> h.top in h.sz && TopSize() == h.sz[h.top] >= MINSIZE
      ensures Empty() ==> TopSize() == 0
    {
      hide Open, Coalesced, Settled;
      if Full() {
        HeapEnd(m, h, lists, blocks, brk, sbrkBase, sbrkedMem, stranded);
      }
    }

    /** malloc_trim(pad), pad and MINSIZE together being a long: with a pad larger than top all stays as it is. */
    method Trim(pad: nat) returns (released: bool)
      requires Valid() && pad + 16 * MINSIZE < LONG_END
      modifies this`m, this`brk, this`sbrkedMem, this`h
      ensures Valid() && (old(Full()) ==> Full()) && (old(Empty()) ==> Empty())
      ensures Keeps(old(m), old(h), m, h, old(h).base - 1) && LiveSet(h) == LiveSet(old(h))
      ensures h.base == old(h).base && top == old(top)
      ensures released <==> 16 * old(TopSize()) > pad + 16 * MINSIZE + 4096
      ensures released ==> pad + 16 * MINSIZE < 16 * TopSize() <= pad + 16 * MINSIZE + 4096
      ensures old(brk) - brk == 16 * (old(TopSize()) - TopSize()) && (!released ==> m == old(m) && brk == old(brk))
    {
      hide Closed, Blank, Keeps, WordSized, ChunkSize, LiveSet, Settled, Extra, Resized;
      TopBounds();
      SameKeeps(m, h);
      var topSize := 16 * TopSize();
      var extra := Extra(topSize, pad);
      ExtraPages(topSize, pad);
      released := extra >= 4096;
      if released {
        ghost var h0 := h;
        ResizedTop(h0, -(extra / 16));
        Release(extra / 16, topSize / 16);
        TopBounds();
      }
    }

    /** free(mem): mem is one unit into its chunk; 0 is NULL. */
    method Free(mem: int)
      requires Valid() && (mem == 0 || (Full() && h.Live(mem - 1)))
      modifies this
      ensures Valid() && (mem == 0 ==> m == old(m) && h == old(h))
      ensures mem != 0 ==> Full() && Keeps(old(m), old(h), m, h, mem - 1) && LiveSet(h) == LiveSet(old(h)) - {mem - 1}
    {
      hide Open, Coalesced, Tiled, Keeps, WordSized, LiveSet, Settled, ChunkSize;
      if mem == 0 {
        return;
      }
      OpenFacts(m, h, h.free, lists, blocks);
      var p := mem - 1;
      TagsRead(m, h, lists, blocks, p);
      var n := ChunkSize(m.hi[p]);
      if p + n == top {
        FreeIntoTop(p, n);
        ghost var m1, h1 := m, h;
        OpenFacts(m, h, h.free, lists, blocks);
        TopReads(m, h);
        if 16 * ChunkSize(m.hi[top]) >= TRIM_THRESHOLD {
          var released := Trim(TOP_PAD);
          KeepsOn(old(m), old(h), m1, h1, m, h, p);
        }
      } else {
        FreeInside(p, n);
      }
    }

    // -------------------------------------------------------------- malloc_extend_top

    /** chunksize(top); before the first extension the size word of top is binblocks, which is 0. */
    function TopSize(): int
      reads this
    {
      if top == INITIAL_TOP then 0 else ChunkSize(m.hi[top])
    }

    /** malloc_extend_top: top = brk; set_head(top, top_size | PREV_INUSE). */
    method PlaceTop(t: int, topSize: int, ghost fits: bool)
      requires fits ==> Linked(m, lists) && (forall i :: 0 <= i < NAV ==> lists[i] == []) && blocks == 0
      requires fits ==> t >= 0 && topSize >= MINSIZE && memStart <= 16 * t
      requires fits ==> Settled(t, t + topSize, brk, sbrkBase, sbrkedMem, stranded)
      modifies this`m, this`top, this`h
      ensures fits ==> Full() && h.free == {} && LiveSet(h) == {} && h.top in h.sz && h.sz[h.top] == topSize
    {
      hide Linked, Closed, SetHead, Tag, Settled, WordSized, LiveSet;
      if fits {
        NoBits();
        FirstHeap(m, lists, t, topSize);
      }
      top := t;
      m := SetHead(m, top, Tag(topSize, true));
      h := Layout(map[t := topSize], {}, t, t, t + topSize);
    }

    /**
     malloc_extend_top: new memory that does not continue top, so the first there is; it is aligned at both
     ends. What follows is claimed only when the size asked for fits sbrk's int argument.
     */
    method StartTop(prior: int, oldEnd: int, sbrkSize: int, nb: int, ghost fits: bool) returns (grown: bool)
      requires fits ==> Blank(m, h, lists, blocks, top) && Opened(prior, sbrkBase, sbrkedMem, stranded) && oldEnd == 16 * INITIAL_TOP
      requires fits ==> 0 <= memStart <= prior && brk == prior + sbrkSize <= memEnd <= memStart + 0x8000_0000
      requires fits ==> sbrkSize >= 16 * nb + 16 * MINSIZE && nb >= MINSIZE
      modifies this`m, this`brk, this`top, this`sbrkBase, this`sbrkedMem, this`h, this`stranded
      ensures fits ==> Valid() && (grown ==> Full() && h.free == {} && LiveSet(h) == {} && h.sz[h.top] >= nb + MINSIZE)
      ensures fits ==> !grown ==> Empty() && m == old(m) && h == old(h) && top == old(top) && brk == old(brk) && brk + PAGE + 16 > memEnd
    {
      hide Linked, Closed, PageUp, Settled, Misaligned, UnitAt, LiveSet, Full;
      sbrkedMem := sbrkedMem + sbrkSize;
      if sbrkBase == -1 {
        sbrkBase := prior;
      } else {
        sbrkedMem := sbrkedMem + (prior - oldEnd);
      }
      var front := Misaligned(prior + 16);
      var start, correction := prior, 0;
      if front > 0 {
        correction := 16 - front;
        start := start + correction;
      }
      correction := correction + PageUp(start + sbrkSize) - (start + sbrkSize);
      CorrectionFits(prior, sbrkSize, front, start, correction);
      if fits {
        FirstSpan(prior, sbrkSize, front, start, correction, nb);
      }
      var newBrk := Sbrk(correction);
      if newBrk == -1 {
        stranded := true;
        return false;
      }
      sbrkedMem := sbrkedMem + correction;
      var t, topSize := UnitAt(start), UnitAt(newBrk - start + correction);
      if fits {
        FirstSettled(prior, sbrkSize, start, brk, sbrkBase, old(sbrkedMem), sbrkedMem, stranded);
      }
      PlaceTop(t, topSize, fits);
      grown := true;
    }

    /** malloc_extend_top: new memory that continues top. Claims are made only when sbrk got the size asked for. */
    method GrowTop(sbrkSize: int, oldTopSize: int, ghost m0: Mem, ghost prior: int, ghost fits: bool)
      requires top == h.top && WordSized(blocks) && Closed(m0, h, lists, blocks) && memStart <= 16 * h.base
      requires Settled(h.base, h.end, prior, sbrkBase, sbrkedMem, stranded) && oldTopSize == h.sz[h.top]
      requires sbrkSize == 16 * (sbrkSize / 16) >= 0 && (sbrkSize / 16) % 256 == 0 && (fits ==> m == m0 && brk == prior + sbrkSize)
      modifies this`m, this`sbrkedMem, this`h
      ensures EndsAtBreak(top, m, brk) <==> prior + sbrkSize == brk
      ensures ChunkSize(m.hi[top]) == sbrkSize / 16 + oldTopSize
      ensures fits ==> Full() && Keeps(m0, old(h), m, h, old(h).base - 1) && LiveSet(h) == LiveSet(old(h)) && h.free == old(h).free
      ensures fits ==> h.top == old(h).top && h.sz[h.top] == sbrkSize / 16 + oldTopSize
    {
      hide Closed, Keeps, LiveSet, WordSized, SetHead, Tag, Settled, Resized, EndsAtBreak;
      HeapEnd(m0, h, lists, blocks, prior, sbrkBase, sbrkedMem, stranded);
      var d := sbrkSize / 16;
      var n := d + oldTopSize;
      EndAfter(m, top, n, brk);
      TopGrown(m0, h, lists, blocks, d, n);
      SettledMoves(h.base, h.end, prior, sbrkBase, sbrkedMem, stranded, d);
      sbrkedMem := sbrkedMem + sbrkSize;
      m := SetHead(m, top, Tag(n, true));
      h := Resized(h, d);
    }

    /**
     malloc_extend_top for a chunk of nb units. The heap is kept exactly when sbrk copes with the size asked for;
     otherwise it is erased, or top is made to end behind the break.
     */
    method ExtendTop(nb: int) returns (grown: bool)
      requires Valid() && nb >= MINSIZE
      modifies this`m, this`brk, this`top, this`sbrkBase, this`sbrkedMem, this`h, this`stranded
      ensures SbrkCopes(Asked(nb, old(sbrkBase) == -1), old(brk), memEnd) ==>
        && Valid() && Keeps(old(m), old(h), m, h, old(h).base - 1) && LiveSet(h) == LiveSet(old(h)) && h.free == old(h).free
        && (old(Full()) ==> Full())
        && (if grown then Full() && h.sz[h.top] >= nb + MINSIZE else m == old(m) && h == old(h) && top == old(top))
        && (old(Full()) ==> (grown <==> old(brk) + Asked(nb, false) <= memEnd) && h.top == old(h).top)
        && (!grown ==> old(brk) + Asked(nb, old(sbrkBase) == -1) + PAGE + 16 > memEnd)
      ensures old(Full()) && !SbrkCopes(Asked(nb, false), old(brk), memEnd) ==>
        && !EndsAtBreak(top, m, brk) && top == old(top) && Misled(grown, nb, old(TopSize()), old(brk), m, old(h), brk)
        && (grown <==> memStart <= old(brk) + ToInt(Asked(nb, false)))
    {
      hide Asked, Closed, Blank, Keeps, LiveSet, WordSized, ChunkSize, Settled, ToInt, Fits32, Misled, Wiped, SbrkCopes, EndsAtBreak, UnitAt, Erased;
      var oldTop, oldTopSize := top, TopSize();
      var oldEnd := 16 * (oldTop + oldTopSize);
      var sbrkSize := Asked(nb, sbrkBase == -1);
      ghost var fits, full := sbrkSize < 0x8000_0000, Full();
      ghost var m0, h0, brk0 := m, h, brk;
      AskedFacts(nb, sbrkBase == -1);
      ToIntExact(sbrkSize);
      CopesMeans(sbrkSize, brk, memEnd);
      if full {
        HeapEnd(m, h, lists, blocks, brk, sbrkBase, sbrkedMem, stranded);
        assert sbrkSize == Asked(nb, false);
        SameKeeps(m0, h0);
      } else {
        BlankFacts(m0, h0, lists, blocks, oldTop, m0, h0);
      }
      var prior := Sbrk(ToInt(sbrkSize));
      if prior == -1 || (prior < oldEnd && oldTop != INITIAL_TOP) {
        if full && ToInt(sbrkSize) < 0 {
          ErasedByRefusal(m0, m, h, brk, ToInt(sbrkSize), memStart, nb, oldTopSize);
        }
        return false;
      }
      if prior == oldEnd {
        GrowTop(sbrkSize, oldTopSize, m0, prior, fits);
        grown := true;
        if full {
          TopMisled(m0, m, h0, top, nb, sbrkSize, oldTopSize, brk0, brk, memStart, memEnd);
        }
      } else {
        grown := StartTop(prior, oldEnd, sbrkSize, nb, fits);
        BlankFacts(m0, h0, lists, blocks, oldTop, m, h);
      }
    }

    // -------------------------------------------------------------- malloc: taking one chunk

    /** unlink and set_inuse_bit_at_offset: a binned chunk is taken as it is. */
    method TakeChunk(p: int, size: int, ghost nb: int)
      requires Full() && p in h.free && p in h.sz && size == h.sz[p] && nb <= size < nb + MINSIZE
      modifies this`m, this`lists, this`h
      ensures Full() && Obtained(old(m), old(h), m, h, p, nb) && h.base == old(h).base && h.end == old(h).end
    {
      hide Open, SamePayloads, SameTags, WordSized, SetBit, Obtained, Settled, Parted, LiveSet;
      ghost var m0, h0 := m, h;
      Unlink(p, h.free);
      ghost var m1, F := m, h.free - {p};
      TookWhole(m0, m1, h, F, lists, blocks, p, nb);
      m := SetBit(m, p + size);
      h := h.(free := F);
    }

    /** A binned chunk is split: set_head and unlink, then the remainder becomes the last remainder. */
    method SplitChunk(p: int, size: int, nb: int)
      requires Full() && p in h.free && p in h.sz && size == h.sz[p] && MINSIZE <= nb <= size - MINSIZE && lists[1] == []
      modifies this`m, this`lists, this`h
      ensures Full() && Obtained(old(m), old(h), m, h, p, nb) && h.base == old(h).base && h.end == old(h).end
    {
      hide Open, SamePayloads, SameTags, WordSized, SplitMem, Obtained, Settled, Parted, LiveSet, Cut;
      ghost var m0, F := m, h.free - {p};
      NotLast(m, h, lists, blocks, p);
      Unlink(p, h.free);
      TookSplit(m0, m, h, F, lists, blocks, p, nb);
      m := SplitMem(m, p, size, nb);
      h := CutOf(h, p, nb);
      lists := lists[1 := [p + nb]];
    }

    /** The last remainder is split again: what remains of it takes its place. */
    method SplitLast(p: int, size: int, nb: int)
      requires Full() && lists[1] == [p] && p in h.sz && size == h.sz[p] && MINSIZE <= nb <= size - MINSIZE
      modifies this`m, this`lists, this`h
      ensures Full() && Obtained(old(m), old(h), m, h, p, nb) && h.base == old(h).base && h.end == old(h).end
    {
      hide Open, SamePayloads, SameTags, WordSized, SplitMem, Obtained, Settled, Parted, LiveSet, Cut, ClearLast, PrevInuse;
      OpenFacts(m, h, h.free, lists, blocks);
      LastFacts(m, h, lists, blocks, p);
      TookLast(m, h, lists, blocks, p, nb);
      m := SplitMem(m, p, size, nb);
      h := CutOf(h, p, nb);
      lists := lists[1 := [p + nb]];
    }

    /** clear_last_remainder and set_inuse_bit_at_offset: the last remainder is taken as it is. */
    method ExhaustLast(p: int, size: int, ghost nb: int)
      requires Full() && lists[1] == [p] && p in h.sz && size == h.sz[p] && nb <= size < nb + MINSIZE
      modifies this`m, this`lists, this`h
      ensures Full() && Obtained(old(m), old(h), m, h, p, nb) && h.base == old(h).base && h.end == old(h).end
    {
      hide Open, SamePayloads, SameTags, WordSized, SetBit, Obtained, Settled, Parted, LiveSet, ClearLast, PrevInuse;
      ghost var F := h.free - {p};
      OpenFacts(m, h, h.free, lists, blocks);
      LastFacts(m, h, lists, blocks, p);
      LastCleared(m, h, h.free, lists, blocks, p);
      TookWhole(m, ClearLast(m), h, F, lists[1 := []], blocks, p, nb);
      m := SetBit(ClearLast(m), p + size);
      lists := lists[1 := []];
      h := h.(free := F);
    }

    /** clear_last_remainder and frontlink: the last remainder is too small and goes into its bin. */
    method BinLast(p: int, size: int)
      requires Full() && lists[1] == [p] && p in h.sz && size == h.sz[p]
      modifies this`m, this`lists, this`blocks
      ensures Full() && |lists| == NAV && lists[1] == [] && Keeps(old(m), h, m, h, h.base - 1)
    {
      hide Open, SamePayloads, SameLive, WordSized, Settled, ClearLast, Loose;
      ghost var m0, F := m, h.free - {p};
      OpenFacts(m, h, h.free, lists, blocks);
      LastFacts(m, h, lists, blocks, p);
      LastCleared(m, h, h.free, lists, blocks, p);
      m := ClearLast(m);
      lists := lists[1 := []];
      ghost var m1 := m;
      FrontLink(p, size, F);
      assert F + {p} == h.free;
      OtherPayloads(m0, m1, m, h, h.base - 1);
      LiveSame(h, h.base - 1);
    }

    /** Step 4 of malloc: the front of top is taken. What it keeps is claimed only when the heap was sound before. */
    method SplitTop(size: int, nb: int, ghost fits: bool)
      requires fits ==> Full() && size == h.sz[h.top] && MINSIZE <= nb <= size - MINSIZE
      modifies this`m, this`h, this`top
      ensures fits ==> Full() && Obtained(old(m), old(h), m, h, old(top), nb) && h.base == old(h).base && h.end == old(h).end
      ensures top == old(top) + nb && (EndsAtBreak(top, m, brk) <==> 16 * (old(top) + size) == brk)
    {
      EndAfter(SetHead(m, top, Tag(nb, true)), top + nb, size - nb, brk);
      hide EndsAtBreak, Open, Closed, SamePayloads, WordSized, Obtained, Settled, LiveSet, Cut, Tag, SetHead;
      if fits {
        TookTop(m, h, lists, blocks, nb);
        h := CutOf(h, top, nb);
      }
      m := SetHead(SetHead(m, top, Tag(nb, true)), top + nb, Tag(size - nb, true));
      top := top + nb;
    }

    // -------------------------------------------------------------- malloc: searching the bins

    /** for (victim = last(bin); victim != bin; victim = victim->bk): the smallest chunk of bin i that fits. */
    method LastFit(i: int, nb: int) returns (victim: int, size: int)
      requires Searchable(m, h.sz, h.free, lists, blocks) && 4 <= i < NAV
      ensures |lists| == NAV
      ensures if victim == BinAt(i) then AllBelow(h.sz, lists[i], nb)
        else victim in lists[i] && victim in h.sz && size == h.sz[victim] >= nb && Smallest(h.sz, lists[i], size, nb)
    {
      hide Searchable, Ring, Members, Sorted, Fd, Bk, BinAt, Cycle, Settled, WordSized, AllBelow, Smallest, ChunkSize, Scanned;
      BinFacts(m, h.sz, h.free, lists, blocks, i);
      ghost var L, k := lists[i], |lists[i]|;
      WalkStart(m, h.sz, h.free, lists, blocks, i, nb);
      victim, size := Bk(m, BinAt(i)), 0;
      while victim != BinAt(i)
        invariant 0 <= k <= |L| && |Cycle(BinAt(i), L)| == |L| + 2
        invariant victim == Cycle(BinAt(i), L)[k] && Scanned(h.sz, L, k, nb)
        decreases k
      {
        WalkBack(m, h.sz, h.free, lists, blocks, i, k, nb);
        size := ChunkSize(m.hi[victim]);
        if size >= nb {
          return;
        }
        victim := Bk(m, victim);
        k := k - 1;
      }
      WalkEnd(m, h.sz, h.free, lists, blocks, i, k, nb);
    }

    /** The bins of one block from start on: do { ... } while ((++idx & (BINBLOCKWIDTH - 1)) != 0). */
    method ScanBlock(start: int, nb: int) returns (p: int, size: int, idx: int)
      requires Full() && 4 <= start < NAV && nb >= MINSIZE && Ready(h.sz, lists, start, nb)
      ensures if p == -1
        then idx == BlockStart(start) + 4 && Ready(h.sz, lists, idx, nb) && EmptyBins(lists, start, idx)
        else BestFit(h, lists, p, nb) && size == h.sz[p]
    {
      hide Open, Coalesced, BinAt, Settled, WordSized, AllBelow, Smallest, Ready, BestFit, EmptyBins;
      idx := start;
      NoBinsYet(lists, start);
      BlockEnd(start);
      while true
        invariant start <= idx < BlockStart(start) + 4 && Ready(h.sz, lists, idx, nb) && EmptyBins(lists, start, idx)
        decreases NAV - idx
      {
        OpenSearchable(m, h, h.free, lists, blocks);
        p, size := LastFit(idx, nb);
        BinTest(m, h, lists, blocks, idx, p);
        if p != BinAt(idx) {
          FoundIn(m, h, lists, blocks, idx, p, nb);
          return;
        }
        p := -1;
        NotIn(m, h, lists, blocks, start, idx, nb);
        idx := idx + 1;
        BlockEnd(idx);
        if idx % 4 == 0 {
          return;
        }
      }
    }

    /**
     The block bit is cleared once the bins of the block from start on were seen empty and those before start
     are found empty too: do { ... } while (first(q) == q).
     */
    method ClearPartial(start: int)
      requires Full() && 4 <= start < NAV && EmptyBins(lists, start, BlockStart(start) + 4)
      modifies this`blocks
      ensures Full() && Covers(old(blocks), blocks)
    {
      hide Open, Coalesced, BinAt, Fd, Settled, WordSized, EmptyBins, Bit, Covers, ClearBlock;
      CoversItself(blocks);
      BlockEnd(start);
      var s := start;
      while true
        invariant BlockStart(start) <= s <= start && EmptyBins(lists, s, BlockStart(start) + 4)
        invariant Full() && blocks == old(blocks)
        decreases s
      {
        if s % 4 == 0 {
          BlockEnd(s);
          BlockCleared(m, h, lists, blocks, s / 4);
          blocks := ClearBlock(blocks, s / 4);
          return;
        }
        s := s - 1;
        HeaderTest(m, h, lists, blocks, s);
        if Fd(m, BinAt(s)) != BinAt(s) {
          return;
        }
        MoreEmpty(lists, s, BlockStart(start) + 4);
      }
    }

    /**
     while ((block & binblocks) == 0): to the next marked block, k being the exponent of block. There is one, as
     block <= binblocks.
     */
    method SkipBlocks(at: int, nb: int) returns (k: int)
      requires Full() && nb >= MINSIZE && 1 <= at && Ready(h.sz, lists, 4 * at, nb) && Limbs.Pow(2, at) <= blocks
      ensures at <= k < 32 && Ready(h.sz, lists, 4 * k, nb)
    {
      hide Open, Coalesced, Settled, WordSized, Bit, Ready, Linked;
      ghost var j: nat := SomeBlockFrom(blocks, at);
      k := at;
      BitsBound(blocks, j);
      while !Bit(blocks, k)
        invariant at <= k <= j < 32 && Ready(h.sz, lists, 4 * k, nb)
        decreases j - k
      {
        UnmarkedBlock(m, h, lists, blocks, 4 * k, nb);
        k := k + 1;
      }
    }

    /** Step 3 of malloc: the best fitting chunk of the bins from start on, if there is one; else -1. */
    method SearchBins(start: int, nb: int) returns (p: int, size: int)
      requires Full() || Empty()
      requires 4 <= start < NAV && nb >= MINSIZE && Ready(h.sz, lists, start, nb)
      modifies this`blocks
      ensures old(Full()) ==> Full()
      ensures old(Empty()) ==> Empty() && blocks == old(blocks)
      ensures if p == -1 then Below(h.sz, lists, NAV, nb) else old(Full()) && BestFit(h, lists, p, nb) && size == h.sz[p]
    {
      hide Open, Coalesced, Settled, WordSized, Bit, Ready, Below, BestFit, EmptyBins, Covers, BlockStart, Linked, Searchable, Blank;
      var idx, k := start, start / 4;
      BlockEnd(start);
      p, size := -1, 0;
      MarkedHeap();
      if Limbs.Pow(2, k) <= blocks {
        Limbs.PowPositive(2, k);
        if !Bit(blocks, k) {
          UnmarkedBlock(m, h, lists, blocks, idx, nb);
          NextMarked(blocks, k);
          k := SkipBlocks(k + 1, nb);
          idx := 4 * k;
        }
        while true
          invariant Full() && 4 <= idx < NAV && k == idx / 4 && Ready(h.sz, lists, idx, nb)
          decreases NAV - idx
        {
          var first := idx;
          BlockEnd(idx);
          p, size, idx := ScanBlock(idx, nb);
          if p != -1 {
            return;
          }
          ClearPartial(first);
          k := k + 1;
          if Limbs.Pow(2, k) > blocks {
            break;
          }
          k := SkipBlocks(k, nb);
          idx := 4 * k;
        }
        OpenSearchable(m, h, h.free, lists, blocks);
      }
      NoneMarked(m, h.sz, h.free, lists, blocks, idx, k, nb);
    }

    lemma MarkedHeap()
      requires Full() || Empty()
      ensures (blocks > 0 ==> Full()) && (h.free != {} ==> Full())
      ensures Searchable(m, h.sz, h.free, lists, blocks)
      ensures (Full() ==> !Empty()) && h.base - 1 !in h.sz
      ensures forall x {:trigger x in h.free} :: x in h.free ==> x >= 0
    {
      if Full() {
        OpenSearchable(m, h, h.free, lists, blocks);
      } else {
        BlankSearchable(m, h, lists, blocks, top);
      }
    }

    /**
     Step 1 of malloc: the exact fits of nb's own bin, and for small requests of the next one. Without one, -1,
     and the bin from which the others have to be searched.
     */
    method ExactFit(nb: int) returns (p: int, size: int, idx: int)
      requires Searchable(m, h.sz, h.free, lists, blocks) && nb >= MINSIZE
      ensures |lists| == NAV && 4 <= idx < NAV
      ensures if p == -1 then Ready(h.sz, lists, idx, nb)
        else BestFit(h, lists, p, nb) && nb <= size == h.sz[p] < nb + MINSIZE
    {
      hide Searchable, Fd, Bk, BinAt, BinIndex, Ready, BestFit, AllBelow, Smallest, Below, ChunkSize;
      BinIndexMonotone(nb, nb);
      if 16 * nb < 504 {
        idx := 2 * nb;
        SmallLast(m, h, lists, blocks, nb);
        var q := BinAt(idx);
        p := Bk(m, q);
        if p == q {
          q := BinAt(idx + 1);
          p := Bk(m, q);
        }
        if p != q {
          size := ChunkSize(m.hi[p]);
          return;
        }
        idx := idx + 2;
      } else {
        idx := BinIndex(nb);
        BinsBelow(m, h, lists, blocks, idx, nb);
        p, size := LastFit(idx, nb);
        OwnBin(m, h, lists, blocks, idx, p, nb);
        if p != BinAt(idx) {
          if size < nb + MINSIZE {
            return;
          }
        } else {
          idx := idx + 1;
        }
      }
      p, size := -1, 0;
    }

    /** Step 2 of malloc: the last remainder, whole or split, when it is large enough; else it is binned. -1 when not taken. */
    method UseLast(nb: int) returns (p: int)
      requires Full() || Empty()
      requires nb >= MINSIZE
      modifies this`m, this`lists, this`h, this`blocks
      ensures p == -1 ==> h == old(h) && |lists| == NAV && lists[1] == [] && Keeps(old(m), h, m, h, h.base - 1)
      ensures p == -1 ==> (old(Full()) ==> Full()) && (old(Empty()) ==> Empty() && lists == old(lists))
      ensures p == -1 ==> |old(lists)| == NAV && |old(lists)[1]| <= 1 && forall x :: x in old(lists)[1] ==> x in h.sz && h.sz[x] < nb
      ensures p != -1 ==> Full() && Obtained(old(m), old(h), m, h, p, nb) && p >= 0
      ensures p != -1 ==> |old(lists)| == NAV && old(lists)[1] == [p] && p in old(h).free && !TooSmall(old(h), nb)
    {
      hide Closed, Settled, WordSized, Fd, BinAt, Blank, Obtained, Keeps, ChunkSize, Searchable;
      MarkedHeap();
      LastRead(m, h, lists, blocks);
      SameKeeps(m, h);
      p := Fd(m, BinAt(1));
      if p == BinAt(1) {
        return -1;
      }
      var size := ChunkSize(m.hi[p]);
      if size - nb >= MINSIZE {
        SplitLast(p, size, nb);
        return;
      }
      if size >= nb {
        ExhaustLast(p, size, nb);
        return;
      }
      BinLast(p, size);
      p := -1;
    }

    /** Steps 1 to 3 of malloc, for nb units: a chunk out of the bins, or -1. */
    method FromBins(nb: int) returns (p: int)
      requires Full() || Empty()
      requires nb >= MINSIZE
      modifies this`m, this`lists, this`h, this`blocks
      ensures p == -1 ==> h == old(h) && Keeps(old(m), h, m, h, h.base - 1) && TooSmall(h, nb)
      ensures p == -1 ==> (old(Full()) ==> Full()) && (old(Empty()) ==> Empty())
      ensures p != -1 ==> Full() && Obtained(old(m), old(h), m, h, p, nb) && p >= 0
      ensures p != -1 ==> p in old(h).free && Chosen(old(h), old(lists), p, nb) && !TooSmall(old(h), nb)
    {
      hide Closed, Settled, WordSized, Blank, Obtained, Keeps, Searchable, Ready, BestFit, Below, TooSmall, FitsFrom, BinIndex, LiveSet;
      ghost var m0, h0, lists0 := m, h, lists;
      MarkedHeap();
      var size, idx;
      p, size, idx := ExactFit(nb);
      if p != -1 {
        BestFree(h, lists, p, nb);
        TakeChunk(p, size, nb);
        return;
      }
      ReadyMeans(m, h, lists, blocks, idx, nb);
      p := UseLast(nb);
      if p != -1 {
        return;
      }
      MarkedHeap();
      LastGone(h, lists0, lists, idx, nb);
      ReadyMeans(m, h, lists, blocks, idx, nb);
      p, size := SearchBins(idx, nb);
      if p == -1 {
        MarkedHeap();
        NoneFits(m, h, lists, blocks, nb);
        return;
      }
      BestFree(h, lists, p, nb);
      BestBefore(h, lists0, lists, p, nb);
      ghost var m1 := m;
      if size - nb >= MINSIZE {
        SplitChunk(p, size, nb);
      } else {
        TakeChunk(p, size, nb);
      }
      ObtainedAfter(m0, h0, m1, h0, m, h, p, nb);
    }

    /** Top is large enough for nb units, or sbrk copes with what malloc_extend_top asks for. */
    ghost predicate TopCopes(nb: int)
      reads this
    {
      TopSize() - nb >= MINSIZE || SbrkCopes(Asked(nb, sbrkBase == -1), brk, memEnd)
    }

    /** malloc(bytes) finds a chunk that fits, or copes with taking the memory from top. */
    ghost predicate Copes(bytes: nat)
      reads this
    {
      bytes >= LONG_END || !TooSmall(h, Units(bytes)) || TopCopes(Units(bytes))
    }

    /** Step 4 of malloc: a chunk of nb units from top, which is extended when it is too small; -1 when that fails. */
    method FromTop(nb: int) returns (p: int)
      requires Valid() && nb >= MINSIZE
      modifies this
      ensures old(Full()) ==> (Valid() <==> old(TopCopes(nb)))
      ensures old(TopCopes(nb)) ==> Valid() && (old(Full()) ==> Full())
      ensures old(TopCopes(nb)) && p != -1 ==> Full() && Obtained(old(m), old(h), m, h, p, nb) && p >= 0 && p !in old(h).free
      ensures old(TopCopes(nb)) && p == -1 ==>
        Keeps(old(m), old(h), m, h, old(h).base - 1) && LiveSet(h) == LiveSet(old(h))
        && Exhausted(old(brk), memEnd, nb, old(sbrkBase) == -1, old(Full()))
      ensures old(Full()) && !old(TopCopes(nb)) ==> Destroyed(p, nb, old(brk), old(h), m, brk, memStart)
    {
      hide Closed, Settled, WordSized, Blank, Obtained, Keeps, LiveSet, Asked, ChunkSize, SbrkCopes, Misled, EndsAtBreak, Erased, ToInt;
      SameKeeps(m, h);
      TopFacts();
      MarkedHeap();
      ghost var m0, h0, was, fits := m, h, Full(), true;
      if TopSize() - nb < MINSIZE {
        fits := SbrkCopes(Asked(nb, sbrkBase == -1), brk, memEnd);
        ghost var topSize, brk0 := TopSize(), brk;
        var grown := ExtendTop(nb);
        if fits {
          if Full() {
            TopFacts();
          }
        } else if was {
          MisledMeans(grown, nb, topSize, brk0, m, h0, brk);
          NotAtBreak();
        }
        if TopSize() - nb < MINSIZE {
          return -1;
        }
      }
      ghost var m1, h1 := m, h;
      p := top;
      SplitTop(TopSize(), nb, fits);
      if fits {
        ObtainedAfter(m0, h0, m1, h1, m, h, p, nb);
      } else if was {
        NotAtBreak();
      }
    }

    /**
     malloc(bytes): 0 is NULL. All of the heap is kept exactly when malloc copes with the request; then the chunk taken
     is the best fitting one, and NULL is returned only when nothing fits and memory is used up. When it does not
     cope, NULL means that the whole heap was cleared, and a block that it ends behind the break.
     */
    method Malloc(bytes: nat) returns (mem: int)
      requires Valid()
      modifies this
      ensures old(Full()) ==> (Valid() <==> old(Copes(bytes)))
      ensures old(Copes(bytes)) ==> Valid() && (old(Full()) ==> Full())
      ensures old(Copes(bytes)) && mem != 0 ==>
        Full() && Obtained(old(m), old(h), m, h, mem - 1, Units(bytes)) && bytes < LONG_END
      ensures old(Copes(bytes)) && mem != 0 ==>
        if mem - 1 in old(h).free then Chosen(old(h), old(lists), mem - 1, Units(bytes)) else TooSmall(old(h), Units(bytes))
      ensures old(Copes(bytes)) && mem == 0 ==>
        Keeps(old(m), old(h), m, h, old(h).base - 1) && LiveSet(h) == LiveSet(old(h))
      ensures old(Copes(bytes)) && mem == 0 && bytes < LONG_END && memEnd != 0 ==>
        TooSmall(old(h), Units(bytes)) && Exhausted(old(brk), memEnd, Units(bytes), old(sbrkBase) == -1, old(Full()))
      ensures old(Full()) && !old(Copes(bytes)) ==> Destroyed(mem - 1, Units(bytes), old(brk), old(h), m, brk, memStart)
    {
      hide Closed, Settled, WordSized, Blank, Obtained, Keeps, TooSmall, LiveSet, Chosen, Asked, Units, ChunkSize, SbrkCopes, Destroyed;
      SameKeeps(m, h);
      TopFacts();
      if memStart == 0 && memEnd == 0 {
        NoArena();
        return 0;
      }
      if bytes >= LONG_END {
        return 0;
      }
      var nb := Units(bytes);
      ghost var m0, h0 := m, h;
      MarkedHeap();
      var p := FromBins(nb);
      if p != -1 {
        return p + 1;
      }
      TopFacts();
      ghost var m1, copes := m, TopCopes(nb);
      p := FromTop(nb);
      if copes && p != -1 {
        ObtainedAfter(m0, h0, m1, h0, m, h, p, nb);
      } else if copes {
        KeepsFurther(m0, h0, m1, h0, m, h);
      }
      mem := p + 1;
    }

    lemma BreakPositive()
      requires Valid()
      ensures Full() ==> memEnd > 0 && sbrkBase != -1
    {
      hide Open, Coalesced, Settled;
      TopFacts();
      if Full() {
        HeapEnd(m, h, lists, blocks, brk, sbrkBase, sbrkedMem, stranded);
      }
    }

    /** A heap whose top does not end at the break is no heap. */
    lemma NotAtBreak()
      requires !EndsAtBreak(top, m, brk) && top >= 0
      ensures !Valid()
    {
      hide Closed, Settled;
      if Full() {
        HeapEnd(m, h, lists, blocks, brk, sbrkBase, sbrkedMem, stranded);
      }
    }

    lemma NoArena()
      requires Valid() && memStart == 0 && memEnd == 0
      ensures !Full()
    {
      hide Closed, Settled;
      if Full() {
        HeapEnd(m, h, lists, blocks, brk, sbrkBase, sbrkedMem, stranded);
      }
    }

    lemma TopFacts()
      requires Full() || Empty()
      ensures Full() ==> h.top in h.sz && ChunkSize(m.hi[top]) == h.sz[h.top] && top >= 0 && top != INITIAL_TOP && h.top !in h.free
      ensures Empty() ==> top == INITIAL_TOP && sbrkBase >= -1
      ensures Full() ==> sbrkBase != -1
    {
      if Full() {
        HeapEnd(m, h, lists, blocks, brk, sbrkBase, sbrkedMem, stranded);
        OpenFacts(m, h, h.free, lists, blocks);
      }
    }

    // -------------------------------------------------------------- realloc

    /** The heap while realloc is under way: chunk q has s units, whatever its size word says. */
    ghost predicate InHand(F: set<int>, q: int, s: int)
      reads this
    {
      && 0 <= memStart <= brk <= memEnd <= memStart + 0x8000_0000 && memStart <= 16 * h.base
      && top == h.top && WordSized(blocks) && Settled(h.base, h.end, brk, sbrkBase, sbrkedMem, stranded)
      && Swelled(m, h, F, lists, blocks, q, s)
    }

    /** split: what q has beyond nb units is cut off and freed, if it makes a chunk. */
    method SplitRoom(q: int, newsize: int, nb: int, ghost F: set<int>)
      requires InHand(F, q, newsize) && MINSIZE <= nb <= newsize
      modifies this
      ensures Valid() && Full() && Keeps(old(m), old(h), m, h, q) && LiveSet(h) == LiveSet(old(h)) + {q}
      ensures h.Live(q) && nb <= h.sz[q] < nb + MINSIZE && SamePayload(old(m), m, q, h.sz[q])
    {
      hide Closed, Settled, WordSized, Keeps, LiveSet, Swelled, TrimmedMem, SetBit, JoinMem, SamePayload, Cut;
      ghost var m0, h0 := m, h;
      SwelledIn(m, h, F, lists, blocks, q, newsize);
      if newsize - nb >= MINSIZE {
        SwelledCut(m, h, F, lists, blocks, q, newsize, nb);
        var remainder := q + nb;
        m := TrimmedMem(m, q, newsize, nb);
        h := CutOf(h.(free := F), q, nb);
        ghost var m1, h1 := m, h;
        Free(remainder + 1);
        RemainderFreed(m0, h0, m1, h1, m, h, q, remainder, nb);
      } else {
        SwelledTaken(m, h, F, lists, blocks, q, newsize);
        m := SetBit(JoinMem(m, q, newsize), q + newsize);
        h := h.(free := F);
      }
    }

    /** MALLOC_COPY, in words: upwards, so that a block may be moved down over itself. */
    method CopyWords(dst: int, src: int, k: int)
      requires dst <= src || src + k <= dst
      modifies this`m
      ensures k >= 0 ==> Copied(old(m), m, dst, src, k)
    {
      hide Copied, Fetch, Store;
      ghost var m0 := m;
      CopiedNone(m, dst, src);
      var i := 0;
      while i < k
        invariant 0 <= i && (k >= 0 ==> i <= k) && Copied(m0, m, dst, src, i)
      {
        CopiedMore(m0, m, dst, src, i, k);
        m := Store(m, dst + i, Fetch(m, src + i));
        i := i + 1;
      }
    }

    /** The contents of p move to q, the start of the chunk that p grows into, when that is not p itself. */
    method MoveDown(q: int, p: int, oldsize: int, ghost newsize: int)
      requires q <= p && 0 < oldsize < newsize
      modifies this`m
      ensures SameWords(old(m), UserWord(p), m, UserWord(q), UserWords(oldsize)) && SameBut(old(m), m, q, q + newsize)
    {
      if q != p {
        CopyWords(UserWord(q), UserWord(p), UserWords(oldsize));
        CopyInside(old(m), m, q, p, oldsize, newsize);
      }
    }

    /** realloc: p grows over free neighbours that have left their bins; the contents move down to q. */
    method Absorb(p: int, q: int, oldsize: int, newsize: int, nb: int, ghost F: set<int>, ghost forward: bool)
      requires At(F) && Growing(h, F, q, p, forward) && (forward ==> Next(h.sz, p) != h.top)
      requires Settled(h.base, h.end, brk, sbrkBase, sbrkedMem, stranded) && memStart <= 16 * h.base
      requires 0 <= memStart <= brk <= memEnd <= memStart + 0x8000_0000
      requires newsize == MergeOf(h, q, p, forward).sz[q] && oldsize == h.sz[p] && 0 < oldsize < nb <= newsize
      modifies this
      ensures Valid() && Full() && Moved(old(m), old(h), m, h, p, q, nb)
    {
      hide Open, Settled, WordSized, Keeps, LiveSet, Swelled, SamePayload, SameWords, SameBut, MergeOf, Moved;
      ghost var m0, h0 := m, h;
      GrowingStart(m, h, F, lists, blocks, q, p, forward);
      MoveDown(q, p, oldsize, newsize);
      SwelledFrom(m0, m, h, F, lists, blocks, q, p, forward);
      h := MergeOf(h, q, p, forward);
      ghost var m1, h1 := m, h;
      SplitRoom(q, newsize, nb, F);
      MovedBy(m0, h0, m1, h1, m, h, p, q, nb);
    }

    /** realloc: p grows over top; the contents move down to q, and top is what remains. */
    method AbsorbTop(p: int, q: int, oldsize: int, newsize: int, nb: int, ghost F: set<int>)
      requires At(F) && Growing(h, F, q, p, true) && Next(h.sz, p) == h.top
      requires Settled(h.base, h.end, brk, sbrkBase, sbrkedMem, stranded) && memStart <= 16 * h.base
      requires 0 <= memStart <= brk <= memEnd <= memStart + 0x8000_0000
      requires newsize == MergeOf(h, q, p, true).sz[q] && oldsize == h.sz[p] && 0 < oldsize < nb <= newsize - MINSIZE
      modifies this
      ensures Valid() && Full() && Moved(old(m), old(h), m, h, p, q, nb)
    {
      hide Open, Settled, WordSized, Keeps, LiveSet, Swelled, SamePayload, SameWords, SameBut, MergeOf, Moved, Tag, SetHead, JoinMem, Cut;
      ghost var m0, h0 := m, h;
      GrowingStart(m, h, F, lists, blocks, q, p, true);
      MoveDown(q, p, oldsize, newsize);
      IntoTop(m0, m, h, F, lists, blocks, q, p, nb);
      ghost var m1 := m;
      top := q + nb;
      m := SetHead(m, top, Tag(newsize - nb, true));
      m := JoinMem(m, q, nb);
      h := CutOf(MergeOf(h, q, p, true), q, nb);
      MovedInto(m0, h0, m1, m, h, p, q, nb);
    }

    /**
     realloc: p grows where it is, over next, or over the free chunk before it, or both; top counts as next when
     it leaves a remainder. -1, and nothing changed, when there is no such way.
     */
    method GrowInPlace(p: int, oldsize: int, nb: int) returns (q: int)
      requires Valid() && Full() && h.Live(p) && oldsize == h.sz[p] < nb
      modifies this
      ensures Valid() && Full() && (q == -1 ==> m == old(m) && h == old(h) && brk == old(brk) && sbrkBase == old(sbrkBase))
      ensures q == -1 <==> !Growable(old(h), p, nb)
      ensures q != -1 ==> Moved(old(m), old(h), m, h, p, q, nb) && q >= 0
    {
      hide Open, Coalesced, Settled, WordSized, Keeps, LiveSet, SamePayload, SameWords, MergeOf, Moved, Tag, ChunkSize, PrevInuse, Growing, SamePayloads, SameTags, Growable;
      ghost var m0, F := m, h.free;
      OpenFacts(m, h, F, lists, blocks);
      TagsRead(m, h, lists, blocks, p);
      SizePositive(h, p);
      var next := p + oldsize;
      var nextsize := ChunkSize(m.hi[next]);
      var forward := next == top || !PrevInuse(m.hi[next + nextsize]);
      GrowableMeans(h, p, nb);
      if forward {
        if next == top {
          if nextsize + oldsize >= nb + MINSIZE {
            GrowingFrom(m, h, lists, blocks, p, p, true, F);
            AbsorbTop(p, p, oldsize, oldsize + nextsize, nb, F);
            return p;
          }
        } else if nextsize + oldsize >= nb {
          GrowingFrom(m, h, lists, blocks, p, p, true, F - {next});
          Unlink(next, F);
          ghost var m1, h1 := m, h;
          Absorb(p, p, oldsize, oldsize + nextsize, nb, F - {next}, true);
          MovedAfter(m0, m1, h1, m, h, p, p, nb);
          return p;
        }
      }
      if !PrevInuse(m.hi[p]) {
        q := GrowBack(p, oldsize, nb, next, nextsize, forward);
      } else {
        NoneBehind(m, h, p, nb);
        q := -1;
      }
    }

    /** realloc: p grows over the free chunk before it, and over next too if that is possible. */
    method GrowBack(p: int, oldsize: int, nb: int, next: int, nextsize: int, forward: bool) returns (q: int)
      requires Valid() && Full() && h.Live(p) && oldsize == h.sz[p] < nb && !PrevInuse(m.hi[p])
      requires next == p + oldsize && next in h.sz && nextsize == h.sz[next] && (forward <==> next == h.top || next in h.free)
      modifies this
      ensures Valid() && Full() && (q == -1 ==> m == old(m) && h == old(h) && brk == old(brk) && sbrkBase == old(sbrkBase))
      ensures q == -1 <==> !Growable(old(h), p, nb)
      ensures q != -1 ==> Moved(old(m), old(h), m, h, p, q, nb) && q >= 0
    {
      hide Open, Coalesced, Settled, WordSized, Keeps, LiveSet, SamePayload, SameWords, MergeOf, Moved, Tag, ChunkSize, PrevInuse, Growing, SamePayloads, SameTags, Growable;
      ghost var m0, F := m, h.free;
      OpenFacts(m, h, F, lists, blocks);
      TagsRead(m, h, lists, blocks, p);
      SizePositive(h, p);
      var prevsize := ChunkSize(m.lo[p]);
      q := p - prevsize;
      GrowableBack(h, p, q, nb);
      BaseFirst(h, q);
      if forward {
        if next == top {
          if nextsize + prevsize + oldsize >= nb + MINSIZE {
            GrowingFrom(m, h, lists, blocks, p, q, true, F - {q});
            Unlink(q, F);
            ghost var m1, h1 := m, h;
            AbsorbTop(p, q, oldsize, oldsize + prevsize + nextsize, nb, F - {q});
            MovedAfter(m0, m1, h1, m, h, p, q, nb);
            return;
          }
        } else if nextsize + prevsize + oldsize >= nb {
          GrowingFrom(m, h, lists, blocks, p, q, true, F - {next} - {q});
          Unlink(next, F);
          ghost var m1 := m;
          Unlink(q, F - {next});
          OtherPayloads(m0, m1, m, h, h.base - 1);
          ghost var m2, h1 := m, h;
          Absorb(p, q, oldsize, oldsize + prevsize + nextsize, nb, F - {next} - {q}, true);
          MovedAfter(m0, m2, h1, m, h, p, q, nb);
          return;
        }
      }
      if prevsize + oldsize >= nb {
        GrowingFrom(m, h, lists, blocks, p, q, false, F - {q});
        Unlink(q, F);
        ghost var m1, h1 := m, h;
        Absorb(p, q, oldsize, oldsize + prevsize, nb, F - {q}, false);
        MovedAfter(m0, m1, h1, m, h, p, q, nb);
        return;
      }
      q := -1;
    }

    /** realloc: malloc, copy and free; or, when the new chunk is the one right after p, the two made one. */
    method MoveAway(p: int, oldsize: int, nb: int, bytes: nat) returns (q: int)
      requires Valid() && Full() && h.Live(p) && oldsize == h.sz[p] < nb == Units(bytes) && bytes < LONG_END
      requires Copes(bytes)
      modifies this
      ensures Valid() && Full()
      ensures if q == -1 then Keeps(old(m), old(h), m, h, old(h).base - 1) && LiveSet(h) == LiveSet(old(h))
        else Moved(old(m), old(h), m, h, p, q, nb) && q >= 0
      ensures q == -1 ==> TooSmall(old(h), nb) && Exhausted(old(brk), memEnd, nb, false, true)
    {
      hide Open, Coalesced, Settled, WordSized, Keeps, LiveSet, SamePayload, SameWords, Moved, Obtained, ChunkSize, Units, Copes, Copied, Swelled, Chosen, TooSmall, Exhausted;
      ghost var m0, h0 := m, h;
      BreakPositive();
      OpenFacts(m, h, h.free, lists, blocks);
      SizePositive(h, p);
      var newmem := Malloc(bytes);
      if newmem == 0 {
        return -1;
      }
      q := newmem - 1;
      ghost var m1, h1 := m, h;
      OpenFacts(m, h, h.free, lists, blocks);
      BesideNew(m0, h0, m1, h1, lists, blocks, p, q, nb);
      if q == p + oldsize {
        var newsize := oldsize + ChunkSize(m.hi[q]);
        SwelledOver(m0, h0, m, h, lists, blocks, p, q, nb);
        h := JoinOf(h, p);
        h1 := h;
        SplitRoom(p, newsize, nb, h.free);
        MovedBy(m0, h0, m1, h1, m, h, p, p, nb);
        q := p;
      } else {
        CopyWords(UserWord(q), UserWord(p), UserWords(oldsize));
        CopiedAway(m0, h0, m1, h1, m, lists, blocks, p, q, nb);
        ghost var m2 := m;
        Free(p + 1);
        MovedAway(m0, h0, m2, h1, m, h, p, q, nb);
      }
    }

    /** The block is large enough, or can grow in place, or malloc copes. */
    ghost predicate ReallocCopes(oldmem: int, bytes: nat)
      requires oldmem == 0 || h.Live(oldmem - 1)
      reads this
    {
      || bytes >= LONG_END || Copes(bytes)
      || (oldmem != 0 && (h.sz[oldmem - 1] >= Units(bytes) || Growable(h, oldmem - 1, Units(bytes))))
    }

    /** realloc(oldmem, bytes) */
    method Realloc(oldmem: int, bytes: nat) returns (mem: int)
      requires Valid() && (oldmem == 0 || (Full() && h.Live(oldmem - 1))) && ReallocCopes(oldmem, bytes)
      modifies this
      ensures Valid() && (bytes >= LONG_END ==> mem == 0 && m == old(m) && h == old(h))
      ensures oldmem == 0 && mem != 0 ==> Full() && Obtained(old(m), old(h), m, h, mem - 1, Units(bytes))
      ensures oldmem != 0 && mem != 0 ==> Full() && Moved(old(m), old(h), m, h, oldmem - 1, mem - 1, Units(bytes))
      ensures mem == 0 ==> Keeps(old(m), old(h), m, h, old(h).base - 1) && LiveSet(h) == LiveSet(old(h))
      ensures mem == 0 && bytes < LONG_END && memEnd != 0 ==>
        && TooSmall(old(h), Units(bytes)) && Exhausted(old(brk), memEnd, Units(bytes), old(sbrkBase) == -1, old(Full()))
        && (oldmem != 0 ==> old(h).sz[oldmem - 1] < Units(bytes) && !Growable(old(h), oldmem - 1, Units(bytes)))
    {
      hide Open, Coalesced, Settled, WordSized, Keeps, LiveSet, Moved, Obtained, ChunkSize, Units, Swelled, Chosen, TooSmall, Exhausted;
      hide Blank, Asked, SbrkCopes, Growable, Erased;
      BreakPositive();
      SameKeeps(m, h);
      if bytes >= LONG_END {
        return 0;
      }
      if oldmem == 0 {
        mem := Malloc(bytes);
        return;
      }
      var p := oldmem - 1;
      TagsRead(m, h, lists, blocks, p);
      var oldsize := ChunkSize(m.hi[p]);
      var nb := Units(bytes);
      var q;
      if oldsize < nb {
        q := GrowInPlace(p, oldsize, nb);
        if q == -1 {
          q := MoveAway(p, oldsize, nb, bytes);
        }
      } else {
        ghost var m0, h0 := m, h;
        SwelledSelf(m, h, lists, blocks, p);
        SplitRoom(p, oldsize, nb, h.free);
        MovedBy(m0, h0, m0, h0, m, h, p, p, nb);
        q := p;
      }
      mem := q + 1;
    }

    // -------------------------------------------------------------- memalign

    /** memalign: the first lead units of the new chunk p are given back; the rest is live. */
    method FreeLead(p: int, size: int, lead: int, nb: int, ghost m0: Mem, ghost h0: Layout, ghost nb1: int)
      requires Valid() && Full() && Obtained(m0, h0, m, h, p, nb1) && size == h.sz[p]
      requires MINSIZE <= lead <= size - MINSIZE && nb <= size - lead
      modifies this
      ensures Valid() && Full() && Keeps(m0, h0, m, h, p + lead) && LiveSet(h) == LiveSet(h0) + {p + lead}
      ensures !h0.Live(p + lead) && h.Live(p + lead) && h.sz[p + lead] == size - lead && p + lead >= 0
    {
      hide Open, Coalesced, Tiled, Settled, WordSized, Keeps, LiveSet, Swelled, TrimmedMem, Obtained, Cut, SameWords;
      ghost var m1, h1 := m, h;
      OpenFacts(m, h, h.free, lists, blocks);
      NewLive(m0, h0, m, h, p, nb1);
      SwelledSelf(m, h, lists, blocks, p);
      SwelledIn(m, h, h.free, lists, blocks, p, size);
      SwelledCut(m, h, h.free, lists, blocks, p, size, lead);
      CutSizes(h, p, lead);
      m := TrimmedMem(m, p, size, lead);
      h := CutOf(h, p, lead);
      ghost var m2, h2 := m, h;
      Free(p + 1);
      LeadFreed(m0, h0, m1, h1, m2, h2, m, h, p, p + lead, nb1);
    }

    /**
     malloc copes with the request, padded or not. A padded request is a size_t, and its own padding in malloc is no
     long in the last 23 sizes below 2^63.
     */
    ghost predicate AlignCopes(alignment: nat, bytes: nat)
      reads this
    {
      var padded := Padded(alignment, bytes);
      || bytes >= LONG_END
      || (Copes(padded) && (alignment <= 16 || padded + 23 < LONG_END || LONG_END <= padded < SIZE_END))
    }

    /** memalign(alignment, bytes), for an alignment that is a power of two. */
    method MemAlign(alignment: nat, bytes: nat) returns (mem: int)
      requires Valid() && Limbs.PowerOfTwo(alignment) && AlignCopes(alignment, bytes)
      modifies this
      ensures Valid() && (bytes >= LONG_END ==> mem == 0 && m == old(m) && h == old(h))
      ensures mem == 0 ==> Keeps(old(m), old(h), m, h, old(h).base - 1) && LiveSet(h) == LiveSet(old(h))
      ensures mem == 0 && bytes < LONG_END && memEnd != 0 && Padded(alignment, bytes) < LONG_END ==>
        var nb := Units(Padded(alignment, bytes));
        TooSmall(old(h), nb) && Exhausted(old(brk), memEnd, nb, old(sbrkBase) == -1, old(Full()))
      ensures mem != 0 ==> 16 * mem % alignment == 0 && Full() && Keeps(old(m), old(h), m, h, mem - 1)
      ensures mem != 0 ==> LiveSet(h) == LiveSet(old(h)) + {mem - 1} && !old(h).Live(mem - 1) && h.Live(mem - 1)
      ensures mem != 0 ==> Units(bytes) <= h.sz[mem - 1] < Units(bytes) + MINSIZE
    {
      hide Closed, Settled, WordSized, Keeps, LiveSet, Swelled, Obtained, Units, Copes, Chosen, TooSmall, Exhausted, Blank, Lead, Asked;
      SameKeeps(m, h);
      if bytes >= LONG_END {
        return 0;
      }
      ghost var m0, h0 := m, h;
      if alignment <= 16 {
        mem := Malloc(bytes);
        SmallPower(alignment, mem);
        if mem != 0 {
          NewLive(m0, h0, m, h, mem - 1, Units(bytes));
        }
        return;
      }
      LargePower(alignment);
      var a := Larger(alignment, 16 * MINSIZE);
      var nb := Units(bytes);
      assert a == alignment;
      var mem0 := Malloc(16 * nb + a + 16 * MINSIZE);
      if mem0 == 0 {
        return 0;
      }
      var p := mem0 - 1;
      ghost var nb1 := Units(16 * nb + a + 16 * MINSIZE);
      NewLive(m0, h0, m, h, p, nb1);
      HeadReadsSize(m, h, lists, blocks, p);
      var size := ChunkSize(m.hi[p]);
      PaddedUnits(nb, a);
      if 16 * mem0 % a != 0 {
        LeadFacts(p, size, a, nb);
        var lead := Lead(p, a);
        FreeLead(p, size, lead, nb, m0, h0, nb1);
        p, size := p + lead, size - lead;
      }
      mem := p + 1;
      if size - nb >= MINSIZE {
        ghost var m1, h1 := m, h;
        SwelledSelf(m, h, lists, blocks, p);
        SplitRoom(p, size, nb, h.free);
        KeptOnce(m0, h0, m1, h1, m, h, p);
      }
    }
  }

  /** binblocks is a word of 32 bits. */
  ghost predicate WordSized(b: nat)
  {
    forall j: nat {:trigger Bit(b, j)} :: Bit(b, j) ==> j < 32
  }

  ghost predicate Covers(b': nat, b: nat)
  {
    forall j: nat {:trigger Bit(b, j)} {:trigger Bit(b', j)} :: Bit(b, j) ==> Bit(b', j)
  }

  lemma CoversItself(b: nat)
    ensures Covers(b, b)
  {
  }

  lemma MarkedBits(b: nat, k: nat)
    requires k < 32 && WordSized(b)
    ensures Bit(MarkBlock(b, k), k) && Covers(MarkBlock(b, k), b) && WordSized(MarkBlock(b, k))
  {
    forall j: nat
      ensures Bit(MarkBlock(b, k), j) <==> j == k || Bit(b, j)
    {
      MarkBits(b, k, j);
    }
  }

  /** FrontLinked, with the bits kept in one word. */
  lemma Fronted(m: Mem, h: Layout, F: set<int>, lists: seq<seq<int>>, blocks: nat, blocks': nat, k: int, p: int, i: int)
    requires Open(m, h, F, lists, blocks) && Loose(m, h, F, p) && i == BinIndex(h.sz[p]) && 4 <= i < |lists| == NAV
    requires 0 <= k <= |lists[i]| && Place(h.sz, lists[i], k, h.sz[p])
    requires Bit(blocks', i / 4) && Covers(blocks', blocks)
    ensures var c := Cycle(BinAt(i), lists[i]);
      var m' := InsertMem(m, p, c[k], c[k + 1]);
      && Open(m', h, F + {p}, lists[i := With(lists[i], k, p)], blocks') && SamePayloads(m, m', h, h.base - 1)
  {
    hide Open, Place, Bit;
    FrontLinked(m, h, F, lists, blocks, blocks', k, p);
  }

  /** What the bins have to be for malloc to search them; true of the bins of any heap, and of empty ones. */
  ghost predicate Searchable(m: Mem, sz: map<int, int>, F: set<int>, lists: seq<seq<int>>, blocks: nat)
  {
    && Linked(m, lists) && Binned(sz, F, lists, blocks)
    && forall x {:trigger x in F} :: x in F ==> x in sz && ChunkSize(m.hi[x]) == sz[x]
  }

  lemma OpenSearchable(m: Mem, h: Layout, F: set<int>, lists: seq<seq<int>>, blocks: nat)
    requires Open(m, h, F, lists, blocks)
    ensures Searchable(m, h.sz, F, lists, blocks)
  {
    hide Linked, Binned;
    forall x | x in F
      ensures x in h.sz && ChunkSize(m.hi[x]) == h.sz[x]
    {
      assert HeadAt(m, h, x);
    }
  }

  lemma BlankSearchable(m: Mem, h: Layout, lists: seq<seq<int>>, blocks: nat, top: int)
    requires Blank(m, h, lists, blocks, top)
    ensures Searchable(m, h.sz, h.free, lists, blocks)
  {
    hide Ring, Members, Bit, BinIndex;
  }

  /** What a walk through bin i relies on. */
  lemma BinFacts(m: Mem, sz: map<int, int>, F: set<int>, lists: seq<seq<int>>, blocks: nat, i: int)
    requires Searchable(m, sz, F, lists, blocks) && 2 <= i < NAV
    ensures |lists| == NAV && Ring(m, BinAt(i), lists[i]) && Members(BinAt(i), lists[i]) && Sorted(sz, lists[i]) && BinAt(i) < 0
    ensures forall j :: 0 <= j < |lists[i]| ==> lists[i][j] in F && ChunkSize(m.hi[lists[i][j]]) == sz[lists[i][j]]
    ensures |Cycle(BinAt(i), lists[i])| == |lists[i]| + 2
    ensures forall j :: 0 <= j < |lists[i]| ==> Cycle(BinAt(i), lists[i])[j + 1] == lists[i][j]
  {
    assert Members(BinAt(i), lists[i]);
    forall j | 0 <= j < |lists[i]|
      ensures lists[i][j] in F && ChunkSize(m.hi[lists[i][j]]) == sz[lists[i][j]]
    {
      assert lists[i][j] in lists[i];
    }
  }

  lemma BinCount(m: Mem, h: Layout, F: set<int>, lists: seq<seq<int>>, blocks: nat)
    requires Open(m, h, F, lists, blocks)
    ensures |lists| == NAV
  {
  }

  /** The k-th link of a bin, and the size of the chunk it leads to. */
  lemma WalkFrom(m: Mem, h: Layout, F: set<int>, lists: seq<seq<int>>, blocks: nat, i: int, k: int)
    requires Open(m, h, F, lists, blocks) && 2 <= i < NAV && |lists| == NAV && 0 <= k <= |lists[i]|
    ensures var L, c := lists[i], Cycle(BinAt(i), lists[i]);
      && |c| == |L| + 2 && Fd(m, c[k]) == c[k + 1] && Bk(m, c[k + 1]) == c[k] && c[0] == BinAt(i)
      && (if k < |L| then c[k + 1] == L[k] != BinAt(i) && L[k] in h.sz && ChunkSize(m.hi[L[k]]) == h.sz[L[k]]
          else c[k + 1] == BinAt(i))
  {
    hide Sorted, ChunkSize, BinIndex, Bit;
    OpenSearchable(m, h, F, lists, blocks);
    BinFacts(m, h.sz, F, lists, blocks, i);
    assert LinkAt(m, BinAt(i), lists[i], k);
    if k < |lists[i]| {
      assert lists[i][k] in F && lists[i][k] in lists[i];
    }
  }

  lemma PlaceHere(m: Mem, h: Layout, F: set<int>, lists: seq<seq<int>>, blocks: nat, i: int, k: int, n: int)
    requires Open(m, h, F, lists, blocks) && 2 <= i < NAV && |lists| == NAV && 0 <= k <= |lists[i]|
    requires forall j :: 0 <= j < k ==> lists[i][j] in h.sz && h.sz[lists[i][j]] > n
    requires k < |lists[i]| ==> lists[i][k] in h.sz && h.sz[lists[i][k]] <= n
    ensures Place(h.sz, lists[i], k, n)
  {
    hide ChunkSize, BinIndex, Bit, Ring, BinAt, Members;
    OpenSearchable(m, h, F, lists, blocks);
    BinFacts(m, h.sz, F, lists, blocks, i);
    assert forall j :: 0 <= j < |lists[i]| ==> lists[i][j] in F;
  }

  /** No chunk at all; top is its own empty bin, and has the size 0. */
  ghost predicate Blank(m: Mem, h: Layout, lists: seq<seq<int>>, blocks: nat, top: int)
  {
    && top == INITIAL_TOP && h == Layout(map[], {}, 0, INITIAL_TOP, 0) && blocks == 0
    && Linked(m, lists) && (forall i :: 0 <= i < NAV ==> lists[i] == [])
  }

  lemma BlankFacts(m: Mem, h: Layout, lists: seq<seq<int>>, blocks: nat, top: int, m': Mem, h': Layout)
    requires Blank(m, h, lists, blocks, top)
    ensures h.free == {} && LiveSet(h) == {} && top == INITIAL_TOP && Keeps(m, h, m', h', h.base - 1)
  {
    var none: map<int, int> := map[];
    assert h.sz == none;
    NothingToKeep(m, h, m', h', h.base - 1);
  }

  lemma NothingToKeep(m: Mem, h: Layout, m': Mem, h': Layout, p: int)
    requires h.sz.Keys == {}
    ensures Keeps(m, h, m', h', p)
  {
    forall a
      ensures !h.Live(a)
    {
      assert a !in h.sz.Keys;
    }
  }

  /** The accounts before there is a heap; stranded once memory was obtained that no chunk uses. */
  ghost predicate Opened(brk: int, sbrkBase: int, sbrkedMem: int, stranded: bool)
  {
    if stranded then sbrkBase >= 0 && sbrkedMem >= brk - sbrkBase else sbrkBase == -1 && sbrkedMem == 0
  }

  /**
   The heap ends at the break, on a page boundary; total chunk space and the pad before the first chunk
   account for all memory obtained, unless the first extension got its memory but not its correction.
   */
  ghost predicate Settled(base: int, end: int, brk: int, sbrkBase: int, sbrkedMem: int, stranded: bool)
  {
    && 16 * end == brk && brk % 4096 == 0 && sbrkBase >= 0
    && (!stranded <==> sbrkedMem == 16 * (end - base) + (16 * base - sbrkBase))
    && (!stranded ==> 0 <= 16 * base - sbrkBase < 16)
  }

  /** The front of a bin: right for small bins, whose chunks all have one size, and for empty ones. */
  lemma FrontOf(m: Mem, h: Layout, F: set<int>, lists: seq<seq<int>>, blocks: nat, p: int, i: int, n: int)
    requires Open(m, h, F, lists, blocks) && Loose(m, h, F, p) && h.sz[p] == n && i == BinIndex(n)
    ensures |lists| == NAV && p in h.sz && h.sz[p] == n >= MINSIZE
    ensures var c := Cycle(BinAt(i), lists[i]); Fd(m, BinAt(i)) == c[1] && c[0] == BinAt(i)
    ensures 16 * n < 512 ==> Place(h.sz, lists[i], 0, n)
    ensures Fd(m, BinAt(i)) == BinAt(i) ==> Place(h.sz, lists[i], 0, n)
    ensures Fd(m, BinAt(i)) != BinAt(i) ==> Bit(blocks, i / 4)
  {
    OpenSearchable(m, h, F, lists, blocks);
    BinFacts(m, h.sz, F, lists, blocks, i);
    assert LinkAt(m, BinAt(i), lists[i], 0);
    if 16 * n < 512 {
      SmallBin(h, F, lists, blocks, i, n);
    }
    BinMarked(h.sz, F, lists, blocks, i);
    hide Linked, Binned, Heads, FeetOf, Tiled, BinIndex, Sorted;
    FirstIsHeader(BinAt(i), lists[i]);
  }

  lemma FirstIsHeader(b: int, L: seq<int>)
    requires Members(b, L)
    ensures Cycle(b, L)[1] == b <==> L == []
  {
    assert L != [] ==> Cycle(b, L)[1] == L[0];
  }

  lemma BinMarked(sz: map<int, int>, F: set<int>, lists: seq<seq<int>>, blocks: nat, i: int)
    requires Binned(sz, F, lists, blocks) && 2 <= i < NAV
    ensures lists[i] != [] ==> Bit(blocks, i / 4)
  {
  }

  lemma SmallBin(h: Layout, F: set<int>, lists: seq<seq<int>>, blocks: nat, i: int, n: int)
    requires Binned(h.sz, F, lists, blocks) && MINSIZE <= n < 32 && i == BinIndex(n)
    ensures Place(h.sz, lists[i], 0, n) && forall x :: x in lists[i] ==> x in h.sz && h.sz[x] == n
  {
    BinIndexMonotone(n, n);
    forall x | x in lists[i]
      ensures x in h.sz && h.sz[x] == n
    {
      assert x in F;
      SameSmallSize(h.sz[x], n);
    }
    hide BinIndex;
    forall j | 0 <= j < |lists[i]|
      ensures h.sz[lists[i][j]] == n
    {
      assert lists[i][j] in lists[i];
    }
  }

  lemma SameSmallSize(n: int, n': int)
    requires n >= MINSIZE && MINSIZE <= n' < 32 && BinIndex(n) == BinIndex(n')
    ensures n == n'
  {
    if n <= n' {
      BinIndexMonotone(n, n');
    } else {
      BinIndexMonotone(n', n);
      BinIndexMonotone(n, n);
      BinIndexMonotone(n', n');
    }
  }

  ghost function NoLists(): seq<seq<int>>
  {
    seq(NAV, i => [])
  }

  lemma EmptyLinked(m: Mem)
    requires forall i :: 1 <= i < NAV ==> Fd(m, BinAt(i)) == BinAt(i) && Bk(m, BinAt(i)) == BinAt(i)
    ensures Linked(m, NoLists()) && forall i :: 0 <= i < NAV ==> NoLists()[i] == []
  {
    forall i | 1 <= i < NAV
      ensures Members(BinAt(i), NoLists()[i]) && Ring(m, BinAt(i), NoLists()[i])
    {
      assert Cycle(BinAt(i), []) == [BinAt(i), BinAt(i)];
    }
  }

  /** No size word or prev_size word of any chunk differs. */
  ghost predicate SameTags(m: Mem, m': Mem, h: Layout)
  {
    forall a {:trigger a in h.sz} :: a in h.sz ==> m'.lo[a] == m.lo[a] && m'.hi[a] == m.hi[a]
  }

  /** Where a binned chunk is. */
  lemma Locate(m: Mem, h: Layout, F: set<int>, lists: seq<seq<int>>, blocks: nat, x: int) returns (i: int, k: int)
    requires Open(m, h, F, lists, blocks) && x in F
    ensures |lists| == NAV && 1 <= i < NAV && 0 <= k < |lists[i]| && lists[i][k] == x
    ensures if i == 1 then x in lists[1] && Without(lists[i], k) == [] else x !in lists[1]
  {
    hide Tiled, Heads, FeetOf, Ring, Sorted, BinIndex, Bit;
    BinIndexMonotone(h.sz[x], h.sz[x]);
    i := if x in lists[1] then 1 else BinIndex(h.sz[x]);
    k :| 0 <= k < |lists[i]| && lists[i][k] == x;
  }

  lemma UnlinkKeepsTags(m: Mem, h: Layout, F: set<int>, lists: seq<seq<int>>, blocks: nat, i: int, k: int)
    requires Open(m, h, F, lists, blocks) && |lists| == NAV && 1 <= i < NAV && 0 <= k < |lists[i]|
    ensures SameTags(m, UnlinkMem(m, lists[i][k]), h)
  {
    hide Linked, Heads, FeetOf, Binned, UnlinkMem;
    UnlinkLinksOnly(m, h, F, lists, blocks, i, k);
    LinksKeepTags(m, UnlinkMem(m, lists[i][k]), h, F);
  }

  lemma LinksKeepTags(m: Mem, m': Mem, h: Layout, F: set<int>)
    requires Tiled(h) && LinksOnly(m, m', F) && forall x :: x in F ==> x in h.sz
    ensures SameTags(m, m', h)
  {
    forall a | a in h.sz
      ensures m'.lo[a] == m.lo[a] && m'.hi[a] == m.hi[a]
    {
      NotALink(h, F, a);
      BaseFirst(h, a);
    }
  }

  /** What free reads from the tags around a live chunk. */
  lemma TagsRead(m: Mem, h: Layout, lists: seq<seq<int>>, blocks: nat, p: int)
    requires Closed(m, h, lists, blocks) && h.Live(p)
    ensures p in h.sz && ChunkSize(m.hi[p]) == h.sz[p] && Next(h.sz, p) in h.sz && p >= 0
    ensures ChunkSize(m.hi[Next(h.sz, p)]) == h.sz[Next(h.sz, p)]
    ensures !PrevInuse(m.hi[p]) ==> var q := p - ChunkSize(m.lo[p]);
      q in h.sz && q in h.free && Next(h.sz, q) == p && ChunkSize(m.lo[p]) == h.sz[q] && PrevInuse(m.hi[q])
    ensures Next(h.sz, p) != h.top ==>
      (PrevInuse(m.hi[Next(h.sz, Next(h.sz, p))]) <==> Next(h.sz, p) !in h.free)
  {
    hide Linked, Binned;
    var n := Next(h.sz, p);
    assert HeadAt(m, h, p) && HeadAt(m, h, n);
    if !PrevInuse(m.hi[p]) {
      assert WellFormed(m, h);
      PreviousChunk(m, h, p);
      UsedBefore(m, h, p - ChunkSize(m.lo[p]));
    }
  }

  lemma ToppingSize(h: Layout, F: set<int>, q: int, p: int)
    requires Tiled(h) && h.free <= h.sz.Keys - {h.top} && Topping(h, F, q, p)
    ensures var h' := MergeOf(h, q, p, true);
      && h'.sz[q] == h.sz[p] + h.sz[h.top] + (if q == p then 0 else h.sz[q]) && h'.top == q && q + h'.sz[q] == h.end
      && q in h'.sz && h'.end == h.end && h'.base == h.base
  {
    assert Next(h.sz, h.top) == h.end && Next(h.sz, p) == p + h.sz[p];
  }

  lemma TagsSame(m: Mem, h: Layout)
    ensures SameTags(m, m, h)
  {
  }

  lemma ClearKeepsTags(m: Mem, h: Layout, F: set<int>, lists: seq<seq<int>>, blocks: nat)
    requires Open(m, h, F, lists, blocks)
    ensures SameTags(m, ClearLast(m), h)
  {
    hide Linked, Heads, FeetOf, Binned, ClearLast;
    LastLinksOnly(m, F, 0);
    LinksKeepTags(m, ClearLast(m), h, F);
  }

  /** The test p->fd == last_remainder. */
  lemma LastTest(m: Mem, h: Layout, F: set<int>, lists: seq<seq<int>>, blocks: nat, q: int)
    requires Open(m, h, F, lists, blocks) && q in F
    ensures |lists| == NAV
    ensures Fd(m, q) == BinAt(1) <==> lists[1] == [q]
    ensures Fd(m, q) == BinAt(1) <==> q in lists[1]
  {
    ghost var i, k := Locate(m, h, F, lists, blocks, q);
    hide Tiled, Heads, FeetOf, Ring, Sorted, BinIndex, Bit, Fd;
    assert q in lists[i];
    IsLastRemainder(m, lists, i, q);
  }

  /** Clearing the bit in the size word of p's successor leaves what free reads from the tags. */
  lemma MarkedTags(m: Mem, h: Layout, lists: seq<seq<int>>, blocks: nat, p: int)
    requires Closed(m, h, lists, blocks) && h.Live(p) && Next(h.sz, p) != h.top
    ensures var n := Next(h.sz, p);
      var m' := ClearBit(m, n);
      n in h.sz && m'.hi[p] == m.hi[p] && m'.hi[Next(h.sz, n)] == m.hi[Next(h.sz, n)] && m'.lo == m.lo
      && forall x :: x in h.free ==> m'.hi[x] == m.hi[x] || x == n
  {
    assert p < Next(h.sz, p) < Next(h.sz, Next(h.sz, p));
  }

  lemma MergeSize(h: Layout, q: int, p: int, forward: bool)
    requires Tiled(h) && p in h.sz && p != h.top && (q == p || (q in h.sz && q != h.top && Next(h.sz, q) == p))
    requires h.free <= h.sz.Keys - {h.top}
    ensures Next(h.sz, p) in h.sz
    ensures MergeOf(h, q, p, forward).sz[q] ==
      h.sz[p] + (if q == p then 0 else h.sz[q]) + (if forward then h.sz[Next(h.sz, p)] else 0)
  {
    hide MergeOf;
    var last := LastOf(h, p, forward);
    assert Next(h.sz, p) == p + h.sz[p] && Next(h.sz, last) == last + h.sz[last];
    assert Fused(h, MergeOf(h, q, p, forward), q, last);
  }

  /** What the tags tell about the chunks beside p, which is in no bin; hd is its size word. */
  ghost predicate Around(m: Mem, h: Layout, F: set<int>, p: int, hd: int, next: int)
  {
    && p in h.sz && p !in F && next == Next(h.sz, p) && next in h.sz && next != h.top && Next(h.sz, next) in h.sz
    && (PrevInuse(hd) ==> PrevInuse(m.hi[p]))
    && (!PrevInuse(hd) ==> Before(m, h, F, p, p - ChunkSize(m.lo[p])) && p - ChunkSize(m.lo[p]) != next)
    && (PrevInuse(m.hi[Next(h.sz, next)]) <==> next !in F)
  }

  lemma AroundTags(m: Mem, h: Layout, F: set<int>, lists: seq<seq<int>>, blocks: nat, p: int, hd: int, next: int)
    requires Open(m, h, F, lists, blocks) && Around(m, h, F, p, hd, next)
    ensures PrevInuse(m.hi[if PrevInuse(hd) then p else p - ChunkSize(m.lo[p])])
    ensures p in h.sz && p !in F && next in h.sz && next == Next(h.sz, p) && Next(h.sz, next) in h.sz
    ensures PrevInuse(m.hi[Next(h.sz, next)]) <==> next !in F
  {
  }

  lemma TagsOn(m: Mem, m': Mem, m'': Mem, h: Layout)
    requires SameTags(m, m', h) && SameTags(m', m'', h)
    ensures SameTags(m, m'', h)
  {
  }

  /** The last remainder q, when it stays, is seen as if it had left its place and been put there again. */
  lemma LastSeenApart(m0: Mem, m: Mem, mg: Mem, h: Layout, G: set<int>, lists: seq<seq<int>>, blocks: nat, q: int,
                      prior: bool, islr: bool)
    requires Open(mg, h, G, lists, blocks) && SamePayloads(m0, mg, h, h.base - 1) && SameTags(m0, mg, h) && Tiled(h)
    requires |lists| == NAV && (prior ==> islr && lists[1] == [q]) && (islr && !prior ==> lists[1] == [])
    requires m == if islr && !prior then LinkLast(mg, q) else mg
    ensures var mg', lists' := if prior then ClearLast(m) else mg, if prior then lists[1 := []] else lists;
      && Open(mg', h, if prior then G - {q} else G, lists', blocks) && SamePayloads(m0, mg', h, h.base - 1)
      && SameTags(m0, mg', h) && m == (if islr then LinkLast(mg', q) else mg') && (islr ==> lists'[1] == [])
  {
    hide Open, SamePayloads, SameTags, LinkLast, ClearLast, Tiled;
    if prior {
      LastDetached(m, h, G, lists, blocks, q);
      OtherPayloads(m0, m, ClearLast(m), h, h.base - 1);
      TagsOn(m0, m, ClearLast(m), h);
    }
  }

  lemma DetachedSet(h: Layout, F: set<int>, q: int, p: int, next: int, prior: bool)
    requires p in h.sz && p !in F && next == Next(h.sz, p)
    ensures F - {q} - {LastOf(h, p, next in F)} ==
      if prior then (if next in F then F - {next} - {q} else F - {q})
      else if next in F then F - {q} - {next} else F - {q}
  {
  }

  lemma AroundNext(m: Mem, h: Layout, F: set<int>, p: int, hd: int, next: int)
    requires Around(m, h, F, p, hd, next)
    ensures p in h.sz && next == Next(h.sz, p) && next in h.sz
  {
  }

  ghost predicate Before(m: Mem, h: Layout, F: set<int>, p: int, q: int)
  {
    q in F && q in h.sz && Next(h.sz, q) == p && q != p && PrevInuse(m.hi[q])
  }

  lemma TagKept(m: Mem, m': Mem, h: Layout, a: int)
    requires SameTags(m, m', h) && a in h.sz
    ensures m'.hi[a] == m.hi[a] && m'.lo[a] == m.lo[a]
  {
  }

  /** A last remainder q that stays: it can be seen as cleared and linked again. */
  lemma LastDetached(m: Mem, h: Layout, F: set<int>, lists: seq<seq<int>>, blocks: nat, q: int)
    requires Open(m, h, F, lists, blocks) && |lists| == NAV && lists[1] == [q]
    ensures Open(ClearLast(m), h, F - {q}, lists[1 := []], blocks) && SamePayloads(m, ClearLast(m), h, h.base - 1)
    ensures LinkLast(ClearLast(m), q) == m && SameTags(m, ClearLast(m), h)
  {
    hide Open, ClearLast, SameTags, SamePayloads;
    LastCleared(m, h, F, lists, blocks, q);
    ClearKeepsTags(m, h, F, lists, blocks);
    LinkLastForgets(m, q);
    LinkedAgain(m, h, F, lists, blocks, q);
  }

  lemma LinkedAgain(m: Mem, h: Layout, F: set<int>, lists: seq<seq<int>>, blocks: nat, q: int)
    requires Open(m, h, F, lists, blocks) && |lists| == NAV && lists[1] == [q]
    ensures LinkLast(m, q) == m
  {
    hide LinkLast, Binned, Heads, FeetOf, Tiled;
    assert Members(BinAt(1), lists[1]) && LinkAt(m, BinAt(1), lists[1], 0) && LinkAt(m, BinAt(1), lists[1], 1);
    assert Cycle(BinAt(1), [q]) == [BinAt(1), q, BinAt(1)];
    LastWords(m, q);
  }

  /** The first step of free: the in-use bit of p is cleared. */
  lemma FreeMarked(m: Mem, h: Layout, lists: seq<seq<int>>, blocks: nat, p: int)
    requires Closed(m, h, lists, blocks) && h.Live(p) && Next(h.sz, p) != h.top
    ensures var n := Next(h.sz, p);
      var m', h' := SetHead(m, n, Tag(ChunkSize(m.hi[n]), false)), h.(free := h.free + {p});
      var q := if PrevInuse(m.hi[p]) then p else p - ChunkSize(m.lo[p]);
      && Open(m', h', h.free, lists, blocks) && SamePayloads(m, m', h, h.base - 1) && m'.lo == m.lo
      && Around(m', h', h.free, p, m.hi[p], n)
      && Freeing(h', h.free - {q} - {LastOf(h', p, n in h.free)}, q, p, n in h.free)
  {
    hide Open, Tiled, Linked, Binned, FeetOf, Heads, SamePayloads, Tag, ChunkSize, PrevInuse, Freeing;
    var n := Next(h.sz, p);
    var q := if PrevInuse(m.hi[p]) then p else p - ChunkSize(m.lo[p]);
    TagsRead(m, h, lists, blocks, p);
    MarkedFree(m, h, h.free, lists, blocks, p);
    MarkedTags(m, h, lists, blocks, p);
    FreeingStarts(m, h, lists, blocks, p, q, n in h.free);
    OpenFacts(m, h, h.free, lists, blocks);
    AroundBefore(h, p, q);
  }

  lemma AroundBefore(h: Layout, p: int, q: int)
    requires Tiled(h) && p in h.sz && p != h.top && q in h.sz && (q == p || Next(h.sz, q) == p)
    ensures q <= p < Next(h.sz, p) && Next(h.sz, p) in h.sz
    ensures Next(h.sz, p) != h.top ==> Next(h.sz, Next(h.sz, p)) in h.sz
  {
  }

  lemma FreeKeeps(m0: Mem, m1: Mem, m2: Mem, h0: Layout, h1: Layout, h2: Layout, p: int)
    requires Tiled(h0) && h0.Live(p) && h1 == h0.(free := h0.free + {p})
    requires SamePayloads(m0, m1, h0, h0.base - 1) && SamePayloads(m1, m2, h1, h0.base - 1)
    requires SameLive(h1, h2, p) && LiveSet(h2) == LiveSet(h1)
    ensures Keeps(m0, h0, m2, h2, p) && LiveSet(h2) == LiveSet(h0) - {p}
  {
    hide SamePayload;
    LiveByFree(h0, h1, p);
    forall a | h0.Live(a) && a != p
      ensures SamePayload(m0, m2, a, h0.sz[a]) && h2.Live(a) && h2.sz[a] == h0.sz[a]
    {
      assert h1.Live(a) && a in h1.sz;
      PayloadTransitive(m0, m1, m2, a, h0.sz[a]);
    }
  }

  /** An int, which is what sbrk takes. */
  predicate Fits32(n: int)
  {
    -0x8000_0000 <= n < 0x8000_0000
  }

  /** The unit a byte address lies in. */
  function UnitAt(address: int): int
  {
    address / 16
  }

  lemma UnitAtExact(u: int)
    ensures UnitAt(16 * u) == u && UnitAt(16 * u + 15) == u
  {
  }

  /** m' is m with the units from start to end cleared. */
  ghost predicate Wiped(m: Mem, m': Mem, start: int, end: int)
  {
    forall u :: WipedAt(m, m', start, end, u)
  }

  ghost predicate WipedAt(m: Mem, m': Mem, start: int, end: int, u: int)
  {
    if start <= u < end then m'.lo[u] == 0 && m'.hi[u] == 0 else SameUnit(m, m', u)
  }

  lemma WipedNone(m: Mem, start: int)
    ensures Wiped(m, m, start, start)
  {
  }

  lemma WipedMore(m: Mem, m': Mem, start: int, u: int)
    requires Wiped(m, m', start, u) && start <= u
    ensures Wiped(m, Mem(m'.lo[u := 0], m'.hi[u := 0]), start, u + 1)
  {
    var n, end := Mem(m'.lo[u := 0], m'.hi[u := 0]), u + 1;
    forall v
      ensures WipedAt(m, n, start, end, v)
    {
      assert WipedAt(m, m', start, u, v);
    }
  }

  lemma WipedTo(m: Mem, m': Mem, start: int, u: int, end: int)
    requires Wiped(m, m', start, u) && (u == end || (u == start && end <= u))
    ensures Wiped(m, m', start, end)
  {
    forall v
      ensures WipedAt(m, m', start, end, v)
    {
      assert WipedAt(m, m', start, u, v);
    }
  }

  /** A size_t read as a long. */
  function ToLong(n: int): int
  {
    if n % SIZE_END < LONG_END then n % SIZE_END else n % SIZE_END - SIZE_END
  }

  /** All pages of v bytes but one. */
  function Pages(v: int): int
  {
    (v / 4096 - 1) * 4096
  }

  /** The bytes malloc_trim gives back, computed in size_t and read as a long: whole pages, leaving the pad, MINSIZE and a part of a page. */
  function Extra(topSize: int, pad: int): int
  {
    ToLong(Pages((topSize - pad - 16 * MINSIZE + 4095) % SIZE_END))
  }

  lemma ExtraPages(topSize: int, pad: nat)
    requires 0 <= topSize <= 0x8000_0000 && pad + 16 * MINSIZE < LONG_END
    ensures Extra(topSize, pad) >= 4096 <==> topSize > pad + 16 * MINSIZE + 4096
    ensures Extra(topSize, pad) >= 4096 ==> pad + 16 * MINSIZE < topSize - Extra(topSize, pad) <= pad + 16 * MINSIZE + 4096
    ensures Extra(topSize, pad) >= 4096 ==> Extra(topSize, pad) == 16 * (Extra(topSize, pad) / 16) && (Extra(topSize, pad) / 16) % 256 == 0
  {
    hide Pages, ToLong;
    var x := topSize - pad - 16 * MINSIZE;
    WrappedPages(x + 4095);
    PagesOf(x);
  }

  /** Wrapping round in between makes no difference. */
  lemma WrappedPages(v: int)
    requires 4096 - LONG_END <= v < LONG_END
    ensures ToLong(Pages(v % SIZE_END)) == Pages(v)
  {
    hide ToLong;
    PageOver(v / 4096);
    WholePages(v);
    if v >= 0 {
      SizeOf(v, 0);
    } else {
      SizeOf(v, 1);
      LongAgain(Pages(v));
    }
    LongOf(Pages(v));
  }

  lemma SizeOf(v: int, k: int)
    requires 0 <= v + k * SIZE_END < SIZE_END
    ensures v % SIZE_END == v + k * SIZE_END && k * SIZE_END == 4096 * (k * 0x10_0000_0000_0000)
  {
    assert (v + k * SIZE_END) % SIZE_END == v % SIZE_END;
  }

  lemma PageOver(q: int)
    ensures forall k :: (q + k * 0x10_0000_0000_0000 - 1) * 4096 == (q - 1) * 4096 + k * SIZE_END
  {
  }

  lemma WholePages(v: int)
    ensures v - 4096 < v / 4096 * 4096 <= v && (v + SIZE_END) / 4096 == v / 4096 + 0x10_0000_0000_0000
  {
  }

  lemma PagesOf(x: int)
    ensures Pages(x + 4095) >= 4096 <==> x > 4096
    ensures Pages(x + 4095) >= 4096 ==> 0 < x - Pages(x + 4095) <= 4096
    ensures Pages(x + 4095) == 16 * (Pages(x + 4095) / 16) && (Pages(x + 4095) / 16) % 256 == 0
  {
  }

  lemma LongOf(n: int)
    requires 0 - LONG_END <= n < LONG_END
    ensures ToLong(n) == n
  {
  }

  lemma LongAgain(n: int)
    ensures ToLong(n + SIZE_END) == ToLong(n)
  {
  }

  /** The break moves with the end of the heap. */
  lemma SettledMoves(base: int, end: int, brk: int, sbrkBase: int, sbrkedMem: int, stranded: bool, d: int)
    requires Settled(base, end, brk, sbrkBase, sbrkedMem, stranded) && d % 256 == 0
    ensures Settled(base, end + d, brk + 16 * d, sbrkBase, sbrkedMem + 16 * d, stranded) && 16 * end == brk
  {
  }

  lemma TopReads(m: Mem, h: Layout)
    requires Tiled(h) && Heads(m, h)
    ensures h.top in h.sz && ChunkSize(m.hi[h.top]) == h.sz[h.top] && Next(h.sz, h.top) == h.top + h.sz[h.top] == h.end
  {
    assert HeadAt(m, h, h.top);
  }

  lemma WipedAbove(m: Mem, m': Mem, from: int, to: int, top: int, w: int)
    requires Wiped(m, m', from, to) && top + MINSIZE <= from
    ensures SameBelow(m, SetHead(m', top, w), top, top + MINSIZE) && SetHead(m', top, w).hi[top] == w
  {
    forall u | u < top + MINSIZE
      ensures SetHead(m', top, w).lo[u] == m.lo[u] && (u != top ==> SetHead(m', top, w).hi[u] == m.hi[u])
    {
      assert WipedAt(m, m', from, to, u);
    }
  }

  /** Giving back the last d units of top. */
  lemma TopShrunk(m: Mem, m': Mem, h: Layout, lists: seq<seq<int>>, blocks: nat, d: int, rest: int)
    requires Closed(m, h, lists, blocks) && Wiped(m, m', h.end - d, h.end) && rest == h.sz[h.top] - d >= MINSIZE
    ensures var m'', h' := SetHead(m', h.top, Tag(rest, true)), Resized(h, -d);
      Closed(m'', h', lists, blocks) && Keeps(m, h, m'', h', h.base - 1) && LiveSet(h') == LiveSet(h)
  {
    hide Open, Coalesced, Tiled, Heads, SamePayloads, SameLive, Tag, Wiped, SameBelow, SetHead, LiveSet, Parted, NoneBefore, Binned, Linked, FeetOf;
    OpenFacts(m, h, h.free, lists, blocks);
    ResizedShape(h, -d);
    ResizedEnds(h, -d);
    assert h.sz[h.top] + (-d) == rest;
    WipedAbove(m, m', h.end - d, h.end, h.top, Tag(rest, true));
    TopResized(m, SetHead(m', h.top, Tag(rest, true)), h, lists, blocks, -d);
  }

  lemma BaseLow(h: Layout)
    requires Tiled(h)
    ensures 0 <= h.base <= h.top
  {
  }

  lemma ResizedTop(h: Layout, d: int)
    requires h.top in h.sz
    ensures var g := Resized(h, d); g.top == h.top && g.base == h.base && g.top in g.sz && g.sz[g.top] == h.sz[h.top] + d
  {
  }

  lemma ResizedEnds(h: Layout, d: int)
    requires Tiled(h)
    ensures Next(h.sz, h.top) == h.end == h.top + h.sz[h.top] && Resized(h, d).top == h.top && Resized(h, d).base == h.base
    ensures Resized(h, d).end == h.end + d && Resized(h, d).sz.Keys == h.sz.Keys && Resized(h, d).sz[h.top] == h.sz[h.top] + d
  {
    assert Next(h.sz, h.top) == h.end;
  }

  lemma KeepsOn(m: Mem, h: Layout, m': Mem, h': Layout, m'': Mem, h'': Layout, p: int)
    requires Keeps(m, h, m', h', p) && Keeps(m', h', m'', h'', h'.base - 1) && Tiled(h')
    ensures Keeps(m, h, m'', h'', p)
  {
    forall a | h'.Live(a) && a != p
      ensures SamePayload(m', m'', a, h'.sz[a]) && h''.Live(a) && h''.sz[a] == h'.sz[a]
    {
      assert h'.base <= a;
    }
    KeepsTransitive(m, h, m', h', m'', h'', p);
  }

  /** Up to the next page boundary. */
  function PageUp(n: int): int
  {
    (n + (PAGE - 1)) / PAGE * PAGE
  }

  lemma PageUpFacts(n: int)
    ensures n <= PageUp(n) < n + PAGE && PageUp(n) % PAGE == 0
    ensures PageUp(n) == 16 * (PageUp(n) / 16) && (PageUp(n) / 16) % 256 == 0
  {
  }

  /** A heap of one chunk, top. */
  lemma FirstHeap(m: Mem, lists: seq<seq<int>>, t: int, n: int)
    requires Linked(m, lists) && (forall i :: 0 <= i < NAV ==> lists[i] == []) && t >= 0 && n >= MINSIZE
    ensures var m', h' := SetHead(m, t, Tag(n, true)), Layout(map[t := n], {}, t, t, t + n);
      Closed(m', h', lists, 0) && LiveSet(h') == {}
  {
    var m', h' := SetHead(m, t, Tag(n, true)), Layout(map[t := n], {}, t, t, t + n);
    TagReads(n, true);
    hide Tag, ChunkSize, PrevInuse, Ring;
    forall i | 1 <= i < NAV
      ensures Members(BinAt(i), lists[i]) && Ring(m', BinAt(i), lists[i])
    {
      assert Members(BinAt(i), lists[i]);
      RingFrame(m, m', BinAt(i), lists[i]);
    }
    assert Next(h'.sz, t) == h'.end;
  }

  lemma NoBits()
    ensures WordSized(0)
  {
    forall j: nat
      ensures !Bit(0, j)
    {
      NoBit(j);
    }
  }

  lemma {:induction false} NoBit(j: nat)
    ensures !Bit(0, j)
  {
    if j > 0 {
      NoBit(j - 1);
    }
  }

  /** The accounts after the first extension: right, unless an earlier one was stranded. */
  lemma FirstSettled(prior: int, sbrkSize: int, start: int, brk: int, sbrkBase: int, was: int, sbrkedMem: int, stranded: bool)
    requires 0 <= prior <= start < prior + 16 && start == 16 * UnitAt(start) && brk % 4096 == 0
    requires if stranded
      then sbrkBase >= 0 && was >= prior - sbrkBase && sbrkedMem == was + (brk - prior) + (prior - 16 * INITIAL_TOP)
      else sbrkBase == prior && was == 0 && sbrkedMem == brk - prior
    ensures Settled(UnitAt(start), UnitAt(brk), brk, sbrkBase, sbrkedMem, stranded)
  {
  }

  function Misaligned(address: int): int
  {
    address % 16
  }

  /** The first top chunk starts at the first aligned address and ends at the page boundary. */
  lemma FirstSpan(prior: int, sbrkSize: int, front: int, start: int, correction: int, nb: int)
    requires prior >= 0 && front == Misaligned(prior + 16) && start == (if front > 0 then prior + 16 - front else prior)
    requires sbrkSize >= 16 * nb + 16 * MINSIZE && nb >= MINSIZE
    requires correction == start - prior + PageUp(start + sbrkSize) - (start + sbrkSize)
    ensures prior <= start < prior + 16 && start == 16 * UnitAt(start) && 0 <= correction < PAGE + 16
    ensures UnitAt(prior + sbrkSize - start + correction) >= nb + MINSIZE && (prior + sbrkSize + correction) % 4096 == 0
    ensures UnitAt(start) + UnitAt(prior + sbrkSize - start + correction) == UnitAt(prior + sbrkSize + correction)
  {
    PageUpFacts(start + sbrkSize);
    hide PageUp;
  }

  /** The bytes malloc_extend_top asks sbrk for: whole pages, except the first time. */
  function Asked(nb: int, first: bool): int
  {
    if first then 16 * nb + TOP_PAD + 16 * MINSIZE else PageUp(16 * nb + TOP_PAD + 16 * MINSIZE)
  }

  lemma AskedFacts(nb: int, first: bool)
    requires nb >= MINSIZE
    ensures Asked(nb, first) >= 16 * nb + 16 * MINSIZE && (first ==> Asked(nb, first) == 16 * nb + 16 * MINSIZE)
    ensures !first ==> Asked(nb, first) == 16 * (Asked(nb, first) / 16) && (Asked(nb, first) / 16) % 256 == 0
    ensures !first ==> Asked(nb, first) % 4096 == 0 && Asked(nb, first) < 16 * nb + 16 * MINSIZE + 4096
  {
    PageUpFacts(16 * nb + 16 * MINSIZE);
    hide PageUp;
  }

  /** The conversion of a size to sbrk's int argument. */
  function ToInt(n: int): int
  {
    if n % 0x1_0000_0000 < 0x8000_0000 then n % 0x1_0000_0000 else n % 0x1_0000_0000 - 0x1_0000_0000
  }

  lemma ToIntExact(n: nat)
    ensures Fits32(ToInt(n)) && (ToInt(n) == n <==> n < 0x8000_0000)
  {
  }

  /** Asked for that much through its int argument, sbrk obtains it, or leaves memory and break as they are. */
  predicate SbrkCopes(asked: int, brk: int, memEnd: int)
  {
    asked < 0x8000_0000 || (ToInt(asked) >= 0 && brk + ToInt(asked) > memEnd)
  }

  lemma CopesMeans(asked: nat, brk: int, memEnd: int)
    ensures SbrkCopes(asked, brk, memEnd) <==> ToInt(asked) == asked || (ToInt(asked) >= 0 && brk + ToInt(asked) > memEnd)
    ensures asked % 4096 == 0 ==> ToInt(asked) % 4096 == 0
    ensures ToInt(asked) >= 0 && ToInt(asked) != asked ==> asked >= 0x1_0000_0000
  {
  }

  ghost predicate Erased(m: Mem, from: int, to: int)
  {
    forall u :: from <= u < to ==> m.lo[u] == 0 && m.hi[u] == 0
  }

  /**
   What a request that sbrk mistakes does to a heap: all of it is cleared and there is no top; or top is taken to be
   large enough, and the chunk that will be cut from it ends behind the break.
   */
  ghost predicate Misled(grown: bool, nb: int, topSize: int, brk0: int, m: Mem, h: Layout, brk: int)
  {
    if grown then ChunkSize(m.hi[h.top]) >= nb + MINSIZE && (topSize - nb < MINSIZE ==> 16 * (h.top + nb) > brk)
    else Erased(m, h.base, h.end) && brk == brk0 && ChunkSize(m.hi[h.top]) == 0
  }

  /** The same, said of the chunk malloc takes for nb units, or -1 for none. */
  ghost predicate Destroyed(p: int, nb: int, brk0: int, h: Layout, m: Mem, brk: int, memStart: int)
  {
    if brk0 + ToInt(Asked(nb, false)) < memStart then p == -1 && Erased(m, h.base, h.end) && brk == brk0
    else p == h.top && 16 * (p + nb) > brk
  }

  lemma MisledMeans(grown: bool, nb: int, topSize: int, brk0: int, m: Mem, h: Layout, brk: int)
    requires Misled(grown, nb, topSize, brk0, m, h, brk) && topSize - nb < MINSIZE && !EndsAtBreak(h.top, m, brk)
    ensures if grown
      then ChunkSize(m.hi[h.top]) - nb >= MINSIZE && 16 * (h.top + nb) > brk && 16 * (h.top + ChunkSize(m.hi[h.top])) != brk
      else Erased(m, h.base, h.end) && brk == brk0 && ChunkSize(m.hi[h.top]) == 0
  {
    hide ChunkSize, Erased;
  }

  lemma ErasedByRefusal(m: Mem, m': Mem, h: Layout, brk: int, k: int, memStart: int, nb: int, topSize: int)
    requires Wiped(m, m', UnitAt(brk + k + 15), UnitAt(brk)) && k < 0 && brk + k < memStart <= 16 * h.base
    requires h.base <= h.top && h.top + topSize == h.end && topSize > 0 && 16 * h.end == brk
    ensures !EndsAtBreak(h.top, m', brk) && Misled(false, nb, topSize, brk, m', h, brk)
  {
    var from, to := UnitAt(brk + k + 15), UnitAt(brk);
    assert from <= h.base && to == h.end;
    forall u | h.base <= u < h.end ensures m'.lo[u] == 0 && m'.hi[u] == 0 {
      assert WipedAt(m, m', from, to, u);
    }
  }

  lemma TopMisled(m0: Mem, m: Mem, h: Layout, top: int, nb: int, asked: int, topSize: int, brk0: int, brk: int,
                  memStart: int, memEnd: int)
    requires top == h.top && ChunkSize(m.hi[top]) == asked / 16 + topSize && topSize >= 0 && 16 * (top + topSize) == brk0
    requires nb >= 0 && asked >= 16 * nb + 16 * MINSIZE && asked % 4096 == 0 && asked < 16 * nb + 16 * MINSIZE + 4096
    requires memStart <= 16 * top && brk <= memEnd <= memStart + 0x8000_0000 && brk == brk0 + ToInt(asked)
    ensures !SbrkCopes(asked, brk0, memEnd) ==> !(brk0 + asked == brk) && Misled(true, nb, topSize, brk0, m, h, brk)
  {
    CopesMeans(asked, brk0, memEnd);
    hide ToInt, SbrkCopes, ChunkSize;
  }

  /** Memory added at the end of top. */
  lemma TopGrown(m: Mem, h: Layout, lists: seq<seq<int>>, blocks: nat, d: int, n: int)
    requires Closed(m, h, lists, blocks) && d >= 0 && n == h.sz[h.top] + d
    ensures var m', h' := SetHead(m, h.top, Tag(n, true)), Resized(h, d);
      && Closed(m', h', lists, blocks) && Keeps(m, h, m', h', h.base - 1) && LiveSet(h') == LiveSet(h)
      && ChunkSize(m'.hi[h'.top]) == n && h'.top + n == h'.end == h.end + d && h'.base == h.base && h'.top == h.top
      && h'.sz[h'.top] == n && h'.free == h.free
  {
    ClosedTiled(m, h, lists, blocks);
    GrownHead(m, h, d, n);
    ResizedShape(h, d);
    hide Closed, Tiled, SamePayloads, SameLive, SameBelow, LiveSet, Tag, ChunkSize, Resized, SetHead, Parted;
    TopResized(m, SetHead(m, h.top, Tag(n, true)), h, lists, blocks, d);
  }

  lemma ClosedTiled(m: Mem, h: Layout, lists: seq<seq<int>>, blocks: nat)
    requires Closed(m, h, lists, blocks)
    ensures Tiled(h) && h.free <= h.sz.Keys - {h.top} && h.sz[h.top] >= MINSIZE
  {
  }

  lemma GrownHead(m: Mem, h: Layout, d: int, n: int)
    requires Tiled(h) && n == h.sz[h.top] + d
    ensures var m', h' := SetHead(m, h.top, Tag(n, true)), Resized(h, d);
      && m'.hi[h.top] == Tag(n, true) && SameBelow(m, m', h.top, h.top + MINSIZE)
      && ChunkSize(m'.hi[h'.top]) == n && h'.top + n == h'.end == h.end + d && h'.base == h.base && h'.top == h.top
      && h'.sz[h'.top] == n && h'.free == h.free
  {
    ResizedEnds(h, d);
    TagReads(n, true);
    HeadBelow(m, h.top, Tag(n, true));
  }

  lemma HeadBelow(m: Mem, top: int, w: int)
    ensures SameBelow(m, SetHead(m, top, w), top, top + MINSIZE)
  {
  }

  lemma CorrectionFits(prior: int, sbrkSize: int, front: int, start: int, correction: int)
    requires front == Misaligned(prior + 16) && start == (if front > 0 then prior + 16 - front else prior)
    requires correction == start - prior + PageUp(start + sbrkSize) - (start + sbrkSize)
    ensures 0 <= correction < PAGE + 16
  {
    PageUpFacts(start + sbrkSize);
    hide PageUp;
  }

  /** The end of top, as its size word tells it, is the break. */
  predicate EndsAtBreak(top: int, m: Mem, brk: int)
  {
    16 * (top + ChunkSize(m.hi[top])) == brk
  }

  lemma EndAfter(m: Mem, top: int, n: int, brk: int)
    ensures EndsAtBreak(top, SetHead(m, top, Tag(n, true)), brk) <==> 16 * (top + n) == brk
    ensures ChunkSize(SetHead(m, top, Tag(n, true)).hi[top]) == n
  {
    TagReads(n, true);
  }

  lemma SameKeeps(m: Mem, h: Layout)
    ensures Keeps(m, h, m, h, h.base - 1)
  {
    ContentsSame(m, h);
    LiveSame(h, h.base - 1);
  }

  /** Where the heap ends. */
  lemma HeapEnd(m: Mem, h: Layout, lists: seq<seq<int>>, blocks: nat,
                brk: int, sbrkBase: int, sbrkedMem: int, stranded: bool)
    requires Closed(m, h, lists, blocks) && Settled(h.base, h.end, brk, sbrkBase, sbrkedMem, stranded)
    ensures h.top in h.sz && ChunkSize(m.hi[h.top]) == h.sz[h.top] && 16 * (h.top + h.sz[h.top]) == brk == 16 * h.end
    ensures sbrkBase >= 0 && h.top >= h.base >= 0 && h.sz[h.top] >= MINSIZE
  {
    OpenFacts(m, h, h.free, lists, blocks);
    TopReads(m, h);
    BaseLow(h);
  }

  lemma TookWhole(m: Mem, m1: Mem, h: Layout, F: set<int>, lists: seq<seq<int>>, blocks: nat, p: int, nb: int)
    requires Open(m1, h, F, lists, blocks) && Coalesced(h) && p in h.free && F == h.free - {p} && SamePayloads(m, m1, h, h.base - 1)
    requires nb <= h.sz[p] < nb + MINSIZE
    ensures var m', h' := SetBit(m1, p + h.sz[p]), h.(free := F);
      Closed(m', h', lists, blocks) && Obtained(m, h, m', h', p, nb)
  {
    hide Open, SamePayloads, SetBit, LiveSet, SameLive, PrevInuse;
    OpenFacts(m1, h, F, lists, blocks);
    CoalescedHeld(h, F);
    assert h.free == F + {p};
    TakenWhole(m1, h, F, lists, blocks, p);
    UsedBefore(m1, h, p);
    NextBit(m1, h, p);
    KeptThrough(m, m1, SetBit(m1, p + h.sz[p]), h, h.(free := F), p);
  }

  lemma NextBit(m: Mem, h: Layout, p: int)
    requires Tiled(h) && p in h.sz
    ensures SetBit(m, p + h.sz[p]).hi[p] == m.hi[p] && Next(h.sz, p) == p + h.sz[p]
  {
    assert h.sz[p] > 0;
  }

  lemma NotLast(m: Mem, h: Layout, lists: seq<seq<int>>, blocks: nat, p: int)
    requires Open(m, h, h.free, lists, blocks)
    ensures |lists| == NAV && (lists[1] == [] ==> p !in lists[1])
  {
  }

  lemma LastFacts(m: Mem, h: Layout, lists: seq<seq<int>>, blocks: nat, p: int)
    requires Closed(m, h, lists, blocks) && lists[1] == [p]
    ensures p in h.free && p in h.sz && p >= 0 && PrevInuse(m.hi[p]) && p != h.top && h.sz[p] >= MINSIZE
  {
    assert p in lists[1];
    UsedBefore(m, h, p);
  }

  /** A chunk that is in no bin any more, split for nb units. */
  lemma TookSplit(m: Mem, m1: Mem, h: Layout, F: set<int>, lists: seq<seq<int>>, blocks: nat, p: int, nb: int)
    requires Open(m1, h, F, lists, blocks) && Coalesced(h) && p in h.free && F == h.free - {p} && SamePayloads(m, m1, h, h.base - 1)
    requires MINSIZE <= nb <= h.sz[p] - MINSIZE && |lists| == NAV && lists[1] == []
    ensures var m', h' := SplitMem(m1, p, h.sz[p], nb), CutOf(h, p, nb);
      && Closed(m', h', lists[1 := [p + nb]], blocks) && Obtained(m, h, m', h', p, nb)
      && h'.top == h.top && h'.base == h.base && h'.end == h.end
  {
    hide Open, SamePayloads, SplitMem, LiveSet, SameLive, PrevInuse, Cut, Closed;
    OpenFacts(m1, h, F, lists, blocks);
    CoalescedHeld(h, F);
    assert h.free == F + {p};
    SplitOff(m1, h, F, lists, blocks, p, nb);
    SplitHead(m1, p, h.sz[p], nb);
    KeptThrough(m, m1, SplitMem(m1, p, h.sz[p], nb), h, CutOf(h, p, nb), p);
  }

  /** The last remainder, split again for nb units. */
  lemma TookLast(m: Mem, h: Layout, lists: seq<seq<int>>, blocks: nat, p: int, nb: int)
    requires Closed(m, h, lists, blocks) && |lists| == NAV && lists[1] == [p] && p in h.sz
    requires MINSIZE <= nb <= h.sz[p] - MINSIZE
    ensures var m', h' := SplitMem(m, p, h.sz[p], nb), CutOf(h, p, nb);
      && Closed(m', h', lists[1 := [p + nb]], blocks) && Obtained(m, h, m', h', p, nb)
      && h'.top == h.top && h'.base == h.base && h'.end == h.end
  {
    hide Open, SamePayloads, SplitMem, Obtained, Parted, LiveSet, Cut, ClearLast, PrevInuse;
    LastFacts(m, h, lists, blocks, p);
    LastCleared(m, h, h.free, lists, blocks, p);
    TookSplit(m, ClearLast(m), h, h.free - {p}, lists[1 := []], blocks, p, nb);
    SplitOrder(m, p, h.sz[p], nb);
    assert lists[1 := []][1 := [p + nb]] == lists[1 := [p + nb]];
  }

  lemma SplitHead(m: Mem, p: int, size: int, nb: int)
    requires p >= 0 && nb >= MINSIZE
    ensures PrevInuse(SplitMem(m, p, size, nb).hi[p])
  {
    TagReads(nb, true);
    hide Tag, PrevInuse;
  }

  lemma TookTop(m: Mem, h: Layout, lists: seq<seq<int>>, blocks: nat, nb: int)
    requires Closed(m, h, lists, blocks) && MINSIZE <= nb <= h.sz[h.top] - MINSIZE
    ensures var m', h' := SetHead(SetHead(m, h.top, Tag(nb, true)), h.top + nb, Tag(h.sz[h.top] - nb, true)), CutOf(h, h.top, nb);
      && Closed(m', h', lists, blocks) && Obtained(m, h, m', h', h.top, nb)
      && h'.top == h.top + nb && h'.base == h.base && h'.end == h.end && h.top in h.sz
  {
    hide Open, LiveSet, SameLive, SamePayloads, Cut, PrevInuse, Tag;
    OpenFacts(m, h, h.free, lists, blocks);
    TopSplit(m, h, lists, blocks, nb);
    TagReads(nb, true);
  }

  /** No chunk of L that fits nb units is smaller than size. */
  ghost predicate Smallest(sz: map<int, int>, L: seq<int>, size: int, nb: int)
  {
    forall x {:trigger x in L} :: x in L && x in sz && sz[x] >= nb ==> size <= sz[x]
  }

  ghost predicate AllBelow(sz: map<int, int>, L: seq<int>, nb: int)
  {
    forall x {:trigger x in L} :: x in L && x in sz ==> sz[x] < nb
  }

  /** From the k-th on, the chunks of L are too small. */
  ghost predicate Scanned(sz: map<int, int>, L: seq<int>, k: int, nb: int)
  {
    forall j {:trigger L[j]} :: 0 <= k <= j < |L| && L[j] in sz ==> sz[L[j]] < nb
  }

  lemma WalkStart(m: Mem, sz: map<int, int>, F: set<int>, lists: seq<seq<int>>, blocks: nat, i: int, nb: int)
    requires Searchable(m, sz, F, lists, blocks) && 4 <= i < NAV
    ensures |lists| == NAV && |Cycle(BinAt(i), lists[i])| == |lists[i]| + 2
    ensures Bk(m, BinAt(i)) == Cycle(BinAt(i), lists[i])[|lists[i]|] && Scanned(sz, lists[i], |lists[i]|, nb)
  {
    BinFacts(m, sz, F, lists, blocks, i);
    assert LinkAt(m, BinAt(i), lists[i], |lists[i]|);
  }

  lemma WalkBack(m: Mem, sz: map<int, int>, F: set<int>, lists: seq<seq<int>>, blocks: nat, i: int, k: int, nb: int)
    requires Searchable(m, sz, F, lists, blocks) && 4 <= i < NAV && 0 <= k <= |lists[i]| && Scanned(sz, lists[i], k, nb)
    requires |Cycle(BinAt(i), lists[i])| == |lists[i]| + 2 && Cycle(BinAt(i), lists[i])[k] != BinAt(i)
    ensures k > 0 && var v := Cycle(BinAt(i), lists[i])[k];
      && v in lists[i] && v in sz && ChunkSize(m.hi[v]) == sz[v] && Bk(m, v) == Cycle(BinAt(i), lists[i])[k - 1]
      && (sz[v] >= nb ==> Smallest(sz, lists[i], sz[v], nb)) && (sz[v] < nb ==> Scanned(sz, lists[i], k - 1, nb))
  {
    BinFacts(m, sz, F, lists, blocks, i);
    var L, c := lists[i], Cycle(BinAt(i), lists[i]);
    assert c[0] == BinAt(i);
    assert LinkAt(m, BinAt(i), L, k - 1) && c[k] == L[k - 1];
    hide Searchable, Ring, Members, ChunkSize, Cycle;
    if sz[L[k - 1]] >= nb {
      SmallestAt(sz, L, k, nb);
    }
  }

  lemma SmallestAt(sz: map<int, int>, L: seq<int>, k: int, nb: int)
    requires Sorted(sz, L) && 0 < k <= |L| && Scanned(sz, L, k, nb)
    ensures L[k - 1] in sz && Smallest(sz, L, sz[L[k - 1]], nb)
  {
    var v := L[k - 1];
    assert v in L;
    assert v in sz;
    forall x | x in L && sz[x] >= nb
      ensures sz[L[k - 1]] <= sz[x]
    {
      var j :| 0 <= j < |L| && L[j] == x;
      assert j < k;
    }
  }

  lemma WalkEnd(m: Mem, sz: map<int, int>, F: set<int>, lists: seq<seq<int>>, blocks: nat, i: int, k: int, nb: int)
    requires Searchable(m, sz, F, lists, blocks) && 4 <= i < NAV && 0 <= k <= |lists[i]| && Scanned(sz, lists[i], k, nb)
    requires |Cycle(BinAt(i), lists[i])| == |lists[i]| + 2 && Cycle(BinAt(i), lists[i])[k] == BinAt(i)
    ensures AllBelow(sz, lists[i], nb)
  {
    BinFacts(m, sz, F, lists, blocks, i);
    var L, c := lists[i], Cycle(BinAt(i), lists[i]);
    forall x | x in L && x in sz
      ensures sz[x] < nb
    {
      var j :| 0 <= j < |L| && L[j] == x;
      assert k <= j;
    }
  }

  /** p is a free chunk that fits nb units, and of all that are in a size bin a smallest one. */
  ghost predicate BestFit(h: Layout, lists: seq<seq<int>>, p: int, nb: int)
  {
    && p in h.free && p in h.sz && h.sz[p] >= nb && |lists| == NAV
    && forall x {:trigger x in h.free} :: x in h.free && x in h.sz && x !in lists[1] && h.sz[x] >= nb ==> h.sz[p] <= h.sz[x]
  }

  /** Where the scan of the bins may go on: all bins below i are too small, and bin i is not the one of nb in vain. */
  ghost predicate Ready(sz: map<int, int>, lists: seq<seq<int>>, i: int, nb: int)
  {
    && Below(sz, lists, i, nb)
    && (BinIndex(nb) < i || (0 <= i < |lists| && !AllBelow(sz, lists[i], nb)))
  }

  /** All chunks in the bins below i are too small. */
  ghost predicate Below(sz: map<int, int>, lists: seq<seq<int>>, i: int, nb: int)
  {
    forall j {:trigger lists[j]} :: 2 <= j < i && j < |lists| ==> AllBelow(sz, lists[j], nb)
  }

  ghost predicate EmptyBins(lists: seq<seq<int>>, from: int, to: int)
  {
    forall j {:trigger lists[j]} :: 0 <= from <= j < to && j < |lists| ==> lists[j] == []
  }

  lemma NoBinsYet(lists: seq<seq<int>>, start: int)
    ensures EmptyBins(lists, start, start)
  {
  }

  /** The first bin of i's block. */
  function BlockStart(i: int): int
  {
    i / 4 * 4
  }

  lemma BlockEnd(i: int)
    ensures BlockStart(i) == 4 * (i / 4) <= i < BlockStart(i) + 4 && (i % 4 == 0 <==> BlockStart(i) == i)
    ensures i % 4 != 0 ==> BlockStart(i) == BlockStart(i - 1)
    ensures i % 4 == 0 ==> i == BlockStart(i - 1) + 4
    ensures 4 <= i < NAV ==> 4 <= BlockStart(i) <= NAV - 4
  {
  }

  lemma BinTest(m: Mem, h: Layout, lists: seq<seq<int>>, blocks: nat, i: int, p: int)
    requires Closed(m, h, lists, blocks) && 4 <= i < NAV
    ensures |lists| == NAV && (p in lists[i] ==> p >= 0 && p != BinAt(i) && p != -1)
  {
    assert Members(BinAt(i), lists[i]);
  }

  lemma FoundIn(m: Mem, h: Layout, lists: seq<seq<int>>, blocks: nat, i: int, p: int, nb: int)
    requires Searchable(m, h.sz, h.free, lists, blocks) && 4 <= i < NAV && nb >= MINSIZE && Ready(h.sz, lists, i, nb)
    requires p in lists[i] && p in h.sz && h.sz[p] >= nb && Smallest(h.sz, lists[i], h.sz[p], nb)
    ensures BestFit(h, lists, p, nb)
  {
    hide Linked, BinIndex, Bit, Sorted;
    forall x | x in h.free && x !in lists[1] && h.sz[x] >= nb
      ensures h.sz[p] <= h.sz[x]
    {
      if h.sz[x] < h.sz[p] {
        BinIndexMonotone(h.sz[x], h.sz[p]);
      }
    }
  }

  lemma NotIn(m: Mem, h: Layout, lists: seq<seq<int>>, blocks: nat, start: int, i: int, nb: int)
    requires Closed(m, h, lists, blocks) && 4 <= start <= i < NAV && nb >= MINSIZE && Ready(h.sz, lists, i, nb)
    requires AllBelow(h.sz, lists[i], nb) && EmptyBins(lists, start, i)
    ensures Ready(h.sz, lists, i + 1, nb) && EmptyBins(lists, start, i + 1)
  {
    hide Linked, Heads, FeetOf, BinIndex, Bit, Sorted;
    if lists[i] != [] {
      var x := lists[i][0];
      assert x in lists[i] && x in h.free;
      BinIndexMonotone(h.sz[x], nb);
      assert false;
    }
  }

  /** first(q) == q */
  lemma HeaderTest(m: Mem, h: Layout, lists: seq<seq<int>>, blocks: nat, i: int)
    requires Closed(m, h, lists, blocks) && 4 <= i < NAV
    ensures |lists| == NAV && (Fd(m, BinAt(i)) == BinAt(i) <==> lists[i] == [])
  {
    assert Members(BinAt(i), lists[i]) && LinkAt(m, BinAt(i), lists[i], 0);
    FirstIsHeader(BinAt(i), lists[i]);
  }

  lemma MoreEmpty(lists: seq<seq<int>>, s: int, to: int)
    requires 0 <= s < |lists| && EmptyBins(lists, s + 1, to) && lists[s] == []
    ensures EmptyBins(lists, s, to)
  {
  }

  /** Clearing the bit of a block whose bins are empty. */
  lemma BlockCleared(m: Mem, h: Layout, lists: seq<seq<int>>, blocks: nat, k: int)
    requires Closed(m, h, lists, blocks) && 1 <= k < 32 && EmptyBins(lists, 4 * k, 4 * k + 4) && WordSized(blocks)
    ensures ClearBlock(blocks, k) >= 0 && WordSized(ClearBlock(blocks, k)) && Covers(blocks, ClearBlock(blocks, k))
    ensures Closed(m, h, lists, ClearBlock(blocks, k))
  {
    hide Linked, Heads, FeetOf, Tiled, Coalesced, BinIndex, Sorted, ClearBlock;
    ClearBits(blocks, k, 0);
    var b: nat := ClearBlock(blocks, k);
    forall j: nat
      ensures Bit(b, j) <==> j != k && Bit(blocks, j)
    {
      ClearBits(blocks, k, j);
    }
    hide Bit;
    forall i | 2 <= i < NAV && lists[i] != []
      ensures Bit(b, i / 4)
    {
      assert Bit(blocks, i / 4);
    }
  }

  lemma BitsBound(b: nat, j: nat)
    requires WordSized(b) && Bit(b, j)
    ensures j < 32
  {
  }

  /** The bins of an unmarked block are empty, so the scan may go on after it. */
  lemma UnmarkedBlock(m: Mem, h: Layout, lists: seq<seq<int>>, blocks: nat, i: int, nb: int)
    requires Closed(m, h, lists, blocks) && 4 <= i < NAV && nb >= MINSIZE && Ready(h.sz, lists, i, nb)
    requires !Bit(blocks, i / 4)
    ensures Ready(h.sz, lists, BlockStart(i) + 4, nb) && BlockStart(i) == 4 * (i / 4)
  {
    hide Linked, Heads, FeetOf, Tiled, Coalesced, BinIndex, Sorted, Bit, AllBelow;
    OpenFacts(m, h, h.free, lists, blocks);
    EmptyIsBelow(h.sz, nb);
    forall j | i <= j < BlockStart(i) + 4
      ensures j < NAV && lists[j] == []
    {
      assert j / 4 == i / 4;
    }
  }

  lemma EmptyIsBelow(sz: map<int, int>, nb: int)
    ensures AllBelow(sz, [], nb)
  {
  }

  lemma NextMarked(b: nat, k: nat)
    requires Limbs.Pow(2, k) <= b && !Bit(b, k)
    ensures Limbs.Pow(2, k + 1) <= b
  {
    var j := SomeBlockFrom(b, k);
    BlockBound(b, k + 1, j);
  }

  /** binblocks < block: no block from k on is marked, and so no bin from there on holds anything. */
  lemma NoneMarked(m: Mem, sz: map<int, int>, F: set<int>, lists: seq<seq<int>>, blocks: nat, i: int, k: nat, nb: int)
    requires Searchable(m, sz, F, lists, blocks) && 4 <= i <= NAV && i / 4 == k && nb >= MINSIZE && Ready(sz, lists, i, nb)
    requires Limbs.Pow(2, k) > blocks
    ensures Below(sz, lists, NAV, nb)
  {
    hide Linked, BinIndex, Sorted, Bit, AllBelow;
    EmptyIsBelow(sz, nb);
    forall j | i <= j < NAV
      ensures lists[j] == []
    {
      if lists[j] != [] {
        assert Bit(blocks, j / 4);
        BlockBound(blocks, k, j / 4);
        assert false;
      }
    }
  }

  /** Lower bins than nb's own hold only smaller chunks. */
  lemma BinsBelow(m: Mem, h: Layout, lists: seq<seq<int>>, blocks: nat, i: int, nb: int)
    requires Searchable(m, h.sz, h.free, lists, blocks) && nb >= MINSIZE && 4 <= i <= BinIndex(nb)
    ensures Below(h.sz, lists, i, nb)
  {
    hide Linked, Bit, Sorted, BinIndex;
    forall j, x | 2 <= j < i && j < |lists| && x in lists[j]
      ensures x in h.sz && h.sz[x] < nb
    {
      assert x in h.free;
      if h.sz[x] >= nb {
        BinIndexMonotone(nb, h.sz[x]);
        assert false;
      }
    }
  }

  /** What the walk through nb's own bin tells. */
  lemma OwnBin(m: Mem, h: Layout, lists: seq<seq<int>>, blocks: nat, i: int, p: int, nb: int)
    requires Searchable(m, h.sz, h.free, lists, blocks) && nb >= MINSIZE && i == BinIndex(nb) && Below(h.sz, lists, i, nb)
    requires |lists| == NAV && 4 <= i < NAV
    requires if p == BinAt(i) then AllBelow(h.sz, lists[i], nb)
      else p in lists[i] && p in h.sz && h.sz[p] >= nb && Smallest(h.sz, lists[i], h.sz[p], nb)
    ensures if p == BinAt(i) then Ready(h.sz, lists, i + 1, nb)
      else Ready(h.sz, lists, i, nb) && BestFit(h, lists, p, nb) && p != -1
  {
    hide Linked, Bit, Sorted, BinIndex;
    if p != BinAt(i) {
      FoundIn(m, h, lists, blocks, i, p, nb);
    }
  }

  /** A small request needs no walk: its bin holds chunks of its very size only, and the next bin none at all. */
  lemma SmallLast(m: Mem, h: Layout, lists: seq<seq<int>>, blocks: nat, nb: int)
    requires Searchable(m, h.sz, h.free, lists, blocks) && MINSIZE <= nb < 32
    ensures |lists| == NAV && Bk(m, BinAt(2 * nb + 1)) == BinAt(2 * nb + 1)
    ensures var p := Bk(m, BinAt(2 * nb));
      if p == BinAt(2 * nb) then Ready(h.sz, lists, 2 * nb + 2, nb)
      else BestFit(h, lists, p, nb) && ChunkSize(m.hi[p]) == h.sz[p] == nb && p != -1
  {
    var i := 2 * nb;
    var L := lists[i];
    BinIndexMonotone(nb, nb);
    BinsBelow(m, h, lists, blocks, i, nb);
    LastLink(m, h, lists, blocks, i);
    LastLink(m, h, lists, blocks, i + 1);
    NoOddBin(m, h, lists, blocks, nb);
    hide Linked, Bit, Sorted, BinIndex, Fd, Bk, BinAt;
    forall x | x in L
      ensures x in h.sz && h.sz[x] == nb
    {
      assert x in h.free;
      SameSmallSize(h.sz[x], nb);
    }
    if L != [] {
      FoundIn(m, h, lists, blocks, i, L[|L| - 1], nb);
    }
  }

  /** last(q) */
  lemma LastLink(m: Mem, h: Layout, lists: seq<seq<int>>, blocks: nat, i: int)
    requires Searchable(m, h.sz, h.free, lists, blocks) && 4 <= i < NAV
    ensures |lists| == NAV && BinAt(i) < -1
    ensures if lists[i] == [] then Bk(m, BinAt(i)) == BinAt(i)
      else Bk(m, BinAt(i)) == lists[i][|lists[i]| - 1] >= 0 && lists[i][|lists[i]| - 1] in lists[i]
  {
    BinFacts(m, h.sz, h.free, lists, blocks, i);
    assert LinkAt(m, BinAt(i), lists[i], |lists[i]|);
  }

  lemma NoOddBin(m: Mem, h: Layout, lists: seq<seq<int>>, blocks: nat, nb: int)
    requires Searchable(m, h.sz, h.free, lists, blocks) && MINSIZE <= nb < 32
    ensures |lists| == NAV && lists[2 * nb + 1] == []
  {
    hide Linked, Bit, Sorted, BinIndex;
    if lists[2 * nb + 1] != [] {
      var x := lists[2 * nb + 1][0];
      assert x in lists[2 * nb + 1] && x in h.free;
      BinIndexMonotone(h.sz[x], h.sz[x]);
      assert false;
    }
  }

  /** last_remainder->fd */
  lemma LastRead(m: Mem, h: Layout, lists: seq<seq<int>>, blocks: nat)
    requires Searchable(m, h.sz, h.free, lists, blocks)
    ensures |lists| == NAV && |lists[1]| <= 1 && BinAt(1) < -1
    ensures if lists[1] == [] then Fd(m, BinAt(1)) == BinAt(1)
      else var p := Fd(m, BinAt(1)); lists[1] == [p] && p >= 0 && p in h.sz && p in h.free && ChunkSize(m.hi[p]) == h.sz[p]
  {
    assert Members(BinAt(1), lists[1]) && LinkAt(m, BinAt(1), lists[1], 0);
    if lists[1] != [] {
      assert Cycle(BinAt(1), lists[1])[1] == lists[1][0];
      assert lists[1][0] in lists[1];
    }
  }

  /** No free chunk fits nb units. */
  ghost predicate TooSmall(h: Layout, nb: int)
  {
    forall x {:trigger x in h.free} :: x in h.free && x in h.sz ==> h.sz[x] < nb
  }

  /** Which free chunk malloc takes: the last remainder, or a smallest one in the bins that fits. */
  ghost predicate Chosen(h: Layout, lists: seq<seq<int>>, p: int, nb: int)
  {
    |lists| == NAV && p in h.free && (BestFit(h, lists, p, nb) || lists[1] == [p])
  }

  /** Ready, said of the chunks and not of the bins. */
  ghost predicate FitsFrom(h: Layout, last: seq<int>, i: int, nb: int)
  {
    && (forall x {:trigger x in h.free} :: x in h.free && x in h.sz && x !in last && h.sz[x] >= nb ==> BinIndex(h.sz[x]) >= i)
    && (BinIndex(nb) < i || exists x {:trigger x in h.free} ::
          x in h.free && x in h.sz && x !in last && h.sz[x] >= nb && BinIndex(h.sz[x]) == i)
  }

  lemma ReadyMeans(m: Mem, h: Layout, lists: seq<seq<int>>, blocks: nat, i: int, nb: int)
    requires Searchable(m, h.sz, h.free, lists, blocks) && 4 <= i < NAV && nb >= MINSIZE
    ensures |lists| == NAV && (Ready(h.sz, lists, i, nb) <==> FitsFrom(h, lists[1], i, nb))
  {
    hide Linked, Bit, Sorted, BinIndex;
    ApartFromLast(m, lists);
    forall x | x in h.free && x !in lists[1]
      ensures x in lists[BinIndex(h.sz[x])] && 4 <= BinIndex(h.sz[x]) < NAV
    {
      BinIndexMonotone(h.sz[x], h.sz[x]);
    }
    if Ready(h.sz, lists, i, nb) {
      forall x | x in h.free && x !in lists[1] && h.sz[x] >= nb
        ensures BinIndex(h.sz[x]) >= i
      {
        var j := BinIndex(h.sz[x]);
        assert j < i ==> AllBelow(h.sz, lists[j], nb);
      }
    }
    if FitsFrom(h, lists[1], i, nb) {
      forall j | 2 <= j < i
        ensures AllBelow(h.sz, lists[j], nb)
      {
        forall x | x in lists[j] && x in h.sz
          ensures h.sz[x] < nb
        {
          assert x in h.free && x !in lists[1];
        }
      }
    }
  }

  lemma ApartFromLast(m: Mem, lists: seq<seq<int>>)
    requires Linked(m, lists)
    ensures |lists| == NAV && forall j, x {:trigger x in lists[j]} :: 2 <= j < NAV && x in lists[j] ==> x !in lists[1]
  {
  }

  lemma LastGone(h: Layout, lists: seq<seq<int>>, lists': seq<seq<int>>, i: int, nb: int)
    requires |lists| == |lists'| == NAV && lists'[1] == [] && FitsFrom(h, lists[1], i, nb)
    requires forall x :: x in lists[1] ==> x in h.sz && h.sz[x] < nb
    ensures FitsFrom(h, lists'[1], i, nb)
  {
    hide BinIndex;
  }

  lemma BestFree(h: Layout, lists: seq<seq<int>>, p: int, nb: int)
    requires BestFit(h, lists, p, nb)
    ensures p in h.free && p in h.sz && h.sz[p] >= nb && !TooSmall(h, nb)
  {
  }

  lemma BestBefore(h: Layout, lists: seq<seq<int>>, lists': seq<seq<int>>, p: int, nb: int)
    requires BestFit(h, lists', p, nb) && |lists| == |lists'| == NAV && lists'[1] == []
    ensures BestFit(h, lists, p, nb)
  {
  }

  lemma NoneFits(m: Mem, h: Layout, lists: seq<seq<int>>, blocks: nat, nb: int)
    requires Searchable(m, h.sz, h.free, lists, blocks) && |lists| == NAV && lists[1] == [] && Below(h.sz, lists, NAV, nb)
    ensures TooSmall(h, nb)
  {
    hide Linked, Bit, Sorted, BinIndex;
    forall x | x in h.free && x in h.sz
      ensures h.sz[x] < nb
    {
      BinIndexMonotone(h.sz[x], h.sz[x]);
      assert x in lists[BinIndex(h.sz[x])] && AllBelow(h.sz, lists[BinIndex(h.sz[x])], nb);
    }
  }

  lemma ObtainedAfter(m0: Mem, h0: Layout, m1: Mem, h1: Layout, m2: Mem, h2: Layout, p: int, nb: int)
    requires Keeps(m0, h0, m1, h1, h0.base - 1) && h0.base - 1 !in h0.sz && LiveSet(h1) == LiveSet(h0)
    requires Obtained(m1, h1, m2, h2, p, nb)
    ensures Obtained(m0, h0, m2, h2, p, nb)
  {
    hide PrevInuse;
    assert p in LiveSet(h0) <==> p in LiveSet(h1);
    forall a | h0.Live(a) && a != p
      ensures h2.Live(a) && h2.sz[a] == h0.sz[a] && SamePayload(m0, m2, a, h0.sz[a])
    {
      assert h1.Live(a) && a in h1.sz;
      PayloadTransitive(m0, m1, m2, a, h0.sz[a]);
    }
  }

  /** The first size that is no positive long. */
  const LONG_END: int := 0x8000_0000_0000_0000

  /** And the first that is no size_t. */
  const SIZE_END: int := 0x1_0000_0000_0000_0000

  /** request2size in units; the sum is taken as a long, so the largest sizes come out as MINSIZE. */
  function Units(bytes: nat): (n: int)
    ensures n >= MINSIZE
  {
    if bytes + 23 >= LONG_END || bytes + 23 < 47 then MINSIZE else (bytes + 23) / 16
  }

  /** A chunk of that size has room for the bytes, and a size word, exactly when the sum is a long. */
  lemma UnitsExact(bytes: nat)
    requires bytes < LONG_END
    ensures 16 * Units(bytes) >= bytes + 8 <==> bytes + 23 < LONG_END
    ensures bytes + 23 < LONG_END ==> 16 * (Units(bytes) - 1) < bytes + 8 || Units(bytes) == MINSIZE
  {
  }

  lemma KeepsFurther(m0: Mem, h0: Layout, m1: Mem, h1: Layout, m2: Mem, h2: Layout)
    requires Keeps(m0, h0, m1, h1, h0.base - 1) && Keeps(m1, h1, m2, h2, h1.base - 1) && h1.base == h0.base
    ensures Keeps(m0, h0, m2, h2, h0.base - 1)
  {
    KeepsTransitive(m0, h0, m1, h1, m2, h2, h0.base - 1);
  }

  /** The break cannot move as far as the request needs; the first time also for the alignment. */
  predicate Exhausted(brk: int, memEnd: int, nb: int, first: bool, full: bool)
  {
    brk + Asked(nb, first) + (if full then 0 else PAGE + 16) > memEnd
  }

  /** The bytes memalign asks malloc for. */
  function Padded(alignment: nat, bytes: nat): nat
  {
    if alignment <= 16 then bytes else 16 * Units(bytes) + alignment + 16 * MINSIZE
  }

  lemma SwelledIn(m: Mem, h: Layout, F: set<int>, lists: seq<seq<int>>, blocks: nat, q: int, s: int)
    requires Swelled(m, h, F, lists, blocks, q, s)
    ensures q in h.sz && h.sz[q] == s && q != h.top && q >= 0
  {
    BaseFirst(h, q);
  }

  lemma RemainderFreed(m0: Mem, h0: Layout, m1: Mem, h1: Layout, m2: Mem, h2: Layout, q: int, r: int, n: int)
    requires Keeps(m0, h0, m1, h1, q) && Keeps(m1, h1, m2, h2, r) && r !in h0.sz && r != q
    requires h1.Live(q) && h1.sz[q] == n && SamePayload(m0, m1, q, n)
    requires LiveSet(h1) == LiveSet(h0) + {q, r} && LiveSet(h2) == LiveSet(h1) - {r}
    ensures Keeps(m0, h0, m2, h2, q) && LiveSet(h2) == LiveSet(h0) + {q}
    ensures h2.Live(q) && h2.sz[q] == n && SamePayload(m0, m2, q, n)
  {
    assert q in h1.sz && SamePayload(m1, m2, q, n);
    PayloadTransitive(m0, m1, m2, q, n);
    forall a | h0.Live(a) && a != q
      ensures h2.Live(a) && h2.sz[a] == h0.sz[a] && SamePayload(m0, m2, a, h0.sz[a])
    {
      assert h1.Live(a) && a in h1.sz && a != r;
      PayloadTransitive(m0, m1, m2, a, h0.sz[a]);
    }
    assert r !in LiveSet(h0);
  }

  /** What the chunk behind p can give: all of a free one, top but for a minimum chunk. */
  ghost function Beside(h: Layout, p: int): int
    requires p in h.sz && Next(h.sz, p) in h.sz
  {
    var next := Next(h.sz, p);
    if next == h.top then h.sz[next] - MINSIZE else if next in h.free then h.sz[next] else 0
  }

  /** p can be made nb units large with its free neighbours. */
  ghost predicate Growable(h: Layout, p: int, nb: int)
  {
    && p in h.sz && Next(h.sz, p) in h.sz
    && (|| h.sz[p] + Beside(h, p) >= nb
        || exists q :: q in h.free && q in h.sz && Next(h.sz, q) == p && h.sz[q] + h.sz[p] + Beside(h, p) >= nb)
  }

  lemma GrowableMeans(h: Layout, p: int, nb: int)
    requires Tiled(h) && h.Live(p)
    ensures p in h.sz && Next(h.sz, p) in h.sz && (h.sz[p] + Beside(h, p) >= nb ==> Growable(h, p, nb))
  {
  }

  /** With a free chunk before p, it is the only one that counts. */
  lemma GrowableBack(h: Layout, p: int, q: int, nb: int)
    requires Tiled(h) && h.Live(p) && q in h.free && q in h.sz && Next(h.sz, q) == p
    ensures Next(h.sz, p) in h.sz && Beside(h, p) >= 0
    ensures Growable(h, p, nb) <==> h.sz[q] + h.sz[p] + Beside(h, p) >= nb
  {
    if x :| x in h.free && x in h.sz && Next(h.sz, x) == p && x != q {
      OrderedEnds(h, x, q);
    }
  }

  lemma OrderedEnds(h: Layout, x: int, q: int)
    requires Tiled(h) && x in h.sz && q in h.sz && Next(h.sz, x) == Next(h.sz, q)
    ensures x == q
  {
  }

  lemma NoneBehind(m: Mem, h: Layout, p: int, nb: int)
    requires Tiled(h) && Heads(m, h) && h.Live(p) && PrevInuse(m.hi[p]) && Next(h.sz, p) in h.sz
    requires h.sz[p] + Beside(h, p) < nb
    ensures !Growable(h, p, nb)
  {
    forall q | q in h.free && q in h.sz
      ensures Next(h.sz, q) != p
    {
      assert HeadAt(m, h, q);
    }
  }

  /**
   What realloc promises: p's block is q's now, as large as asked for, with the same contents as far as both reach;
   no other live block changed.
   */
  ghost predicate Moved(m: Mem, h: Layout, m': Mem, h': Layout, p: int, q: int, nb: int)
  {
    && Keeps(m, h, m', h', p) && h.Live(p) && LiveSet(h') == LiveSet(h) - {p} + {q} && (q == p || !h.Live(q))
    && h'.Live(q) && nb <= h'.sz[q] < nb + MINSIZE
    && SameWords(m, UserWord(p), m', UserWord(q), Smaller(UserWords(h.sz[p]), UserWords(h'.sz[q])))
  }

  function Smaller(a: int, b: int): int
  {
    if a <= b then a else b
  }

  lemma GrowingStart(m: Mem, h: Layout, F: set<int>, lists: seq<seq<int>>, blocks: nat, q: int, p: int, forward: bool)
    requires Open(m, h, F, lists, blocks) && Growing(h, F, q, p, forward)
    ensures q <= p && Tiled(h) && h.free <= h.sz.Keys - {h.top} && (q == p || !h.Live(q)) && h.Live(p)
  {
    if q != p {
      Apart(h, q, p);
    }
  }

  lemma MovedBy(m0: Mem, h0: Layout, m1: Mem, h1: Layout, m2: Mem, h2: Layout, p: int, q: int, nb: int)
    requires Keeps(m0, h0, m1, h1, p) && Keeps(m1, h1, m2, h2, q) && (q == p || !h0.Live(q)) && h0.Live(p) && h0.sz[p] > 0
    requires LiveSet(h1) + {q} == LiveSet(h0) - {p} + {q} && LiveSet(h2) == LiveSet(h1) + {q}
    requires SameWords(m0, UserWord(p), m1, UserWord(q), UserWords(h0.sz[p]))
    requires h2.Live(q) && 0 < nb <= h2.sz[q] < nb + MINSIZE && SamePayload(m1, m2, q, h2.sz[q])
    ensures Moved(m0, h0, m2, h2, p, q, nb)
  {
    hide SamePayload, SameWords;
    PayloadWords(m1, m2, q, h2.sz[q]);
    WordsOn(m0, UserWord(p), m1, UserWord(q), m2, UserWords(h0.sz[p]), UserWords(h2.sz[q]));
    forall a | h0.Live(a) && a != p
      ensures h2.Live(a) && h2.sz[a] == h0.sz[a] && SamePayload(m0, m2, a, h0.sz[a])
    {
      assert h1.Live(a) && a in h1.sz && a != q;
      PayloadTransitive(m0, m1, m2, a, h0.sz[a]);
    }
  }

  lemma MovedInto(m0: Mem, h0: Layout, m1: Mem, m2: Mem, h2: Layout, p: int, q: int, nb: int)
    requires Keeps(m0, h0, m2, h2, p) && (q == p || !h0.Live(q)) && h0.Live(p) && LiveSet(h2) == LiveSet(h0) - {p} + {q}
    requires SameWords(m0, UserWord(p), m1, UserWord(q), UserWords(h0.sz[p]))
    requires h2.Live(q) && h2.sz[q] == nb > 0 && SamePayload(m1, m2, q, nb)
    ensures Moved(m0, h0, m2, h2, p, q, nb)
  {
    hide SamePayload, SameWords, Keeps, LiveSet;
    PayloadWords(m1, m2, q, nb);
    WordsOn(m0, UserWord(p), m1, UserWord(q), m2, UserWords(h0.sz[p]), UserWords(nb));
  }

  lemma SizePositive(h: Layout, p: int)
    requires Tiled(h) && p in h.sz
    ensures h.sz[p] >= MINSIZE && p >= 0 && Next(h.sz, p) == p + h.sz[p]
  {
  }

  /** The chunks p may grow over, once they have left their bins. */
  lemma GrowingFrom(m: Mem, h: Layout, lists: seq<seq<int>>, blocks: nat, p: int, q: int, forward: bool, F: set<int>)
    requires Closed(m, h, lists, blocks) && h.Live(p) && (q == p || (q in h.free && q in h.sz && Next(h.sz, q) == p))
    requires Next(h.sz, p) in h.sz && (forward ==> Next(h.sz, p) == h.top || Next(h.sz, p) in h.free)
    requires F == h.free - {q} - (if forward && Next(h.sz, p) != h.top then {Next(h.sz, p)} else {})
    ensures Growing(h, F, q, p, forward) && Tiled(h) && h.free <= h.sz.Keys - {h.top}
    ensures MergeOf(h, q, p, forward).sz[q] ==
      h.sz[p] + (if q == p then 0 else h.sz[q]) + (if forward then h.sz[Next(h.sz, p)] else 0)
  {
    hide Open, MergeOf, Tiled, Heads, FeetOf, Linked, Binned, Coalesced, Parted;
    OpenFacts(m, h, h.free, lists, blocks);
    SizePositive(h, p);
    MergeSize(h, q, p, forward);
    FewerParted(h, F);
    NotBehindItself(h, p, q);
  }

  lemma FewerParted(h: Layout, F: set<int>)
    requires Tiled(h) && Coalesced(h) && F <= h.free
    ensures Parted(h, F)
  {
    hide Tiled;
  }

  lemma NotBehindItself(h: Layout, p: int, q: int)
    requires Tiled(h) && p in h.sz && (q == p || (q in h.sz && Next(h.sz, q) == p))
    ensures Next(h.sz, p) != p && Next(h.sz, p) != q && q <= p
  {
  }

  /** What unlinking did before does not matter to the caller. */
  lemma MovedAfter(m0: Mem, m1: Mem, h: Layout, m2: Mem, h2: Layout, p: int, q: int, nb: int)
    requires SamePayloads(m0, m1, h, h.base - 1) && Tiled(h) && Moved(m1, h, m2, h2, p, q, nb)
    ensures Moved(m0, h, m2, h2, p, q, nb)
  {
    hide SamePayload, SameWords, LiveSet;
    assert p in h.sz && SamePayload(m0, m1, p, h.sz[p]);
    SizePositive(h, p);
    PayloadWords(m0, m1, p, h.sz[p]);
    var k := Smaller(UserWords(h.sz[p]), UserWords(h2.sz[q]));
    WordsBefore(m0, UserWord(p), m1, m2, UserWord(q), UserWords(h.sz[p]), k);
    forall a | h.Live(a) && a != p
      ensures SamePayload(m0, m2, a, h.sz[a])
    {
      PayloadTransitive(m0, m1, m2, a, h.sz[a]);
    }
  }

  lemma WordsBefore(m0: Mem, p: int, m1: Mem, m2: Mem, q: int, k: int, k': int)
    requires SameWords(m0, p, m1, p, k) && SameWords(m1, p, m2, q, k') && k' <= k
    ensures SameWords(m0, p, m2, q, k')
  {
    hide Fetch;
    forall i | 0 <= i < k'
      ensures SameWord(m0, p, m2, q, i)
    {
      assert SameWord(m0, p, m1, p, i) && SameWord(m1, p, m2, q, i);
    }
  }

  /** Where a chunk new since (m0, h0) lies beside p. */
  lemma BesideNew(m0: Mem, h0: Layout, m1: Mem, h1: Layout, lists: seq<seq<int>>, blocks: nat, p: int, q: int, nb: int)
    requires Obtained(m0, h0, m1, h1, q, nb) && h0.Live(p) && Closed(m1, h1, lists, blocks) && h0.sz[p] < nb
    ensures p != q && h1.Live(p) && h1.sz[p] == h0.sz[p] && h1.Live(q) && q >= 0
    ensures ChunkSize(m1.hi[q]) == h1.sz[q] && nb <= h1.sz[q] < nb + MINSIZE && (q <= p || p + h0.sz[p] <= q)
    ensures !h0.Live(q) && LiveSet(h1) == LiveSet(h0) + {q}
    ensures UserWord(q) <= UserWord(p) || UserWord(p) + UserWords(h0.sz[p]) <= UserWord(q)
  {
    assert p in h0.sz;
    assert HeadAt(m1, h1, q);
    if p < q {
      Apart(h1, p, q);
      assert Next(h1.sz, p) == p + h1.sz[p];
    }
  }

  /** The new chunk q right after p: the two as one chunk. */
  lemma SwelledOver(m0: Mem, h0: Layout, m: Mem, h: Layout, lists: seq<seq<int>>, blocks: nat, p: int, q: int, nb: int)
    requires Closed(m, h, lists, blocks) && Obtained(m0, h0, m, h, q, nb) && h0.Live(p) && h.Live(p) && q == p + h.sz[p] && h0.sz[p] > 0
    ensures Tiled(h) && JoinOf(h, p).free == h.free && Swelled(m, JoinOf(h, p), h.free, lists, blocks, p, h.sz[p] + h.sz[q])
    ensures Keeps(m0, h0, m, JoinOf(h, p), p) && LiveSet(JoinOf(h, p)) + {p} == LiveSet(h0) - {p} + {p}
    ensures JoinOf(h, p).base == h.base && JoinOf(h, p).end == h.end && JoinOf(h, p).top == h.top
    ensures SameWords(m0, UserWord(p), m, UserWord(p), UserWords(h0.sz[p]))
  {
    hide Open, SamePayload, SameWords, Joined, Tiled, PrevInuse, JoinMem;
    OpenFacts(m, h, h.free, lists, blocks);
    SizePositive(h, p);
    var g := JoinOf(h, p);
    JoinedStep(m, h, h.free, lists, blocks, p);
    OpenFacts(JoinMem(m, p, h.sz[p] + h.sz[q]), g, h.free, lists, blocks);
    FusedSelf(h, p);
    FusedJoin(h, h, p, p);
    OrderedPair(h, p);
    GrownParted(h, g, h.free, p, q);
    assert p in h0.sz && SamePayload(m0, m, p, h0.sz[p]);
    PayloadWords(m0, m, p, h0.sz[p]);
    JoinedLive(h0, h, g, p, q);
    forall a | h0.Live(a) && a != p
      ensures SamePayload(m0, m, a, h0.sz[a])
    {
      assert a in h0.sz && a != q;
    }
  }

  lemma OrderedPair(h: Layout, p: int)
    requires Tiled(h) && p in h.sz && p != h.top && h.free <= h.sz.Keys && p !in h.free && Next(h.sz, p) !in h.free
    ensures forall x :: x in h.free ==> !(p <= x <= Next(h.sz, p))
  {
    NoneBetween(h, p);
  }

  lemma JoinedLive(h0: Layout, h: Layout, g: Layout, p: int, q: int)
    requires SameLive(h0, h, q) && !h0.Live(q) && LiveSet(h) == LiveSet(h0) + {q} && h0.Live(p) && Fused(h, g, p, q)
    requires Tiled(h) && q == Next(h.sz, p) && q != h.top && p != q && h.Live(p) && h.Live(q)
    ensures SameLive(h0, g, p) && LiveSet(g) == LiveSet(h0)
  {
    NoneBetween(h, p);
    forall a
      ensures a in LiveSet(g) <==> a in LiveSet(h) - {q}
    {
    }
    assert q !in LiveSet(h0);
    forall a | h0.Live(a) && a != p
      ensures g.Live(a) && g.sz[a] == h0.sz[a]
    {
      assert h.Live(a) && a in h.sz && a != q;
      assert a in LiveSet(h);
    }
  }

  /** p seen as a chunk that has not grown. */
  lemma SwelledSelf(m: Mem, h: Layout, lists: seq<seq<int>>, blocks: nat, p: int)
    requires Closed(m, h, lists, blocks) && h.Live(p)
    ensures Swelled(m, h, h.free, lists, blocks, p, h.sz[p]) && h.sz[p] > 0
    ensures Keeps(m, h, m, h, p) && SameWords(m, UserWord(p), m, UserWord(p), UserWords(h.sz[p])) && LiveSet(h) + {p} == LiveSet(h) - {p} + {p}
  {
    hide Open, SamePayload, JoinMem;
    OpenFacts(m, h, h.free, lists, blocks);
    SizePositive(h, p);
    Retagged(m, h, h.free, lists, blocks, p);
    CoalescedHeld(h, h.free);
    ContentsSame(m, h);
    forall a | h.Live(a) && a != p
      ensures SamePayload(m, m, a, h.sz[a])
    {
      assert a in h.sz && a != h.base - 1;
    }
  }

  /** The contents of p are in the new chunk q as well; p is still as it was. */
  lemma CopiedAway(m0: Mem, h0: Layout, m1: Mem, h1: Layout, m2: Mem, lists: seq<seq<int>>, blocks: nat, p: int, q: int, nb: int)
    requires Closed(m1, h1, lists, blocks) && Obtained(m0, h0, m1, h1, q, nb) && h0.Live(p) && 0 < h0.sz[p] < nb
    requires Copied(m1, m2, UserWord(q), UserWord(p), UserWords(h0.sz[p]))
    ensures Closed(m2, h1, lists, blocks) && Keeps(m0, h0, m2, h1, q)
    ensures SameWords(m0, UserWord(p), m2, UserWord(q), UserWords(h0.sz[p]))
  {
    hide Open, SamePayload, SameWords, PrevInuse, SameBut;
    OpenFacts(m1, h1, h1.free, lists, blocks);
    SizePositive(h1, q);
    CopyInside(m1, m2, q, p, h0.sz[p], h1.sz[q]);
    Scribbled(m1, m2, h1, h1.free, lists, blocks, q);
    assert p in h0.sz && SamePayload(m0, m1, p, h0.sz[p]);
    PayloadWords(m0, m1, p, h0.sz[p]);
    WordsBefore(m0, UserWord(p), m1, m2, UserWord(q), UserWords(h0.sz[p]), UserWords(h0.sz[p]));
    forall a | h0.Live(a) && a != q
      ensures SamePayload(m0, m2, a, h0.sz[a])
    {
      assert h1.Live(a) && a in h1.sz;
      PayloadTransitive(m0, m1, m2, a, h0.sz[a]);
    }
  }

  lemma MovedAway(m0: Mem, h0: Layout, m2: Mem, h1: Layout, m3: Mem, h3: Layout, p: int, q: int, nb: int)
    requires Keeps(m0, h0, m2, h1, q) && Keeps(m2, h1, m3, h3, p) && h0.Live(p) && !h0.Live(q) && p != q
    requires LiveSet(h1) == LiveSet(h0) + {q} && LiveSet(h3) == LiveSet(h1) - {p} && h1.Live(q) && 0 < nb <= h1.sz[q] < nb + MINSIZE
    requires SameWords(m0, UserWord(p), m2, UserWord(q), UserWords(h0.sz[p]))
    ensures Moved(m0, h0, m3, h3, p, q, nb)
  {
    hide SamePayload, SameWords;
    assert q in h1.sz && SamePayload(m2, m3, q, h1.sz[q]) && h3.Live(q);
    PayloadWords(m2, m3, q, h1.sz[q]);
    WordsOn(m0, UserWord(p), m2, UserWord(q), m3, UserWords(h0.sz[p]), UserWords(h1.sz[q]));
    forall a | h0.Live(a) && a != p
      ensures h3.Live(a) && h3.sz[a] == h0.sz[a] && SamePayload(m0, m3, a, h0.sz[a])
    {
      assert h1.Live(a) && a in h1.sz && a != q;
      PayloadTransitive(m0, m2, m3, a, h0.sz[a]);
    }
  }

  function Larger(a: int, b: int): int
  {
    if a < b then b else a
  }

  /** Powers of two up to 16 divide it, and so every address malloc returns; the others are multiples of 32. */
  lemma SmallPower(n: nat, u: int)
    requires Limbs.PowerOfTwo(n) && n <= 16
    ensures 16 * u % n == 0
  {
    SmallPowers(n);
    if n == 1 {
    } else if n == 2 {
      assert 16 * u == 2 * (8 * u);
    } else if n == 4 {
      assert 16 * u == 4 * (4 * u);
    } else if n == 8 {
      assert 16 * u == 8 * (2 * u);
    } else {
    }
  }

  lemma SmallPowers(n: nat)
    requires Limbs.PowerOfTwo(n) && n <= 16
    ensures n == 1 || n == 2 || n == 4 || n == 8 || n == 16
  {
    if n > 1 {
      assert Limbs.PowerOfTwo(n / 2);
    }
    if n > 2 {
      assert Limbs.PowerOfTwo(n / 4);
    }
    if n > 4 {
      assert Limbs.PowerOfTwo(n / 8);
    }
  }

  lemma {:induction false} LargePower(n: nat)
    requires Limbs.PowerOfTwo(n) && n > 16
    ensures n % 32 == 0
  {
    assert Limbs.PowerOfTwo(n / 2);
    if n > 32 {
      LargePower(n / 2);
    } else {
      assert Limbs.PowerOfTwo(n / 4) && Limbs.PowerOfTwo(n / 8);
      assert Limbs.PowerOfTwo(n / 16);
    }
  }

  /** The units before the first aligned address that leaves room for a chunk in front of it. */
  function Lead(p: int, a: int): int
    requires a > 0
  {
    LeadFrom(p, a, (16 * (p + 1) + a - 1) / a * a)
  }

  /** The same, r being the first multiple of a at or after the address behind the header. */
  function LeadFrom(p: int, a: int, r: int): int
  {
    var brk := r - 16;
    (if brk - 16 * p < 16 * MINSIZE then brk + a - 16 * p else brk - 16 * p) / 16
  }

  lemma MulMod(k: int, a: int)
    requires a > 0
    ensures k * a % a == 0
  {
    MultipleMod(k * a, k, a);
  }

  lemma MultipleMod(x: int, k: int, a: int)
    requires a > 0 && x == k * a
    ensures x % a == 0
  {
    var q, r := x / a, x % a;
    assert x == a * q + r;
    assert (k - q) * a == k * a - q * a;
    SmallMultiple(k - q, a, r);
  }

  lemma SmallMultiple(d: int, a: int, r: int)
    requires a > 0 && d * a == r && 0 <= r < a
    ensures r == 0
  {
  }

  /** Rounding up to a multiple of a. */
  lemma RoundUpFacts(x: int, a: int) returns (k: int)
    requires a > 0
    ensures k == (x + a - 1) / a && x <= k * a < x + a && k * a % a == 0 && (k * a + a) % a == 0
    ensures x % a != 0 ==> k * a > x
  {
    k := (x + a - 1) / a;
    MulMod(k, a);
    MulMod(k + 1, a);
    assert (k + 1) * a == k * a + a;
  }

  lemma UnitMultiple(k: int, a: int)
    requires a % 16 == 0
    ensures k * a % 16 == 0
  {
    MulMod(k * (a / 16), 16);
    assert k * a == k * (a / 16) * 16;
  }

  /** The padding malloc was asked for is enough: what remains behind the aligned address holds nb units. */
  lemma LeadFacts(p: int, size: int, a: int, nb: int)
    requires a >= 32 && a % 32 == 0 && nb >= MINSIZE && size >= nb + a / 16 + 3 && 16 * (p + 1) % a != 0
    ensures MINSIZE <= Lead(p, a) <= size - MINSIZE && nb <= size - Lead(p, a) && 16 * (p + Lead(p, a) + 1) % a == 0
  {
    hide LeadFrom;
    var k := RoundUpFacts(16 * (p + 1), a);
    UnitMultiple(k, a);
    AlignedAt(p, k * a, a, nb, size);
  }

  lemma AlignedAt(p: int, r: int, a: int, nb: int, size: int)
    requires a >= 32 && a % 32 == 0 && nb >= MINSIZE && size >= nb + a / 16 + 3 && r % 16 == 0
    requires 16 * (p + 1) < r < 16 * (p + 1) + a && r % a == 0 && (r + a) % a == 0
    ensures var lead := LeadFrom(p, a, r);
      MINSIZE <= lead <= size - MINSIZE && nb <= size - lead && 16 * (p + lead + 1) % a == 0
  {
    hide LeadFrom;
    var r1, a1 := r / 16, a / 16;
    assert r == 16 * r1 && a == 16 * a1;
    LeadUnits(p, a1, r1);
    var lead := if r1 - 1 - p < MINSIZE then r1 - 1 - p + a1 else r1 - 1 - p;
    assert 16 * (p + lead + 1) == if r1 - 1 - p < MINSIZE then r + a else r;
  }

  /** In units of 16 bytes. */
  lemma LeadUnits(p: int, a: int, r: int)
    ensures LeadFrom(p, 16 * a, 16 * r) == if r - 1 - p < MINSIZE then r - 1 - p + a else r - 1 - p
  {
    Sixteenth(r - 1 - p + a);
    Sixteenth(r - 1 - p);
  }

  lemma Sixteenth(x: int)
    ensures 16 * x / 16 == x
  {
  }

  lemma PaddedUnits(nb: int, a: int)
    requires nb >= MINSIZE && a >= 32 && a % 32 == 0 && 16 * nb + a + 16 * MINSIZE + 23 < LONG_END
    ensures Units(16 * nb + a + 16 * MINSIZE) >= nb + a / 16 + 3
  {
  }

  lemma NewLive(m0: Mem, h0: Layout, m: Mem, h: Layout, p: int, nb: int)
    requires Obtained(m0, h0, m, h, p, nb)
    ensures Keeps(m0, h0, m, h, p) && LiveSet(h) == LiveSet(h0) + {p} && !h0.Live(p) && h.Live(p) && nb <= h.sz[p] < nb + MINSIZE
  {
  }

  lemma HeadReadsSize(m: Mem, h: Layout, lists: seq<seq<int>>, blocks: nat, p: int)
    requires Closed(m, h, lists, blocks) && h.Live(p)
    ensures p in h.sz && ChunkSize(m.hi[p]) == h.sz[p] && p >= 0 && h.sz[p] >= MINSIZE
  {
    assert HeadAt(m, h, p);
  }

  lemma CutSizes(h: Layout, p: int, n: int)
    requires Tiled(h) && p in h.sz && MINSIZE <= n <= h.sz[p] - MINSIZE
    ensures p + n in CutOf(h, p, n).sz && CutOf(h, p, n).sz[p + n] == h.sz[p] - n && p + n >= 0 && p + n !in h.sz
  {
    CutEnd(h, p, n);
  }

  /** The front part freed, the chunk at r is what is new. */
  lemma LeadFreed(m0: Mem, h0: Layout, m1: Mem, h1: Layout, m2: Mem, h2: Layout, m3: Mem, h3: Layout, p: int, r: int, nb: int)
    requires Obtained(m0, h0, m1, h1, p, nb) && Keeps(m1, h1, m2, h2, p) && Keeps(m2, h2, m3, h3, p)
    requires LiveSet(h2) == LiveSet(h1) + {p, r} && LiveSet(h3) == LiveSet(h2) - {p} && r !in h1.sz && r != p && h2.Live(r)
    ensures Keeps(m0, h0, m3, h3, r) && LiveSet(h3) == LiveSet(h0) + {r} && !h0.Live(r) && h3.Live(r) && h3.sz[r] == h2.sz[r]
  {
    hide SamePayload, PrevInuse;
    assert r in h2.sz && h3.Live(r);
    assert r !in LiveSet(h1) && p !in LiveSet(h0);
    assert r !in LiveSet(h0);
    forall a | h0.Live(a) && a != r
      ensures h3.Live(a) && h3.sz[a] == h0.sz[a] && SamePayload(m0, m3, a, h0.sz[a])
    {
      assert h1.Live(a) && a in h1.sz && a != p;
      assert h2.Live(a) && a in h2.sz;
      PayloadTransitive(m0, m1, m2, a, h0.sz[a]);
      PayloadTransitive(m0, m2, m3, a, h0.sz[a]);
    }
  }

  lemma KeptOnce(m0: Mem, h0: Layout, m1: Mem, h1: Layout, m2: Mem, h2: Layout, p: int)
    requires Keeps(m0, h0, m1, h1, p) && Keeps(m1, h1, m2, h2, p) && LiveSet(h1) == LiveSet(h0) + {p} && LiveSet(h2) == LiveSet(h1) + {p}
    ensures Keeps(m0, h0, m2, h2, p) && LiveSet(h2) == LiveSet(h0) + {p}
  {
    hide LiveSet;
    KeepsTransitive(m0, h0, m1, h1, m2, h2, p);
  }

  /** What a sound heap is worth to its user: the chunks make up all memory obtained, but for the pad in front. */
  lemma ArenaAccounted(m: Mem, h: Layout, lists: seq<seq<int>>, blocks: nat, brk: int, sbrkBase: int, sbrkedMem: int)
    requires Closed(m, h, lists, blocks) && Settled(h.base, h.end, brk, sbrkBase, sbrkedMem, false)
    ensures 16 * TotalSize(h.sz, Row(h, h.base)) + (16 * h.base - sbrkBase) == sbrkedMem == brk - sbrkBase
    ensures forall x :: x in Row(h, h.base) <==> x in h.sz
  {
    hide Row, TotalSize;
    OpenFacts(m, h, h.free, lists, blocks);
    RowComplete(h, h.base);
    RowTotal(h, h.base);
    forall x
      ensures x in h.sz ==> x >= h.base
    {
    }
  }

  /** Every free chunk is in one bin and no other: the last remainder's, or the one bin_index names. */
  lemma FreeInOneBin(m: Mem, h: Layout, lists: seq<seq<int>>, blocks: nat, x: int)
    requires Closed(m, h, lists, blocks) && x in h.free
    ensures |lists| == NAV && exists i :: 1 <= i < NAV && x in lists[i] && (i == 1 || i == BinIndex(h.sz[x]))
    ensures forall i, j :: 0 <= i < NAV && 0 <= j < NAV && x in lists[i] && x in lists[j] ==> i == j
  {
    hide Tiled, Heads, FeetOf, Ring, Sorted, BinIndex, Bit;
    var i, k := Locate(m, h, h.free, lists, blocks, x);
    assert x in lists[i];
    assert i == 1 || i == BinIndex(h.sz[x]);
  }
}
