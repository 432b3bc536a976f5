/**
 The arena of dlmalloc.c as boundary-tagged chunks. Addresses and sizes are counted in units of
 MALLOC_ALIGNMENT (16 bytes, two words); MINSIZE is two units. A chunk at unit a has its prev_size
 word at lo[a], its size word at hi[a], and, while it is free, its links at lo[a + 1] and hi[a + 1].
 */
module Chunks {
  const MINSIZE: int := 2

  /** All the words there are: lo[u] at byte 16*u, hi[u] at byte 16*u + 8. */
  type Words = w: imap<int, int> | forall u: int :: u in w
    ghost witness imap u: int | true :: 0

  datatype Mem = Mem(lo: Words, hi: Words)

  /** A size word: bytes, with PREV_INUSE as the lowest bit. */
  function Tag(size: int, prevInuse: bool): int
  {
    16 * size + if prevInuse then 1 else 0
  }

  function ChunkSize(w: int): int
  {
    w / 16
  }

  predicate PrevInuse(w: int)
  {
    w % 2 == 1
  }

  lemma TagReads(n: int, b: bool)
    ensures ChunkSize(Tag(n, b)) == n && (PrevInuse(Tag(n, b)) <==> b)
  {
  }

  /** set_head, set_foot and the in-use bit updates. */
  function SetHead(m: Mem, a: int, w: int): Mem
  {
    m.(hi := m.hi[a := w])
  }

  function SetFoot(m: Mem, a: int, size: int): Mem
  {
    m.(lo := m.lo[a + size := 16 * size])
  }

  function SetBit(m: Mem, a: int): Mem
  {
    SetHead(m, a, Tag(ChunkSize(m.hi[a]), true))
  }

  function ClearBit(m: Mem, a: int): Mem
  {
    SetHead(m, a, Tag(ChunkSize(m.hi[a]), false))
  }

  // ---------------------------------------------------------------- layout

  /** The address after chunk a. */
  ghost function Next(sz: map<int, int>, a: int): int
    requires a in sz
  {
    a + sz[a]
  }

  /** The chunks behind the tags: sizes by address, which are free, and the last one, top. */
  datatype Layout = Layout(sz: map<int, int>, free: set<int>, base: int, top: int, end: int)
  {
    ghost predicate Live(a: int)
    {
      a in sz && a !in free && a != top
    }
  }

  /** Chunks tile [base, end): the successor of each is a chunk again, and none overlaps another. */
  ghost predicate Tiled(h: Layout)
  {
    && 0 <= h.base && h.base in h.sz && h.top in h.sz
    && Next(h.sz, h.top) == h.end
    && (forall a {:trigger a in h.sz} :: a in h.sz ==> h.base <= a <= h.top && h.sz[a] >= MINSIZE)
    && (forall a {:trigger Next(h.sz, a)} :: a in h.sz && a != h.top ==> Next(h.sz, a) in h.sz)
    && (forall a, b {:trigger Next(h.sz, a), b in h.sz} :: a in h.sz && b in h.sz && a < b ==> Next(h.sz, a) <= b)
  }

  /** Free chunks are never neighbours, and none borders top. */
  ghost predicate Coalesced(h: Layout)
    requires Tiled(h)
  {
    && (forall a {:trigger a in h.free} :: a in h.free ==> a in h.sz && a != h.top)
    && (forall a {:trigger Next(h.sz, a)} :: a in h.free ==> Next(h.sz, a) !in h.free && Next(h.sz, a) != h.top)
  }

  /** Every size word and in-use bit says what the layout says. */
  ghost predicate Heads(m: Mem, h: Layout)
  {
    PrevInuse(m.hi[h.base]) && forall a {:trigger HeadAt(m, h, a)} :: a in h.sz ==> HeadAt(m, h, a)
  }

  ghost predicate HeadAt(m: Mem, h: Layout, a: int)
    requires a in h.sz
  {
    && ChunkSize(m.hi[a]) == h.sz[a]
    && (a != h.top ==> (PrevInuse(m.hi[Next(h.sz, a)]) <==> a !in h.free))
  }

  /** Every free chunk has its size once more at its end. */
  ghost predicate Feet(m: Mem, h: Layout)
  {
    forall a {:trigger Next(h.sz, a)} :: a in h.free && a in h.sz ==> m.lo[Next(h.sz, a)] == 16 * h.sz[a]
  }

  ghost predicate WellFormed(m: Mem, h: Layout)
  {
    Tiled(h) && Coalesced(h) && Heads(m, h) && Feet(m, h)
  }

  /** The words a user may write between malloc and free: from fd on, up to the next chunk's prev_size. */
  ghost predicate SamePayload(m: Mem, m': Mem, a: int, n: int)
  {
    (forall u :: a < u < a + n ==> SameUnit(m, m', u)) && m.lo[a + n] == m'.lo[a + n]
  }

  ghost predicate SameUnit(m: Mem, m': Mem, u: int)
  {
    m.lo[u] == m'.lo[u] && m.hi[u] == m'.hi[u]
  }

  /** The contents of every live chunk of h other than p are the same in both memories. */
  ghost predicate SamePayloads(m: Mem, m': Mem, h: Layout, p: int)
  {
    forall a {:trigger a in h.sz} :: h.Live(a) && a != p ==> SamePayload(m, m', a, h.sz[a])
  }

  /** Every live chunk of h other than p is a live chunk of h', of the same size. */
  ghost predicate SameLive(h: Layout, h': Layout, p: int)
  {
    forall a {:trigger a in h.sz} :: h.Live(a) && a != p ==> h'.Live(a) && h'.sz[a] == h.sz[a]
  }

  /** Every live chunk of h other than p is still there, with its contents. */
  ghost predicate Keeps(m: Mem, h: Layout, m': Mem, h': Layout, p: int)
  {
    SamePayloads(m, m', h, p) && SameLive(h, h', p)
  }

  lemma KeepsTransitive(m: Mem, h: Layout, m': Mem, h': Layout, m'': Mem, h'': Layout, p: int)
    requires Keeps(m, h, m', h', p) && Keeps(m', h', m'', h'', p)
    ensures Keeps(m, h, m'', h'', p)
  {
    forall a | h.Live(a) && a != p
      ensures h''.Live(a) && h''.sz[a] == h.sz[a] && SamePayload(m, m'', a, h.sz[a])
    {
      assert h'.Live(a) && a in h'.sz;
      PayloadTransitive(m, m', m'', a, h.sz[a]);
    }
  }

  lemma PayloadTransitive(m: Mem, m': Mem, m'': Mem, a: int, n: int)
    requires SamePayload(m, m', a, n) && SamePayload(m', m'', a, n)
    ensures SamePayload(m, m'', a, n)
  {
    forall u | a < u < a + n
      ensures SameUnit(m, m'', u)
    {
      assert SameUnit(m, m', u) && SameUnit(m', m'', u);
    }
  }

  /** Size words are no part of any payload, nor is anything inside a chunk that is not live. */
  lemma HeadWrite(m: Mem, h: Layout, c: int, u: int, w: int)
    requires Tiled(h) && c in h.sz && c <= u < Next(h.sz, c) && (u == c || !h.Live(c))
    ensures SamePayloads(m, SetHead(m, u, w), h, h.base - 1)
  {
    forall a | h.Live(a)
      ensures SamePayload(m, SetHead(m, u, w), a, h.sz[a])
    {
      assert Next(h.sz, a) == a + h.sz[a];
    }
  }

  /** The foot of a chunk that is not live is no part of any payload. */
  lemma FootWrite(m: Mem, h: Layout, c: int)
    requires Tiled(h) && c in h.sz && !h.Live(c)
    ensures SamePayloads(m, SetFoot(m, c, h.sz[c]), h, h.base - 1)
  {
    hide SamePayload;
    forall a | h.Live(a)
      ensures SamePayload(m, SetFoot(m, c, h.sz[c]), a, h.sz[a])
    {
      FootOutside(h, c, a);
      assert h.sz[a] > 0;
      OtherWord(m, c + h.sz[c], 16 * h.sz[c], a, h.sz[a]);
    }
  }

  lemma FootOutside(h: Layout, c: int, a: int)
    requires Tiled(h) && c in h.sz && !h.Live(c) && h.Live(a)
    ensures Next(h.sz, c) <= a || Next(h.sz, a) < Next(h.sz, c)
  {
    if Next(h.sz, c) == Next(h.sz, a) {
      OnePredecessor(h, a, c);
    }
  }

  lemma OtherWord(m: Mem, u: int, w: int, a: int, n: int)
    requires n > 0 && (u <= a || a + n < u)
    ensures SamePayload(m, m.(lo := m.lo[u := w]), a, n)
  {
  }

  // ---------------------------------------------------------------- reading the tags

  /** A chunk other than the first has one chunk right before it. */
  lemma Predecessor(h: Layout, p: int) returns (q: int)
    requires Tiled(h) && p in h.sz && p != h.base
    ensures q in h.sz && q < p && Next(h.sz, q) == p
  {
    q := h.base;
    while Next(h.sz, q) != p
      invariant q in h.sz && q < p
      decreases p - q
    {
      assert Next(h.sz, q) <= p;
      q := Next(h.sz, q);
    }
  }

  /** What free learns from PREV_INUSE and prev_size: the chunk before p, when that one is free. */
  lemma PreviousChunk(m: Mem, h: Layout, p: int)
    requires WellFormed(m, h) && p in h.sz && !PrevInuse(m.hi[p])
    ensures p - ChunkSize(m.lo[p]) in h.free && p - ChunkSize(m.lo[p]) in h.sz
    ensures Next(h.sz, p - ChunkSize(m.lo[p])) == p
  {
    var q := Predecessor(h, p);
    assert HeadAt(m, h, q);
    assert m.lo[Next(h.sz, q)] == 16 * h.sz[q];
  }

  lemma OnePredecessor(h: Layout, a: int, b: int)
    requires Tiled(h) && a in h.sz && b in h.sz && Next(h.sz, a) == Next(h.sz, b)
    ensures a == b
  {
  }

  /** The tiling property itself: every unit of the arena lies in exactly one chunk. */
  lemma UnitInOneChunk(h: Layout, u: int)
    requires Tiled(h) && h.base <= u < h.end
    ensures exists a :: a in h.sz && a <= u < Next(h.sz, a)
    ensures forall a, b :: a in h.sz && b in h.sz && a <= u < Next(h.sz, a) && b <= u < Next(h.sz, b) ==> a == b
  {
    var q := h.base;
    while Next(h.sz, q) <= u
      invariant q in h.sz && q <= u
      decreases u - q
    {
      q := Next(h.sz, q);
    }
    assert q in h.sz && q <= u < Next(h.sz, q);
  }

  // ---------------------------------------------------------------- splitting

  /** Chunk a cut after n units. */
  ghost function Cut(h: Layout, a: int, n: int): map<int, int>
    requires a in h.sz
  {
    h.sz[a := n][a + n := h.sz[a] - n]
  }

  /** How the cut looks from each chunk. */
  lemma CutShape(h: Layout, h': Layout, a: int, n: int)
    requires Tiled(h) && a in h.sz && MINSIZE <= n <= h.sz[a] - MINSIZE && h'.sz == Cut(h, a, n)
    ensures a + n !in h.sz && h'.sz.Keys == h.sz.Keys + {a + n}
    ensures Next(h'.sz, a) == a + n && Next(h'.sz, a + n) == Next(h.sz, a)
    ensures forall b {:trigger Next(h'.sz, b)} :: b in h.sz && b != a ==> h'.sz[b] == h.sz[b] && Next(h'.sz, b) == Next(h.sz, b)
  {
    assert Next(h.sz, a) == a + h.sz[a];
  }

  lemma CutTiled(h: Layout, h': Layout, a: int, n: int)
    requires Tiled(h) && a in h.sz && MINSIZE <= n <= h.sz[a] - MINSIZE
    requires h'.sz == Cut(h, a, n) && h'.base == h.base && h'.end == h.end
    requires h'.top == if a == h.top then a + n else h.top
    ensures Tiled(h')
  {
    CutShape(h, h', a, n);
    hide Cut;
  }

  // ---------------------------------------------------------------- joining

  /** Chunk a and its successor made one. */
  ghost function Joined(h: Layout, a: int): map<int, int>
    requires a in h.sz && Next(h.sz, a) in h.sz
  {
    (h.sz - {Next(h.sz, a)})[a := h.sz[a] + h.sz[Next(h.sz, a)]]
  }

  lemma JoinShape(h: Layout, h': Layout, a: int)
    requires Tiled(h) && a in h.sz && a != h.top && h'.sz == Joined(h, a)
    ensures h'.sz.Keys == h.sz.Keys - {Next(h.sz, a)}
    ensures Next(h'.sz, a) == Next(h.sz, Next(h.sz, a))
    ensures forall b {:trigger Next(h'.sz, b)} :: b in h'.sz && b != a ==> h'.sz[b] == h.sz[b] && Next(h'.sz, b) == Next(h.sz, b)
  {
    assert Next(h.sz, a) == a + h.sz[a];
    assert Next(h.sz, Next(h.sz, a)) == Next(h.sz, a) + h.sz[Next(h.sz, a)];
  }

  lemma JoinTiled(h: Layout, h': Layout, a: int)
    requires Tiled(h) && a in h.sz && a != h.top
    requires h'.sz == Joined(h, a) && h'.base == h.base && h'.end == h.end
    requires h'.top == if Next(h.sz, a) == h.top then a else h.top
    ensures Tiled(h')
  {
    JoinShape(h, h', a);
    hide Joined;
    forall b | b in h'.sz && b != h'.top
      ensures Next(h'.sz, b) in h'.sz
    {
      if b != a && Next(h.sz, b) == Next(h.sz, a) {
        OnePredecessor(h, a, b);
      }
    }
  }

  // ---------------------------------------------------------------- tags under the layout changes

  /** The size words of all chunks but a are the same. */
  ghost predicate SameHeads(m: Mem, m': Mem, sz: map<int, int>, a: int)
  {
    forall b {:trigger b in sz} :: b in sz && b != a ==> m'.hi[b] == m.hi[b]
  }

  /** Marking a live chunk free clears the bit its successor holds for it; taking a free one sets it. */
  lemma MarkHeads(m: Mem, m': Mem, h: Layout, h': Layout, p: int)
    requires Tiled(h) && Heads(m, h) && p in h.sz && p != h.top
    requires h' == h.(free := h.free + {p}) || h' == h.(free := h.free - {p})
    requires SameHeads(m, m', h.sz, Next(h.sz, p))
    requires m'.hi[Next(h.sz, p)] == Tag(ChunkSize(m.hi[Next(h.sz, p)]), p !in h'.free)
    ensures Tiled(h') && Heads(m', h')
  {
    var n := Next(h.sz, p);
    assert h.base <= p < n == p + h.sz[p];
    forall a | a in h'.sz
      ensures HeadAt(m', h', a)
    {
      MarkHeadAt(m, m', h, h', p, a);
    }
  }

  lemma MarkHeadAt(m: Mem, m': Mem, h: Layout, h': Layout, p: int, a: int)
    requires Tiled(h) && Heads(m, h) && p in h.sz && p != h.top && a in h.sz
    requires h' == h.(free := h.free + {p}) || h' == h.(free := h.free - {p})
    requires SameHeads(m, m', h.sz, Next(h.sz, p))
    requires m'.hi[Next(h.sz, p)] == Tag(ChunkSize(m.hi[Next(h.sz, p)]), p !in h'.free)
    ensures HeadAt(m', h', a)
  {
    var n := Next(h.sz, p);
    TagReads(ChunkSize(m.hi[n]), p !in h'.free);
    hide Tag, ChunkSize, PrevInuse;
    assert HeadAt(m, h, a);
    if a != h.top && Next(h.sz, a) == n {
      OnePredecessor(h, a, p);
    }
  }

  /** h' is h with chunk a and its successor made one: what the successor was, the whole now is. */
  ghost predicate JoinedLayout(h: Layout, h': Layout, a: int)
    requires Tiled(h)
  {
    && a in h.sz && a != h.top
    && h'.sz == Joined(h, a) && h'.base == h.base && h'.end == h.end
    && h'.top == (if Next(h.sz, a) == h.top then a else h.top)
    && h'.free == h.free - {a, Next(h.sz, a)} + if Next(h.sz, a) in h.free then {a} else {}
  }

  /** Joining only takes a new size word. */
  lemma JoinHeads(m: Mem, m': Mem, h: Layout, h': Layout, a: int)
    requires Tiled(h) && Heads(m, h) && JoinedLayout(h, h', a)
    requires SameHeads(m, m', h'.sz, a)
    requires m'.hi[a] == Tag(h.sz[a] + h.sz[Next(h.sz, a)], PrevInuse(m.hi[a]))
    ensures Tiled(h') && Heads(m', h')
  {
    JoinTiled(h, h', a);
    forall b | b in h'.sz
      ensures HeadAt(m', h', b)
    {
      JoinHeadAt(m, m', h, h', a, b);
    }
    JoinHeadAt(m, m', h, h', a, h.base);
    assert m'.hi[h.base] == m.hi[h.base] || h.base == a;
  }

  lemma BaseBit(m: Mem, m': Mem, h: Layout, h': Layout, a: int)
    requires Tiled(h) && PrevInuse(m.hi[h.base]) && h'.base == h.base && h.base in h'.sz
    requires SameHeads(m, m', h'.sz, a) || SameHeads(m, m', h.sz, a)
    requires PrevInuse(m'.hi[a]) <==> PrevInuse(m.hi[a])
    ensures PrevInuse(m'.hi[h'.base])
  {
  }

  lemma JoinHeadAt(m: Mem, m': Mem, h: Layout, h': Layout, a: int, b: int)
    requires Tiled(h) && Heads(m, h) && JoinedLayout(h, h', a) && b in h'.sz && Tiled(h')
    requires SameHeads(m, m', h'.sz, a)
    requires m'.hi[a] == Tag(h.sz[a] + h.sz[Next(h.sz, a)], PrevInuse(m.hi[a]))
    ensures HeadAt(m', h', b)
    ensures PrevInuse(m'.hi[a]) <==> PrevInuse(m.hi[a])
  {
    JoinShape(h, h', a);
    TagReads(h'.sz[a], PrevInuse(m.hi[a]));
    hide Tag, ChunkSize, PrevInuse, Joined;
    assert HeadAt(m, h, b);
    if b == a {
      assert HeadAt(m, h, Next(h.sz, a));
    } else {
      assert Next(h'.sz, b) == Next(h.sz, b);
    }
  }

  /** h' is h with chunk a cut after n units; the rest keeps a's standing and a becomes or stays live. */
  ghost predicate CutLayout(h: Layout, h': Layout, a: int, n: int)
    requires Tiled(h)
  {
    && a in h.sz && MINSIZE <= n <= h.sz[a] - MINSIZE
    && h'.sz == Cut(h, a, n) && h'.base == h.base && h'.end == h.end
    && h'.top == (if a == h.top then a + n else h.top)
    && h'.free == if a in h.free then h.free - {a} + {a + n} else h.free
  }

  /** Cutting writes two size words; the rest has the cut-off piece as its in-use neighbour. */
  lemma CutHeads(m: Mem, m': Mem, h: Layout, h': Layout, a: int, n: int)
    requires Tiled(h) && Heads(m, h) && CutLayout(h, h', a, n) && h.free <= h.sz.Keys
    requires m'.hi[a] == Tag(n, PrevInuse(m.hi[a])) && m'.hi[a + n] == Tag(h.sz[a] - n, true)
    requires SameHeads(m, m', h.sz, a)
    ensures Tiled(h') && Heads(m', h')
  {
    CutTiled(h, h', a, n);
    CutShape(h, h', a, n);
    forall b | b in h'.sz
      ensures HeadAt(m', h', b)
    {
      CutHeadAt(m, m', h, h', a, n, b);
    }
    TagReads(n, PrevInuse(m.hi[a]));
    BaseBit(m, m', h, h', a);
  }

  lemma CutHeadAt(m: Mem, m': Mem, h: Layout, h': Layout, a: int, n: int, b: int)
    requires Tiled(h) && Heads(m, h) && CutLayout(h, h', a, n) && b in h'.sz && Tiled(h') && h.free <= h.sz.Keys
    requires m'.hi[a] == Tag(n, PrevInuse(m.hi[a])) && m'.hi[a + n] == Tag(h.sz[a] - n, true)
    requires SameHeads(m, m', h.sz, a)
    ensures HeadAt(m', h', b)
  {
    CutShape(h, h', a, n);
    TagReads(n, PrevInuse(m.hi[a]));
    TagReads(h.sz[a] - n, true);
    hide Tag, ChunkSize, PrevInuse, Cut;
    assert Next(h.sz, a) == a + h.sz[a] && HeadAt(m, h, a);
    if b in h.sz && b != a {
      assert HeadAt(m, h, b);
      assert Next(h'.sz, b) == Next(h.sz, b);
    }
  }

  // ---------------------------------------------------------------- what leaves the tags alone

  /** Only size words at chunk addresses matter to Heads. */
  lemma HeadsFrame(m: Mem, m': Mem, h: Layout)
    requires Heads(m, h) && Tiled(h) && SameHeads(m, m', h.sz, h.base - 1)
    ensures Heads(m', h)
  {
    hide Tag, ChunkSize, PrevInuse;
    forall a | a in h.sz
      ensures HeadAt(m', h, a)
    {
      assert HeadAt(m, h, a);
    }
  }

  /** m' differs from m at most in link words: those of chunks in F, and those of bin headers. */
  ghost predicate LinksOnly(m: Mem, m': Mem, F: set<int>)
  {
    && (forall u {:trigger m'.lo[u]} :: u >= 0 && u - 1 !in F ==> m'.lo[u] == m.lo[u])
    && (forall u {:trigger m'.hi[u]} :: u >= 0 && u - 1 !in F ==> m'.hi[u] == m.hi[u])
  }

  /** Link words of chunks that are not live are neither tags nor payload. */
  lemma LinkWrites(m: Mem, m': Mem, h: Layout, F: set<int>)
    requires Tiled(h) && Heads(m, h) && LinksOnly(m, m', F)
    requires forall x :: x in F ==> x in h.sz && !h.Live(x)
    ensures Heads(m', h) && SamePayloads(m, m', h, h.base - 1)
    ensures forall a {:trigger a in h.sz} :: a in h.sz ==> m'.lo[a] == m.lo[a]
  {
    forall a | a in h.sz
      ensures m'.hi[a] == m.hi[a] && m'.lo[a] == m.lo[a]
    {
      NotALink(h, F, a);
    }
    HeadsFrame(m, m', h);
    forall a | h.Live(a)
      ensures SamePayload(m, m', a, h.sz[a])
    {
      LivePayload(m, m', h, F, a);
    }
  }

  lemma Apart(h: Layout, a: int, b: int)
    requires Tiled(h) && a in h.sz && b in h.sz && a < b
    ensures Next(h.sz, a) <= b && Next(h.sz, a) >= a + MINSIZE
  {
  }

  lemma NotALink(h: Layout, F: set<int>, a: int)
    requires Tiled(h) && a in h.sz && forall x :: x in F ==> x in h.sz
    ensures a - 1 !in F
  {
    if a - 1 in F {
      Apart(h, a - 1, a);
    }
  }

  lemma PayloadUntouched(m: Mem, m': Mem, F: set<int>, a: int, n: int)
    requires LinksOnly(m, m', F) && 0 <= a && n > 0
    requires forall x {:trigger x in F} :: a <= x < a + n ==> x !in F
    ensures SamePayload(m, m', a, n)
  {
    assert a + n - 1 !in F;
    forall u | a < u < a + n
      ensures SameUnit(m, m', u)
    {
      assert u - 1 !in F;
    }
  }

  lemma LivePayload(m: Mem, m': Mem, h: Layout, F: set<int>, a: int)
    requires Tiled(h) && LinksOnly(m, m', F) && h.Live(a)
    requires forall x :: x in F ==> x in h.sz && !h.Live(x)
    ensures SamePayload(m, m', a, h.sz[a])
  {
    hide SamePayload, LinksOnly;
    forall x {:trigger x in F} | a <= x < a + h.sz[a]
      ensures x !in F
    {
      if x in F {
        Apart(h, a, x);
      }
    }
    assert h.sz[a] > 0 && a >= 0;
    PayloadUntouched(m, m', F, a, h.sz[a]);
  }

  // ---------------------------------------------------------------- the arena as a row of chunks

  /** The chunks from a on, in the order of their addresses. */
  ghost function Row(h: Layout, a: int): seq<int>
    requires Tiled(h) && a in h.sz
    decreases h.end - a
  {
    if a == h.top then [a] else LastEnds(h, a); [a] + Row(h, Next(h.sz, a))
  }

  lemma LastEnds(h: Layout, a: int)
    requires Tiled(h) && a in h.sz
    ensures a < Next(h.sz, a) <= h.end && (a != h.top ==> Next(h.sz, a) in h.sz)
  {
    assert a != h.top ==> Next(h.sz, a) <= h.top < Next(h.sz, h.top);
  }

  ghost function TotalSize(sz: map<int, int>, row: seq<int>): int
  {
    if row == [] then 0 else (if row[0] in sz then sz[row[0]] else 0) + TotalSize(sz, row[1..])
  }

  /** Every chunk from a on is in the row, */
  lemma {:induction false} RowComplete(h: Layout, a: int)
    requires Tiled(h) && a in h.sz
    ensures Row(h, a) != [] && Row(h, a)[0] == a
    ensures forall x {:trigger x in h.sz} {:trigger x in Row(h, a)} :: x in Row(h, a) <==> x in h.sz && x >= a
    decreases h.end - a
  {
    LastEnds(h, a);
    TopIsLast(h);
    hide Tiled;
    if a != h.top {
      var n := Next(h.sz, a);
      NextIsNext(h, a);
      RowComplete(h, n);
      assert Row(h, a) == [a] + Row(h, n);
    }
  }

  lemma TopIsLast(h: Layout)
    requires Tiled(h)
    ensures forall x {:trigger x in h.sz} :: x in h.sz ==> x <= h.top
  {
  }

  lemma NextIsNext(h: Layout, a: int)
    requires Tiled(h) && a in h.sz
    ensures forall x {:trigger x in h.sz} :: x in h.sz && x > a ==> x >= Next(h.sz, a)
  {
  }

  /** none is in it twice, */
  lemma {:induction false} RowAscends(h: Layout, a: int, i: int, j: int)
    requires Tiled(h) && a in h.sz && 0 <= i < j < |Row(h, a)|
    ensures Row(h, a)[i] < Row(h, a)[j]
    decreases h.end - a
  {
    LastEnds(h, a);
    hide Tiled;
    var n := Next(h.sz, a);
    assert Row(h, a) == [a] + Row(h, n);
    RowComplete(h, n);
    assert Row(h, n)[j - 1] in Row(h, n);
    if i > 0 {
      RowAscends(h, n, i - 1, j - 1);
    }
  }

  /** and their sizes make up the arena. */
  lemma {:induction false} RowTotal(h: Layout, a: int)
    requires Tiled(h) && a in h.sz
    ensures TotalSize(h.sz, Row(h, a)) == h.end - a
    decreases h.end - a
  {
    LastEnds(h, a);
    if a == h.top {
      assert TotalSize(h.sz, [a]) == h.sz[a] + TotalSize(h.sz, []);
    } else {
      hide Tiled;
      var n := Next(h.sz, a);
      RowTotal(h, n);
      assert Row(h, a)[1..] == Row(h, n) && Row(h, a)[0] == a;
    }
  }
}
