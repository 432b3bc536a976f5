/** The bins of dlmalloc.c: circular doubly linked lists threaded through the free chunks themselves. */
module FreeLists {
  import opened Chunks
  import Limbs

  const NAV: int := 128

  /** bin_at(i): a header that is used like a chunk; only its two link words exist. */
  function BinAt(i: int): int
  {
    i - 1000
  }

  function Fd(m: Mem, p: int): int
  {
    m.lo[p + 1]
  }

  function Bk(m: Mem, p: int): int
  {
    m.hi[p + 1]
  }

  function SetFd(m: Mem, p: int, q: int): Mem
  {
    m.(lo := m.lo[p + 1 := q])
  }

  function SetBk(m: Mem, p: int, q: int): Mem
  {
    m.(hi := m.hi[p + 1 := q])
  }

  // ---------------------------------------------------------------- one ring

  /** The stops on a trip round the list in fd direction, header to header. */
  ghost function Cycle(b: int, L: seq<int>): seq<int>
  {
    [b] + L + [b]
  }

  ghost predicate LinkAt(m: Mem, b: int, L: seq<int>, k: int)
    requires 0 <= k <= |L|
  {
    Fd(m, Cycle(b, L)[k]) == Cycle(b, L)[k + 1] && Bk(m, Cycle(b, L)[k + 1]) == Cycle(b, L)[k]
  }

  ghost predicate Ring(m: Mem, b: int, L: seq<int>)
  {
    forall k {:trigger LinkAt(m, b, L, k)} :: 0 <= k <= |L| ==> LinkAt(m, b, L, k)
  }

  /** Headers are below all chunks, and no chunk occurs twice. */
  ghost predicate Members(b: int, L: seq<int>)
  {
    && b < 0
    && (forall k :: 0 <= k < |L| ==> L[k] >= 0)
    && (forall j, k :: 0 <= j < |L| && 0 <= k < |L| && L[j] == L[k] ==> j == k)
  }

  lemma NodeUnits(b: int, L: seq<int>, j: int, k: int)
    requires Members(b, L) && 0 <= j <= |L| && 0 <= k <= |L| && j != k
    ensures Cycle(b, L)[j] != Cycle(b, L)[k] && Cycle(b, L)[j + 1] != Cycle(b, L)[k + 1]
  {
  }

  function Without(L: seq<int>, k: int): seq<int>
    requires 0 <= k < |L|
  {
    L[..k] + L[k + 1..]
  }

  function With(L: seq<int>, k: int, p: int): seq<int>
    requires 0 <= k <= |L|
  {
    L[..k] + [p] + L[k..]
  }

  /** unlink(P, BK, FD) */
  function UnlinkMem(m: Mem, p: int): Mem
  {
    SetFd(SetBk(m, Fd(m, p), Bk(m, p)), Bk(m, p), Fd(m, p))
  }

  lemma UnlinkRing(m: Mem, b: int, L: seq<int>, k: int)
    requires Ring(m, b, L) && Members(b, L) && 0 <= k < |L|
    ensures Ring(UnlinkMem(m, L[k]), b, Without(L, k))
    ensures Bk(m, L[k]) == Cycle(b, L)[k] && Fd(m, L[k]) == Cycle(b, L)[k + 2]
  {
    assert LinkAt(m, b, L, k) && LinkAt(m, b, L, k + 1);
    var m', L' := UnlinkMem(m, L[k]), Without(L, k);
    forall j | 0 <= j <= |L'|
      ensures LinkAt(m', b, L', j)
    {
      UnlinkAt(m, b, L, k, j);
    }
  }

  lemma UnlinkAt(m: Mem, b: int, L: seq<int>, k: int, j: int)
    requires Ring(m, b, L) && Members(b, L) && 0 <= k < |L| && 0 <= j < |L|
    requires Bk(m, L[k]) == Cycle(b, L)[k] && Fd(m, L[k]) == Cycle(b, L)[k + 2]
    ensures LinkAt(UnlinkMem(m, L[k]), b, Without(L, k), j)
  {
    var i := if j <= k then j else j + 1;
    var c, c' := Cycle(b, L), Cycle(b, Without(L, k));
    assert c'[j] == c[i];
    assert c'[j + 1] == c[if j < k then j + 1 else j + 2];
    if j != k {
      assert LinkAt(m, b, L, i);
      NodeUnits(b, L, i, k);
      NodeUnits(b, L, i, k + 1);
    }
  }

  /** The two-way insertion of frontlink: p between bk and fd. */
  function InsertMem(m: Mem, p: int, bk: int, fd: int): Mem
  {
    SetBk(SetFd(SetFd(SetBk(m, p, bk), p, fd), bk, p), fd, p)
  }

  lemma InsertReads(m: Mem, p: int, bk: int, fd: int)
    requires p != bk && p != fd
    ensures var m' := InsertMem(m, p, bk, fd);
      && Fd(m', p) == fd && Bk(m', p) == bk && Fd(m', bk) == p && Bk(m', fd) == p
      && (forall q {:trigger Fd(m', q)} :: q != p && q != bk ==> Fd(m', q) == Fd(m, q))
      && (forall q {:trigger Bk(m', q)} :: q != p && q != fd ==> Bk(m', q) == Bk(m, q))
  {
  }

  lemma InsertRing(m: Mem, b: int, L: seq<int>, k: int, p: int)
    requires Ring(m, b, L) && Members(b, L) && 0 <= k <= |L| && p >= 0 && p !in L
    ensures Ring(InsertMem(m, p, Cycle(b, L)[k], Cycle(b, L)[k + 1]), b, With(L, k, p))
  {
    var c := Cycle(b, L);
    assert forall i :: 0 <= i < |c| ==> c[i] != p;
    InsertReads(m, p, c[k], c[k + 1]);
    var m', L' := InsertMem(m, p, c[k], c[k + 1]), With(L, k, p);
    forall j | 0 <= j <= |L'|
      ensures LinkAt(m', b, L', j)
    {
      hide InsertMem;
      InsertAt(m, m', b, L, k, p, j);
    }
  }

  lemma InsertAt(m: Mem, m': Mem, b: int, L: seq<int>, k: int, p: int, j: int)
    requires Ring(m, b, L) && Members(b, L) && 0 <= k <= |L| && p >= 0 && p !in L && 0 <= j <= |L| + 1
    requires var c := Cycle(b, L);
      && Fd(m', p) == c[k + 1] && Bk(m', p) == c[k] && Fd(m', c[k]) == p && Bk(m', c[k + 1]) == p
      && (forall q :: q != p && q != c[k] ==> Fd(m', q) == Fd(m, q))
      && (forall q :: q != p && q != c[k + 1] ==> Bk(m', q) == Bk(m, q))
    ensures LinkAt(m', b, With(L, k, p), j)
  {
    hide Fd, Bk;
    var c, c' := Cycle(b, L), Cycle(b, With(L, k, p));
    assert forall i :: 0 <= i < |c| ==> c[i] != p;
    assert c'[j] == if j <= k then c[j] else if j == k + 1 then p else c[j - 1];
    assert c'[j + 1] == if j < k then c[j + 1] else if j == k then p else c[j];
    if j < k {
      assert LinkAt(m, b, L, j);
      NodeUnits(b, L, j, k);
    } else if j > k + 1 {
      assert LinkAt(m, b, L, j - 1);
      NodeUnits(b, L, j - 1, k);
    }
  }

  /** A ring only depends on the link words of its own nodes. */
  lemma RingFrame(m: Mem, m': Mem, b: int, L: seq<int>)
    requires Ring(m, b, L)
    requires forall p :: p == b || p in L ==> Fd(m', p) == Fd(m, p) && Bk(m', p) == Bk(m, p)
    ensures Ring(m', b, L)
  {
    forall k | 0 <= k <= |L|
      ensures LinkAt(m', b, L, k)
    {
      assert LinkAt(m, b, L, k);
      var c := Cycle(b, L);
      assert c[k] == b || c[k] in L;
      assert c[k + 1] == b || c[k + 1] in L;
    }
  }

  // ---------------------------------------------------------------- all rings

  ghost predicate Disjoint(lists: seq<seq<int>>)
  {
    forall i, j, x {:trigger x in lists[i], x in lists[j]} ::
      0 <= i < |lists| && 0 <= j < |lists| && x in lists[i] && x in lists[j] ==> i == j
  }

  /** Every bin's list is linked up, and no chunk is in two of them. Bin 0 is only the place of top. */
  ghost predicate Linked(m: Mem, lists: seq<seq<int>>)
  {
    && |lists| == NAV && lists[0] == [] && Disjoint(lists)
    && forall i {:trigger lists[i]} :: 1 <= i < NAV ==> Members(BinAt(i), lists[i]) && Ring(m, BinAt(i), lists[i])
  }

  /** A change confined to the link words of bin i and of chunk p leaves the other bins alone. */
  lemma OtherRings(m: Mem, m': Mem, lists: seq<seq<int>>, i: int, p: int, j: int)
    requires Linked(m, lists) && 1 <= i < NAV && 1 <= j < NAV && i != j
    requires p in lists[i] || (p >= 0 && p !in lists[j])
    requires forall q :: q != p && q != BinAt(i) && q !in lists[i] ==> Fd(m', q) == Fd(m, q) && Bk(m', q) == Bk(m, q)
    ensures Ring(m', BinAt(j), lists[j])
  {
    assert Members(BinAt(j), lists[j]);
    hide Ring, Fd, Bk;
    forall q | q == BinAt(j) || q in lists[j]
      ensures Fd(m', q) == Fd(m, q) && Bk(m', q) == Bk(m, q)
    {
      assert q in lists[j] ==> q !in lists[i];
    }
    RingFrame(m, m', BinAt(j), lists[j]);
  }

  lemma UnlinkReads(m: Mem, b: int, L: seq<int>, k: int)
    requires Ring(m, b, L) && 0 <= k < |L|
    ensures forall q :: q != b && q !in L ==>
      Fd(UnlinkMem(m, L[k]), q) == Fd(m, q) && Bk(UnlinkMem(m, L[k]), q) == Bk(m, q)
  {
    assert LinkAt(m, b, L, k) && LinkAt(m, b, L, k + 1);
    var c := Cycle(b, L);
    assert c[k] == b || c[k] in L;
    assert c[k + 2] == b || c[k + 2] in L;
  }

  lemma WithoutMembers(L: seq<int>, k: int, x: int)
    requires 0 <= k < |L|
    ensures x in Without(L, k) ==> x in L
    ensures x in L && x != L[k] ==> x in Without(L, k)
    ensures (forall j :: 0 <= j < |L| && j != k ==> L[j] != L[k]) ==> L[k] !in Without(L, k)
  {
    if x in L && x != L[k] {
      var j :| 0 <= j < |L| && L[j] == x;
      assert Without(L, k)[if j < k then j else j - 1] == x;
    }
  }

  lemma UnlinkLinked(m: Mem, lists: seq<seq<int>>, i: int, k: int)
    requires Linked(m, lists) && 1 <= i < NAV && 0 <= k < |lists[i]|
    ensures Linked(UnlinkMem(m, lists[i][k]), lists[i := Without(lists[i], k)])
  {
    var L, p := lists[i], lists[i][k];
    var m', lists' := UnlinkMem(m, p), lists[i := Without(L, k)];
    UnlinkRing(m, BinAt(i), L, k);
    UnlinkReads(m, BinAt(i), L, k);
    hide UnlinkMem, Ring;
    forall j | 1 <= j < NAV
      ensures Members(BinAt(j), lists'[j]) && Ring(m', BinAt(j), lists'[j])
    {
      if j != i {
        OtherRings(m, m', lists, i, p, j);
      }
    }
    forall x
      ensures x in Without(L, k) ==> x in L
    {
      WithoutMembers(L, k, x);
    }
  }

  lemma WithMembers(L: seq<int>, k: int, p: int, x: int)
    requires 0 <= k <= |L|
    ensures x in With(L, k, p) <==> x == p || x in L
  {
    if x in L {
      var j :| 0 <= j < |L| && L[j] == x;
      assert With(L, k, p)[if j < k then j else j + 1] == x;
    }
    assert With(L, k, p)[k] == p;
  }

  lemma InsertLinked(m: Mem, lists: seq<seq<int>>, i: int, k: int, p: int)
    requires Linked(m, lists) && 1 <= i < NAV && 0 <= k <= |lists[i]|
    requires p >= 0 && forall j :: 0 <= j < NAV ==> p !in lists[j]
    ensures var c := Cycle(BinAt(i), lists[i]);
      Linked(InsertMem(m, p, c[k], c[k + 1]), lists[i := With(lists[i], k, p)])
  {
    var c, lists' := Cycle(BinAt(i), lists[i]), lists[i := With(lists[i], k, p)];
    var m' := InsertMem(m, p, c[k], c[k + 1]);
    InsertDisjoint(lists, i, k, p);
    hide InsertMem, Ring, Members, Disjoint;
    forall j | 1 <= j < NAV
      ensures Members(BinAt(j), lists'[j]) && Ring(m', BinAt(j), lists'[j])
    {
      InsertedRing(m, lists, i, k, p, j);
    }
  }

  lemma InsertedOther(m: Mem, lists: seq<seq<int>>, i: int, k: int, p: int, j: int)
    requires Linked(m, lists) && 1 <= i < NAV && 0 <= k <= |lists[i]| && 1 <= j < NAV && j != i
    requires p >= 0 && p !in lists[i] && p !in lists[j]
    ensures var c := Cycle(BinAt(i), lists[i]);
      Ring(InsertMem(m, p, c[k], c[k + 1]), BinAt(j), lists[j])
  {
    hide InsertMem, Ring, Fd, Bk;
    var L, c := lists[i], Cycle(BinAt(i), lists[i]);
    assert c[k] == BinAt(i) || c[k] in L;
    assert c[k + 1] == BinAt(i) || c[k + 1] in L;
    InsertReads(m, p, c[k], c[k + 1]);
    OtherRings(m, InsertMem(m, p, c[k], c[k + 1]), lists, i, p, j);
  }

  lemma InsertedRing(m: Mem, lists: seq<seq<int>>, i: int, k: int, p: int, j: int)
    requires Linked(m, lists) && 1 <= i < NAV && 0 <= k <= |lists[i]|
    requires p >= 0 && forall j :: 0 <= j < NAV ==> p !in lists[j]
    requires 1 <= j < NAV
    ensures var c := Cycle(BinAt(i), lists[i]);
      var L' := if j == i then With(lists[i], k, p) else lists[j];
      Members(BinAt(j), L') && Ring(InsertMem(m, p, c[k], c[k + 1]), BinAt(j), L')
  {
    hide InsertMem, Ring, Cycle;
    var L, c := lists[i], Cycle(BinAt(i), lists[i]);
    assert Members(BinAt(j), lists[j]);
    assert p !in lists[i] && p !in lists[j];
    if j == i {
      InsertRing(m, BinAt(i), L, k, p);
    } else {
      InsertedOther(m, lists, i, k, p, j);
    }
  }

  lemma InsertDisjoint(lists: seq<seq<int>>, i: int, k: int, p: int)
    requires Disjoint(lists) && 0 <= i < |lists| && 0 <= k <= |lists[i]|
    requires forall j :: 0 <= j < |lists| ==> p !in lists[j]
    ensures Disjoint(lists[i := With(lists[i], k, p)])
  {
    forall x
      ensures x in With(lists[i], k, p) <==> x == p || x in lists[i]
    {
      WithMembers(lists[i], k, p, x);
    }
  }

  /** link_last_remainder(P) and clear_last_remainder */
  function LinkLast(m: Mem, p: int): Mem
  {
    SetBk(SetFd(SetBk(SetFd(m, BinAt(1), p), BinAt(1), p), p, BinAt(1)), p, BinAt(1))
  }

  function ClearLast(m: Mem): Mem
  {
    SetBk(SetFd(m, BinAt(1), BinAt(1)), BinAt(1), BinAt(1))
  }

  lemma LinkLastLinked(m: Mem, lists: seq<seq<int>>, p: int)
    requires Linked(m, lists) && p >= 0 && forall j :: 0 <= j < NAV && j != 1 ==> p !in lists[j]
    ensures Linked(LinkLast(m, p), lists[1 := [p]])
  {
    var m', lists' := LinkLast(m, p), lists[1 := [p]];
    forall k | 0 <= k <= 1
      ensures LinkAt(m', BinAt(1), [p], k)
    {
      assert Cycle(BinAt(1), [p]) == [BinAt(1), p, BinAt(1)];
    }
    assert forall q :: q != p && q != BinAt(1) ==> Fd(m', q) == Fd(m, q) && Bk(m', q) == Bk(m, q);
    hide LinkLast, LinkAt;
    forall j | 1 <= j < NAV
      ensures Members(BinAt(j), lists'[j]) && Ring(m', BinAt(j), lists'[j])
    {
      if j != 1 {
        OtherRings(m, m', lists, 1, p, j);
      }
    }
  }

  lemma ClearLastLinked(m: Mem, lists: seq<seq<int>>)
    requires Linked(m, lists)
    ensures Linked(ClearLast(m), lists[1 := []])
  {
    var m', lists' := ClearLast(m), lists[1 := []];
    assert LinkAt(m', BinAt(1), [], 0) by {
      assert Cycle(BinAt(1), []) == [BinAt(1), BinAt(1)];
    }
    assert forall q :: q != BinAt(1) ==> Fd(m', q) == Fd(m, q) && Bk(m', q) == Bk(m, q);
    hide ClearLast, LinkAt;
    forall j | 1 <= j < NAV
      ensures Members(BinAt(j), lists'[j]) && Ring(m', BinAt(j), lists'[j])
    {
      if j != 1 {
        assert lists'[j] == lists[j] && Members(BinAt(j), lists[j]);
        RingFrame(m, m', BinAt(j), lists[j]);
      }
    }
  }

  /** p->fd == last_remainder, for a chunk in some bin, tells whether it is the last remainder. */
  lemma IsLastRemainder(m: Mem, lists: seq<seq<int>>, i: int, p: int)
    requires Linked(m, lists) && 1 <= i < NAV && p in lists[i] && |lists[1]| <= 1
    ensures Fd(m, p) == BinAt(1) <==> i == 1
  {
    var k :| 0 <= k < |lists[i]| && lists[i][k] == p;
    assert Members(BinAt(i), lists[i]) && LinkAt(m, BinAt(i), lists[i], k + 1);
    assert Cycle(BinAt(i), lists[i])[k + 1] == p;
  }

  // ---------------------------------------------------------------- which bin

  /** bin_index of a size given in units. */
  function BinIndex(n: int): (i: int)
    ensures n >= MINSIZE ==> 4 <= i <= 126
  {
    var s := 16 * n;
    if s / 512 == 0 then s / 8
    else if s / 512 <= 4 then 56 + s / 64
    else if s / 512 <= 20 then 91 + s / 512
    else if s / 512 <= 84 then 110 + s / 4096
    else if s / 512 <= 340 then 119 + s / 32768
    else if s / 512 <= 1364 then 124 + s / 262144
    else 126
  }

  /** Larger chunks never go into lower bins, and every chunk has a bin of its own kind. */
  lemma BinIndexMonotone(n: int, n': int)
    requires MINSIZE <= n <= n'
    ensures 4 <= BinIndex(n) <= BinIndex(n') <= 126
    ensures n' < 32 && BinIndex(n) == BinIndex(n') ==> n == n'
    ensures n < 32 ==> BinIndex(n) == 2 * n < 63
    ensures n >= 32 ==> BinIndex(n) >= 64
  {
  }

  // ---------------------------------------------------------------- the block bitmap

  /** Bit k of binblocks. */
  predicate Bit(b: nat, k: nat)
  {
    if k == 0 then b % 2 == 1 else Bit(b / 2, k - 1)
  }

  /** mark_binblock and the clearing of a block: or-ing in, and masking out, 1 << k. */
  function MarkBlock(b: nat, k: nat): nat
  {
    if Bit(b, k) then b else b + Limbs.Pow(2, k)
  }

  function ClearBlock(b: nat, k: nat): (r: int)
  {
    if Bit(b, k) then b - Limbs.Pow(2, k) else b
  }

  lemma {:induction false} MarkBits(b: nat, k: nat, j: nat)
    ensures Bit(MarkBlock(b, k), j) <==> j == k || Bit(b, j)
  {
    if !Bit(b, k) {
      if k == 0 {
        assert (b + 1) / 2 == b / 2;
      } else {
        MarkBits(b / 2, k - 1, if j == 0 then 0 else j - 1);
        assert (b + 2 * Limbs.Pow(2, k - 1)) / 2 == b / 2 + Limbs.Pow(2, k - 1);
      }
    }
  }

  lemma {:induction false} ClearBits(b: nat, k: nat, j: nat)
    ensures ClearBlock(b, k) >= 0
    ensures Bit(ClearBlock(b, k), j) <==> j != k && Bit(b, j)
  {
    if Bit(b, k) {
      if k == 0 {
        assert (b - 1) / 2 == b / 2;
      } else {
        ClearBits(b / 2, k - 1, if j == 0 then 0 else j - 1);
        assert (b - 2 * Limbs.Pow(2, k - 1)) / 2 == b / 2 - Limbs.Pow(2, k - 1);
      }
    }
  }

  /** (1 << k) <= binblocks means that some block from k on is marked: what makes the search stop. */
  lemma {:induction false} SomeBlockFrom(b: nat, k: nat) returns (j: nat)
    requires Limbs.Pow(2, k) <= b
    ensures j >= k && Bit(b, j)
  {
    if k > 0 {
      j := SomeBlockFrom(b / 2, k - 1);
      j := j + 1;
    } else if b % 2 == 1 {
      j := 0;
    } else {
      j := SomeBlockFrom(b / 2, 0);
      j := j + 1;
    }
  }

  /** The converse: a marked block from k on makes the bitmap at least 1 << k. */
  lemma {:induction false} BlockBound(b: nat, k: nat, j: nat)
    requires Bit(b, j) && k <= j
    ensures Limbs.Pow(2, k) <= b
  {
    if k > 0 {
      BlockBound(b / 2, k - 1, j - 1);
    } else if j > 0 {
      BlockBound(b / 2, 0, j - 1);
    }
  }

  // ---------------------------------------------------------------- what the bins hold

  ghost predicate Sorted(sz: map<int, int>, L: seq<int>)
  {
    && (forall x :: x in L ==> x in sz)
    && forall j, k :: 0 <= j <= k < |L| ==> sz[L[j]] >= sz[L[k]]
  }

  /** Each chunk of F is in exactly one bin: the last remainder's, or the sorted one its size belongs to. */
  ghost predicate Binned(sz: map<int, int>, F: set<int>, lists: seq<seq<int>>, blocks: nat)
  {
    && |lists| == NAV && |lists[1]| <= 1 && lists[0] == []
    && (forall x {:trigger x in F} :: x in F ==> x in sz && x >= 0 && sz[x] >= MINSIZE)
    && (forall i, x {:trigger x in lists[i]} :: 0 <= i < NAV && x in lists[i] ==> x in F)
    && (forall x {:trigger x in F} :: x in F ==> x in lists[1] || x in lists[BinIndex(sz[x])])
    && (forall i, x {:trigger x in lists[i]} :: 2 <= i < NAV && x in lists[i] ==> BinIndex(sz[x]) == i)
    && (forall i {:trigger lists[i]} :: 2 <= i < NAV ==> Sorted(sz, lists[i]))
    && (forall i {:trigger lists[i]} :: 2 <= i < NAV && lists[i] != [] ==> Bit(blocks, i / 4))
  }

  /** unlink, as far as the contents of the bins go. */
  lemma BinnedRemove(sz: map<int, int>, F: set<int>, lists: seq<seq<int>>, blocks: nat, i: int, k: int)
    requires Binned(sz, F, lists, blocks) && Disjoint(lists) && 1 <= i < NAV && 0 <= k < |lists[i]|
    requires forall j :: 0 <= j < |lists[i]| && j != k ==> lists[i][j] != lists[i][k]
    ensures Binned(sz, F - {lists[i][k]}, lists[i := Without(lists[i], k)], blocks)
  {
    var L, p := lists[i], lists[i][k];
    var lists', F' := lists[i := Without(L, k)], F - {p};
    assert p in lists[i] && L != [];
    forall x
      ensures x in Without(L, k) <==> x in L && x != p
    {
      WithoutMembers(L, k, x);
    }
    hide BinIndex, Bit;
    forall x | x in F'
      ensures x in lists'[1] || x in lists'[BinIndex(sz[x])]
    {
      assert x in F;
    }
    if i >= 2 {
      SortedWithout(sz, L, k);
    }
  }

  lemma SortedWithout(sz: map<int, int>, L: seq<int>, k: int)
    requires Sorted(sz, L) && 0 <= k < |L|
    ensures Sorted(sz, Without(L, k))
  {
    forall x | x in Without(L, k)
      ensures x in sz
    {
      WithoutMembers(L, k, x);
    }
  }

  /** Sizes only matter for the chunks that are binned by size. */
  lemma BinnedFrame(sz: map<int, int>, sz': map<int, int>, F: set<int>, lists: seq<seq<int>>, blocks: nat)
    requires Binned(sz, F, lists, blocks)
    requires forall x :: x in F ==> x in sz' && sz'[x] >= MINSIZE
    requires forall x :: x in F && x !in lists[1] ==> sz'[x] == sz[x]
    requires Disjoint(lists)
    ensures Binned(sz', F, lists, blocks)
  {
    hide BinIndex, Bit;
    forall i | 2 <= i < NAV
      ensures Sorted(sz', lists[i])
    {
      assert Sorted(sz, lists[i]);
      forall x | x in lists[i]
        ensures x in F && sz'[x] == sz[x]
      {
      }
    }
  }

  /** link_last_remainder into the empty slot, or over the chunk that was there. */
  lemma BinnedLast(sz: map<int, int>, F: set<int>, lists: seq<seq<int>>, blocks: nat, p: int)
    requires Binned(sz, F, lists, blocks) && Disjoint(lists) && p in sz && p >= 0 && sz[p] >= MINSIZE
    requires forall j :: 2 <= j < NAV ==> p !in lists[j]
    ensures Binned(sz, F - (set x | x in lists[1]) + {p}, lists[1 := [p]], blocks)
  {
    hide BinIndex, Bit;
  }

  lemma BinnedClear(sz: map<int, int>, F: set<int>, lists: seq<seq<int>>, blocks: nat)
    requires Binned(sz, F, lists, blocks) && Disjoint(lists)
    ensures Binned(sz, F - (set x | x in lists[1]), lists[1 := []], blocks)
  {
    hide BinIndex, Bit;
  }

  /** The k-th place is where a chunk of n units belongs: larger ones before it, smaller ones after. */
  ghost predicate Place(sz: map<int, int>, L: seq<int>, k: int, n: int)
  {
    && 0 <= k <= |L|
    && forall j :: 0 <= j < |L| ==> L[j] in sz && if j < k then sz[L[j]] >= n else sz[L[j]] <= n
  }

  /** frontlink, as far as the contents of the bins go. */
  lemma BinnedInsert(sz: map<int, int>, F: set<int>, lists: seq<seq<int>>, blocks: nat, blocks': nat, k: int, p: int)
    requires Binned(sz, F, lists, blocks) && p !in F && p in sz && p >= 0 && sz[p] >= MINSIZE
    requires Place(sz, lists[BinIndex(sz[p])], k, sz[p])
    requires Bit(blocks', BinIndex(sz[p]) / 4)
    requires forall i :: 2 <= i < NAV && Bit(blocks, i / 4) ==> Bit(blocks', i / 4)
    ensures Binned(sz, F + {p}, lists[BinIndex(sz[p]) := With(lists[BinIndex(sz[p])], k, p)], blocks')
  {
    var i := BinIndex(sz[p]);
    var L := lists[i];
    forall x
      ensures x in With(L, k, p) <==> x == p || x in L
    {
      WithMembers(L, k, p, x);
    }
    hide BinIndex, Bit;
    SortedWith(sz, L, k, p);
    var lists' := lists[i := With(L, k, p)];
    forall x | x in F + {p}
      ensures x in lists'[1] || x in lists'[BinIndex(sz[x])]
    {
    }
  }

  lemma SortedWith(sz: map<int, int>, L: seq<int>, k: int, p: int)
    requires Sorted(sz, L) && p in sz && Place(sz, L, k, sz[p])
    ensures Sorted(sz, With(L, k, p))
  {
    forall x | x in With(L, k, p)
      ensures x in sz
    {
      WithMembers(L, k, p, x);
    }
  }
}
