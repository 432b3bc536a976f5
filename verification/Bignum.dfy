/**
 The exact integer kernel of dtoa.c in its Pack_32 / ULLong configuration: numbers are arrays of
 32-bit limbs that the routines fill with carry and borrow loops.
 */
module Bignum {
  import opened Limbs

  class Bigint {
    const k: nat
    const x: array<ULong>   // maxwds == x.Length == 2^k
    var sign: bool
    var wds: nat

    /** Balloc(k): room for 2^k limbs, contents unspecified. */
    constructor (k: nat)
      ensures this.k == k && fresh(x) && x.Length == Pow(2, k)
      ensures wds == 0 && !sign
    {
      this.k := k;
      x := new ULong[Pow(2, k)];
      wds, sign := 0, false;
    }

    /** wds == 0 is how mult and quorem can leave a zero; the limb read by do-while loops is then 0. */
    ghost predicate Valid()
      reads this, x
    {
      && x.Length == Pow(2, k) && x.Length > 0
      && wds <= x.Length
      && (wds == 0 ==> x[0] == 0)
    }

    ghost predicate Canonical()
      reads this, x
    {
      Valid() && (wds > 1 ==> x[wds - 1] != 0)
    }

    ghost function Value(): nat
      reads this, x
      requires Valid()
    {
      Val(x[..wds])
    }

    ghost function Limbs(): seq<ULong>
      reads this, x
      requires Valid()
    {
      x[..wds]
    }
  }

  // ---------------------------------------------------------------- multadd, s2b

  function MulAdd(v: nat, m: nat, a: nat): nat
  {
    v * m + a
  }

  /** One limb of a multiply-accumulate: the low half is stored, the high half carried. */
  lemma CarryStep(lo: seq<ULong>, c: ULong, s: seq<ULong>, m: ULong, a: nat, d: ULong, y: ULLong)
    requires |lo| < |s| && d == s[|lo|] && y == Mac(d, m, 0, c)
    requires Val(lo + [c]) == MulAdd(Val(s[..|lo|]), m, a)
    ensures Val(lo + [Lo(y)] + [Hi(y)]) == MulAdd(Val(s[..|lo| + 1]), m, a)
  {
    hide Val;
    var n := |lo|;
    var w := Weight(n);
    ValSnoc(s, n);
    ValAppend(lo, c);
    ValAppend(lo, Lo(y));
    ValAppend(lo + [Lo(y)], Hi(y));
    SplitDigit(y, w, Weight(n + 1));
    CarryArith(Val(lo), Val(s[..n]), c, d, m, a, y, w);
  }

  lemma SplitDigit(y: ULLong, w: nat, w': nat)
    requires w' == BASE * w
    ensures Lo(y) * w + Hi(y) * w' == y * w
  {
    assert Hi(y) * (BASE * w) == (Hi(y) * BASE) * w;
    Distribute(Lo(y), Hi(y) * BASE, w);
  }

  lemma CarryArith(v: nat, u: nat, c: nat, d: nat, m: nat, a: nat, y: nat, w: nat)
    requires y == d * m + c && v + c * w == u * m + a
    ensures v + y * w == (u + d * w) * m + a
  {
    Distribute(d * m, c, w);
    assert (d * m) * w == (d * w) * m;
    Distribute(u, d * w, m);
  }

  lemma Distribute(x: nat, y: nat, w: nat)
    ensures (x + y) * w == x * w + y * w
  {
  }

  lemma ValAppend(s: seq<ULong>, d: ULong)
    ensures Val(s + [d]) == Val(s) + d * Weight(|s|)
  {
    assert (s + [d])[..|s|] == s;
  }

  /** Enough value for the limb count means the top limb is not zero. */
  lemma TopNonZero(s: seq<ULong>)
    requires |s| > 0 && Val(s) >= Weight(|s| - 1)
    ensures s[|s| - 1] != 0
  {
    if s[|s| - 1] == 0 {
      ValBound(s[..|s| - 1]);
    }
  }

  /** The limb loop of multadd over the limbs in use; the carry is one more limb of the result. */
  method MultAddLimbs(x: array<ULong>, wds: nat, m: nat, a: nat) returns (carry: ULong)
    requires 0 < wds <= x.Length
    requires m < BASE && a < BASE
    modifies x
    ensures x[wds..] == old(x[wds..])
    ensures Val(x[..wds] + [carry]) == MulAdd(Val(old(x[..wds])), m, a)
  {
    hide Val, Pow, MulAdd, Mac, Hi, Lo;
    ghost var s := x[..];
    var i := 0;
    carry := a;
    StartCarry(s, m, a);
    assert x[..0] + [carry] == [carry];
    while i < wds
      invariant 0 <= i <= wds
      invariant x[i..] == s[i..]
      invariant Val(x[..i] + [carry]) == MulAdd(Val(s[..i]), m, a)
    {
      assert x[i] == x[i..][0] == s[i];
      var y := Mac(x[i], m, 0, carry);
      ghost var lo := x[..i];
      CarryStep(lo, carry, s, m, a, x[i], y);
      carry := Hi(y);
      x[i] := Lo(y);
      assert x[..i + 1] == lo + [Lo(y)];
      i := i + 1;
    }
    assert s[..wds] == old(x[..wds]);
  }

  lemma StartCarry(s: seq<ULong>, m: nat, a: ULong)
    ensures Val([a]) == MulAdd(Val(s[..0]), m, a) && Val(s[..0]) == 0
  {
    ValOne([a]);
  }

  /** multadd: b*m + a, in place, moving to a number with twice the room when the limbs run out. */
  method MultAdd(b: Bigint, m: nat, a: nat) returns (r: Bigint)
    requires b.Valid()
    requires m < 0x8000_0000 && a < 0x8000_0000
    requires b.wds == 0 ==> a == 0
    modifies b, b.x
    ensures r == b || (fresh(r) && fresh(r.x))
    ensures r.Valid() && r.Value() == MulAdd(old(b.Value()), m, a)
    ensures old(b.Canonical()) && m > 0 ==> r.Canonical()
    ensures old(b.wds) <= r.wds <= old(b.wds) + 1
  {
    var wds := b.wds;
    // The do-while loop body runs once even when no limb is in use.
    var carry := MultAddLimbs(b.x, if wds == 0 then 1 else wds, m, a);
    r := b;
    if wds == 0 {
      ZeroStaysZero(old(b.x[..1]), b.x[..1], carry, m);
    } else if carry != 0 {
      if wds >= b.x.Length {
        r := new Bigint(b.k + 1);
        CopyLimbs(r, b);
      }
      ghost var t := r.x[..wds];
      r.x[wds] := carry;
      assert r.x[..wds + 1] == t + [carry];
      r.wds := wds + 1;
    } else {
      DropZeroTop(b.x[..wds]);
    }
    if m > 0 && old(b.Canonical()) && r.wds == wds && wds > 1 {
      StillTop(old(b.Limbs()), b.Limbs(), m, a);
    }
  }

  lemma ZeroStaysZero(s: seq<ULong>, t: seq<ULong>, c: ULong, m: nat)
    requires |s| == |t| == 1 && s[0] == 0 && Val(t + [c]) == MulAdd(Val(s), m, 0)
    ensures t[0] == 0 && c == 0 && MulAdd(Val([]), m, 0) == 0
  {
    ValOne(s);
    ValOne(t);
    ValAppend(t, c);
  }

  lemma DropZeroTop(s: seq<ULong>)
    ensures Val(s + [0]) == Val(s)
  {
    ValAppend(s, 0);
  }

  lemma StillTop(s: seq<ULong>, t: seq<ULong>, m: nat, a: nat)
    requires |s| == |t| > 0 && s[|s| - 1] != 0 && m > 0 && Val(t) == MulAdd(Val(s), m, a)
    ensures t[|t| - 1] != 0
  {
    ValTop(s);
    Grow(Val(s), m);
    TopNonZero(t);
  }

  /** Bcopy followed by the wds update: the limbs in use move to a larger number. */
  method CopyLimbs(r: Bigint, b: Bigint)
    requires b.Valid() && r.x.Length >= b.x.Length && r.x != b.x && r != b
    requires r.x.Length == Pow(2, r.k)
    modifies r, r.x
    ensures r.wds == b.wds && r.sign == b.sign
    ensures r.x[..b.wds] == b.x[..b.wds]
  {
    var i := 0;
    while i < b.wds
      invariant 0 <= i <= b.wds
      invariant r.x[..i] == b.x[..i]
    {
      r.x[i] := b.x[i];
      i := i + 1;
    }
    r.wds, r.sign := b.wds, b.sign;
  }

  // ---------------------------------------------------------------- mult

  lemma RowStep(lo: seq<ULong>, c: ULong, s: seq<ULong>, t: seq<ULong>, m: ULong, y: ULLong)
    requires |lo| < |s| && |lo| < |t| && y == Mac(s[|lo|], m, t[|lo|], c)
    requires Val(lo + [c]) == MulAdd(Val(s[..|lo|]), m, Val(t[..|lo|]))
    ensures Val(lo + [Lo(y)] + [Hi(y)]) == MulAdd(Val(s[..|lo| + 1]), m, Val(t[..|lo| + 1]))
  {
    hide Val;
    var n := |lo|;
    var w := Weight(n);
    ValSnoc(s, n);
    ValSnoc(t, n);
    ValAppend(lo, c);
    ValAppend(lo, Lo(y));
    ValAppend(lo + [Lo(y)], Hi(y));
    SplitDigit(y, w, Weight(n + 1));
    RowArith(Val(lo), Val(s[..n]), Val(t[..n]), c, s[n], t[n], m, y, w);
  }

  lemma RowArith(v: nat, u: nat, r: nat, c: nat, d: nat, e: nat, m: nat, y: nat, w: nat)
    requires y == d * m + e + c && v + c * w == u * m + r
    ensures v + y * w == (u + d * w) * m + (r + e * w)
  {
    Distribute(d * m + e, c, w);
    Distribute(d * m, e, w);
    assert (d * m) * w == (d * w) * m;
    Distribute(u, d * w, m);
  }

  /** One row of the schoolbook product: the n limbs of xa times y are added into c at off. */
  method MultRow(c: array<ULong>, off: nat, xa: array<ULong>, n: nat, y: ULong)
    requires n <= xa.Length && off + n < c.Length && c != xa
    modifies c
    ensures forall j :: 0 <= j < off || off + n < j < c.Length ==> c[j] == old(c[j])
    ensures Val(c[off..off + n + 1]) == MulAdd(Val(xa[..n]), y, Val(old(c[off..off + n])))
  {
    ghost var s, t := xa[..n], c[off..off + n];
    var j := 0;
    var carry: ULong := 0;
    ghost var lo := [];
    StartCarry(s, y, 0);
    hide *;
    assert s[..0] == t[..0];
    while j < n
      invariant 0 <= j <= n
      invariant forall i :: 0 <= i < off || off + j <= i < c.Length ==> c[i] == old(c[i])
      invariant |lo| == j && forall i :: 0 <= i < j ==> c[off + i] == lo[i]
      invariant Val(lo + [carry]) == MulAdd(Val(s[..j]), y, Val(t[..j]))
    {
      var z := Mac(xa[j], y, c[off + j], carry);
      RowStep(lo, carry, s, t, y, z);
      carry := Hi(z);
      c[off + j] := Lo(z);
      lo := lo + [Lo(z)];
      j := j + 1;
    }
    c[off + n] := carry;
    assert c[off..off + n + 1] == lo + [carry];
    assert s[..n] == s && t[..n] == t;
  }

  /** Adding a row to the partial product extends the multiplier by one limb. */
  lemma ProductStep(c: seq<ULong>, c': seq<ULong>, a: seq<ULong>, b: seq<ULong>, i: nat)
    requires i < |b| && |c| == i + |a| && |c'| == i + |a| + 1
    requires c'[..i] == c[..i]
    requires Val(c) == Val(a) * Val(b[..i])
    requires Val(c'[i..]) == MulAdd(Val(a), b[i], Val(c[i..]))
    ensures Val(c') == Val(a) * Val(b[..i + 1])
  {
    hide *;
    ValSplit(c, i);
    ValSplit(c', i);
    ValSnoc(b, i);
    ProductArith(Val(c[..i]), Val(c[i..]), Val(c), Val(c'[i..]), Val(c'), Val(a), b[i], Val(b[..i]),
                 Val(b[..i + 1]), Weight(i));
  }

  lemma ProductArith(p: nat, q: nat, v: nat, q': nat, v': nat, a: nat, d: nat, b: nat, b': nat, w: nat)
    requires v == p + q * w && v == a * b
    requires q' == MulAdd(a, d, q) && v' == p + q' * w
    requires b' == b + d * w
    ensures v' == a * b'
  {
    Distribute(a * d, q, w);
    assert (a * d) * w == a * (d * w);
    Distribute(b, d * w, a);
  }

  method ClearLimbs(x: array<ULong>, n: nat)
    requires n <= x.Length
    modifies x
    ensures forall j :: 0 <= j < n ==> x[j] == 0
  {
    var i := 0;
    while i < n
      invariant 0 <= i <= n
      invariant forall j :: 0 <= j < i ==> x[j] == 0
    {
      x[i] := 0;
      i := i + 1;
    }
  }

  /** Leading zero limbs do not count towards the value. */
  method TrimLimbs(x: array<ULong>, n: nat) returns (m: nat)
    requires n <= x.Length
    ensures m <= n && (m > 0 ==> x[m - 1] != 0)
    ensures forall j :: m <= j < n ==> x[j] == 0
    ensures Val(x[..m]) == Val(x[..n])
  {
    m := n;
    while m > 0 && x[m - 1] == 0
      invariant m <= n
      invariant forall j :: m <= j < n ==> x[j] == 0
    {
      m := m - 1;
    }
    ValZeroTail(x[..n], m);
    assert x[..n][..m] == x[..m];
  }

  lemma RoomForProduct(k: nat, wa: nat, wb: nat)
    requires wb <= wa <= Pow(2, k)
    ensures wa + wb <= Pow(2, k + 1)
  {
  }

  /** mult: the exact product, without leading zero limbs, in a number of its own. */
  method Mult(a: Bigint, b: Bigint) returns (c: Bigint)
    requires a.Valid() && b.Valid() && a.wds + b.wds > 0
    ensures fresh(c) && fresh(c.x)
    ensures c.Canonical() && (c.wds > 0 ==> c.x[c.wds - 1] != 0)
    ensures c.Value() == a.Value() * b.Value()
  {
    hide *;
    if a.wds < b.wds {
      c := MultOrdered(b, a);
    } else {
      c := MultOrdered(a, b);
    }
  }

  method MultOrdered(a: Bigint, b: Bigint) returns (c: Bigint)
    requires a.Valid() && b.Valid() && 0 < a.wds && b.wds <= a.wds
    ensures fresh(c) && fresh(c.x)
    ensures c.Canonical() && (c.wds > 0 ==> c.x[c.wds - 1] != 0)
    ensures c.Value() == a.Value() * b.Value()
  {
    var k := a.k;
    var wa, wb := a.wds, b.wds;
    var wc := wa + wb;
    if wc > a.x.Length {
      k := k + 1;
    }
    RoomForProduct(a.k, wa, wb);
    c := new Bigint(k);
    ClearLimbs(c.x, wc);
    MultRows(c.x, a.x, wa, b.x, wb);
    wc := TrimLimbs(c.x, wc);
    c.wds := wc;
  }

  method MultRows(c: array<ULong>, a: array<ULong>, wa: nat, b: array<ULong>, wb: nat)
    requires wa <= a.Length && wb <= b.Length && wa + wb <= c.Length && c != a && c != b
    requires forall j :: 0 <= j < wa + wb ==> c[j] == 0
    modifies c
    ensures Val(c[..wa + wb]) == Val(a[..wa]) * Val(b[..wb])
  {
    ValZeroTail(c[..wa], 0);
    var i := 0;
    while i < wb
      invariant 0 <= i <= wb
      invariant forall j :: wa + i <= j < wa + wb ==> c[j] == 0
      invariant Val(c[..wa + i]) == Val(a[..wa]) * Val(b[..i])
    {
      hide *;
      var y := b[i];
      ghost var before := c[..wa + i];
      assert b[..][..i + 1] == b[..i + 1] && b[..][..i] == b[..i];
      if y != 0 {
        assert before[i..] == c[i..i + wa];
        MultRow(c, i, a, wa, y);
        ghost var after := c[..wa + i + 1];
        assert after[i..] == c[i..i + wa + 1] && after[..i] == before[..i];
        ProductStep(before, after, a[..wa], b[..], i);
      } else {
        SkipZeroRow(before, a[..wa], b[..], i);
        assert c[..wa + i + 1] == before + [0];
      }
      i := i + 1;
    }
  }

  lemma SkipZeroRow(c: seq<ULong>, a: seq<ULong>, b: seq<ULong>, i: nat)
    requires i < |b| && b[i] == 0 && Val(c) == Val(a) * Val(b[..i])
    ensures Val(c + [0]) == Val(a) * Val(b[..i + 1])
  {
    DropZeroTop(c);
    ValSnoc(b, i);
  }

  // ---------------------------------------------------------------- pow5mult

  /** What the i-th node of the shared list p5s holds: 5^(4 * 2^i). */
  function Node(i: nat): nat
  {
    Pow(5, 4 * Pow(2, i))
  }

  lemma NodeSquare(i: nat)
    ensures Node(i) * Node(i) == Node(i + 1) && Node(i) > 0
  {
    PowAdd(5, 4 * Pow(2, i), 4 * Pow(2, i));
    PowPositive(5, 4 * Pow(2, i));
  }

  /** One bit of the exponent: square the base and halve. */
  lemma PowHalve(p: nat, k: nat)
    ensures k % 2 == 0 ==> Pow(p, k) == Pow(p * p, k / 2)
    ensures k % 2 == 1 ==> Pow(p, k) == p * Pow(p * p, k / 2)
  {
    assert Pow(p, 2) == p * Pow(p, 1) && Pow(p, 1) == p * Pow(p, 0);
    PowPow(p, 2, k / 2);
    PowAdd(p, k % 2, 2 * (k / 2));
  }

  /** The list p5s: nodes are appended on demand and never change afterwards. */
  class Pow5List {
    var p5s: seq<Bigint>
    ghost var Repr: set<object>

    constructor ()
      ensures Valid() && Repr == {}
    {
      p5s, Repr := [], {};
    }

    ghost predicate Valid()
      reads this, Repr
    {
      && this !in Repr
      && (forall i :: 0 <= i < |p5s| ==> p5s[i] in Repr && p5s[i].x in Repr)
      && forall i :: 0 <= i < |p5s| ==> p5s[i].Canonical() && p5s[i].wds > 0 && p5s[i].Value() == Node(i)
    }

    method Append(n: Bigint)
      requires Valid() && n.Canonical() && n.wds > 0 && n.Value() == Node(|p5s|)
      modifies this
      ensures Valid() && p5s == old(p5s) + [n]
      ensures Repr == old(Repr) + {n, n.x}
    {
      hide Val, Node;
      p5s := p5s + [n];
      Repr := Repr + {n, n.x};
    }

    /** The i-th node, made by squaring its predecessor the first time it is wanted. */
    method Get(i: nat) returns (n: Bigint)
      requires Valid() && i <= |p5s|
      modifies this
      ensures Valid() && i < |p5s| && n == p5s[i]
      ensures old(p5s) <= p5s && fresh(Repr - old(Repr))
    {
      if i == |p5s| {
        if i == 0 {
          n := I2b(625);
          assert Node(0) == 625 by {
            assert Pow(2, 0) == 1;
            assert Pow(5, 1) == 5 * Pow(5, 0);
            assert Pow(5, 2) == 5 * Pow(5, 1);
            assert Pow(5, 3) == 5 * Pow(5, 2);
          }
        } else {
          n := Mult(p5s[i - 1], p5s[i - 1]);
          NodeSquare(i - 1);
          NonZeroHasLimbs(n.Limbs());
        }
        Append(n);
      } else {
        n := p5s[i];
      }
    }
  }

  lemma NonZeroHasLimbs(s: seq<ULong>)
    ensures Val(s) > 0 ==> |s| > 0
  {
  }

  /** i2b */
  method I2b(i: ULong) returns (b: Bigint)
    ensures fresh(b) && fresh(b.x)
    ensures b.Canonical() && b.wds == 1 && b.Value() == i
  {
    b := new Bigint(1);
    b.x[0] := i;
    b.wds := 1;
    ValOne(b.x[..1]);
  }

  function Scaled(v: nat, p: nat): nat
  {
    v * p
  }

  lemma ScaledBit(v: nat, p: nat, k: nat)
    requires k > 0
    ensures k % 2 == 1 ==> Scaled(v * p, Pow(p * p, k / 2)) == Scaled(v, Pow(p, k))
    ensures k % 2 == 0 ==> Scaled(v, Pow(p * p, k / 2)) == Scaled(v, Pow(p, k))
  {
    hide Pow;
    PowHalve(p, k);
  }

  /** The last one of two bits of an exponent, by the table p05. */
  lemma LowBits(v: nat, i: nat, k: nat)
    requires i < 4
    ensures Pow(5, i) == [1, 5, 25, 125][i]
    ensures Scaled(v * Pow(5, i), Pow(Node(0), k)) == Scaled(v, Pow(5, 4 * k + i))
  {
    assert Pow(5, 1) == 5 * Pow(5, 0) && Pow(5, 2) == 5 * Pow(5, 1) && Pow(5, 3) == 5 * Pow(5, 2);
    assert Pow(2, 0) == 1;
    PowPow(5, 4, k);
    PowAdd(5, i, 4 * k);
  }

  /** The squaring loop of pow5mult. */
  method Pow5Bits(b0: Bigint, k0: nat, list: Pow5List) returns (b: Bigint)
    requires b0.Canonical() && b0.wds > 0 && b0.Value() > 0 && k0 > 0
    requires list.Valid() && b0 !in list.Repr && b0.x !in list.Repr
    modifies list
    ensures list.Valid() && old(list.p5s) <= list.p5s && fresh(list.Repr - old(list.Repr))
    ensures b.Canonical() && b.wds > 0
    ensures b.Value() == Scaled(old(b0.Value()), Pow(Node(0), k0))
    ensures b == b0 || (fresh(b) && fresh(b.x))
    ensures b !in list.Repr && b.x !in list.Repr
  {
    hide Val, Pow, Node, Scaled, MulAdd, Weight;
    b := b0;
    var k, idx := k0, 0;
    var p5 := list.Get(0);
    while true
      invariant k > 0 && list.Valid() && idx < |list.p5s| && p5 == list.p5s[idx]
      invariant old(list.p5s) <= list.p5s && fresh(list.Repr - old(list.Repr))
      invariant b == b0 || (fresh(b) && fresh(b.x))
      invariant b !in list.Repr && b.x !in list.Repr
      invariant b.Canonical() && b.wds > 0 && b.Value() > 0
      invariant Scaled(b.Value(), Pow(Node(idx), k)) == Scaled(old(b0.Value()), Pow(Node(0), k0))
      decreases k
    {
      b := Pow5Bit(b, k, idx, list);
      if k / 2 == 0 {
        PowZero(b.Value(), Node(idx + 1));
        break;
      }
      k, idx := k / 2, idx + 1;
      p5 := list.Get(idx);
    }
  }

  lemma PowZero(v: nat, p: nat)
    ensures Scaled(v, Pow(p, 0)) == v
  {
  }

  method Pow5Bit(b0: Bigint, k: nat, idx: nat, list: Pow5List) returns (b: Bigint)
    requires b0.Canonical() && b0.wds > 0 && b0.Value() > 0 && k > 0
    requires list.Valid() && idx < |list.p5s|
    ensures b == b0 || (fresh(b) && fresh(b.x))
    ensures b.Canonical() && b.wds > 0 && b.Value() > 0
    ensures Scaled(b.Value(), Pow(Node(idx + 1), k / 2)) == Scaled(b0.Value(), Pow(Node(idx), k))
  {
    b := b0;
    NodeSquare(idx);
    ScaledBit(b0.Value(), Node(idx), k);
    if k % 2 == 1 {
      b := Mult(b, list.p5s[idx]);
      NonZeroHasLimbs(b.Limbs());
    }
  }

  /** pow5mult: b * 5^k. The shared list only grows, and every node keeps its power of five. */
  method Pow5Mult(b0: Bigint, k0: nat, list: Pow5List) returns (b: Bigint)
    requires b0.Canonical() && b0.wds > 0 && b0.Value() > 0
    requires list.Valid() && b0 !in list.Repr && b0.x !in list.Repr
    modifies b0, b0.x, list
    ensures list.Valid() && old(list.p5s) <= list.p5s && fresh(list.Repr - old(list.Repr))
    ensures b.Canonical() && b.wds > 0 && b.Value() == Scaled(old(b0.Value()), Pow(5, k0))
    ensures b == b0 || (fresh(b) && fresh(b.x))
    ensures b !in list.Repr && b.x !in list.Repr
  {
    var i, k := k0 % 4, k0 / 4;
    LowBits(b0.Value(), i, k);
    b := b0;
    hide Val, Pow, Node, Scaled, Weight;
    if i != 0 {
      b := MultAdd(b, [5, 25, 125][i - 1], 0);
    }
    PowZero(b.Value(), Node(0));
    if k != 0 {
      b := Pow5Bits(b, k, list);
    }
  }

  // ---------------------------------------------------------------- lshift

  /** *x << k and *x >> k on 32-bit words. */
  function Shl(x: ULong, k: nat): ULong
    requires k < 32
  {
    x * Pow(2, k) % 0x1_0000_0000
  }

  function Shr(x: ULong, k: nat): ULong
    requires k <= 32
  {
    PowPositive(2, k);
    DivAtMost(x, Pow(2, k));
    x / Pow(2, k)
  }

  lemma DivAtMost(x: nat, d: nat)
    requires d > 0
    ensures 0 <= x / d <= x
  {
    if x / d > x {
      MulMonotone(x + 1, x / d, d);
      Grow(x + 1, d);
    }
  }

  lemma TwoTo32()
    ensures Pow(2, 32) == BASE
  {
    assert Pow(2, 4) == 16;
    PowAdd(2, 4, 4);
    PowAdd(2, 8, 8);
    PowAdd(2, 16, 16);
  }

  lemma WeightIsPower(n: nat)
    ensures Weight(n) == Pow(2, 32 * n)
  {
    TwoTo32();
    PowPow(2, 32, n);
  }

  /** *x << k | z is the low half of x * 2^k + z, and *x >> (32 - k) its high half: the or adds. */
  lemma ShiftWord(x: ULong, k: nat, z: ULong)
    requires 0 < k < 32 && z < Pow(2, k) < BASE
    ensures Mac(x, Pow(2, k), 0, z) == Shr(x, 32 - k) * BASE + Shl(x, k) + z
    ensures Shl(x, k) + z < BASE && Shr(x, 32 - k) < Pow(2, k)
  {
    TwoTo32();
    PowAdd(2, k, 32 - k);
    PowPositive(2, 32 - k);
    hide Pow;
    ShiftWordArith(x, Pow(2, k), Pow(2, 32 - k), z);
  }

  lemma ShiftWordArith(x: nat, p: nat, q: nat, z: nat)
    requires p * q == BASE && q > 0 && z < p && x < BASE
    ensures x * p == x / q * BASE + x * p % BASE
    ensures x * p % BASE + z < BASE && x / q < p
  {
    var h, l := x / q, x % q;
    assert x == h * q + l && l < q;
    Small(h, p, q, x);
    ShiftArith(x, p, q, h, l);
  }

  lemma Small(h: nat, p: nat, q: nat, x: nat)
    requires h * q <= x < p * q
    ensures h < p
  {
    MulCancel(h, p, q);
  }

  lemma ShiftArith(x: nat, p: nat, q: nat, h: nat, l: nat)
    requires p * q == BASE && q > 0 && x == h * q + l && l < q
    ensures x * p == h * BASE + l * p && l * p <= BASE - p
    ensures (x * p) % BASE == l * p && (h * BASE + l * p) / BASE == h
  {
    Distribute(h * q, l, p);
    assert (h * q) * p == h * (p * q);
    MulMonotone(l + 1, q, p);
    Distribute(l, 1, p);
  }

  lemma ShiftBound(k: nat)
    requires k < 32
    ensures 0 < Pow(2, k) < BASE
  {
    TwoTo32();
    PowPositive(2, k);
    PowAdd(2, k, 32 - k);
    PowPositive(2, 31 - k);
    assert Pow(2, 32 - k) == 2 * Pow(2, 31 - k);
    MulMonotone(2, Pow(2, 32 - k), Pow(2, k));
  }

  /** The loop of lshift for a shift inside a word. */
  method ShiftLimbs(c: array<ULong>, off: nat, x: array<ULong>, n: nat, k: nat) returns (z: ULong)
    requires off + n <= c.Length && n <= x.Length && c != x && 0 < k < 32
    modifies c
    ensures forall j :: 0 <= j < off ==> c[j] == old(c[j])
    ensures Val(c[off..off + n] + [z]) == MulAdd(Val(x[..n]), Pow(2, k), 0)
  {
    hide Val, Pow, MulAdd, Shl, Shr;
    ghost var s := x[..n];
    ShiftBound(k);
    StartCarry(s, Pow(2, k), 0);
    z := 0;
    ghost var lo: seq<ULong> := [];
    assert lo + [z] == [z];
    var i := 0;
    while i < n
      invariant 0 <= i <= n
      invariant forall j :: 0 <= j < off ==> c[j] == old(c[j])
      invariant |lo| == i && forall j :: 0 <= j < i ==> c[off + j] == lo[j]
      invariant z < Pow(2, k) < 0x1_0000_0000
      invariant Val(lo + [z]) == MulAdd(Val(s[..i]), Pow(2, k), 0)
    {
      ShiftStep(lo, z, s, k);
      c[off + i] := Shl(x[i], k) + z;
      z := Shr(x[i], 32 - k);
      lo := lo + [c[off + i]];
      i := i + 1;
    }
    assert c[off..off + n] == lo && s[..n] == s;
  }

  lemma HighAndLow(y: ULLong, h: nat, l: nat)
    requires y == h * BASE + l && l < BASE
    ensures Lo(y) == l && Hi(y) == h
  {
  }

  lemma ShiftStep(lo: seq<ULong>, z: ULong, s: seq<ULong>, k: nat)
    requires |lo| < |s| && 0 < k < 32 && z < Pow(2, k) < 0x1_0000_0000
    requires Val(lo + [z]) == MulAdd(Val(s[..|lo|]), Pow(2, k), 0)
    ensures Shl(s[|lo|], k) + z < 0x1_0000_0000 && Shr(s[|lo|], 32 - k) < Pow(2, k)
    ensures Val(lo + [Shl(s[|lo|], k) + z] + [Shr(s[|lo|], 32 - k)])
      == MulAdd(Val(s[..|lo| + 1]), Pow(2, k), 0)
  {
    hide Val, MulAdd, Pow, Mac, Shl, Shr, Lo, Hi;
    var d := s[|lo|];
    ShiftWord(d, k, z);
    HighAndLow(Mac(d, Pow(2, k), 0, z), Shr(d, 32 - k), Shl(d, k) + z);
    CarryStep(lo, z, s, Pow(2, k), 0, d, Mac(d, Pow(2, k), 0, z));
  }

  lemma ShiftTotal(v: nat, w: nat, n: nat, k: nat)
    requires v == MulAdd(w, Pow(2, k), 0)
    ensures v * Weight(n) == Scaled(w, Pow(2, 32 * n + k))
  {
    WeightIsPower(n);
    PowAdd(2, k, 32 * n);
    assert (w * Pow(2, k)) * Weight(n) == w * (Pow(2, k) * Weight(n));
  }

  /** lshift: b * 2^k in a number of its own. */
  method Lshift(b: Bigint, k: nat) returns (r: Bigint)
    requires b.Valid() && b.wds > 0
    ensures fresh(r) && fresh(r.x) && r.Valid() && r.wds > 0
    ensures r.Value() == Scaled(b.Value(), Pow(2, k))
    ensures b.Canonical() && b.Value() > 0 ==> r.Canonical()
  {
    var n, wds := k / 32, b.wds;
    var n1 := n + wds + 1;
    var k1 := RoomFor(b.k, n1);
    r := new Bigint(k1);
    hide Pow, Val, Scaled, MulAdd;
    ClearLimbs(r.x, n);
    var z := ShiftInto(r.x, n, b.x, wds, k % 32);
    if z != 0 {
      ghost var t := r.x[n..n + wds];
      r.x[n + wds] := z;
      assert r.x[n..n + wds] == t;
      n1 := n1 + 1;
    }
    r.wds := n1 - 1;
    ShiftedValue(r.x[..], n, wds, z, b.Limbs(), k, r.wds);
    assert r.x[..][..r.wds] == r.x[..r.wds];
    if b.Canonical() && b.Value() > 0 {
      CanonicalBound(b.Limbs());
    }
  }

  lemma CanonicalBound(s: seq<ULong>)
    requires |s| > 0 && (|s| > 1 ==> s[|s| - 1] != 0) && Val(s) > 0
    ensures Val(s) >= Weight(|s| - 1)
  {
    ValTop(s);
  }

  /** The size class with room for n limbs. */
  method RoomFor(k: nat, n: nat) returns (k1: nat)
    ensures n <= Pow(2, k1)
  {
    k1 := k;
    var i := Pow(2, k);
    PowPositive(2, k);
    while n > i
      invariant i == Pow(2, k1) > 0
      decreases n - i
    {
      i, k1 := 2 * i, k1 + 1;
    }
  }

  /** Both forms of the copy: limb by limb when the shift is a whole number of words. */
  method ShiftInto(c: array<ULong>, off: nat, x: array<ULong>, n: nat, k: nat) returns (z: ULong)
    requires off + n <= c.Length && n <= x.Length && c != x && k < 32
    modifies c
    ensures forall j :: 0 <= j < off ==> c[j] == old(c[j])
    ensures Val(c[off..off + n] + [z]) == MulAdd(Val(x[..n]), Pow(2, k), 0)
  {
    if k != 0 {
      z := ShiftLimbs(c, off, x, n, k);
    } else {
      z := 0;
      var i := 0;
      while i < n
        invariant 0 <= i <= n
        invariant forall j :: 0 <= j < off ==> c[j] == old(c[j])
        invariant forall j :: 0 <= j < i ==> c[off + j] == x[j]
      {
        c[off + i] := x[i];
        i := i + 1;
      }
      assert c[off..off + n] == x[..n];
      DropZeroTop(x[..n]);
    }
  }

  lemma ShiftedValue(r: seq<ULong>, n: nat, wds: nat, z: ULong, b: seq<ULong>, k: nat, len: nat)
    requires 0 < wds == |b| && n == k / 32 && n + wds < |r|
    requires forall j :: 0 <= j < n ==> r[j] == 0
    requires Val(r[n..n + wds] + [z]) == MulAdd(Val(b), Pow(2, k % 32), 0)
    requires if z != 0 then len == n + wds + 1 && r[n + wds] == z else len == n + wds
    ensures Val(r[..len]) == Scaled(Val(b), Pow(2, k))
    ensures Val(b) >= Weight(wds - 1) ==> r[len - 1] != 0
  {
    var t := r[..len];
    if z == 0 {
      DropZeroTop(r[n..n + wds]);
      assert t[n..] == r[n..n + wds];
    } else {
      assert t[n..] == r[n..n + wds] + [z];
    }
    ShiftedSum(t, n, b, k);
    if z == 0 && Val(b) >= Weight(wds - 1) {
      KeepsTop(Val(b), wds - 1, n, k);
      TopNonZero(t);
    }
  }

  lemma ShiftedSum(t: seq<ULong>, n: nat, b: seq<ULong>, k: nat)
    requires n == k / 32 && n <= |t|
    requires forall j :: 0 <= j < n ==> t[j] == 0
    requires Val(t[n..]) == MulAdd(Val(b), Pow(2, k % 32), 0)
    ensures Val(t) == Scaled(Val(b), Pow(2, k))
  {
    ValSplit(t, n);
    ValZeroTail(t[..n], 0);
    ShiftTotal(Val(t[n..]), Val(b), n, k % 32);
  }

  lemma KeepsTop(v: nat, m: nat, n: nat, k: nat)
    requires v >= Weight(m) && 32 * n <= k
    ensures Scaled(v, Pow(2, k)) >= Weight(n + m)
  {
    WeightIsPower(n);
    PowMonotone(2, 32 * n, k);
    PowAdd(BASE, m, n);
    MulMonotone(Weight(m), v, Weight(n));
    MulMonotone(Weight(n), Pow(2, k), v);
  }
}
