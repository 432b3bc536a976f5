/** Comparison, subtraction and the one-digit division of dtoa.c. */
module BignumDivide {
  import opened Limbs
  import opened Bignum

  // ---------------------------------------------------------------- cmp

  /** cmp: the sign of a - b (only the sign: unequal lengths give their difference). */
  method Cmp(a: Bigint, b: Bigint) returns (r: int)
    requires a.Canonical() && b.Canonical()
    requires (a.wds == 0 ==> b.Value() > 0) && (b.wds == 0 ==> a.Value() > 0)
    ensures r < 0 <==> a.Value() < b.Value()
    ensures r == 0 <==> a.Value() == b.Value()
    ensures r > 0 <==> a.Value() > b.Value()
  {
    hide Val, Weight, Pow;
    r := a.wds - b.wds;
    if r != 0 {
      Longer(a.Limbs(), b.Limbs());
      return;
    }
    var i := b.wds;
    NonEmpty(a.Limbs());
    while true
      invariant 0 < i <= a.wds
      invariant a.x[i..a.wds] == b.x[i..a.wds]
      decreases i
    {
      i := i - 1;
      if a.x[i] != b.x[i] {
        r := if a.x[i] < b.x[i] then -1 else 1;
        assert a.Limbs()[i + 1..] == b.Limbs()[i + 1..];
        Differ(a.Limbs(), b.Limbs(), i);
        return;
      }
      if i == 0 {
        break;
      }
    }
    assert a.Limbs() == b.Limbs();
    r := 0;
  }

  lemma NonEmpty(s: seq<ULong>)
    ensures |s| == 0 ==> Val(s) == 0
  {
  }

  lemma Differ(s: seq<ULong>, t: seq<ULong>, n: nat)
    requires |s| == |t| && n < |s| && s[n + 1..] == t[n + 1..] && s[n] != t[n]
    ensures s[n] < t[n] <==> Val(s) < Val(t)
    ensures Val(s) != Val(t)
  {
    if s[n] < t[n] {
      ValDiffer(s, t, n);
    } else {
      ValDiffer(t, s, n);
    }
  }

  ghost predicate NoLeadingZero(s: seq<ULong>)
  {
    |s| > 1 ==> s[|s| - 1] != 0
  }

  lemma Longer(s: seq<ULong>, t: seq<ULong>)
    requires NoLeadingZero(s) && NoLeadingZero(t) && |s| != |t|
    requires (|s| == 0 ==> Val(t) > 0) && (|t| == 0 ==> Val(s) > 0)
    ensures |s| < |t| <==> Val(s) < Val(t)
    ensures Val(s) != Val(t)
  {
    if |s| == 0 || |t| == 0 {
    } else if |s| < |t| {
      ValLonger(s, t);
    } else {
      ValLonger(t, s);
    }
  }

  // ---------------------------------------------------------------- diff

  /** x - y - borrow on 64-bit words, wrapping. */
  function SubWord(x: ULong, y: ULong, borrow: ULong): ULLong
  {
    (x - y - borrow) % 0x1_0000_0000_0000_0000
  }

  /** y >> 32 & 1 */
  function Borrow(y: ULLong): ULong
  {
    Hi(y) % 2
  }

  lemma BorrowWord(x: ULong, y: ULong, borrow: ULong)
    requires borrow <= 1
    ensures Borrow(SubWord(x, y, borrow)) <= 1
    ensures Lo(SubWord(x, y, borrow)) + y + borrow == x + Borrow(SubWord(x, y, borrow)) * BASE
  {
    var d := x - y - borrow;
    if d >= 0 {
      assert SubWord(x, y, borrow) == d;
    } else {
      assert SubWord(x, y, borrow) == d + 0x1_0000_0000_0000_0000;
      assert Hi(SubWord(x, y, borrow)) == 0xFFFF_FFFF;
    }
  }

  /** Low limbs c of a difference s - q*t, with e owed by the limbs above. */
  ghost predicate Owed(c: seq<ULong>, s: seq<ULong>, t: seq<ULong>, q: nat, e: nat)
  {
    Val(c) + Val(t) * q == Val(s) + e * Weight(|c|)
  }

  lemma OwedStep(c: seq<ULong>, s: seq<ULong>, t: seq<ULong>, q: ULong, carry: ULong, borrow: ULong,
                 ys: ULLong, y: ULLong)
    requires |c| < |s| && |c| < |t| && borrow <= 1
    requires Owed(c, s[..|c|], t[..|c|], q, carry + borrow)
    requires ys == Mac(t[|c|], q, 0, carry) && y == SubWord(s[|c|], Lo(ys), borrow)
    ensures Owed(c + [Lo(y)], s[..|c| + 1], t[..|c| + 1], q, Hi(ys) + Borrow(y))
    ensures Borrow(y) <= 1
  {
    hide Val;
    var n := |c|;
    BorrowWord(s[n], Lo(ys), borrow);
    ValAppend(c, Lo(y));
    ValSnoc(s, n);
    ValSnoc(t, n);
    OwedArith(Val(c), Val(s[..n]), Val(t[..n]), q, carry, borrow, t[n], s[n], Lo(y), Lo(ys), Hi(ys), Borrow(y),
              Weight(n), Weight(n + 1));
  }

  lemma OwedArith(c: nat, s: nat, t: nat, q: nat, carry: nat, borrow: nat, td: nat, sd: nat, lo: nat, ylo: nat,
                  yhi: nat, b': nat, w: nat, w': nat)
    requires c + t * q == s + (carry + borrow) * w && w' == BASE * w
    requires td * q + carry == yhi * BASE + ylo && lo + ylo + borrow == sd + b' * BASE
    ensures (c + lo * w) + (t + td * w) * q == (s + sd * w) + (yhi + b') * w'
  {
    Distribute(t, td * w, q);
    assert (td * w) * q == (td * q) * w;
    assert (yhi + b') * (BASE * w) == ((yhi + b') * BASE) * w;
    assert carry + borrow + lo + td * q == sd + (yhi + b') * BASE;
    Distribute(carry + borrow + lo, td * q, w);
    Distribute(carry + borrow, lo, w);
    Distribute(sd, (yhi + b') * BASE, w);
  }

  /** The shared borrow loop: x[..n] -= q * y[..n], for any q that keeps the result non-negative. */
  method SubMul(x: array<ULong>, y: array<ULong>, n: nat, q: ULong)
    requires n <= x.Length && n <= y.Length && x != y
    requires Val(y[..n]) * q <= Val(x[..n])
    modifies x
    ensures Val(x[..n]) + Val(y[..n]) * q == old(Val(x[..n]))
  {
    ghost var s, t := x[..n], y[..n];
    ghost var c := [];
    OwedStart(s, t, q);
    hide *;
    var i := 0;
    var carry: ULong, borrow: ULong := 0, 0;
    while i < n
      invariant 0 <= i <= n && borrow <= 1
      invariant |c| == i && forall j :: 0 <= j < i ==> x[j] == c[j]
      invariant forall j :: i <= j < n ==> x[j] == s[j]
      invariant Owed(c, s[..i], t[..i], q, carry + borrow)
    {
      var ys := Mac(y[i], q, 0, carry);
      var d := SubWord(x[i], Lo(ys), borrow);
      OwedStep(c, s, t, q, carry, borrow, ys, d);
      carry, borrow := Hi(ys), Borrow(d);
      x[i] := Lo(d);
      c := c + [Lo(d)];
      i := i + 1;
    }
    assert x[..n] == c && s[..n] == s && t[..n] == t;
    NothingOwed(c, s, t, q, carry + borrow);
  }

  lemma OwedStart(s: seq<ULong>, t: seq<ULong>, q: nat)
    ensures Owed([], s[..0], t[..0], q, 0)
  {
  }

  lemma NothingOwed(c: seq<ULong>, s: seq<ULong>, t: seq<ULong>, q: nat, e: nat)
    requires Owed(c, s, t, q, e) && Val(t) * q <= Val(s)
    ensures Val(c) + Val(t) * q == Val(s)
  {
    ValBound(c);
    NoDebt(Val(c), Val(t) * q, Val(s), e, Weight(|c|));
  }

  lemma NoDebt(c: nat, t: nat, s: nat, e: nat, w: nat)
    requires c + t == s + e * w && c < w && t <= s
    ensures c + t == s
  {
    if e > 0 {
      Grow(w, e);
    }
  }

  /** The two loops of diff: subtract while b has limbs, then carry the borrow through the rest of a. */
  method DiffLimbs(c: array<ULong>, x: array<ULong>, wa: nat, y: array<ULong>, wb: nat)
    requires wb <= wa <= x.Length && wb <= y.Length && wa <= c.Length && c != x && c != y
    requires Val(y[..wb]) <= Val(x[..wa])
    modifies c
    ensures Val(c[..wa]) + Val(y[..wb]) == Val(x[..wa])
  {
    ghost var s, t := x[..wa], y[..wb] + ZeroLimbs(wa - wb);
    ghost var d := [];
    OwedStart(s, t, 1);
    ValZeroTail(t, wb);
    assert t[..wb] == y[..wb];
    hide *;
    var i := 0;
    var borrow: ULong := 0;
    while i < wb
      invariant 0 <= i <= wb && borrow <= 1
      invariant |d| == i && forall j :: 0 <= j < i ==> c[j] == d[j]
      invariant Owed(d, s[..i], t[..i], 1, borrow)
    {
      var z := SubWord(x[i], y[i], borrow);
      PlainStep(d, s, t, borrow, z);
      borrow := Borrow(z);
      c[i] := Lo(z);
      d := d + [Lo(z)];
      i := i + 1;
    }
    DiffRest(c, x, wb, wa, borrow, d, t);
  }

  method DiffRest(c: array<ULong>, x: array<ULong>, wb: nat, wa: nat, borrow0: ULong,
                  ghost d0: seq<ULong>, ghost t: seq<ULong>)
    requires wb <= wa <= x.Length && wa <= c.Length && c != x && borrow0 <= 1
    requires |t| == wa && forall j :: wb <= j < wa ==> t[j] == 0
    requires |d0| == wb && forall j :: 0 <= j < wb ==> c[j] == d0[j]
    requires Owed(d0, x[..wa][..wb], t[..wb], 1, borrow0)
    requires Val(t) <= Val(x[..wa])
    modifies c
    ensures Val(c[..wa]) + Val(t) == Val(x[..wa])
  {
    hide *;
    ghost var s, d := x[..wa], d0;
    var i, borrow := wb, borrow0;
    while i < wa
      invariant wb <= i <= wa && borrow <= 1
      invariant |d| == i && forall j :: 0 <= j < i ==> c[j] == d[j]
      invariant Owed(d, s[..i], t[..i], 1, borrow)
    {
      var z := SubWord(x[i], 0, borrow);
      PlainStep(d, s, t, borrow, z);
      borrow := Borrow(z);
      c[i] := Lo(z);
      d := d + [Lo(z)];
      i := i + 1;
    }
    assert c[..wa] == d && s[..wa] == s && t[..wa] == t;
    Unit(Val(t));
    NothingOwed(d, s, t, 1, borrow);
  }

  lemma Unit(x: nat)
    ensures x * 1 == x
  {
  }

  function ZeroLimbs(n: nat): (z: seq<ULong>)
    ensures |z| == n && forall i :: 0 <= i < n ==> z[i] == 0
  {
    seq(n, _ => 0)
  }

  lemma PlainStep(c: seq<ULong>, s: seq<ULong>, t: seq<ULong>, borrow: ULong, z: ULLong)
    requires |c| < |s| && |c| < |t| && borrow <= 1
    requires Owed(c, s[..|c|], t[..|c|], 1, borrow) && z == SubWord(s[|c|], t[|c|], borrow)
    ensures Owed(c + [Lo(z)], s[..|c| + 1], t[..|c| + 1], 1, Borrow(z)) && Borrow(z) <= 1
  {
    OwedStep(c, s, t, 1, 0, borrow, Mac(t[|c|], 1, 0, 0), z);
  }

  /** diff: |a - b|, with the sign set exactly when a < b. */
  method Diff(a: Bigint, b: Bigint) returns (c: Bigint)
    requires a.Canonical() && b.Canonical() && a.wds > 0 && b.wds > 0
    ensures fresh(c) && fresh(c.x) && c.Canonical() && c.wds > 0
    ensures c.sign <==> a.Value() < b.Value()
    ensures c.Value() == if a.Value() < b.Value() then b.Value() - a.Value() else a.Value() - b.Value()
  {
    var i := Cmp(a, b);
    if i == 0 {
      c := new Bigint(0);
      c.x[0] := 0;
      c.wds := 1;
      ValOne(c.x[..1]);
    } else if i < 0 {
      c := DiffOrdered(b, a);
      c.sign := true;
    } else {
      c := DiffOrdered(a, b);
    }
  }

  method DiffOrdered(a: Bigint, b: Bigint) returns (c: Bigint)
    requires a.Canonical() && b.Canonical() && a.wds > 0 && b.wds > 0
    requires a.Value() > b.Value()
    ensures fresh(c) && fresh(c.x) && c.Canonical() && c.wds > 0 && !c.sign
    ensures c.Value() == a.Value() - b.Value()
  {
    c := new Bigint(a.k);
    if a.wds < b.wds {
      Longer(a.Limbs(), b.Limbs());
    }
    DiffLimbs(c.x, a.x, a.wds, b.x, b.wds);
    c.wds := TrimLimbs(c.x, a.wds);
    NonEmpty(c.x[..c.wds]);
  }

  // ---------------------------------------------------------------- quorem

  /** The estimate from the top limbs is never high and low by at most one. */
  lemma EstimateBounds(bt: nat, st: nat, w: nat, b: nat, s: nat, q: nat)
    requires bt < BASE && 0x1_0000 <= st && w > 0
    requires bt * w <= b < (bt + 1) * w
    requires st * w <= s < (st + 1) * w
    requires q * (st + 1) <= bt < (q + 1) * (st + 1)
    ensures s * q <= b < s * (q + 2)
  {
    QuotientSmall(q, st, bt);
    EstimateLow(bt, st, w, s, q);
    assert (q + 1) * (st + 1) == q * st + q + st + 1;
    assert (q + 2) * st == q * st + 2 * st;
    EstimateHigh(bt, st, w, s, q);
  }

  lemma EstimateLow(bt: nat, st: nat, w: nat, s: nat, q: nat)
    requires s <= (st + 1) * w && q * (st + 1) <= bt
    ensures s * q <= bt * w
  {
    MulMonotone(s, (st + 1) * w, q);
    assert ((st + 1) * w) * q == (q * (st + 1)) * w;
    MulMonotone(q * (st + 1), bt, w);
  }

  lemma EstimateHigh(bt: nat, st: nat, w: nat, s: nat, q: nat)
    requires st * w <= s && bt + 1 <= (q + 2) * st
    ensures (bt + 1) * w <= s * (q + 2)
  {
    MulMonotone(bt + 1, (q + 2) * st, w);
    assert ((q + 2) * st) * w == (st * w) * (q + 2);
    MulMonotone(st * w, s, q + 2);
  }

  lemma QuotientSmall(q: nat, st: nat, bt: nat)
    requires q * (st + 1) <= bt < BASE && 0x1_0000 <= st
    ensures q + 1 <= st
  {
    if q >= st {
      MulMonotone(0x1_0000, q, st + 1);
    }
  }

  /** Drop leading zero limbs as quorem does: down to one limb, or none if the divisor has one limb. */
  method TrimTop(b: Bigint)
    requires b.Valid() && b.wds > 0
    modifies b`wds
    ensures b.Canonical() && b.Value() == old(b.Value()) && b.wds <= old(b.wds)
  {
    var n := b.wds - 1;
    if b.x[n] == 0 {
      while n > 1 && b.x[n - 1] == 0
        invariant 0 <= n < old(b.wds) && b.wds == old(b.wds)
        invariant forall j :: n <= j < b.wds ==> b.x[j] == 0
      {
        n := n - 1;
      }
      ValZeroTail(b.x[..b.wds], n);
      assert b.x[..b.wds][..n] == b.x[..n];
      b.wds := n;
    }
  }

  /** The divisor's top limb is in the range for which the estimate is good; dshift puts it in [2^27, 2^28). */
  ghost predicate GoodDivisor(s: Bigint)
    reads s, s.x
  {
    s.Canonical() && s.wds > 0 && 0x1_0000 <= s.x[s.wds - 1] < 0xFFFF_FFFF
  }

  ghost function Times(q: nat, s: nat): nat
  {
    s * q
  }

  lemma SmallDividend(b: seq<ULong>, s: seq<ULong>)
    requires |b| < |s| && s[|s| - 1] > 0
    ensures Val(b) < Val(s) && Times(0, Val(s)) == 0
  {
    ValLonger(b, s);
  }

  /** *bxe / (*sxe + 1) on 32-bit words. */
  function Estimate(bt: ULong, st: ULong): ULong
    requires st < 0xFFFF_FFFF
  {
    DivAtMost(bt, st + 1);
    bt / (st + 1)
  }

  lemma EstimateIsQuotient(bt: ULong, st: ULong)
    requires st < 0xFFFF_FFFF
    ensures var q: nat, d: nat := Estimate(bt, st), st + 1; q * d <= bt < (q + 1) * d
  {
  }

  lemma TopEstimate(b: seq<ULong>, s: seq<ULong>, q: ULong)
    requires |b| == |s| > 0 && 0x1_0000 <= s[|s| - 1] < 0xFFFF_FFFF
    requires q == Estimate(b[|b| - 1], s[|s| - 1])
    ensures Times(q, Val(s)) <= Val(b) < Times(q, Val(s)) + Times(1, Val(s)) + Times(1, Val(s))
    ensures Val(s) > 0 && q < 0x1_0000_0000 - 1
  {
    hide Val, Pow, Estimate;
    var n := |s| - 1;
    ValTop(b);
    ValTop(s);
    PowPositive(BASE, n);
    EstimateIsQuotient(b[n], s[n]);
    EstimateBounds(b[n], s[n], Weight(n), Val(b), Val(s), q);
    Distribute(q, 2, Val(s));
    QuotientSmall(q, s[n], b[n]);
  }

  /** The subtraction both halves of quorem share, followed by the limb count update. */
  method SubtractMultiple(b: Bigint, s: Bigint, q: ULong)
    requires b.Canonical() && s.Canonical() && b.wds == s.wds > 0 && b != s && b.x != s.x
    requires Times(q, s.Value()) <= b.Value()
    modifies b, b.x
    ensures b.Canonical() && b.wds <= s.wds
    ensures Times(q, s.Value()) + b.Value() == old(b.Value())
  {
    hide Val, Pow;
    SubMul(b.x, s.x, s.wds, q);
    TrimTop(b);
  }

  lemma Unscaled(s: nat)
    ensures Times(0, s) == 0 && Times(1, s) == s
    ensures forall q: nat :: Times(q, s) + s == Times(q + 1, s)
  {
  }

  /** quorem: exact division of b by s, b becoming the remainder. */
  method Quorem(b: Bigint, s: Bigint) returns (q: ULong)
    requires b.Canonical() && GoodDivisor(s) && b.wds <= s.wds
    requires b != s && b.x != s.x
    modifies b, b.x
    ensures b.Canonical() && b.wds <= s.wds
    ensures Times(q, s.Value()) + b.Value() == old(b.Value())
    ensures b.Value() < s.Value()
  {
    hide Val, Pow, Times, Weight, Estimate;
    Unscaled(s.Value());
    if b.wds < s.wds {
      SmallDividend(b.Limbs(), s.Limbs());
      q := 0;
      return;
    }
    q := Estimate(b.x[s.wds - 1], s.x[s.wds - 1]);
    TopEstimate(b.Limbs(), s.Limbs(), q);
    if q != 0 {
      SubtractMultiple(b, s, q);
    }
    var c := Cmp(b, s);
    if c >= 0 {
      if b.wds != s.wds {
        Longer(b.Limbs(), s.Limbs());
      }
      q := q + 1;
      SubtractMultiple(b, s, 1);
    }
  }

  // ---------------------------------------------------------------- hi0bits, dshift

  /** hi0bits: leading zero bits; each mask test is a comparison with a power of two. */
  method Hi0bits(x0: ULong) returns (k: nat)
    ensures x0 == 0 ==> k == 32
    ensures x0 != 0 ==> k < 32 && 0x8000_0000 <= x0 * Pow(2, k) < BASE
  {
    var x := x0;
    k := 0;
    Doublings();
    if x < 0x1_0000 {
      k := 16;
      x := x * 0x1_0000;
    }
    if x < 0x100_0000 {
      AddShift(k, 8, x0);
      k := k + 8;
      x := x * 0x100;
    }
    if x < 0x1000_0000 {
      AddShift(k, 4, x0);
      k := k + 4;
      x := x * 0x10;
    }
    if x < 0x4000_0000 {
      AddShift(k, 2, x0);
      k := k + 2;
      x := x * 4;
    }
    if x < 0x8000_0000 {
      AddShift(k, 1, x0);
      k := k + 1;
      if x < 0x4000_0000 {
        return 32;
      }
    }
  }

  lemma Doublings()
    ensures Pow(2, 0) == 1 && Pow(2, 1) == 2 && Pow(2, 2) == 4 && Pow(2, 4) == 16
    ensures Pow(2, 8) == 0x100 && Pow(2, 16) == 0x1_0000
  {
    PowAdd(2, 4, 4);
    PowAdd(2, 8, 8);
  }

  lemma AddShift(k: nat, j: nat, x: nat)
    ensures x * Pow(2, k + j) == (x * Pow(2, k)) * Pow(2, j)
  {
    PowAdd(2, k, j);
    assert x * (Pow(2, k) * Pow(2, j)) == (x * Pow(2, k)) * Pow(2, j);
  }
}
