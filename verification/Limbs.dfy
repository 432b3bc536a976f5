/** Little-endian sequences of 32-bit limbs and the natural numbers they stand for. */
module Limbs {
  const BASE: nat := 0x1_0000_0000

  // The C types ULong and ULLong of dtoa_config.h.
  type ULong = x: nat | x < 0x1_0000_0000
  type ULLong = x: nat | x < 0x1_0000_0000_0000_0000

  /** y & FFFFFFFF and y >> 32 of a 64-bit word. */
  function Lo(y: ULLong): ULong
  {
    y % 0x1_0000_0000
  }

  function Hi(y: ULLong): ULong
  {
    y / 0x1_0000_0000
  }

  /** x * (ULLong)y + z + c never leaves 64 bits. */
  function Mac(x: ULong, y: ULong, z: ULong, c: ULong): ULLong
  {
    MacBound(x, y);
    x * y + z + c
  }

  lemma MacBound(x: nat, y: nat)
    requires x <= 0xFFFF_FFFF && y <= 0xFFFF_FFFF
    ensures x * y <= 0xFFFF_FFFF * 0xFFFF_FFFF
  {
    MulMonotone(x, 0xFFFF_FFFF, y);
    MulMonotone(y, 0xFFFF_FFFF, 0xFFFF_FFFF);
  }

  function Pow(b: nat, e: nat): nat
  {
    if e == 0 then 1 else b * Pow(b, e - 1)
  }

  predicate PowerOfTwo(n: int)
  {
    n == 1 || (n > 1 && n % 2 == 0 && PowerOfTwo(n / 2))
  }

  function Weight(n: nat): nat
  {
    Pow(BASE, n)
  }

  /** The number a sequence of limbs denotes; the last limb is the most significant. */
  function Val(s: seq<ULong>): nat
  {
    if |s| == 0 then 0 else Val(s[..|s| - 1]) + s[|s| - 1] * Weight(|s| - 1)
  }

  lemma {:induction false} PowPositive(b: nat, e: nat)
    requires b > 0
    ensures Pow(b, e) > 0
  {
    if e > 0 {
      PowPositive(b, e - 1);
      assert b * Pow(b, e - 1) > 0;
    }
  }

  lemma {:induction false} PowAdd(b: nat, e: nat, f: nat)
    ensures Pow(b, e + f) == Pow(b, e) * Pow(b, f)
  {
    if e > 0 {
      PowAdd(b, e - 1, f);
      assert b * (Pow(b, e - 1) * Pow(b, f)) == (b * Pow(b, e - 1)) * Pow(b, f);
    }
  }

  lemma {:induction false} PowPow(b: nat, e: nat, f: nat)
    ensures Pow(Pow(b, e), f) == Pow(b, e * f)
  {
    if f == 0 {
      assert e * f == 0;
    } else {
      PowPow(b, e, f - 1);
      PowAdd(b, e, e * (f - 1));
      assert e + e * (f - 1) == e * f;
    }
  }

  lemma {:induction false} PowMonotone(b: nat, e: nat, f: nat)
    requires b > 0 && e <= f
    ensures Pow(b, e) <= Pow(b, f)
  {
    PowAdd(b, e, f - e);
    PowPositive(b, f - e);
    PowPositive(b, e);
    Grow(Pow(b, e), Pow(b, f - e));
  }

  lemma Grow(x: nat, y: nat)
    requires y >= 1
    ensures x <= x * y
  {
  }

  lemma MulMonotone(x: nat, y: nat, z: nat)
    requires x <= y
    ensures x * z <= y * z
  {
  }

  lemma MulCancel(x: nat, y: nat, z: nat)
    requires x * z < y * z
    ensures x < y
  {
    if y <= x {
      MulMonotone(y, x, z);
    }
  }

  lemma {:induction false} ValBound(s: seq<ULong>)
    ensures Val(s) < Weight(|s|)
  {
    if |s| > 0 {
      var n := |s| - 1;
      ValBound(s[..n]);
      var d: nat := s[n];
      MulMonotone(d + 1, BASE, Weight(n));
      assert (d + 1) * Weight(n) == d * Weight(n) + Weight(n);
    }
  }

  lemma ValSnoc(s: seq<ULong>, n: nat)
    requires n < |s|
    ensures Val(s[..n + 1]) == Val(s[..n]) + s[n] * Weight(n)
  {
    assert s[..n + 1][..n] == s[..n];
  }

  lemma ValOne(s: seq<ULong>)
    requires |s| == 1
    ensures Val(s) == s[0] && Weight(1) == BASE
  {
    assert Val(s[..0]) == 0 && Weight(0) == 1;
  }

  /** Changing limbs at and above a position leaves the value below it alone; a zero limb adds nothing. */
  lemma {:induction false} ValZeroTail(s: seq<ULong>, n: nat)
    requires n <= |s|
    requires forall i :: n <= i < |s| ==> s[i] == 0
    ensures Val(s) == Val(s[..n])
    decreases |s| - n
  {
    if n == |s| {
      assert s[..n] == s;
    } else {
      ValZeroTail(s, n + 1);
      ValSnoc(s, n);
    }
  }

  lemma Horner(v: nat, d: nat, w: nat, u: nat)
    ensures (v + d * w) * u == v * u + d * (w * u)
  {
    assert d * (w * u) == (d * w) * u;
  }

  lemma {:induction false} ValConcat(s: seq<ULong>, t: seq<ULong>)
    ensures Val(s + t) == Val(s) + Val(t) * Weight(|s|)
    decreases |t|
  {
    if |t| == 0 {
      assert s + t == s;
    } else {
      var n := |t| - 1;
      ValConcat(s, t[..n]);
      assert (s + t)[..|s| + n] == s + t[..n];
      assert (s + t)[|s| + n] == t[n];
      PowAdd(BASE, n, |s|);
      Horner(Val(t[..n]), t[n], Weight(n), Weight(|s|));
    }
  }

  lemma ValSplit(s: seq<ULong>, n: nat)
    requires n <= |s|
    ensures Val(s) == Val(s[..n]) + Val(s[n..]) * Weight(n)
  {
    assert s == s[..n] + s[n..];
    ValConcat(s[..n], s[n..]);
  }

  /** A number with a non-zero top limb is at least the weight of that limb. */
  lemma ValTop(s: seq<ULong>)
    requires |s| > 0
    ensures Val(s) >= s[|s| - 1] * Weight(|s| - 1)
    ensures var d: nat := s[|s| - 1]; Val(s) < (d + 1) * Weight(|s| - 1)
    ensures s[|s| - 1] > 0 ==> Val(s) >= Weight(|s| - 1)
  {
    var n := |s| - 1;
    var d: nat := s[n];
    ValBound(s[..n]);
    assert (d + 1) * Weight(n) == d * Weight(n) + Weight(n);
    if d > 0 {
      Grow(Weight(n), d);
    }
  }

  /** More limbs, larger number: what lets a comparison look at lengths first. */
  lemma ValLonger(s: seq<ULong>, t: seq<ULong>)
    requires |s| < |t| && t[|t| - 1] > 0
    ensures Val(s) < Val(t)
  {
    ValBound(s);
    ValTop(t);
    PowMonotone(BASE, |s|, |t| - 1);
  }

  /** The first differing limb, counted from the top, decides an equal-length comparison. */
  lemma ValDiffer(s: seq<ULong>, t: seq<ULong>, n: nat)
    requires |s| == |t| && n < |s|
    requires s[n + 1..] == t[n + 1..]
    requires s[n] < t[n]
    ensures Val(s) < Val(t)
  {
    assert s == s[..n + 1] + s[n + 1..];
    assert t == t[..n + 1] + t[n + 1..];
    ValConcat(s[..n + 1], s[n + 1..]);
    ValConcat(t[..n + 1], t[n + 1..]);
    ValTop(s[..n + 1]);
    ValTop(t[..n + 1]);
    var d: nat := s[n];
    MulMonotone(d + 1, t[n], Weight(n));
  }
}
