/** Exact decimal digits of a quotient of big numbers: dtoa's fixed-digit loop and strtod's bigcomp. */
module DecimalDigits {
  import opened Limbs
  import opened Bignum
  import opened BignumDivide

  // ---------------------------------------------------------------- dshift

  /** Exactly four leading zero bits in the top limb. */
  ghost predicate Shifted(s: Bigint)
    reads s, s.x
  {
    s.Canonical() && s.wds > 0 && 0x800_0000 <= s.x[s.wds - 1] < 0x1000_0000
  }

  /** dshift: the shift, modulo the word size, that leaves four zero bits on top after p2 more. */
  method Dshift(b: Bigint, p2: int) returns (rv: nat)
    requires b.Canonical() && b.Value() > 0 && b.wds > 0
    ensures rv < 32
    ensures TopShift(b.Limbs(), rv + if p2 > 0 then p2 else 0)
  {
    hide Val;
    CanonicalBound(b.Limbs());
    TopNonZero(b.Limbs());
    var h := Hi0bits(b.x[b.wds - 1]);
    var v := h as int - 4;
    if p2 > 0 {
      v := v - p2;
    }
    rv := v % 32;
    var t := rv + (if p2 > 0 then p2 else 0);
    var j := (t + 4 - h) / 32;
    assert t + 4 == h + 32 * j && j >= 0;
    assert TopShiftBy(TopLimb(b.Limbs()), t, h, j);
  }

  /** A shift by t moves the top set bit of s to bit 27 of some limb. */
  ghost predicate TopShift(s: seq<ULong>, t: nat)
  {
    && |s| > 0 && TopLimb(s) != 0
    && exists h: nat, j: nat :: TopShiftBy(TopLimb(s), t, h, j)
  }

  function TopLimb(s: seq<ULong>): ULong
    requires |s| > 0
  {
    s[|s| - 1]
  }

  ghost predicate TopShiftBy(d: ULong, t: nat, h: nat, j: nat)
  {
    h < 32 && t + 4 == h + 32 * j && 0x8000_0000 <= d * Pow(2, h) < BASE
  }

  lemma TopRange(d: nat, t: nat, h: nat, j: nat)
    requires h < 32 && t + 4 == h + 32 * j && 0x8000_0000 <= d * Pow(2, h) < BASE
    ensures 0x800_0000 * Weight(j) <= d * Pow(2, t)
    ensures (d + 1) * Pow(2, t) <= 0x1000_0000 * Weight(j)
  {
    NextMultiple(d, h);
    WeightIsPower(j);
    PowAdd(2, h, 32 * j);
    PowAdd(2, t, 4);
    assert Pow(2, 4) == 16;
    MulMonotone(0x8000_0000, d * Pow(2, h), Weight(j));
    MulMonotone((d + 1) * Pow(2, h), BASE, Weight(j));
    Regroup(d, Pow(2, h), Weight(j), Pow(2, t));
    Regroup(d + 1, Pow(2, h), Weight(j), Pow(2, t));
  }

  lemma Regroup(d: nat, p: nat, w: nat, q: nat)
    requires p * w == q * 16
    ensures (d * p) * w == 16 * (d * q)
  {
    assert (d * p) * w == d * (p * w);
  }

  lemma NextMultiple(d: nat, h: nat)
    requires h < 32 && d * Pow(2, h) < BASE
    ensures (d + 1) * Pow(2, h) <= BASE
  {
    TwoTo32();
    PowAdd(2, 32 - h, h);
    MulCancel(d, Pow(2, 32 - h), Pow(2, h));
    MulMonotone(d + 1, Pow(2, 32 - h), Pow(2, h));
  }

  /** After that shift the top limb has exactly four leading zero bits. */
  lemma ShiftedTop(s: seq<ULong>, r: seq<ULong>, t: nat)
    requires TopShift(s, t) && |r| > 0 && NoLeadingZero(r)
    requires Val(r) == Scaled(Val(s), Pow(2, t))
    ensures 0x800_0000 <= r[|r| - 1] < 0x1000_0000
  {
    var n := |s| - 1;
    var h: nat, j: nat :| TopShiftBy(TopLimb(s), t, h, j);
    hide Val, Pow, Weight;
    TopRange(s[n], t, h, j);
    ValTop(s);
    WeightAdd(j, n);
    PowPositive(2, t);
    var d: nat := s[n];
    WindowArith(Val(s), d, Weight(n), Pow(2, t), Weight(j), 0x800_0000, 0x1000_0000);
    TopInWindow(r, n + j);
  }

  lemma WindowArith(v: nat, d: nat, w: nat, p: nat, u: nat, lo: nat, hi: nat)
    requires d * w <= v < (d + 1) * w
    requires lo * u <= d * p && (d + 1) * p <= hi * u && p > 0
    ensures lo * (u * w) <= v * p < hi * (u * w)
  {
    WindowLow(v, d, w, p, u, lo);
    WindowHigh(v + 1, d + 1, w, p, u, hi);
    Distribute(v, 1, p);
  }

  lemma WindowLow(v: nat, d: nat, w: nat, p: nat, u: nat, lo: nat)
    requires d * w <= v && lo * u <= d * p
    ensures lo * (u * w) <= v * p
  {
    MulMonotone(d * w, v, p);
    MulMonotone(lo * u, d * p, w);
    assert (d * w) * p == (d * p) * w;
    assert (lo * u) * w == lo * (u * w);
  }

  lemma WindowHigh(v: nat, d: nat, w: nat, p: nat, u: nat, hi: nat)
    requires v <= d * w && d * p <= hi * u
    ensures v * p <= hi * (u * w)
  {
    MulMonotone(v, d * w, p);
    MulMonotone(d * p, hi * u, w);
    assert (d * w) * p == (d * p) * w;
    assert (hi * u) * w == hi * (u * w);
  }

  lemma TopInWindow(r: seq<ULong>, m: nat)
    requires |r| > 0 && NoLeadingZero(r)
    requires 0x800_0000 * Weight(m) <= Val(r) < 0x1000_0000 * Weight(m) && Weight(m) > 0
    ensures |r| == m + 1 && 0x800_0000 <= r[m] < 0x1000_0000
  {
    hide Val, Pow;
    ValBound(r);
    ValTop(r);
    if |r| <= m {
      PowMonotone(BASE, |r|, m);
    } else if |r| > m + 1 {
      PowMonotone(BASE, m + 1, |r| - 1);
      assert Weight(m + 1) == BASE * Weight(m) by {
        PowStep(m);
      }
    } else {
      var d: nat := r[m];
      MulCancel(d, 0x1000_0000, Weight(m));
      MulCancel(0x800_0000, d + 1, Weight(m));
    }
  }

  lemma WeightAdd(j: nat, n: nat)
    ensures Weight(n + j) == Weight(j) * Weight(n) > 0
  {
    PowAdd(BASE, j, n);
    PowPositive(BASE, n + j);
  }

  lemma PowStep(m: nat)
    ensures Weight(m + 1) == BASE * Weight(m)
  {
  }

  /** Both operands of the quotient shifted left so that the divisor suits quorem; the ratio is unchanged. */
  method Prepare(b0: Bigint, b2: nat, s0: Bigint, s2: nat) returns (b: Bigint, s: Bigint, i: nat)
    requires b0.Canonical() && b0.wds > 0 && b0.Value() > 0
    requires s0.Canonical() && s0.wds > 0 && s0.Value() > 0
    requires b0 != s0 && b0.x != s0.x
    ensures b == b0 || (fresh(b) && fresh(b.x))
    ensures s == s0 || (fresh(s) && fresh(s.x))
    ensures b != s && b.x != s.x
    ensures b.Canonical() && b.wds > 0 && b.Value() == Scaled(b0.Value(), Pow(2, b2 + i))
    ensures Shifted(s) && s.Value() == Scaled(s0.Value(), Pow(2, s2 + i))
  {
    hide Val, Pow, Scaled, TopShift;
    i := Dshift(s0, s2);
    b, s := b0, s0;
    Unshifted(b0.Value());
    Unshifted(s0.Value());
    if b2 + i > 0 {
      b := Lshift(b, b2 + i);
    }
    if s2 + i > 0 {
      s := Lshift(s, s2 + i);
    }
    ShiftedTop(s0.Limbs(), s.Limbs(), s2 + i);
  }

  lemma Unshifted(v: nat)
    ensures Scaled(v, Pow(2, 0)) == v
  {
  }

  // ---------------------------------------------------------------- digits and rounding

  function DigitOf(c: char): nat
    requires '0' <= c <= '9'
  {
    c as int - '0' as int
  }

  function DigitChar(d: nat): (c: char)
    requires d <= 9
    ensures '0' <= c <= '9' && DigitOf(c) == d
  {
    ('0' as int + d) as char
  }

  predicate AllDigits(s: seq<char>)
  {
    forall i :: 0 <= i < |s| ==> '0' <= s[i] <= '9'
  }

  /** The integer a string of decimal digits spells. */
  function DecVal(s: seq<char>): nat
    requires AllDigits(s)
  {
    if |s| == 0 then 0 else DecVal(s[..|s| - 1]) * 10 + DigitOf(s[|s| - 1])
  }

  /** n / d rounded to the nearest integer, ties to even. */
  function RoundHalfEven(n: nat, d: nat): nat
    requires d > 0
  {
    var q, r := n / d, n % d;
    if 2 * r > d || (2 * r == d && q % 2 == 1) then q + 1 else q
  }

  /** Different multiples of d differ by at least d. */
  lemma StepsApart(m: nat, q: nat, d: nat)
    ensures m < q ==> m * d + d <= q * d
    ensures m == q ==> m * d == q * d
  {
    if m < q {
      MulMonotone(m + 1, q, d);
      assert (m + 1) * d == m * d + d;
    }
  }

  function Distance(a: int, b: int): int
  {
    if a > b then a - b else b - a
  }

  /** What rounding means: no integer is closer, and on a tie the result is even. */
  lemma RoundIsNearest(n: nat, d: nat, m: nat)
    requires d > 0
    ensures var r := RoundHalfEven(n, d);
      && Distance(r * d, n) <= Distance(m * d, n)
      && (m != r && Distance(r * d, n) == Distance(m * d, n) ==> r % 2 == 0)
  {
    var q := n / d;
    StepsApart(m, q, d);
    StepsApart(q, m, d);
    StepsApart(m, q + 1, d);
    StepsApart(q + 1, m, d);
    Distribute(q, 1, d);
    NearestOf(n, d, q, n % d, m, q * d, m * d);
  }

  lemma NearestOf(n: int, d: int, q: int, s: int, m: int, p: int, k: int)
    requires 0 <= s < d && n == p + s && 0 <= q
    requires m < q ==> k + d <= p
    requires m == q ==> k == p
    requires m == q + 1 ==> k == p + d
    requires m > q + 1 ==> p + d + d <= k
    ensures var up := 2 * s > d || (2 * s == d && q % 2 == 1);
      var r, j := if up then q + 1 else q, if up then p + d else p;
      Distance(j, n) <= Distance(k, n) && (m != r && Distance(j, n) == Distance(k, n) ==> r % 2 == 0)
  {
  }

  lemma RoundOf(n: nat, d: nat, q: nat, r: nat)
    requires r < d && n == q * d + r
    ensures n / d == q && n % d == r
  {
    Distribute(n / d, 1, d);
    Distribute(q, 1, d);
    if n / d < q {
      MulMonotone(n / d + 1, q, d);
    } else if q < n / d {
      MulMonotone(q + 1, n / d, d);
    }
  }

  // ---------------------------------------------------------------- the fixed-digit loop of dtoa

  /** b0 * 10^i seen as an i-digit quotient and what is left to divide. */
  ghost predicate Produced(ds: seq<char>, b0: nat, i: nat, s: nat, rest: nat)
  {
    AllDigits(ds) && b0 * Pow(10, i) == DecVal(ds) * s + rest
  }

  lemma ProducedScale(ds: seq<char>, b0: nat, i: nat, s: nat, rest: nat)
    requires Produced(ds, b0, i, s, rest)
    ensures AllDigits(ds + ['0']) && Produced(ds + ['0'], b0, i + 1, s, MulAdd(rest, 10, 0))
  {
    DecSnoc(ds, '0');
    assert b0 * (10 * Pow(10, i)) == 10 * (b0 * Pow(10, i));
    assert (DecVal(ds) * 10) * s == 10 * (DecVal(ds) * s);
  }

  lemma DecSnoc(ds: seq<char>, c: char)
    requires AllDigits(ds) && '0' <= c <= '9'
    ensures AllDigits(ds + [c]) && DecVal(ds + [c]) == DecVal(ds) * 10 + DigitOf(c)
  {
    assert (ds + [c])[..|ds|] == ds;
  }

  /** Replacing the pending zero by the digit quorem found accounts for what it subtracted. */
  lemma ProducedDigit(ds: seq<char>, b0: nat, i: nat, s: nat, rest: nat, q: nat, rest': nat)
    requires AllDigits(ds) && Produced(ds + ['0'], b0, i, s, rest)
    requires q <= 9 && rest == Times(q, s) + rest'
    ensures Produced(ds + [DigitChar(q)], b0, i, s, rest')
  {
    DecSnoc(ds, '0');
    DecSnoc(ds, DigitChar(q));
    Distribute(DecVal(ds) * 10, q, s);
  }

  lemma DecBound(ds: seq<char>)
    requires AllDigits(ds)
    ensures DecVal(ds) < Pow(10, |ds|)
    ensures |ds| > 0 ==> DecVal(ds) % 2 == DigitOf(ds[|ds| - 1]) % 2
  {
    if |ds| > 0 {
      DecBound(ds[..|ds| - 1]);
    }
  }

  /** The exit test of both digit loops: !b->x[0] && b->wds <= 1. */
  method IsZero(b: Bigint) returns (z: bool)
    requires b.Canonical()
    ensures z <==> b.Value() == 0
  {
    z := b.x[0] == 0 && b.wds <= 1;
    hide Val;
    ZeroValue(b.Limbs(), b.x[0]);
  }

  lemma ZeroValue(s: seq<ULong>, d: ULong)
    requires NoLeadingZero(s) && (|s| > 0 ==> d == s[0])
    ensures d == 0 && |s| <= 1 ==> Val(s) == 0
    ensures Val(s) == 0 ==> |s| <= 1 && (|s| == 1 ==> d == 0)
  {
    if |s| == 1 {
      ValOne(s);
    } else if |s| > 1 {
      ValTop(s);
      PowPositive(BASE, |s| - 1);
    }
  }

  /** Ten times a remainder still has no more limbs than the divisor. */
  lemma TenFits(r: seq<ULong>, s: seq<ULong>)
    requires NoLeadingZero(r) && |s| > 0 && s[|s| - 1] < 0x1000_0000
    requires Val(r) < 10 * Val(s)
    ensures |r| <= |s|
  {
    if |r| > |s| {
      hide Val, Pow;
      ValTop(r);
      ValTop(s);
      PowMonotone(BASE, |s|, |r| - 1);
      PowStep(|s| - 1);
      var d: nat := s[|s| - 1];
      MulMonotone(d + 1, 0x1000_0000, Weight(|s| - 1));
    }
  }

  lemma QuotientDigit(q: nat, s: nat, b: nat, r: nat)
    requires b == Times(q, s) + r && b < 10 * s && r < s
    ensures q <= 9
    ensures s <= b ==> q > 0
    ensures b > 0 && r == 0 ==> q > 0
  {
    if q >= 10 {
      MulMonotone(10, q, s);
    }
  }

  /** What quorem needs of its operands; they share no memory. */
  ghost predicate Operands(b: Bigint, s: Bigint)
    reads b, b.x, s, s.x
  {
    b.Canonical() && Shifted(s) && b.wds <= s.wds && b != s && b.x != s.x
  }

  /** b *= 10 between two digits. */
  method TimesTen(b: Bigint, s: Bigint) returns (r: Bigint)
    requires Operands(b, s) && b.Value() < s.Value()
    modifies b, b.x
    ensures r == b || (fresh(r) && fresh(r.x))
    ensures Operands(r, s) && r.Value() == MulAdd(old(b.Value()), 10, 0)
    ensures s.Value() == old(s.Value())
  {
    hide Val;
    r := MultAdd(b, 10, 0);
    TenFits(r.Limbs(), s.Limbs());
  }

  /** Between two digits: ten times the remainder, and a pending zero in the expansion. */
  method NextPlace(b: Bigint, s: Bigint, ghost ds: seq<char>, ghost v: nat, ghost i: nat) returns (r: Bigint)
    requires Operands(b, s) && 0 < b.Value() < s.Value()
    requires Produced(ds, v, i, s.Value(), b.Value())
    modifies b, b.x
    ensures r == b || (fresh(r) && fresh(r.x))
    ensures Operands(r, s) && 0 < r.Value() < 10 * s.Value() && s.Value() == old(s.Value())
    ensures AllDigits(ds) && Produced(ds + ['0'], v, i + 1, s.Value(), r.Value())
  {
    ProducedScale(ds, v, i, s.Value(), b.Value());
    hide Val, Pow, Produced;
    r := TimesTen(b, s);
  }

  /** One digit of the quotient: the pending zero of the expansion is settled. */
  method NextDigit(b: Bigint, s: Bigint, ghost ds: seq<char>, ghost v: nat) returns (c: char)
    requires Operands(b, s) && 0 < b.Value() < 10 * s.Value()
    requires AllDigits(ds) && Produced(ds + ['0'], v, |ds|, s.Value(), b.Value())
    modifies b, b.x
    ensures Operands(b, s) && b.Value() < s.Value() == old(s.Value())
    ensures '0' <= c <= '9' && Produced(ds + [c], v, |ds|, s.Value(), b.Value())
    ensures old(b.Value()) >= s.Value() || b.Value() == 0 ==> c != '0'
  {
    hide Val, Pow, Produced, DecVal, Times;
    ghost var before := b.Value();
    var q := Quorem(b, s);
    QuotientDigit(q, s.Value(), before, b.Value());
    ProducedDigit(ds, v, |ds|, s.Value(), before, q, b.Value());
    c := DigitChar(q);
  }

  /** One turn of the digit loop: a digit, the two exit tests, and otherwise the next decimal place. */
  method DigitTurn(b0: Bigint, s: Bigint, last: bool, ghost ds: seq<char>, ghost v: nat)
    returns (c: char, stop: bool, b: Bigint)
    requires Operands(b0, s) && 0 < b0.Value() < 10 * s.Value()
    requires AllDigits(ds) && Produced(ds + ['0'], v, |ds|, s.Value(), b0.Value())
    modifies b0, b0.x
    ensures b == b0 || (fresh(b) && fresh(b.x))
    ensures Operands(b, s) && s.Value() == old(s.Value())
    ensures '0' <= c <= '9' && (old(b0.Value()) >= s.Value() ==> c != '0')
    ensures stop ==> b.Value() < s.Value() && Produced(ds + [c], v, |ds|, s.Value(), b.Value())
    ensures stop ==> if b.Value() == 0 then c != '0' else last
    ensures !stop ==> !last && 0 < b.Value() < 10 * s.Value()
    ensures !stop ==> Produced(ds + [c] + ['0'], v, |ds| + 1, s.Value(), b.Value())
  {
    hide Val, Pow, Produced, DecVal, MulAdd, Shifted;
    c := NextDigit(b0, s, ds, v);
    b := b0;
    stop := IsZero(b);
    if !stop {
      if last {
        stop := true;
      } else {
        b := NextPlace(b, s, ds + [c], v, |ds|);
      }
    }
  }

  /** The digit loop: i digits of b/s are in buf, and either the division came out even or i == ilim. */
  method GenerateDigits(b0: Bigint, s: Bigint, ilim: nat, buf: array<char>) returns (b: Bigint, i: nat)
    requires Operands(b0, s) && s.Value() <= b0.Value() < 10 * s.Value()
    requires 1 <= ilim <= buf.Length
    modifies b0, b0.x, buf
    ensures b == b0 || (fresh(b) && fresh(b.x))
    ensures Operands(b, s) && b.Value() < s.Value() == old(s.Value())
    ensures 1 <= i <= ilim && Produced(buf[..i], old(b0.Value()), i - 1, s.Value(), b.Value())
    ensures buf[0] != '0'
    ensures if b.Value() == 0 then buf[i - 1] != '0' else i == ilim
  {
    hide Val, Pow, Produced, DecVal, MulAdd, Shifted;
    ghost var v := b0.Value();
    b := b0;
    i := 0;
    ghost var ds: seq<char> := [];
    PositiveShifted(s);
    ProducedStart(v, s.Value());
    var stop := false;
    while !stop
      invariant b == b0 || (fresh(b) && fresh(b.x))
      invariant Operands(b, s) && s.Value() == old(s.Value())
      invariant |ds| == i && AllDigits(ds) && i <= ilim && (stop ==> i > 0)
      invariant forall j :: 0 <= j < i ==> buf[j] == ds[j]
      invariant if i == 0 then b.Value() >= s.Value() else ds[0] != '0'
      invariant !stop ==> i < ilim && 0 < b.Value() < 10 * s.Value()
      invariant !stop ==> Produced(ds + ['0'], v, i, s.Value(), b.Value())
      invariant stop ==> b.Value() < s.Value() && Produced(ds, v, i - 1, s.Value(), b.Value())
      invariant stop ==> if b.Value() == 0 then ds[i - 1] != '0' else i == ilim
      decreases ilim - i, !stop
    {
      var c;
      c, stop, b := DigitTurn(b, s, i + 1 >= ilim, ds, v);
      buf[i] := c;
      ds := ds + [c];
      i := i + 1;
    }
    assert buf[..i] == ds;
  }

  lemma PositiveShifted(s: Bigint)
    requires Shifted(s)
    ensures s.Valid() && s.Value() > 0
  {
    ValTop(s.Limbs());
    PowPositive(BASE, s.wds - 1);
  }

  lemma ProducedStart(v: nat, s: nat)
    ensures Produced([] + ['0'], v, 0, s, v)
  {
    DecSnoc([], '0');
  }

  lemma {:induction false} NinesTail(ds: seq<char>, n: nat)
    requires AllDigits(ds) && n <= |ds| && forall j :: n <= j < |ds| ==> ds[j] == '9'
    ensures DecVal(ds) + 1 == (DecVal(ds[..n]) + 1) * Pow(10, |ds| - n)
  {
    if n == |ds| {
      assert ds[..n] == ds;
    } else {
      var m := |ds| - 1;
      NinesTail(ds[..m], n);
      assert ds[..m][..n] == ds[..n];
      TenTimes(DecVal(ds[..n]) + 1, |ds| - n);
    }
  }

  lemma TenTimes(x: nat, e: nat)
    requires e > 0
    ensures x * Pow(10, e) == 10 * (x * Pow(10, e - 1))
  {
    assert x * (10 * Pow(10, e - 1)) == 10 * (x * Pow(10, e - 1));
  }

  lemma {:induction false} ZerosTail(ds: seq<char>, n: nat)
    requires AllDigits(ds) && n <= |ds| && forall j :: n <= j < |ds| ==> ds[j] == '0'
    ensures DecVal(ds) == DecVal(ds[..n]) * Pow(10, |ds| - n)
  {
    if n == |ds| {
      assert ds[..n] == ds;
    } else {
      var m := |ds| - 1;
      ZerosTail(ds[..m], n);
      assert ds[..m][..n] == ds[..n];
      TenTimes(DecVal(ds[..n]), |ds| - n);
    }
  }

  /** n digits starting with t and scaled back to m places, possibly after a carry out of the top. */
  ghost predicate Spells(t: seq<char>, m: nat, up: bool, value: nat)
  {
    && AllDigits(t) && 1 <= |t| <= m && t[0] != '0' && t[|t| - 1] != '0'
    && value == DecVal(t) * Pow(10, m - |t| + if up then 1 else 0)
  }

  /** roundoff: add one unit in the last place; a carry through all nines leaves a single 1 and raises k. */
  method RoundUp(buf: array<char>, n: nat, k0: int) returns (len: nat, k: int)
    requires 1 <= n <= buf.Length && AllDigits(buf[..n]) && buf[0] != '0'
    modifies buf
    ensures len <= n && (k == k0 || k == k0 + 1)
    ensures Spells(buf[..len], n, k == k0 + 1, DecVal(old(buf[..n])) + 1)
    ensures k == k0 + 1 <==> DecVal(old(buf[..n])) + 1 == Pow(10, n)
  {
    hide Pow, DecVal;
    ghost var ds := buf[..n];
    k := k0;
    var p := n - 1;
    while buf[p] == '9'
      invariant 0 <= p < n && buf[..n] == ds
      invariant forall j :: p < j < n ==> ds[j] == '9'
      decreases p
    {
      if p == 0 {
        AllNines(ds);
        k := k + 1;
        buf[0] := '1';
        assert buf[..1] == ['1'];
        return 1, k;
      }
      p := p - 1;
    }
    BumpDigit(ds, p);
    buf[p] := (buf[p] as int + 1) as char;
    assert buf[..p + 1] == Bumped(ds, p);
    len := p + 1;
  }

  lemma AllNines(ds: seq<char>)
    requires |ds| > 0 && AllDigits(ds) && forall j :: 0 <= j < |ds| ==> ds[j] == '9'
    ensures Spells(['1'], |ds|, true, DecVal(ds) + 1) && DecVal(ds) + 1 == Pow(10, |ds|)
  {
    NinesTail(ds, 0);
    DecSnoc([], '1');
  }

  function Bumped(ds: seq<char>, p: nat): seq<char>
    requires p < |ds| && AllDigits(ds) && ds[p] != '9'
  {
    ds[..p] + [(ds[p] as int + 1) as char]
  }

  lemma BumpDigit(ds: seq<char>, p: nat)
    requires p < |ds| && AllDigits(ds) && ds[0] != '0' && ds[p] != '9'
    requires forall j :: p < j < |ds| ==> ds[j] == '9'
    ensures Spells(Bumped(ds, p), |ds|, false, DecVal(ds) + 1)
    ensures DecVal(ds) + 1 < Pow(10, |ds|)
  {
    hide Pow, DecVal;
    var t, e := Bumped(ds, p), |ds| - p - 1;
    NinesTail(ds, p + 1);
    DecSnoc(ds[..p], t[p]);
    assert ds[..p + 1] == ds[..p] + [ds[p]];
    DecSnoc(ds[..p], ds[p]);
    DecBound(t);
    BelowPower(DecVal(t), p + 1, e);
  }

  lemma BelowPower(x: nat, a: nat, e: nat)
    requires x < Pow(10, a)
    ensures x * Pow(10, e) < Pow(10, a + e)
  {
    PowAdd(10, a, e);
    PowPositive(10, e);
    MulMonotone(x + 1, Pow(10, a), Pow(10, e));
    Distribute(x, 1, Pow(10, e));
  }

  /** The other way out: trailing zeros are cut. */
  method TrimZeros(buf: array<char>, n: nat) returns (len: nat)
    requires 1 <= n <= buf.Length && AllDigits(buf[..n]) && buf[0] != '0'
    ensures len <= n && Spells(buf[..len], n, false, DecVal(buf[..n])) && DecVal(buf[..n]) < Pow(10, n)
  {
    var p := n - 1;
    while buf[p] == '0'
      invariant 0 <= p < n
      invariant forall j :: p < j < n ==> buf[j] == '0'
      decreases p
    {
      p := p - 1;
    }
    len := p + 1;
    ZerosTail(buf[..n], len);
    DecBound(buf[..n]);
    assert buf[..n][..len] == buf[..len];
  }

  lemma RoundsExactly(v: nat, i: nat, ilim: nat, s: nat, ds: seq<char>)
    requires 1 <= i <= ilim && |ds| == i && s > 0 && Produced(ds, v, i - 1, s, 0)
    requires ds[0] != '0' && ds[i - 1] != '0'
    ensures Spells(ds, ilim, false, RoundHalfEven(v * Pow(10, ilim - 1), s))
    ensures RoundHalfEven(v * Pow(10, ilim - 1), s) < Pow(10, ilim)
  {
    hide Pow, DecVal;
    var e := ilim - i;
    PowAdd(10, i - 1, e);
    ExactScale(v, Pow(10, i - 1), Pow(10, e), DecVal(ds), s);
    RoundOf(v * Pow(10, ilim - 1), s, DecVal(ds) * Pow(10, e), 0);
    DecBound(ds);
    BelowPower(DecVal(ds), i, e);
  }

  lemma ExactScale(v: nat, p: nat, q: nat, d: nat, s: nat)
    requires v * p == d * s
    ensures v * (p * q) == (d * q) * s
  {
    assert v * (p * q) == (v * p) * q;
    assert (d * s) * q == (d * q) * s;
  }

  lemma RoundsLast(v: nat, ilim: nat, s: nat, ds: seq<char>, r: nat)
    requires 1 <= ilim == |ds| && Produced(ds, v, ilim - 1, s, r) && r < s
    ensures RoundHalfEven(v * Pow(10, ilim - 1), s)
      == if 2 * r > s || (2 * r == s && DigitOf(ds[ilim - 1]) % 2 == 1) then DecVal(ds) + 1 else DecVal(ds)
  {
    RoundOf(v * Pow(10, ilim - 1), s, DecVal(ds), r);
    DecBound(ds);
  }

  /**
   The exact digits of dtoa for a fixed digit count: buf[..len] is b0/s, in [1, 10), rounded half-even
   to ilim places without trailing zeros, and k is raised exactly when rounding reaches the next
   power of ten.
   */
  method FixedDigits(b0: Bigint, s: Bigint, ilim: nat, buf: array<char>, k0: int) returns (len: nat, k: int)
    requires Operands(b0, s) && s.Value() <= b0.Value() < 10 * s.Value()
    requires 1 <= ilim <= buf.Length
    modifies b0, b0.x, buf
    ensures len <= ilim && (k == k0 || k == k0 + 1) && s.Value() == old(s.Value()) > 0
    ensures var r := RoundHalfEven(old(b0.Value()) * Pow(10, ilim - 1), s.Value());
      Spells(buf[..len], ilim, k == k0 + 1, r) && (k == k0 + 1 <==> r == Pow(10, ilim))
  {
    PositiveShifted(s);
    hide Val, Pow, Produced, DecVal, Shifted, Spells, RoundHalfEven, Scaled;
    ghost var v := b0.Value();
    k := k0;
    var b, i := GenerateDigits(b0, s, ilim, buf);
    len := i;
    var zero := IsZero(b);
    if zero {
      RoundsExactly(v, i, ilim, s.Value(), buf[..i]);
      return;
    }
    RoundsLast(v, ilim, s.Value(), buf[..i], b.Value());
    var odd := DigitOf(buf[i - 1]) % 2 == 1;
    var j := CompareTwice(b, s);
    if j > 0 || (j == 0 && odd) {
      len, k := RoundUp(buf, i, k);
    } else {
      len := TrimZeros(buf, i);
    }
  }

  /** b <<= 1 and compare with s: which side of the half-way point the remainder is on. */
  method CompareTwice(b: Bigint, s: Bigint) returns (j: int)
    requires b.Canonical() && b.Value() > 0 && Shifted(s)
    ensures j < 0 <==> 2 * b.Value() < s.Value()
    ensures j == 0 <==> 2 * b.Value() == s.Value()
  {
    NonEmpty(b.Limbs());
    hide Val, Pow;
    var d := Lshift(b, 1);
    Twice(b.Value());
    PositiveShifted(s);
    j := Cmp(d, s);
  }

  lemma Twice(v: nat)
    ensures Scaled(v, Pow(2, 1)) == 2 * v
  {
    assert Pow(2, 1) == 2 * Pow(2, 0);
  }

  // ---------------------------------------------------------------- s2b

  /** The nd digits at s0, the decimal point taking dplen places after the first nd0 of them. */
  ghost predicate DigitsAt(s0: string, nd0: nat, dplen: nat, ds: seq<char>)
  {
    && AllDigits(ds) && |ds| > 0
    && (forall i :: 0 <= i < nd0 && i < |ds| ==> DigitAt(s0, ds, i, 0))
    && forall i :: nd0 <= i < |ds| ==> DigitAt(s0, ds, i, dplen)
  }

  ghost predicate DigitAt(s0: string, ds: seq<char>, i: nat, off: nat)
    requires i < |ds|
  {
    i + off < |s0| && s0[i + off] == ds[i]
  }

  /** The first nine digits come precomputed; a number of at most nine digits is just y9. */
  ghost function Prefix9(ds: seq<char>): nat
    requires AllDigits(ds)
  {
    DecVal(if |ds| <= 9 then ds else ds[..9])
  }

  /** s2b: the big number a decimal string spells. */
  method S2b(s0: string, nd0: nat, nd: nat, y9: ULong, dplen: nat, ghost ds: seq<char>) returns (b: Bigint)
    requires DigitsAt(s0, nd0, dplen, ds) && nd0 <= |ds| == nd
    requires y9 == Prefix9(ds)
    ensures fresh(b) && fresh(b.x) && b.Canonical() && b.wds > 0
    ensures b.Value() == DecVal(ds)
  {
    var k := RoomFor(0, (nd + 8) / 9);
    b := new Bigint(k);
    PowPositive(2, k);
    b.x[0] := y9;
    b.wds := 1;
    ValOne(b.x[..1]);
    hide Val, Pow, DecVal;
    if nd <= 9 {
      return;
    }
    var i := 9;
    if 9 < nd0 {
      b := AppendDigits(b, s0, i, nd0, 0, ds);
      i := nd0;
    }
    b := AppendDigits(b, s0, i, nd, dplen, ds);
    assert ds[..nd] == ds;
  }

  /** Digits i0 to n - 1 of the input, found off places further on. */
  method AppendDigits(b0: Bigint, s0: string, i0: nat, n: nat, off: nat, ghost ds: seq<char>)
    returns (b: Bigint)
    requires b0.Canonical() && b0.wds > 0
    requires AllDigits(ds) && i0 <= n <= |ds| && b0.Value() == DecVal(ds[..i0])
    requires forall j :: i0 <= j < n ==> DigitAt(s0, ds, j, off)
    modifies b0, b0.x
    ensures b == b0 || (fresh(b) && fresh(b.x))
    ensures b.Canonical() && b.wds > 0 && b.Value() == DecVal(ds[..n])
  {
    hide Val, Pow, DecVal;
    b := b0;
    var i := i0;
    while i < n
      invariant i0 <= i <= n
      invariant b == b0 || (fresh(b) && fresh(b.x))
      invariant b.Canonical() && b.wds > 0 && b.Value() == DecVal(ds[..i])
    {
      assert DigitAt(s0, ds, i, off);
      b := AppendDigit(b, ds, i, s0[i + off]);
      i := i + 1;
    }
  }

  method AppendDigit(b0: Bigint, ghost ds: seq<char>, ghost i: nat, c: char) returns (b: Bigint)
    requires b0.Canonical() && b0.wds > 0
    requires AllDigits(ds) && i < |ds| && c == ds[i] && b0.Value() == DecVal(ds[..i])
    modifies b0, b0.x
    ensures b == b0 || (fresh(b) && fresh(b.x))
    ensures b.Canonical() && b.wds > 0 && b.Value() == DecVal(ds[..i + 1])
  {
    assert ds[..i + 1] == ds[..i] + [ds[i]];
    DecSnoc(ds[..i], ds[i]);
    hide Val, Pow, DecVal;
    b := MultAdd(b0, 10, DigitOf(c));
  }
}
