/** bigcomp of dtoa.c: comparing a long decimal input with the half-way value b/d, digit by digit. */
module HalfwayCompare {
  import opened Limbs
  import opened Bignum
  import opened BignumDivide
  import opened DecimalDigits

  /** The digits bigcomp reads: nd0 before the point, the others from dp1 on; zeros beyond nd were not counted. */
  ghost predicate Input(s0: string, nd0: nat, nd: nat, dp1: nat, ds: seq<char>)
  {
    && 1 <= nd0 <= |s0| && 1 <= nd && AllDigits(ds)
    && |ds| == (if nd > nd0 then nd else nd0)
    && ds[..nd0] == s0[..nd0]
    && (nd > nd0 ==> dp1 + nd - nd0 <= |s0| && ds[nd0..] == s0[dp1..dp1 + nd - nd0])
    && ds[nd - 1] != '0'
    && forall i :: nd <= i < |ds| ==> ds[i] == '0'
  }

  function Sign(x: int): int
  {
    if x < 0 then -1 else if x > 0 then 1 else 0
  }

  /** The question bigcomp answers: d0.d1d2... against b/d, as integers. */
  function InputAgainst(ds: seq<char>, b: nat, d: nat): int
    requires AllDigits(ds) && |ds| > 0
  {
    DecVal(ds) * d - b * Pow(10, |ds| - 1)
  }

  /** b/d runs on for exactly one more decimal place after agreeing with every digit of the input. */
  predicate OneMorePlace(ds: seq<char>, b: nat, d: nat)
    requires AllDigits(ds) && |ds| > 0 && d > 0
  {
    && b * Pow(10, |ds|) % d == 0
    && DecVal(ds) == b * Pow(10, |ds| - 1) / d
    && b * Pow(10, |ds| - 1) % d != 0
  }

  /** The sign bigcomp computes. */
  function Verdict(ds: seq<char>, b: nat, d: nat): int
    requires AllDigits(ds) && |ds| > 0 && d > 0
  {
    if OneMorePlace(ds, b, d) then 0 else Sign(InputAgainst(ds, b, d))
  }

  /** i digits of the input have been matched; dig is the next digit of b/d and rest what remains. */
  ghost predicate Matched(ds: seq<char>, b: nat, d: nat, i: nat, dig: nat, rest: nat)
  {
    && AllDigits(ds) && i <= |ds| && rest < d
    && b * Pow(10, i) == (DecVal(ds[..i]) * 10 + dig) * d + rest
  }

  lemma MatchedStart(ds: seq<char>, b: nat, d: nat, dig: nat, rest: nat)
    requires AllDigits(ds) && rest < d && b == Times(dig, d) + rest
    ensures Matched(ds, b, d, 0, dig, rest)
  {
    assert ds[..0] == [];
  }

  lemma MatchedStep(ds: seq<char>, b: nat, d: nat, i: nat, dig: nat, rest: nat, dig': nat, rest': nat)
    requires Matched(ds, b, d, i, dig, rest) && i < |ds| && DigitOf(ds[i]) == dig
    requires MulAdd(rest, 10, 0) == Times(dig', d) + rest' && rest' < d
    ensures Matched(ds, b, d, i + 1, dig', rest')
  {
    hide Pow, DecVal;
    assert ds[..i + 1] == ds[..i] + [ds[i]];
    DecSnoc(ds[..i], ds[i]);
    TenTimes(b, i + 1);
    StepArith(b * Pow(10, i), b * Pow(10, i + 1), DecVal(ds[..i]) * 10 + dig, dig', rest, rest', d);
  }

  lemma StepArith(v: nat, v': nat, p: nat, dig: nat, rest: nat, rest': nat, d: nat)
    requires v == p * d + rest && v' == 10 * v && rest * 10 == d * dig + rest'
    ensures v' == (p * 10 + dig) * d + rest'
  {
    Distribute(p * 10, dig, d);
    assert (p * 10) * d == 10 * (p * d);
  }

  /** Below position i an input can contribute less than one unit of that place. */
  lemma {:induction false} DecTail(ds: seq<char>, i: nat)
    requires AllDigits(ds) && i <= |ds|
    ensures DecVal(ds[..i]) * Pow(10, |ds| - i) <= DecVal(ds) < (DecVal(ds[..i]) + 1) * Pow(10, |ds| - i)
    ensures i < |ds| && ds[|ds| - 1] != '0' ==> DecVal(ds[..i]) * Pow(10, |ds| - i) < DecVal(ds)
  {
    if i == |ds| {
      assert ds[..i] == ds;
    } else {
      var m := |ds| - 1;
      DecTail(ds[..m], i);
      assert ds[..m][..i] == ds[..i];
      TenTimes(DecVal(ds[..i]), |ds| - i);
      TenTimes(DecVal(ds[..i]) + 1, |ds| - i);
    }
  }

  /** b * 10^(n-1) seen from a matched position. */
  lemma ScaledUp(ds: seq<char>, b: nat, d: nat, i: nat, dig: nat, rest: nat)
    requires Matched(ds, b, d, i, dig, rest) && i < |ds|
    ensures var m := Pow(10, |ds| - 1 - i);
      b * Pow(10, |ds| - 1) == ((DecVal(ds[..i]) * 10 + dig) * m) * d + rest * m && m > 0
  {
    hide Pow, DecVal;
    PowAdd(10, i, |ds| - 1 - i);
    PowPositive(10, |ds| - 1 - i);
    ScaleArith(b, Pow(10, i), Pow(10, |ds| - 1 - i), DecVal(ds[..i]) * 10 + dig, rest, d);
  }

  lemma ScaleArith(b: nat, w: nat, m: nat, p: nat, rest: nat, d: nat)
    requires b * w == p * d + rest
    ensures b * (w * m) == (p * m) * d + rest * m
  {
    assert b * (w * m) == (b * w) * m;
    Distribute(p * d, rest, m);
    assert (p * d) * m == (p * m) * d;
  }

  /** v and x*d lie in different multiples of d, or touch only from below. */
  lemma AboveArith(x: nat, p: nat, m: nat, d: nat, rest: nat, v: nat)
    requires rest < d && m > 0 && v == (p * m) * d + rest * m && x >= (p + 1) * m
    ensures x * d > v && v / d < x
  {
    MulMonotone((p + 1) * m, x, d);
    Distribute(p, 1, m);
    Distribute(p * m, m, d);
    MulMonotone(rest + 1, d, m);
    Distribute(rest, 1, m);
    QuotientBelow(v, d, x);
  }

  lemma QuotientBelow(v: nat, d: nat, x: nat)
    requires v < x * d
    ensures d > 0 && v / d < x
  {
    if v / d >= x {
      MulMonotone(x, v / d, d);
    }
  }

  lemma BelowArith(x: nat, p: nat, m: nat, d: nat, rest: nat, v: nat)
    requires d > 0 && v == (p * m) * d + rest * m && x < p * m
    ensures x * d < v && v / d > x
  {
    MulMonotone(x + 1, p * m, d);
    Distribute(x, 1, d);
    Distribute(v / d, 1, d);
    if v / d <= x {
      MulMonotone(v / d + 1, x + 1, d);
    }
  }

  /** A digit that differs settles the comparison. */
  lemma Differs(ds: seq<char>, b: nat, d: nat, i: nat, dig: nat, rest: nat)
    requires Matched(ds, b, d, i, dig, rest) && i < |ds| && DigitOf(ds[i]) != dig
    ensures Verdict(ds, b, d) == Sign(DigitOf(ds[i]) - dig)
  {
    hide Pow, DecVal;
    var m := Pow(10, |ds| - 1 - i);
    ScaledUp(ds, b, d, i, dig, rest);
    DecTail(ds, i + 1);
    assert ds[..i + 1] == ds[..i] + [ds[i]];
    DecSnoc(ds[..i], ds[i]);
    var p, c := DecVal(ds[..i]) * 10 + dig, DecVal(ds[..i + 1]);
    if DigitOf(ds[i]) > dig {
      MulMonotone(p + 1, c, m);
      AboveArith(DecVal(ds), p, m, d, rest, b * Pow(10, |ds| - 1));
    } else {
      MulMonotone(c + 1, p, m);
      BelowArith(DecVal(ds), p, m, d, rest, b * Pow(10, |ds| - 1));
    }
  }

  /** When the digits agree and nothing of b remains, only later input digits can make a difference. */
  lemma Exhausted(ds: seq<char>, b: nat, d: nat, i: nat, dig: nat, nd: nat)
    requires Matched(ds, b, d, i, dig, 0) && i < |ds| && DigitOf(ds[i]) == dig
    requires 1 <= nd <= |ds| && ds[nd - 1] != '0' && forall j :: nd <= j < |ds| ==> ds[j] == '0'
    ensures Verdict(ds, b, d) == if i + 1 < nd then 1 else 0
  {
    hide Pow, DecVal;
    var m := Pow(10, |ds| - 1 - i);
    ScaledUp(ds, b, d, i, dig, 0);
    assert ds[..i + 1] == ds[..i] + [ds[i]];
    DecSnoc(ds[..i], ds[i]);
    var p := DecVal(ds[..i + 1]);
    RoundOf(b * Pow(10, |ds| - 1), d, p * m, 0);
    if i + 1 < nd {
      LaterDigit(ds, i + 1, nd);
      MulMonotone(p * m + 1, DecVal(ds), d);
      Distribute(p * m, 1, d);
    } else {
      ZerosTail(ds, i + 1);
    }
  }

  lemma LaterDigit(ds: seq<char>, i: nat, nd: nat)
    requires AllDigits(ds) && i < nd <= |ds| && ds[nd - 1] != '0'
    ensures DecVal(ds) > DecVal(ds[..i]) * Pow(10, |ds| - i)
  {
    hide Pow, DecVal;
    DecTail(ds[..nd], i);
    assert ds[..nd][..i] == ds[..i];
    DecTail(ds, nd);
    PowAdd(10, nd - i, |ds| - nd);
    PowPositive(10, |ds| - nd);
    LaterArith(DecVal(ds[..i]), Pow(10, nd - i), Pow(10, |ds| - nd), DecVal(ds[..nd]), DecVal(ds));
  }

  lemma LaterArith(x: nat, u: nat, w: nat, y: nat, z: nat)
    requires x * u < y && y * w <= z && w > 0
    ensures x * (u * w) < z
  {
    MulMonotone(x * u + 1, y, w);
    Distribute(x * u, 1, w);
    assert (x * u) * w == x * (u * w);
  }

  /** All digits matched: what is left of b decides, except that a last digit without remainder is overlooked. */
  lemma AllMatched(ds: seq<char>, b: nat, d: nat, dig: nat, rest: nat)
    requires |ds| > 0 && Matched(ds, b, d, |ds|, dig, rest) && dig <= 9
    ensures Verdict(ds, b, d) == if rest != 0 then -1 else 0
  {
    hide Pow, DecVal;
    var n, v := |ds|, b * Pow(10, |ds| - 1);
    assert ds[..n] == ds;
    TenTimes(b, n);
    RoundOf(b * Pow(10, n), d, DecVal(ds) * 10 + dig, rest);
    LastArith(v, DecVal(ds), dig, rest, d);
    RoundOf(v, d, DecVal(ds), v - DecVal(ds) * d);
  }

  lemma LastArith(v: nat, x: nat, dig: nat, rest: nat, d: nat)
    requires 10 * v == (x * 10 + dig) * d + rest && rest < d && dig <= 9
    ensures x * d <= v < x * d + d
    ensures v == x * d <==> dig == 0 && rest == 0
  {
    Distribute(x * 10, dig, d);
    assert (x * 10) * d == 10 * (x * d);
    MulMonotone(dig, 9, d);
    if dig > 0 {
      Grow(d, dig);
    }
  }

  // ---------------------------------------------------------------- the comparison loop

  /** b * 10 and the next digit of b/d. */
  method NextQuotient(b0: Bigint, d: Bigint) returns (b: Bigint, dig: nat)
    requires Operands(b0, d) && b0.Value() < d.Value()
    modifies b0, b0.x
    ensures b == b0 || (fresh(b) && fresh(b.x))
    ensures Operands(b, d) && b.Value() < d.Value() == old(d.Value()) && dig <= 9
    ensures MulAdd(old(b0.Value()), 10, 0) == Times(dig, d.Value()) + b.Value()
  {
    TenTimesLess(b0.Value(), d.Value());
    hide Val, Pow, MulAdd, Times, Shifted;
    b := TimesTen(b0, d);
    ghost var v := b.Value();
    dig := Quorem(b, d);
    QuotientDigit(dig, d.Value(), v, b.Value());
  }

  lemma TenTimesLess(b: nat, d: nat)
    requires b < d
    ensures MulAdd(b, 10, 0) < 10 * d
  {
  }

  /** One turn of either comparison loop on the input digit c; i counts the digits read before it. */
  method CompareTurn(b0: Bigint, d: Bigint, c: char, i: nat, dig0: nat, nd: nat,
                     ghost ds: seq<char>, ghost v: nat)
    returns (dd: int, stop: bool, b: Bigint, dig: nat)
    requires Operands(b0, d) && Matched(ds, v, d.Value(), i, dig0, b0.Value()) && i < |ds| && c == ds[i]
    requires 1 <= nd <= |ds| && ds[nd - 1] != '0' && forall j :: nd <= j < |ds| ==> ds[j] == '0'
    modifies b0, b0.x
    ensures b == b0 || (fresh(b) && fresh(b.x))
    ensures Operands(b, d) && d.Value() == old(d.Value())
    ensures stop ==> Sign(dd) == Verdict(ds, v, d.Value())
    ensures !stop ==> dd == 0 && dig <= 9 && Matched(ds, v, d.Value(), i + 1, dig, b.Value())
  {
    hide Val, Pow, Times, Verdict, DecVal, MulAdd;
    b, dig := b0, dig0;
    dd := DigitOf(c) - dig0;
    stop := true;
    if dd != 0 {
      Differs(ds, v, d.Value(), i, dig0, b0.Value());
      return;
    }
    if b.x[0] == 0 && b.wds == 1 {
      ZeroValue(b.Limbs(), b.x[0]);
      Exhausted(ds, v, d.Value(), i, dig0, nd);
      if i + 1 < nd {
        dd := 1;
      }
      return;
    }
    stop := false;
    ghost var rest := b.Value();
    b, dig := NextQuotient(b, d);
    MatchedStep(ds, v, d.Value(), i, dig0, rest, dig, b.Value());
  }

  /** b itself, or ten times b when its first quotient digit is zero. */
  function Dividend(b: nat, d: nat): nat
  {
    if b < d then 10 * b else b
  }

  method FirstQuotient(b0: Bigint, d: Bigint) returns (b: Bigint, dig: nat)
    requires Operands(b0, d) && b0.Value() > 0
    modifies b0, b0.x
    ensures b == b0 || (fresh(b) && fresh(b.x))
    ensures Operands(b, d) && b.Value() < d.Value() == old(d.Value())
    ensures Dividend(old(b0.Value()), d.Value()) == Times(dig, d.Value()) + b.Value()
  {
    ghost var v := b0.Value();
    b := b0;
    dig := Quorem(b, d);
    DividendCases(v, d.Value(), dig, b.Value());
    if dig == 0 {
      b, dig := NextQuotient(b, d);
    }
  }

  lemma DividendCases(v: nat, d: nat, dig: nat, rest: nat)
    requires v == Times(dig, d) + rest && rest < d
    ensures if dig == 0 then rest == v && Dividend(v, d) == MulAdd(v, 10, 0) else Dividend(v, d) == v
  {
    if dig > 0 {
      Grow(d, dig);
    }
  }

  /** bigcomp after its scaling: the sign of dd at the label ret. */
  method BigComp(b0: Bigint, d: Bigint, s0: string, nd0: nat, nd: nat, dp1: nat, ghost ds: seq<char>)
    returns (dd: int)
    requires Operands(b0, d) && b0.Value() > 0
    requires Input(s0, nd0, nd, dp1, ds)
    modifies b0, b0.x
    ensures d.Value() == old(d.Value()) > 0
    ensures Sign(dd) == Verdict(ds, Dividend(old(b0.Value()), d.Value()), d.Value())
  {
    PositiveShifted(d);
    hide Val, Pow, Times, Verdict, DecVal, MulAdd, Dividend;
    ghost var v := Dividend(b0.Value(), d.Value());
    var b, dig := FirstQuotient(b0, d);
    MatchedStart(ds, v, d.Value(), dig, b.Value());
    dd := 0;
    var i := 0;
    var stop := false;
    while i < nd0
      invariant b == b0 || (fresh(b) && fresh(b.x))
      invariant Operands(b, d) && d.Value() == old(d.Value())
      invariant 0 <= i <= nd0 && Matched(ds, v, d.Value(), i, dig, b.Value())
      invariant i > 0 ==> dd == 0 && dig <= 9
    {
      assert s0[i] == ds[..nd0][i];
      dd, stop, b, dig := CompareTurn(b, d, s0[i], i, dig, nd, ds, v);
      if stop {
        return;
      }
      i := i + 1;
    }
    dd := CompareRest(b, d, s0, i, nd, dp1, dig, ds, v);
  }

  /** The loop over the digits behind the decimal point, and the final look at what is left of b. */
  method CompareRest(b0: Bigint, d: Bigint, s0: string, i0: nat, nd: nat, dp1: nat, dig0: nat,
                     ghost ds: seq<char>, ghost v: nat)
    returns (dd: int)
    requires Operands(b0, d) && d.Value() > 0
    requires Input(s0, i0, nd, dp1, ds)
    requires Matched(ds, v, d.Value(), i0, dig0, b0.Value()) && dig0 <= 9
    modifies b0, b0.x
    ensures d.Value() == old(d.Value())
    ensures Sign(dd) == Verdict(ds, v, d.Value())
  {
    hide Val, Pow, Times, Verdict, DecVal, MulAdd;
    var b, dig, i, j := b0, dig0, i0, dp1;
    dd := 0;
    var stop := false;
    while i < nd
      invariant b == b0 || (fresh(b) && fresh(b.x))
      invariant Operands(b, d) && d.Value() == old(d.Value())
      invariant i0 <= i <= |ds| && j == dp1 + i - i0 && Matched(ds, v, d.Value(), i, dig, b.Value())
      invariant dd == 0 && dig <= 9
      decreases nd - i
    {
      assert s0[j] == ds[i0..][i - i0] by {
        assert s0[dp1..dp1 + nd - i0][i - i0] == s0[j];
      }
      dd, stop, b, dig := CompareTurn(b, d, s0[j], i, dig, nd, ds, v);
      if stop {
        return;
      }
      i, j := i + 1, j + 1;
    }
    AllMatched(ds, v, d.Value(), dig, b.Value());
    ZeroValue(b.Limbs(), b.x[0]);
    if b.x[0] != 0 || b.wds > 1 {
      dd := -1;
    }
  }

  // ---------------------------------------------------------------- when the sign is right

  /** The comparison bigcomp is there for, and its outcome for an input d0.d1d2... with d0 not zero. */
  ghost predicate SignIsRight(ds: seq<char>, b: nat, d: nat)
    requires AllDigits(ds) && |ds| > 0 && d > 0
  {
    Verdict(ds, Dividend(b, d), d) == Sign(InputAgainst(ds, b, d))
  }

  /**
   Exactly when bigcomp answers correctly: with a non-zero first quotient digit, unless b/d goes on
   for one more place than the input; with a zero one, only if the input exceeds even 10*b/d.
   */
  lemma RightExactlyWhen(ds: seq<char>, b: nat, d: nat)
    requires AllDigits(ds) && |ds| > 0 && ds[0] != '0' && d > 0
    ensures SignIsRight(ds, b, d)
      <==> if b >= d then !OneMorePlace(ds, b, d) else InputAgainst(ds, 10 * b, d) > 0
  {
    hide Pow, DecVal;
    var n, p := |ds|, Pow(10, |ds| - 1);
    if b >= d {
      if OneMorePlace(ds, b, d) {
        RemainderLeft(b * p, d, DecVal(ds));
      }
    } else {
      LeadingDigit(ds);
      MulMonotone(b + 1, d, p);
      Distribute(b, 1, p);
      MulMonotone(p, DecVal(ds), d);
      if OneMorePlace(ds, 10 * b, d) {
        RemainderLeft(10 * b * p, d, DecVal(ds));
      }
    }
  }

  lemma RemainderLeft(v: nat, d: nat, q: nat)
    requires d > 0 && q == v / d && v % d != 0
    ensures q * d < v
  {
  }

  lemma LeadingDigit(ds: seq<char>)
    requires AllDigits(ds) && |ds| > 0 && ds[0] != '0'
    ensures DecVal(ds) >= Pow(10, |ds| - 1) > 0
  {
    DecTail(ds, 1);
    assert ds[..1] == [] + [ds[0]];
    DecSnoc([], ds[0]);
    PowPositive(10, |ds| - 1);
    MulMonotone(1, DecVal(ds[..1]), Pow(10, |ds| - 1));
  }

  /**
   At a call of bigcomp the first k digits of the input, all that strtod kept, are not above b/d: it is called only when
   they exceed the approximation by at most half a unit, and b/d lies half a unit above that. So the first quotient
   digit is not zero.
   */
  lemma QuotientNotZero(ds: seq<char>, k: nat, b: nat, d: nat)
    requires AllDigits(ds) && 1 <= k <= |ds| && ds[0] != '0'
    requires DecVal(ds[..k]) * d <= b * Pow(10, k - 1)
    ensures b >= d
  {
    hide Pow, DecVal;
    var p := Pow(10, k - 1);
    LeadingDigit(ds[..k]);
    MulMonotone(p, DecVal(ds[..k]), d);
    if b < d {
      MulMonotone(b + 1, d, p);
      Distribute(b, 1, p);
    }
  }

  /** At every call the sign is right exactly unless b/d goes on for one more place than the input. */
  lemma RightAtCalls(ds: seq<char>, k: nat, b: nat, d: nat)
    requires AllDigits(ds) && 1 <= k <= |ds| && ds[0] != '0' && d > 0
    requires DecVal(ds[..k]) * d <= b * Pow(10, k - 1)
    ensures SignIsRight(ds, b, d) <==> !OneMorePlace(ds, b, d)
  {
    hide Pow, DecVal, OneMorePlace, SignIsRight;
    QuotientNotZero(ds, k, b, d);
    RightExactlyWhen(ds, b, d);
  }

  /** The last n decimal digits of x. */
  function Spelled(x: nat, n: nat): (ds: seq<char>)
    ensures |ds| == n && AllDigits(ds)
  {
    if n == 0 then [] else Spelled(x / 10, n - 1) + ['0' + (x % 10) as char]
  }

  lemma {:induction false} SpelledValue(x: nat, n: nat)
    requires x < Pow(10, n)
    ensures DecVal(Spelled(x, n)) == x
  {
    if n > 0 {
      var last := '0' + (x % 10) as char;
      TenTimes(1, n);
      SpelledValue(x / 10, n - 1);
      DecSnoc(Spelled(x / 10, n - 1), last);
    }
  }

  /** The first digits of a spelled number spell its front. */
  lemma {:induction false} SpelledFront(x: nat, n: nat, k: nat, p: nat)
    requires p > 0 && k <= n && p == Pow(10, n - k)
    ensures Spelled(x, n)[..k] == Spelled(x / p, k)
    decreases n - k
  {
    hide Pow;
    if k == n {
      PowNone();
      assert Spelled(x, n)[..n] == Spelled(x, n);
    } else {
      TenTimes(1, n - k);
      PowPositive(10, n - k - 1);
      SpelledFront(x / 10, n - 1, k, p / 10);
      QuotientTwice(x, p / 10);
      assert Spelled(x, n)[..k] == Spelled(x / 10, n - 1)[..k];
    }
  }

  lemma PowNone()
    ensures Pow(10, 0) == 1
  {
  }

  lemma QuotientTwice(x: nat, p: nat)
    requires p > 0
    ensures x / 10 / p == x / (10 * p)
  {
    var q, r := x / 10 / p, x / 10 % p;
    assert x / 10 == q * p + r;
    var rest := 10 * r + x % 10;
    assert x == q * (10 * p) + rest by {
      assert q * (10 * p) == 10 * (q * p);
    }
    RoundOf(x, 10 * p, q, rest);
  }

  lemma SpelledLast(x: nat, n: nat)
    requires n > 0
    ensures Spelled(x, n)[n - 1] == '0' + (x % 10) as char
  {
  }

  lemma LargePowers()
    ensures Pow(10, 17) == 100000000000000000
    ensures Pow(10, 18) == 1000000000000000000
    ensures Pow(10, 35) == 100000000000000000000000000000000000
    ensures Pow(10, 52) == 10000000000000000000000000000000000000000000000000000
    ensures Pow(10, 53) == 100000000000000000000000000000000000000000000000000000
  {
    hide Pow;
    PowNone();
    TenTimes(1, 1);
    PowAdd(10, 1, 1);
    assert Pow(10, 2) == 100;
    PowAdd(10, 2, 2);
    assert Pow(10, 4) == 10000;
    PowAdd(10, 4, 4);
    assert Pow(10, 8) == 100000000;
    PowAdd(10, 8, 8);
    assert Pow(10, 16) == 10000000000000000;
    PowAdd(10, 16, 1);
    assert Pow(10, 17) == 100000000000000000;
    PowAdd(10, 17, 1);
    assert Pow(10, 18) == 1000000000000000000;
    PowAdd(10, 17, 17);
    assert Pow(10, 34) == 10000000000000000000000000000000000;
    PowAdd(10, 34, 1);
    assert Pow(10, 35) == 100000000000000000000000000000000000;
    PowAdd(10, 35, 17);
    assert Pow(10, 52) == 10000000000000000000000000000000000000000000000000000;
    PowAdd(10, 52, 1);
    assert Pow(10, 53) == 100000000000000000000000000000000000000000000000000000;
  }

  const LONG_INPUT: nat := 10000000000000003330669073875469621270895004272460937

  /**
   1.0000000000000003330669073875469621270895004272460937, with its 53 digits, against the half-way value
   (2^53 + 3) / 2^53, which has the further digit 5. It lies between 1 + 2^-52 and 1 + 2^-51 and nearer to the first,
   whose fraction is odd; bigcomp takes it for the half-way value, and the second is chosen for its even fraction.
   */
  lemma OverlooksLastDigit()
    ensures var ds, b, d := Spelled(LONG_INPUT, 53), 0x20_0000_0000_0003 * 0x40, 0x800_0000_0000_0000;
      && ds[0] == '1' && ds[52] == '7' && DecVal(ds) == LONG_INPUT
      && DecVal(ds[..18]) * d <= b * Pow(10, 17)
      && Verdict(ds, b, d) == 0 && InputAgainst(ds, b, d) < 0 && !SignIsRight(ds, b, d)
  {
    hide DecVal, Pow, Spelled;
    LargePowers();
    var ds, b, d := Spelled(LONG_INPUT, 53), 0x20_0000_0000_0003 * 0x40, 0x800_0000_0000_0000;
    SpelledValue(LONG_INPUT, 53);
    SpelledFront(LONG_INPUT, 53, 18, Pow(10, 35));
    SpelledValue(LONG_INPUT / Pow(10, 35), 18);
    SpelledFront(LONG_INPUT, 53, 1, Pow(10, 52));
    SpelledLast(LONG_INPUT, 53);
    SpelledLast(1, 1);
    RightExactlyWhen(ds, b, d);
  }
}
