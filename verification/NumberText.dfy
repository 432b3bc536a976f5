/** Decimal numbers as text: the layouts of g_fmt.c and the scanning front end of fpconv_strtod in dtoa.c. */
module NumberText {
  import opened Limbs
  import opened DecimalDigits

  // ---------------------------------------------------------------- reading a C string

  /** The character at s + i; a C string ends with a NUL. */
  function At(s: string, i: nat): char
  {
    if i < |s| then s[i] else '\0'
  }

  /** The characters of word stand at i. */
  predicate StartsWith(s: string, i: nat, word: string)
  {
    i + |word| <= |s| && s[i..i + |word|] == word
  }

  predicate Digit(c: char)
  {
    '0' <= c <= '9'
  }

  predicate Blank(c: char)
  {
    c in "\t\n\r \U{0B}\U{0C}"
  }

  /** The end of the blanks, of the digits, from i on. */
  function BlankEnd(s: string, i: nat): (r: nat)
    ensures i <= r && (i <= |s| ==> r <= |s|)
    decreases |s| - i
  {
    if i < |s| && Blank(s[i]) then BlankEnd(s, i + 1) else i
  }

  function DigitEnd(s: string, i: nat): (r: nat)
    ensures i <= r && (i <= |s| ==> r <= |s|)
    ensures forall k :: i <= k < r ==> k < |s| && Digit(s[k])
    ensures !Digit(At(s, r))
    decreases |s| - i
  {
    if i < |s| && Digit(s[i]) then DigitEnd(s, i + 1) else i
  }

  lemma {:induction false} DigitEndAt(s: string, i: nat, r: nat)
    requires i <= r <= |s| && AllDigits(s[i..r]) && !Digit(At(s, r))
    ensures DigitEnd(s, i) == r
    decreases r - i
  {
    if i < r {
      assert s[i..r][0] == s[i] && s[i..r][1..] == s[i + 1..r];
      DigitEndAt(s, i + 1, r);
    }
  }

  // ---------------------------------------------------------------- what a number's text means

  /** A decimal number as written: whole.frac * 10^exp, its text ending at end. */
  datatype Parts = Parts(neg: bool, whole: string, frac: string, exp: int, end: nat)

  /** The exponent field at i: nothing is read unless e is followed by an optional sign and a digit. */
  function ExpStart(s: string, i: nat): nat
  {
    if At(s, i + 1) == '-' || At(s, i + 1) == '+' then i + 2 else i + 1
  }

  predicate HasExp(s: string, i: nat)
  {
    (At(s, i) == 'e' || At(s, i) == 'E') && Digit(At(s, ExpStart(s, i)))
  }

  function ExpDigits(s: string, i: nat): (d: string)
    requires HasExp(s, i)
    ensures AllDigits(d) && |d| > 0
  {
    var b := ExpStart(s, i);
    assert DigitEnd(s, b) > b;
    s[b..DigitEnd(s, b)]
  }

  function Exponent(s: string, i: nat): int
  {
    if !HasExp(s, i) then 0
    else if At(s, i + 1) == '-' then 0 - DecVal(ExpDigits(s, i))
    else DecVal(ExpDigits(s, i))
  }

  function ExpEnd(s: string, i: nat): nat
  {
    if HasExp(s, i) then DigitEnd(s, ExpStart(s, i)) else i
  }

  /** Where the digits of the number at i begin. */
  function SignEnd(s: string, i: nat): nat
  {
    var a := BlankEnd(s, i);
    if At(s, a) == '-' || At(s, a) == '+' then a + 1 else a
  }

  function FracStart(s: string, d: nat): nat
  {
    if At(s, d) == '.' then d + 1 else d
  }

  function Between(s: string, a: nat, b: nat): string
  {
    if a <= b <= |s| then s[a..b] else ""
  }

  /** The digits before and after the point, of a number whose digits begin at b. */
  function WholeOf(s: string, b: nat): (w: string)
    ensures AllDigits(w)
  {
    Between(s, b, DigitEnd(s, b))
  }

  function FracOf(s: string, b: nat): (t: string)
    ensures AllDigits(t)
  {
    Between(s, FracStart(s, DigitEnd(s, b)), MantissaEnd(s, b))
  }

  function MantissaEnd(s: string, b: nat): nat
  {
    var d := DigitEnd(s, b);
    if FracStart(s, d) > d then DigitEnd(s, d + 1) else d
  }

  /** The decimal number at i. */
  function Dissect(s: string, i: nat): (p: Parts)
    ensures AllDigits(p.whole) && AllDigits(p.frac)
  {
    var b := SignEnd(s, i);
    var g := MantissaEnd(s, b);
    Parts(At(s, BlankEnd(s, i)) == '-', WholeOf(s, b), FracOf(s, b), Exponent(s, g), ExpEnd(s, g))
  }

  /** There is at least one digit. */
  predicate Numeric(s: string, i: nat)
  {
    Dissect(s, i).whole != "" || Dissect(s, i).frac != ""
  }

  /** m * 10^e and n * 10^f are the same rational. */
  predicate SameNumber(m: nat, e: int, n: nat, f: int)
  {
    if e >= f then m * Pow(10, e - f) == n else m == n * Pow(10, f - e)
  }

  // ---------------------------------------------------------------- digits without the idle zeros

  function Strip(ds: string): string
  {
    if |ds| > 0 && ds[0] == '0' then Strip(ds[1..]) else ds
  }

  /** How many digits of a fraction matter. */
  function Kept(t: string): (k: nat)
    ensures k <= |t|
  {
    if |t| == 0 then 0 else if t[|t| - 1] == '0' then Kept(t[..|t| - 1]) else |t|
  }

  lemma KeptSnoc(t: string, c: char)
    ensures Kept(t + [c]) == if c == '0' then Kept(t) else |t| + 1
  {
    assert (t + [c])[..|t|] == t;
  }

  lemma {:induction false} KeptTail(t: string)
    ensures t == t[..Kept(t)] + Zeros(|t| - Kept(t))
  {
    if |t| > 0 && t[|t| - 1] == '0' {
      var u := t[..|t| - 1];
      KeptTail(u);
      assert t == u + ['0'];
      assert t[..Kept(t)] == u[..Kept(u)];
      assert Zeros(|t| - Kept(t)) == Zeros(|u| - Kept(u)) + ['0'];
    } else {
      assert t[..Kept(t)] == t;
    }
  }

  function Zeros(n: nat): string
  {
    seq(n, _ => '0')
  }

  lemma {:induction false} StripAppend(a: string, b: string)
    ensures Strip(a + b) == if Strip(a) == "" then Strip(b) else Strip(a) + b
  {
    if a == "" {
      assert a + b == b;
    } else if a[0] == '0' {
      assert (a + b)[1..] == a[1..] + b;
      StripAppend(a[1..], b);
    }
  }

  lemma {:induction false} StripValue(ds: string)
    requires AllDigits(ds)
    ensures AllDigits(Strip(ds)) && DecVal(Strip(ds)) == DecVal(ds)
    ensures Strip(ds) != "" ==> Strip(ds)[0] != '0'
  {
    if |ds| > 0 && ds[0] == '0' {
      StripValue(ds[1..]);
      LeadingZero(ds);
    }
  }

  lemma {:induction false} LeadingZero(ds: string)
    requires AllDigits(ds) && |ds| > 0 && ds[0] == '0'
    ensures DecVal(ds[1..]) == DecVal(ds)
  {
    var n := |ds| - 1;
    if n > 0 {
      LeadingZero(ds[..n]);
      assert ds[1..][..n - 1] == ds[..n][1..];
    } else {
      assert ds[..0] == [];
    }
  }

  lemma {:induction false} NonZeroValue(ds: string)
    requires AllDigits(ds) && |ds| > 0 && ds[0] != '0'
    ensures DecVal(ds) > 0
  {
    if |ds| > 1 {
      NonZeroValue(ds[..|ds| - 1]);
    } else {
      assert ds[..0] == [];
    }
  }

  lemma {:induction false} TrailingZeros(ds: string, n: nat)
    requires AllDigits(ds)
    ensures AllDigits(ds + Zeros(n)) && DecVal(ds + Zeros(n)) == DecVal(ds) * Pow(10, n)
  {
    if n == 0 {
      assert ds + Zeros(0) == ds;
    } else {
      TrailingZeros(ds, n - 1);
      assert ds + Zeros(n) == (ds + Zeros(n - 1)) + ['0'];
      DecSnoc(ds + Zeros(n - 1), '0');
      TenTimes(DecVal(ds), n);
    }
  }

  lemma {:induction false} LeadingZeros(n: nat, ds: string)
    requires AllDigits(ds)
    ensures AllDigits(Zeros(n) + ds) && DecVal(Zeros(n) + ds) == DecVal(ds)
  {
    if n == 0 {
      assert Zeros(0) + ds == ds;
    } else {
      LeadingZeros(n - 1, ds);
      assert (Zeros(n) + ds)[1..] == Zeros(n - 1) + ds;
      LeadingZero(Zeros(n) + ds);
    }
  }

  // ---------------------------------------------------------------- fpconv_strtod, up to the digits

  /** nd digits starting at s0, nd0 of them before the point, to be multiplied by 10^e; y and z hold the first 16. */
  datatype Scanned =
    | Nothing
    | Special(at: nat)
    | Decimal(neg: bool, s0: nat, nd0: nat, nd: nat, y: nat, z: nat, e: int, end: nat)

  function Lower(c: char): char
  {
    if 'A' <= c <= 'Z' then c + 32 as char else c
  }

  /** Infinity, inf and NaN in either case, at b. */
  predicate Named(s: string, b: nat)
  {
    || (Lower(At(s, b)) == 'i' && Lower(At(s, b + 1)) == 'n' && Lower(At(s, b + 2)) == 'f')
    || (Lower(At(s, b)) == 'n' && Lower(At(s, b + 1)) == 'a' && Lower(At(s, b + 2)) == 'n')
  }

  predicate Hex(s: string, b: nat)
  {
    At(s, b) == '0' && (At(s, b + 1) == 'x' || At(s, b + 1) == 'X')
  }

  /** The digits that matter, from the first that is not zero. */
  function Significant(p: Parts): string
  {
    Strip(p.whole + p.frac[..Kept(p.frac)])
  }

  /** Exponents beyond 19999 are all taken for 19999. */
  function Clamp(x: int): int
  {
    if x > 19999 then 19999 else if x < -19999 then -19999 else x
  }

  /** What the front end leaves for the conversion that follows. */
  ghost predicate ScansTo(s: string, i: nat, r: Scanned)
  {
    var p := Dissect(s, i);
    var b := SignEnd(s, i);
    match r
    case Nothing => !Numeric(s, i) && !Named(s, b)
    case Special(at) => at == b && (Hex(s, b) || (!Numeric(s, i) && Named(s, b)))
    case Decimal(neg, s0, nd0, nd, y, z, e, end) =>
      && Numeric(s, i) && !Hex(s, b)
      && neg == p.neg && end == p.end
      && nd == |Significant(p)|
      && (nd > 0 ==> Collected(s, s0, nd0, y, z, Significant(p)) && e == Clamp(p.exp) - Kept(p.frac))
  }

  /** The digits ds lie at s0, and their first 9 and next 7 are already y and z. */
  ghost predicate Collected(s: string, s0: nat, nd0: nat, y: nat, z: nat, ds: string)
  {
    && s0 <= |s| && nd0 <= |ds| && DigitsAt(s[s0..], nd0, 1, ds)
    && Summed(ds, y, z)
  }

  /** y and z after reading ds. */
  ghost predicate Summed(ds: string, y: nat, z: nat)
  {
    && AllDigits(ds)
    && y == DecVal(if |ds| <= 9 then ds else ds[..9])
    && z == DecVal(if |ds| <= 9 then "" else if |ds| <= 16 then ds[9..] else ds[9..16])
  }

  lemma SummedSnoc(ds: string, y: nat, z: nat, c: char)
    requires Summed(ds, y, z) && Digit(c)
    ensures Summed(ds + [c], if |ds| < 9 then 10 * y + DigitOf(c) else y,
                   if 9 <= |ds| < 16 then 10 * z + DigitOf(c) else z)
  {
    var t := ds + [c];
    DecSnoc(ds, c);
    if |ds| == 9 {
      assert t[..9] == ds && t[9..] == [] + [c];
      DecSnoc([], c);
    } else if 9 < |ds| < 16 {
      assert t[..9] == ds[..9] && t[9..] == ds[9..] + [c];
      DecSnoc(ds[9..], c);
    } else if |ds| >= 16 {
      assert t[..9] == ds[..9] && t[9..16] == ds[9..16];
      if |ds| == 16 {
        assert ds[9..] == ds[9..16];
      }
    }
  }

  /** One more digit for y or z. */
  method Push(nd: nat, y0: nat, z0: nat, c: char, ghost ds: string) returns (y: nat, z: nat)
    requires Digit(c) && |ds| == nd && Summed(ds, y0, z0)
    ensures Summed(ds + [c], y, z)
  {
    SummedSnoc(ds, y0, z0, c);
    y, z := y0, z0;
    if nd < 9 {
      y := 10 * y + DigitOf(c);
    } else if nd < 16 {
      z := 10 * z + DigitOf(c);
    }
  }

  method LeadIn(s: string, s00: nat) returns (b: nat, neg: bool)
    requires s00 <= |s|
    ensures b == SignEnd(s, s00) && b <= |s| && neg == (At(s, BlankEnd(s, s00)) == '-')
  {
    b := s00;
    while b < |s| && Blank(s[b])
      invariant s00 <= b <= |s| && BlankEnd(s, s00) == BlankEnd(s, b)
    {
      b := b + 1;
    }
    neg := At(s, b) == '-';
    if At(s, b) == '-' || At(s, b) == '+' {
      b := b + 1;
    }
  }

  lemma StripSnoc(t: string, c: char)
    requires Strip(t) != "" || c != '0'
    ensures Strip(t + [c]) == Strip(t) + [c]
  {
    StripAppend(t, [c]);
  }

  lemma DigitsSnoc(s: string, b: nat, p: nat)
    requires b <= p < |s| && AllDigits(s[b..p]) && Digit(s[p])
    ensures s[b..p + 1] == s[b..p] + [s[p]] && AllDigits(s[b..p + 1])
  {
    assert s[b..p + 1] == s[b..p] + [s[p]];
  }

  /** Leading zeros, of which nothing is kept. */
  method SkipZeros(s: string, b: nat) returns (p: nat)
    requires b <= |s|
    ensures b <= p <= |s| && s[b..p] == Zeros(p - b) && At(s, p) != '0'
    ensures AllDigits(s[b..p]) && Strip(s[b..p]) == "" && Kept(s[b..p]) == 0
  {
    p := b;
    while At(s, p) == '0'
      invariant b <= p <= |s|
      invariant s[b..p] == Zeros(p - b) && AllDigits(s[b..p]) && Strip(s[b..p]) == "" && Kept(s[b..p]) == 0
      decreases |s| - p
    {
      DigitsSnoc(s, b, p);
      StripAppend(s[b..p], ['0']);
      assert Strip(['0']) == Strip([]);
      KeptSnoc(s[b..p], '0');
      p := p + 1;
    }
  }

  /** The digits before the point from the first that is not zero. */
  method ReadWhole(s: string, b: nat, s0: nat) returns (p: nat, nd: nat, y: nat, z: nat)
    requires b <= s0 <= |s| && AllDigits(s[b..s0]) && Strip(s[b..s0]) == "" && At(s, s0) != '0'
    ensures s0 <= p <= |s| && p == DigitEnd(s, b) && nd == p - s0
    ensures Strip(s[b..p]) == s[s0..p] && Summed(s[s0..p], y, z) && AllDigits(s[b..p])
  {
    hide Strip, Summed, DecVal;
    p, nd, y, z := s0, 0, 0, 0;
    SummedNone();
    assert s[s0..s0] == "";
    while Digit(At(s, p))
      invariant s0 <= p <= |s| && nd == p - s0 && AllDigits(s[b..p])
      invariant Strip(s[b..p]) == s[s0..p] && Summed(s[s0..p], y, z)
      decreases |s| - p
    {
      DigitsSnoc(s, b, p);
      StripSnoc(s[b..p], s[p]);
      assert s[s0..p + 1] == s[s0..p] + [s[p]];
      y, z := Push(nd, y, z, s[p], s[s0..p]);
      nd, p := nd + 1, p + 1;
    }
    DigitEndAt(s, b, p);
  }

  lemma SummedNone()
    ensures Summed("", 0, 0)
  {
  }

  method PushZeros(nd: nat, y0: nat, z0: nat, n: nat, ghost ds: string) returns (y: nat, z: nat)
    requires |ds| == nd && Summed(ds, y0, z0)
    ensures Summed(ds + Zeros(n), y, z)
  {
    hide Summed;
    y, z := y0, z0;
    assert ds + Zeros(0) == ds;
    for i := 0 to n
      invariant Summed(ds + Zeros(i), y, z)
    {
      y, z := Push(nd + i, y, z, '0', ds + Zeros(i));
      assert ds + Zeros(i + 1) == (ds + Zeros(i)) + ['0'];
    }
  }

  /** Of the fraction t, nf digits are in ds and nz zeros are held back. */
  ghost predicate Pending(whole: string, t: string, ds: string, nf: nat, nz: nat)
  {
    && nf + nz == |t| && t == t[..nf] + Zeros(nz)
    && ds == Strip(whole + t[..nf])
    && (ds == "" ==> nz == 0)
  }

  lemma PendingDigit(whole: string, t: string, ds: string, nf: nat, nz: nat, c: char)
    requires Pending(whole, t, ds, nf, nz) && c != '0'
    ensures Pending(whole, t + [c], ds + Zeros(nz) + [c], |t| + 1, 0) && Kept(t + [c]) == |t| + 1
  {
    KeptSnoc(t, c);
    var u := t + [c];
    assert u[..|t| + 1] == u && u == u + Zeros(0);
    if ds != "" {
      StripAppend(whole + t[..nf], Zeros(nz));
      assert (whole + t[..nf]) + Zeros(nz) == whole + t;
    } else {
      assert whole + t[..nf] == whole + t;
      assert ds + Zeros(nz) == ds;
    }
    StripSnoc(whole + t, c);
    assert whole + u == (whole + t) + [c];
  }

  lemma PendingZero(whole: string, t: string, ds: string, nf: nat, nz: nat)
    requires Pending(whole, t, ds, nf, nz) && ds != ""
    ensures Pending(whole, t + ['0'], ds, nf, nz + 1) && Kept(t + ['0']) == Kept(t)
  {
    KeptSnoc(t, '0');
    assert (t + ['0'])[..nf] == t[..nf];
    assert Zeros(nz + 1) == Zeros(nz) + ['0'];
  }

  /** The loop over the fraction, entered in the middle when the first digits of it were zeros. */
  method ReadFraction(s: string, f: nat, p0: nat, nf0: nat, nd0: nat, y0: nat, z0: nat,
                      ghost whole: string, ghost ds0: string)
    returns (p: nat, nf: nat, nd: nat, y: nat, z: nat, ghost ds: string)
    requires f <= p0 <= |s| && AllDigits(s[f..p0]) && nf0 == p0 - f
    requires Pending(whole, s[f..p0], ds0, nf0, 0) && nd0 == |ds0| && Summed(ds0, y0, z0)
    requires p0 == f || '0' < At(s, p0) <= '9'
    requires ds0 == "" ==> '0' < At(s, p0) <= '9'
    ensures f <= p0 <= p <= |s| && p == DigitEnd(s, f) && AllDigits(s[f..p]) && nf == Kept(s[f..p])
    ensures ds == Strip(whole + s[f..p][..nf]) && |ds| == nd > 0 && Summed(ds, y, z)
  {
    hide Pending, Strip, Kept, Summed, DecVal, DigitEnd;
    p, nf, nd, y, z, ds := p0, nf0, nd0, y0, z0, ds0;
    var nz := 0;
    NoneKept(s[f..p0]);
    while Digit(At(s, p))
      invariant f <= p0 <= p <= |s| && AllDigits(s[f..p]) && Pending(whole, s[f..p], ds, nf, nz)
      invariant nf == Kept(s[f..p]) || (nz == 0 && '0' < At(s, p) <= '9')
      invariant ds == "" ==> '0' < At(s, p) <= '9'
      invariant |ds| == nd && Summed(ds, y, z)
      decreases |s| - p
    {
      DigitsSnoc(s, f, p);
      if s[p] == '0' {
        PendingZero(whole, s[f..p], ds, nf, nz);
        nz := nz + 1;
      } else {
        PendingDigit(whole, s[f..p], ds, nf, nz, s[p]);
        y, z := PushZeros(nd, y, z, nz, ds);
        y, z := Push(nd + nz, y, z, s[p], ds + Zeros(nz));
        nf, nd, ds := p + 1 - f, nd + nz + 1, ds + Zeros(nz) + [s[p]];
        nz := 0;
      }
      p := p + 1;
    }
    DigitEndAt(s, f, p);
    PendingIs(whole, s[f..p], ds, nf, nz);
  }

  lemma NoneKept(t: string)
    ensures t == "" ==> Kept(t) == 0
  {
  }

  lemma PendingIs(whole: string, t: string, ds: string, nf: nat, nz: nat)
    requires Pending(whole, t, ds, nf, nz)
    ensures nf <= |t| && ds == Strip(whole + t[..nf])
  {
  }

  lemma {:induction false} FirstDigitCounts(ds: string)
    requires AllDigits(ds) && |ds| > 0 && ds[0] != '0'
    ensures DecVal(ds) >= Pow(10, |ds| - 1)
  {
    if |ds| > 1 {
      FirstDigitCounts(ds[..|ds| - 1]);
    } else {
      assert ds[..0] == [];
    }
  }

  /** The exponent: at most 19999, which also stands for all that do not fit. */
  method ReadExponent(s: string, i: nat) returns (e: int, end: nat)
    requires i < |s| && (s[i] == 'e' || s[i] == 'E')
    ensures e == Clamp(Exponent(s, i)) && end == ExpEnd(s, i) <= |s|
  {
    hide DecVal;
    var b := i + 1;
    var esign := false;
    if At(s, b) == '-' {
      esign := true;
      b := b + 1;
    } else if At(s, b) == '+' {
      b := b + 1;
    }
    if !Digit(At(s, b)) {
      return 0, i;
    }
    var s1 := SkipZeros(s, b);
    var l;
    end, l := ReadDigits(s, b, s1);
    e := if end - s1 > 8 || l > 19999 then 19999 else l;
    Overlong(s, s1, end, l);
    if esign {
      e := -e;
    }
  }

  lemma Overlong(s: string, s1: nat, end: nat, l: nat)
    requires s1 <= end <= |s| && AllDigits(s[s1..end]) && l == DecVal(s[s1..end])
    requires At(s, s1) != '0'
    ensures end - s1 > 8 ==> l > 19999
  {
    hide DecVal;
    if end - s1 > 8 {
      FirstDigitCounts(s[s1..end]);
      PowMonotone(10, 8, end - s1 - 1);
      TenToEight();
    }
  }

  lemma TenToEight()
    ensures Pow(10, 8) == 100000000
  {
    assert Pow(10, 2) == 100 by { assert Pow(10, 1) == 10 * Pow(10, 0); }
    PowAdd(10, 2, 2);
    PowAdd(10, 4, 4);
  }

  method ReadDigits(s: string, b: nat, s1: nat) returns (q: nat, l: nat)
    requires b <= s1 <= |s| && s[b..s1] == Zeros(s1 - b) && Digit(At(s, b)) && At(s, s1) != '0'
    ensures s1 <= q <= |s| && q == DigitEnd(s, b) && AllDigits(s[s1..q]) && l == DecVal(s[s1..q])
    ensures AllDigits(s[b..q]) && DecVal(s[b..q]) == l
  {
    q, l := s1, 0;
    assert s[s1..s1] == "";
    hide DecVal;
    while Digit(At(s, q))
      invariant s1 <= q <= |s| && AllDigits(s[s1..q]) && l == DecVal(s[s1..q])
      decreases |s| - q
    {
      DigitsSnoc(s, s1, q);
      DecSnoc(s[s1..q], s[q]);
      l := 10 * l + DigitOf(s[q]);
      q := q + 1;
    }
    assert s[b..q] == Zeros(s1 - b) + s[s1..q];
    LeadingZeros(s1 - b, s[s1..q]);
    DigitEndAt(s, b, q);
  }

  /** Case: digits before the point. */
  lemma LiesAcross(s: string, b: nat, s0: nat, d: nat, p: nat, nf: nat, ds: string)
    requires b <= s0 < d < p <= |s| && At(s, d) == '.' && AllDigits(s[b..d])
    requires Strip(s[b..d]) == s[s0..d] && AllDigits(s[d + 1..p]) && nf <= p - d - 1
    requires ds == Strip(s[b..d] + s[d + 1..p][..nf])
    ensures DigitsAt(s[s0..], d - s0, 1, ds) && |ds| == d - s0 + nf
  {
    hide Strip, AllDigits;
    StripAppend(s[b..d], s[d + 1..p][..nf]);
    assert ds == s[s0..d] + s[d + 1..p][..nf];
    SuffixDigits(s, b, s0, d);
    JoinDigits(s[s0..d], s[d + 1..p], nf);
    forall i | 0 <= i < d - s0 ensures DigitAt(s[s0..], ds, i, 0) {
      assert s[s0..][i] == s[s0..d][i];
    }
    forall i | d - s0 <= i < |ds| ensures DigitAt(s[s0..], ds, i, 1) {
      DigitBehind(s, s0, d, p, nf, i);
    }
  }

  lemma JoinDigits(a: string, b: string, n: nat)
    requires AllDigits(a) && AllDigits(b) && n <= |b|
    ensures AllDigits(a + b[..n])
  {
  }

  lemma DigitBehind(s: string, s0: nat, d: nat, p: nat, nf: nat, i: nat)
    requires s0 < d < p <= |s| && nf <= p - d - 1 && d - s0 <= i < d - s0 + nf
    ensures s0 + i + 1 < |s| && s[s0..][i + 1] == s[d + 1..p][..nf][i - (d - s0)]
  {
    var j := i - (d - s0);
    assert s[d + 1..p][..nf][j] == s[d + 1..p][j] == s[d + 1 + j];
  }

  lemma SuffixDigits(s: string, b: nat, s0: nat, d: nat)
    requires b <= s0 <= d <= |s| && AllDigits(s[b..d])
    ensures AllDigits(s[s0..d])
  {
    forall i | 0 <= i < |s[s0..d]| ensures Digit(s[s0..d][i]) {
      assert s[s0..d][i] == s[b..d][s0 - b + i];
    }
  }

  /** Case: no point among the digits. */
  lemma LiesTogether(s: string, s0: nat, p: nat, ds: string)
    requires s0 < p <= |s| && ds == s[s0..p] && AllDigits(ds)
    ensures DigitsAt(s[s0..], |ds|, 1, ds)
  {
    forall i | 0 <= i < |ds| ensures DigitAt(s[s0..], ds, i, 0) {
      assert s[s0..][i] == s[s0 + i] == ds[i];
    }
  }

  /** Case: the fraction starts with zeros and nothing but zeros is before the point. */
  lemma LiesBehind(s: string, whole: string, f: nat, s0: nat, p: nat, nf: nat)
    requires f <= s0 <= |s| && f <= p <= |s| && Strip(whole) == "" && Strip(s[f..s0]) == "" && At(s, s0) != '0'
    requires nf <= p - f && Strip(whole + s[f..p][..nf]) != ""
    requires s0 <= p
    ensures s0 < f + nf && Strip(whole + s[f..p][..nf]) == s[s0..f + nf]
  {
    var t := s[f..p][..nf];
    assert t == s[f..f + nf];
    StripAppend(whole, t);
    if f + nf <= s0 {
      assert s[f..s0] == t + s[f + nf..s0];
      StripAppend(t, s[f + nf..s0]);
    } else {
      assert t == s[f..s0] + s[s0..f + nf];
      StripAppend(s[f..s0], s[s0..f + nf]);
      assert s[s0..f + nf][0] == At(s, s0);
    }
  }

  /** Only zeros and nothing else: the number is zero. */
  lemma NothingKept(whole: string, t: string)
    requires Strip(whole) == "" && Kept(t) == 0
    ensures Strip(whole + t[..Kept(t)]) == ""
  {
    assert whole + t[..0] == whole;
  }

  lemma WholeOnly(whole: string)
    ensures Kept("") == 0 && whole + ""[..0] == whole
  {
  }

  lemma StartPending(whole: string, t: string)
    requires Strip(whole) == "" && Strip(t) == ""
    ensures Pending(whole, t, "", |t|, 0)
  {
    StripAppend(whole, t);
    assert t[..|t|] == t && t + Zeros(0) == t;
  }

  lemma StartDirect(whole: string, ds: string)
    requires ds == Strip(whole)
    ensures Pending(whole, "", ds, 0, 0)
  {
    assert whole + ""[..0] == whole;
    assert ""[..0] + Zeros(0) == "";
  }

  lemma SummedDigits(ds: string, y: nat, z: nat)
    requires Summed(ds, y, z)
    ensures AllDigits(ds)
  {
  }

  lemma NoExponent(s: string, i: nat)
    requires At(s, i) != 'e' && At(s, i) != 'E'
    ensures Exponent(s, i) == 0 && ExpEnd(s, i) == i
  {
  }

  lemma CollectedIs(s: string, s0: nat, nd0: nat, y: nat, z: nat, ds: string)
    requires s0 <= |s| && nd0 <= |ds| && DigitsAt(s[s0..], nd0, 1, ds) && Summed(ds, y, z)
    ensures Collected(s, s0, nd0, y, z, ds)
  {
  }

  /** The digits of the mantissa that matter. */
  function MantissaDigits(s: string, b: nat): string
  {
    Strip(WholeOf(s, b) + FracOf(s, b)[..Kept(FracOf(s, b))])
  }

  /** Everything between the sign and the exponent; seen tells whether there was any digit. */
  method ReadMantissa(s: string, b: nat)
    returns (seen: bool, s0: nat, nd0: nat, nd: nat, y: nat, z: nat, nf: nat, p: nat)
    requires b <= |s|
    ensures p == MantissaEnd(s, b) <= |s|
    ensures nf == Kept(FracOf(s, b)) && nd == |MantissaDigits(s, b)|
    ensures seen == (WholeOf(s, b) != "" || FracOf(s, b) != "")
    ensures nd > 0 ==> Collected(s, s0, nd0, y, z, MantissaDigits(s, b))
  {
    hide Strip, Kept, Summed, DecVal, Collected, DigitEnd;
    s0 := SkipZeros(s, b);
    var nz0 := s0 > b;
    p, nd, y, z := ReadWhole(s, b, s0);
    nd0, nf := nd, 0;
    var nz := 0;
    WholeOnly(s[b..p]);
    if At(s, p) == '.' {
      seen, s0, nd, y, z, nf, p := ReadPoint(s, b, s0, p, nz0, y, z);
    } else {
      seen := nd > 0 || nz0;
      if nd > 0 {
        SummedDigits(s[s0..p], y, z);
        LiesTogether(s, s0, p, s[s0..p]);
        CollectedIs(s, s0, nd0, y, z, s[s0..p]);
      }
    }
    if nd0 == 0 {
      nd0 := nd;
    }
  }

  /** The point at d and the fraction after it. */
  method ReadPoint(s: string, b: nat, s00: nat, d: nat, nz0: bool, y0: nat, z0: nat)
    returns (seen: bool, s0: nat, nd: nat, y: nat, z: nat, nf: nat, p: nat)
    requires b <= s00 <= d < |s| && At(s, d) == '.' && d == DigitEnd(s, b) && AllDigits(s[b..d])
    requires Strip(s[b..d]) == s[s00..d] && Summed(s[s00..d], y0, z0) && nz0 == (s00 > b)
    ensures p == MantissaEnd(s, b) <= |s|
    ensures nf == Kept(FracOf(s, b)) && nd == |MantissaDigits(s, b)|
    ensures seen == (WholeOf(s, b) != "" || FracOf(s, b) != "")
    ensures nd > 0 ==> Collected(s, s0, if d > s00 then d - s00 else nd, y, z, MantissaDigits(s, b))
  {
    hide Strip, Kept, Summed, DecVal, Collected, DigitEnd;
    var f := d + 1;
    assert s[f..f] == "";
    s0, nd, y, z, nf, p := s00, d - s00, y0, z0, 0, f;
    ghost var ds := s[s00..d];
    if nd == 0 {
      p := SkipZeros(s, f);
      if '0' < At(s, p) <= '9' {
        s0, nf := p, p - f;
        StartPending(s[b..d], s[f..p]);
        p, nf, nd, y, z, ds := ReadFraction(s, f, p, nf, nd, y, z, s[b..d], "");
        LiesBehind(s, s[b..d], f, s0, p, nf);
        SummedDigits(ds, y, z);
        LiesTogether(s, s0, f + nf, ds);
        CollectedIs(s, s0, nd, y, z, ds);
      } else {
        DigitEndAt(s, f, p);
        NothingKept(s[b..d], s[f..p]);
      }
    } else {
      StartDirect(s[b..d], ds);
      p, nf, nd, y, z, ds := ReadFraction(s, f, p, nf, nd, y, z, s[b..d], ds);
      LiesAcross(s, b, s0, d, p, nf, ds);
      CollectedIs(s, s0, d - s0, y, z, ds);
    }
    seen := p > f || d > s00 || nz0;
  }

  /** The front end of fpconv_strtod. */
  method Scan(s: string, s00: nat) returns (r: Scanned)
    requires s00 <= |s|
    ensures ScansTo(s, s00, r)
  {
    hide Strip, Kept, Summed, DecVal, Collected, DigitEnd, BlankEnd, Exponent, ExpEnd, Named;
    var b, neg := LeadIn(s, s00);
    if Hex(s, b) {
      return Special(b);
    }
    var seen, s0, nd0, nd, y, z, nf, p := ReadMantissa(s, b);
    if !seen {
      return if Named(s, b) then Special(b) else Nothing;
    }
    var e, end := 0, p;
    if At(s, p) == 'e' || At(s, p) == 'E' {
      e, end := ReadExponent(s, p);
    } else {
      NoExponent(s, p);
    }
    if nd == 0 {
      return Decimal(neg, s0, 0, 0, 0, 0, 0, end);
    }
    return Decimal(neg, s0, nd0, nd, y, z, e - nf, end);
  }

  // ---------------------------------------------------------------- fpconv_g_fmt

  /** n in decimal, padded to two digits. */
  function Padded(n: nat): (t: string)
    ensures AllDigits(t) && |t| >= 2
  {
    if n < 100 then [DigitChar(n / 10), DigitChar(n % 10)]
    else
      var t := Padded(n / 10);
      assert AllDigits(t + [DigitChar(n % 10)]);
      t + [DigitChar(n % 10)]
  }

  /** decpt 9999 marks Infinity and NaN, which are copied. */
  const SPECIAL := 9999

  function Sign(neg: bool): string
  {
    if neg then "-" else ""
  }

  /** The text of 0.digits * 10^decpt at a precision. */
  function Layout(neg: bool, digits: string, decpt: int, precision: int): string
    requires |digits| > 0
  {
    Sign(neg) + Unsigned(digits, decpt, precision)
  }

  function Unsigned(digits: string, decpt: int, precision: int): string
    requires |digits| > 0
  {
    if decpt == SPECIAL then digits
    else if decpt <= -4 || decpt > precision then Scientific(digits, decpt - 1)
    else if decpt <= 0 then SmallText(digits, decpt)
    else PlainText(digits, decpt)
  }

  function Scientific(digits: string, exp: int): string
    requires |digits| > 0
  {
    digits[..1] + (if |digits| > 1 then "." + digits[1..] else "")
    + (if exp < 0 then "e-" + Padded(-exp) else "e+" + Padded(exp))
  }

  ghost predicate Wrote(b: seq<char>, text: string)
  {
    |text| < |b| && b[..|text|] == text
  }

  lemma WroteSnoc(b: seq<char>, text: string, c: char)
    requires |text| + 1 < |b| && Wrote(b, text)
    ensures Wrote(b[|text| := c], text + [c])
  {
    var b' := b[|text| := c];
    assert b'[..|text| + 1] == b'[..|text|] + [c];
  }

  /** *b++ = c */
  method Put(b: array<char>, n: nat, c: char, ghost text: string) returns (m: nat)
    requires n == |text| && n + 1 < b.Length && Wrote(b[..], text)
    modifies b
    ensures m == n + 1 && Wrote(b[..], text + [c])
    ensures forall i :: n + 1 <= i < b.Length ==> b[i] == old(b[i])
  {
    WroteSnoc(b[..], text, c);
    ghost var was := b[..];
    b[n] := c;
    assert b[..] == was[n := c];
    m := n + 1;
  }

  /** A stretch of digits. */
  method PutAll(b: array<char>, n: nat, s: string, ghost text: string) returns (m: nat)
    requires n == |text| && n + |s| < b.Length && Wrote(b[..], text)
    modifies b
    ensures m == n + |s| && Wrote(b[..], text + s)
    ensures forall i :: m <= i < b.Length ==> b[i] == old(b[i])
  {
    hide Wrote;
    m := n;
    assert text + s[..0] == text;
    for i := 0 to |s|
      invariant m == n + i && Wrote(b[..], text + s[..i])
      invariant forall k :: m <= k < b.Length ==> b[k] == old(b[k])
    {
      m := Put(b, m, s[i], text + s[..i]);
      assert s[..i + 1] == s[..i] + [s[i]];
      assert text + s[..i] + [s[i]] == text + s[..i + 1];
    }
    assert s[..|s|] == s;
  }

  lemma {:induction false} PaddedValue(n: nat)
    ensures DecVal(Padded(n)) == n
  {
    if n < 100 {
      DecSnoc([], DigitChar(n / 10));
      DecSnoc([DigitChar(n / 10)], DigitChar(n % 10));
      assert [] + [DigitChar(n / 10)] == [DigitChar(n / 10)];
      assert [DigitChar(n / 10)] + [DigitChar(n % 10)] == Padded(n);
    } else {
      PaddedValue(n / 10);
      DecSnoc(Padded(n / 10), DigitChar(n % 10));
    }
  }

  lemma {:induction false} PaddedPlaces(n: nat, j: nat)
    requires j >= 2 && n < Pow(10, j) && (j == 2 || Pow(10, j - 1) <= n)
    ensures |Padded(n)| == j
  {
    if j == 2 {
      assert Pow(10, 1) == 10 * Pow(10, 0);
    } else {
      PowMonotone(10, 2, j - 1);
      assert Pow(10, 1) == 10 * Pow(10, 0);
      TenTimes(1, j);
      TenTimes(1, j - 1);
      PaddedPlaces(n / 10, j - 1);
    }
  }

  lemma TenSplit(v: nat, d: nat, w: nat, e: nat)
    requires v * 10 + d == w * 10 + e && d < 10 && e < 10
    ensures v == w && d == e
  {
  }

  /** Numerals of one length are equal when their values are. */
  lemma {:induction false} SameDigits(a: string, b: string)
    requires AllDigits(a) && AllDigits(b) && |a| == |b| && DecVal(a) == DecVal(b)
    ensures a == b
  {
    if |a| > 0 {
      var n := |a| - 1;
      TenSplit(DecVal(a[..n]), DigitOf(a[n]), DecVal(b[..n]), DigitOf(b[n]));
      SameDigits(a[..n], b[..n]);
      assert a == a[..n] + [a[n]] && b == b[..n] + [b[n]];
    }
  }

  /** out has been printed and d / k is what follows. */
  ghost predicate Emitted(exp: nat, out: string, d: nat, k: nat)
  {
    AllDigits(out) && exp * Pow(10, |out|) == 10 * (k * DecVal(out)) + d
  }

  lemma NoneEmitted(exp: nat, k: nat)
    ensures Emitted(exp, "", exp, k)
  {
    assert Pow(10, 0) == 1 && k * 0 == 0;
  }

  lemma EmittedNext(exp: nat, out: string, d: nat, k: nat)
    requires 0 < k && d < 10 * k && Emitted(exp, out, d, k)
    ensures 0 <= d / k < 10 && 0 <= d - d / k * k && (d - d / k * k) * 10 < 10 * k
    ensures Emitted(exp, out + [DigitChar(d / k)], (d - d / k * k) * 10, k)
  {
    var i := d / k;
    Quotient10(d, k);
    DecSnoc(out, DigitChar(i));
    TenTimes(exp, |out| + 1);
    EmitArith(exp * Pow(10, |out|), k, DecVal(out), i, d);
  }

  lemma Quotient10(d: nat, k: nat)
    requires 0 < k && d < 10 * k
    ensures 0 <= d / k < 10 && d == k * (d / k) + d % k && 0 <= d % k < k
    ensures d / k * k == k * (d / k)
  {
  }

  lemma EmitArith(a: nat, k: nat, v: nat, i: nat, d: nat)
    requires a == 10 * (k * v) + d && k * i <= d
    ensures 10 * a == 10 * (k * (v * 10 + i)) + (d - i * k) * 10
  {
    assert k * (v * 10 + i) == 10 * (k * v) + k * i;
  }

  /** Once as many digits are out as 10 * k has zeros, they spell the exponent. */
  lemma AllEmitted(exp: nat, out: string, k: nat, rest: nat)
    requires Emitted(exp, out, rest, k) && rest < 10 * k && 10 * k == Pow(10, |out|) && |out| == |Padded(exp)|
    ensures out == Padded(exp)
  {
    hide Pow, DecVal, Padded;
    assert 10 * (k * DecVal(out)) == (10 * k) * DecVal(out);
    WholeMultiple(exp, DecVal(out), 10 * k, rest);
    PaddedValue(exp);
    SameDigits(out, Padded(exp));
  }

  lemma WholeMultiple(a: nat, v: nat, p: nat, r: nat)
    requires a * p == p * v + r && r < p
    ensures a == v
  {
    NextMultipleOf(a, v, p);
    NextMultipleOf(v, a, p);
  }

  lemma NextMultipleOf(a: nat, v: nat, p: nat)
    ensures a > v ==> a * p >= p * v + p
  {
    if a > v {
      MulMonotone(v + 1, a, p);
      assert (v + 1) * p == p * v + p;
    }
  }

  /** How many digits an exponent takes, at least two, and the weight of the first of them. */
  method ExponentPlaces(exp: nat) returns (j: nat, k: nat)
    ensures j == |Padded(exp)| >= 2 && k == Pow(10, j - 1) > 0 && exp < 10 * k
  {
    hide Padded;
    j, k := 2, 10;
    assert Pow(10, 1) == 10 * Pow(10, 0);
    while 10 * k <= exp
      invariant j >= 2 && k == Pow(10, j - 1) > 0 && (j == 2 || k <= exp)
      decreases exp - k
    {
      j, k := j + 1, k * 10;
    }
    PaddedPlaces(exp, j);
  }

  /** The two loops that print an exponent, most significant digit first. */
  method PutExponent(b: array<char>, n: nat, exp: nat, ghost text: string) returns (m: nat)
    requires n == |text| && n + |Padded(exp)| < b.Length && Wrote(b[..], text)
    modifies b
    ensures m == n + |Padded(exp)| && Wrote(b[..], text + Padded(exp))
    ensures forall i :: m <= i < b.Length ==> b[i] == old(b[i])
  {
    hide Wrote, Pow, DecVal, Padded, Emitted;
    var j, k := ExponentPlaces(exp);
    ghost var places := j;
    ghost var out := "";
    var d := exp;
    m := n;
    assert text + "" == text;
    NoneEmitted(exp, k);
    TenTimes(1, places);
    while true
      invariant 0 < j <= places && |out| == places - j && m == n + |out|
      invariant Emitted(exp, out, d, k) && d < 10 * k
      invariant Wrote(b[..], text + out)
      invariant forall i :: m <= i < b.Length ==> b[i] == old(b[i])
      decreases j
    {
      EmittedNext(exp, out, d, k);
      var i := d / k;
      m := Put(b, m, DigitChar(i), text + out);
      assert text + out + [DigitChar(i)] == text + (out + [DigitChar(i)]);
      out := out + [DigitChar(i)];
      j := j - 1;
      if j <= 0 {
        AllEmitted(exp, out, k, (d - i * k) * 10);
        break;
      }
      d := (d - i * k) * 10;
    }
  }

  /** The layout with an exponent. */
  method PutScientific(b: array<char>, n: nat, digits: string, decpt: int, ghost text: string) returns (m: nat)
    requires |digits| > 0 && n == |text| && n + |Scientific(digits, decpt - 1)| < b.Length && Wrote(b[..], text)
    modifies b
    ensures m == n + |Scientific(digits, decpt - 1)| && Wrote(b[..], text + Scientific(digits, decpt - 1))
    ensures forall i :: m <= i < b.Length ==> b[i] == old(b[i])
  {
    hide Wrote, Padded;
    m := Put(b, n, digits[0], text);
    ghost var out := digits[..1];
    assert text + [digits[0]] == text + out;
    if |digits| > 1 {
      m := Put(b, m, '.', text + out);
      m := PutAll(b, m, digits[1..], text + out + ['.']);
      assert text + out + ['.'] + digits[1..] == text + (out + ("." + digits[1..]));
      out := out + ("." + digits[1..]);
    } else {
      assert out == out + "";
    }
    m := Put(b, m, 'e', text + out);
    var exp := decpt - 1;
    var c := '+';
    if exp < 0 {
      c, exp := '-', -exp;
    }
    m := Put(b, m, c, text + out + ['e']);
    m := PutExponent(b, m, exp, text + out + ['e'] + [c]);
    assert "e-" == ['e'] + ['-'] && "e+" == ['e'] + ['+'];
    assert text + out + ['e'] + [c] + Padded(exp) == text + (out + ((['e'] + [c]) + Padded(exp)));
  }

  /** The layouts with the point among the digits, or none at all. */
  method PutPlain(b: array<char>, n: nat, digits: string, decpt0: int, ghost text: string) returns (m: nat)
    requires 0 < decpt0 && n == |text| && Wrote(b[..], text)
    requires n + |PlainText(digits, decpt0)| < b.Length
    modifies b
    ensures m == n + |PlainText(digits, decpt0)| && Wrote(b[..], text + PlainText(digits, decpt0))
    ensures forall i :: m <= i < b.Length ==> b[i] == old(b[i])
  {
    hide Wrote;
    m := n;
    var decpt := decpt0;
    assert text + Pointed(digits[..0], decpt0, |digits|) == text;
    for i := 0 to |digits|
      invariant decpt == decpt0 - i && m == n + |Pointed(digits[..i], decpt0, |digits|)|
      invariant Wrote(b[..], text + Pointed(digits[..i], decpt0, |digits|))
      invariant forall k :: m <= k < b.Length ==> b[k] == old(b[k])
    {
      ghost var out := Pointed(digits[..i], decpt0, |digits|);
      PointedNext(digits, decpt0, i);
      m := Put(b, m, digits[i], text + out);
      assert text + out + [digits[i]] == text + (out + [digits[i]]);
      decpt := decpt - 1;
      if decpt == 0 && i + 1 < |digits| {
        m := Put(b, m, '.', text + (out + [digits[i]]));
        assert text + (out + [digits[i]]) + ['.'] == text + ((out + [digits[i]]) + ".");
      } else {
        assert (out + [digits[i]]) + "" == out + [digits[i]];
      }
    }
    assert digits[..|digits|] == digits;
    ghost var out := Pointed(digits, decpt0, |digits|);
    if decpt > 0 {
      m := PutZeros(b, m, decpt, text + out);
      assert text + out + Zeros(decpt) == text + (out + Zeros(decpt));
    } else if |digits| == decpt0 {
      assert out + Zeros(0) == out;
    }
  }

  /** for (; n > 0; n--) *b++ = '0' */
  method PutZeros(b: array<char>, n: nat, count: nat, ghost text: string) returns (m: nat)
    requires n == |text| && n + count < b.Length && Wrote(b[..], text)
    modifies b
    ensures m == n + count && Wrote(b[..], text + Zeros(count))
    ensures forall i :: m <= i < b.Length ==> b[i] == old(b[i])
  {
    m := PutAll(b, n, Zeros(count), text);
  }

  function PlainText(digits: string, decpt: int): string
    requires 0 < decpt
  {
    if |digits| <= decpt then digits + Zeros(decpt - |digits|) else digits[..decpt] + "." + digits[decpt..]
  }

  /** A beginning of the digits, with the point once it has been reached and unless nothing follows it. */
  function Pointed(some: string, decpt: int, all: nat): string
    requires 0 < decpt
  {
    if decpt <= |some| && decpt < all then some[..decpt] + "." + some[decpt..] else some
  }

  lemma PointedNext(digits: string, decpt: int, i: nat)
    requires 0 < decpt && i < |digits|
    ensures Pointed(digits[..i + 1], decpt, |digits|)
      == Pointed(digits[..i], decpt, |digits|) + [digits[i]] + (if decpt == i + 1 < |digits| then "." else "")
  {
    assert digits[..i + 1] == digits[..i] + [digits[i]];
    if decpt <= i + 1 && decpt < |digits| {
      assert digits[..i + 1][..decpt] == digits[..decpt];
      if decpt <= i {
        assert digits[..i][..decpt] == digits[..decpt];
      }
    }
  }

  function SmallText(digits: string, decpt: int): string
    requires decpt <= 0
  {
    "0." + Zeros(-decpt) + digits
  }

  /** The layout that starts with 0. */
  method PutSmall(b: array<char>, n: nat, digits: string, decpt: int, ghost text: string) returns (m: nat)
    requires decpt <= 0 && n == |text| && n + |SmallText(digits, decpt)| < b.Length && Wrote(b[..], text)
    modifies b
    ensures m == n + |SmallText(digits, decpt)| && Wrote(b[..], text + SmallText(digits, decpt))
    ensures forall i :: m <= i < b.Length ==> b[i] == old(b[i])
  {
    hide Wrote;
    m := Put(b, n, '0', text);
    m := Put(b, m, '.', text + ['0']);
    m := PutZeros(b, m, -decpt, text + ['0'] + ['.']);
    m := PutAll(b, m, digits, text + ['0'] + ['.'] + Zeros(-decpt));
    assert text + ['0'] + ['.'] + Zeros(-decpt) + digits == text + ("0." + Zeros(-decpt) + digits);
  }

  lemma WroteNone(b: seq<char>)
    requires |b| > 0
    ensures Wrote(b, "")
  {
  }

  lemma WroteText(b: seq<char>, text: string, n: nat)
    requires Wrote(b, text) && n == |text|
    ensures n < |b| && b[..n] == text
  {
  }

  /** fpconv_g_fmt, after dtoa has produced the digits: the text and the NUL behind it. */
  method Format(b: array<char>, neg: bool, digits: string, decpt: int, precision: int) returns (n: nat)
    requires |digits| > 0 && |Layout(neg, digits, decpt, precision)| < b.Length
    modifies b
    ensures n == |Layout(neg, digits, decpt, precision)| && b[..n] == Layout(neg, digits, decpt, precision)
    ensures b[n] == '\0' && forall i :: n < i < b.Length ==> b[i] == old(b[i])
  {
    hide Wrote, Scientific, PlainText;
    n := 0;
    WroteNone(b[..]);
    ghost var text := "";
    if neg {
      n := Put(b, n, '-', text);
      text := text + ['-'];
    }
    assert text == Sign(neg);
    if decpt == SPECIAL {
      n := PutAll(b, n, digits, text);
    } else if decpt <= -4 || decpt > precision {
      n := PutScientific(b, n, digits, decpt, text);
    } else if decpt <= 0 {
      n := PutSmall(b, n, digits, decpt, text);
    } else {
      n := PutPlain(b, n, digits, decpt, text);
    }
    WroteText(b[..], Layout(neg, digits, decpt, precision), n);
    b[n] := '\0';
  }

  lemma {:induction false} PaddedShort(n: nat)
    requires n < 1000
    ensures |Padded(n)| <= 3
  {
    if n >= 100 {
      assert |Padded(n / 10)| == 2;
    }
  }

  /** FPCONV_G_FMT_BUFSIZE is 32: for the digits dtoa gives at a precision of at most 14 there is room for the NUL. */
  lemma FitsIn32(neg: bool, digits: string, decpt: int, precision: int)
    requires 1 <= precision <= 14 && 0 < |digits| <= precision && -999 < decpt <= 999
    ensures |Layout(neg, digits, decpt, precision)| < 32
  {
    PaddedShort(if decpt - 1 < 0 then 1 - decpt else decpt - 1);
  }
}
