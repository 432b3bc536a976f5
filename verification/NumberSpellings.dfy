/** Every way of spelling a decimal number, what it denotes, and that the scanner of dtoa.c reads exactly these. */
module NumberSpellings {
  import opened Limbs
  import opened DecimalDigits
  import opened NumberText

  // ---------------------------------------------------------------- spellings

  /** e or E, a sign or none, and digits. */
  datatype ExpField = NoField | Field(mark: char, sign: string, digits: string)

  /** A decimal number in all its parts, by the form of section 7.20.1.3 of ISO C99. */
  datatype Numeral = Numeral(blanks: string, sign: string, whole: string, point: bool, frac: string, field: ExpField)

  predicate SignText(t: string)
  {
    t == "" || t == "-" || t == "+"
  }

  /** The white space of the C locale. */
  predicate Blanks(t: string)
  {
    forall k :: 0 <= k < |t| ==> t[k] == ' ' || '\t' <= t[k] <= '\r'
  }

  predicate FieldOk(f: ExpField)
  {
    f.Field? ==> (f.mark == 'e' || f.mark == 'E') && SignText(f.sign) && AllDigits(f.digits) && f.digits != ""
  }

  predicate WellSpelled(n: Numeral)
  {
    && Blanks(n.blanks) && SignText(n.sign) && AllDigits(n.whole) && AllDigits(n.frac)
    && (n.whole != "" || n.frac != "") && (n.frac != "" ==> n.point)
    && FieldOk(n.field)
  }

  function Dot(point: bool): string
  {
    if point then "." else ""
  }

  function FieldText(f: ExpField): string
  {
    match f
    case NoField => ""
    case Field(mark, sign, digits) => [mark] + (sign + digits)
  }

  function Spelled(n: Numeral): string
  {
    n.blanks + (n.sign + (n.whole + (Dot(n.point) + (n.frac + FieldText(n.field)))))
  }

  /** The power of ten a numeral asks for. */
  function Power(f: ExpField): int
    requires FieldOk(f)
  {
    match f
    case NoField => 0
    case Field(_, sign, digits) => if sign == "-" then -(DecVal(digits) as int) else DecVal(digits)
  }

  /** An exponent field could begin at j. */
  predicate FieldBegins(s: string, j: nat)
  {
    && (At(s, j) == 'e' || At(s, j) == 'E')
    && (Digit(At(s, j + 1)) || ((At(s, j + 1) == '-' || At(s, j + 1) == '+') && Digit(At(s, j + 2))))
  }

  /** What stands at j does not continue n, nor does it make a hexadecimal number of it. */
  predicate Stops(n: Numeral, s: string, j: nat)
  {
    && !Digit(At(s, j))
    && (n.field.NoField? ==> !FieldBegins(s, j) && (n.point || At(s, j) != '.'))
    && (n.field.NoField? && !n.point && n.whole == "0" ==> At(s, j) !in "xX")
  }

  /** n is the number at i. */
  predicate Stands(s: string, i: nat, n: Numeral)
  {
    WellSpelled(n) && StartsWith(s, i, Spelled(n)) && Stops(n, s, i + |Spelled(n)|)
  }

  // ---------------------------------------------------------------- pieces of text

  lemma Split(s: string, i: nat, a: string, b: string)
    ensures StartsWith(s, i, a + b) <==> StartsWith(s, i, a) && StartsWith(s, i + |a|, b)
  {
    if i + |a| + |b| <= |s| {
      var t := s[i..i + |a + b|];
      assert t[..|a|] == s[i..i + |a|] && t[|a|..] == s[i + |a|..i + |a| + |b|];
      assert (a + b)[..|a|] == a && (a + b)[|a|..] == b && t == t[..|a|] + t[|a|..];
    }
  }

  lemma Holds(s: string, i: nat, t: string, k: nat)
    requires StartsWith(s, i, t) && k < |t|
    ensures At(s, i + k) == t[k]
  {
    assert s[i..i + |t|][k] == s[i + k];
  }

  lemma Parted(s: string, i: nat, n: Numeral)
    ensures var a := i + |n.blanks|;
      var b := a + |n.sign|;
      var d := b + |n.whole|;
      var p := d + |Dot(n.point)|;
      StartsWith(s, i, Spelled(n)) <==>
        && StartsWith(s, i, n.blanks) && StartsWith(s, a, n.sign) && StartsWith(s, b, n.whole)
        && StartsWith(s, d, Dot(n.point)) && StartsWith(s, p, n.frac)
        && StartsWith(s, p + |n.frac|, FieldText(n.field))
  {
    hide StartsWith, Dot, FieldText;
    var t4 := n.frac + FieldText(n.field);
    var t3 := Dot(n.point) + t4;
    var t2 := n.whole + t3;
    var a := i + |n.blanks|;
    var b := a + |n.sign|;
    var d := b + |n.whole|;
    Split(s, i, n.blanks, n.sign + t2);
    Split(s, a, n.sign, t2);
    Split(s, b, n.whole, t3);
    Split(s, d, Dot(n.point), t4);
    Split(s, d + |Dot(n.point)|, n.frac, FieldText(n.field));
  }

  lemma {:induction false} BlankRun(s: string, i: nat, w: string)
    requires StartsWith(s, i, w) && Blanks(w) && !Blank(At(s, i + |w|))
    ensures BlankEnd(s, i) == i + |w|
    decreases |w|
  {
    if w != "" {
      Holds(s, i, w, 0);
      assert w == w[..1] + w[1..];
      Split(s, i, w[..1], w[1..]);
      BlankRun(s, i + 1, w[1..]);
    }
  }

  lemma DigitRun(s: string, i: nat, w: string)
    requires StartsWith(s, i, w) && AllDigits(w) && !Digit(At(s, i + |w|))
    ensures DigitEnd(s, i) == i + |w| && Between(s, i, i + |w|) == w
  {
    DigitEndAt(s, i, i + |w|);
  }

  // ---------------------------------------------------------------- every spelling is read

  lemma FirstDigit(s: string, i: nat, w: string)
    requires StartsWith(s, i, w) && AllDigits(w) && w != ""
    ensures Digit(At(s, i))
  {
    hide StartsWith, At;
    Holds(s, i, w, 0);
  }

  lemma SignAt(s: string, i: nat, t: string)
    requires StartsWith(s, i, t) && SignText(t)
    ensures t != "" ==> At(s, i) == t[0]
  {
    hide StartsWith, At;
    if t != "" {
      Holds(s, i, t, 0);
    }
  }

  /** What begins the digits is no blank and no sign. */
  lemma MantissaBegins(s: string, b: nat, n: Numeral)
    requires WellSpelled(n) && StartsWith(s, b, n.whole) && StartsWith(s, b + |n.whole|, Dot(n.point))
    ensures Digit(At(s, b)) || At(s, b) == '.'
  {
    hide StartsWith, At, FieldOk, Blanks, SignText;
    if n.whole != "" {
      FirstDigit(s, b, n.whole);
    } else {
      Holds(s, b, ".", 0);
    }
  }

  lemma NoBlank(c: char)
    requires Digit(c) || c in ".+-"
    ensures !Blank(c)
  {
  }

  lemma FrontRead(s: string, i: nat, n: Numeral)
    requires WellSpelled(n) && StartsWith(s, i, Spelled(n))
    ensures BlankEnd(s, i) == i + |n.blanks| && SignEnd(s, i) == i + |n.blanks| + |n.sign|
    ensures (At(s, BlankEnd(s, i)) == '-') == (n.sign == "-")
  {
    hide Spelled, StartsWith, At, Blank, BlankEnd, AllDigits, FieldOk, Blanks;
    Parted(s, i, n);
    var a := i + |n.blanks|;
    MantissaBegins(s, a + |n.sign|, n);
    SignAt(s, a, n.sign);
    NoBlank(At(s, a));
    BlankRun(s, i, n.blanks);
  }

  lemma MantissaRead(s: string, b: nat, whole: string, point: bool, frac: string)
    requires AllDigits(whole) && AllDigits(frac) && (frac != "" ==> point) && StartsWith(s, b, whole)
    requires var d := b + |whole|;
      var p := d + |Dot(point)|;
      && StartsWith(s, d, Dot(point)) && StartsWith(s, p, frac) && !Digit(At(s, p + |frac|))
      && (!point ==> At(s, p) != '.')
    ensures WholeOf(s, b) == whole && FracOf(s, b) == frac
    ensures MantissaEnd(s, b) == b + |whole| + |Dot(point)| + |frac|
    ensures FracStart(s, DigitEnd(s, b)) == b + |whole| + |Dot(point)| && DigitEnd(s, b) == b + |whole|
  {
    hide DigitEnd, StartsWith;
    var d := b + |whole|;
    if point {
      Holds(s, d, ".", 0);
      DigitRun(s, b, whole);
      DigitRun(s, d + 1, frac);
    } else {
      DigitRun(s, b, whole);
      Inside(s, d, frac);
    }
  }

  lemma Inside(s: string, i: nat, t: string)
    requires StartsWith(s, i, t)
    ensures i + |t| <= |s| && s[i..i + |t|] == t
  {
  }

  lemma FieldParts(s: string, g: nat, f: ExpField)
    requires FieldOk(f) && f.Field? && StartsWith(s, g, FieldText(f))
    ensures StartsWith(s, g + 1 + |f.sign|, f.digits) && Digit(At(s, g + 1 + |f.sign|))
    ensures At(s, g) == f.mark && (f.sign != "" ==> At(s, g + 1) == f.sign[0])
  {
    hide StartsWith, At, AllDigits;
    Split(s, g, [f.mark], f.sign + f.digits);
    Split(s, g + 1, f.sign, f.digits);
    Holds(s, g, [f.mark], 0);
    FirstDigit(s, g + 1 + |f.sign|, f.digits);
    SignAt(s, g + 1, f.sign);
  }

  /** A field is recognised, and its sign. */
  lemma FieldSeen(s: string, g: nat, f: ExpField)
    requires FieldOk(f) && f.Field? && StartsWith(s, g, FieldText(f))
    ensures FieldBegins(s, g) && HasExp(s, g) && ExpStart(s, g) == g + 1 + |f.sign|
    ensures (At(s, g + 1) == '-') == (f.sign == "-") && (At(s, g + 1) == '+') == (f.sign == "+")
    ensures !Digit(At(s, g)) && At(s, g) != '.'
  {
    hide StartsWith, At, AllDigits, FieldText, SignText;
    FieldParts(s, g, f);
    SignKinds(f.sign);
  }

  lemma SignKinds(t: string)
    requires SignText(t)
    ensures |t| <= 1 && (t != "" ==> t[0] == if t == "-" then '-' else '+') && (t == "" || t == "+" || t == "-")
  {
  }

  lemma WrittenFieldRead(s: string, g: nat, f: ExpField)
    requires FieldOk(f) && f.Field? && StartsWith(s, g, FieldText(f)) && !Digit(At(s, g + |FieldText(f)|))
    ensures Exponent(s, g) == Power(f) && ExpEnd(s, g) == g + |FieldText(f)|
  {
    hide StartsWith, At, AllDigits, DigitEnd, DecVal, FieldBegins, HasExp, ExpStart, Digit, SignText, Between;
    FieldParts(s, g, f);
    FieldSeen(s, g, f);
    var b := g + 1 + |f.sign|;
    DigitRun(s, b, f.digits);
    Inside(s, b, f.digits);
    assert ExpDigits(s, g) == f.digits;
  }

  lemma FieldRead(s: string, g: nat, f: ExpField)
    requires FieldOk(f) && StartsWith(s, g, FieldText(f))
    requires if f.NoField? then !FieldBegins(s, g) else !Digit(At(s, g + |FieldText(f)|))
    ensures Exponent(s, g) == Power(f) && ExpEnd(s, g) == g + |FieldText(f)|
  {
    hide StartsWith, DigitEnd, DecVal, AllDigits, SignText;
    if f.Field? {
      WrittenFieldRead(s, g, f);
    }
  }

  lemma NotHex(s: string, b: nat, n: Numeral)
    requires WellSpelled(n)
    requires StartsWith(s, b, n.whole + (Dot(n.point) + (n.frac + FieldText(n.field))))
    requires Stops(n, s, b + |n.whole + (Dot(n.point) + (n.frac + FieldText(n.field)))|)
    ensures !Hex(s, b)
  {
    hide StartsWith;
    var t := n.whole + (Dot(n.point) + (n.frac + FieldText(n.field)));
    Holds(s, b, t, 0);
    if |t| > 1 && t[0] == '0' {
      Holds(s, b, t, 1);
      assert n.whole != "" && (|n.whole| > 1 ==> t[1] == n.whole[1] && Digit(n.whole[1]));
    }
  }

  /**
   The number at i is read as it is spelled: its sign, its digits before and behind the point and its exponent, up
   to its end.
   */
  lemma NumeralRead(s: string, i: nat, n: Numeral)
    requires Stands(s, i, n)
    ensures Dissect(s, i) == Parts(n.sign == "-", n.whole, n.frac, Power(n.field), i + |Spelled(n)|)
    ensures Numeric(s, i) && !Hex(s, SignEnd(s, i))
  {
    hide StartsWith, DigitEnd, Exponent, ExpEnd, WholeOf, FracOf, MantissaEnd, SignEnd, BlankEnd, Hex, FieldText, Power, Dot;
    var b := i + |n.blanks| + |n.sign|;
    var g := b + |n.whole| + |Dot(n.point)| + |n.frac|;
    assert g + |FieldText(n.field)| == i + |Spelled(n)|;
    FrontRead(s, i, n);
    Parted(s, i, n);
    Unfinished(s, g, n);
    MantissaRead(s, b, n.whole, n.point, n.frac);
    FieldRead(s, g, n.field);
    Split(s, i, n.blanks + n.sign, n.whole + (Dot(n.point) + (n.frac + FieldText(n.field))));
    assert Spelled(n) == (n.blanks + n.sign) + (n.whole + (Dot(n.point) + (n.frac + FieldText(n.field))));
    NotHex(s, b, n);
  }

  /** Behind the mantissa there is no digit, and no point unless there has been one. */
  lemma Unfinished(s: string, g: nat, n: Numeral)
    requires WellSpelled(n) && StartsWith(s, g, FieldText(n.field)) && Stops(n, s, g + |FieldText(n.field)|)
    ensures !Digit(At(s, g)) && (!n.point ==> At(s, g) != '.')
    ensures if n.field.NoField? then !FieldBegins(s, g) else !Digit(At(s, g + |FieldText(n.field)|))
  {
    if n.field.Field? {
      Holds(s, g, FieldText(n.field), 0);
    }
  }

  // ---------------------------------------------------------------- nothing else is read

  lemma {:induction false} BlankStretch(s: string, i: nat)
    requires i <= |s|
    ensures Blanks(s[i..BlankEnd(s, i)])
    decreases |s| - i
  {
    if i < |s| && Blank(s[i]) {
      BlankStretch(s, i + 1);
      assert s[i..BlankEnd(s, i)] == [s[i]] + s[i + 1..BlankEnd(s, i)];
    }
  }

  lemma ExpParts(s: string, g: nat)
    requires HasExp(s, g)
    ensures var b := ExpStart(s, g);
      && g < b < |s| && (s[g] == 'e' || s[g] == 'E') && SignText(s[g + 1..b])
      && b + |ExpDigits(s, g)| <= |s| && s[b..b + |ExpDigits(s, g)|] == ExpDigits(s, g)
      && !Digit(At(s, b + |ExpDigits(s, g)|))
  {
    hide AllDigits;
    var b := ExpStart(s, g);
    assert s[g + 1..b] == if b == g + 2 then [s[g + 1]] else "";
  }

  lemma NoFieldBegins(s: string, g: nat)
    requires !HasExp(s, g)
    ensures !FieldBegins(s, g)
  {
  }

  lemma FieldWritten(s: string, g: nat) returns (f: ExpField)
    requires g <= |s|
    ensures FieldOk(f) && StartsWith(s, g, FieldText(f))
    ensures if f.NoField? then !FieldBegins(s, g) else !Digit(At(s, g + |FieldText(f)|))
  {
    hide AllDigits, HasExp, ExpDigits, ExpStart, At, Digit, FieldBegins, SignText;
    f := NoField;
    if HasExp(s, g) {
      ExpParts(s, g);
      var b := ExpStart(s, g);
      var digits := ExpDigits(s, g);
      f := Field(s[g], s[g + 1..b], digits);
      Sliced(s, g, b, b + |digits|);
    } else {
      NoFieldBegins(s, g);
      assert s[g..g] == "";
    }
  }

  lemma Sliced(s: string, g: nat, b: nat, e: nat)
    requires g < b <= e <= |s|
    ensures s[g..e] == [s[g]] + (s[g + 1..b] + s[b..e])
  {
  }

  lemma MantissaWritten(s: string, b: nat) returns (point: bool)
    requires b <= |s|
    ensures var whole, frac := WholeOf(s, b), FracOf(s, b);
      var d := b + |whole|;
      var p := d + |Dot(point)|;
      && StartsWith(s, b, whole) && StartsWith(s, d, Dot(point)) && StartsWith(s, p, frac)
      && MantissaEnd(s, b) == p + |frac| && (frac != "" ==> point) && !Digit(At(s, p + |frac|))
      && (!point ==> At(s, p) != '.')
  {
    hide AllDigits, Digit;
    var d := DigitEnd(s, b);
    point := At(s, d) == '.';
    assert |WholeOf(s, b)| == d - b;
    if point {
      assert s[d..d + 1] == ".";
    } else {
      assert s[d..d] == "";
    }
  }

  lemma FrontWritten(s: string, i: nat)
    requires i <= |s|
    ensures var a, b := BlankEnd(s, i), SignEnd(s, i);
      && i <= a <= b <= |s| && Blanks(s[i..a]) && SignText(s[a..b])
  {
    BlankStretch(s, i);
  }

  /** A decimal number is read only where one is spelled, and it is all of it. */
  lemma NumeralWritten(s: string, i: nat) returns (n: Numeral)
    requires i <= |s| && Numeric(s, i) && !Hex(s, SignEnd(s, i))
    ensures Stands(s, i, n)
  {
    hide StartsWith, DigitEnd, Exponent, ExpEnd, WholeOf, FracOf, MantissaEnd, SignEnd, BlankEnd, Hex, FieldText, Dot, AllDigits;
    var a, b := BlankEnd(s, i), SignEnd(s, i);
    FrontWritten(s, i);
    var point := MantissaWritten(s, b);
    var whole, frac := WholeOf(s, b), FracOf(s, b);
    var g := MantissaEnd(s, b);
    MantissaInside(s, b);
    var field := FieldWritten(s, g);
    n := Numeral(s[i..a], s[a..b], whole, point, frac, field);
    SliceStands(s, i, a);
    SliceStands(s, a, b);
    Parted(s, i, n);
    var j := g + |FieldText(field)|;
    Sums(n);
    assert i + |Spelled(n)| == j;
    StopsBehind(s, b, n);
  }

  lemma SliceStands(s: string, i: nat, j: nat)
    requires i <= j <= |s|
    ensures StartsWith(s, i, s[i..j])
  {
  }

  lemma MantissaInside(s: string, b: nat)
    requires b <= |s|
    ensures b <= MantissaEnd(s, b) <= |s|
  {
  }

  lemma Sums(n: Numeral)
    ensures |Spelled(n)| == |n.blanks| + |n.sign| + |n.whole| + |Dot(n.point)| + |n.frac| + |FieldText(n.field)|
  {
  }

  lemma StopsBehind(s: string, b: nat, n: Numeral)
    requires !Hex(s, b) && WellSpelled(n)
    requires StartsWith(s, b, n.whole)
    requires var p := b + |n.whole| + |Dot(n.point)|;
      && !Digit(At(s, p + |n.frac|)) && (!n.point ==> At(s, p) != '.')
    requires var g := b + |n.whole| + |Dot(n.point)| + |n.frac|;
      if n.field.NoField? then !FieldBegins(s, g) else !Digit(At(s, g + |FieldText(n.field)|))
    ensures Stops(n, s, b + |n.whole| + |Dot(n.point)| + |n.frac| + |FieldText(n.field)|)
  {
    if n.whole == "0" {
      Holds(s, b, n.whole, 0);
    }
  }

  lemma DigitsWithin(s: string, b: nat, w: string)
    requires StartsWith(s, b, w) && AllDigits(w)
    ensures b + |w| <= DigitEnd(s, b) && (b + |w| < DigitEnd(s, b) ==> Digit(At(s, b + |w|)))
  {
    var e := DigitEnd(s, b);
    if e < b + |w| {
      Holds(s, b, w, e - b);
    }
  }

  lemma MantissaChar(s: string, b: nat, n: Numeral, k: nat)
    requires WellSpelled(n) && StartsWith(s, b, n.whole) && StartsWith(s, b + |n.whole|, Dot(n.point))
    requires StartsWith(s, b + |n.whole| + |Dot(n.point)|, n.frac)
    requires b <= k < b + |n.whole| + |Dot(n.point)| + |n.frac|
    ensures if n.point && k == b + |n.whole| then At(s, k) == '.' else Digit(At(s, k))
  {
    hide StartsWith;
    var d := b + |n.whole|;
    if k < d {
      Holds(s, b, n.whole, k - b);
    } else if n.point && k == d {
      Holds(s, d, ".", 0);
    } else {
      Holds(s, d + |Dot(n.point)|, n.frac, k - d - |Dot(n.point)|);
    }
  }

  /** A field that begins where another one is read is not longer. */
  lemma LongestField(s: string, g: nat, f: ExpField, h: ExpField)
    requires FieldOk(f) && FieldOk(h) && StartsWith(s, g, FieldText(f)) && StartsWith(s, g, FieldText(h))
    requires if f.NoField? then !FieldBegins(s, g) else !Digit(At(s, g + |FieldText(f)|))
    ensures |FieldText(h)| <= |FieldText(f)|
  {
    hide StartsWith, DigitEnd, At, AllDigits, FieldBegins, HasExp, ExpStart, Digit, Between;
    if h.Field? {
      FieldParts(s, g, h);
      FieldSeen(s, g, h);
      if f.Field? {
        FieldParts(s, g, f);
        FieldSeen(s, g, f);
        DigitRun(s, g + 1 + |f.sign|, f.digits);
        DigitsWithin(s, g + 1 + |h.sign|, h.digits);
      }
    }
  }

  lemma LongestMantissa(s: string, b: nat, n: Numeral, m: Numeral)
    requires WellSpelled(n) && StartsWith(s, b, n.whole) && StartsWith(s, b + |n.whole|, Dot(n.point))
    requires StartsWith(s, b + |n.whole| + |Dot(n.point)|, n.frac)
    requires WellSpelled(m) && StartsWith(s, b, m.whole) && StartsWith(s, b + |m.whole|, Dot(m.point))
    requires StartsWith(s, b + |m.whole| + |Dot(m.point)|, m.frac)
    requires var g := b + |n.whole| + |Dot(n.point)| + |n.frac|; !Digit(At(s, g)) && (!n.point ==> At(s, g) != '.')
    ensures |m.whole| + |Dot(m.point)| + |m.frac| <= |n.whole| + |Dot(n.point)| + |n.frac|
  {
    hide StartsWith, WellSpelled, At;
    var g := b + |n.whole| + |Dot(n.point)| + |n.frac|;
    if g < b + |m.whole| + |Dot(m.point)| + |m.frac| {
      MantissaChar(s, b, m, g);
      if n.point {
        MantissaChar(s, b, n, b + |n.whole|);
        MantissaChar(s, b, m, b + |n.whole|);
      }
    }
  }

  /** Of the numerals that begin at i the number there is the longest. */
  lemma Longest(s: string, i: nat, n: Numeral, m: Numeral)
    requires Stands(s, i, n) && WellSpelled(m) && StartsWith(s, i, Spelled(m))
    ensures |Spelled(m)| <= |Spelled(n)|
  {
    hide StartsWith, Spelled, BlankEnd, SignEnd, Stops, FieldText, WellSpelled, FieldOk;
    FrontRead(s, i, n);
    FrontRead(s, i, m);
    Parted(s, i, n);
    Parted(s, i, m);
    Sums(n);
    Sums(m);
    var b := i + |n.blanks| + |n.sign|;
    var g := b + |n.whole| + |Dot(n.point)| + |n.frac|;
    var h := b + |m.whole| + |Dot(m.point)| + |m.frac|;
    Unfinished(s, g, n);
    LongestMantissa(s, b, n, m);
    FieldsOk(n);
    FieldsOk(m);
    if h == g {
      LongestField(s, g, n.field, m.field);
    } else if m.field.Field? {
      FieldSeen(s, h, m.field);
      MantissaChar(s, b, n, h);
    } else {
      NoFieldText(m.field);
    }
  }

  lemma FieldsOk(n: Numeral)
    requires WellSpelled(n)
    ensures FieldOk(n.field)
  {
  }

  lemma NoFieldText(f: ExpField)
    requires f.NoField?
    ensures FieldText(f) == ""
  {
  }

  // ---------------------------------------------------------------- comparing rationals

  /** Brought to any common power of ten. */
  lemma Common(m: nat, e: int, n: nat, f: int, g: int)
    requires g <= e && g <= f
    ensures SameNumber(m, e, n, f) <==> m * Pow(10, e - g) == n * Pow(10, f - g)
  {
    if e >= f {
      PowAdd(10, e - f, f - g);
      Cancel(m, Pow(10, e - f), n, 1, Pow(10, f - g), f - g);
    } else {
      PowAdd(10, f - e, e - g);
      Cancel(m, 1, n, Pow(10, f - e), Pow(10, e - g), e - g);
    }
  }

  lemma Cancel(m: nat, a: nat, n: nat, b: nat, p: nat, k: nat)
    requires p == Pow(10, k)
    ensures m * a == n * b <==> m * (a * p) == n * (b * p)
  {
    PowPositive(10, k);
    assert m * (a * p) == (m * a) * p && n * (b * p) == (n * b) * p;
    NextMultipleOf(m * a, n * b, p);
    NextMultipleOf(n * b, m * a, p);
  }

  lemma SameTransitive(m: nat, e: int, n: nat, f: int, l: nat, h: int)
    requires SameNumber(m, e, n, f)
    ensures SameNumber(n, f, l, h) <==> SameNumber(m, e, l, h)
  {
    hide SameNumber, Pow;
    var g := if e < f then e else f;
    g := if h < g then h else g;
    Common(m, e, n, f, g);
    Common(n, f, l, h, g);
    Common(m, e, l, h, g);
  }

  lemma OneTimes(n: nat)
    ensures n * Pow(10, 0) == n
  {
  }

  lemma SameSelf(m: nat, e: int)
    ensures SameNumber(m, e, m, e)
  {
    OneTimes(m);
  }

  lemma SameSymmetric(m: nat, e: int, n: nat, f: int)
    ensures SameNumber(m, e, n, f) <==> SameNumber(n, f, m, e)
  {
    OneTimes(m);
    OneTimes(n);
  }

  /** A number other than zero fixes the exponent of its digits. */
  lemma ExponentFixed(m: nat, e: int, e': int)
    requires m > 0 && SameNumber(m, e, m, e')
    ensures e == e'
  {
    if e > e' {
      Outgrows(m, e - e');
    } else if e < e' {
      Outgrows(m, e' - e);
    }
  }

  lemma Outgrows(m: nat, k: nat)
    requires m > 0 && k > 0
    ensures m * Pow(10, k) > m
  {
    PowMonotone(10, 1, k);
    assert Pow(10, 1) == 10 * Pow(10, 0);
    MulMonotone(10, Pow(10, k), m);
  }

  /** The digits that matter have the value of all digits, the idle zeros of the fraction counted in the exponent. */
  lemma SignificantValue(w: string, f: string, v: int)
    requires AllDigits(w) && AllDigits(f)
    ensures var ds := Strip(w + f[..Kept(f)]);
      && AllDigits(w + f) && AllDigits(ds) && (ds != "" <==> DecVal(w + f) > 0)
      && SameNumber(DecVal(ds), v - Kept(f), DecVal(w + f), v - |f|)
  {
    hide Strip, Kept, DecVal, Pow, AllDigits;
    var t := f[..Kept(f)];
    var k := |f| - Kept(f);
    KeptTail(f);
    PrefixDigits(f, Kept(f));
    JoinDigits(w, t, |t|);
    assert t[..|t|] == t;
    assert w + f == (w + t) + Zeros(k);
    TrailingZeros(w + t, k);
    StripValue(w + t);
    PowPositive(10, k);
    SomeValue(w + t);
    MulMonotone(if DecVal(w + t) > 0 then 1 else 0, DecVal(w + t), Pow(10, k));
  }

  lemma SomeValue(u: string)
    requires AllDigits(u)
    ensures AllDigits(Strip(u)) && (Strip(u) != "" <==> DecVal(u) > 0)
  {
    StripValue(u);
    if Strip(u) != "" {
      NonZeroValue(Strip(u));
    }
  }

  lemma PrefixDigits(f: string, k: nat)
    requires AllDigits(f) && k <= |f|
    ensures AllDigits(f[..k])
  {
    SuffixDigits(f[..k] + f[k..], 0, 0, |f|);
    assert f[..k] + f[k..] == f;
  }

  lemma ZeroAlike(m: nat, e: int, n: nat, f: int)
    requires SameNumber(m, e, n, f)
    ensures m == 0 <==> n == 0
  {
    if e >= f {
      PowPositive(10, e - f);
      MulMonotone(if m > 0 then 1 else 0, m, Pow(10, e - f));
    } else {
      PowPositive(10, f - e);
      MulMonotone(if n > 0 then 1 else 0, n, Pow(10, f - e));
    }
  }

  lemma Clamped(m: nat, e: int, r: int, n: nat, h: int, v: int)
    requires m > 0 && SameNumber(m, e, n, h) && r == e - v + Clamp(v)
    ensures SameNumber(m, r, n, h) <==> -19999 <= v <= 19999
  {
    hide SameNumber;
    if SameNumber(m, r, n, h) {
      SameSymmetric(m, r, n, h);
      SameTransitive(m, e, n, h, m, r);
      ExponentFixed(m, e, r);
    }
  }

  // ---------------------------------------------------------------- what the front end of fpconv_strtod hands on

  /**
   For every numeral, wherever it stands, the digits and the exponent that are handed on denote the number spelled
   exactly when the exponent written does not exceed 19999 in size; all of the numeral is read and its sign is kept.
   */
  lemma ScanReads(s: string, i: nat, n: Numeral, r: Scanned) returns (ds: string)
    requires Stands(s, i, n) && ScansTo(s, i, r)
    ensures r.Decimal? && r.neg == (n.sign == "-") && r.end == i + |Spelled(n)|
    ensures AllDigits(ds) && |ds| == r.nd && AllDigits(n.whole + n.frac)
    ensures r.nd == 0 <==> DecVal(n.whole + n.frac) == 0
    ensures r.nd > 0 ==>
              && Collected(s, r.s0, r.nd0, r.y, r.z, ds)
              && (SameNumber(DecVal(ds), r.e, DecVal(n.whole + n.frac), Power(n.field) - |n.frac|)
                  <==> -19999 <= Power(n.field) <= 19999)
  {
    hide Spelled, StartsWith, Stops, SignEnd, Hex, DecVal, SameNumber, Strip, Collected, Pow, BlankEnd, WholeOf, FracOf, MantissaEnd, ExpEnd, Exponent;
    NumeralRead(s, i, n);
    SignificantValue(n.whole, n.frac, Power(n.field));
    ds := Strip(n.whole + n.frac[..Kept(n.frac)]);
    assert ds == Significant(Dissect(s, i));
    if r.nd > 0 {
      ZeroAlike(DecVal(ds), Power(n.field) - Kept(n.frac), DecVal(n.whole + n.frac), Power(n.field) - |n.frac|);
      SameSelf(DecVal(n.whole + n.frac), Power(n.field) - |n.frac|);
      Clamped(DecVal(ds), Power(n.field) - Kept(n.frac), r.e, DecVal(n.whole + n.frac), Power(n.field) - |n.frac|,
              Power(n.field));
    }
  }

  /** A decimal number is handed on exactly where one is spelled. */
  lemma ScanAccepts(s: string, i: nat, r: Scanned)
    requires i <= |s| && ScansTo(s, i, r)
    ensures r.Decimal? <==> exists n :: Stands(s, i, n)
  {
    hide Stands, Numeric, Hex, SignEnd, Dissect, Collected;
    if r.Decimal? {
      var n := NumeralWritten(s, i);
      assert Stands(s, i, n);
    }
    if n :| Stands(s, i, n) {
      NumeralRead(s, i, n);
    }
  }

  /** A word in capital or small letters. */
  predicate InCase(w: string, lower: string)
  {
    |w| == |lower|
    && forall k :: 0 <= k < |w| ==> w[k] == lower[k] || (lower[k] >= 'a' && w[k] as int == lower[k] as int - 32)
  }

  /** A name, or the beginning of a hexadecimal number, at i. */
  predicate Names(s: string, i: nat, blanks: string, sign: string, word: string)
  {
    && Blanks(blanks) && SignText(sign) && StartsWith(s, i, blanks + (sign + word))
    && (InCase(word, "inf") || InCase(word, "nan") || InCase(word, "0x"))
  }

  lemma NameStarts(word: string)
    requires InCase(word, "inf") || InCase(word, "nan") || InCase(word, "0x")
    ensures word != "" && word[0] in "iInN0"
  {
    assert word[0] == "inf"[0] || word[0] as int == "inf"[0] as int - 32 || word[0] == "nan"[0]
      || word[0] as int == "nan"[0] as int - 32 || word[0] == "0x"[0];
  }

  lemma NameFront(s: string, i: nat, blanks: string, sign: string, word: string)
    requires Names(s, i, blanks, sign, word)
    ensures SignEnd(s, i) == i + |blanks| + |sign| && StartsWith(s, i + |blanks| + |sign|, word)
  {
    hide StartsWith, At, InCase, Blank, Blanks, BlankEnd;
    var a := i + |blanks|;
    Split(s, i, blanks, sign + word);
    Split(s, a, sign, word);
    NameStarts(word);
    Holds(s, a + |sign|, word, 0);
    SignAt(s, a, sign);
    LetterNoBlank(At(s, a));
    BlankRun(s, i, blanks);
  }

  lemma LetterNoBlank(c: char)
    requires c in "iInN0+-"
    ensures !Blank(c)
  {
  }

  lemma NameTold(s: string, b: nat, word: string)
    requires StartsWith(s, b, word)
    ensures InCase(word, "0x") ==> Hex(s, b) && DigitEnd(s, b) > b
    ensures InCase(word, "inf") || InCase(word, "nan") ==>
              Named(s, b) && !Hex(s, b) && !Digit(At(s, b)) && At(s, b) != '.'
  {
    hide StartsWith, At;
    if |word| > 1 {
      Holds(s, b, word, 0);
      Holds(s, b, word, 1);
    }
    if |word| == 3 {
      Holds(s, b, word, 2);
    }
    Letters(word);
    DigitsBegin(s, b);
  }

  lemma Letters(word: string)
    ensures InCase(word, "0x") ==> |word| == 2 && word[0] == '0' && (word[1] == 'x' || word[1] == 'X')
    ensures InCase(word, "inf") ==> |word| == 3 && Lower(word[0]) == 'i' && Lower(word[1]) == 'n' && Lower(word[2]) == 'f'
    ensures InCase(word, "nan") ==> |word| == 3 && Lower(word[0]) == 'n' && Lower(word[1]) == 'a' && Lower(word[2]) == 'n'
    ensures InCase(word, "inf") || InCase(word, "nan") ==> word[0] > '9'
  {
  }

  lemma DigitsBegin(s: string, b: nat)
    ensures Digit(At(s, b)) ==> DigitEnd(s, b) > b
  {
  }

  lemma NameWritten(s: string, b: nat) returns (word: string)
    requires Hex(s, b) || Named(s, b)
    ensures StartsWith(s, b, word) && (InCase(word, "inf") || InCase(word, "nan") || InCase(word, "0x"))
  {
    if Hex(s, b) {
      word := s[b..b + 2];
      assert InCase(word, "0x");
    } else {
      word := s[b..b + 3];
      assert if Lower(s[b]) == 'i' then InCase(word, "inf") else InCase(word, "nan");
    }
  }

  lemma NotNumeric(s: string, i: nat)
    requires !Digit(At(s, SignEnd(s, i))) && At(s, SignEnd(s, i)) != '.'
    ensures !Numeric(s, i)
  {
    hide SignEnd, BlankEnd, Exponent, ExpEnd;
  }

  lemma SomeDigits(s: string, i: nat)
    requires DigitEnd(s, SignEnd(s, i)) > SignEnd(s, i)
    ensures Numeric(s, i)
  {
    hide SignEnd, At, Digit, BlankEnd, Exponent, ExpEnd;
  }

  /** What is handled elsewhere: infinities, NaN and hexadecimal numbers, in either case, behind blanks and a sign. */
  lemma SpecialExactly(s: string, i: nat, r: Scanned)
    requires i <= |s| && ScansTo(s, i, r)
    ensures r.Special? <==> exists blanks, sign, word :: Names(s, i, blanks, sign, word)
  {
    hide StartsWith, Numeric, Hex, Named, SignEnd, BlankEnd, Dissect, Collected, InCase, DigitEnd, At, Digit;
    var a, b := BlankEnd(s, i), SignEnd(s, i);
    if r.Special? {
      FrontWritten(s, i);
      var word := NameWritten(s, b);
      SliceStands(s, i, a);
      SliceStands(s, a, b);
      Split(s, a, s[a..b], word);
      Split(s, i, s[i..a], s[a..b] + word);
      assert Names(s, i, s[i..a], s[a..b], word);
    }
    if blanks, sign, word :| Names(s, i, blanks, sign, word) {
      NameFront(s, i, blanks, sign, word);
      NameTold(s, b, word);
      if InCase(word, "0x") {
        SomeDigits(s, i);
      } else {
        NotNumeric(s, i);
      }
    }
  }

  // ---------------------------------------------------------------- scanning undoes printing

  /** Nothing at j continues a number. */
  predicate EndsAt(s: string, j: nat)
  {
    !Digit(At(s, j)) && At(s, j) !in ".eExX"
  }

  /** The layouts with an exponent field. */
  predicate HasField(decpt: int, precision: int)
  {
    decpt <= -4 || decpt > precision
  }

  /** n spells 0.digits * 10^decpt, with a digit before the point and no point without a digit behind it. */
  ghost predicate Denotes(n: Numeral, digits: string, decpt: int)
  {
    && WellSpelled(n) && n.blanks == "" && n.whole != "" && (n.point <==> n.frac != "")
    && AllDigits(n.whole + n.frac) && AllDigits(digits)
    && SameNumber(DecVal(n.whole + n.frac), Power(n.field) - |n.frac|, DecVal(digits), decpt - |digits|)
  }

  /**
   A layout spells the number that was asked for, in the style of the g conversion in section 7.19.6.1 of ISO C99:
   an exponent of two digits or more exactly when it is less than -4 or not less than the precision, one digit before
   the point then, and no point without a digit behind it.
   */
  lemma LayoutSpells(neg: bool, digits: string, decpt: int, precision: int) returns (n: Numeral)
    requires AllDigits(digits) && |digits| > 0 && decpt != SPECIAL
    ensures Denotes(n, digits, decpt) && n.sign == Sign(neg)
    ensures Spelled(n) == Layout(neg, digits, decpt, precision)
    ensures Power(n.field) == if HasField(decpt, precision) then decpt - 1 else 0
    ensures n.field.NoField? <==> -4 <= decpt - 1 < precision
    ensures |n.whole| == if n.field.NoField? && decpt > 0 then decpt else 1
    ensures n.field.Field? ==> n.field.mark == 'e' && n.field.sign != "" && |n.field.digits| >= 2
  {
    hide Scientific, SmallText, PlainText, Denotes, Spelled, DecVal;
    if decpt <= -4 || decpt > precision {
      n := LayoutScientific(digits, decpt);
    } else if decpt <= 0 {
      n := LayoutSmall(digits, decpt);
    } else {
      n := LayoutPlain(digits, decpt);
    }
    SignInFront(n, neg, digits, decpt);
    n := n.(sign := Sign(neg));
  }

  lemma SignInFront(n: Numeral, neg: bool, digits: string, decpt: int)
    requires Denotes(n, digits, decpt) && n.sign == ""
    ensures var u := n.(sign := Sign(neg)); Denotes(u, digits, decpt) && Spelled(u) == Sign(neg) + Spelled(n)
  {
    hide SameNumber, DecVal;
  }

  lemma LayoutSmall(digits: string, decpt: int) returns (n: Numeral)
    requires AllDigits(digits) && |digits| > 0 && decpt <= 0
    ensures Denotes(n, digits, decpt) && n.sign == "" && n.field == NoField && Spelled(n) == SmallText(digits, decpt)
    ensures |n.whole| == 1
  {
    hide DecVal;
    n := Numeral("", "", "0", true, Zeros(-decpt) + digits, NoField);
    LeadingZeros(-decpt, digits);
    assert n.whole + n.frac == Zeros(1 - decpt) + digits;
    LeadingZeros(1 - decpt, digits);
    OneTimes(DecVal(digits));
  }

  lemma LayoutScientific(digits: string, decpt: int) returns (n: Numeral)
    requires AllDigits(digits) && |digits| > 0
    ensures Denotes(n, digits, decpt) && n.sign == "" && Spelled(n) == Scientific(digits, decpt - 1)
    ensures n.field.Field? && n.field.mark == 'e' && n.field.sign != "" && Power(n.field) == decpt - 1
    ensures |n.whole| == 1 && |n.field.digits| >= 2
  {
    hide DecVal, Padded, SameNumber, Scientific;
    var v := decpt - 1;
    var field := Field('e', if v < 0 then "-" else "+", Padded(if v < 0 then -v else v));
    n := Numeral("", "", digits[..1], |digits| > 1, digits[1..], field);
    assert n.whole + n.frac == digits;
    PaddedValue(if v < 0 then -v else v);
    SameSelf(DecVal(digits), decpt - |digits|);
    SuffixDigits(digits, 0, 1, |digits|);
    assert digits[0..|digits|] == digits && digits[1..|digits|] == n.frac;
    ScientificText(digits, v, n);
  }

  lemma ScientificText(digits: string, v: int, n: Numeral)
    requires |digits| > 0
    requires n.field == Field('e', if v < 0 then "-" else "+", Padded(if v < 0 then -v else v))
    requires n == Numeral("", "", digits[..1], |digits| > 1, digits[1..], n.field)
    ensures Spelled(n) == Scientific(digits, v)
  {
    hide Padded;
    var x := Padded(if v < 0 then -v else v);
    assert ['e'] + ("-" + x) == "e-" + x && ['e'] + ("+" + x) == "e+" + x;
  }

  lemma LayoutPlain(digits: string, decpt: int) returns (n: Numeral)
    requires AllDigits(digits) && |digits| > 0 && decpt > 0
    ensures Denotes(n, digits, decpt) && n.sign == "" && n.field == NoField && Spelled(n) == PlainText(digits, decpt)
    ensures |n.whole| == decpt
  {
    hide DecVal;
    if |digits| <= decpt {
      n := Numeral("", "", digits + Zeros(decpt - |digits|), false, "", NoField);
      TrailingZeros(digits, decpt - |digits|);
      assert n.whole + n.frac == n.whole;
      PaddedSame(DecVal(digits), decpt - |digits|);
    } else {
      n := Numeral("", "", digits[..decpt], true, digits[decpt..], NoField);
      assert n.whole + n.frac == digits;
      OneTimes(DecVal(digits));
      SuffixDigits(digits, 0, decpt, |digits|);
      assert digits[0..|digits|] == digits && digits[decpt..|digits|] == n.frac;
    }
  }

  lemma PaddedSame(n: nat, k: nat)
    ensures SameNumber(n * Pow(10, k), 0, n, k)
  {
    OneTimes(n);
  }

  lemma EndsStops(n: Numeral, s: string, j: nat)
    requires EndsAt(s, j)
    ensures Stops(n, s, j)
  {
  }

  /**
   Scanning the text that fpconv_g_fmt writes, wherever it stands and whatever follows it that does not
   continue a number, reads all of it and finds the same sign and the same rational number.
   */
  lemma ReadsBack(s: string, i: nat, neg: bool, digits: string, decpt: int, precision: int)
    requires AllDigits(digits) && |digits| > 0 && decpt != SPECIAL
    requires var t := Layout(neg, digits, decpt, precision); StartsWith(s, i, t) && EndsAt(s, i + |t|)
    ensures var p := Dissect(s, i);
      && Numeric(s, i) && !Hex(s, SignEnd(s, i))
      && p.neg == neg && p.end == i + |Layout(neg, digits, decpt, precision)|
      && SameNumber(DecVal(p.whole + p.frac), p.exp - |p.frac|, DecVal(digits), decpt - |digits|)
  {
    hide Layout, Spelled, Dissect, SignEnd, Hex, DecVal, SameNumber, EndsAt, Stops, StartsWith, Power;
    var n := LayoutSpells(neg, digits, decpt, precision);
    EndsStops(n, s, i + |Spelled(n)|);
    NumeralRead(s, i, n);
  }

  /**
   What fpconv_strtod hands on after reading a number that fpconv_g_fmt wrote: all of the text is read, the sign is
   kept, and the digits and the exponent denote the number written exactly when the exponent, if one is written,
   does not exceed 19999 in size. (No double comes near that.)
   */
  lemma ScanUndoesFormat(s: string, i: nat, neg: bool, digits: string, decpt: int, precision: int, r: Scanned)
    returns (ds: string)
    requires AllDigits(digits) && |digits| > 0 && decpt != SPECIAL && ScansTo(s, i, r)
    requires var t := Layout(neg, digits, decpt, precision); StartsWith(s, i, t) && EndsAt(s, i + |t|)
    ensures r.Decimal? && r.neg == neg && r.end == i + |Layout(neg, digits, decpt, precision)|
    ensures AllDigits(ds) && |ds| == r.nd && (DecVal(digits) == 0 <==> r.nd == 0)
    ensures r.nd > 0 ==>
              && Collected(s, r.s0, r.nd0, r.y, r.z, ds)
              && (SameNumber(DecVal(ds), r.e, DecVal(digits), decpt - |digits|)
                  <==> !HasField(decpt, precision) || -19999 <= decpt - 1 <= 19999)
  {
    hide Layout, Spelled, DecVal, SameNumber, EndsAt, Stops, StartsWith, Power, ScansTo, Collected;
    var n := LayoutSpells(neg, digits, decpt, precision);
    EndsStops(n, s, i + |Spelled(n)|);
    ds := ScanReads(s, i, n, r);
    var m, e := DecVal(n.whole + n.frac), Power(n.field) - |n.frac|;
    ZeroAlike(m, e, DecVal(digits), decpt - |digits|);
    if r.nd > 0 {
      SameTransitive(m, e, DecVal(digits), decpt - |digits|, DecVal(ds), r.e);
      SameSymmetric(m, e, DecVal(ds), r.e);
      SameSymmetric(DecVal(digits), decpt - |digits|, DecVal(ds), r.e);
    }
  }
}
