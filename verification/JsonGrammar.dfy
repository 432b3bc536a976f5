/** The texts lua_cjson.c decodes: a concrete syntax by section 2 of RFC 4627, what each text means, and that these are all. */
module JsonGrammar {
  import opened DecimalDigits
  import opened NumberText
  import opened NumberSpellings
  import opened JsonText

  // ---------------------------------------------------------------- concrete syntax

  type CodeUnit = n: nat | n < 0x1_0000

  /** A character of a string as it is spelled: itself, a short escape, or one or two escapes of UTF-16 units. */
  datatype Piece =
    | Itself(c: char)
    | Short(letter: char)
    | Unit(unit: CodeUnit, hex: string)
    | Pair(high: CodeUnit, low: CodeUnit, hexHigh: string, hexLow: string)

  datatype Syntax =
    | WordNull
    | WordBool(b: bool)
    | Figures(n: Numeral)
    | Quote(pieces: seq<Piece>)
    | EmptyArray(gap: string)
    | Array(items: seq<Element>)
    | EmptyObject(gap: string)
    | Object(entries: seq<Entry>)

  /** A value with the blanks on both sides of it. */
  datatype Element = Element(before: string, value: Syntax, after: string)

  /** A key, its colon and its value with the blanks between them. */
  datatype Entry = Entry(before: string, key: seq<Piece>, middle: string, item: Element)

  /** Blanks between tokens. */
  predicate Gap(t: string)
  {
    forall k :: 0 <= k < |t| ==> t[k] == ' ' || t[k] == '\t' || t[k] == '\n' || t[k] == '\r'
  }

  /** The value of a hexadecimal digit in either case, -1 for other characters. */
  function HexOf(c: char): int
  {
    match c
    case '0' => 0 case '1' => 1 case '2' => 2 case '3' => 3 case '4' => 4
    case '5' => 5 case '6' => 6 case '7' => 7 case '8' => 8 case '9' => 9
    case 'a' => 10 case 'b' => 11 case 'c' => 12 case 'd' => 13 case 'e' => 14 case 'f' => 15
    case 'A' => 10 case 'B' => 11 case 'C' => 12 case 'D' => 13 case 'E' => 14 case 'F' => 15
    case _ => -1
  }

  /** Four hexadecimal digits, most significant first. */
  predicate Hexes(h: string, u: nat)
  {
    && |h| == 4 && (forall k :: 0 <= k < 4 ==> HexOf(h[k]) >= 0)
    && u == ((HexOf(h[0]) * 16 + HexOf(h[1])) * 16 + HexOf(h[2])) * 16 + HexOf(h[3])
  }

  predicate PieceOk(p: Piece)
  {
    match p
    case Itself(c) => c != '"' && c != '\\' && c != '\0'
    case Short(letter) => letter in "\"\\/bfnrt"
    case Unit(u, h) => Hexes(h, u) && !(0xD800 <= u < 0xE000)
    case Pair(hi, lo, h, l) => Hexes(h, hi) && Hexes(l, lo) && 0xD800 <= hi < 0xDC00 && 0xDC00 <= lo < 0xE000
  }

  predicate PiecesOk(ps: seq<Piece>)
  {
    forall k :: 0 <= k < |ps| ==> PieceOk(ps[k])
  }

  function PieceText(p: Piece): string
  {
    match p
    case Itself(c) => [c]
    case Short(letter) => ['\\', letter]
    case Unit(_, h) => "\\u" + h
    case Pair(_, _, h, l) => "\\u" + h + ("\\u" + l)
  }

  function PiecesText(ps: seq<Piece>): string
  {
    if ps == [] then "" else PieceText(ps[0]) + PiecesText(ps[1..])
  }

  /** The escapes of two characters, by section 2.5 of RFC 4627. */
  function ShortMeaning(letter: char): char
  {
    if letter == 'b' then 8 as char
    else if letter == 't' then 9 as char
    else if letter == 'n' then 10 as char
    else if letter == 'f' then 12 as char
    else if letter == 'r' then 13 as char
    else letter
  }

  /** The bytes of a piece; a pair stands for a code point of 20 bits more, by section 2.2 of RFC 2781. */
  function PieceMeaning(p: Piece): string
  {
    match p
    case Itself(c) => [c]
    case Short(letter) => [ShortMeaning(letter)]
    case Unit(u, _) => Utf8(u)
    case Pair(hi, lo, _, _) => Utf8(0x1_0000 + hi % 0x400 * 0x400 + lo % 0x400)
  }

  function PiecesMeaning(ps: seq<Piece>): string
  {
    if ps == [] then "" else PieceMeaning(ps[0]) + PiecesMeaning(ps[1..])
  }

  function QuoteText(ps: seq<Piece>): string
  {
    "\"" + (PiecesText(ps) + "\"")
  }

  /**
   The numbers that begin a value: with a minus or a digit, or with a plus where strictness is off. The digits are
   those strtod takes, so the point may be first or last; strict reading refuses idle zeros in front.
   */
  predicate NumberOk(n: Numeral, strict: bool)
  {
    && WellSpelled(n) && n.blanks == ""
    && (n.sign == "" ==> n.whole != "") && (n.sign == "+" ==> !strict)
    && (strict && |n.whole| > 1 ==> n.whole[0] != '0')
  }

  predicate WellFormed(x: Syntax, strict: bool)
    decreases x
  {
    match x
    case WordNull => true
    case WordBool(_) => true
    case Figures(n) => NumberOk(n, strict)
    case Quote(ps) => PiecesOk(ps)
    case EmptyArray(gap) => Gap(gap)
    case Array(items) => items != [] && forall k :: 0 <= k < |items| ==> ElementOk(items[k], strict)
    case EmptyObject(gap) => Gap(gap)
    case Object(entries) => entries != [] && forall k :: 0 <= k < |entries| ==> EntryOk(entries[k], strict)
  }

  predicate ElementOk(e: Element, strict: bool)
    decreases e
  {
    Gap(e.before) && WellFormed(e.value, strict) && Gap(e.after)
  }

  predicate EntryOk(e: Entry, strict: bool)
    decreases e
  {
    Gap(e.before) && PiecesOk(e.key) && Gap(e.middle) && ElementOk(e.item, strict)
  }

  /** The text of a value. */
  function Unparse(x: Syntax): string
    decreases x
  {
    match x
    case WordNull => "null"
    case WordBool(b) => if b then "true" else "false"
    case Figures(n) => Spelled(n)
    case Quote(ps) => QuoteText(ps)
    case EmptyArray(gap) => "[" + (gap + "]")
    case Array(items) => "[" + ElementsText(items)
    case EmptyObject(gap) => "{" + (gap + "}")
    case Object(entries) => "{" + EntriesText(entries)
  }

  function ElementText(e: Element): string
    decreases e
  {
    e.before + (Unparse(e.value) + e.after)
  }

  /** The elements with their commas and the bracket that closes them. */
  function ElementsText(items: seq<Element>): string
    decreases items
  {
    if items == [] then ""
    else ElementText(items[0]) + if |items| == 1 then "]" else "," + ElementsText(items[1..])
  }

  function EntryText(e: Entry): string
    decreases e
  {
    e.before + (QuoteText(e.key) + (e.middle + (":" + ElementText(e.item))))
  }

  function EntriesText(entries: seq<Entry>): string
    decreases entries
  {
    if entries == [] then ""
    else EntryText(entries[0]) + if |entries| == 1 then "}" else "," + EntriesText(entries[1..])
  }

  /** The value a text stands for; Lua has one empty table for both kinds of brackets. */
  function Meaning(x: Syntax): Value
    decreases x
  {
    match x
    case WordNull => Null
    case WordBool(b) => Bool(b)
    case Figures(n) => Num(Spelled(n))
    case Quote(ps) => Str(PiecesMeaning(ps))
    case EmptyArray(_) => Obj([])
    case Array(items) => Arr(ElementsMeaning(items))
    case EmptyObject(_) => Obj([])
    case Object(entries) => Obj(EntriesMeaning(entries))
  }

  function ElementMeaning(e: Element): Value
    decreases e
  {
    Meaning(e.value)
  }

  function ElementsMeaning(items: seq<Element>): seq<Value>
    decreases items
  {
    if items == [] then [] else [ElementMeaning(items[0])] + ElementsMeaning(items[1..])
  }

  function EntryMeaning(e: Entry): Member
    decreases e
  {
    Member(Name(PiecesMeaning(e.key)), ElementMeaning(e.item))
  }

  function EntriesMeaning(entries: seq<Entry>): seq<Member>
    decreases entries
  {
    if entries == [] then [] else [EntryMeaning(entries[0])] + EntriesMeaning(entries[1..])
  }

  // ---------------------------------------------------------------- strings are read as they are spelled

  lemma HexSame(c: char)
    ensures HexDigit(c) == HexOf(c)
  {
  }

  lemma HexesRead(s: string, i: nat, h: string, u: nat)
    requires Hexes(h, u) && StartsWith(s, i, h)
    ensures Hex4(s, i) == u
  {
    hide StartsWith, HexDigit, HexOf, At;
    Holds(s, i, h, 0);
    Holds(s, i, h, 1);
    Holds(s, i, h, 2);
    Holds(s, i, h, 3);
    HexSame(h[0]);
    HexSame(h[1]);
    HexSame(h[2]);
    HexSame(h[3]);
  }

  lemma EscapeParts(s: string, i: nat, h: string)
    requires StartsWith(s, i, "\\u" + h)
    ensures At(s, i) == '\\' && At(s, i + 1) == 'u' && StartsWith(s, i + 2, h)
  {
    hide StartsWith, At;
    Split(s, i, "\\u", h);
    Holds(s, i, "\\u", 0);
    Holds(s, i, "\\u", 1);
  }

  /** The low ten bits of the units of a pair. */
  lemma PairBits(hi: nat, lo: nat)
    requires 0xD800 <= hi < 0xDC00 && 0xDC00 <= lo < 0xE000
    ensures hi % 0x400 == hi - 0xD800 && lo % 0x400 == lo - 0xDC00
  {
  }

  /** A pair of escapes names one code point. */
  lemma PairRead(s: string, i: nat, p: Piece)
    requires PieceOk(p) && StartsWith(s, i, PieceText(p)) && p.Pair?
    ensures At(s, i) == '\\' && At(s, i + 1) == 'u'
    ensures CodePoint(s, i) == Point(0x1_0000 + p.high % 0x400 * 0x400 + p.low % 0x400, i + |PieceText(p)|)
  {
    hide StartsWith, At, Hex4, HexOf;
    Split(s, i, "\\u" + p.hexHigh, "\\u" + p.hexLow);
    EscapeParts(s, i, p.hexHigh);
    EscapeParts(s, i + 6, p.hexLow);
    HexesRead(s, i + 2, p.hexHigh, p.high);
    HexesRead(s, i + 8, p.hexLow, p.low);
    PairBits(p.high, p.low);
  }

  /** An escape or a pair of escapes names the code point of its units, whatever the case of the digits. */
  lemma UnitRead(s: string, i: nat, p: Piece)
    requires PieceOk(p) && StartsWith(s, i, PieceText(p)) && (p.Unit? || p.Pair?)
    ensures At(s, i) == '\\' && At(s, i + 1) == 'u'
    ensures CodePoint(s, i).Point? && CodePoint(s, i).next == i + |PieceText(p)|
    ensures Utf8(CodePoint(s, i).cp) == PieceMeaning(p)
  {
    hide StartsWith, At, Hex4, Utf8, HexOf;
    if p.Unit? {
      EscapeParts(s, i, p.hex);
      HexesRead(s, i + 2, p.hex, p.unit);
    } else {
      PairRead(s, i, p);
    }
  }

  lemma ShortSame(c: char)
    ensures Unescape(c) == if c in "\"\\/bfnrt" then ShortMeaning(c) else if c == 'u' then 'u' else '\0'
  {
  }

  lemma ShortShape(c: char)
    requires c in "\"\\/bfnrt"
    ensures ShortMeaning(c) != 'u' && ShortMeaning(c) != '\0'
  {
  }

  lemma PieceRead(s: string, i: nat, p: Piece, got: string)
    requires PieceOk(p) && StartsWith(s, i, PieceText(p))
    ensures i + |PieceText(p)| <= |s| && |PieceText(p)| > 0
    ensures StringRest(s, i, got) == StringRest(s, i + |PieceText(p)|, got + PieceMeaning(p))
  {
    hide StartsWith, At, CodePoint, Unescape, ShortMeaning, Utf8, Hexes;
    Inside(s, i, PieceText(p));
    match p
    case Itself(c) => Holds(s, i, [c], 0);
    case Short(letter) =>
      Holds(s, i, PieceText(p), 0);
      Holds(s, i, PieceText(p), 1);
      ShortSame(letter);
      ShortShape(letter);
    case _ =>
      UnitRead(s, i, p);
      ShortSame('u');
  }

  lemma {:induction false} PiecesRead(s: string, i: nat, ps: seq<Piece>, got: string)
    requires PiecesOk(ps) && StartsWith(s, i, PiecesText(ps) + "\"")
    ensures var e := i + |PiecesText(ps)|;
      e < |s| && StringRest(s, i, got) == Lexed(StrTok(got + PiecesMeaning(ps)), e, e + 1)
    decreases |ps|
  {
    hide StartsWith, PieceText, PieceMeaning, CodePoint, Unescape, Utf8, PieceOk;
    Split(s, i, PiecesText(ps), "\"");
    if ps == [] {
      Holds(s, i, "\"", 0);
      Inside(s, i, "\"");
      assert got + "" == got;
    } else {
      Split(s, i, PieceText(ps[0]), PiecesText(ps[1..]));
      PieceRead(s, i, ps[0], got);
      var j := i + |PieceText(ps[0])|;
      Split(s, j, PiecesText(ps[1..]), "\"");
      PiecesRead(s, j, ps[1..], got + PieceMeaning(ps[0]));
      assert got + PieceMeaning(ps[0]) + PiecesMeaning(ps[1..]) == got + PiecesMeaning(ps);
    }
  }

  // ---------------------------------------------------------------- strings are spelled as they are read

  lemma HexesWritten(s: string, i: nat) returns (h: string)
    requires Hex4(s, i) >= 0
    ensures Hexes(h, Hex4(s, i)) && StartsWith(s, i, h)
  {
    hide HexDigit, HexOf;
    h := s[i..i + 4];
    HexSame(h[0]);
    HexSame(h[1]);
    HexSame(h[2]);
    HexSame(h[3]);
  }

  lemma UnitWritten(s: string, i: nat) returns (p: Piece)
    requires At(s, i) == '\\' && At(s, i + 1) == 'u' && CodePoint(s, i).Point?
    ensures PieceOk(p) && StartsWith(s, i, PieceText(p)) && CodePoint(s, i).next == i + |PieceText(p)|
    ensures Utf8(CodePoint(s, i).cp) == PieceMeaning(p)
  {
    hide Hex4, Utf8, StartsWith, Hexes;
    var hi := Hex4(s, i + 2);
    var h := HexesWritten(s, i + 2);
    EscapeJoins(s, i, h);
    if 0xD800 <= hi < 0xE000 {
      var l := HexesWritten(s, i + 8);
      EscapeJoins(s, i + 6, l);
      FourDigits(h, hi);
      FourDigits(l, Hex4(s, i + 8));
      p := Pair(hi, Hex4(s, i + 8), h, l);
      Split(s, i, "\\u" + h, "\\u" + l);
    } else {
      FourDigits(h, hi);
      p := Unit(hi, h);
    }
  }

  lemma FourDigits(h: string, u: nat)
    requires Hexes(h, u)
    ensures |h| == 4
  {
  }

  lemma EscapeJoins(s: string, i: nat, h: string)
    requires At(s, i) == '\\' && At(s, i + 1) == 'u' && StartsWith(s, i + 2, h)
    ensures StartsWith(s, i, "\\u" + h)
  {
    assert s[i..i + 2] == "\\u";
    Split(s, i, "\\u", h);
  }

  lemma PieceWritten(s: string, i: nat, got: string) returns (p: Piece)
    requires i <= |s| && At(s, i) != '"' && StringRest(s, i, got).tok.StrTok?
    ensures PieceOk(p) && StartsWith(s, i, PieceText(p)) && 0 < |PieceText(p)| && i + |PieceText(p)| <= |s|
    ensures StringRest(s, i, got) == StringRest(s, i + |PieceText(p)|, got + PieceMeaning(p))
  {
    hide CodePoint, Unescape, ShortMeaning, Utf8, Hexes;
    if At(s, i) != '\\' {
      p := Itself(s[i]);
      assert s[i..i + 1] == [s[i]];
    } else {
      var c := At(s, i + 1);
      ShortSame(c);
      if c == 'u' {
        p := UnitWritten(s, i);
      } else {
        p := Short(c);
        NoShortNul(c);
        assert s[i..i + 2] == ['\\', c];
      }
    }
  }

  lemma NoShortNul(c: char)
    requires c in "\"\\/bfnrt"
    ensures c != '\0' && ShortMeaning(c) != 'u'
  {
  }

  lemma {:induction false} PiecesWritten(s: string, i: nat, got: string) returns (ps: seq<Piece>)
    requires i <= |s| && StringRest(s, i, got).tok.StrTok?
    ensures PiecesOk(ps) && StartsWith(s, i, PiecesText(ps) + "\"")
    ensures var e := i + |PiecesText(ps)|; StringRest(s, i, got) == Lexed(StrTok(got + PiecesMeaning(ps)), e, e + 1)
    decreases |s| - i
  {
    hide StartsWith, PieceText, PieceMeaning, CodePoint, Unescape, Utf8, PieceOk, At;
    if At(s, i) == '"' {
      ps := [];
      QuoteEnds(s, i, got);
    } else {
      var p := PieceWritten(s, i, got);
      var j := i + |PieceText(p)|;
      var rest := PiecesWritten(s, j, got + PieceMeaning(p));
      ps := [p] + rest;
      assert ps[1..] == rest;
      assert PiecesText(ps) + "\"" == PieceText(p) + (PiecesText(rest) + "\"");
      Split(s, i, PieceText(p), PiecesText(rest) + "\"");
      assert got + PieceMeaning(p) + PiecesMeaning(rest) == got + PiecesMeaning(ps);
    }
  }

  lemma QuoteEnds(s: string, i: nat, got: string)
    requires At(s, i) == '"'
    ensures StartsWith(s, i, "" + "\"") && StringRest(s, i, got) == Lexed(StrTok(got + ""), i, i + 1)
  {
    assert got + "" == got;
    assert s[i..i + 1] == "\"";
  }

  // ---------------------------------------------------------------- tokens are read as they are spelled

  lemma {:induction false} GapSkipped(s: string, i: nat, gap: string)
    requires StartsWith(s, i, gap) && Gap(gap)
    ensures SpaceEnd(s, i) == SpaceEnd(s, i + |gap|) && i + |gap| <= |s|
    decreases |gap|
  {
    if gap != "" {
      Holds(s, i, gap, 0);
      assert gap == gap[..1] + gap[1..];
      Split(s, i, gap[..1], gap[1..]);
      GapSkipped(s, i + 1, gap[1..]);
    }
  }

  /** Blanks in front of a token change nothing. */
  lemma TokenBehindGap(s: string, i: nat, gap: string, strict: bool)
    requires StartsWith(s, i, gap) && Gap(gap)
    ensures i + |gap| <= |s| && NextTok(s, i, strict) == NextTok(s, i + |gap|, strict)
  {
    hide StringRest, NumberToken, Invalid, StartsWith;
    GapSkipped(s, i, gap);
  }

  lemma MarkRead(s: string, i: nat, c: char, strict: bool)
    requires StartsWith(s, i, [c]) && (c == '{' || c == '}' || c == '[' || c == ']' || c == ':' || c == ',')
    ensures i < |s| && NextTok(s, i, strict) == Lexed(Punctuation(c), i, i + 1)
  {
    hide StringRest, NumberToken, Invalid;
    Holds(s, i, [c], 0);
  }

  /** A mark and the blanks in front of it. */
  lemma GapMarkRead(s: string, i: nat, gap: string, c: char, strict: bool)
    requires StartsWith(s, i, gap + [c]) && Gap(gap)
    requires c == '{' || c == '}' || c == '[' || c == ']' || c == ':' || c == ','
    ensures i + |gap| < |s| && NextTok(s, i, strict) == Lexed(Punctuation(c), i + |gap|, i + |gap| + 1)
  {
    hide StartsWith, NextTok;
    Split(s, i, gap, [c]);
    TokenBehindGap(s, i, gap, strict);
    MarkRead(s, i + |gap|, c, strict);
  }

  lemma QuoteRead(s: string, i: nat, ps: seq<Piece>, strict: bool)
    requires PiecesOk(ps) && StartsWith(s, i, QuoteText(ps))
    ensures i + |QuoteText(ps)| <= |s|
    ensures NextTok(s, i, strict) == Lexed(StrTok(PiecesMeaning(ps)), i, i + |QuoteText(ps)|)
  {
    hide StringRest, StartsWith, PiecesText, PiecesMeaning;
    Inside(s, i, QuoteText(ps));
    Holds(s, i, QuoteText(ps), 0);
    Split(s, i, "\"", PiecesText(ps) + "\"");
    PiecesRead(s, i + 1, ps, "");
    assert "" + PiecesMeaning(ps) == PiecesMeaning(ps);
  }

  lemma WordRead(s: string, i: nat, word: string, strict: bool)
    requires (word == "true" || word == "false" || word == "null") && StartsWith(s, i, word)
    ensures i + |word| <= |s|
    ensures NextTok(s, i, strict)
      == Lexed(if word == "null" then NullTok else BoolTok(word == "true"), i, i + |word|)
  {
    hide StringRest, NumberToken, Invalid;
    Holds(s, i, word, 0);
    if word != "true" {
      NotWord(s, i, "true");
    }
    if word == "null" {
      NotWord(s, i, "false");
    }
  }

  lemma NotWord(s: string, i: nat, word: string)
    requires word != "" && At(s, i) != word[0]
    ensures !StartsWith(s, i, word)
  {
    hide StartsWith, At;
    if StartsWith(s, i, word) {
      Holds(s, i, word, 0);
    }
  }

  /** What may follow a value: a blank, a comma, a closing bracket, or the end. */
  predicate Closes(c: char)
  {
    Space(c) || c == ',' || c == ']' || c == '}' || c == '\0'
  }

  lemma ClosesStops(n: Numeral, s: string, j: nat)
    requires Closes(At(s, j))
    ensures Stops(n, s, j)
  {
  }

  /** Behind a whole part stands the point, the exponent field, or what follows the number. */
  lemma BehindWhole(s: string, b: nat, n: Numeral)
    requires WellSpelled(n) && StartsWith(s, b + |n.whole|, Dot(n.point))
    requires var g := b + |n.whole| + |Dot(n.point)| + |n.frac|;
      StartsWith(s, g, FieldText(n.field)) && Stops(n, s, g + |FieldText(n.field)|)
    ensures var c := At(s, b + |n.whole|); !Digit(c) && (n.whole == "0" ==> c != 'x' && c != 'X')
  {
    hide StartsWith, At, AllDigits, Blanks, FieldText, SignText;
    if n.point {
      Holds(s, b + |n.whole|, ".", 0);
    } else if n.field.Field? {
      FieldParts(s, b + |n.whole|, n.field);
    } else {
      NoFieldText(n.field);
    }
  }

  /** What is wrong with a number in strict reading: a plus, or an idle zero. */
  lemma NothingWrong(s: string, i: nat, n: Numeral)
    requires NumberOk(n, true) && StartsWith(s, i, n.sign) && StartsWith(s, i + |n.sign|, n.whole)
    requires StartsWith(s, i + |n.sign| + |n.whole|, Dot(n.point))
    requires var c := At(s, i + |n.sign| + |n.whole|); !Digit(c) && (n.whole == "0" ==> c != 'x' && c != 'X')
    ensures !Invalid(s, i)
  {
    hide StartsWith, At, AllDigits, Blanks, FieldOk, Named;
    SignKinds(n.sign);
    SignAt(s, i, n.sign);
    var b := i + |n.sign|;
    MantissaBegins(s, b, n);
    if n.whole != "" {
      Holds(s, b, n.whole, 0);
    } else {
      Holds(s, b, ".", 0);
    }
  }

  /** A number is told by its first character. */
  lemma NumberBegins(s: string, i: nat, n: Numeral, strict: bool)
    requires NumberOk(n, strict) && StartsWith(s, i, n.sign) && StartsWith(s, i + |n.sign|, n.whole)
    ensures At(s, i) == '-' || Digit(At(s, i)) || (At(s, i) == '+' && !strict)
  {
    hide StartsWith, At, Blanks, FieldOk;
    SignKinds(n.sign);
    SignAt(s, i, n.sign);
    if n.sign == "" {
      FirstDigit(s, i, n.whole);
    }
  }

  lemma NumberRead(s: string, i: nat, n: Numeral, strict: bool)
    requires NumberOk(n, strict) && StartsWith(s, i, Spelled(n)) && Stops(n, s, i + |Spelled(n)|)
    ensures i + |Spelled(n)| <= |s| && NextTok(s, i, strict) == Lexed(NumTok(Spelled(n)), i, i + |Spelled(n)|)
  {
    hide StartsWith, At, Spelled, WellSpelled, Stops, Invalid, Dissect, Numeric, Hex, SignEnd, NumberToken;
    NumeralRead(s, i, n);
    Parted(s, i, n);
    Sums(n);
    NumberBegins(s, i, n, strict);
    if strict {
      BehindWhole(s, i + |n.sign|, n);
      NothingWrong(s, i, n);
    }
    Inside(s, i, Spelled(n));
    NumberTaken(s, i, i + |Spelled(n)|, strict);
  }

  lemma NumberTaken(s: string, i: nat, end: nat, strict: bool)
    requires At(s, i) == '-' || Digit(At(s, i)) || (At(s, i) == '+' && !strict)
    requires (strict ==> !Invalid(s, i)) && i <= |s|
    requires Numeric(s, i) && !Hex(s, SignEnd(s, i)) && Dissect(s, i).end == end
    ensures i <= end <= |s| && NextTok(s, i, strict) == Lexed(NumTok(s[i..end]), i, end)
  {
    hide Numeric, Hex, SignEnd, Dissect, StringRest, StartsWith, Named;
    DissectEnd(s, i);
    NotWord(s, i, "true");
    NotWord(s, i, "false");
    NotWord(s, i, "null");
  }

  // ---------------------------------------------------------------- values are read as they are spelled

  /** Within the limit the value itself, beyond it the error that says so. */
  predicate Outcome(p: Parsed, v: Value, deepest: nat, cfg: Config, end: nat)
  {
    if deepest <= cfg.maxDepth then p == Parsed(v, end) else p.Failed? && p.why.Nested?
  }

  /** The value x at i is read in full, whatever its spelling. */
  lemma {:induction false} ValueRead(x: Syntax, s: string, i: nat, depth: nat, cfg: Config)
    requires WellFormed(x, cfg.strict) && depth <= cfg.maxDepth && i <= |s|
    requires StartsWith(s, i, Unparse(x)) && (x.Figures? ==> Stops(x.n, s, i + |Unparse(x)|))
    ensures Outcome(ParseValue(s, NextTok(s, i, cfg.strict), depth, cfg), Meaning(x), depth + Depth(Meaning(x)), cfg,
                    i + |Unparse(x)|)
    decreases x
  {
    hide NextTok, StartsWith, Stops, ParseValue, ElementsText, EntriesText, ElementsMeaning, EntriesMeaning, ElementOk, EntryOk;
    match x
    case EmptyArray(gap) => EmptyArrayRead(gap, s, i, depth, cfg);
    case Array(items) => ArrayRead(items, s, i, depth, cfg);
    case EmptyObject(gap) => EmptyObjectRead(gap, s, i, depth, cfg);
    case Object(entries) => ObjectRead(entries, s, i, depth, cfg);
    case _ => SimpleRead(x, s, i, depth, cfg);
  }

  lemma SimpleRead(x: Syntax, s: string, i: nat, depth: nat, cfg: Config)
    requires x.WordNull? || x.WordBool? || x.Figures? || x.Quote?
    requires WellFormed(x, cfg.strict) && depth <= cfg.maxDepth && i <= |s|
    requires StartsWith(s, i, Unparse(x)) && (x.Figures? ==> Stops(x.n, s, i + |Unparse(x)|))
    ensures Outcome(ParseValue(s, NextTok(s, i, cfg.strict), depth, cfg), Meaning(x), depth + Depth(Meaning(x)), cfg,
                    i + |Unparse(x)|)
  {
    hide NextTok, StartsWith, At, ParseArray, ParseObject, NumberOk, PiecesOk, Spelled, QuoteText, PiecesMeaning, Stops;
    match x
    case WordNull => WordRead(s, i, "null", cfg.strict);
    case WordBool(b) => WordRead(s, i, if b then "true" else "false", cfg.strict);
    case Figures(n) => NumberRead(s, i, n, cfg.strict);
    case Quote(ps) => QuoteRead(s, i, ps, cfg.strict);
  }

  lemma EmptyArrayRead(gap: string, s: string, i: nat, depth: nat, cfg: Config)
    requires Gap(gap) && depth <= cfg.maxDepth && i <= |s| && StartsWith(s, i, "[" + (gap + "]"))
    ensures Outcome(ParseValue(s, NextTok(s, i, cfg.strict), depth, cfg), Obj([]), depth + 1, cfg, i + |gap| + 2)
  {
    hide NextTok, StartsWith, ParseItems;
    Split(s, i, "[", gap + "]");
    MarkRead(s, i, '[', cfg.strict);
    GapMarkRead(s, i + 1, gap, ']', cfg.strict);
  }

  lemma EmptyObjectRead(gap: string, s: string, i: nat, depth: nat, cfg: Config)
    requires Gap(gap) && depth <= cfg.maxDepth && i <= |s| && StartsWith(s, i, "{" + (gap + "}"))
    ensures Outcome(ParseValue(s, NextTok(s, i, cfg.strict), depth, cfg), Obj([]), depth + 1, cfg, i + |gap| + 2)
  {
    hide NextTok, StartsWith, ParseMembers;
    Split(s, i, "{", gap + "}");
    MarkRead(s, i, '{', cfg.strict);
    GapMarkRead(s, i + 1, gap, '}', cfg.strict);
  }

  lemma {:induction false} ArrayRead(items: seq<Element>, s: string, i: nat, depth: nat, cfg: Config)
    requires items != [] && (forall k :: 0 <= k < |items| ==> ElementOk(items[k], cfg.strict))
    requires depth <= cfg.maxDepth && i <= |s| && StartsWith(s, i, "[" + ElementsText(items))
    ensures Outcome(ParseValue(s, NextTok(s, i, cfg.strict), depth, cfg), Arr(ElementsMeaning(items)),
                    depth + 1 + ItemsDepth(ElementsMeaning(items)), cfg, i + 1 + |ElementsText(items)|)
    decreases items, 1
  {
    hide NextTok, StartsWith, ParseItems, ElementsMeaning, ElementsText, ItemsDepth, ElementOk;
    Split(s, i, "[", ElementsText(items));
    MarkRead(s, i, '[', cfg.strict);
    if depth + 1 <= cfg.maxDepth {
      ElementsRead(items, s, i + 1, depth + 1, cfg, []);
      NotClosed(s, NextTok(s, i + 1, cfg.strict), depth + 1, cfg, []);
      assert [] + ElementsMeaning(items) == ElementsMeaning(items);
    }
  }

  /** A token that begins an element does not close the array. */
  lemma NotClosed(s: string, l: Lexed, depth: nat, cfg: Config, got: seq<Value>)
    requires l.index <= l.next <= |s| && (Taken(l.tok) ==> l.index < l.next)
    ensures l.tok.ArrEnd? ==> ParseItems(s, l, depth, cfg, got) == Failed(Syntax("value", l.tok, l.index))
  {
  }

  lemma NotEnded(s: string, l: Lexed, depth: nat, cfg: Config, got: seq<Member>)
    requires l.index <= l.next <= |s| && (Taken(l.tok) ==> l.index < l.next)
    ensures l.tok.ObjEnd? ==> ParseMembers(s, l, depth, cfg, got) == Failed(Syntax("object key string", l.tok, l.index))
  {
  }

  /** What follows one element. */
  function AfterItem(s: string, j: nat, depth: nat, cfg: Config, more: seq<Value>): Parsed
    requires j <= |s|
  {
    var e := NextTok(s, j, cfg.strict);
    if e.tok.ArrEnd? then Parsed(Arr(more), e.next)
    else if !e.tok.Comma? then Refuse("comma or array end", e)
    else ParseItems(s, NextTok(s, e.next, cfg.strict), depth, cfg, more)
  }

  lemma ItemsStep(s: string, l: Lexed, depth: nat, cfg: Config, got: seq<Value>)
    requires l.index <= l.next <= |s| && (Taken(l.tok) ==> l.index < l.next)
    ensures var p := ParseValue(s, l, depth, cfg);
      ParseItems(s, l, depth, cfg, got) == if p.Failed? then p else AfterItem(s, p.next, depth, cfg, got + [p.v])
  {
  }

  /** A value is followed by its blanks, which do not matter to the next token. */
  lemma {:induction false} ElementRead(e: Element, s: string, i: nat, depth: nat, cfg: Config)
    requires ElementOk(e, cfg.strict) && depth <= cfg.maxDepth && i <= |s|
    requires StartsWith(s, i, ElementText(e)) && Closes(At(s, i + |ElementText(e)|))
    ensures var j := i + |e.before| + |Unparse(e.value)|;
      && j <= i + |ElementText(e)| <= |s|
      && Outcome(ParseValue(s, NextTok(s, i, cfg.strict), depth, cfg), ElementMeaning(e),
                 depth + Depth(ElementMeaning(e)), cfg, j)
      && NextTok(s, j, cfg.strict) == NextTok(s, i + |ElementText(e)|, cfg.strict)
    decreases e
  {
    hide NextTok, StartsWith, At, Closes, Stops, ParseValue, Unparse, Meaning, WellFormed, Depth;
    Split(s, i, e.before, Unparse(e.value) + e.after);
    Split(s, i + |e.before|, Unparse(e.value), e.after);
    var j := i + |e.before| + |Unparse(e.value)|;
    TokenBehindGap(s, i, e.before, cfg.strict);
    TokenBehindGap(s, j, e.after, cfg.strict);
    GapCloses(s, j, e.after);
    if e.value.Figures? {
      ClosesStops(e.value.n, s, j);
    }
    ValueRead(e.value, s, i + |e.before|, depth, cfg);
  }

  lemma GapCloses(s: string, j: nat, gap: string)
    requires Gap(gap) && StartsWith(s, j, gap) && Closes(At(s, j + |gap|))
    ensures Closes(At(s, j))
  {
    if gap != "" {
      Holds(s, j, gap, 0);
    }
  }

  lemma MarkCloses(s: string, j: nat, t: string)
    requires StartsWith(s, j, t) && t != "" && (t[0] == ',' || t[0] == ']' || t[0] == '}')
    ensures Closes(At(s, j))
  {
    Holds(s, j, t, 0);
  }

  /** The elements after the first, and how deep all are. */
  lemma FirstElement(items: seq<Element>, got: seq<Value>)
    requires items != []
    ensures var more, rest := got + [ElementMeaning(items[0])], items[1..];
      && got + ElementsMeaning(items) == more + ElementsMeaning(rest)
      && ItemsDepth(ElementsMeaning(items)) == Max(Depth(ElementMeaning(items[0])), ItemsDepth(ElementsMeaning(rest)))
      && (rest == [] ==> ElementsMeaning(rest) == [] && more + [] == more && ItemsDepth([]) == 0)
  {
    hide Depth;
    var v, vs := ElementMeaning(items[0]), ElementsMeaning(items[1..]);
    assert ElementsMeaning(items) == [v] + vs && ([v] + vs)[1..] == vs;
    assert got + ([v] + vs) == got + [v] + vs;
  }

  lemma {:induction false} ElementsRead(items: seq<Element>, s: string, i: nat, depth: nat, cfg: Config, got: seq<Value>)
    requires items != [] && (forall k :: 0 <= k < |items| ==> ElementOk(items[k], cfg.strict))
    requires depth <= cfg.maxDepth && i <= |s| && StartsWith(s, i, ElementsText(items))
    ensures Outcome(ParseItems(s, NextTok(s, i, cfg.strict), depth, cfg, got), Arr(got + ElementsMeaning(items)),
                    depth + ItemsDepth(ElementsMeaning(items)), cfg, i + |ElementsText(items)|)
    decreases items, 0
  {
    hide NextTok, StartsWith, ParseValue, ElementText, ElementOk, ElementMeaning, Depth, ParseItems, Closes, At, ElementsMeaning, ItemsDepth;
    var e, rest := items[0], items[1..];
    var j := i + |ElementText(e)|;
    var tail := if rest == [] then "]" else "," + ElementsText(rest);
    assert ElementsText(items) == ElementText(e) + tail;
    Split(s, i, ElementText(e), tail);
    MarkCloses(s, j, tail);
    ElementRead(e, s, i, depth, cfg);
    ItemsStep(s, NextTok(s, i, cfg.strict), depth, cfg, got);
    FirstElement(items, got);
    if rest == [] {
      MarkRead(s, j, ']', cfg.strict);
    } else {
      Split(s, j, ",", ElementsText(rest));
      MarkRead(s, j, ',', cfg.strict);
      ElementsRead(rest, s, j + 1, depth, cfg, got + [ElementMeaning(e)]);
    }
  }

  lemma {:induction false} ObjectRead(entries: seq<Entry>, s: string, i: nat, depth: nat, cfg: Config)
    requires entries != [] && (forall k :: 0 <= k < |entries| ==> EntryOk(entries[k], cfg.strict))
    requires depth <= cfg.maxDepth && i <= |s| && StartsWith(s, i, "{" + EntriesText(entries))
    ensures Outcome(ParseValue(s, NextTok(s, i, cfg.strict), depth, cfg), Obj(EntriesMeaning(entries)),
                    depth + 1 + MembersDepth(EntriesMeaning(entries)), cfg, i + 1 + |EntriesText(entries)|)
    decreases entries, 1
  {
    hide NextTok, StartsWith, ParseMembers, EntriesMeaning, EntriesText, MembersDepth, EntryOk;
    Split(s, i, "{", EntriesText(entries));
    MarkRead(s, i, '{', cfg.strict);
    if depth + 1 <= cfg.maxDepth {
      EntriesRead(entries, s, i + 1, depth + 1, cfg, []);
      NotEnded(s, NextTok(s, i + 1, cfg.strict), depth + 1, cfg, []);
      assert [] + EntriesMeaning(entries) == EntriesMeaning(entries);
    }
  }

  /** What follows one member. */
  function AfterMember(s: string, j: nat, depth: nat, cfg: Config, more: seq<Member>): Parsed
    requires j <= |s|
  {
    var e := NextTok(s, j, cfg.strict);
    if e.tok.ObjEnd? then Parsed(Obj(more), e.next)
    else if !e.tok.Comma? then Refuse("comma or object end", e)
    else ParseMembers(s, NextTok(s, e.next, cfg.strict), depth, cfg, more)
  }

  lemma MembersStep(s: string, l: Lexed, depth: nat, cfg: Config, got: seq<Member>)
    requires l.index <= l.next <= |s| && l.tok.StrTok? && l.index < l.next
    requires NextTok(s, l.next, cfg.strict).tok.Colon?
    ensures var p := ParseValue(s, NextTok(s, NextTok(s, l.next, cfg.strict).next, cfg.strict), depth, cfg);
      ParseMembers(s, l, depth, cfg, got)
      == if p.Failed? then p else AfterMember(s, p.next, depth, cfg, got + [Member(Name(l.tok.s), p.v)])
  {
  }

  /** The key and the colon of a member. */
  lemma KeyRead(e: Entry, s: string, i: nat, strict: bool) returns (c: nat)
    requires EntryOk(e, strict) && StartsWith(s, i, EntryText(e)) && i <= |s|
    ensures c + |ElementText(e.item)| == i + |EntryText(e)| && c <= |s| && StartsWith(s, c, ElementText(e.item))
    ensures var l := NextTok(s, i, strict);
      && l.tok == StrTok(PiecesMeaning(e.key)) && l.index < l.next <= |s|
      && NextTok(s, l.next, strict).tok.Colon? && NextTok(s, l.next, strict).next == c
  {
    hide NextTok, StartsWith, ElementText, ElementOk, PiecesOk, Gap, PiecesMeaning, QuoteText;
    var t := e.middle + (":" + ElementText(e.item));
    var k := i + |e.before|;
    Split(s, i, e.before, QuoteText(e.key) + t);
    Split(s, k, QuoteText(e.key), t);
    TokenBehindGap(s, i, e.before, strict);
    QuoteRead(s, k, e.key, strict);
    QuoteLong(e.key);
    var m := k + |QuoteText(e.key)|;
    Split(s, m, e.middle + ":", ElementText(e.item));
    assert t == (e.middle + ":") + ElementText(e.item);
    GapMarkRead(s, m, e.middle, ':', strict);
    c := m + |e.middle| + 1;
  }

  lemma QuoteLong(ps: seq<Piece>)
    ensures |QuoteText(ps)| >= 2
  {
  }

  lemma {:induction false} EntryRead(e: Entry, s: string, i: nat, depth: nat, cfg: Config, got: seq<Member>)
    requires EntryOk(e, cfg.strict) && depth <= cfg.maxDepth && i <= |s|
    requires StartsWith(s, i, EntryText(e)) && Closes(At(s, i + |EntryText(e)|))
    ensures var p := ParseMembers(s, NextTok(s, i, cfg.strict), depth, cfg, got);
      && i + |EntryText(e)| <= |s|
      && if depth + Depth(EntryMeaning(e).value) <= cfg.maxDepth then
           p == AfterMember(s, i + |EntryText(e)|, depth, cfg, got + [EntryMeaning(e)])
         else p.Failed? && p.why.Nested?
    decreases e
  {
    hide NextTok, StartsWith, At, Closes, ParseValue, ElementText, ElementOk, ElementMeaning, Depth, ParseMembers, EntryText, PiecesMeaning, ParseMembers;
    EntryParts(e, cfg.strict);
    var c := KeyRead(e, s, i, cfg.strict);
    ElementRead(e.item, s, c, depth, cfg);
    MembersStep(s, NextTok(s, i, cfg.strict), depth, cfg, got);
  }

  lemma EntryParts(e: Entry, strict: bool)
    requires EntryOk(e, strict)
    ensures ElementOk(e.item, strict)
  {
  }

  lemma FirstEntry(entries: seq<Entry>, got: seq<Member>)
    requires entries != []
    ensures var more, rest := got + [EntryMeaning(entries[0])], entries[1..];
      && got + EntriesMeaning(entries) == more + EntriesMeaning(rest)
      && MembersDepth(EntriesMeaning(entries))
         == Max(Depth(EntryMeaning(entries[0]).value), MembersDepth(EntriesMeaning(rest)))
      && (rest == [] ==> EntriesMeaning(rest) == [] && more + [] == more && MembersDepth([]) == 0)
  {
    hide Depth;
    var v, vs := EntryMeaning(entries[0]), EntriesMeaning(entries[1..]);
    assert EntriesMeaning(entries) == [v] + vs && ([v] + vs)[1..] == vs;
    assert got + ([v] + vs) == got + [v] + vs;
  }

  lemma {:induction false} EntriesRead(entries: seq<Entry>, s: string, i: nat, depth: nat, cfg: Config, got: seq<Member>)
    requires entries != [] && (forall k :: 0 <= k < |entries| ==> EntryOk(entries[k], cfg.strict))
    requires depth <= cfg.maxDepth && i <= |s| && StartsWith(s, i, EntriesText(entries))
    ensures Outcome(ParseMembers(s, NextTok(s, i, cfg.strict), depth, cfg, got), Obj(got + EntriesMeaning(entries)),
                    depth + MembersDepth(EntriesMeaning(entries)), cfg, i + |EntriesText(entries)|)
    decreases entries, 0
  {
    hide NextTok, StartsWith, ParseValue, EntryText, EntryOk, EntryMeaning, Depth, ParseMembers, Closes, At, EntriesMeaning, MembersDepth;
    var e, rest := entries[0], entries[1..];
    var j := i + |EntryText(e)|;
    var tail := if rest == [] then "}" else "," + EntriesText(rest);
    assert EntriesText(entries) == EntryText(e) + tail;
    Split(s, i, EntryText(e), tail);
    MarkCloses(s, j, tail);
    EntryRead(e, s, i, depth, cfg, got);
    FirstEntry(entries, got);
    if rest == [] {
      MarkRead(s, j, '}', cfg.strict);
    } else {
      Split(s, j, ",", EntriesText(rest));
      MarkRead(s, j, ',', cfg.strict);
      EntriesRead(rest, s, j + 1, depth, cfg, got + [EntryMeaning(e)]);
    }
  }

  // ---------------------------------------------------------------- tokens are spelled as they are read

  lemma {:induction false} GapWritten(s: string, i: nat)
    requires i <= |s|
    ensures Gap(s[i..SpaceEnd(s, i)]) && StartsWith(s, i, s[i..SpaceEnd(s, i)])
    decreases |s| - i
  {
    if i < |s| && Space(s[i]) {
      GapWritten(s, i + 1);
      assert s[i..SpaceEnd(s, i)] == [s[i]] + s[i + 1..SpaceEnd(s, i)];
    }
  }

  lemma GapThen(s: string, i: nat, t: string) returns (gap: string)
    requires i <= |s| && StartsWith(s, SpaceEnd(s, i), t)
    ensures Gap(gap) && StartsWith(s, i, gap + t) && i + |gap| == SpaceEnd(s, i)
  {
    hide SpaceEnd, StartsWith, Gap, At;
    gap := s[i..SpaceEnd(s, i)];
    GapWritten(s, i);
    Split(s, i, gap, t);
  }

  lemma MarkKinds(c: char, d: char)
    requires Punctuation(c) == Punctuation(d) != End
    ensures c == d
  {
  }

  /** The tokens of one character. */
  lemma MarkWritten(s: string, i: nat, c: char, strict: bool) returns (gap: string)
    requires i <= |s| && NextTok(s, i, strict).tok == Punctuation(c) != End
    ensures Gap(gap) && StartsWith(s, i, gap + [c]) && NextTok(s, i, strict).next == i + |gap| + 1
  {
    hide StringRest, NumberToken, Invalid, StartsWith, NextTok;
    MarkToken(s, i, c, strict);
    var b := SpaceEnd(s, i);
    OneStands(s, b, c);
    gap := GapThen(s, i, [c]);
  }

  lemma MarkToken(s: string, i: nat, c: char, strict: bool)
    requires i <= |s| && NextTok(s, i, strict).tok == Punctuation(c) != End
    ensures At(s, SpaceEnd(s, i)) == c && NextTok(s, i, strict).next == SpaceEnd(s, i) + 1
  {
    hide StringRest, NumberToken, Invalid, StartsWith;
    var d := At(s, SpaceEnd(s, i));
    if Punctuation(d) != End {
      MarkKinds(c, d);
    }
  }

  lemma OneStands(s: string, b: nat, c: char)
    requires At(s, b) == c && c != '\0'
    ensures StartsWith(s, b, [c]) && b < |s|
  {
    assert s[b..b + 1] == [c];
  }

  lemma QuoteWritten(s: string, i: nat, strict: bool) returns (gap: string, ps: seq<Piece>)
    requires i <= |s| && NextTok(s, i, strict).tok.StrTok?
    ensures Gap(gap) && PiecesOk(ps) && StartsWith(s, i, gap + QuoteText(ps))
    ensures NextTok(s, i, strict).tok.s == PiecesMeaning(ps)
    ensures NextTok(s, i, strict).next == i + |gap| + |QuoteText(ps)|
  {
    hide StringRest, StartsWith, PiecesText, PiecesMeaning, PieceOk, PiecesOk, NextTok;
    var b := SpaceEnd(s, i);
    QuoteToken(s, i, strict);
    OneStands(s, b, '"');
    ps := PiecesWritten(s, b + 1, "");
    Split(s, b, "\"", PiecesText(ps) + "\"");
    gap := GapThen(s, i, QuoteText(ps));
    assert "" + PiecesMeaning(ps) == PiecesMeaning(ps);
  }

  lemma QuoteToken(s: string, i: nat, strict: bool)
    requires i <= |s| && NextTok(s, i, strict).tok.StrTok?
    ensures var b := SpaceEnd(s, i);
      && At(s, b) == '"' && b < |s| && StringRest(s, b + 1, "").tok == NextTok(s, i, strict).tok
      && StringRest(s, b + 1, "").next == NextTok(s, i, strict).next
  {
    hide StringRest, NumberToken, Invalid, StartsWith;
  }

  lemma WordWritten(s: string, i: nat, word: string, strict: bool) returns (gap: string)
    requires word == "true" || word == "false" || word == "null"
    requires i <= |s| && NextTok(s, i, strict).tok == if word == "null" then NullTok else BoolTok(word == "true")
    ensures Gap(gap) && StartsWith(s, i, gap + word) && NextTok(s, i, strict).next == i + |gap| + |word|
  {
    hide StringRest, NumberToken, Invalid, StartsWith;
    gap := GapThen(s, i, word);
  }

  lemma NumberWritten(s: string, i: nat, strict: bool) returns (gap: string, n: Numeral)
    requires i <= |s| && NextTok(s, i, strict).tok.NumTok?
    ensures Gap(gap) && NumberOk(n, strict) && StartsWith(s, i, gap + Spelled(n))
    ensures NextTok(s, i, strict).tok.text == Spelled(n)
    ensures NextTok(s, i, strict).next == i + |gap| + |Spelled(n)|
  {
    hide StartsWith, Spelled, Stops, Invalid, Dissect, Numeric, Hex, SignEnd, NextTok, WellSpelled;
    var b := SpaceEnd(s, i);
    NumberTold(s, i, strict);
    n := NumeralWritten(s, b);
    NumeralRead(s, b, n);
    Inside(s, b, Spelled(n));
    NumberFine(s, b, n, strict);
    gap := GapThen(s, i, Spelled(n));
  }

  lemma NumberTold(s: string, i: nat, strict: bool)
    requires i <= |s| && NextTok(s, i, strict).tok.NumTok?
    ensures var b := SpaceEnd(s, i);
      && b <= |s| && Numeric(s, b) && !Hex(s, SignEnd(s, b))
      && NextTok(s, i, strict).next == Dissect(s, b).end && b <= Dissect(s, b).end <= |s|
      && NextTok(s, i, strict).tok.text == s[b..Dissect(s, b).end]
      && (At(s, b) == '-' || Digit(At(s, b)) || (!strict && Invalid(s, b)))
      && (strict ==> !Invalid(s, b))
  {
    hide StringRest, StartsWith, Invalid, Numeric, Hex, SignEnd, Dissect, Named;
    DissectEnd(s, SpaceEnd(s, i));
  }

  /** How the first characters of a number are told. */
  lemma NumberFine(s: string, b: nat, n: Numeral, strict: bool)
    requires Stands(s, b, n)
    requires At(s, b) == '-' || Digit(At(s, b)) || (!strict && Invalid(s, b))
    requires strict ==> !Invalid(s, b)
    ensures NumberOk(n, strict)
  {
    hide StartsWith, At, Stops, Blanks, FieldOk, Named, Spelled;
    Parted(s, b, n);
    NoBlanks(s, b, n.blanks);
    SignKinds(n.sign);
    SignAt(s, b, n.sign);
    var m := b + |n.sign|;
    MantissaBegins(s, m, n);
    if n.whole == "" {
      Holds(s, m, ".", 0);
    } else {
      Holds(s, m, n.whole, 0);
      if |n.whole| > 1 {
        Holds(s, m, n.whole, 1);
      }
    }
  }

  lemma NoBlanks(s: string, b: nat, t: string)
    requires StartsWith(s, b, t) && Blanks(t)
    requires At(s, b) == '-' || Digit(At(s, b)) || Invalid(s, b)
    ensures t == ""
  {
    hide StartsWith, At, Named;
    if t != "" {
      Holds(s, b, t, 0);
    }
  }

  // ---------------------------------------------------------------- values are spelled as they are read

  /** x is spelled at i behind a gap, and stands for what was parsed there. */
  ghost predicate Behind(s: string, i: nat, gap: string, x: Syntax, p: Parsed, strict: bool)
  {
    && Gap(gap) && WellFormed(x, strict) && StartsWith(s, i, gap + Unparse(x))
    && p == Parsed(Meaning(x), i + |gap| + |Unparse(x)|)
  }

  /** Only the text of a value is read as one, and only within the limit. */
  lemma {:induction false} ValueWritten(s: string, i: nat, depth: nat, cfg: Config) returns (gap: string, x: Syntax)
    requires i <= |s| && depth <= cfg.maxDepth && ParseValue(s, NextTok(s, i, cfg.strict), depth, cfg).Parsed?
    ensures Behind(s, i, gap, x, ParseValue(s, NextTok(s, i, cfg.strict), depth, cfg), cfg.strict)
    ensures depth + Depth(Meaning(x)) <= cfg.maxDepth
    decreases |s| - i, 1
  {
    hide NextTok, ParseArray, ParseObject, Behind, Depth;
    var l := NextTok(s, i, cfg.strict);
    match l.tok
    case ArrBegin => gap, x := ArrayWritten(s, i, depth, cfg);
    case ObjBegin => gap, x := ObjectWritten(s, i, depth, cfg);
    case _ => gap, x := SimpleWritten(s, i, depth, cfg);
  }

  lemma SimpleWritten(s: string, i: nat, depth: nat, cfg: Config) returns (gap: string, x: Syntax)
    requires i <= |s| && depth <= cfg.maxDepth && ParseValue(s, NextTok(s, i, cfg.strict), depth, cfg).Parsed?
    requires !NextTok(s, i, cfg.strict).tok.ArrBegin? && !NextTok(s, i, cfg.strict).tok.ObjBegin?
    ensures Behind(s, i, gap, x, ParseValue(s, NextTok(s, i, cfg.strict), depth, cfg), cfg.strict)
    ensures depth + Depth(Meaning(x)) <= cfg.maxDepth
  {
    hide NextTok, ParseArray, ParseObject, StartsWith, Gap, NumberOk, PiecesOk, Spelled, QuoteText, PiecesMeaning;
    var l := NextTok(s, i, cfg.strict);
    match l.tok
    case StrTok(_) =>
      var ps;
      gap, ps := QuoteWritten(s, i, cfg.strict);
      x := Quote(ps);
    case NumTok(_) =>
      var n;
      gap, n := NumberWritten(s, i, cfg.strict);
      x := Figures(n);
    case BoolTok(b) =>
      gap := WordWritten(s, i, if b then "true" else "false", cfg.strict);
      x := WordBool(b);
    case NullTok =>
      gap := WordWritten(s, i, "null", cfg.strict);
      x := WordNull;
  }

  lemma {:induction false} ArrayWritten(s: string, i: nat, depth: nat, cfg: Config) returns (gap: string, x: Syntax)
    requires i <= |s| && depth <= cfg.maxDepth && ParseValue(s, NextTok(s, i, cfg.strict), depth, cfg).Parsed?
    requires NextTok(s, i, cfg.strict).tok.ArrBegin?
    ensures Behind(s, i, gap, x, ParseValue(s, NextTok(s, i, cfg.strict), depth, cfg), cfg.strict)
    ensures depth + Depth(Meaning(x)) <= cfg.maxDepth
    decreases |s| - i, 0
  {
    hide NextTok, ParseItems, StartsWith, Gap, ElementsText, ElementsMeaning, ElementOk, ItemsDepth;
    gap := MarkWritten(s, i, '[', cfg.strict);
    var j := i + |gap| + 1;
    StandsWithin(s, i, gap + "[");
    if NextTok(s, j, cfg.strict).tok.ArrEnd? {
      var inner := MarkWritten(s, j, ']', cfg.strict);
      x := EmptyArray(inner);
      Split(s, i, gap + "[", inner + "]");
      assert gap + Unparse(x) == (gap + "[") + (inner + "]");
    } else {
      var items := ElementsWritten(s, j, depth + 1, cfg, []);
      x := Array(items);
      Split(s, i, gap + "[", ElementsText(items));
      assert gap + Unparse(x) == (gap + "[") + ElementsText(items);
      assert [] + ElementsMeaning(items) == ElementsMeaning(items);
    }
  }

  lemma StandsWithin(s: string, i: nat, t: string)
    requires StartsWith(s, i, t)
    ensures i + |t| <= |s|
  {
  }

  /** One element with what follows it. */
  lemma {:induction false} ElementsWritten(s: string, i: nat, depth: nat, cfg: Config, got: seq<Value>)
    returns (items: seq<Element>)
    requires i <= |s| && depth <= cfg.maxDepth && ParseItems(s, NextTok(s, i, cfg.strict), depth, cfg, got).Parsed?
    ensures items != [] && forall k :: 0 <= k < |items| ==> ElementOk(items[k], cfg.strict)
    ensures StartsWith(s, i, ElementsText(items)) && depth + ItemsDepth(ElementsMeaning(items)) <= cfg.maxDepth
    ensures ParseItems(s, NextTok(s, i, cfg.strict), depth, cfg, got)
      == Parsed(Arr(got + ElementsMeaning(items)), i + |ElementsText(items)|)
    decreases |s| - i, 2
  {
    hide NextTok, ParseItems, ParseValue, StartsWith, ElementOk, ElementMeaning, ItemsDepth, ElementsMeaning, Depth, Behind, ElementText;
    ItemsStep(s, NextTok(s, i, cfg.strict), depth, cfg, got);
    var p := ParseValue(s, NextTok(s, i, cfg.strict), depth, cfg);
    var before, x := ValueWritten(s, i, depth, cfg);
    var c := if NextTok(s, p.next, cfg.strict).tok.ArrEnd? then ']' else ',';
    var after := MarkWritten(s, p.next, c, cfg.strict);
    var e := Element(before, x, after);
    ElementJoins(s, i, e, [c], p, cfg.strict);
    var j := i + |ElementText(e)| + 1;
    if c == ']' {
      items := [e];
      FirstElement(items, got);
    } else {
      var rest := ElementsWritten(s, j, depth, cfg, got + [p.v]);
      items := [e] + rest;
      assert items[1..] == rest;
      FirstElement(items, got);
      Split(s, i, ElementText(e) + ",", ElementsText(rest));
      assert ElementsText(items) == ElementText(e) + "," + ElementsText(rest);
    }
  }

  lemma ElementJoins(s: string, i: nat, e: Element, mark: string, p: Parsed, strict: bool)
    requires Behind(s, i, e.before, e.value, p, strict) && Gap(e.after) && StartsWith(s, p.next, e.after + mark)
    ensures ElementOk(e, strict) && ElementMeaning(e) == p.v == Meaning(e.value)
    ensures StartsWith(s, i, ElementText(e) + mark)
    ensures p.next + |e.after| + |mark| == i + |ElementText(e) + mark| <= |s|
  {
    hide StartsWith, Gap, WellFormed, Meaning, Unparse;
    var t := e.before + Unparse(e.value);
    Split(s, i, t, e.after + mark);
    assert ElementText(e) + mark == t + (e.after + mark);
    StandsWithin(s, i, ElementText(e) + mark);
  }

  lemma {:induction false} ObjectWritten(s: string, i: nat, depth: nat, cfg: Config) returns (gap: string, x: Syntax)
    requires i <= |s| && depth <= cfg.maxDepth && ParseValue(s, NextTok(s, i, cfg.strict), depth, cfg).Parsed?
    requires NextTok(s, i, cfg.strict).tok.ObjBegin?
    ensures Behind(s, i, gap, x, ParseValue(s, NextTok(s, i, cfg.strict), depth, cfg), cfg.strict)
    ensures depth + Depth(Meaning(x)) <= cfg.maxDepth
    decreases |s| - i, 0
  {
    hide NextTok, ParseMembers, StartsWith, Gap, EntriesText, EntriesMeaning, EntryOk;
    gap := MarkWritten(s, i, '{', cfg.strict);
    var j := i + |gap| + 1;
    StandsWithin(s, i, gap + "{");
    if NextTok(s, j, cfg.strict).tok.ObjEnd? {
      var inner := MarkWritten(s, j, '}', cfg.strict);
      x := EmptyObject(inner);
      Split(s, i, gap + "{", inner + "}");
      assert gap + Unparse(x) == (gap + "{") + (inner + "}");
    } else {
      var entries := EntriesWritten(s, j, depth + 1, cfg, []);
      x := Object(entries);
      Split(s, i, gap + "{", EntriesText(entries));
      assert gap + Unparse(x) == (gap + "{") + EntriesText(entries);
      assert [] + EntriesMeaning(entries) == EntriesMeaning(entries);
    }
  }

  /** The key of a member with its colon. */
  lemma KeyWritten(s: string, i: nat, depth: nat, cfg: Config, got: seq<Member>)
    returns (before: string, key: seq<Piece>, middle: string, j: nat)
    requires i <= |s| && ParseMembers(s, NextTok(s, i, cfg.strict), depth, cfg, got).Parsed?
    ensures Gap(before) && PiecesOk(key) && Gap(middle) && i < j <= |s|
    ensures StartsWith(s, i, before + (QuoteText(key) + (middle + ":")))
    ensures j == i + |before + (QuoteText(key) + (middle + ":"))|
    ensures var p := ParseValue(s, NextTok(s, j, cfg.strict), depth, cfg);
      && p.Parsed?
      && ParseMembers(s, NextTok(s, i, cfg.strict), depth, cfg, got)
         == AfterMember(s, p.next, depth, cfg, got + [Member(Name(PiecesMeaning(key)), p.v)])
  {
    hide NextTok, ParseValue, StartsWith, PiecesMeaning, QuoteText, Gap, PiecesOk, AfterMember;
    var l := NextTok(s, i, cfg.strict);
    KeyToken(s, l, depth, cfg, got);
    before, key := QuoteWritten(s, i, cfg.strict);
    middle := MarkWritten(s, l.next, ':', cfg.strict);
    j := l.next + |middle| + 1;
    Split(s, i, before + QuoteText(key), middle + ":");
    assert before + (QuoteText(key) + (middle + ":")) == (before + QuoteText(key)) + (middle + ":");
    MembersStep(s, l, depth, cfg, got);
  }

  lemma KeyToken(s: string, l: Lexed, depth: nat, cfg: Config, got: seq<Member>)
    requires l.index <= l.next <= |s| && (Taken(l.tok) ==> l.index < l.next)
    requires ParseMembers(s, l, depth, cfg, got).Parsed?
    ensures l.tok.StrTok? && NextTok(s, l.next, cfg.strict).tok.Colon?
  {
    hide NextTok, ParseValue;
  }

  lemma {:induction false} EntriesWritten(s: string, i: nat, depth: nat, cfg: Config, got: seq<Member>)
    returns (entries: seq<Entry>)
    requires i <= |s| && depth <= cfg.maxDepth && ParseMembers(s, NextTok(s, i, cfg.strict), depth, cfg, got).Parsed?
    ensures entries != [] && forall k :: 0 <= k < |entries| ==> EntryOk(entries[k], cfg.strict)
    ensures StartsWith(s, i, EntriesText(entries)) && depth + MembersDepth(EntriesMeaning(entries)) <= cfg.maxDepth
    ensures ParseMembers(s, NextTok(s, i, cfg.strict), depth, cfg, got)
      == Parsed(Obj(got + EntriesMeaning(entries)), i + |EntriesText(entries)|)
    decreases |s| - i, 2
  {
    hide NextTok, ParseMembers, ParseValue, StartsWith, EntryOk, EntryMeaning, MembersDepth, EntriesMeaning, Depth, Behind, ElementText, EntryText, QuoteText, PiecesMeaning, PiecesOk, Gap;
    var before, key, middle, k := KeyWritten(s, i, depth, cfg, got);
    var p := ParseValue(s, NextTok(s, k, cfg.strict), depth, cfg);
    var gap, x := ValueWritten(s, k, depth, cfg);
    var c := if NextTok(s, p.next, cfg.strict).tok.ObjEnd? then '}' else ',';
    var after := MarkWritten(s, p.next, c, cfg.strict);
    var e := Entry(before, key, middle, Element(gap, x, after));
    EntryJoins(s, i, e, [c], p, cfg.strict);
    var j := i + |EntryText(e)| + 1;
    if c == '}' {
      entries := [e];
      FirstEntry(entries, got);
    } else {
      var rest := EntriesWritten(s, j, depth, cfg, got + [EntryMeaning(e)]);
      entries := [e] + rest;
      assert entries[1..] == rest;
      FirstEntry(entries, got);
      Split(s, i, EntryText(e) + ",", EntriesText(rest));
      assert EntriesText(entries) == EntryText(e) + "," + EntriesText(rest);
    }
  }

  lemma EntryJoins(s: string, i: nat, e: Entry, mark: string, p: Parsed, strict: bool)
    requires Gap(e.before) && PiecesOk(e.key) && Gap(e.middle)
    requires StartsWith(s, i, e.before + (QuoteText(e.key) + (e.middle + ":")))
    requires var j := i + |e.before + (QuoteText(e.key) + (e.middle + ":"))|;
      Behind(s, j, e.item.before, e.item.value, p, strict)
    requires Gap(e.item.after) && StartsWith(s, p.next, e.item.after + mark)
    ensures EntryOk(e, strict) && EntryMeaning(e) == Member(Name(PiecesMeaning(e.key)), p.v)
    ensures p.v == Meaning(e.item.value)
    ensures StartsWith(s, i, EntryText(e) + mark)
    ensures p.next + |e.item.after| + |mark| == i + |EntryText(e) + mark| <= |s|
  {
    hide StartsWith, Gap, PiecesOk, PiecesMeaning, QuoteText, ElementText, ElementOk, ElementMeaning, Behind;
    var t := e.before + (QuoteText(e.key) + (e.middle + ":"));
    ElementJoins(s, i + |t|, e.item, mark, p, strict);
    Split(s, i, t, ElementText(e.item) + mark);
    assert EntryText(e) + mark == t + (ElementText(e.item) + mark);
    StandsWithin(s, i, EntryText(e) + mark);
  }

  // ---------------------------------------------------------------- whole texts

  /** A text that stands for x: blanks, x and blanks, up to the end or to the first NUL behind them. */
  predicate Spells(s: string, before: string, x: Syntax, after: string, strict: bool)
  {
    && Gap(before) && WellFormed(x, strict) && Gap(after)
    && StartsWith(s, 0, before + (Unparse(x) + after)) && At(s, |before + (Unparse(x) + after)|) == '\0'
  }

  /** Taken for UTF-16 or UTF-32, and refused. */
  predicate Wide(s: string)
  {
    |s| >= 2 && (s[0] == '\0' || s[1] == '\0')
  }

  /**
   Every text of the grammar decodes to what it stands for, exactly when its tables are not nested deeper than the
   decoder allows; beyond that the error says so.
   */
  lemma DecodesSpelled(s: string, before: string, x: Syntax, after: string, cfg: Config)
    requires Spells(s, before, x, after, cfg.strict) && !Wide(s)
    ensures Outcome(Decode(s, cfg), Meaning(x), Depth(Meaning(x)), cfg, |before| + |Unparse(x)|)
  {
    hide NextTok, StartsWith, At, ParseValue, Unparse, Meaning, Depth, WellFormed, Closes, Gap, Stops;
    var b, j := |before|, |before| + |Unparse(x)|;
    Split(s, 0, before, Unparse(x) + after);
    Split(s, b, Unparse(x), after);
    TokenBehindGap(s, 0, before, cfg.strict);
    NulCloses(s, j + |after|);
    GapCloses(s, j, after);
    if x.Figures? {
      ClosesStops(x.n, s, j);
    }
    ValueRead(x, s, b, 0, cfg);
    TokenBehindGap(s, j, after, cfg.strict);
    EndRead(s, j + |after|, cfg.strict);
  }

  lemma NulCloses(s: string, j: nat)
    requires At(s, j) == '\0'
    ensures Closes(At(s, j))
  {
  }

  lemma EndRead(s: string, j: nat, strict: bool)
    requires j <= |s| && At(s, j) == '\0'
    ensures NextTok(s, j, strict) == Lexed(End, j, j)
  {
    hide StringRest, NumberToken, Invalid, StartsWith;
  }

  lemma EndWritten(s: string, j: nat, strict: bool) returns (gap: string)
    requires j <= |s| && NextTok(s, j, strict).tok.End?
    ensures Gap(gap) && StartsWith(s, j, gap) && At(s, j + |gap|) == '\0'
  {
    hide StringRest, NumberToken, Invalid, StartsWith, Gap;
    gap := s[j..SpaceEnd(s, j)];
    GapWritten(s, j);
  }

  /** Every text that decodes is one of the grammar, stands for the value it gives, and is not nested too deep. */
  lemma DecodedSpelled(s: string, cfg: Config) returns (before: string, x: Syntax, after: string)
    requires Decode(s, cfg).Parsed?
    ensures Spells(s, before, x, after, cfg.strict) && !Wide(s)
    ensures Decode(s, cfg) == Parsed(Meaning(x), |before| + |Unparse(x)|) && Depth(Meaning(x)) <= cfg.maxDepth
  {
    hide NextTok, StartsWith, At, ParseValue, Unparse, Meaning, Depth, WellFormed, Gap;
    before, x := ValueWritten(s, 0, 0, cfg);
    var j := |before| + |Unparse(x)|;
    after := EndWritten(s, j, cfg.strict);
    Split(s, 0, before + Unparse(x), after);
    assert before + (Unparse(x) + after) == (before + Unparse(x)) + after;
  }

  /** A text decodes to a value exactly when it spells that value within the limit of nesting. */
  lemma DecodesExactly(s: string, v: Value, cfg: Config)
    ensures (exists end :: Decode(s, cfg) == Parsed(v, end))
      <==> (!Wide(s) && Depth(v) <= cfg.maxDepth
            && exists before, x, after :: Spells(s, before, x, after, cfg.strict) && Meaning(x) == v)
  {
    hide Decode, Spells, Meaning, Depth, Wide;
    if end :| Decode(s, cfg) == Parsed(v, end) {
      var before, x, after := DecodedSpelled(s, cfg);
      assert Spells(s, before, x, after, cfg.strict) && Meaning(x) == v;
    }
    if !Wide(s) && Depth(v) <= cfg.maxDepth {
      if before, x, after :| Spells(s, before, x, after, cfg.strict) && Meaning(x) == v {
        DecodesSpelled(s, before, x, after, cfg);
        assert Decode(s, cfg) == Parsed(v, |before| + |Unparse(x)|);
      }
    }
  }
}
