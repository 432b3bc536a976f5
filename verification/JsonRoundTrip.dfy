/** Decoding what was encoded gives the value back. */
module JsonRoundTrip {
  import opened DecimalDigits
  import opened NumberText
  import opened NumberSpellings
  import opened JsonText
  import opened JsonGrammar

  // ---------------------------------------------------------------- which values, and what comes back

  /** The digits dtoa delivers: a lone 0, or digits that do not begin with 0. */
  predicate Shaped(digits: string, decpt: int)
  {
    AllDigits(digits) && |digits| > 0 && decpt != SPECIAL && (digits[0] != '0' || (digits == "0" && decpt == 1))
  }

  /** The precisions that can be configured; dtoa gives no more digits, and a double has at most 309 places. */
  predicate InRange(digits: string, decpt: int, precision: int)
  {
    Shaped(digits, decpt) && 1 <= precision <= 14 && |digits| <= precision && -999 < decpt <= 999
  }

  /** A text fpconv_g_fmt writes for a finite number. */
  ghost predicate Printed(t: string)
  {
    exists neg, digits, decpt, precision ::
      InRange(digits, decpt, precision) && t == Layout(neg, digits, decpt, precision)
  }

  lemma PrintedShort(t: string)
    requires Printed(t)
    ensures 0 < |t| < 32
  {
    hide Layout;
    var neg, digits, decpt, precision :|
      InRange(digits, decpt, precision) && t == Layout(neg, digits, decpt, precision);
    FitsIn32(neg, digits, decpt, precision);
    LayoutStart(neg, digits, decpt, precision);
  }

  ghost predicate Encodable(v: Value)
    decreases v
  {
    match v
    case Num(text) => Printed(text)
    case Arr(items) => forall i :: 0 <= i < |items| ==> Encodable(items[i])
    case Obj(members) => forall i :: 0 <= i < |members| ==> EncodableMember(members[i])
    case _ => true
  }

  ghost predicate EncodableMember(m: Member)
    decreases m
  {
    (m.key.Number? ==> Printed(m.key.text)) && Encodable(m.value)
  }

  /** What comes back: keys that were numbers are strings, and an empty table is an empty table. */
  function Normal(v: Value): Value
    decreases v
  {
    match v
    case Arr(items) => if items == [] then Obj([]) else Arr(NormalItems(items))
    case Obj(members) => Obj(NormalMembers(members))
    case _ => v
  }

  function NormalItems(items: seq<Value>): (r: seq<Value>)
    ensures |r| == |items|
    decreases items
  {
    if items == [] then [] else [Normal(items[0])] + NormalItems(items[1..])
  }

  function NormalMembers(members: seq<Member>): (r: seq<Member>)
    ensures |r| == |members|
    decreases members
  {
    if members == [] then [] else [NormalMember(members[0])] + NormalMembers(members[1..])
  }

  function NormalMember(m: Member): Member
    decreases m
  {
    Member(Name(if m.key.Name? then m.key.s else m.key.text), Normal(m.value))
  }

  /** Nothing changes in a value without number keys and without empty arrays. */
  predicate Plain(v: Value)
    decreases v
  {
    match v
    case Arr(items) => items != [] && forall i :: 0 <= i < |items| ==> Plain(items[i])
    case Obj(members) => forall i :: 0 <= i < |members| ==> PlainMember(members[i])
    case _ => true
  }

  predicate PlainMember(m: Member)
    decreases m
  {
    m.key.Name? && Plain(m.value)
  }

  lemma {:induction false} NormalPlain(v: Value)
    requires Plain(v)
    ensures Normal(v) == v
    decreases v
  {
    match v
    case Arr(items) => NormalPlainItems(items);
    case Obj(members) => NormalPlainMembers(members);
    case _ =>
  }

  lemma {:induction false} NormalPlainItems(items: seq<Value>)
    requires forall i :: 0 <= i < |items| ==> Plain(items[i])
    ensures NormalItems(items) == items
    decreases items
  {
    if items != [] {
      NormalPlain(items[0]);
      NormalPlainItems(items[1..]);
    }
  }

  lemma {:induction false} NormalPlainMembers(members: seq<Member>)
    requires forall i :: 0 <= i < |members| ==> PlainMember(members[i])
    ensures NormalMembers(members) == members
    decreases members
  {
    if members != [] {
      assert PlainMember(members[0]);
      NormalPlainMember(members[0]);
      NormalPlainMembers(members[1..]);
    }
  }

  lemma {:induction false} NormalPlainMember(m: Member)
    requires PlainMember(m)
    ensures NormalMember(m) == m
    decreases m
  {
    NormalPlain(m.value);
  }

  // ---------------------------------------------------------------- depth

  lemma {:induction false} NormalDepth(v: Value)
    ensures Depth(Normal(v)) == Depth(v)
    decreases v
  {
    match v
    case Arr(items) => NormalDepthItems(items);
    case Obj(members) => NormalDepthMembers(members);
    case _ =>
  }

  lemma {:induction false} NormalDepthItems(items: seq<Value>)
    ensures ItemsDepth(NormalItems(items)) == ItemsDepth(items)
    decreases items
  {
    if items != [] {
      NormalDepth(items[0]);
      NormalDepthItems(items[1..]);
      assert NormalItems(items)[1..] == NormalItems(items[1..]);
    }
  }

  lemma {:induction false} NormalDepthMembers(members: seq<Member>)
    ensures MembersDepth(NormalMembers(members)) == MembersDepth(members)
    decreases members
  {
    if members != [] {
      NormalDepthMember(members[0]);
      NormalDepthMembers(members[1..]);
      assert NormalMembers(members)[1..] == NormalMembers(members[1..]);
    }
  }

  lemma {:induction false} NormalDepthMember(m: Member)
    ensures MemberDepth(NormalMember(m)) == MemberDepth(m)
    decreases m
  {
    NormalDepth(m.value);
  }

  // ---------------------------------------------------------------- strings as they are written

  /** How a character is written. */
  function PieceOf(c: char): Piece
  {
    if Escape(c) == "" then Itself(c)
    else if |Escape(c)| == 2 then Short(Escape(c)[1])
    else Unit(c as nat, "00" + [HexChar(c as nat / 16), HexChar(c as nat % 16)])
  }

  lemma HexBack(d: nat)
    requires d < 16
    ensures HexOf(HexChar(d)) == d
  {
  }

  lemma UnitWrites(c: char)
    requires Escape(c) != "" && |Escape(c)| != 2
    ensures var p := PieceOf(c); PieceOk(p) && PieceText(p) == Escape(c) && PieceMeaning(p) == [c]
  {
    HexBack(c as nat / 16);
    HexBack(c as nat % 16);
    hide HexChar, HexOf;
    HexZero();
    var h := [HexChar(c as nat / 16), HexChar(c as nat % 16)];
    assert "\\u" + ("00" + h) == "\\u00" + h;
  }

  lemma HexZero()
    ensures HexOf('0') == 0
  {
  }

  lemma PieceWrites(c: char)
    ensures var p := PieceOf(c); PieceOk(p) && PieceText(p) == Written(c) && PieceMeaning(p) == [c]
  {
    hide Utf8, HexChar, Hexes;
    if Escape(c) != "" && |Escape(c)| != 2 {
      UnitWrites(c);
    }
  }

  function Pieces(s: string): seq<Piece>
  {
    if s == "" then [] else [PieceOf(s[0])] + Pieces(s[1..])
  }

  lemma {:induction false} PiecesWrite(s: string)
    ensures PiecesOk(Pieces(s)) && PiecesText(Pieces(s)) == Escaped(s) && PiecesMeaning(Pieces(s)) == s
  {
    hide PieceOf, PieceOk, PieceText, PieceMeaning, Written;
    if s != "" {
      PieceWrites(s[0]);
      PiecesWrite(s[1..]);
      assert Pieces(s)[1..] == Pieces(s[1..]);
      assert [s[0]] + s[1..] == s;
    }
  }

  /** Every character comes back from its written form, NUL and bytes above 127 included. */
  lemma CharBack(s: string, i: nat, c: char, got: string)
    requires StartsWith(s, i, Written(c))
    ensures i + |Written(c)| <= |s| && StringRest(s, i, got) == StringRest(s, i + |Written(c)|, got + [c])
  {
    hide Written, PieceOf, PieceOk, PieceText, PieceMeaning, StringRest, StartsWith;
    PieceWrites(c);
    PieceRead(s, i, PieceOf(c), got);
  }

  lemma StringBack(s: string, i: nat, str: string, got: string)
    requires StartsWith(s, i, Escaped(str) + "\"")
    ensures var e := i + |Escaped(str)|; e < |s| && StringRest(s, i, got) == Lexed(StrTok(got + str), e, e + 1)
  {
    hide PiecesOk, PiecesText, PiecesMeaning, Pieces, Escaped, StringRest, StartsWith;
    PiecesWrite(str);
    PiecesRead(s, i, Pieces(str), got);
  }

  /** The escapes of a code point in its UTF-16 form, with hexadecimal digits of either case, are read as its UTF-8 form. */
  lemma PointBack(s: string, i: nat, p: Piece, cp: nat, got: string)
    requires cp < 0x11_0000 && PieceOk(p) && StartsWith(s, i, PieceText(p))
    requires p.Unit? || p.Pair?
    requires if p.Unit? then cp == p.unit
             else cp >= 0x1_0000 && p.high == 0xD800 + (cp - 0x1_0000) / 0x400 && p.low == 0xDC00 + (cp - 0x1_0000) % 0x400
    ensures i + |PieceText(p)| <= |s| && StringRest(s, i, got) == StringRest(s, i + |PieceText(p)|, got + Utf8(cp))
  {
    hide StartsWith, Utf8, StringRest, Hexes;
    PieceRead(s, i, p, got);
    if p.Pair? {
      PairBits(p.high, p.low);
    }
  }

  // ---------------------------------------------------------------- numbers

  lemma LayoutStart(neg: bool, digits: string, decpt: int, precision: int)
    requires Shaped(digits, decpt) && 1 <= precision
    ensures var t := Layout(neg, digits, decpt, precision);
      var b := |Sign(neg)|;
      && b < |t| && (neg ==> t[0] == '-') && Digit(t[b])
      && (t[b] == '0' ==> b + 1 == |t| || (t[b + 1] == '.'))
  {
    assert Digit(digits[0]);
    if decpt <= -4 || decpt > precision {
    } else if decpt <= 0 {
    } else if digits == "0" {
      assert PlainText(digits, decpt) == "0" by { assert "0" + Zeros(0) == "0"; }
    } else {
    }
  }

  /** A printed number is a numeral without blanks, plus or idle zeros. */
  lemma PrintedSpelled(t: string) returns (n: Numeral)
    requires Printed(t)
    ensures NumberOk(n, true) && Spelled(n) == t && NumberChars(t)
  {
    hide Layout, Spelled, Denotes, WellSpelled, NumberChars;
    var neg, digits, decpt, precision :|
      InRange(digits, decpt, precision) && t == Layout(neg, digits, decpt, precision);
    RangeShaped(digits, decpt, precision);
    n := LayoutSpells(neg, digits, decpt, precision);
    DenotesParts(n, digits, decpt);
    LayoutStart(neg, digits, decpt, precision);
    if |n.whole| > 1 {
      FirstZero(n);
    }
    NumeralChars(n);
  }

  lemma RangeShaped(digits: string, decpt: int, precision: int)
    requires InRange(digits, decpt, precision)
    ensures Shaped(digits, decpt) && 1 <= precision
  {
  }

  lemma DenotesParts(n: Numeral, digits: string, decpt: int)
    requires Denotes(n, digits, decpt)
    ensures WellSpelled(n) && n.blanks == "" && n.whole != ""
  {
  }

  /** The second digit of a numeral whose first is 0 follows it. */
  lemma FirstZero(n: Numeral)
    requires WellSpelled(n) && n.blanks == "" && |n.whole| > 1
    ensures var b := |n.sign|; b + 1 < |Spelled(n)| && Spelled(n)[b] == n.whole[0] && Digit(Spelled(n)[b + 1])
  {
  }

  predicate NumberChar(c: char)
  {
    Digit(c) || c in "+-.e"
  }

  lemma {:induction false} EscapedSame(t: string)
    requires NumberChars(t)
    ensures Escaped(t) == t
  {
    if t != "" {
      assert NumberChar(t[0]);
      EscapedSame(t[1..]);
    }
  }

  predicate NumberChars(t: string)
  {
    forall k :: 0 <= k < |t| ==> NumberChar(t[k])
  }

  lemma DigitChars(t: string)
    requires AllDigits(t)
    ensures NumberChars(t)
  {
    forall k | 0 <= k < |t| ensures NumberChar(t[k]) {
      assert Digit(t[k]);
    }
  }

  lemma CharsJoin(a: string, b: string)
    requires NumberChars(a) && NumberChars(b)
    ensures NumberChars(a + b)
  {
  }

  lemma NumeralChars(n: Numeral)
    requires WellSpelled(n) && n.blanks == "" && (n.field.NoField? || n.field.mark == 'e')
    ensures NumberChars(Spelled(n))
  {
    hide NumberChars, AllDigits, Blanks;
    DigitChars(n.whole);
    DigitChars(n.frac);
    FieldChars(n.field);
    ShortChars(n.sign, Dot(n.point));
    CharsJoin(n.frac, FieldText(n.field));
    CharsJoin(Dot(n.point), n.frac + FieldText(n.field));
    CharsJoin(n.whole, Dot(n.point) + (n.frac + FieldText(n.field)));
    CharsJoin(n.sign, n.whole + (Dot(n.point) + (n.frac + FieldText(n.field))));
    assert Spelled(n) == n.sign + (n.whole + (Dot(n.point) + (n.frac + FieldText(n.field))));
  }

  lemma ShortChars(sign: string, dot: string)
    requires SignText(sign) && (dot == "" || dot == ".")
    ensures NumberChars(sign) && NumberChars(dot)
  {
  }

  lemma FieldChars(f: ExpField)
    requires FieldOk(f) && (f.NoField? || f.mark == 'e')
    ensures NumberChars(FieldText(f))
  {
    if f.Field? {
      DigitChars(f.digits);
      ShortChars(f.sign, "");
      CharsJoin(f.sign, f.digits);
      assert NumberChars([f.mark]);
      CharsJoin([f.mark], f.sign + f.digits);
    }
  }

  /** A printed number is read in full, in strict mode too. */
  lemma NumberBack(s: string, i: nat, t: string, strict: bool)
    requires Printed(t) && StartsWith(s, i, t) && EndsAt(s, i + |t|)
    ensures i + |t| <= |s| && NextTok(s, i, strict) == Lexed(NumTok(t), i, i + |t|)
  {
    hide Printed, StartsWith, NextTok, Stops, EndsAt, Spelled, WellSpelled;
    var n := PrintedSpelled(t);
    EndsStops(n, s, i + |t|);
    NumberRead(s, i, n, strict);
  }

  // ---------------------------------------------------------------- values

  predicate Brackets(b: string)
  {
    b == "{}" || b == "[]"
  }

  /** What is written is a text of the grammar and stands for the value. */
  lemma {:induction false} Formed(v: Value, br: string, strict: bool) returns (x: Syntax)
    requires Encodable(v) && Brackets(br)
    ensures WellFormed(x, strict) && Unparse(x) == Text(v, br) && Meaning(x) == Normal(v)
    decreases v
  {
    hide ElementOk, EntryOk, ElementsText, EntriesText, ElementsMeaning, EntriesMeaning, Items, Members, NormalItems, NormalMembers, EncodableMember, Printed, NumberOk, Spelled, PiecesOk, PiecesText, PiecesMeaning, Pieces, Escaped;
    match v
    case Null => x := WordNull;
    case Bool(b) => x := WordBool(b);
    case Num(text) =>
      var n := PrintedSpelled(text);
      StrictOk(n, strict);
      x := Figures(n);
    case Str(s) =>
      PiecesWrite(s);
      x := Quote(Pieces(s));
      assert QuoteText(Pieces(s)) == Quoted(s);
    case Arr(items) =>
      if items == [] {
        x := EmptyFormed(br);
      } else {
        var es := FormedItems(items, br, strict);
        x := Array(es);
        assert "[" + ElementsText(es) == "[" + Items(items, br) + "]";
      }
    case Obj(members) =>
      if members == [] {
        x := EmptyFormed(br);
        EmptyMembers();
      } else {
        var es := FormedMembers(members, br, strict);
        x := Object(es);
        assert "{" + EntriesText(es) == "{" + Members(members, br) + "}";
      }
  }

  lemma StrictOk(n: Numeral, strict: bool)
    requires NumberOk(n, true)
    ensures NumberOk(n, strict)
  {
  }

  lemma EmptyMembers()
    ensures NormalMembers([]) == []
  {
  }

  lemma EmptyFormed(br: string) returns (x: Syntax)
    requires Brackets(br)
    ensures WellFormed(x, true) && WellFormed(x, false) && Unparse(x) == br && Meaning(x) == Obj([])
  {
    x := if br == "{}" then EmptyObject("") else EmptyArray("");
    assert "" + "}" == "}" && "" + "]" == "]";
    assert "{" + "}" == "{}" && "[" + "]" == "[]";
  }

  lemma {:induction false} FormedItems(items: seq<Value>, br: string, strict: bool) returns (es: seq<Element>)
    requires items != [] && (forall k :: 0 <= k < |items| ==> Encodable(items[k])) && Brackets(br)
    ensures es != [] && forall k :: 0 <= k < |es| ==> ElementOk(es[k], strict)
    ensures ElementsText(es) == Items(items, br) + "]" && ElementsMeaning(es) == NormalItems(items)
    decreases items
  {
    hide WellFormed, Text, Unparse, Meaning, Normal, Encodable;
    var x := Formed(items[0], br, strict);
    var e := Element("", x, "");
    assert ElementText(e) == Unparse(x);
    if |items| == 1 {
      es := [e];
      assert items[1..] == [];
    } else {
      var rest := FormedItems(items[1..], br, strict);
      es := [e] + rest;
      assert es[1..] == rest;
      assert ElementsText(es) == Text(items[0], br) + ("," + (Items(items[1..], br) + "]"));
    }
  }

  function KeyName(k: Key): string
  {
    match k
    case Name(s) => s
    case Number(text) => text
  }

  /** A printed number has no character that would be escaped. */
  lemma KeyWrites(k: Key) returns (ps: seq<Piece>)
    requires k.Number? ==> Printed(k.text)
    ensures PiecesOk(ps) && QuoteText(ps) == KeyText(k) && PiecesMeaning(ps) == KeyName(k)
  {
    hide Printed, PiecesOk, PiecesText, PiecesMeaning, Pieces, Escaped, NumberOk, Spelled, NumberChars;
    ps := Pieces(KeyName(k));
    PiecesWrite(KeyName(k));
    assert QuoteText(ps) == Quoted(KeyName(k));
    if k.Number? {
      var n := PrintedSpelled(k.text);
      EscapedSame(k.text);
      assert Quoted(k.text) == KeyText(k);
    }
  }

  /** A key comes back as a string. */
  lemma KeyBack(s: string, i: nat, m: Member, strict: bool)
    requires EncodableMember(m) && StartsWith(s, i, KeyText(m.key))
    ensures NextTok(s, i, strict) == Lexed(StrTok(KeyName(m.key)), i, i + |KeyText(m.key)|)
  {
    hide NextTok, StartsWith, PiecesOk, PiecesMeaning, QuoteText, KeyText;
    var ps := KeyWrites(m.key);
    QuoteRead(s, i, ps, strict);
  }

  lemma {:induction false} FormedMember(m: Member, br: string, strict: bool) returns (e: Entry)
    requires EncodableMember(m) && Brackets(br)
    ensures EntryOk(e, strict) && EntryText(e) == MemberText(m, br) && EntryMeaning(e) == NormalMember(m)
    decreases m
  {
    hide WellFormed, Text, Unparse, Meaning, Normal, Encodable, PiecesOk, QuoteText, KeyText, PiecesMeaning;
    var x := Formed(m.value, br, strict);
    var ps := KeyWrites(m.key);
    e := Entry("", ps, "", Element("", x, ""));
    assert ElementText(e.item) == Text(m.value, br);
    assert EntryText(e) == KeyText(m.key) + ":" + Text(m.value, br);
  }

  lemma {:induction false} FormedMembers(members: seq<Member>, br: string, strict: bool) returns (es: seq<Entry>)
    requires members != [] && (forall k :: 0 <= k < |members| ==> EncodableMember(members[k])) && Brackets(br)
    ensures es != [] && forall k :: 0 <= k < |es| ==> EntryOk(es[k], strict)
    ensures EntriesText(es) == Members(members, br) + "}" && EntriesMeaning(es) == NormalMembers(members)
    decreases members
  {
    hide EntryOk, MemberText, EntryText, EntryMeaning, NormalMember, EncodableMember;
    var e := FormedMember(members[0], br, strict);
    if |members| == 1 {
      es := [e];
      assert members[1..] == [];
    } else {
      var rest := FormedMembers(members[1..], br, strict);
      es := [e] + rest;
      assert es[1..] == rest;
      assert EntriesText(es) == MemberText(members[0], br) + ("," + (Members(members[1..], br) + "}"));
    }
  }

  /** The same statement anywhere inside a text. */
  lemma ValueBack(v: Value, s: string, i: nat, depth: nat, cfg: Config, br: string)
    requires Encodable(v) && Brackets(br) && depth <= cfg.maxDepth
    requires i <= |s| && StartsWith(s, i, Text(v, br)) && EndsAt(s, i + |Text(v, br)|)
    ensures Outcome(ParseValue(s, NextTok(s, i, cfg.strict), depth, cfg), Normal(v), depth + Depth(v), cfg,
                    i + |Text(v, br)|)
  {
    hide NextTok, StartsWith, At, ParseValue, Text, Normal, Depth, Encodable, WellFormed, Unparse, Meaning, EndsAt, Stops, Brackets;
    var x := Formed(v, br, cfg.strict);
    if x.Figures? {
      EndsStops(x.n, s, i + |Text(v, br)|);
    }
    ValueRead(x, s, i, depth, cfg);
    NormalDepth(v);
  }

  // ---------------------------------------------------------------- whole texts

  /** JSON that is written has no control characters, neither in its strings nor elsewhere; reading would stop at a NUL. */
  predicate Clean(t: string)
  {
    forall k :: 0 <= k < |t| ==> t[k] >= ' ' && t[k] != '\U{7F}'
  }

  lemma CleanJoin(a: string, b: string)
    requires Clean(a) && Clean(b)
    ensures Clean(a + b)
  {
  }

  lemma {:induction false} EscapedClean(s: string)
    ensures Clean(Escaped(s))
  {
    if s != "" {
      EscapedClean(s[1..]);
      CleanJoin(Written(s[0]), Escaped(s[1..]));
    }
  }

  lemma QuotedClean(s: string)
    ensures Clean(Quoted(s))
  {
    EscapedClean(s);
  }

  lemma PrintedClean(t: string)
    requires Printed(t)
    ensures Clean(t)
  {
    hide Printed, NumberOk, Spelled;
    var n := PrintedSpelled(t);
    forall k | 0 <= k < |t| ensures t[k] >= ' ' && t[k] != '\U{7F}' {
      assert NumberChar(t[k]);
    }
  }

  lemma {:induction false} TextClean(v: Value, br: string)
    requires Encodable(v) && Brackets(br)
    ensures Clean(Text(v, br))
    decreases v
  {
    match v
    case Num(text) => PrintedClean(text);
    case Str(s) => QuotedClean(s);
    case Arr(items) => ItemsClean(items, br);
    case Obj(members) => MembersClean(members, br);
    case _ =>
  }

  lemma {:induction false} ItemsClean(items: seq<Value>, br: string)
    requires (forall k :: 0 <= k < |items| ==> Encodable(items[k])) && Brackets(br)
    ensures Clean(Items(items, br))
    decreases items
  {
    if items != [] {
      TextClean(items[0], br);
      ItemsClean(items[1..], br);
    }
  }

  lemma {:induction false} MembersClean(members: seq<Member>, br: string)
    requires (forall k :: 0 <= k < |members| ==> EncodableMember(members[k])) && Brackets(br)
    ensures Clean(Members(members, br))
    decreases members
  {
    if members != [] {
      assert EncodableMember(members[0]);
      MemberClean(members[0], br);
      MembersClean(members[1..], br);
    }
  }

  lemma {:induction false} MemberClean(m: Member, br: string)
    requires EncodableMember(m) && Brackets(br)
    ensures Clean(MemberText(m, br))
    decreases m
  {
    TextClean(m.value, br);
    match m.key
    case Name(s) => QuotedClean(s);
    case Number(text) => PrintedClean(text);
  }

  /**
   Decoding an encoded value: the value comes back exactly when its tables are not nested deeper than the
   decoder allows, whichever brackets the empty table is given, in strict mode or not.
   */
  lemma RoundTrip(v: Value, br: string, cfg: Config)
    requires Encodable(v) && Brackets(br)
    ensures var p := Decode(Text(v, br), cfg);
      if Depth(v) <= cfg.maxDepth then p == Parsed(Normal(v), |Text(v, br)|) else p.Failed? && p.why.Nested?
    ensures Plain(v) ==>
              (Decode(Text(v, br), cfg) == Parsed(v, |Text(v, br)|) <==> Depth(v) <= cfg.maxDepth)
  {
    hide Text, Decode, Depth, Normal, Encodable, Plain, Clean, WellFormed, Unparse, Meaning, Brackets;
    var s := Text(v, br);
    TextClean(v, br);
    CleanStart(s);
    var x := Formed(v, br, cfg.strict);
    assert "" + (Unparse(x) + "") == s;
    WholeText(s);
    DecodesSpelled(s, "", x, "", cfg);
    NormalDepth(v);
    if Plain(v) {
      NormalPlain(v);
    }
  }

  lemma CleanStart(s: string)
    requires Clean(s)
    ensures !Wide(s)
  {
  }

  lemma WholeText(s: string)
    ensures StartsWith(s, 0, s) && At(s, |s|) == '\0' && Gap("")
  {
  }

  // ---------------------------------------------------------------- escapes and UTF-8

  /** One code point read back from UTF-8 in its shortest form, by the syntax in section 4 of RFC 3629; -1 for anything else. */
  function FromUtf8(b: string): int
  {
    if |b| == 1 && b[0] < '\U{80}' then b[0] as int
    else if |b| == 2 && '\U{C2}' <= b[0] <= '\U{DF}' && Tail(b[1]) then
      (b[0] as int - 0xC0) * 0x40 + (b[1] as int - 0x80)
    else if |b| == 3 && '\U{E0}' <= b[0] <= '\U{EF}' && Tail(b[1]) && Tail(b[2])
         && (b[0] == '\U{E0}' ==> b[1] >= '\U{A0}') && (b[0] == '\U{ED}' ==> b[1] < '\U{A0}') then
      (b[0] as int - 0xE0) * 0x1000 + (b[1] as int - 0x80) * 0x40 + (b[2] as int - 0x80)
    else if |b| == 4 && '\U{F0}' <= b[0] <= '\U{F4}' && Tail(b[1]) && Tail(b[2]) && Tail(b[3])
         && (b[0] == '\U{F0}' ==> b[1] >= '\U{90}') && (b[0] == '\U{F4}' ==> b[1] < '\U{90}') then
      (b[0] as int - 0xF0) * 0x4_0000 + (b[1] as int - 0x80) * 0x1000 + (b[2] as int - 0x80) * 0x40 + (b[3] as int - 0x80)
    else -1
  }

  predicate Tail(c: char)
  {
    '\U{80}' <= c <= '\U{BF}'
  }

  /** What an escape contributes is well-formed UTF-8 for the code point it names. */
  lemma Utf8Decodes(cp: nat)
    requires cp < 0x11_0000 && !(0xD800 <= cp < 0xE000)
    ensures FromUtf8(Utf8(cp)) == cp
  {
    Base64(cp);
    Base64(cp / 0x40);
    Base64(cp / 0x1000);
    if cp < 0x800 {
    } else if cp < 0x1_0000 {
      Utf8Three(cp);
    } else {
      Utf8Four(cp);
    }
  }

  lemma Utf8Three(cp: nat)
    requires 0x800 <= cp < 0x1_0000 && !(0xD800 <= cp < 0xE000)
    ensures FromUtf8(Utf8(cp)) == cp
  {
    Base64(cp);
    Base64(cp / 0x40);
  }

  lemma Utf8Four(cp: nat)
    requires 0x1_0000 <= cp < 0x11_0000
    ensures FromUtf8(Utf8(cp)) == cp
  {
    Base64(cp);
    Base64(cp / 0x40);
    Base64(cp / 0x1000);
  }

  lemma Base64(n: nat)
    ensures n == n / 0x40 * 0x40 + n % 0x40 && n / 0x40 / 0x40 == n / 0x1000 && n / 0x1000 / 0x40 == n / 0x4_0000
  {
  }
}
