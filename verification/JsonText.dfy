/** JSON as lua_cjson.c writes and reads it: values, their text, the tokens, and what a text stands for. */
module JsonText {
  import opened NumberText

  // ---------------------------------------------------------------- values

  /** A Lua value that has a JSON form. A number is the text fpconv_g_fmt gives it; the empty table is Obj([]). */
  datatype Value =
    | Null
    | Bool(b: bool)
    | Num(text: string)
    | Str(s: string)
    | Arr(items: seq<Value>)
    | Obj(members: seq<Member>)

  /** Table keys: strings, or numbers, which are written as strings. */
  datatype Key = Name(s: string) | Number(text: string)

  /** The members of an object in the order of lua_next, or of the assignments the parser makes. */
  datatype Member = Member(key: Key, value: Value)

  // ---------------------------------------------------------------- writing

  function HexChar(d: nat): char
    requires d < 16
  {
    if d < 10 then '0' + d as char else 'a' + (d - 10) as char
  }

  /** char2escape: empty for the characters that stand for themselves. */
  function Escape(c: char): string
  {
    if c == '\U{08}' then "\\b"
    else if c == '\t' then "\\t"
    else if c == '\n' then "\\n"
    else if c == '\U{0C}' then "\\f"
    else if c == '\r' then "\\r"
    else if c < ' ' || c == '\U{7F}' then "\\u00" + [HexChar(c as nat / 16), HexChar(c as nat % 16)]
    else if c == '"' then "\\\""
    else if c == '/' then "\\/"
    else if c == '\\' then "\\\\"
    else ""
  }

  function Written(c: char): (t: string)
    ensures 1 <= |t| <= 6
  {
    if Escape(c) == "" then [c] else Escape(c)
  }

  function Escaped(s: string): string
  {
    if s == "" then "" else Written(s[0]) + Escaped(s[1..])
  }

  function Quoted(s: string): string
  {
    "\"" + Escaped(s) + "\""
  }

  function KeyText(k: Key): string
  {
    match k
    case Name(s) => Quoted(s)
    case Number(text) => "\"" + text + "\""
  }

  /** The text of a value; brackets is the empty table's. */
  function Text(v: Value, brackets: string): string
    decreases v
  {
    match v
    case Null => "null"
    case Bool(b) => if b then "true" else "false"
    case Num(text) => text
    case Str(s) => Quoted(s)
    case Arr(items) => if items == [] then brackets else "[" + Items(items, brackets) + "]"
    case Obj(members) => if members == [] then brackets else "{" + Members(members, brackets) + "}"
  }

  function Items(items: seq<Value>, brackets: string): string
    decreases items
  {
    if items == [] then ""
    else if |items| == 1 then Text(items[0], brackets)
    else Text(items[0], brackets) + "," + Items(items[1..], brackets)
  }

  function Members(members: seq<Member>, brackets: string): string
    decreases members
  {
    if members == [] then ""
    else if |members| == 1 then MemberText(members[0], brackets)
    else MemberText(members[0], brackets) + "," + Members(members[1..], brackets)
  }

  function MemberText(m: Member, brackets: string): string
    decreases m
  {
    KeyText(m.key) + ":" + Text(m.value, brackets)
  }

  function Max(a: nat, b: nat): nat
  {
    if a < b then b else a
  }

  /** How deep tables are nested in a value. */
  function Depth(v: Value): nat
    decreases v
  {
    match v
    case Arr(items) => 1 + ItemsDepth(items)
    case Obj(members) => 1 + MembersDepth(members)
    case _ => 0
  }

  function ItemsDepth(items: seq<Value>): nat
    decreases items
  {
    if items == [] then 0 else Max(Depth(items[0]), ItemsDepth(items[1..]))
  }

  function MembersDepth(members: seq<Member>): nat
    decreases members
  {
    if members == [] then 0 else Max(MemberDepth(members[0]), MembersDepth(members[1..]))
  }

  function MemberDepth(m: Member): nat
    decreases m
  {
    Depth(m.value)
  }

  // ---------------------------------------------------------------- tokens

  datatype Token =
    | ObjBegin | ObjEnd | ArrBegin | ArrEnd | Colon | Comma | End
    | StrTok(s: string) | NumTok(text: string) | BoolTok(b: bool) | NullTok
    | Bad(why: string)
    | Foreign // a hexadecimal number, an infinity or NaN, which are read elsewhere

  /** A token, where it was found, and where reading goes on. */
  datatype Lexed = Lexed(tok: Token, index: nat, next: nat)

  predicate Space(c: char)
  {
    c in " \t\n\r"
  }

  function SpaceEnd(s: string, i: nat): (r: nat)
    ensures i <= r && (i <= |s| ==> r <= |s|) && !Space(At(s, r))
    decreases |s| - i
  {
    if i < |s| && Space(s[i]) then SpaceEnd(s, i + 1) else i
  }

  /** hexdigit2int */
  function HexDigit(c: char): (d: int)
    ensures -1 <= d < 16
  {
    if '0' <= c <= '9' then c as int - '0' as int
    else if 'a' <= c <= 'f' then 10 + c as int - 'a' as int
    else if 'A' <= c <= 'F' then 10 + c as int - 'A' as int
    else -1
  }

  /** decode_hex4 */
  function Hex4(s: string, i: nat): (n: int)
    ensures -1 <= n < 0x1_0000
    ensures n >= 0 ==> i + 4 <= |s|
  {
    var a, b, c, d := HexDigit(At(s, i)), HexDigit(At(s, i + 1)), HexDigit(At(s, i + 2)), HexDigit(At(s, i + 3));
    if a < 0 || b < 0 || c < 0 || d < 0 then -1 else a * 0x1000 + b * 0x100 + c * 0x10 + d
  }

  function Byte(n: nat): char
    requires n < 256
  {
    n as char
  }

  /** The UTF-8 form of a code point, by the table in section 3 of RFC 3629. */
  function Utf8(cp: nat): string
    requires cp < 0x11_0000
  {
    if cp < 0x80 then [Byte(cp)]
    else if cp < 0x800 then [Byte(0xC0 + cp / 0x40), Byte(0x80 + cp % 0x40)]
    else if cp < 0x1_0000 then
      [Byte(0xE0 + cp / 0x1000), Byte(0x80 + cp / 0x40 % 0x40), Byte(0x80 + cp % 0x40)]
    else
      [Byte(0xF0 + cp / 0x4_0000), Byte(0x80 + cp / 0x1000 % 0x40), Byte(0x80 + cp / 0x40 % 0x40),
       Byte(0x80 + cp % 0x40)]
  }

  datatype Unescaped = Wrong | Point(cp: nat, next: nat)

  /** The code point of the escape \uXXXX at i, or of the surrogate pair there. */
  function CodePoint(s: string, i: nat): (r: Unescaped)
    ensures r.Point? ==> r.cp < 0x11_0000 && !(0xD800 <= r.cp < 0xE000) && i + 6 <= r.next <= |s|
  {
    var hi := Hex4(s, i + 2);
    if hi < 0 then Wrong
    else if !(0xD800 <= hi < 0xE000) then Point(hi, i + 6)
    else
      var lo := Hex4(s, i + 8);
      if hi >= 0xDC00 || At(s, i + 6) != '\\' || At(s, i + 7) != 'u' || !(0xDC00 <= lo < 0xE000) then Wrong
      else Point((hi - 0xD800) * 0x400 + (lo - 0xDC00) + 0x1_0000, i + 12)
  }

  /** escape2char: NUL for what is no escape. */
  function Unescape(c: char): char
  {
    match c
    case 'b' => '\U{08}'
    case 't' => '\t'
    case 'n' => '\n'
    case 'f' => '\U{0C}'
    case 'r' => '\r'
    case _ => if c in "\"\\/u" then c else '\0'
  }

  /** The rest of a string from i on, got being what precedes. */
  function StringRest(s: string, i: nat, got: string): (l: Lexed)
    requires i <= |s|
    ensures i <= l.index && l.index <= l.next <= |s|
    ensures l.tok.StrTok? ==> i < l.next && |l.tok.s| <= |got| + (l.next - i) - 1
    ensures l.tok.StrTok? || l.tok.Bad?
    decreases |s| - i
  {
    var c := At(s, i);
    if c == '"' then Lexed(StrTok(got), i, i + 1)
    else if c == '\0' then Lexed(Bad("unexpected end of string"), i, i)
    else if c != '\\' then StringRest(s, i + 1, got + [c])
    else
      var e := Unescape(At(s, i + 1));
      if e == 'u' then
        match CodePoint(s, i)
        case Wrong => Lexed(Bad("invalid unicode escape code"), i, i)
        case Point(cp, next) => StringRest(s, next, got + Utf8(cp))
      else if e == '\0' then Lexed(Bad("invalid escape code"), i, i)
      else StringRest(s, i + 2, got + [e])
  }

  /** json_is_invalid_number: what strict JSON does not allow although strtod would. */
  predicate Invalid(s: string, i: nat)
  {
    if At(s, i) == '+' then true
    else
      var p := if At(s, i) == '-' then i + 1 else i;
      if At(s, p) == '0' then At(s, p + 1) == 'x' || At(s, p + 1) == 'X' || Digit(At(s, p + 1))
      else At(s, p) > '9' && Named(s, p)
  }

  lemma DissectEnd(s: string, i: nat)
    requires i <= |s|
    ensures i <= Dissect(s, i).end <= |s|
    ensures Numeric(s, i) ==> i < Dissect(s, i).end
  {
    var b := BlankEnd(s, i);
    var g := MantissaEnd(s, SignEnd(s, i));
    if HasExp(s, g) {
      assert g < |s| && ExpStart(s, g) < |s|;
    }
  }

  function NumberToken(s: string, i: nat): (l: Lexed)
    requires i <= |s|
    ensures l.index == i <= l.next <= |s| && (l.tok.NumTok? ==> i < l.next)
    ensures l.tok.NumTok? || l.tok.Bad? || l.tok.Foreign?
  {
    DissectEnd(s, i);
    var b := SignEnd(s, i);
    if Hex(s, b) then Lexed(Foreign, i, i)
    else if Numeric(s, i) then Lexed(NumTok(s[i..Dissect(s, i).end]), i, Dissect(s, i).end)
    else if Named(s, b) then Lexed(Foreign, i, i)
    else Lexed(Bad("invalid number"), i, i)
  }

  /** The tokens of one character. */
  function Punctuation(c: char): Token
  {
    match c
    case '{' => ObjBegin
    case '}' => ObjEnd
    case '[' => ArrBegin
    case ']' => ArrEnd
    case ':' => Colon
    case ',' => Comma
    case _ => End
  }

  /** The token at i; strict is the setting decode_invalid_numbers == 0. */
  function NextTok(s: string, i: nat, strict: bool): (l: Lexed)
    requires i <= |s|
    ensures i <= l.index && l.index <= l.next <= |s|
    ensures Taken(l.tok) ==> l.index < l.next
  {
    var b := SpaceEnd(s, i);
    var c := At(s, b);
    if Punctuation(c) != End then Lexed(Punctuation(c), b, b + 1)
    else if c == '\0' then Lexed(End, b, b)
    else if c == '"' then
      var l := StringRest(s, b + 1, "");
      if l.tok.StrTok? then Lexed(l.tok, b, l.next) else l
    else if c == '-' || Digit(c) then
      if strict && Invalid(s, b) then Lexed(Bad("invalid number"), b, b) else NumberToken(s, b)
    else if StartsWith(s, b, "true") then Lexed(BoolTok(true), b, b + 4)
    else if StartsWith(s, b, "false") then Lexed(BoolTok(false), b, b + 5)
    else if StartsWith(s, b, "null") then Lexed(NullTok, b, b + 4)
    else if !strict && Invalid(s, b) then NumberToken(s, b)
    else Lexed(Bad("invalid token"), b, b)
  }

  /** The tokens that have characters of their own. */
  predicate Taken(t: Token)
  {
    !t.End? && !t.Bad? && !t.Foreign?
  }

  // ---------------------------------------------------------------- what a text stands for

  datatype Config = Config(maxDepth: nat, strict: bool)

  datatype Failure =
    | Syntax(expected: string, found: Token, index: nat)
    | Nested(depth: nat, index: nat)
    | WideText
    | NotModelled

  /** A value and where reading goes on. */
  datatype Parsed = Parsed(v: Value, next: nat) | Failed(why: Failure)

  function Refuse(expected: string, l: Lexed): Parsed
  {
    Failed(if l.tok.Foreign? then NotModelled else Syntax(expected, l.tok, l.index))
  }

  /** The value that starts with the token l. */
  function ParseValue(s: string, l: Lexed, depth: nat, cfg: Config): (p: Parsed)
    requires l.index <= l.next <= |s| && (Taken(l.tok) ==> l.index < l.next)
    ensures p.Parsed? ==> l.index < p.next <= |s|
    decreases |s| - l.index, 0
  {
    match l.tok
    case StrTok(t) => Parsed(Str(t), l.next)
    case NumTok(t) => Parsed(Num(t), l.next)
    case BoolTok(b) => Parsed(Bool(b), l.next)
    case NullTok => Parsed(Null, l.next)
    case ObjBegin => ParseObject(s, l.next, depth, cfg)
    case ArrBegin => ParseArray(s, l.next, depth, cfg)
    case _ => Refuse("value", l)
  }

  function ParseArray(s: string, i: nat, depth: nat, cfg: Config): (p: Parsed)
    requires i <= |s|
    ensures p.Parsed? ==> i < p.next <= |s|
    decreases |s| - i, 2
  {
    if depth + 1 > cfg.maxDepth then Failed(Nested(depth + 1, i))
    else
      var l := NextTok(s, i, cfg.strict);
      if l.tok.ArrEnd? then Parsed(Obj([]), l.next) else ParseItems(s, l, depth + 1, cfg, [])
  }

  /** The elements from the one that starts with l, got being those before it. */
  function ParseItems(s: string, l: Lexed, depth: nat, cfg: Config, got: seq<Value>): (p: Parsed)
    requires l.index <= l.next <= |s| && (Taken(l.tok) ==> l.index < l.next)
    ensures p.Parsed? ==> l.index < p.next <= |s|
    decreases |s| - l.index, 1
  {
    var p := ParseValue(s, l, depth, cfg);
    if p.Failed? then p
    else
      var e := NextTok(s, p.next, cfg.strict);
      if e.tok.ArrEnd? then Parsed(Arr(got + [p.v]), e.next)
      else if !e.tok.Comma? then Refuse("comma or array end", e)
      else ParseItems(s, NextTok(s, e.next, cfg.strict), depth, cfg, got + [p.v])
  }

  function ParseObject(s: string, i: nat, depth: nat, cfg: Config): (p: Parsed)
    requires i <= |s|
    ensures p.Parsed? ==> i < p.next <= |s|
    decreases |s| - i, 2
  {
    if depth + 1 > cfg.maxDepth then Failed(Nested(depth + 1, i))
    else
      var l := NextTok(s, i, cfg.strict);
      if l.tok.ObjEnd? then Parsed(Obj([]), l.next) else ParseMembers(s, l, depth + 1, cfg, [])
  }

  /** The members from the one whose key is l, got being those before it. */
  function ParseMembers(s: string, l: Lexed, depth: nat, cfg: Config, got: seq<Member>): (p: Parsed)
    requires l.index <= l.next <= |s| && (Taken(l.tok) ==> l.index < l.next)
    ensures p.Parsed? ==> l.index < p.next <= |s|
    decreases |s| - l.index, 1
  {
    if !l.tok.StrTok? then Refuse("object key string", l)
    else
      var c := NextTok(s, l.next, cfg.strict);
      if !c.tok.Colon? then Refuse("colon", c)
      else
        var p := ParseValue(s, NextTok(s, c.next, cfg.strict), depth, cfg);
        if p.Failed? then p
        else
          var more := got + [Member(Name(l.tok.s), p.v)];
          var e := NextTok(s, p.next, cfg.strict);
          if e.tok.ObjEnd? then Parsed(Obj(more), e.next)
          else if !e.tok.Comma? then Refuse("comma or object end", e)
          else ParseMembers(s, NextTok(s, e.next, cfg.strict), depth, cfg, more)
  }

  /** json_decode */
  function Decode(s: string, cfg: Config): Parsed
  {
    if |s| >= 2 && (s[0] == '\0' || s[1] == '\0') then Failed(WideText)
    else
      var p := ParseValue(s, NextTok(s, 0, cfg.strict), 0, cfg);
      if p.Failed? then p
      else
        var e := NextTok(s, p.next, cfg.strict);
        if e.tok.End? then p else Refuse("the end", e)
  }
}
