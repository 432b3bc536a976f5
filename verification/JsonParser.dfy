/** The reading half of lua_cjson.c: a parser that moves a pointer over the text. */
module JsonParser {
  import opened NumberText
  import opened StringBuffer
  import opened JsonText

  function Utf8Length(cp: nat): nat
  {
    if cp <= 0x7F then 1 else if cp <= 0x7FF then 2 else if cp <= 0xFFFF then 3 else 4
  }

  class Parser {
    const data: string
    const strict: bool
    const maxDepth: nat
    const tmp: StrBuf
    var ptr: nat
    var currentDepth: nat

    /** The temporary buffer has room for as many characters as the whole text. */
    ghost predicate Valid()
      reads this, tmp
    {
      ptr <= |data| && tmp.Valid() && tmp.buf.Length > |data|
    }

    /** While a string is read: what was decoded is no longer than what was consumed since start. */
    ghost predicate Gathering(start: nat)
      reads this, tmp
    {
      Valid() && start <= ptr && tmp.length <= ptr - start
    }

    ghost function Cfg(): Config
    {
      Config(maxDepth, strict)
    }

    constructor (data: string, cfg: Config)
      ensures Valid() && this.data == data && Cfg() == cfg && ptr == 0 && currentDepth == 0
      ensures fresh(tmp) && fresh(tmp.buf)
    {
      this.data, strict, maxDepth := data, cfg.strict, cfg.maxDepth;
      tmp := new StrBuf(|data|);
      ptr, currentDepth := 0, 0;
    }

    /** codepoint_to_utf8 and the unchecked append of its result. */
    method AppendUtf8(cp: nat)
      requires cp < 0x11_0000 && tmp.Valid() && tmp.EmptyLength() >= 4
      modifies tmp`length, tmp.buf
      ensures tmp.Valid() && tmp.Text() == old(tmp.Text()) + Utf8(cp)
      ensures tmp.length == old(tmp.length) + Utf8Length(cp)
    {
      var utf8: string;
      if cp <= 0x7F {
        utf8 := [Byte(cp)];
      } else if cp <= 0x7FF {
        utf8 := [Byte(cp / 0x40 + 0xC0), Byte(cp % 0x40 + 0x80)];
      } else if cp <= 0xFFFF {
        utf8 := [Byte(cp / 0x1000 + 0xE0), Byte(cp / 0x40 % 0x40 + 0x80), Byte(cp % 0x40 + 0x80)];
      } else {
        utf8 := [Byte(cp / 0x4_0000 + 0xF0), Byte(cp / 0x1000 % 0x40 + 0x80), Byte(cp / 0x40 % 0x40 + 0x80),
          Byte(cp % 0x40 + 0x80)];
      }
      tmp.AppendMemUnsafe(utf8);
    }

    /** json_append_unicode_escape; false for its -1. */
    method AppendUnicodeEscape(ghost start: nat) returns (ok: bool)
      requires Gathering(start) && At(data, ptr) == '\\' && At(data, ptr + 1) == 'u'
      modifies `ptr, tmp`length, tmp.buf
      ensures Gathering(start) && ok == CodePoint(data, old(ptr)).Point?
      ensures ok ==> ptr == CodePoint(data, old(ptr)).next
      ensures ok ==> tmp.Text() == old(tmp.Text()) + Utf8(CodePoint(data, old(ptr)).cp)
      ensures !ok ==> ptr == old(ptr)
    {
      hide Hex4, Utf8;
      var codepoint := Hex4(data, ptr + 2);
      if codepoint < 0 {
        return false;
      }
      var escapeLen := 6;
      // (codepoint & 0xF800) == 0xD800
      if codepoint / 0x800 == 0x1B {
        // codepoint & 0x400
        if codepoint / 0x400 % 2 == 1 {
          return false;
        }
        if At(data, ptr + escapeLen) != '\\' || At(data, ptr + escapeLen + 1) != 'u' {
          return false;
        }
        var low := Hex4(data, ptr + 2 + escapeLen);
        // (surrogate_low & 0xFC00) == 0xDC00
        if low < 0 || low / 0x400 != 0x37 {
          return false;
        }
        codepoint := codepoint % 0x400 * 0x400 + low % 0x400 + 0x1_0000;
        escapeLen := 12;
      }
      AppendUtf8(codepoint);
      ptr := ptr + escapeLen;
      ok := true;
    }

    /** json_next_string_token, at the opening quote. */
    method NextStringToken() returns (l: Lexed)
      requires Valid() && At(data, ptr) == '"'
      modifies `ptr, tmp`length, tmp.buf
      ensures Valid() && l == StringRest(data, old(ptr) + 1, "") && ptr == l.next
    {
      hide CodePoint, Utf8, Unescape, StringRest;
      ghost var start := ptr + 1;
      ptr := ptr + 1;
      tmp.Reset();
      while true
        invariant Gathering(start)
        invariant StringRest(data, start, "") == StringRest(data, ptr, tmp.Text())
        decreases |data| - ptr
      {
        var ch := At(data, ptr);
        StringStep(data, ptr, tmp.Text());
        if ch == '"' {
          break;
        }
        if ch == '\0' {
          return Lexed(Bad("unexpected end of string"), ptr, ptr);
        }
        if ch == '\\' {
          ch := Unescape(At(data, ptr + 1));
          if ch == 'u' {
            EscapeU(data, ptr);
            UnicodeStep(data, ptr, tmp.Text());
            var ok := AppendUnicodeEscape(start);
            if ok {
              continue;
            }
            return Lexed(Bad("invalid unicode escape code"), ptr, ptr);
          }
          if ch == '\0' {
            return Lexed(Bad("invalid escape code"), ptr, ptr);
          }
          EscapeInside(data, ptr);
          ptr := ptr + 1;
        }
        tmp.AppendCharUnsafe(ch);
        ptr := ptr + 1;
      }
      ptr := ptr + 1;
      tmp.EnsureNull();
      l := Lexed(StrTok(tmp.buf[..tmp.length]), ptr - 1, ptr);
    }

    /** json_next_number_token */
    method NextNumberToken() returns (l: Lexed)
      requires Valid() && BlankEnd(data, ptr) == ptr
      modifies `ptr
      ensures Valid() && l == NumberToken(data, old(ptr)) && ptr == l.next
    {
      hide Dissect, SignEnd, Hex, Numeric, Named;
      var r := Scan(data, ptr);
      DissectEnd(data, ptr);
      ScanTells(data, ptr, r);
      match r {
        case Nothing =>
          l := Lexed(Bad("invalid number"), ptr, ptr);
        case Special(_) =>
          l := Lexed(Foreign, ptr, ptr);
        case Decimal(_, _, _, _, _, _, _, end) =>
          l := Lexed(NumTok(data[ptr..end]), ptr, end);
          ptr := end;
      }
    }

    /** json_next_token */
    method NextToken() returns (l: Lexed)
      requires Valid()
      modifies `ptr, tmp`length, tmp.buf
      ensures Valid() && l == NextTok(data, old(ptr), strict) && ptr == l.next
    {
      hide StringRest, NumberToken, Invalid, StartsWith;
      while ptr < |data| && Space(data[ptr])
        invariant Valid() && SpaceEnd(data, old(ptr)) == SpaceEnd(data, ptr)
        decreases |data| - ptr
      {
        ptr := ptr + 1;
      }
      var index := ptr;
      var ch := At(data, ptr);
      if Punctuation(ch) != End {
        ptr := ptr + 1;
        return Lexed(Punctuation(ch), index, ptr);
      } else if ch == '\0' {
        return Lexed(End, index, ptr);
      } else if ch == '"' {
        l := NextStringToken();
        return if l.tok.StrTok? then l.(index := index) else l;
      } else if ch == '-' || Digit(ch) {
        if strict && Invalid(data, ptr) {
          return Lexed(Bad("invalid number"), ptr, ptr);
        }
        l := NextNumberToken();
        return;
      } else if StartsWith(data, ptr, "true") {
        WordInside(data, ptr, "true");
        ptr := ptr + 4;
        return Lexed(BoolTok(true), index, ptr);
      } else if StartsWith(data, ptr, "false") {
        WordInside(data, ptr, "false");
        ptr := ptr + 5;
        return Lexed(BoolTok(false), index, ptr);
      } else if StartsWith(data, ptr, "null") {
        WordInside(data, ptr, "null");
        ptr := ptr + 4;
        return Lexed(NullTok, index, ptr);
      } else if !strict && Invalid(data, ptr) {
        InvalidStart(data, ptr);
        l := NextNumberToken();
        return;
      }
      return Lexed(Bad("invalid token"), ptr, ptr);
    }

    /** json_process_value: the value that the token l begins. */
    method ProcessValue(l: Lexed) returns (p: Parsed)
      requires Valid() && ptr == l.next && l.index <= l.next && (Taken(l.tok) ==> l.index < l.next)
      modifies this, tmp`length, tmp.buf
      ensures Valid() && p == ParseValue(data, l, old(currentDepth), Cfg())
      ensures p.Parsed? ==> ptr == p.next && currentDepth == old(currentDepth)
      decreases |data| - l.index, 0
    {
      hide ParseObject, ParseArray;
      match l.tok {
        case StrTok(t) => p := Parsed(Str(t), ptr);
        case NumTok(t) => p := Parsed(Num(t), ptr);
        case BoolTok(b) => p := Parsed(Bool(b), ptr);
        case NullTok => p := Parsed(Null, ptr);
        case ObjBegin => p := ParseObjectContext();
        case ArrBegin => p := ParseArrayContext();
        case _ => p := Refuse("value", l);
      }
    }

    /** json_parse_array_context */
    method ParseArrayContext() returns (p: Parsed)
      requires Valid()
      modifies this, tmp`length, tmp.buf
      ensures Valid() && p == ParseArray(data, old(ptr), old(currentDepth), Cfg())
      ensures p.Parsed? ==> ptr == p.next && currentDepth == old(currentDepth)
      decreases |data| - ptr, 2
    {
      hide ParseValue, NextTok;
      currentDepth := currentDepth + 1;
      if currentDepth > maxDepth {
        return Failed(Nested(currentDepth, ptr));
      }
      var l := NextToken();
      if l.tok.ArrEnd? {
        currentDepth := currentDepth - 1;
        return Parsed(Obj([]), ptr);
      }
      ghost var depth, first := currentDepth, l;
      var table: seq<Value> := [];
      while true
        invariant Valid() && ptr == l.next && l.index <= l.next && (Taken(l.tok) ==> l.index < l.next)
        invariant currentDepth == depth && old(ptr) <= l.index
        invariant ParseItems(data, first, depth, Cfg(), []) == ParseItems(data, l, depth, Cfg(), table)
        decreases |data| - l.index
      {
        p := ProcessValue(l);
        if p.Failed? {
          return;
        }
        table := table + [p.v];
        var e := NextToken();
        if e.tok.ArrEnd? {
          currentDepth := currentDepth - 1;
          return Parsed(Arr(table), ptr);
        }
        if !e.tok.Comma? {
          return Refuse("comma or array end", e);
        }
        l := NextToken();
      }
    }

    /** json_parse_object_context */
    method ParseObjectContext() returns (p: Parsed)
      requires Valid()
      modifies this, tmp`length, tmp.buf
      ensures Valid() && p == ParseObject(data, old(ptr), old(currentDepth), Cfg())
      ensures p.Parsed? ==> ptr == p.next && currentDepth == old(currentDepth)
      decreases |data| - ptr, 2
    {
      hide ParseValue, NextTok;
      currentDepth := currentDepth + 1;
      if currentDepth > maxDepth {
        return Failed(Nested(currentDepth, ptr));
      }
      var l := NextToken();
      if l.tok.ObjEnd? {
        currentDepth := currentDepth - 1;
        return Parsed(Obj([]), ptr);
      }
      ghost var depth, first := currentDepth, l;
      var table: seq<Member> := [];
      while true
        invariant Valid() && ptr == l.next && l.index <= l.next && (Taken(l.tok) ==> l.index < l.next)
        invariant currentDepth == depth && old(ptr) <= l.index
        invariant ParseMembers(data, first, depth, Cfg(), []) == ParseMembers(data, l, depth, Cfg(), table)
        decreases |data| - l.index
      {
        if !l.tok.StrTok? {
          return Refuse("object key string", l);
        }
        var key := l.tok.s;
        var c := NextToken();
        if !c.tok.Colon? {
          return Refuse("colon", c);
        }
        var v := NextToken();
        p := ProcessValue(v);
        if p.Failed? {
          return;
        }
        table := table + [Member(Name(key), p.v)];
        var e := NextToken();
        if e.tok.ObjEnd? {
          currentDepth := currentDepth - 1;
          return Parsed(Obj(table), ptr);
        }
        if !e.tok.Comma? {
          return Refuse("comma or object end", e);
        }
        l := NextToken();
      }
    }
  }

  /** What the next character does to a string that is being read. */
  lemma StringStep(s: string, i: nat, got: string)
    requires i <= |s|
    ensures var c, e := At(s, i), Unescape(At(s, i + 1));
      var r := StringRest(s, i, got);
      if c == '"' then r == Lexed(StrTok(got), i, i + 1)
      else if c == '\0' then r == Lexed(Bad("unexpected end of string"), i, i)
      else if c != '\\' then r == StringRest(s, i + 1, got + [c])
      else if e == 'u' then true
      else if e == '\0' then r == Lexed(Bad("invalid escape code"), i, i)
      else r == StringRest(s, i + 2, got + [e])
  {
  }

  lemma UnicodeStep(s: string, i: nat, got: string)
    requires i <= |s| && At(s, i) == '\\' && Unescape(At(s, i + 1)) == 'u'
    ensures var r := CodePoint(s, i);
      StringRest(s, i, got)
      == if r.Wrong? then Lexed(Bad("invalid unicode escape code"), i, i) else StringRest(s, r.next, got + Utf8(r.cp))
  {
  }

  lemma EscapeU(s: string, i: nat)
    requires Unescape(At(s, i + 1)) == 'u'
    ensures At(s, i + 1) == 'u'
  {
  }

  lemma EscapeInside(s: string, i: nat)
    requires Unescape(At(s, i + 1)) != '\0'
    ensures i + 1 < |s|
  {
  }

  lemma ScanTells(s: string, i: nat, r: Scanned)
    requires ScansTo(s, i, r)
    ensures r.Nothing? ==> !Numeric(s, i) && !Named(s, SignEnd(s, i)) && !Hex(s, SignEnd(s, i))
    ensures r.Special? ==> Hex(s, SignEnd(s, i)) || (!Numeric(s, i) && Named(s, SignEnd(s, i)))
    ensures r.Decimal? ==> Numeric(s, i) && !Hex(s, SignEnd(s, i)) && r.end == Dissect(s, i).end
  {
  }

  lemma WordInside(s: string, i: nat, word: string)
    requires StartsWith(s, i, word)
    ensures i + |word| <= |s|
  {
  }

  lemma InvalidStart(s: string, i: nat)
    requires Invalid(s, i)
    ensures BlankEnd(s, i) == i
  {
  }

  /** json_decode */
  method DecodeText(data: string, cfg: Config) returns (p: Parsed)
    ensures p == Decode(data, cfg)
  {
    hide ParseValue, NextTok;
    if |data| >= 2 && (data[0] == '\0' || data[1] == '\0') {
      return Failed(WideText);
    }
    var json := new Parser(data, cfg);
    var l := json.NextToken();
    p := json.ProcessValue(l);
    if p.Parsed? {
      var e := json.NextToken();
      if !e.tok.End? {
        p := Refuse("the end", e);
      }
    }
  }
}
