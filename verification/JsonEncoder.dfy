/** The writing half of lua_cjson.c, on a string buffer. */
module JsonEncoder {
  import opened StringBuffer
  import opened JsonText
  import opened JsonRoundTrip

  const G_FMT_BUFSIZE: nat := 32

  datatype EncodeConfig = EncodeConfig(maxDepth: nat, emptyAsObject: bool)

  function Empty(cfg: EncodeConfig): string
  {
    if cfg.emptyAsObject then "{}" else "[]"
  }

  lemma EscapedStep(s: string)
    requires s != ""
    ensures Escaped(s) == Written(s[0]) + Escaped(s[1..])
  {
    hide Written;
  }

  lemma {:induction false} EscapedSnoc(s: string, i: nat)
    requires i < |s|
    ensures Escaped(s[..i + 1]) == Escaped(s[..i]) + Written(s[i])
    decreases i
  {
    hide Written, Escaped;
    EscapedStep(s[..i + 1]);
    if i == 0 {
      EscapedOfNone();
      assert s[..0] == "" && s[..1][1..] == "";
    } else {
      EscapedStep(s[..i]);
      assert s[..i + 1][1..] == s[1..][..i] && s[..i][1..] == s[1..][..i - 1];
      EscapedSnoc(s[1..], i - 1);
      var w, e, z := Written(s[0]), Escaped(s[1..][..i - 1]), Written(s[i]);
      assert w + (e + z) == w + e + z;
    }
  }

  lemma EscapedOfNone()
    ensures Escaped("") == ""
  {
  }

  lemma {:induction false} ItemsSnoc(items: seq<Value>, i: nat, br: string)
    requires i < |items|
    ensures Items(items[..i + 1], br)
      == Items(items[..i], br) + (if i > 0 then "," else "") + Text(items[i], br)
  {
    hide Text, Depth;
    if i == 0 {
      assert items[..1] == [items[0]] && items[..0] == [];
    } else {
      var rest := items[1..];
      assert items[..i + 1][1..] == rest[..i] && items[..i][1..] == rest[..i - 1];
      ItemsSnoc(rest, i - 1, br);
      if i == 1 {
        assert items[..1] == [items[0]] && rest[..0] == [];
      }
    }
  }

  lemma {:induction false} ItemsSnocDepth(items: seq<Value>, i: nat)
    requires i < |items|
    ensures ItemsDepth(items[..i + 1]) == Max(ItemsDepth(items[..i]), Depth(items[i]))
  {
    if i == 0 {
      assert items[..1] == [items[0]] && items[..1][1..] == [];
    } else {
      assert items[..i + 1][1..] == items[1..][..i] && items[..i][1..] == items[1..][..i - 1];
      ItemsSnocDepth(items[1..], i - 1);
    }
  }

  lemma {:induction false} MembersSnoc(members: seq<Member>, i: nat, br: string)
    requires i < |members|
    ensures Members(members[..i + 1], br)
      == Members(members[..i], br) + (if i > 0 then "," else "") + MemberText(members[i], br)
  {
    hide MemberText, Depth;
    if i == 0 {
      assert members[..1] == [members[0]] && members[..0] == [];
    } else {
      var rest := members[1..];
      assert members[..i + 1][1..] == rest[..i] && members[..i][1..] == rest[..i - 1];
      MembersSnoc(rest, i - 1, br);
      if i == 1 {
        assert members[..1] == [members[0]] && rest[..0] == [];
      }
    }
  }

  lemma {:induction false} MembersSnocDepth(members: seq<Member>, i: nat)
    requires i < |members|
    ensures MembersDepth(members[..i + 1]) == Max(MembersDepth(members[..i]), Depth(members[i].value))
  {
    if i == 0 {
      assert members[..1] == [members[0]] && members[..1][1..] == [];
    } else {
      assert members[..i + 1][1..] == members[1..][..i] && members[..i][1..] == members[1..][..i - 1];
      MembersSnocDepth(members[1..], i - 1);
    }
  }

  lemma {:induction false} ItemDepth(items: seq<Value>, i: nat)
    requires i < |items|
    ensures Depth(items[i]) <= ItemsDepth(items)
  {
    if i > 0 {
      ItemDepth(items[1..], i - 1);
    }
  }

  lemma {:induction false} ValueDepth(members: seq<Member>, i: nat)
    requires i < |members|
    ensures Depth(members[i].value) <= MembersDepth(members)
  {
    if i > 0 {
      ValueDepth(members[1..], i - 1);
    }
  }

  /** One character, by its escape if it has one. */
  method AppendWritten(json: StrBuf, c: char)
    requires json.Growing() && json.EmptyLength() >= 6
    modifies json, json.buf
    ensures json.Growing() && json.buf == old(json.buf) && json.EmptyLength() >= old(json.EmptyLength()) - 6
    ensures json.Text() == old(json.Text()) + Written(c)
  {
    hide Escape, StrBuf.Takes;
    var escstr := Escape(c);
    assert |Written(c)| <= 6;
    if escstr != "" {
      TakesAny(json, |escstr|);
      json.AppendString(escstr);
    } else {
      json.AppendCharUnsafe(c);
    }
  }

  /** json_append_string: with room for six characters each, nothing is reallocated after the start. */
  method AppendString(json: StrBuf, s: string)
    requires json.Growing()
    modifies json, json.buf
    ensures json.Growing() && json.Text() == old(json.Text()) + Quoted(s)
    ensures json.buf == old(json.buf) || fresh(json.buf)
    ensures old(json.EmptyLength()) >= 6 * |s| + 2 ==> json.buf == old(json.buf)
  {
    hide Written, Escaped, StrBuf.Takes;
    TakesAny(json, |s| * 6 + 2);
    json.EnsureEmptyLength(|s| * 6 + 2);
    var room := json.buf;
    json.AppendCharUnsafe('"');
    ghost var start := old(json.Text()) + ['"'];
    EscapedNone();
    assert s[..0] == "" && start + "" == start;
    for i := 0 to |s|
      invariant json.Growing() && json.buf == room && json.EmptyLength() >= 6 * (|s| - i) + 1
      invariant json.Text() == start + Escaped(s[..i])
    {
      EscapedSnoc(s, i);
      ghost var was := Escaped(s[..i]);
      AppendWritten(json, s[i]);
      assert start + was + Written(s[i]) == start + (was + Written(s[i]));
    }
    json.AppendCharUnsafe('"');
    assert s[..|s|] == s;
    assert start + Escaped(s) + ['"'] == old(json.Text()) + ("\"" + Escaped(s) + "\"");
  }

  lemma TakesAny(json: StrBuf, n: nat)
    requires json.Growing()
    ensures json.Takes(n)
  {
  }

  lemma EscapedNone()
    ensures Escaped("") == ""
  {
  }

  /** json_append_number: fpconv_g_fmt writes into the buffer itself. */
  method AppendNumber(json: StrBuf, text: string)
    requires json.Growing() && |text| < G_FMT_BUFSIZE
    modifies json, json.buf
    ensures json.Growing() && json.Text() == old(json.Text()) + text
    ensures json.buf == old(json.buf) || fresh(json.buf)
  {
    json.EnsureEmptyLength(G_FMT_BUFSIZE);
    json.AppendMemUnsafe(text);
  }

  method AppendKey(json: StrBuf, k: Key)
    requires json.Growing() && (k.Number? ==> Printed(k.text))
    modifies json, json.buf
    ensures json.Growing() && json.Text() == old(json.Text()) + (KeyText(k) + ":")
    ensures json.buf == old(json.buf) || fresh(json.buf)
  {
    hide Printed, Quoted;
    ghost var start := json.Text();
    match k {
      case Number(text) =>
        PrintedShort(text);
        json.AppendChar('"');
        AppendNumber(json, text);
        json.AppendMem("\":");
        assert start + ['"'] + text + "\":" == start + ("\"" + text + "\"" + ":");
      case Name(s) =>
        AppendString(json, s);
        json.AppendChar(':');
        assert start + Quoted(s) + [':'] == start + (Quoted(s) + ":");
    }
  }

  /** json_append_array; false when an element is nested too deeply. */
  method AppendArray(json: StrBuf, cfg: EncodeConfig, items: seq<Value>, depth: nat) returns (ok: bool)
    requires json.Growing() && depth <= cfg.maxDepth && forall k :: 0 <= k < |items| ==> Encodable(items[k])
    modifies json, json.buf
    ensures json.Growing() && (json.buf == old(json.buf) || fresh(json.buf))
    ensures ok <==> depth + ItemsDepth(items) <= cfg.maxDepth
    ensures ok ==> json.Text() == old(json.Text()) + ("[" + Items(items, Empty(cfg)) + "]")
    decreases items
  {
    hide Text, Items, Depth, Encodable, ItemsDepth, StrBuf.Takes;
    json.AppendChar('[');
    ghost var start := old(json.Text()) + ['['];
    NoItems(Empty(cfg));
    assert items[..0] == [] && start + "" == start;
    for i := 0 to |items|
      invariant json.Growing() && (json.buf == old(json.buf) || fresh(json.buf))
      invariant json.Text() == start + Items(items[..i], Empty(cfg))
      invariant depth + ItemsDepth(items[..i]) <= cfg.maxDepth
    {
      ghost var was := Items(items[..i], Empty(cfg));
      ItemsSnoc(items, i, Empty(cfg));
      ItemsSnocDepth(items, i);
      if i > 0 {
        json.AppendChar(',');
      }
      ghost var comma := if i > 0 then "," else "";
      assert json.Text() == start + (was + comma);
      ok := AppendData(json, cfg, items[i], depth);
      if !ok {
        ItemDepth(items, i);
        return;
      }
      Regroup(start, was + comma, Text(items[i], Empty(cfg)));
    }
    json.AppendChar(']');
    ok := true;
    assert items[..|items|] == items;
    Enclosed(old(json.Text()), '[', Items(items, Empty(cfg)), ']');
  }

  lemma Regroup(a: string, b: string, c: string)
    ensures a + b + c == a + (b + c)
  {
  }

  lemma Enclosed(a: string, left: char, b: string, right: char)
    ensures a + [left] + b + [right] == a + ([left] + b + [right])
  {
  }

  lemma NoItems(br: string)
    ensures Items([], br) == "" && ItemsDepth([]) == 0 && Members([], br) == "" && MembersDepth([]) == 0
  {
  }

  /** The key and the value of one member. */
  method AppendMember(json: StrBuf, cfg: EncodeConfig, m: Member, depth: nat) returns (ok: bool)
    requires json.Growing() && depth <= cfg.maxDepth && EncodableMember(m)
    modifies json, json.buf
    ensures json.Growing() && (json.buf == old(json.buf) || fresh(json.buf))
    ensures ok <==> depth + Depth(m.value) <= cfg.maxDepth
    ensures ok ==> json.Text() == old(json.Text()) + MemberText(m, Empty(cfg))
    decreases m
  {
    hide Text, Depth, Encodable, Printed, KeyText;
    AppendKey(json, m.key);
    ok := AppendData(json, cfg, m.value, depth);
    ghost var k, t := KeyText(m.key), Text(m.value, Empty(cfg));
    assert old(json.Text()) + (k + ":") + t == old(json.Text()) + (k + ":" + t);
  }

  /** json_append_object */
  method AppendObject(json: StrBuf, cfg: EncodeConfig, members: seq<Member>, depth: nat) returns (ok: bool)
    requires json.Growing() && depth <= cfg.maxDepth && forall k :: 0 <= k < |members| ==> EncodableMember(members[k])
    modifies json, json.buf
    ensures json.Growing() && (json.buf == old(json.buf) || fresh(json.buf))
    ensures ok <==> depth + MembersDepth(members) <= cfg.maxDepth
    ensures ok ==> json.Text() == old(json.Text()) + ("{" + Members(members, Empty(cfg)) + "}")
    decreases members
  {
    hide MemberText, Members, Depth, EncodableMember, MembersDepth, StrBuf.Takes;
    json.AppendChar('{');
    ghost var start := old(json.Text()) + ['{'];
    NoItems(Empty(cfg));
    assert members[..0] == [] && start + "" == start;
    for i := 0 to |members|
      invariant json.Growing() && (json.buf == old(json.buf) || fresh(json.buf))
      invariant json.Text() == start + Members(members[..i], Empty(cfg))
      invariant depth + MembersDepth(members[..i]) <= cfg.maxDepth
    {
      ghost var was := Members(members[..i], Empty(cfg));
      var m := members[i];
      assert EncodableMember(m);
      MembersSnoc(members, i, Empty(cfg));
      MembersSnocDepth(members, i);
      if i > 0 {
        json.AppendChar(',');
      }
      ghost var comma := if i > 0 then "," else "";
      assert json.Text() == start + (was + comma);
      ok := AppendMember(json, cfg, m, depth);
      if !ok {
        ValueDepth(members, i);
        return;
      }
      Regroup(start, was + comma, MemberText(m, Empty(cfg)));
    }
    json.AppendChar('}');
    ok := true;
    assert members[..|members|] == members;
    Enclosed(old(json.Text()), '{', Members(members, Empty(cfg)), '}');
  }

  /** json_append_data: false, for the error about excessive nesting, exactly when the limit is exceeded. */
  method AppendData(json: StrBuf, cfg: EncodeConfig, v: Value, depth: nat) returns (ok: bool)
    requires json.Growing() && depth <= cfg.maxDepth && Encodable(v)
    modifies json, json.buf
    ensures json.Growing() && (json.buf == old(json.buf) || fresh(json.buf))
    ensures ok <==> depth + Depth(v) <= cfg.maxDepth
    ensures ok ==> json.Text() == old(json.Text()) + Text(v, Empty(cfg))
    decreases v
  {
    hide Items, Members, Quoted, Printed, ItemsDepth, MembersDepth, EncodableMember;
    NoItems(Empty(cfg));
    ok := true;
    match v {
      case Str(s) => AppendString(json, s);
      case Num(text) =>
        PrintedShort(text);
        AppendNumber(json, text);
      case Bool(b) => json.AppendMem(if b then "true" else "false");
      case Null => json.AppendMem("null");
      case Arr(items) =>
        if depth + 1 > cfg.maxDepth {
          return false;
        }
        if items != [] || !cfg.emptyAsObject {
          ok := AppendArray(json, cfg, items, depth + 1);
        } else {
          ok := AppendObject(json, cfg, [], depth + 1);
        }
        BothBrackets();
      case Obj(members) =>
        if depth + 1 > cfg.maxDepth {
          return false;
        }
        if members == [] && !cfg.emptyAsObject {
          ok := AppendArray(json, cfg, [], depth + 1);
        } else {
          ok := AppendObject(json, cfg, members, depth + 1);
        }
        BothBrackets();
    }
  }

  lemma BothBrackets()
    ensures "[" + "" + "]" == "[]" && "{" + "" + "}" == "{}"
  {
  }

  /** json_encode with a buffer of its own; None stands for the error about excessive nesting. */
  datatype Encoded = Encoded(text: string) | TooDeep

  method Encode(v: Value, cfg: EncodeConfig) returns (r: Encoded)
    requires Encodable(v)
    ensures r == if Depth(v) <= cfg.maxDepth then Encoded(Text(v, Empty(cfg))) else TooDeep
  {
    hide Text, Depth, Encodable;
    var json := new StrBuf(0);
    var ok := AppendData(json, cfg, v, 0);
    if !ok {
      return TooDeep;
    }
    assert "" + Text(v, Empty(cfg)) == Text(v, Empty(cfg));
    return Encoded(json.buf[..json.length]);
  }
}
