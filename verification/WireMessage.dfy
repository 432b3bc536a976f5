/** rmessage.c, and what becomes of a field between a writer and a reader: written, left out as the default, read. */
module WireMessage {
  import opened Limbs
  import opened Varint
  import opened WireWriter
  import opened WireReader

  // ---------------------------------------------------------------- reading a message

  /** struct value, for a field that is neither repeated nor packed. */
  datatype Value = Numeral(v: LongLong) | Stretch(bytes: seq<Octet>)

  datatype Reading = NotRead | ReadAs(value: Value)

  /** One insertion into the table of a message; the table keeps them all. */
  datatype Entry = Entry(id: nat, value: Value)

  predicate Texty(t: PType)
  {
    t.Chars? || t.Bytes?
  }

  /** a->v.i; for a stretch its two ends lie there. */
  function Word(a: Atom): LongLong
  {
    match a
    case Number(_, v) => v
    case Slice(_, start, end) => LongLong(start % 0x1_0000_0000, end % 0x1_0000_0000)
  }

  /** read_value; its checks of varint and fixed fields are switched off. */
  function ReadValue(f: Field, s: seq<Octet>, a: Atom): Reading
    requires a.Slice? ==> a.start <= a.end <= |s|
  {
    if f.ptype.Other? then NotRead
    else if Texty(f.ptype) then
      if a.tag % 8 == WT_LEND && a.Slice? then ReadAs(Stretch(s[a.start..a.end])) else NotRead
    else ReadAs(Numeral(Meaning(f.ptype, Word(a))))
  }

  ghost predicate Within(s: seq<Octet>, atoms: seq<Atom>)
  {
    forall k :: 0 <= k < |atoms| ==> AtomWithin(s, atoms[k])
  }

  predicate AtomWithin(s: seq<Octet>, a: Atom)
  {
    a.Slice? ==> a.start <= a.end <= |s|
  }

  /** What one atom adds to the table. */
  function EntryOf(t: map<nat, Field>, s: seq<Octet>, a: Atom): seq<Entry>
    requires AtomWithin(s, a)
  {
    var id := a.tag / 8;
    if id !in t then []
    else
      var r := ReadValue(t[id], s, a);
      if r.ReadAs? then [Entry(id, r.value)] else []
  }

  function Entries(t: map<nat, Field>, s: seq<Octet>, atoms: seq<Atom>): seq<Entry>
    requires Within(s, atoms)
  {
    if atoms == [] then [] else EntryOf(t, s, atoms[0]) + Entries(t, s, atoms[1..])
  }

  lemma {:induction false} EntriesSnoc(t: map<nat, Field>, s: seq<Octet>, atoms: seq<Atom>, i: nat)
    requires Within(s, atoms) && i < |atoms|
    ensures Within(s, atoms[..i]) && Within(s, atoms[..i + 1]) && AtomWithin(s, atoms[i])
    ensures Entries(t, s, atoms[..i + 1]) == Entries(t, s, atoms[..i]) + EntryOf(t, s, atoms[i])
    decreases i
  {
    hide EntryOf;
    assert AtomWithin(s, atoms[0]) && AtomWithin(s, atoms[i]);
    if i == 0 {
      assert atoms[..1] == [atoms[0]] && atoms[..1][1..] == [] && atoms[..0] == [];
    } else {
      var rest := atoms[1..];
      assert atoms[..i + 1][1..] == rest[..i] && atoms[..i][1..] == rest[..i - 1] && rest[i - 1] == atoms[i];
      assert Within(s, rest) by {
        forall k | 0 <= k < |rest| ensures AtomWithin(s, rest[k]) {
          assert AtomWithin(s, atoms[k + 1]);
        }
      }
      EntriesSnoc(t, s, rest, i - 1);
      var a, b, c := EntryOf(t, s, atoms[0]), Entries(t, s, rest[..i - 1]), EntryOf(t, s, atoms[i]);
      assert a + (b + c) == a + b + c;
    }
  }

  /** What a query for f may answer: any value inserted for it, or the default when there is none. */
  ghost predicate AnswersNumber(index: seq<Entry>, f: Field, r: LongLong)
  {
    if Present(index, f.id)
    then exists k :: 0 <= k < |index| && index[k].id == f.id && index[k].value.Numeral? && r == Shown(f.ptype, index[k].value.v)
    else r == Shown(f.ptype, f.number)
  }

  ghost predicate AnswersText(index: seq<Entry>, f: Field, r: seq<Octet>)
  {
    if Present(index, f.id)
    then exists k :: 0 <= k < |index| && index[k].id == f.id && index[k].value == Stretch(r)
    else r == f.text
  }

  ghost predicate Present(index: seq<Entry>, id: nat)
  {
    exists k :: 0 <= k < |index| && index[k].id == id
  }

  /** An enumeration shows no high word. */
  function Shown(t: PType, v: LongLong): LongLong
  {
    if t.Enum? then LongLong(v.low, 0) else v
  }

  /** Each field has values of its own kind. */
  ghost predicate WellKept(t: map<nat, Field>, index: seq<Entry>)
  {
    forall k :: 0 <= k < |index| ==> index[k].id in t && (index[k].value.Stretch? <==> Texty(t[index[k].id].ptype))
  }

  lemma {:induction false} EntriesKept(t: map<nat, Field>, s: seq<Octet>, atoms: seq<Atom>)
    requires Within(s, atoms)
    ensures WellKept(t, Entries(t, s, atoms))
  {
    if atoms != [] {
      assert AtomWithin(s, atoms[0]);
      assert Within(s, atoms[1..]) by {
        forall k | 0 <= k < |atoms[1..]| ensures AtomWithin(s, atoms[1..][k]) {
          assert AtomWithin(s, atoms[k + 1]);
        }
      }
      EntriesKept(t, s, atoms[1..]);
    }
  }

  /** struct pbc_rmessage: the fields of a message, by what the type says of their numbers. */
  class RMessage {
    const fields: map<nat, Field>
    var index: seq<Entry>

    ghost predicate Valid()
      reads this
    {
      WellKept(fields, index)
    }

    /** _pbc_rmessage_new; ok is false for a message that cannot be opened. */
    constructor (t: map<nat, Field>)
      ensures Valid() && fields == t && index == []
    {
      fields, index := t, [];
    }

    /** _pbc_rmessage_new: the atoms, each inserted under its field. */
    method Load(s: seq<Octet>, mem: nat -> Scratch) returns (ok: bool)
      requires Valid() && index == []
      modifies this`index
      ensures Valid()
      ensures var r := OpenFrom(s, 0, [], mem);
        && (ok <==> r.Atoms? && (r.atoms != [] || s == []))
        && (ok ==> Within(s, r.atoms) && index == Entries(fields, s, r.atoms)) && (!ok ==> index == [])
    {
      hide OpenFrom, Entries, EntryOf, WellKept, Within;
      if |s| == 0 {
        OpenEnd(s, [], mem);
        NoEntries(fields, s);
        return true;
      }
      var c := new Context();
      var n, lost := c.Open(s, mem);
      if lost || n <= 0 {
        return false;
      }
      var a := c.a;
      ghost var atoms := a[..n];
      NoEntries(fields, s);
      OpenedWithin(s, 0, [], mem);
      assert atoms[..0] == [];
      for i := 0 to n
        invariant n <= a.Length && a[..n] == atoms
        invariant Within(s, atoms[..i]) && index == Entries(fields, s, atoms[..i])
      {
        EntriesSnoc(fields, s, atoms, i);
        assert a[i] == a[..n][i];
        Insert(s, a[i]);
      }
      assert atoms[..n] == atoms;
      EntriesKept(fields, s, atoms);
      ok := true;
    }

    /** read_value and _pbcM_sp_insert for one atom. */
    method Insert(s: seq<Octet>, a: Atom)
      requires AtomWithin(s, a)
      modifies this`index
      ensures index == old(index) + EntryOf(fields, s, a)
    {
      var id := a.tag / 8;
      if id in fields {
        var r := ReadValue(fields[id], s, a);
        if r.ReadAs? {
          index := index + [Entry(id, r.value)];
        }
      }
    }

    /** pbc_rmessage_integer; which of two values for one field is found depends on the table. */
    method Integer(f: Field) returns (r: LongLong)
      requires Valid() && f.id in fields && fields[f.id] == f && !Texty(f.ptype)
      ensures AnswersNumber(index, f, r)
    {
      r := f.number;
      var i := 0;
      while i < |index| && index[i].id != f.id
        invariant i <= |index| && forall k :: 0 <= k < i ==> index[k].id != f.id
      {
        i := i + 1;
      }
      if i < |index| {
        assert index[i].value.Numeral?;
        r := index[i].value.v;
      }
      if f.ptype.Enum? {
        r := LongLong(r.low, 0);
      }
    }

    /** pbc_rmessage_string */
    method Text(f: Field) returns (r: seq<Octet>)
      requires Valid() && f.id in fields && fields[f.id] == f && Texty(f.ptype)
      ensures AnswersText(index, f, r)
    {
      var i := 0;
      while i < |index| && index[i].id != f.id
        invariant i <= |index| && forall k :: 0 <= k < i ==> index[k].id != f.id
      {
        i := i + 1;
      }
      if i < |index| {
        assert index[i].value.Stretch?;
        return index[i].value.bytes;
      }
      return f.text;
    }

    /** pbc_rmessage_size, which is 1 or 0 */
    method Size(f: Field) returns (n: nat)
      ensures n == if Present(index, f.id) then 1 else 0
    {
      n := 0;
      for i := 0 to |index|
        invariant n == if Present(index[..i], f.id) then 1 else 0
      {
        assert index[..i + 1] == index[..i] + [index[i]];
        PresentMore(index[..i], index[i], f.id);
        if index[i].id == f.id {
          n := 1;
        }
      }
      assert index[..|index|] == index;
    }
  }

  lemma PresentMore(index: seq<Entry>, e: Entry, id: nat)
    ensures Present(index + [e], id) <==> Present(index, id) || e.id == id
  {
    if Present(index, id) {
      var k :| 0 <= k < |index| && index[k].id == id;
      assert (index + [e])[k].id == id;
    }
    if e.id == id {
      assert (index + [e])[|index|].id == id;
    }
  }

  lemma NoEntries(t: map<nat, Field>, s: seq<Octet>)
    ensures Within(s, []) && Entries(t, s, []) == []
  {
  }

  lemma {:induction false} OpenedWithin(s: seq<Octet>, i: nat, got: seq<Atom>, mem: nat -> Scratch)
    requires i <= |s| && Within(s, got)
    ensures OpenFrom(s, i, got, mem).Atoms? ==> Within(s, OpenFrom(s, i, got, mem).atoms)
    decreases |s| - i
  {
    hide WireAt, OpenFrom;
    if i == |s| {
      OpenEnd(s, got, mem);
    } else {
      OpenStep(s, i, got, mem);
      var w := WireAt(s, i, mem(i));
      if w.Found? {
        FoundWithin(s, i, mem(i));
        OpenedWithin(s, w.next, got + [w.a], mem);
      }
    }
  }

  lemma FoundWithin(s: seq<Octet>, i: nat, temp: Scratch)
    requires i <= |s| && WireAt(s, i, temp).Found?
    ensures AtomWithin(s, WireAt(s, i, temp).a)
  {
    hide Read, Left, Seen;
  }

  // ---------------------------------------------------------------- writing a message

  /** A call of pbc_wmessage_integer, or of pbc_wmessage_string with the memory at its pointer. */
  datatype Call = PutInteger(f: Field, v: LongLong) | PutText(f: Field, mem: seq<Octet>, len: int)

  /** Bytes have no default. */
  predicate Callable(c: Call)
  {
    match c
    case PutInteger(f, _) => !Texty(f.ptype) && !f.ptype.Other?
    case PutText(f, v, len) =>
      && Texty(f.ptype) && (f.ptype.Bytes? ==> f.text == [])
      && 0 < |v| < 0x8000_0000 && v[|v| - 1] == 0 && 0 <= TextLength(v, len) <= |v|
  }

  /** The bytes a text call asks to be written. */
  function Asked(c: Call): seq<Octet>
    requires Callable(c) && c.PutText?
  {
    c.mem[..TextLength(c.mem, c.len)]
  }

  /** The field that is written, if it is. */
  function ItemsOf(c: Call): seq<Item>
    requires Callable(c)
  {
    match c
    case PutInteger(f, v) => if IsDefault(f, v) then [] else [Numeric(f, v)]
    case PutText(f, v, _) => if SkipsText(f, v, |Asked(c)|) then [] else [Textual(f.id, Asked(c))]
  }

  ghost predicate AllCallable(calls: seq<Call>)
  {
    forall k :: 0 <= k < |calls| ==> Callable(calls[k])
  }

  function AllItems(calls: seq<Call>): seq<Item>
    requires AllCallable(calls)
  {
    if calls == [] then []
    else
      assert Callable(calls[0]) && forall k :: 0 <= k < |calls| - 1 ==> calls[1..][k] == calls[k + 1];
      ItemsOf(calls[0]) + AllItems(calls[1..])
  }

  lemma OneItem(c: Call)
    requires Callable(c)
    ensures Flat(ItemsOf(c)) == (if ItemsOf(c) == [] then [] else ItemBytes(ItemsOf(c)[0])) && |ItemsOf(c)| <= 1
    ensures forall m <- ItemsOf(c) :: Writable(m)
  {
    hide ItemBytes;
    if ItemsOf(c) != [] {
      FlatOne(ItemsOf(c)[0]);
      assert ItemsOf(c) == [ItemsOf(c)[0]];
    }
  }

  lemma {:induction false} AllItemsSnoc(calls: seq<Call>, i: nat)
    requires AllCallable(calls) && i < |calls|
    ensures AllCallable(calls[..i]) && AllCallable(calls[..i + 1]) && Callable(calls[i])
    ensures AllItems(calls[..i + 1]) == AllItems(calls[..i]) + ItemsOf(calls[i])
    decreases i
  {
    hide Callable, ItemsOf;
    if i == 0 {
      assert calls[..1] == [calls[0]] && calls[..1][1..] == [] && calls[..0] == [];
    } else {
      var rest := calls[1..];
      RestCallable(calls);
      assert calls[..i + 1][1..] == rest[..i] && calls[..i][1..] == rest[..i - 1] && rest[i - 1] == calls[i];
      AllItemsSnoc(rest, i - 1);
      var a, b, c := ItemsOf(calls[0]), AllItems(rest[..i - 1]), ItemsOf(calls[i]);
      assert a + (b + c) == a + b + c;
    }
  }

  lemma RestCallable(calls: seq<Call>)
    requires AllCallable(calls) && calls != []
    ensures Callable(calls[0]) && AllCallable(calls[1..])
    ensures AllItems(calls) == ItemsOf(calls[0]) + AllItems(calls[1..])
  {
    hide Callable, ItemsOf;
    forall k | 0 <= k < |calls[1..]| ensures Callable(calls[1..][k]) {
      assert Callable(calls[k + 1]);
    }
  }

  /** One call, and what it adds to the message. */
  method Perform(m: WMessage, c: Call)
    requires m.Valid() && Callable(c)
    modifies m, m.buffer
    ensures m.Valid() && (m.buffer == old(m.buffer) || fresh(m.buffer)) && m.Data() == old(m.Data()) + Flat(ItemsOf(c))
  {
    OneItem(c);
    hide Flat, StrLen, IsDefault, SkipsText, TextField, NumberField;
    match c {
      case PutInteger(f, v) => m.Integer(f, v);
      case PutText(f, v, len) => m.Text(f, v, len);
    }
  }

  /** A message of these calls, as pbc_wmessage_buffer gives it. */
  method WriteAll(calls: seq<Call>) returns (slice: seq<Octet>)
    requires AllCallable(calls)
    ensures slice == Flat(AllItems(calls))
  {
    hide Callable, ItemsOf, AllItems, Flat;
    var m := new WMessage();
    NoItems();
    assert calls[..0] == [];
    for i := 0 to |calls|
      invariant m.Valid() && fresh(m) && fresh(m.buffer)
      invariant AllCallable(calls[..i]) && m.Data() == Flat(AllItems(calls[..i]))
    {
      AllItemsSnoc(calls, i);
      Perform(m, calls[i]);
      FlatAppend(AllItems(calls[..i]), ItemsOf(calls[i]));
    }
    assert calls[..|calls|] == calls;
    slice := m.buffer[..m.ptr];
  }

  lemma NoItems()
    ensures AllItems([]) == [] && Flat([]) == []
  {
  }

  // ---------------------------------------------------------------- from writer to reader

  /** What a call leaves in the table of the reader. */
  function Inserted(c: Call): seq<Entry>
    requires Callable(c)
  {
    if ItemsOf(c) == [] then []
    else match c
      case PutInteger(f, v) => [Entry(f.id, Numeral(Meaning(f.ptype, ItemAtom(Numeric(f, v), 0).v)))]
      case PutText(f, _, _) => [Entry(f.id, Stretch(Asked(c)))]
  }

  function AllInserted(calls: seq<Call>): seq<Entry>
    requires AllCallable(calls)
  {
    if calls == [] then []
    else
      assert Callable(calls[0]) && forall k :: 0 <= k < |calls| - 1 ==> calls[1..][k] == calls[k + 1];
      Inserted(calls[0]) + AllInserted(calls[1..])
  }

  /** The reader's type knows the fields of the calls, and no field is written twice. */
  ghost predicate Agreed(t: map<nat, Field>, calls: seq<Call>)
  {
    && AllCallable(calls)
    && (forall k :: 0 <= k < |calls| ==> Known(t, calls[k].f))
    && (forall j, k :: 0 <= j < k < |calls| ==> calls[j].f.id != calls[k].f.id)
  }

  predicate Known(t: map<nat, Field>, f: Field)
  {
    f.id in t && t[f.id] == f
  }

  lemma TagDivides(id: FieldId, wt: nat)
    requires wt < 8
    ensures Tag(id, wt) / 8 == id && Tag(id, wt) % 8 == wt
  {
  }

  lemma NumberInserted(t: map<nat, Field>, s: seq<Octet>, i: nat, f: Field, v: LongLong)
    requires Known(t, f) && !Texty(f.ptype) && !f.ptype.Other?
    ensures var a := ItemAtom(Numeric(f, v), i);
      AtomWithin(s, a) && EntryOf(t, s, a) == [Entry(f.id, Numeral(Meaning(f.ptype, ItemAtom(Numeric(f, v), 0).v)))]
  {
    hide Tag, Meaning, Code, Halves;
    TagDivides(f.id, WireType(f.ptype));
  }

  lemma TextInserted(t: map<nat, Field>, s: seq<Octet>, i: nat, f: Field, bytes: seq<Octet>)
    requires Known(t, f) && Texty(f.ptype) && |bytes| < 0x8000_0000 && Sits(s, i, TextField(f.id, bytes))
    ensures var a := ItemAtom(Textual(f.id, bytes), i);
      AtomWithin(s, a) && EntryOf(t, s, a) == [Entry(f.id, Stretch(bytes))]
  {
    hide Tag, WireAt, Meaning, TextField;
    TagDivides(f.id, WT_LEND);
    TextBack(s, i, f.id, bytes, seq(10, _ => 0));
  }

  lemma CallInserted(t: map<nat, Field>, s: seq<Octet>, i: nat, c: Call)
    requires Callable(c) && Known(t, c.f) && ItemsOf(c) != [] && Sits(s, i, ItemBytes(ItemsOf(c)[0]))
    ensures var a := ItemAtom(ItemsOf(c)[0], i); AtomWithin(s, a) && EntryOf(t, s, a) == Inserted(c)
  {
    hide EntryOf, Meaning, TextField, NumberField, StrLen;
    match c
    case PutInteger(f, v) => NumberInserted(t, s, i, f, v);
    case PutText(f, _, _) => TextInserted(t, s, i, f, Asked(c));
  }

  /** The atoms of a message of calls are inserted as the calls say. */
  lemma {:induction false} CallsInserted(t: map<nat, Field>, s: seq<Octet>, i: nat, calls: seq<Call>)
    requires AllCallable(calls) && (forall k :: 0 <= k < |calls| ==> Known(t, calls[k].f)) && Sits(s, i, Flat(AllItems(calls)))
    ensures var atoms := AtomsOf(AllItems(calls), i);
      AllWritable(AllItems(calls)) && Within(s, atoms) && Entries(t, s, atoms) == AllInserted(calls)
    decreases |calls|
  {
    hide Callable, ItemsOf, Inserted, EntryOf, ItemAtom, ItemBytes, Writable, Sits, Flat, AtomWithin;
    if calls == [] {
      NoItems();
    } else {
      var c, rest := calls[0], calls[1..];
      RestCallable(calls);
      OneItem(c);
      FlatAppend(ItemsOf(c), AllItems(rest));
      SitsApart(s, i, Flat(ItemsOf(c)), Flat(AllItems(rest)));
      var j := i + |Flat(ItemsOf(c))|;
      CallsInserted(t, s, j, rest);
      if ItemsOf(c) == [] {
        NoneInserted(c);
        assert AllItems(calls) == AllItems(rest) && AllInserted(calls) == AllInserted(rest);
      } else {
        var m := ItemsOf(c)[0];
        CallInserted(t, s, i, c);
        assert AllItems(calls) == [m] + AllItems(rest);
        FirstAtom(t, s, i, m, AllItems(rest));
      }
    }
  }

  lemma NoneInserted(c: Call)
    requires Callable(c) && ItemsOf(c) == []
    ensures Inserted(c) == []
  {
  }

  lemma FirstAtom(t: map<nat, Field>, s: seq<Octet>, i: nat, m: Item, items: seq<Item>)
    requires Writable(m) && AllWritable(items) && AtomWithin(s, ItemAtom(m, i)) && Within(s, AtomsOf(items, i + |ItemBytes(m)|))
    ensures AllWritable([m] + items) && Within(s, AtomsOf([m] + items, i))
    ensures Entries(t, s, AtomsOf([m] + items, i)) == EntryOf(t, s, ItemAtom(m, i)) + Entries(t, s, AtomsOf(items, i + |ItemBytes(m)|))
  {
    hide Writable, AtomWithin, ItemAtom, ItemBytes, EntryOf;
    assert ([m] + items)[1..] == items;
    var a, rest := AtomsOf([m] + items, i), AtomsOf(items, i + |ItemBytes(m)|);
    assert a == [ItemAtom(m, i)] + rest && a[1..] == rest;
    forall k | 0 <= k < |a| ensures AtomWithin(s, a[k]) {
      assert k > 0 ==> a[k] == rest[k - 1] && AtomWithin(s, rest[k - 1]);
    }
  }

  /** A value of field id in the table comes from the call of that field. */
  lemma {:induction false} InsertedBy(calls: seq<Call>, e: Entry)
    requires AllCallable(calls) && e in AllInserted(calls)
    ensures exists k :: 0 <= k < |calls| && Callable(calls[k]) && Inserted(calls[k]) == [e] && calls[k].f.id == e.id
    decreases |calls|
  {
    hide Callable;
    var c, rest := calls[0], calls[1..];
    RestCallable(calls);
    if e in Inserted(c) {
      InsertedOne(c);
    } else {
      InsertedBy(rest, e);
      var k :| 0 <= k < |rest| && Callable(rest[k]) && Inserted(rest[k]) == [e] && rest[k].f.id == e.id;
      assert calls[k + 1] == rest[k];
    }
  }

  lemma InsertedOne(c: Call)
    requires Callable(c)
    ensures |Inserted(c)| <= 1 && (Inserted(c) == [] <==> ItemsOf(c) == []) && forall e <- Inserted(c) :: e.id == c.f.id
  {
    hide Meaning, ItemAtom, SkipsText, StrLen;
  }

  lemma {:induction false} InsertsAll(calls: seq<Call>, k: nat)
    requires AllCallable(calls) && k < |calls| && Callable(calls[k])
    ensures forall e <- Inserted(calls[k]) :: e in AllInserted(calls)
    decreases k
  {
    hide Callable, Inserted;
    RestCallable(calls);
    if k > 0 {
      InsertsAll(calls[1..], k - 1);
      assert calls[1..][k - 1] == calls[k];
    }
  }

  /** What is in the table for the field of a call is what that call has left there. */
  lemma OwnEntry(t: map<nat, Field>, calls: seq<Call>, k: nat)
    requires Agreed(t, calls) && k < |calls|
    ensures Callable(calls[k]) && (Present(AllInserted(calls), calls[k].f.id) <==> ItemsOf(calls[k]) != [])
    ensures forall e <- AllInserted(calls) :: e.id == calls[k].f.id ==> Inserted(calls[k]) == [e]
  {
    hide Callable, Inserted, ItemsOf, AllInserted;
    var c := calls[k];
    assert Callable(c);
    InsertedOne(c);
    InsertsAll(calls, k);
    forall e | e in AllInserted(calls) && e.id == c.f.id
      ensures Inserted(c) == [e]
    {
      InsertedBy(calls, e);
      var j :| 0 <= j < |calls| && Callable(calls[j]) && Inserted(calls[j]) == [e] && calls[j].f.id == e.id;
      assert j == k;
    }
    if ItemsOf(c) != [] {
      var e := Inserted(c)[0];
      assert e in Inserted(c);
      var i :| 0 <= i < |AllInserted(calls)| && AllInserted(calls)[i] == e;
      assert Present(AllInserted(calls), c.f.id);
    }
  }

  /** The table a reader gets from a message of these calls, whatever lay in memory. */
  lemma MessageRead(t: map<nat, Field>, calls: seq<Call>, mem: nat -> Scratch)
    requires Agreed(t, calls)
    ensures var s := Flat(AllItems(calls));
      var r := OpenFrom(s, 0, [], mem);
      && r.Atoms? && Within(s, r.atoms) && Entries(t, s, r.atoms) == AllInserted(calls) && (s != [] ==> r.atoms != [])
  {
    hide OpenFrom, AllItems, Entries, AllInserted, Callable, Flat;
    var s := Flat(AllItems(calls));
    assert s[0..|s|] == s;
    CallsInserted(t, s, 0, calls);
    OpensToWritten(AllItems(calls), mem);
    if AllItems(calls) == [] {
      NoItems();
    }
  }

  /**
   A number comes back: all 64 bits of it for the wide types, the low 32 for the others, whether the field was written
   or left out as the default.
   */
  lemma NumberComesBack(t: map<nat, Field>, calls: seq<Call>, k: nat, r: LongLong)
    requires Agreed(t, calls) && k < |calls| && calls[k].PutInteger? && AnswersNumber(AllInserted(calls), calls[k].f, r)
    ensures r.low == calls[k].v.low && (Wide(calls[k].f.ptype) ==> r.hi == calls[k].v.hi)
  {
    hide AllInserted, Meaning, ItemAtom;
    var f, v := calls[k].f, calls[k].v;
    OwnEntry(t, calls, k);
    var index := AllInserted(calls);
    if Present(index, f.id) {
      var j :| 0 <= j < |index| && index[j].id == f.id && index[j].value.Numeral? && r == Shown(f.ptype, index[j].value.v);
      assert index[j] in index;
      MeaningBack(f, v, 0);
    }
  }

  /** A field is left out exactly when it is optional and the number is its default. */
  lemma NumberPresent(t: map<nat, Field>, calls: seq<Call>, k: nat)
    requires Agreed(t, calls) && k < |calls| && calls[k].PutInteger?
    ensures var f, v := calls[k].f, calls[k].v;
      Present(AllInserted(calls), f.id) <==>
        !(f.kind.Optional? && Shown(f.ptype, v) == Shown(f.ptype, f.number))
  {
    hide AllInserted;
    OwnEntry(t, calls, k);
  }

  /** A default text without a NUL, but perhaps for its last character. */
  predicate CleanDefault(f: Field)
  {
    forall p :: 0 <= p < |f.text| - 1 ==> f.text[p] != 0
  }

  /** strlen of a text, with the NUL that ends its memory. */
  lemma {:induction false} StrLenAt(v: seq<Octet>, p: nat)
    requires |v| > 0 && v[|v| - 1] == 0 && p < |v| && v[p] == 0 && forall i :: 0 <= i < p ==> v[i] != 0
    ensures StrLen(v) == p
  {
    if p > 0 {
      StrLenAt(v[1..], p - 1);
    }
  }

  /** Equal length and equal up to the first NUL is equal, when the default is clean; the string at v must end by then. */
  lemma SkippedSame(f: Field, v: seq<Octet>, n: nat)
    requires |v| > 0 && v[|v| - 1] == 0 && n <= |v| && CleanDefault(f)
    ensures n == |f.text| && StrCmp(v, f.text) <==> v[..n] == f.text && StrLen(v) <= n
  {
    hide StrLen;
    var d := f.text + [0];
    var p, q := StrLen(v), StrLen(d);
    if n == |f.text| && StrCmp(v, f.text) {
      assert p == |v[..p]| == |f.text[..q]| == q;
      assert forall i :: 0 <= i < p ==> v[i] == v[..p][i] == f.text[..q][i];
      assert d[q] == 0;
      if q < n {
        assert f.text[q] == 0 && q == n - 1;
      }
    } else if v[..n] == f.text && StrLen(v) <= n {
      assert forall i :: 0 <= i < n ==> v[i] == v[..n][i] == f.text[i];
      SameStart(v, f.text, n);
    }
  }

  lemma SameStart(v: seq<Octet>, d: seq<Octet>, n: nat)
    requires |v| > 0 && v[|v| - 1] == 0 && n == |d| <= |v| && (forall i :: 0 <= i < n ==> v[i] == d[i])
    requires StrLen(v) <= n
    ensures StrCmp(v, d)
  {
    hide StrLen;
    var p, q := StrLen(v), StrLen(d + [0]);
    assert v[p] == 0 && (d + [0])[q] == 0;
    assert q < n ==> v[q] == 0;
    assert p < n ==> (d + [0])[p] == 0;
    assert p == q && v[..p] == d[..p];
  }

  /** Bytes and clean texts come back, whether the field was written or left out as the default. */
  lemma TextComesBack(t: map<nat, Field>, calls: seq<Call>, k: nat, r: seq<Octet>)
    requires Agreed(t, calls) && k < |calls| && calls[k].PutText? && AnswersText(AllInserted(calls), calls[k].f, r)
    requires CleanDefault(calls[k].f)
    ensures Callable(calls[k]) && r == Asked(calls[k])
  {
    hide AllInserted, StrCmp;
    var f := calls[k].f;
    OwnEntry(t, calls, k);
    SkippedSame(f, calls[k].mem, |Asked(calls[k])|);
    var index := AllInserted(calls);
    if Present(index, f.id) {
      var j :| 0 <= j < |index| && index[j].id == f.id && index[j].value == Stretch(r);
      assert index[j] in index;
    }
  }

  /**
   A text is left out exactly when the field is optional, the text is its default, and, but for bytes, the string it
   is taken from does not go on behind it.
   */
  lemma TextPresent(t: map<nat, Field>, calls: seq<Call>, k: nat)
    requires Agreed(t, calls) && k < |calls| && calls[k].PutText? && CleanDefault(calls[k].f)
    ensures Callable(calls[k])
    ensures Present(AllInserted(calls), calls[k].f.id) <==>
      !(calls[k].f.kind.Optional? && Asked(calls[k]) == calls[k].f.text
        && (calls[k].f.ptype.Bytes? || StrLen(calls[k].mem) <= |calls[k].f.text|))
  {
    hide AllInserted, StrCmp;
    OwnEntry(t, calls, k);
    SkippedSame(calls[k].f, calls[k].mem, |Asked(calls[k])|);
  }

  /** What is left out is the default for every text, exactly when the default is clean: strcmp stops at a NUL. */
  lemma CleanExactly(f: Field)
    requires f.ptype.Chars? && f.kind.Optional? && |f.text| < 0x7FFF_FFFF
    ensures CleanDefault(f) <==>
      forall v, len :: Callable(PutText(f, v, len)) && ItemsOf(PutText(f, v, len)) == [] ==> Asked(PutText(f, v, len)) == f.text
  {
    hide StrCmp;
    if CleanDefault(f) {
      forall v, len | Callable(PutText(f, v, len)) && ItemsOf(PutText(f, v, len)) == []
        ensures Asked(PutText(f, v, len)) == f.text
      {
        SkippedSame(f, v, TextLength(v, len));
      }
    } else {
      var v := Confused(f);
      assert Callable(PutText(f, v, |f.text|)) && ItemsOf(PutText(f, v, |f.text|)) == [];
    }
  }

  /** Memory that strcmp takes for the default, and that holds another text of its length. */
  lemma Confused(f: Field) returns (v: seq<Octet>)
    requires f.ptype.Chars? && f.kind.Optional? && !CleanDefault(f) && |f.text| < 0x7FFF_FFFF
    ensures |v| == |f.text| + 1 && v[|v| - 1] == 0 && |f.text| > 0
    ensures StrCmp(v, f.text) && v[..|f.text|] != f.text
  {
    hide StrLen;
    var n, d := |f.text|, f.text + [0];
    var q := StrLen(d);
    var p :| 0 <= p < n - 1 && f.text[p] == 0;
    assert d[p] == 0 && q <= p;
    v := d[n - 1 := if f.text[n - 1] == 0 then 1 else 0];
    StrLenAt(v, q);
    assert v[..q] == f.text[..q];
    assert v[..n][n - 1] != f.text[n - 1];
  }

  /** From one end to the other: the k-th call of a message, asked of the message that was read. */
  method Exchange(t: map<nat, Field>, calls: seq<Call>, k: nat, mem: nat -> Scratch) returns (r: LongLong)
    requires Agreed(t, calls) && k < |calls| && calls[k].PutInteger?
    ensures r.low == calls[k].v.low && (Wide(calls[k].f.ptype) ==> r.hi == calls[k].v.hi)
  {
    hide OpenFrom, AllItems, Entries, AllInserted, Flat, AnswersNumber, WellKept;
    var s := WriteAll(calls);
    MessageRead(t, calls, mem);
    var m := new RMessage(t);
    var ok := m.Load(s, mem);
    assert ok;
    assert Callable(calls[k]) && Known(t, calls[k].f);
    r := m.Integer(calls[k].f);
    NumberComesBack(t, calls, k, r);
  }
}
