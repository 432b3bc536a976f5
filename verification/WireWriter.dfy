/** wmessage.c: a message as it is written, and the repair of guessed length headers. */
module WireWriter {
  import opened Limbs
  import opened Varint

  const WMESSAGE_SIZE: nat := 64

  const WT_VARINT: nat := 0
  const WT_BIT64: nat := 1
  const WT_LEND: nat := 2
  const WT_BIT32: nat := 5

  datatype PType =
    | Int64 | UInt64 | Int32 | UInt32 | Enum | Bool | SInt32 | SInt64
    | Fixed64 | SFixed64 | Fixed32 | SFixed32
    | Chars | Bytes | Other

  datatype Label = Plain | Optional

  type FieldId = x: nat | x < 0x2000_0000

  datatype Field = Field(id: FieldId, ptype: PType, kind: Label, number: LongLong, text: seq<Octet>)

  // ---------------------------------------------------------------- what is written

  function Tag(id: FieldId, wt: nat): ULong
    requires wt < 8
  {
    id * 8 + wt
  }

  function Octets32(x: ULong): (s: seq<Octet>)
    ensures |s| == 4
  {
    [x % 0x100, x / 0x100 % 0x100, x / 0x1_0000 % 0x100, x / 0x100_0000]
  }

  function Octets64(v: LongLong): (s: seq<Octet>)
    ensures |s| == 8
  {
    Octets32(v.low) + Octets32(v.hi)
  }

  predicate VaryingType(t: PType)
  {
    t.Int64? || t.UInt64? || t.Int32? || t.UInt32? || t.Enum? || t.Bool? || t.SInt32? || t.SInt64?
  }

  /** The number a varint field carries. */
  function Code(t: PType, v: LongLong): ULLong
  {
    match t
    case Int64 => Join(v)
    case UInt64 => Join(v)
    case Int32 => Join(v)
    case SInt32 => Zigzag32(v.low)
    case SInt64 => Zigzag64(Join(v))
    case _ => v.low
  }

  /** An optional field that has its default value is not written. */
  predicate IsDefault(f: Field, v: LongLong)
  {
    f.kind.Optional? && v.low == f.number.low && (f.ptype.Enum? || v.hi == f.number.hi)
  }

  function NumberField(f: Field, v: LongLong): seq<Octet>
  {
    if VaryingType(f.ptype) then Encoded(Tag(f.id, WT_VARINT)) + Encoded(Code(f.ptype, v))
    else match f.ptype
      case Fixed64 => Encoded(Tag(f.id, WT_BIT64)) + Octets64(v)
      case SFixed64 => Encoded(Tag(f.id, WT_BIT64)) + Octets64(v)
      case Fixed32 => Encoded(Tag(f.id, WT_BIT32)) + Octets32(v.low)
      case SFixed32 => Encoded(Tag(f.id, WT_BIT32)) + Octets32(v.low)
      case _ => []
  }

  /** A field with a length in front. */
  function TextField(id: FieldId, s: seq<Octet>): seq<Octet>
  {
    Encoded(Tag(id, WT_LEND)) + (Encoded(|s|) + s)
  }

  /** A message writes the packed numbers of type int32 as those of uint32, without their high words. */
  function WrittenAs(t: PType): PType
  {
    if t.Int32? then UInt32 else t
  }

  /** The codes of a packed field. */
  function Payload(t: PType, data: seq<LongLong>): seq<Octet>
  {
    if data == [] then [] else Payload(t, data[..|data| - 1]) + Encoded(Code(t, data[|data| - 1]))
  }

  function Payload64(data: seq<LongLong>): seq<Octet>
  {
    if data == [] then [] else Payload64(data[..|data| - 1]) + Octets64(data[|data| - 1])
  }

  lemma {:induction false} PayloadBound(t: PType, data: seq<LongLong>)
    ensures |data| <= |Payload(t, data)| <= 10 * |data|
  {
    if data != [] {
      PayloadBound(t, data[..|data| - 1]);
      EncodedFits(Code(t, data[|data| - 1]));
    }
  }

  lemma {:induction false} Payload64Length(data: seq<LongLong>)
    ensures |Payload64(data)| == 8 * |data|
  {
    if data != [] {
      Payload64Length(data[..|data| - 1]);
    }
  }

  lemma PayloadSnoc(t: PType, data: seq<LongLong>, i: nat)
    requires i < |data|
    ensures Payload(t, data[..i + 1]) == Payload(t, data[..i]) + Encoded(Code(t, data[i]))
    ensures Payload64(data[..i + 1]) == Payload64(data[..i]) + Octets64(data[i])
  {
    assert data[..i + 1][..i] == data[..i];
  }

  // ---------------------------------------------------------------- buffers

  lemma PatchedAtEnd(b: seq<Octet>, n: nat, s: seq<Octet>)
    requires n + |s| <= |b|
    ensures |Patched(b, n, s)| == |b| && Patched(b, n, s)[..n + |s|] == b[..n] + s
  {
  }

  /** memmove */
  method MoveBytes(buffer: array<Octet>, dst: nat, src: nat, n: nat)
    requires dst + n <= buffer.Length && src + n <= buffer.Length
    modifies buffer
    ensures buffer[..] == Patched(old(buffer[..]), dst, old(buffer[..])[src..src + n])
  {
    forall i | 0 <= i < n {
      buffer[dst + i] := buffer[src + i];
    }
  }

  /** memcpy */
  method CopyBytes(buffer: array<Octet>, dst: nat, s: seq<Octet>)
    requires dst + |s| <= buffer.Length
    modifies buffer
    ensures buffer[..] == Patched(old(buffer[..]), dst, s)
  {
    forall i | 0 <= i < |s| {
      buffer[dst + i] := s[i];
    }
  }

  class WMessage {
    var buffer: array<Octet>
    var ptr: nat

    ghost predicate Valid()
      reads this
    {
      0 < buffer.Length && ptr <= buffer.Length
    }

    /** Everything written so far. */
    ghost function Data(): seq<Octet>
      reads this, buffer
      requires Valid()
    {
      buffer[..ptr]
    }

    /** _wmessage_new */
    constructor ()
      ensures Valid() && Data() == [] && fresh(buffer)
    {
      buffer := new Octet[WMESSAGE_SIZE];
      ptr := 0;
    }

    /** _expand_message: the buffer is doubled until sz more bytes fit. */
    method Expand(sz: nat)
      requires Valid()
      modifies this
      ensures Valid() && Data() == old(Data()) && ptr == old(ptr) && ptr + sz <= buffer.Length
      ensures buffer == old(buffer) || fresh(buffer)
    {
      if ptr + sz > buffer.Length {
        var cap := buffer.Length;
        var size := ptr + sz;
        cap := cap * 2;
        while size > cap
          invariant cap > 0 && cap >= buffer.Length
          decreases size - cap
        {
          cap := cap * 2;
        }
        var b := new Octet[cap];
        forall i | 0 <= i < ptr {
          b[i] := buffer[i];
        }
        assert b[..ptr] == buffer[..ptr];
        buffer := b;
      }
    }

    /** m->ptr += _pbcV_encode32(n, m->ptr) */
    method Put32(n: ULong)
      requires Valid() && ptr + 10 <= buffer.Length
      modifies this`ptr, buffer
      ensures Valid() && Data() == old(Data()) + Encoded(n) && ptr == old(ptr) + |Encoded(n)| <= old(ptr) + 5
    {
      hide Encoded, Patched;
      ghost var was := buffer[..];
      var len := Encode32(n, buffer, ptr);
      PatchedAtEnd(was, ptr, Encoded(n));
      assert buffer[..][..ptr + len] == buffer[..ptr + len] && was[..ptr] == buffer[..][..ptr];
      ptr := ptr + len;
    }

    method Put(n: ULLong)
      requires Valid() && ptr + 10 <= buffer.Length
      modifies this`ptr, buffer
      ensures Valid() && Data() == old(Data()) + Encoded(n) && ptr == old(ptr) + |Encoded(n)| <= old(ptr) + 10
    {
      hide Encoded, Patched;
      ghost var was := buffer[..];
      var len := Encode(n, buffer, ptr);
      PatchedAtEnd(was, ptr, Encoded(n));
      assert buffer[..][..ptr + len] == buffer[..ptr + len];
      ptr := ptr + len;
    }

    /** memcpy to the write pointer. */
    method PutBytes(s: seq<Octet>)
      requires Valid() && ptr + |s| <= buffer.Length
      modifies this`ptr, buffer
      ensures Valid() && Data() == old(Data()) + s && ptr == old(ptr) + |s|
    {
      ghost var was := buffer[..ptr];
      forall i | 0 <= i < |s| {
        buffer[ptr + i] := s[i];
      }
      ptr := ptr + |s|;
      assert buffer[..ptr] == was + s;
    }

    /** pbc_wmessage_integer, for a field that is not packed. */
    method Integer(f: Field, v: LongLong)
      requires Valid()
      modifies this, buffer
      ensures Valid() && (buffer == old(buffer) || fresh(buffer))
      ensures Data() == old(Data()) + if IsDefault(f, v) then [] else NumberField(f, v)
    {
      hide Encoded, Tag, Code, Octets32, Octets64;
      if f.kind.Optional? {
        if f.ptype.Enum? {
          if v.low == f.number.low {
            assert Data() + [] == Data();
            return;
          }
        } else if v.low == f.number.low && v.hi == f.number.hi {
          assert Data() + [] == Data();
          return;
        }
      }
      Expand(20);
      ghost var start := Data();
      match f.ptype {
        case Fixed64 => PutFixed(f.id, WT_BIT64, Octets64(v));
        case SFixed64 => PutFixed(f.id, WT_BIT64, Octets64(v));
        case Fixed32 => PutFixed(f.id, WT_BIT32, Octets32(v.low));
        case SFixed32 => PutFixed(f.id, WT_BIT32, Octets32(v.low));
        case Chars => assert start + [] == start;
        case Bytes => assert start + [] == start;
        case Other => assert start + [] == start;
        case _ => PutVarying(f, v);
      }
    }

    method PutFixed(id: FieldId, wt: nat, s: seq<Octet>)
      requires Valid() && ptr + 20 <= buffer.Length && |s| <= 8 && wt < 8
      modifies this`ptr, buffer
      ensures Valid() && Data() == old(Data()) + (Encoded(Tag(id, wt)) + s)
    {
      hide Encoded;
      Put32(Tag(id, wt));
      PutBytes(s);
      assert old(Data()) + Encoded(Tag(id, wt)) + s == old(Data()) + (Encoded(Tag(id, wt)) + s);
    }

    method PutVarying(f: Field, v: LongLong)
      requires Valid() && ptr + 20 <= buffer.Length && VaryingType(f.ptype)
      modifies this`ptr, buffer
      ensures Valid() && Data() == old(Data()) + NumberField(f, v)
    {
      hide Encoded, Zigzag32, Zigzag64, Join;
      ghost var tag := Encoded(Tag(f.id, WT_VARINT));
      Put32(Tag(f.id, WT_VARINT));
      if f.ptype.Int64? || f.ptype.UInt64? || f.ptype.Int32? {
        Put(Join(v));
      } else if f.ptype.SInt32? {
        Put32(Zigzag32(v.low));
      } else if f.ptype.SInt64? {
        Put(Zigzag64(Join(v)));
      } else {
        Put32(v.low);
      }
      assert old(Data()) + tag + Encoded(Code(f.ptype, v)) == old(Data()) + (tag + Encoded(Code(f.ptype, v)));
    }

    /** pbc_wmessage_string for strings and bytes: v is the memory at the pointer, up to a NUL at its end. */
    method Text(f: Field, v: seq<Octet>, len: int)
      requires Valid() && |v| > 0 && v[|v| - 1] == 0 && 0 <= TextLength(v, len) <= |v| && |v| < 0x8000_0000
      modifies this, buffer
      ensures Valid() && (buffer == old(buffer) || fresh(buffer))
      ensures var s := v[..TextLength(v, len)];
        Data() == old(Data()) + if SkipsText(f, v, |s|) || !(f.ptype.Chars? || f.ptype.Bytes?) then [] else TextField(f.id, s)
    {
      hide Encoded, StrLen;
      var n := if len <= 0 then StrLen(v) - len else len;
      assert Data() + [] == Data();
      if f.kind.Optional? {
        if f.ptype.Chars? {
          if n == |f.text| && StrCmp(v, f.text) {
            return;
          }
        } else if f.ptype.Bytes? {
          if n == 0 {
            return;
          }
        }
      }
      Expand(20);
      if f.ptype.Chars? || f.ptype.Bytes? {
        ghost var t, l := Encoded(Tag(f.id, WT_LEND)), Encoded(n);
        Put32(Tag(f.id, WT_LEND));
        Put32(n);
        Expand(n);
        PutBytes(v[..n]);
        assert old(Data()) + t + l + v[..n] == old(Data()) + (t + (l + v[..n]));
      }
    }

    /** _pack_packed_64 for integers. */
    method PackPacked64(data: seq<LongLong>)
      requires Valid() && 8 * |data| < 0x8000_0000
      modifies this, buffer
      ensures Valid() && (buffer == old(buffer) || fresh(buffer))
      ensures Data() == old(Data()) + (Encoded(8 * |data|) + Payload64(data))
    {
      hide Encoded, Octets64;
      var len := 8 * |data|;
      Expand(10 + len);
      Put32(len);
      ghost var start := Data();
      ghost var room := buffer;
      Payload64Length(data[..0]);
      assert data[..0] == [] && start + [] == start;
      for i := 0 to |data|
        invariant Valid() && buffer == room && ptr + 8 * (|data| - i) <= buffer.Length
        invariant Data() == start + Payload64(data[..i])
      {
        PayloadSnoc(Int64, data, i);
        PutBytes(Octets64(data[i]));
        assert start + Payload64(data[..i]) + Octets64(data[i]) == start + (Payload64(data[..i]) + Octets64(data[i]));
      }
      assert data[..|data|] == data;
      assert old(Data()) + Encoded(len) + Payload64(data) == old(Data()) + (Encoded(len) + Payload64(data));
    }

    method PutPacked(t: PType, v: LongLong)
      requires Valid() && ptr + 10 <= buffer.Length && VaryingType(t)
      modifies this`ptr, buffer
      ensures Valid() && Data() == old(Data()) + Encoded(Code(WrittenAs(t), v))
    {
      hide Encoded, Zigzag32, Zigzag64, Join;
      if t.Int64? || t.UInt64? {
        Put(Join(v));
      } else if t.SInt32? {
        Put32(Zigzag32(v.low));
      } else if t.SInt64? {
        Put(Zigzag64(Join(v)));
      } else {
        Put32(v.low);
      }
    }

    /** The loop over the numbers of _pack_packed_varint. */
    method PutPayload(t: PType, data: seq<LongLong>)
      requires Valid() && VaryingType(t)
      modifies this, buffer
      ensures Valid() && (buffer == old(buffer) || fresh(buffer))
      ensures Data() == old(Data()) + Payload(WrittenAs(t), data)
    {
      hide Encoded, Code, WrittenAs;
      ghost var u := WrittenAs(t);
      assert data[..0] == [] && old(Data()) + [] == old(Data());
      for i := 0 to |data|
        invariant Valid() && (buffer == old(buffer) || fresh(buffer))
        invariant Data() == old(Data()) + Payload(u, data[..i])
      {
        PayloadSnoc(u, data, i);
        Expand(10);
        PutPacked(t, data[i]);
        ghost var p, e := Payload(u, data[..i]), Encoded(Code(u, data[i]));
        assert old(Data()) + p + e == old(Data()) + (p + e);
      }
      assert data[..|data|] == data;
    }

    /**
     _pack_packed_varint: the length in front is guessed, and corrected in place afterwards, moving the
     payload when the guess took a different number of bytes.
     */
    method PackPackedVarint(t: PType, data: seq<LongLong>)
      requires Valid() && VaryingType(t) && 10 * |data| < 0x8000_0000
      modifies this, buffer
      ensures Valid() && (buffer == old(buffer) || fresh(buffer))
      ensures var p := Payload(WrittenAs(t), data); Data() == old(Data()) + (Encoded(|p|) + p)
    {
      hide Encoded, Payload, WrittenAs;
      ghost var payload := Payload(WrittenAs(t), data);
      var offset := ptr;
      var len := if t.Bool? then |data| else |data| * 2;
      Expand(10 + len);
      Put32(len);
      var lenLen := ptr - offset;
      PutPayload(t, data);
      PayloadBound(WrittenAs(t), data);
      var endLen := ptr - (offset + lenLen);
      if endLen != len {
        RepairHeader(offset, lenLen, endLen, old(Data()), Encoded(len), payload);
      }
      assert old(Data()) + Encoded(endLen) + payload == old(Data()) + (Encoded(endLen) + payload);
    }

    method RepairHeader(offset: nat, lenLen: nat, endLen: nat, ghost front: seq<Octet>, ghost guess: seq<Octet>,
                        ghost payload: seq<Octet>)
      requires Valid() && Data() == front + guess + payload && |front| == offset && |guess| == lenLen
      requires |payload| == endLen < 0x8000_0000
      modifies this, buffer
      ensures Valid() && (buffer == old(buffer) || fresh(buffer))
      ensures Data() == front + Encoded(endLen) + payload
    {
      hide Encoded, Patched, Spaced;
      var temp := EncodeAside(endLen);
      if |temp| != lenLen {
        MovePayload(offset, lenLen, |temp|, endLen, front, guess, payload);
      } else {
        assert buffer[..][..ptr] == buffer[..ptr];
        NotMoved(buffer[..], ptr, front, guess, payload);
      }
      ghost var moved := buffer[..];
      SpacedRoom(moved, front, |temp|, payload);
      CopyBytes(buffer, offset, temp);
      HeaderFirst(moved, front, temp, payload);
      assert buffer[..ptr] == buffer[..][..ptr];
    }

    /** The payload moves to where a header of another size leaves it. */
    method MovePayload(offset: nat, lenLen: nat, endLenLen: nat, endLen: nat, ghost front: seq<Octet>,
                       ghost guess: seq<Octet>, ghost payload: seq<Octet>)
      requires Valid() && Data() == front + guess + payload && |front| == offset && |guess| == lenLen
      requires |payload| == endLen
      modifies this, buffer
      ensures Valid() && (buffer == old(buffer) || fresh(buffer))
      ensures ptr == offset + endLenLen + endLen && Spaced(buffer[..], front, endLenLen, payload)
    {
      hide Patched, Spaced;
      Expand(endLenLen);
      ghost var was := buffer[..];
      assert was[..ptr] == buffer[..ptr] == front + guess + payload;
      MoveBytes(buffer, offset + endLenLen, offset + lenLen, endLen);
      ptr := ptr + endLenLen - lenLen;
      MovedPayload(was, front, guess, payload, endLenLen);
    }

    /** _pack_packed for the kinds of numbers modelled. */
    method PackPacked(p: PackedField)
      requires Valid() && WellFormed(p)
      modifies this, buffer
      ensures Valid() && (buffer == old(buffer) || fresh(buffer))
      ensures Data() == old(Data()) + TextField(p.id, PackedPayload(p))
    {
      hide Encoded, Payload, Payload64;
      Expand(10);
      ghost var tag := Encoded(Tag(p.id, WT_LEND));
      Put32(Tag(p.id, WT_LEND));
      if p.ptype.Fixed64? || p.ptype.SFixed64? {
        PackPacked64(p.data);
        Payload64Length(p.data);
      } else {
        PackPackedVarint(p.ptype, p.data);
      }
      ghost var block := Encoded(|PackedPayload(p)|) + PackedPayload(p);
      assert old(Data()) + tag + block == old(Data()) + (tag + block);
    }

    /** The packed fields, one after the other. */
    method PackAll(packed: seq<PackedField>)
      requires Valid() && forall p <- packed :: WellFormed(p)
      modifies this, buffer
      ensures Valid() && (buffer == old(buffer) || fresh(buffer))
      ensures Data() == old(Data()) + PackedBytes(packed)
    {
      hide TextField, PackedPayload, WellFormed, PackedBytes;
      NoPacked();
      assert packed[..0] == [] && old(Data()) + [] == old(Data());
      for i := 0 to |packed|
        invariant Valid() && (buffer == old(buffer) || fresh(buffer))
        invariant Data() == old(Data()) + PackedBytes(packed[..i])
      {
        PackedSnoc(packed, i);
        PackPacked(packed[i]);
        ghost var a, b := PackedBytes(packed[..i]), TextField(packed[i].id, PackedPayload(packed[i]));
        assert old(Data()) + a + b == old(Data()) + (a + b);
      }
      assert packed[..|packed|] == packed;
    }

    /** The submessages, one after the other. */
    method PutSubs(subs: seq<SubMessage>)
      requires Valid() && forall m <- subs :: |m.bytes| < 0x8000_0000
      modifies this, buffer
      ensures Valid() && (buffer == old(buffer) || fresh(buffer))
      ensures Data() == old(Data()) + SubBytes(subs)
    {
      hide TextField, SubBytes;
      NoPacked();
      assert subs[..0] == [] && old(Data()) + [] == old(Data());
      for i := 0 to |subs|
        invariant Valid() && (buffer == old(buffer) || fresh(buffer))
        invariant Data() == old(Data()) + SubBytes(subs[..i])
      {
        SubSnoc(subs, i);
        var m := subs[i];
        PutSub(m);
        ghost var a, b := SubBytes(subs[..i]), TextField(m.id, m.bytes);
        assert old(Data()) + a + b == old(Data()) + (a + b);
      }
      assert subs[..|subs|] == subs;
    }

    /** pbc_wmessage_buffer, the submessages having been finished already. */
    method Finish(packed: seq<PackedField>, subs: seq<SubMessage>) returns (slice: seq<Octet>)
      requires Valid() && (forall p <- packed :: WellFormed(p)) && (forall m <- subs :: |m.bytes| < 0x8000_0000)
      modifies this, buffer
      ensures Valid() && slice == Data() == old(Data()) + (PackedBytes(packed) + SubBytes(subs))
    {
      hide PackedBytes, SubBytes;
      PackAll(packed);
      PutSubs(subs);
      ghost var a, b := PackedBytes(packed), SubBytes(subs);
      assert old(Data()) + a + b == old(Data()) + (a + b);
      slice := buffer[..ptr];
    }

    method PutSub(m: SubMessage)
      requires Valid() && |m.bytes| < 0x8000_0000
      modifies this, buffer
      ensures Valid() && (buffer == old(buffer) || fresh(buffer))
      ensures Data() == old(Data()) + TextField(m.id, m.bytes)
    {
      hide Encoded;
      Expand(20 + |m.bytes|);
      ghost var t, l := Encoded(Tag(m.id, WT_LEND)), Encoded(|m.bytes|);
      Put32(Tag(m.id, WT_LEND));
      Put32(|m.bytes|);
      PutBytes(m.bytes);
      assert old(Data()) + t + l + m.bytes == old(Data()) + (t + (l + m.bytes));
    }
  }

  /** An encoding in a temporary of ten bytes. */
  method EncodeAside(n: ULong) returns (temp: seq<Octet>)
    ensures temp == Encoded(n) && |temp| <= 5
  {
    hide Encoded, Patched;
    var b := new Octet[10];
    ghost var was := b[..];
    var len := Encode32(n, b, 0);
    HeaderAlone(was, b[..], Encoded(n));
    temp := b[..len];
    assert b[..][..len] == b[..len];
  }

  lemma HeaderAlone(was: seq<Octet>, b: seq<Octet>, s: seq<Octet>)
    requires |s| <= |was| && b == Patched(was, 0, s)
    ensures |s| <= |b| && b[..|s|] == s
  {
  }

  /** front and payload in place, h bytes apart. */
  ghost predicate Spaced(b: seq<Octet>, front: seq<Octet>, h: nat, payload: seq<Octet>)
  {
    && |front| + h + |payload| <= |b| && b[..|front|] == front
    && b[|front| + h..|front| + h + |payload|] == payload
  }

  lemma MovedPayload(was: seq<Octet>, front: seq<Octet>, guess: seq<Octet>, payload: seq<Octet>, h: nat)
    requires |front| + |guess| + |payload| <= |was| && |front| + h + |payload| <= |was|
    requires was[..|front| + |guess| + |payload|] == front + guess + payload
    ensures var src := |front| + |guess|;
      Spaced(Patched(was, |front| + h, was[src..src + |payload|]), front, h, payload)
  {
    var src := |front| + |guess|;
    assert was[src..src + |payload|] == (front + guess + payload)[src..] == payload;
    assert was[..|front|] == (front + guess + payload)[..|front|] == front;
    var b := Patched(was, |front| + h, payload);
    assert b[..|front|] == was[..|front|];
  }

  lemma SpacedRoom(b: seq<Octet>, front: seq<Octet>, h: nat, payload: seq<Octet>)
    requires Spaced(b, front, h, payload)
    ensures |front| + h + |payload| <= |b|
  {
  }

  lemma NotMoved(b: seq<Octet>, n: nat, front: seq<Octet>, guess: seq<Octet>, payload: seq<Octet>)
    requires n <= |b| && b[..n] == front + guess + payload
    ensures Spaced(b, front, |guess|, payload)
  {
    assert b[..|front|] == b[..n][..|front|];
    assert b[|front| + |guess|..n] == b[..n][|front| + |guess|..];
  }

  lemma HeaderFirst(b: seq<Octet>, front: seq<Octet>, header: seq<Octet>, payload: seq<Octet>)
    requires Spaced(b, front, |header|, payload)
    ensures Patched(b, |front|, header)[..|front| + |header| + |payload|] == front + header + payload
  {
    var t := Patched(b, |front|, header);
    assert t[|front| + |header|..|front| + |header| + |payload|] == payload;
  }

  /** strlen of memory that ends with a NUL. */
  function StrLen(v: seq<Octet>): (n: nat)
    requires |v| > 0 && v[|v| - 1] == 0
    ensures n < |v| && v[n] == 0 && forall i :: 0 <= i < n ==> v[i] != 0
  {
    if v[0] == 0 then 0 else 1 + StrLen(v[1..])
  }

  /** strcmp(v, d) == 0 */
  predicate StrCmp(v: seq<Octet>, d: seq<Octet>)
    requires |v| > 0 && v[|v| - 1] == 0
  {
    v[..StrLen(v)] == d[..StrLen(d + [0])]
  }

  /** A length of 0 or less asks for strlen, and for -len bytes more. */
  function TextLength(v: seq<Octet>, len: int): int
    requires |v| > 0 && v[|v| - 1] == 0
  {
    if len <= 0 then StrLen(v) - len else len
  }

  predicate SkipsText(f: Field, v: seq<Octet>, n: nat)
    requires |v| > 0 && v[|v| - 1] == 0
  {
    f.kind.Optional? && ((f.ptype.Chars? && n == |f.text| && StrCmp(v, f.text)) || (f.ptype.Bytes? && n == 0))
  }

  /** struct _packed: numbers collected for a packed field. */
  datatype PackedField = PackedField(id: FieldId, ptype: PType, data: seq<LongLong>)

  /** A submessage that has been finished. */
  datatype SubMessage = SubMessage(id: FieldId, bytes: seq<Octet>)

  predicate WellFormed(p: PackedField)
  {
    (VaryingType(p.ptype) || p.ptype.Fixed64? || p.ptype.SFixed64?) && 10 * |p.data| < 0x8000_0000
  }

  function PackedPayload(p: PackedField): seq<Octet>
  {
    if VaryingType(p.ptype) then Payload(WrittenAs(p.ptype), p.data) else Payload64(p.data)
  }

  function PackedBytes(packed: seq<PackedField>): seq<Octet>
  {
    if packed == [] then []
    else
      var p := packed[|packed| - 1];
      PackedBytes(packed[..|packed| - 1]) + TextField(p.id, PackedPayload(p))
  }

  function SubBytes(subs: seq<SubMessage>): seq<Octet>
  {
    if subs == [] then []
    else
      var m := subs[|subs| - 1];
      SubBytes(subs[..|subs| - 1]) + TextField(m.id, m.bytes)
  }

  lemma NoPacked()
    ensures PackedBytes([]) == [] && SubBytes([]) == []
  {
  }

  lemma PackedSnoc(packed: seq<PackedField>, i: nat)
    requires i < |packed|
    ensures PackedBytes(packed[..i + 1]) == PackedBytes(packed[..i]) + TextField(packed[i].id, PackedPayload(packed[i]))
  {
    assert packed[..i + 1][..i] == packed[..i];
  }

  lemma SubSnoc(subs: seq<SubMessage>, i: nat)
    requires i < |subs|
    ensures SubBytes(subs[..i + 1]) == SubBytes(subs[..i]) + TextField(subs[i].id, subs[i].bytes)
  {
    assert subs[..i + 1][..i] == subs[..i];
  }
}
