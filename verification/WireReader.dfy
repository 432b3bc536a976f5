/** context.c and the unpacking of packed fields in pattern.c: the fields of a finished message. */
module WireReader {
  import opened Limbs
  import opened Varint
  import opened WireWriter

  // ---------------------------------------------------------------- one field

  /** struct atom: a number, or the stretch of the buffer a length-delimited field takes. */
  datatype Atom = Number(tag: ULong, v: LongLong) | Slice(tag: ULong, start: nat, end: nat)

  /** Refused is the NULL of wiretype_decode; Overrun means a length that wraps round 32 bits and passes the check. */
  datatype Wire = Refused | Overrun | Found(a: Atom, next: nat)

  /** The ten bytes of temp; their first content is whatever lies in memory. */
  type Scratch = t: seq<Octet> | |t| == 10 witness [0, 0, 0, 0, 0, 0, 0, 0, 0, 0]

  /** temp after a number at i has been read: what was there, with the last bytes copied over it when fewer than ten remain. */
  function Left(s: seq<Octet>, i: nat, temp: Scratch): Scratch
    requires i <= |s|
  {
    if i + 10 <= |s| then temp else s[i..] + temp[|s| - i..]
  }

  /** The number the decoder sees at i. */
  function Seen(s: seq<Octet>, i: nat, temp: Scratch): Var
    requires i <= |s|
  {
    if i + 10 <= |s| then Read(s, i) else Read(Left(s, i, temp), 0)
  }

  function Word32At(s: seq<Octet>, i: nat): ULong
    requires i + 4 <= |s|
  {
    s[i] as int + s[i + 1] as int * 0x100 + s[i + 2] as int * 0x1_0000 + s[i + 3] as int * 0x100_0000
  }

  /** One field at i, with the memory temp finds. */
  function WireAt(s: seq<Octet>, i: nat, temp: Scratch): (w: Wire)
    requires i <= |s|
    ensures w.Found? ==> i < w.next <= |s|
  {
    var t := Read(s, i);
    if t.Cut? || DecodedValue(t) >= 0x1_0000_0000 then Refused
    else BodyAt(s, i + DecodedLength(t), DecodedValue(t), Left(s, i, temp))
  }

  /** What follows a tag. */
  function BodyAt(s: seq<Octet>, j: nat, tag: ULong, temp: Scratch): (w: Wire)
    requires j <= |s|
    ensures w.Found? ==> j < w.next <= |s|
  {
    var cap := |s| - j;
    if tag % 8 == WT_VARINT then
      var v := Read(s, j);
      if v.Cut? then Refused else Found(Number(tag, Halves(DecodedValue(v))), j + DecodedLength(v))
    else if tag % 8 == WT_BIT64 then
      if cap < 8 then Refused else Found(Number(tag, LongLong(Word32At(s, j), Word32At(s, j + 4))), j + 8)
    else if tag % 8 == WT_LEND then
      LengthAt(s, j, tag, temp)
    else if tag % 8 == WT_BIT32 then
      if cap < 4 then Refused else Found(Number(tag, LongLong(Word32At(s, j), 0)), j + 4)
    else Refused
  }

  /** A length and the stretch behind it; whether the length itself was cut short is not asked. */
  function LengthAt(s: seq<Octet>, j: nat, tag: ULong, temp: Scratch): (w: Wire)
    requires j <= |s|
    ensures w.Found? ==> j < w.next <= |s|
  {
    var v := Seen(s, j, temp);
    var n := DecodedValue(v);
    var start := j + DecodedLength(v);
    SeenLength(s, j, temp);
    if n >= 0x1_0000_0000 || |s| - j < (DecodedLength(v) + n) % 0x1_0000_0000 then Refused
    else if start + n > |s| then Overrun
    else Found(Slice(tag, start, start + n), start + n)
  }

  /** The field at i is a length, found at j with temp holding what the tag has left there. */
  predicate Delimited(s: seq<Octet>, i: nat, j: nat)
    requires i <= |s|
  {
    var t := Read(s, i);
    !t.Cut? && DecodedValue(t) < 0x1_0000_0000 && DecodedValue(t) % 8 == WT_LEND && j == i + DecodedLength(t)
  }

  lemma DelimitedBody(s: seq<Octet>, i: nat, j: nat, temp: Scratch)
    requires i <= |s| && Delimited(s, i, j)
    ensures j <= |s| && WireAt(s, i, temp) == LengthAt(s, j, DecodedValue(Read(s, i)), Left(s, i, temp))
  {
  }

  /**
   The bounds check lets a field past the end of the buffer exactly when the length is within ten of 2^32 and what is
   left of the sum fits. A complete length is read from the buffer alone; one that the end of the buffer cuts is made
   up from the bytes the tag left in temp and from the memory behind them.
   */
  lemma OverrunExactly(s: seq<Octet>, i: nat, j: nat, temp: Scratch)
    requires i <= |s| && Delimited(s, i, j)
    ensures j <= |s|
    ensures !Read(s, j).Cut? ==>
      (WireAt(s, i, temp).Overrun? <==> WrapsWithin(Read(s, j), |s| - j))
    ensures Read(s, j).Cut? ==>
      (WireAt(s, i, temp).Overrun? <==> WrapsWithin(Read(s[j..] + Left(s, i, temp)[|s| - j..], 0), |s| - j))
  {
    hide Read;
    DelimitedBody(s, i, j, temp);
    SeenCases(s, j, Left(s, i, temp));
    SeenLength(s, j, Left(s, i, temp));
    WrapArithmetic(DecodedLength(Seen(s, j, Left(s, i, temp))), DecodedValue(Seen(s, j, Left(s, i, temp))), |s| - j);
  }

  /** A length of 32 bits that wraps round when its own bytes are added, to something not above cap. */
  predicate WrapsWithin(v: Var, cap: nat)
  {
    var n := DecodedLength(v) + DecodedValue(v);
    DecodedValue(v) < 0x1_0000_0000 <= n && n - 0x1_0000_0000 <= cap < n
  }

  lemma WrapArithmetic(len: nat, n: nat, cap: nat)
    requires len <= 10
    ensures n < 0x1_0000_0000 && (len + n) % 0x1_0000_0000 <= cap < len + n
      <==> n < 0x1_0000_0000 <= len + n && len + n - 0x1_0000_0000 <= cap < len + n
  {
  }

  /** A field that is found is found whatever lay in memory. */
  lemma FoundAlone(s: seq<Octet>, i: nat, temp: Scratch, other: Scratch)
    requires i <= |s| && WireAt(s, i, temp).Found?
    ensures WireAt(s, i, other) == WireAt(s, i, temp)
  {
    hide Read;
    var t := Read(s, i);
    if DecodedValue(t) % 8 == WT_LEND {
      SeenCases(s, i + DecodedLength(t), Left(s, i, temp));
      SeenCases(s, i + DecodedLength(t), Left(s, i, other));
    }
  }

  /** In either case the number has at most ten bytes, and the buffer's own number when that is complete. */
  lemma SeenCases(s: seq<Octet>, i: nat, temp: Scratch)
    requires i <= |s|
    ensures Read(s, i).Cut? <==> DecodedLength(Seen(s, i, temp)) > |s| - i
    ensures !Read(s, i).Cut? ==> Seen(s, i, temp) == Read(s, i)
    ensures Read(s, i).Cut? ==> i + 10 > |s| && Seen(s, i, temp) == Read(s[i..] + temp[|s| - i..], 0)
  {
    hide Read;
    if i + 10 <= |s| {
      AlwaysReadable(s, i);
      SeenLength(s, i, temp);
    } else {
      ReadTemp(s, i, Left(s, i, temp));
    }
  }

  lemma SeenLength(s: seq<Octet>, i: nat, temp: Scratch)
    requires i <= |s|
    ensures !Seen(s, i, temp).Cut? && 0 < DecodedLength(Seen(s, i, temp)) <= 10
  {
    if i + 10 <= |s| {
      TenSuffice(s, i, 0);
    } else {
      NeverCut(Left(s, i, temp), 0);
    }
  }

  /** Nine bytes whose length is cut after four and ended by the last byte of the tag: always accepted, in a buffer of nine. */
  lemma TagEndsLength(temp: Scratch)
    ensures WireAt([0xFA, 0xFF, 0xFF, 0xFF, 0x0F, 0xFC, 0xFF, 0xFF, 0xFF], 0, temp).Overrun?
  {
    hide Read, DecodedValue, DecodedLength, Pow, Encoded;
    var s: seq<Octet> := [0xFA, 0xFF, 0xFF, 0xFF, 0x0F, 0xFC, 0xFF, 0xFF, 0xFF];
    FiveBytes(s, 0);
    var left := Left(s, 0, temp);
    var seen := Left(s, 5, left);
    assert left[4] == 0x0F && seen[..4] == s[5..] && seen[4] == left[4];
    FiveBytes(seen, 0);
    assert Seen(s, 5, left) == Read(seen, 0);
  }

  /** Groups of seven bits, four of them continued. */
  lemma FiveBytes(s: seq<Octet>, i: nat)
    requires i + 5 <= |s| && s[i + 4] < 128
    requires s[i] >= 128 && s[i + 1] >= 128 && s[i + 2] >= 128 && s[i + 3] >= 128
    ensures var v := Read(s, i);
      v.Got? && DecodedLength(v) == 5
      && DecodedValue(v) == Groups(s[i] as int - 128, s[i + 1] as int - 128, s[i + 2] as int - 128, s[i + 3] as int - 128, s[i + 4] as int)
  {
    hide ReadFrom;
    ContinuedGroup(s, i, 3);
    ContinuedGroup(s, i, 2);
    ContinuedGroup(s, i, 1);
    ContinuedGroup(s, i, 0);
    ReadStep(s, i, 4);
    GroupsBound(s[i] as int - 128, s[i + 1] as int - 128, s[i + 2] as int - 128, s[i + 3] as int - 128, s[i + 4] as int);
  }

  lemma ContinuedGroup(s: seq<Octet>, i: nat, j: nat)
    requires j < 10 && i + j < |s| && s[i + j] >= 128
    ensures var v, w := ReadFrom(s, i, j), ReadFrom(s, i, j + 1);
      w.Got? ==> v == Got(s[i + j] as int - 128 + 128 * w.n, w.len)
  {
  }

  function Groups(a: int, b: int, c: int, d: int, e: int): int
  {
    a + 128 * (b + 128 * (c + 128 * (d + 128 * e)))
  }

  lemma GroupsBound(a: int, b: int, c: int, d: int, e: int)
    requires 0 <= a < 128 && 0 <= b < 128 && 0 <= c < 128 && 0 <= d < 128 && 0 <= e < 128
    ensures 0 <= Groups(a, b, c, d, e) < 0x8_0000_0000 && Groups(a, b, c, d, e) % 0x1_0000_0000_0000_0000 == Groups(a, b, c, d, e)
  {
  }

  /** memcpy(temp, buffer, cap): the bytes of temp behind the copied ones are whatever they were. */
  lemma {:induction false} TempAlike(s: seq<Octet>, i: nat, temp: seq<Octet>, j: nat)
    requires i <= |s| < i + 10 && |temp| == 10 && temp[..|s| - i] == s[i..] && j <= |s| - i
    ensures var v, w := ReadFrom(s, i, j), ReadFrom(temp, 0, j);
      !w.Cut? && (if v.Cut? then DecodedLength(w) > |s| - i else v == w)
    decreases 10 - j
  {
    if i + j < |s| {
      assert temp[j] == temp[..|s| - i][j] == s[i..][j] == s[i + j];
      TempAlike(s, i, temp, j + 1);
    } else {
      NeverCut(temp, j);
    }
  }

  lemma {:induction false} NeverCut(temp: seq<Octet>, j: nat)
    requires |temp| == 10 && j <= 10
    ensures var w := ReadFrom(temp, 0, j); !w.Cut? && (w.Got? ==> w.len > j)
    decreases 10 - j
  {
    if j < 10 {
      NeverCut(temp, j + 1);
    }
  }

  lemma {:induction false} TenSuffice(s: seq<Octet>, i: nat, j: nat)
    requires i + 10 <= |s| && j <= 10
    ensures !ReadFrom(s, i, j).Cut?
    decreases 10 - j
  {
    if j < 10 {
      TenSuffice(s, i, j + 1);
    }
  }

  lemma AlwaysReadable(s: seq<Octet>, i: nat)
    requires i + 10 <= |s|
    ensures Readable(s, i) && !Read(s, i).Cut?
  {
    TenSuffice(s, i, 0);
  }

  lemma ReadTemp(s: seq<Octet>, i: nat, temp: seq<Octet>)
    requires i <= |s| < i + 10 && |temp| == 10 && temp[..|s| - i] == s[i..]
    ensures Readable(temp, 0)
    ensures Read(s, i).Cut? <==> DecodedLength(Read(temp, 0)) > |s| - i
    ensures !Read(s, i).Cut? ==> Read(temp, 0) == Read(s, i)
  {
    TempAlike(s, i, temp, 0);
    NotOverlong(s, i, 0);
  }

  lemma {:induction false} NotOverlong(s: seq<Octet>, i: nat, j: nat)
    requires i <= |s| < i + 10 && j <= 10
    ensures !ReadFrom(s, i, j).Overlong?
  {
  }

  /** A number at i, read by way of temp when fewer than ten bytes remain. */
  method DecodeVia(s: seq<Octet>, i: nat, stale: Scratch) returns (r: LongLong, len: nat, temp: Scratch)
    requires i <= |s|
    ensures temp == Left(s, i, stale)
    ensures Join(r) == DecodedValue(Seen(s, i, stale)) && len == DecodedLength(Seen(s, i, stale))
    ensures Read(s, i).Cut? <==> len > |s| - i
    ensures !Read(s, i).Cut? ==> Seen(s, i, stale) == Read(s, i)
  {
    hide Read, Join, Readable;
    SeenCases(s, i, stale);
    var cap := |s| - i;
    if cap >= 10 {
      AlwaysReadable(s, i);
      temp := stale;
      r, len := Decode(s, i);
    } else {
      temp := s[i..] + stale[cap..];
      ReadTemp(s, i, temp);
      r, len := Decode(temp, 0);
    }
  }

  /** wiretype_decode; stale is the memory temp finds. */
  method WiretypeDecode(s: seq<Octet>, i: nat, stale: Scratch) returns (w: Wire)
    requires i <= |s|
    ensures w == WireAt(s, i, stale)
  {
    hide Read, Join, Word32At, Left, Seen;
    var r, len, temp := DecodeVia(s, i, stale);
    WholeWord(r);
    if len > |s| - i || r.hi != 0 {
      return Refused;
    }
    var tag := r.low;
    var j := i + len;
    var cap := |s| - j;
    if tag % 8 == WT_VARINT {
      r, len, temp := DecodeVia(s, j, temp);
      if cap < len {
        return Refused;
      }
      JoinUnique(r, Join(r));
      return Found(Number(tag, r), j + len);
    } else if tag % 8 == WT_BIT64 {
      if cap < 8 {
        return Refused;
      }
      return Found(Number(tag, LongLong(Word32At(s, j), Word32At(s, j + 4))), j + 8);
    } else if tag % 8 == WT_LEND {
      r, len, temp := DecodeVia(s, j, temp);
      WholeWord(r);
      if cap < (len + r.low) % 0x1_0000_0000 || r.hi != 0 {
        return Refused;
      }
      if cap < len + r.low {
        return Overrun;
      }
      return Found(Slice(tag, j + len, j + len + r.low), j + len + r.low);
    } else if tag % 8 == WT_BIT32 {
      if cap < 4 {
        return Refused;
      }
      return Found(Number(tag, LongLong(Word32At(s, j), 0)), j + 4);
    }
    return Refused;
  }

  lemma WholeWord(r: LongLong)
    ensures r.hi == 0 <==> Join(r) < 0x1_0000_0000
    ensures r.hi == 0 ==> Join(r) == r.low
  {
  }

  // ---------------------------------------------------------------- all fields

  datatype Opened = Atoms(atoms: seq<Atom>) | Failed(at: nat) | Lost

  /** The fields from i on; mem(k) is the memory temp finds when the field at k is read. */
  function OpenFrom(s: seq<Octet>, i: nat, got: seq<Atom>, mem: nat -> Scratch): Opened
    requires i <= |s|
    decreases |s| - i
  {
    if i == |s| then Atoms(got)
    else match WireAt(s, i, mem(i))
      case Refused => Failed(|got|)
      case Overrun => Lost
      case Found(a, next) => OpenFrom(s, next, got + [a], mem)
  }

  lemma OpenStep(s: seq<Octet>, i: nat, got: seq<Atom>, mem: nat -> Scratch)
    requires i < |s|
    ensures var w := WireAt(s, i, mem(i));
      OpenFrom(s, i, got, mem)
      == if w.Refused? then Failed(|got|) else if w.Overrun? then Lost else OpenFrom(s, w.next, got + [w.a], mem)
  {
  }

  /** A message that opens with one content of memory opens to the same atoms with every other. */
  lemma {:induction false} OpenAlone(s: seq<Octet>, i: nat, got: seq<Atom>, mem: nat -> Scratch, other: nat -> Scratch)
    requires i <= |s| && OpenFrom(s, i, got, mem).Atoms?
    ensures OpenFrom(s, i, got, other) == OpenFrom(s, i, got, mem)
    decreases |s| - i
  {
    hide WireAt, OpenFrom;
    if i < |s| {
      OpenStep(s, i, got, mem);
      OpenStep(s, i, got, other);
      var w := WireAt(s, i, mem(i));
      if w.Found? {
        FoundAlone(s, i, mem(i), other(i));
        OpenAlone(s, w.next, got + [w.a], mem, other);
      }
    } else {
      OpenEnd(s, got, mem);
      OpenEnd(s, got, other);
    }
  }

  /** (PBC_CONTEXT_CAP - sizeof(struct context)) / sizeof(struct atom) */
  const INNER_ATOM: nat := 19

  lemma AppendAtom(a: seq<Atom>, i: nat, x: Atom)
    requires i < |a|
    ensures a[i := x][..i + 1] == a[..i] + [x]
  {
  }

  /** struct context: the first atoms lie in the context itself, and all of them elsewhere when they are more. */
  class Context {
    const inner: array<Atom>
    var a: array<Atom>
    var number: int

    ghost predicate Valid()
      reads this
    {
      inner.Length == INNER_ATOM
    }

    constructor ()
      ensures Valid() && fresh(inner)
    {
      inner := new Atom[INNER_ATOM](_ => Number(0, LongLong(0, 0)));
      a, number := inner, 0;
    }

    /** The fields that fit in the context; why is Refused or Overrun when one of them cannot be read. */
    method FillInner(s: seq<Octet>, mem: nat -> Scratch) returns (i: nat, start: nat, why: Wire)
      requires Valid()
      modifies inner
      ensures i <= INNER_ATOM && start <= |s|
      ensures why.Found? ==> OpenFrom(s, 0, [], mem) == OpenFrom(s, start, inner[..i], mem) && (start == |s| || i == INNER_ATOM)
      ensures why.Refused? ==> OpenFrom(s, 0, [], mem) == Failed(i)
      ensures why.Overrun? ==> OpenFrom(s, 0, [], mem) == Lost
    {
      hide WireAt, OpenFrom;
      i, start := 0, 0;
      why := Found(Number(0, LongLong(0, 0)), 0);
      assert inner[..0] == [];
      while i < INNER_ATOM
        invariant i <= INNER_ATOM && start <= |s| && why.Found?
        invariant OpenFrom(s, 0, [], mem) == OpenFrom(s, start, inner[..i], mem)
      {
        if start == |s| {
          break;
        }
        OpenStep(s, start, inner[..i], mem);
        var w := WiretypeDecode(s, start, mem(start));
        if !w.Found? {
          why := w;
          return;
        }
        AppendAtom(inner[..], i, w.a);
        ghost var was := inner[..i];
        inner[i] := w.a;
        assert inner[..i + 1] == was + [w.a];
        start, i := w.next, i + 1;
      }
    }

    /** The others, in an array that grows by 64 at a time; the first ones are copied last. */
    method Spill(s: seq<Octet>, start0: nat, mem: nat -> Scratch) returns (i: nat, why: Wire)
      requires Valid() && start0 < |s|
      modifies this
      ensures Valid() && fresh(a)
      ensures why.Found? ==> i <= a.Length && OpenFrom(s, start0, inner[..], mem) == Atoms(a[..i])
      ensures why.Refused? ==> OpenFrom(s, start0, inner[..], mem) == Failed(i)
      ensures why.Overrun? ==> OpenFrom(s, start0, inner[..], mem) == Lost
    {
      hide WireAt, OpenFrom;
      var start := start0;
      ghost var first := inner[..];
      i := INNER_ATOM;
      a := new Atom[64](_ => Number(0, LongLong(0, 0)));
      why := Found(Number(0, LongLong(0, 0)), 0);
      assert first + a[INNER_ATOM..i] == first;
      while start < |s|
        invariant Valid() && fresh(a) && INNER_ATOM <= i <= a.Length && start <= |s| && why.Found?
        invariant inner[..] == first && OpenFrom(s, start0, first, mem) == OpenFrom(s, start, first + a[INNER_ATOM..i], mem)
        decreases |s| - start, i - a.Length
      {
        if i >= a.Length {
          ghost var spilt, tail := a[..], a[INNER_ATOM..i];
          assert spilt[INNER_ATOM..] == tail;
          Grow();
          assert a[..i] == spilt && a[INNER_ATOM..i] == a[..i][INNER_ATOM..] == tail;
          continue;
        }
        ghost var got := first + a[INNER_ATOM..i];
        OpenStep(s, start, got, mem);
        var w := WiretypeDecode(s, start, mem(start));
        if !w.Found? {
          why := w;
          return;
        }
        a[i] := w.a;
        assert first + a[INNER_ATOM..i + 1] == got + [w.a];
        start, i := w.next, i + 1;
      }
      ghost var rest := a[INNER_ATOM..i];
      OpenEnd(s, first + rest, mem);
      forall k | 0 <= k < INNER_ATOM {
        a[k] := inner[k];
      }
      assert inner[..] == first && a[..i] == first + rest;
    }

    /** realloc with room for 64 more. */
    method Grow()
      requires Valid()
      modifies this
      ensures Valid() && fresh(a) && a.Length == old(a.Length) + 64 && a[..old(a.Length)] == old(a[..])
    {
      var b := new Atom[a.Length + 64](_ => Number(0, LongLong(0, 0)));
      forall k | 0 <= k < a.Length {
        b[k] := a[k];
      }
      a := b;
    }

    /** _pbcC_open: the number of fields, or minus the number of those before the first that cannot be read. */
    method Open(s: seq<Octet>, mem: nat -> Scratch) returns (n: int, lost: bool)
      requires Valid()
      modifies this, inner
      ensures Valid() && lost == OpenFrom(s, 0, [], mem).Lost?
      ensures Reports(OpenFrom(s, 0, [], mem), n, number, a[..])
    {
      hide WireAt, OpenFrom;
      n, lost, a := 0, false, inner;
      if |s| == 0 {
        number := 0;
        OpenEnd(s, [], mem);
        assert a[..0] == [];
        return;
      }
      var i, start, why := FillInner(s, mem);
      if why.Found? {
        if start < |s| {
          assert inner[..i] == inner[..];
          i, why := Spill(s, start, mem);
        } else {
          OpenEnd(s, inner[..i], mem);
        }
      }
      match why {
        case Refused => return -(i as int), false;
        case Overrun => return 0, true;
        case Found(_, _) =>
          number := i;
          return i, false;
      }
    }
  }

  /** What the result and the context tell of a message. */
  ghost predicate Reports(r: Opened, n: int, number: int, atoms: seq<Atom>)
  {
    && (r.Failed? ==> n == -(r.at as int))
    && (r.Atoms? ==> n == number == |r.atoms| <= |atoms| && atoms[..n] == r.atoms)
  }

  lemma OpenEnd(s: seq<Octet>, got: seq<Atom>, mem: nat -> Scratch)
    ensures OpenFrom(s, |s|, got, mem) == Atoms(got)
  {
  }

  // ---------------------------------------------------------------- reading back what was written

  predicate Sits(s: seq<Octet>, i: nat, t: seq<Octet>)
  {
    i + |t| <= |s| && s[i..i + |t|] == t
  }

  lemma SitsApart(s: seq<Octet>, i: nat, a: seq<Octet>, b: seq<Octet>)
    requires Sits(s, i, a + b)
    ensures Sits(s, i, a) && Sits(s, i + |a|, b)
  {
    var t := s[i..i + |a + b|];
    assert t[..|a|] == s[i..i + |a|] && t[|a|..] == s[i + |a|..i + |a| + |b|];
    assert (a + b)[..|a|] == a && (a + b)[|a|..] == b;
  }

  lemma ReadSits(s: seq<Octet>, i: nat, n: ULLong)
    requires Sits(s, i, Encoded(n))
    ensures Read(s, i) == Got(n, |Encoded(n)|) && DecodedValue(Read(s, i)) == n
  {
    hide Encoded, ReadFrom, Pow;
    EncodedFits(n);
    ReadBack(s, i, 0, n);
  }

  lemma OctetsSum(x: ULong)
    ensures x == x % 0x100 + x / 0x100 % 0x100 * 0x100 + x / 0x1_0000 % 0x100 * 0x1_0000 + x / 0x100_0000 * 0x100_0000
  {
    var a, b := x / 0x100, x / 0x1_0000;
    assert a / 0x100 == b && b / 0x100 == x / 0x100_0000;
    assert x == x % 0x100 + a * 0x100 && a == a % 0x100 + b * 0x100 && b == b % 0x100 + b / 0x100 * 0x100;
  }

  lemma WordSits(s: seq<Octet>, i: nat, x: ULong)
    requires Sits(s, i, Octets32(x))
    ensures Word32At(s, i) == x
  {
    OctetsSum(x);
    var t := s[i..i + 4];
    assert t[0] == s[i] && t[1] == s[i + 1] && t[2] == s[i + 2] && t[3] == s[i + 3];
  }

  /** A field that is written: a number of a numeric type, or bytes. */
  datatype Item = Numeric(f: Field, v: LongLong) | Textual(id: FieldId, bytes: seq<Octet>)

  predicate Writable(m: Item)
  {
    match m
    case Numeric(f, _) => !f.ptype.Chars? && !f.ptype.Bytes? && !f.ptype.Other?
    case Textual(_, bytes) => |bytes| < 0x8000_0000
  }

  function ItemBytes(m: Item): seq<Octet>
  {
    match m
    case Numeric(f, v) => NumberField(f, v)
    case Textual(id, bytes) => TextField(id, bytes)
  }

  function WireType(t: PType): (wt: nat)
    ensures wt < 8
  {
    if t.Fixed64? || t.SFixed64? then WT_BIT64 else if t.Fixed32? || t.SFixed32? then WT_BIT32 else WT_VARINT
  }

  /** The atom of an item written at i. */
  function ItemAtom(m: Item, i: nat): Atom
  {
    match m
    case Numeric(f, v) =>
      Number(Tag(f.id, WireType(f.ptype)),
             if f.ptype.Fixed64? || f.ptype.SFixed64? then v
             else if f.ptype.Fixed32? || f.ptype.SFixed32? then LongLong(v.low, 0)
             else Halves(Code(f.ptype, v)))
    case Textual(id, bytes) =>
      var end := i + |TextField(id, bytes)|;
      Slice(Tag(id, WT_LEND), end - |bytes|, end)
  }

  lemma ItemBack(s: seq<Octet>, i: nat, m: Item, temp: Scratch)
    requires Writable(m) && Sits(s, i, ItemBytes(m))
    ensures i < |s| && WireAt(s, i, temp) == Found(ItemAtom(m, i), i + |ItemBytes(m)|)
  {
    match m
    case Numeric(f, v) => NumberBack(s, i, f, v, temp);
    case Textual(id, bytes) => TextBack(s, i, id, bytes, temp);
  }

  lemma TagParts(id: FieldId, wt: nat)
    requires wt < 8
    ensures Tag(id, wt) % 8 == wt
  {
  }

  lemma TagBack(s: seq<Octet>, i: nat, tag: ULong, temp: Scratch)
    requires Sits(s, i, Encoded(tag))
    ensures i < i + |Encoded(tag)| <= |s| && WireAt(s, i, temp) == BodyAt(s, i + |Encoded(tag)|, tag, Left(s, i, temp))
  {
    hide Read, Encoded, BodyAt, Left;
    ReadSits(s, i, tag);
  }

  lemma VarintBack(s: seq<Octet>, j: nat, tag: ULong, n: ULLong, temp: Scratch)
    requires Sits(s, j, Encoded(n)) && tag % 8 == WT_VARINT
    ensures j <= |s| && BodyAt(s, j, tag, temp) == Found(Number(tag, Halves(n)), j + |Encoded(n)|)
  {
    hide Read, Encoded, Halves;
    ReadSits(s, j, n);
  }

  lemma WordsBack(s: seq<Octet>, j: nat, tag: ULong, v: LongLong, temp: Scratch)
    requires j <= |s|
    ensures tag % 8 == WT_BIT64 && Sits(s, j, Octets64(v)) ==> BodyAt(s, j, tag, temp) == Found(Number(tag, v), j + 8)
    ensures tag % 8 == WT_BIT32 && Sits(s, j, Octets32(v.low)) ==>
      BodyAt(s, j, tag, temp) == Found(Number(tag, LongLong(v.low, 0)), j + 4)
  {
    hide Read, Octets32, Word32At, Sits;
    if tag % 8 == WT_BIT64 && Sits(s, j, Octets64(v)) {
      SitsRoom(s, j, Octets64(v));
      SitsApart(s, j, Octets32(v.low), Octets32(v.hi));
      WordSits(s, j, v.low);
      WordSits(s, j + 4, v.hi);
    }
    if tag % 8 == WT_BIT32 && Sits(s, j, Octets32(v.low)) {
      SitsRoom(s, j, Octets32(v.low));
      WordSits(s, j, v.low);
    }
  }

  lemma SitsRoom(s: seq<Octet>, i: nat, t: seq<Octet>)
    requires Sits(s, i, t)
    ensures i + |t| <= |s|
  {
  }

  lemma NumberBack(s: seq<Octet>, i: nat, f: Field, v: LongLong, temp: Scratch)
    requires Writable(Numeric(f, v)) && Sits(s, i, NumberField(f, v))
    ensures i < |s| && WireAt(s, i, temp) == Found(ItemAtom(Numeric(f, v), i), i + |NumberField(f, v)|)
  {
    hide Encoded, Octets32, Octets64, Code, Halves, Tag, WireAt, BodyAt, Left, Sits;
    TagParts(f.id, WireType(f.ptype));
    var tag := Tag(f.id, WireType(f.ptype));
    var body := if VaryingType(f.ptype) then Encoded(Code(f.ptype, v))
                else if f.ptype.Fixed64? || f.ptype.SFixed64? then Octets64(v) else Octets32(v.low);
    assert NumberField(f, v) == Encoded(tag) + body;
    SitsApart(s, i, Encoded(tag), body);
    TagBack(s, i, tag, temp);
    var j := i + |Encoded(tag)|;
    if VaryingType(f.ptype) {
      VarintBack(s, j, tag, Code(f.ptype, v), Left(s, i, temp));
    } else {
      WordsBack(s, j, tag, v, Left(s, i, temp));
    }
  }

  lemma TextBack(s: seq<Octet>, i: nat, id: FieldId, bytes: seq<Octet>, temp: Scratch)
    requires |bytes| < 0x8000_0000 && Sits(s, i, TextField(id, bytes))
    ensures i < |s| && WireAt(s, i, temp) == Found(ItemAtom(Textual(id, bytes), i), i + |TextField(id, bytes)|)
    ensures Sits(s, i + |TextField(id, bytes)| - |bytes|, bytes)
  {
    hide Read, Encoded, Seen, Left;
    var tag := Tag(id, WT_LEND);
    SitsApart(s, i, Encoded(tag), Encoded(|bytes|) + bytes);
    ReadSits(s, i, tag);
    var j := i + |Encoded(tag)|;
    SitsApart(s, j, Encoded(|bytes|), bytes);
    ReadSits(s, j, |bytes|);
    SeenCases(s, j, Left(s, i, temp));
  }

  function Flat(items: seq<Item>): seq<Octet>
  {
    if items == [] then [] else ItemBytes(items[0]) + Flat(items[1..])
  }

  function AtomsOf(items: seq<Item>, i: nat): (r: seq<Atom>)
    ensures |r| == |items|
  {
    if items == [] then [] else [ItemAtom(items[0], i)] + AtomsOf(items[1..], i + |ItemBytes(items[0])|)
  }

  lemma RestWritable(items: seq<Item>)
    requires AllWritable(items) && items != []
    ensures Writable(items[0]) && AllWritable(items[1..])
  {
    hide Writable;
  }

  ghost predicate AllWritable(items: seq<Item>)
  {
    forall m <- items :: Writable(m)
  }

  lemma {:induction false} ItemsBack(s: seq<Octet>, i: nat, items: seq<Item>, got: seq<Atom>, mem: nat -> Scratch)
    requires AllWritable(items) && Sits(s, i, Flat(items)) && i + |Flat(items)| == |s|
    ensures OpenFrom(s, i, got, mem) == Atoms(got + AtomsOf(items, i))
    decreases |items|
  {
    hide WireAt, ItemBytes, ItemAtom, Writable, AllWritable, OpenFrom, Sits;
    if items == [] {
      OpenEnd(s, got, mem);
      assert got + [] == got;
    } else {
      var m := items[0];
      RestWritable(items);
      SitsApart(s, i, ItemBytes(m), Flat(items[1..]));
      ItemBack(s, i, m, mem(i));
      OpenStep(s, i, got, mem);
      var j := i + |ItemBytes(m)|;
      ItemsBack(s, j, items[1..], got + [ItemAtom(m, i)], mem);
      assert got + AtomsOf(items, i) == got + [ItemAtom(m, i)] + AtomsOf(items[1..], j);
    }
  }

  /** Opening a finished message finds exactly the fields that were written, in order, however many they are. */
  lemma OpensToWritten(items: seq<Item>, mem: nat -> Scratch)
    requires AllWritable(items)
    ensures OpenFrom(Flat(items), 0, [], mem) == Atoms(AtomsOf(items, 0))
  {
    var s := Flat(items);
    assert s[0..|s|] == s;
    ItemsBack(s, 0, items, [], mem);
    assert [] + AtomsOf(items, 0) == AtomsOf(items, 0);
  }

  lemma {:induction false} FlatAppend(a: seq<Item>, b: seq<Item>)
    ensures Flat(a + b) == Flat(a) + Flat(b)
  {
    if a == [] {
      assert a + b == b && [] + Flat(b) == Flat(b);
    } else {
      assert (a + b)[1..] == a[1..] + b;
      FlatAppend(a[1..], b);
      assert ItemBytes(a[0]) + (Flat(a[1..]) + Flat(b)) == ItemBytes(a[0]) + Flat(a[1..]) + Flat(b);
    }
  }

  /** The k-th atom of a textual item marks the bytes that were written. */
  lemma {:induction false} SliceHolds(s: seq<Octet>, i: nat, items: seq<Item>, k: nat)
    requires AllWritable(items) && Sits(s, i, Flat(items)) && k < |items| && items[k].Textual?
    ensures var a := AtomsOf(items, i)[k];
      a.Slice? && a.start <= a.end <= |s| && s[a.start..a.end] == items[k].bytes
    decreases |items|
  {
    hide ItemBytes, Writable, AllWritable, ItemAtom, Sits;
    var m := items[0];
    RestWritable(items);
    SitsApart(s, i, ItemBytes(m), Flat(items[1..]));
    if k == 0 {
      SliceBack(s, i, m);
    } else {
      SliceHolds(s, i + |ItemBytes(m)|, items[1..], k - 1);
    }
  }

  lemma SliceBack(s: seq<Octet>, i: nat, m: Item)
    requires Writable(m) && m.Textual? && Sits(s, i, ItemBytes(m))
    ensures var a := ItemAtom(m, i); a.Slice? && a.start <= a.end <= |s| && s[a.start..a.end] == m.bytes
  {
    hide WireAt, TextField;
    WholeItem(m);
    TextBack(s, i, m.id, m.bytes, seq(10, _ => 0));
  }

  lemma WholeItem(m: Item)
    requires m.Textual?
    ensures ItemBytes(m) == TextField(m.id, m.bytes)
  {
  }

  /** What a reader makes of the number in an atom. */
  function Meaning(t: PType, v: LongLong): LongLong
  {
    match t
    case SInt32 => LongLong(Dezigzag32(v.low), if v.low >= 0x8000_0000 then 0xFFFF_FFFF else 0)
    case SInt64 => Dezigzag64(v)
    case _ => v
  }

  predicate Wide(t: PType)
  {
    t.Int64? || t.UInt64? || t.Int32? || t.SInt64? || t.Fixed64? || t.SFixed64?
  }

  /** The number itself comes back: all 64 bits of it, or the low 32 for the types that have no more. */
  lemma MeaningBack(f: Field, v: LongLong, i: nat)
    requires Writable(Numeric(f, v))
    ensures var r := Meaning(f.ptype, ItemAtom(Numeric(f, v), i).v);
      r.low == v.low && (Wide(f.ptype) ==> r.hi == v.hi)
  {
    hide Meaning, Halves, Zigzag64, Zigzag32, Join;
    if VaryingType(f.ptype) {
      OneReturned(f.ptype, v);
    } else {
      PlainMeaning(f.ptype, v);
      PlainMeaning(f.ptype, LongLong(v.low, 0));
    }
  }

  lemma PlainMeaning(t: PType, v: LongLong)
    requires !t.SInt32? && !t.SInt64?
    ensures Meaning(t, v) == v
  {
  }

  lemma SameHalves(a: LongLong, b: LongLong)
    requires Join(a) == Join(b)
    ensures a == b
  {
    JoinUnique(a, Join(b));
    JoinUnique(b, Join(b));
  }

  /** What unpack_field of pattern.c makes of an atom that holds a number; its checks of varint and fixed fields are switched off. */
  datatype Written = NotTaken | Wrote(v: LongLong)

  function UnpackField(t: PType, a: Atom): Written
    requires a.Number? && !t.Chars? && !t.Bytes? && !t.Other?
  {
    if t.SInt64? && a.tag % 8 != WT_LEND then NotTaken else Wrote(Meaning(t, a.v))
  }

  /**
   Pattern mode takes back every number that was written but those of type sint64, whose atoms are checked for the
   wire type of a length-delimited field.
   */
  lemma PatternReads(f: Field, v: LongLong, i: nat)
    requires Writable(Numeric(f, v))
    ensures var r := UnpackField(f.ptype, ItemAtom(Numeric(f, v), i));
      (r.Wrote? && r.v.low == v.low && (Wide(f.ptype) ==> r.v.hi == v.hi)) <==> !f.ptype.SInt64?
  {
    hide Meaning, Tag;
    MeaningBack(f, v, i);
    TagParts(f.id, WireType(f.ptype));
  }

  lemma PatternLosesSint64()
    ensures var f := Field(1, SInt64, Plain, LongLong(0, 0), []);
      UnpackField(SInt64, ItemAtom(Numeric(f, LongLong(1, 0)), 0)) == NotTaken
  {
    hide Tag, Halves, Code, Meaning;
    TagParts(1, WT_VARINT);
  }

  // ---------------------------------------------------------------- packed fields

  /** What _pbcP_unpack_packed pushes, and whether it ends with -1. */
  datatype Unpacked = Unpacked(values: seq<LongLong>, ok: bool)

  function UnpackFrom(t: PType, s: seq<Octet>, i: nat, got: seq<LongLong>): Unpacked
    requires i <= |s|
    decreases |s| - i
  {
    if i == |s| then Unpacked(got, true)
    else
      var v := Read(s, i);
      if v.Cut? then Unpacked(got, false)
      else UnpackFrom(t, s, i + DecodedLength(v), got + [Meaning(t, Halves(DecodedValue(v)))])
  }

  lemma UnpackStep(t: PType, s: seq<Octet>, i: nat, got: seq<LongLong>)
    requires i < |s|
    ensures var v := Read(s, i);
      UnpackFrom(t, s, i, got)
      == if v.Cut? then Unpacked(got, false)
         else UnpackFrom(t, s, i + DecodedLength(v), got + [Meaning(t, Halves(DecodedValue(v)))])
  {
  }

  /** _pbcP_unpack_packed for varints, which may look at the bytes behind the block; the array it pushes to is a sequence. */
  method UnpackVarints(t: PType, s: seq<Octet>, array0: seq<LongLong>, behind: Scratch) returns (n: int, result: seq<LongLong>)
    requires VaryingType(t)
    ensures var r := UnpackFrom(t, s, 0, array0);
      result == r.values && n == if r.ok then |r.values| - |array0| else -1
  {
    hide Read, UnpackFrom, Join, Halves, Meaning;
    result := array0;
    var i := 0;
    n := 0;
    while i < |s|
      invariant i <= |s| && n == |result| - |array0|
      invariant UnpackFrom(t, s, 0, array0) == UnpackFrom(t, s, i, result)
      decreases |s| - i
    {
      UnpackStep(t, s, i, result);
      var cap := |s| - i;
      var r, len, _ := DecodeVia(s, i, if cap >= 10 then behind else behind[..cap] + behind[..10 - cap]);
      if len > |s| - i {
        return -1, result;
      }
      JoinUnique(r, Join(r));
      result := result + [Meaning(t, r)];
      i := i + len;
      n := n + 1;
    }
    UnpackEnd(t, s, result);
  }

  lemma UnpackEnd(t: PType, s: seq<Octet>, got: seq<LongLong>)
    ensures UnpackFrom(t, s, |s|, got) == Unpacked(got, true)
  {
  }

  /** The words of eight bytes each that make up a block. */
  function WordPairs(s: seq<Octet>): (r: seq<LongLong>)
    requires |s| % 8 == 0
    ensures |r| == |s| / 8
  {
    if s == [] then []
    else
      var i := |s| - 8;
      WordPairs(s[..i]) + [LongLong(Word32At(s, i), Word32At(s, i + 4))]
  }

  lemma WordPairsSnoc(s: seq<Octet>, i: nat)
    requires i + 8 <= |s| && i % 8 == 0
    ensures WordPairs(s[..i + 8]) == WordPairs(s[..i]) + [LongLong(Word32At(s, i), Word32At(s, i + 4))]
  {
    assert s[..i + 8][..i] == s[..i];
  }

  /** Fixed numbers of 64 bits: refused unless the length is a multiple of eight. */
  method UnpackFixed64(s: seq<Octet>, array0: seq<LongLong>) returns (n: int, result: seq<LongLong>)
    ensures n == if |s| % 8 == 0 then |s| / 8 else -1
    ensures result == if |s| % 8 == 0 then array0 + WordPairs(s) else array0
  {
    hide WordPairs, Word32At;
    result := array0;
    if |s| % 8 != 0 {
      return -1, result;
    }
    var i := 0;
    assert WordPairs(s[..0]) == [];
    while i < |s|
      invariant i <= |s| && i % 8 == 0 && result == array0 + WordPairs(s[..i])
      decreases |s| - i
    {
      WordPairsSnoc(s, i);
      ghost var words := WordPairs(s[..i]);
      var v := LongLong(Word32At(s, i), Word32At(s, i + 4));
      assert array0 + words + [v] == array0 + (words + [v]);
      result := result + [v];
      i := i + 8;
    }
    assert s[..|s|] == s;
    n := |s| / 8;
  }

  /** Packed numbers of 64 bits come back as they were. */
  lemma {:induction false} Fixed64Back(data: seq<LongLong>)
    ensures |Payload64(data)| == 8 * |data| && WordPairs(Payload64(data)) == data
  {
    hide Octets32, Word32At;
    Payload64Length(data);
    if data != [] {
      var n := |data| - 1;
      var s, v := Payload64(data), data[n];
      Fixed64Back(data[..n]);
      assert s[..8 * n] == Payload64(data[..n]);
      assert s[8 * n..8 * n + 8] == Octets64(v);
      SitsApart(s, 8 * n, Octets32(v.low), Octets32(v.hi));
      WordSits(s, 8 * n, v.low);
      WordSits(s, 8 * n + 4, v.hi);
    }
  }

  /** The codes of a packed field, one after the other from the front. */
  function Codes(t: PType, data: seq<LongLong>): seq<Octet>
  {
    if data == [] then [] else Encoded(Code(t, data[0])) + Codes(t, data[1..])
  }

  lemma {:induction false} PayloadIsCodes(t: PType, data: seq<LongLong>)
    ensures Payload(t, data) == Codes(t, data)
    decreases |data|
  {
    if |data| > 0 {
      var n := |data| - 1;
      PayloadIsCodes(t, data[..n]);
      CodesSnoc(t, data[..n], data[n]);
      assert data == data[..n] + [data[n]];
    }
  }

  lemma {:induction false} CodesSnoc(t: PType, data: seq<LongLong>, v: LongLong)
    ensures Codes(t, data + [v]) == Codes(t, data) + Encoded(Code(t, v))
    decreases |data|
  {
    if data == [] {
      assert ([] + [v])[1..] == [];
      assert Encoded(Code(t, v)) + [] == [] + Encoded(Code(t, v));
    } else {
      assert (data + [v])[1..] == data[1..] + [v];
      CodesSnoc(t, data[1..], v);
      var a, b, c := Encoded(Code(t, data[0])), Codes(t, data[1..]), Encoded(Code(t, v));
      assert a + (b + c) == a + b + c;
    }
  }

  /** What comes back of the numbers of a packed field. */
  function Returned(t: PType, data: seq<LongLong>): (r: seq<LongLong>)
    ensures |r| == |data|
  {
    if data == [] then [] else [Meaning(t, Halves(Code(t, data[0])))] + Returned(t, data[1..])
  }

  lemma OneUnpacked(t: PType, u: PType, s: seq<Octet>, i: nat, v: LongLong, got: seq<LongLong>)
    requires (u == t || u == WrittenAs(t)) && Sits(s, i, Encoded(Code(u, v)))
    ensures var j := i + |Encoded(Code(u, v))|;
      i < j <= |s| && UnpackFrom(t, s, i, got) == UnpackFrom(t, s, j, got + [Meaning(u, Halves(Code(u, v)))])
  {
    hide Read, Meaning, Halves, Code, Encoded, UnpackFrom, DecodedValue, WrittenAs;
    ReadSits(s, i, Code(u, v));
    UnpackStep(t, s, i, got);
    SameMeaning(t, Halves(Code(u, v)));
  }

  /** Reading as type t what was written as type u. */
  lemma {:induction false} CodesBack(t: PType, u: PType, s: seq<Octet>, i: nat, data: seq<LongLong>, got: seq<LongLong>)
    requires (u == t || u == WrittenAs(t)) && Sits(s, i, Codes(u, data)) && i + |Codes(u, data)| == |s|
    ensures UnpackFrom(t, s, i, got) == Unpacked(got + Returned(u, data), true)
    decreases |data|
  {
    hide Meaning, Halves, Code, Encoded, UnpackFrom, WrittenAs, Sits;
    if data == [] {
      UnpackEnd(t, s, got);
      assert got + [] == got;
    } else {
      var e := Encoded(Code(u, data[0]));
      SitsApart(s, i, e, Codes(u, data[1..]));
      OneUnpacked(t, u, s, i, data[0], got);
      var more := got + [Meaning(u, Halves(Code(u, data[0])))];
      CodesBack(t, u, s, i + |e|, data[1..], more);
      assert got + Returned(u, data) == more + Returned(u, data[1..]);
    }
  }

  lemma SameMeaning(t: PType, v: LongLong)
    ensures Meaning(t, v) == Meaning(WrittenAs(t), v)
  {
  }

  /** The numbers of a packed block: all 64 bits for the wide types, the low 32 for the others. */
  lemma {:induction false} ReturnedSame(t: PType, data: seq<LongLong>, k: nat)
    requires VaryingType(t) && k < |data|
    ensures Returned(t, data)[k].low == data[k].low
    ensures Wide(t) ==> Returned(t, data)[k] == data[k]
    ensures t.UInt32? || t.Enum? || t.Bool? ==> Returned(t, data)[k].hi == 0
    decreases |data|
  {
    hide Meaning, Code, Halves;
    if k > 0 {
      ReturnedSame(t, data[1..], k - 1);
    } else {
      OneReturned(t, data[0]);
    }
  }

  lemma OneReturned(t: PType, v: LongLong)
    requires VaryingType(t)
    ensures var r := Meaning(t, Halves(Code(t, v)));
      && r.low == v.low && (Wide(t) ==> r == v) && (t.UInt32? || t.Enum? || t.Bool? ==> r.hi == 0)
  {
    hide Zigzag32, Zigzag64, Dezigzag32, Dezigzag64, Halves, Join;
    if t.SInt64? {
      Zigzag64Back(Join(v));
      SameHalves(Meaning(t, Halves(Zigzag64(Join(v)))), v);
    } else if t.SInt32? {
      Zigzag32Back(v.low);
      SmallHalves(Zigzag32(v.low));
    } else if Wide(t) {
      JoinUnique(v, Join(v));
    } else {
      SmallHalves(v.low);
    }
  }

  lemma SmallHalves(n: ULong)
    ensures Halves(n) == LongLong(n, 0)
  {
  }

  /**
   Packing and unpacking again, the numbers being written as type t, as pattern mode does, or as a message writes
   them: 64 bits come back whole for the types that are written whole, the low words for the others.
   */
  lemma PackedRoundTrip(t: PType, u: PType, data: seq<LongLong>)
    requires VaryingType(t) && (u == t || u == WrittenAs(t))
    ensures UnpackFrom(t, Payload(u, data), 0, []) == Unpacked(Returned(u, data), true)
    ensures Wide(u) ==> Returned(u, data) == data
    ensures forall k :: 0 <= k < |data| ==> Returned(u, data)[k].low == data[k].low
  {
    hide Codes, Payload, Returned, UnpackFrom;
    PayloadIsCodes(u, data);
    var s := Codes(u, data);
    assert s[0..|s|] == s;
    CodesBack(t, u, s, 0, data, []);
    assert [] + Returned(u, data) == Returned(u, data);
    forall k | 0 <= k < |data|
      ensures Returned(u, data)[k].low == data[k].low && (Wide(u) ==> Returned(u, data)[k] == data[k])
    {
      ReturnedSame(u, data, k);
    }
  }

  // ---------------------------------------------------------------- a whole message

  function PackedItem(p: PackedField): Item
  {
    Textual(p.id, PackedPayload(p))
  }

  function PackedItems(packed: seq<PackedField>): seq<Item>
  {
    if packed == [] then [] else PackedItems(packed[..|packed| - 1]) + [PackedItem(packed[|packed| - 1])]
  }

  function SubItems(subs: seq<SubMessage>): seq<Item>
  {
    if subs == [] then []
    else SubItems(subs[..|subs| - 1]) + [Textual(subs[|subs| - 1].id, subs[|subs| - 1].bytes)]
  }

  lemma FlatOne(m: Item)
    ensures Flat([m]) == ItemBytes(m)
  {
    assert [m][1..] == [] && ItemBytes(m) + [] == ItemBytes(m);
  }

  lemma PackedWritable(p: PackedField)
    requires WellFormed(p)
    ensures Writable(PackedItem(p)) && ItemBytes(PackedItem(p)) == TextField(p.id, PackedPayload(p))
  {
    PayloadBound(WrittenAs(p.ptype), p.data);
    Payload64Length(p.data);
  }

  lemma {:induction false} PackedFlat(packed: seq<PackedField>)
    requires forall p <- packed :: WellFormed(p)
    ensures PackedBytes(packed) == Flat(PackedItems(packed)) && AllWritable(PackedItems(packed))
  {
    hide Writable, WellFormed, PackedItem, ItemBytes, TextField, PackedPayload;
    if packed != [] {
      var n := |packed| - 1;
      var p := packed[n];
      assert WellFormed(p);
      PackedFlat(packed[..n]);
      FlatAppend(PackedItems(packed[..n]), [PackedItem(p)]);
      FlatOne(PackedItem(p));
      PackedWritable(p);
    }
  }

  lemma {:induction false} SubFlat(subs: seq<SubMessage>)
    requires forall m <- subs :: |m.bytes| < 0x8000_0000
    ensures SubBytes(subs) == Flat(SubItems(subs)) && AllWritable(SubItems(subs))
  {
    if subs != [] {
      var n := |subs| - 1;
      var m := subs[n];
      assert |m.bytes| < 0x8000_0000;
      SubFlat(subs[..n]);
      FlatAppend(SubItems(subs[..n]), [Textual(m.id, m.bytes)]);
      FlatOne(Textual(m.id, m.bytes));
    }
  }

  /** A finished message opens to its fields, then its packed fields, then its submessages. */
  lemma FinishedOpens(items: seq<Item>, packed: seq<PackedField>, subs: seq<SubMessage>, mem: nat -> Scratch)
    requires AllWritable(items) && (forall p <- packed :: WellFormed(p))
    requires forall m <- subs :: |m.bytes| < 0x8000_0000
    ensures OpenFrom(Flat(items) + (PackedBytes(packed) + SubBytes(subs)), 0, [], mem)
      == Atoms(AtomsOf(items + (PackedItems(packed) + SubItems(subs)), 0))
  {
    hide AtomsOf, PackedItems, SubItems, PackedBytes, SubBytes, Flat, OpenFrom;
    PackedFlat(packed);
    SubFlat(subs);
    var more := PackedItems(packed) + SubItems(subs);
    FlatAppend(PackedItems(packed), SubItems(subs));
    FlatAppend(items, more);
    OpensToWritten(items + more, mem);
  }
}
