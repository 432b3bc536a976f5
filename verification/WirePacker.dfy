/** Packing into a slice of given size, in pattern.c: nothing is written past its end, and it fails exactly when it must. */
module WirePacker {
  import opened Limbs
  import opened Varint
  import opened WireWriter

  /** _pack_wiretype and _pack_varint64: near the end of the slice by way of a temporary. */
  method PackVarint(buffer: array<Octet>, at: nat, room: nat, n: ULLong) returns (len: int)
    requires at + room <= buffer.Length
    modifies buffer
    ensures len == if |Encoded(n)| <= room then |Encoded(n)| else -1
    ensures buffer[..] == if len < 0 then old(buffer[..]) else Patched(old(buffer[..]), at, Encoded(n))
  {
    hide Encoded, Patched;
    if room < 10 {
      var temp := new Octet[10];
      ghost var was := temp[..];
      len := Encode(n, temp, 0);
      HeaderAlone(was, temp[..], Encoded(n));
      if len > room {
        return -1;
      }
      assert temp[..][..len] == temp[..len];
      CopyBytes(buffer, at, temp[..len]);
    } else {
      EncodedFits(n);
      len := Encode(n, buffer, at);
    }
  }

  lemma {:induction false} PayloadPrefix(t: PType, data: seq<LongLong>, i: nat)
    requires i <= |data|
    ensures i <= |Payload(t, data[..i])| <= |Payload(t, data)|
    ensures |Payload(t, data)| <= 10 * |data|
    decreases |data|
  {
    if data != [] {
      var n := |data| - 1;
      EncodedFits(Code(t, data[n]));
      if i <= n {
        PayloadPrefix(t, data[..n], i);
        assert data[..n][..i] == data[..i];
      } else {
        PayloadPrefix(t, data[..n], n);
        assert data[..i] == data && data[..n][..n] == data[..n];
      }
    }
  }

  /** More digits never take less room. */
  lemma {:induction false} EncodedMonotone(a: nat, b: nat)
    requires a <= b
    ensures |Encoded(a)| <= |Encoded(b)|
  {
    if a >= 128 {
      EncodedMonotone(a / 128, b / 128);
    }
  }

  /** s is in the buffer from at on, and nothing before or from end on has changed. */
  ghost predicate Holds(b: seq<Octet>, was: seq<Octet>, at: nat, s: seq<Octet>, end: nat)
  {
    && |b| == |was| && at + |s| <= |b| && at <= end <= |b|
    && b[..at] == was[..at] && b[at..at + |s|] == s && b[end..] == was[end..]
  }

  lemma HoldsMore(b: seq<Octet>, was: seq<Octet>, at: nat, s: seq<Octet>, t: seq<Octet>, end: nat)
    requires Holds(b, was, at, s, end) && at + |s| + |t| <= end
    ensures Holds(Patched(b, at + |s|, t), was, at, s + t, end)
  {
    var c := Patched(b, at + |s|, t);
    assert c[..at] == b[..at] && c[end..] == b[end..];
    assert c[at..at + |s| + |t|] == b[at..at + |s|] + t;
  }

  lemma HoldsNothing(b: seq<Octet>, at: nat, end: nat)
    requires at <= end <= |b|
    ensures Holds(b, b, at, [], end)
  {
  }

  lemma HoldsAround(b: seq<Octet>, was: seq<Octet>, at: nat, s: seq<Octet>, end: nat)
    requires Holds(b, was, at, s, end)
    ensures Around(b, was, at, end)
  {
  }

  /** Nothing outside the slice has changed. */
  ghost predicate Around(b: seq<Octet>, was: seq<Octet>, at: nat, end: nat)
  {
    |b| == |was| && at <= end <= |b| && b[..at] == was[..at] && b[end..] == was[end..]
  }

  lemma PatchedAround(b: seq<Octet>, was: seq<Octet>, at: nat, end: nat, k: nat, s: seq<Octet>)
    requires Around(b, was, at, end) && at <= k && k + |s| <= end
    ensures Around(Patched(b, k, s), was, at, end)
  {
    var c := Patched(b, k, s);
    assert c[..at] == b[..at] && c[end..] == b[end..];
  }

  /** The loop over the array of _pack_packed_varint; -1 when the slice is too short. */
  method PackNumbers(buffer: array<Octet>, at: nat, end: nat, head: nat, t: PType, data: seq<LongLong>,
                     ghost was: seq<Octet>, ghost guess: seq<Octet>)
    returns (packedLen: int)
    requires end <= buffer.Length && head == |guess| && at + head <= end && VaryingType(t)
    requires Holds(buffer[..], was, at, guess, end)
    modifies buffer
    ensures packedLen == if head + |Payload(t, data)| <= end - at then |Payload(t, data)| else -1
    ensures packedLen >= 0 ==> Holds(buffer[..], was, at, guess + Payload(t, data), end)
    ensures Around(buffer[..], was, at, end)
  {
    hide Encoded, Patched, Code, Payload, Holds, Around;
    packedLen := 0;
    NoPayload(t);
    assert data[..0] == [] && guess + [] == guess;
    for i := 0 to |data|
      invariant packedLen == |Payload(t, data[..i])| && at + head + packedLen <= end
      invariant Holds(buffer[..], was, at, guess + Payload(t, data[..i]), end)
    {
      ghost var s, b := guess + Payload(t, data[..i]), buffer[..];
      ghost var code := Encoded(Code(t, data[i]));
      PayloadSnoc(t, data, i);
      PayloadPrefix(t, data, i + 1);
      HoldsAround(b, was, at, s, end);
      var len := PackVarint(buffer, at + head + packedLen, end - (at + head + packedLen), Code(t, data[i]));
      if len < 0 {
        return -1;
      }
      HoldsMore(b, was, at, s, code, end);
      assert s + code == guess + (Payload(t, data[..i]) + code);
      packedLen := packedLen + len;
    }
    assert data[..|data|] == data;
    HoldsAround(buffer[..], was, at, guess + Payload(t, data), end);
  }

  lemma NoPayload(t: PType)
    ensures Payload(t, []) == []
  {
  }

  /** The payload is moved when the header has another size, and the header is put in front. */
  method PutHeader(buffer: array<Octet>, at: nat, end: nat, header: seq<Octet>, head: nat, packedLen: nat,
                   ghost was: seq<Octet>, ghost guess: seq<Octet>, ghost payload: seq<Octet>)
    requires end <= buffer.Length && head == |guess| && packedLen == |payload| && at + |header| + packedLen <= end
    requires Holds(buffer[..], was, at, guess + payload, end) && at + head + packedLen <= end
    modifies buffer
    ensures Holds(buffer[..], was, at, header + payload, end)
  {
    hide Patched, Spaced, Around, Holds;
    ghost var b := buffer[..];
    HoldsAround(b, was, at, guess + payload, end);
    HoldsFront(b, was, at, guess, payload, end);
    ghost var front := was[..at];
    if |header| != head {
      MoveBytes(buffer, at + |header|, at + head, packedLen);
      MovedPayload(b, front, guess, payload, |header|);
      PatchedAround(b, was, at, end, at + |header|, b[at + head..at + head + packedLen]);
    } else {
      NotMoved(b, at + head + packedLen, front, guess, payload);
    }
    ghost var c := buffer[..];
    CopyBytes(buffer, at, header);
    HeaderFirst(c, front, header, payload);
    PatchedAround(c, was, at, end, at, header);
    HoldsFrom(buffer[..], was, at, header, payload, end);
  }

  lemma HoldsFront(b: seq<Octet>, was: seq<Octet>, at: nat, guess: seq<Octet>, payload: seq<Octet>, end: nat)
    requires Holds(b, was, at, guess + payload, end)
    ensures at + |guess| + |payload| <= |b| && at <= |was|
    ensures b[..at + |guess| + |payload|] == was[..at] + guess + payload
  {
    assert b[..at + |guess| + |payload|] == b[..at] + b[at..at + |guess + payload|];
  }

  lemma HoldsFrom(b: seq<Octet>, was: seq<Octet>, at: nat, header: seq<Octet>, payload: seq<Octet>, end: nat)
    requires Around(b, was, at, end) && at + |header| + |payload| <= end
    requires b[..at + |header| + |payload|] == was[..at] + header + payload
    ensures Holds(b, was, at, header + payload, end)
  {
    assert b[at..at + |header + payload|] == b[..at + |header| + |payload|][at..];
  }

  /** A packed field behind its tag: the length of the payload and the payload. */
  function Block(t: PType, data: seq<LongLong>): seq<Octet>
  {
    Encoded(|Payload(t, data)|) + Payload(t, data)
  }

  /**
   _pack_packed_varint of pattern.c: the number of bytes written, or -1 exactly when the block does not fit,
   although the header is first guessed from the number of elements.
   */
  method PackPackedVarint(buffer: array<Octet>, at: nat, len: nat, t: PType, data: seq<LongLong>) returns (r: int)
    requires at + len <= buffer.Length && VaryingType(t) && 10 * |data| < 0x8000_0000
    modifies buffer
    ensures r == if |Block(t, data)| <= len then |Block(t, data)| else -1
    ensures r >= 0 ==> Holds(buffer[..], old(buffer[..]), at, Block(t, data), at + len)
    ensures Around(buffer[..], old(buffer[..]), at, at + len)
  {
    hide Encoded, Patched, Payload, Holds, Around;
    ghost var was := buffer[..];
    ghost var payload := Payload(t, data);
    ghost var guess := Encoded(|data|);
    PayloadPrefix(t, data, |data|);
    EncodedMonotone(|data|, |payload|);
    assert data[..|data|] == data;
    HoldsNothing(was, at, at + len);
    HoldsAround(was, was, at, [], at + len);
    var estimate := |data|;
    var estimateLen := PackVarint(buffer, at, len, estimate);
    if estimateLen < 0 {
      return -1;
    }
    HoldsMore(was, was, at, [], guess, at + len);
    assert [] + guess == guess;
    var packedLen := PackNumbers(buffer, at, at + len, estimateLen, t, data, was, guess);
    if packedLen < 0 {
      return -1;
    }
    if packedLen == estimate {
      return packedLen + estimateLen;
    }
    var temp := EncodeAside(packedLen);
    if |temp| + packedLen > len {
      return -1;
    }
    PutHeader(buffer, at, at + len, temp, estimateLen, packedLen, was, guess, payload);
    HoldsAround(buffer[..], was, at, Block(t, data), at + len);
    return packedLen + |temp|;
  }
}
