/** Base 128 varints and zigzag of varint.c (Protocol Buffers Encoding, "Base 128 Varints" and "Signed Integers"). */
module Varint {
  import opened Limbs

  type Octet = x: nat | x < 256

  /** struct longlong */
  datatype LongLong = LongLong(low: ULong, hi: ULong)

  function Join(v: LongLong): ULLong
  {
    v.low + v.hi * 0x1_0000_0000
  }

  function Halves(n: ULLong): (v: LongLong)
    ensures Join(v) == n
  {
    LongLong(n % 0x1_0000_0000, n / 0x1_0000_0000)
  }

  lemma JoinUnique(v: LongLong, n: ULLong)
    requires Join(v) == n
    ensures v == Halves(n)
  {
  }

  // ---------------------------------------------------------------- encoding

  /** Groups of seven bits, the least significant first, all but the last marked. */
  function Encoded(n: nat): (s: seq<Octet>)
    ensures |s| >= 1
  {
    if n < 128 then [n] else [n % 128 + 128] + Encoded(n / 128)
  }

  lemma {:induction false} EncodedSize(n: nat, k: nat)
    requires k >= 1 && n < Pow(128, k)
    ensures |Encoded(n)| <= k
  {
    if n >= 128 {
      assert k > 1 by { assert Pow(128, 1) == 128 * Pow(128, 0); }
      assert Pow(128, k) == 128 * Pow(128, k - 1);
      EncodedSize(n / 128, k - 1);
    }
  }

  lemma EncodedFits(n: ULLong)
    ensures |Encoded(n)| <= 10
    ensures n < 0x1_0000_0000 ==> |Encoded(n)| <= 5
  {
    assert Pow(128, 5) == 0x8_0000_0000 by { FifthPower(); }
    PowAdd(128, 5, 5);
    EncodedSize(n, 10);
    if n < 0x1_0000_0000 {
      EncodedSize(n, 5);
    }
  }

  lemma FifthPower()
    ensures Pow(128, 5) == 0x8_0000_0000
  {
    assert Pow(128, 1) == 128 * Pow(128, 0);
    assert Pow(128, 2) == 128 * Pow(128, 1);
    assert Pow(128, 3) == 128 * Pow(128, 2);
    assert Pow(128, 4) == 128 * Pow(128, 3);
    assert Pow(128, 5) == 128 * Pow(128, 4);
  }

  /** buffer with s written from position at on. */
  function Patched(b: seq<Octet>, at: nat, s: seq<Octet>): seq<Octet>
    requires at + |s| <= |b|
  {
    b[..at] + s + b[at + |s|..]
  }

  lemma PatchedSnoc(b: seq<Octet>, at: nat, s: seq<Octet>, c: Octet)
    requires at + |s| < |b|
    ensures Patched(b, at, s)[at + |s| := c] == Patched(b, at, s + [c])
  {
  }

  /** What is written in front of an encoding that goes on. */
  ghost predicate Begun(n: nat, s: seq<Octet>, rest: nat)
  {
    Encoded(n) == s + Encoded(rest)
  }

  lemma BegunNone(n: nat)
    ensures Begun(n, [], n)
  {
    assert [] + Encoded(n) == Encoded(n);
  }

  lemma BegunMore(n: nat, s: seq<Octet>, rest: nat)
    requires Begun(n, s, rest) && rest >= 128
    ensures Begun(n, s + [rest % 128 + 128], rest / 128)
  {
    assert s + ([rest % 128 + 128] + Encoded(rest / 128)) == s + [rest % 128 + 128] + Encoded(rest / 128);
  }

  lemma BegunLast(n: nat, s: seq<Octet>, rest: Octet)
    requires Begun(n, s, rest) && rest < 128
    ensures Encoded(n) == s + [rest]
  {
  }

  /** (uint8_t)(x | 0x80) and the store. */
  method Store(buffer: array<Octet>, at: nat, c: Octet, ghost was: seq<Octet>, ghost s: seq<Octet>, ghost base: nat)
    requires |was| == buffer.Length && base + |s| == at < buffer.Length && buffer[..] == Patched(was, base, s)
    modifies buffer
    ensures buffer[..] == Patched(was, base, s + [c])
  {
    PatchedSnoc(was, base, s, c);
    buffer[at] := c;
  }

  lemma PatchedNone(b: seq<Octet>, at: nat)
    requires at <= |b|
    ensures Patched(b, at, []) == b
  {
  }

  function Marked(x: nat): Octet
  {
    x % 128 + 128
  }

  /** _pbcV_encode32 */
  method Encode32(number: ULong, buffer: array<Octet>, at: nat) returns (len: nat)
    requires at + 10 <= buffer.Length
    modifies buffer
    ensures len == |Encoded(number)| <= 5
    ensures buffer[..] == Patched(old(buffer[..]), at, Encoded(number))
  {
    hide Encoded, Patched, Pow;
    ghost var was := buffer[..];
    PatchedNone(was, at);
    EncodedFits(number);
    BegunNone(number);
    if number < 0x80 {
      BegunLast(number, [], number);
      assert [] + [number] == [number];
      Store(buffer, at, number, was, [], at);
      return 1;
    }
    ghost var s := [] + [Marked(number)];
    BegunMore(number, [], number);
    Store(buffer, at, Marked(number), was, [], at);
    if number < 0x4000 {
      BegunLast(number, s, number / 0x80);
      Store(buffer, at + 1, number / 0x80, was, s, at);
      return 2;
    }
    BegunMore(number, s, number / 0x80);
    Store(buffer, at + 1, Marked(number / 0x80), was, s, at);
    s := s + [Marked(number / 0x80)];
    Shifts(number);
    if number < 0x20_0000 {
      BegunLast(number, s, number / 0x4000);
      Store(buffer, at + 2, number / 0x4000, was, s, at);
      return 3;
    }
    BegunMore(number, s, number / 0x4000);
    Store(buffer, at + 2, Marked(number / 0x4000), was, s, at);
    s := s + [Marked(number / 0x4000)];
    if number < 0x1000_0000 {
      BegunLast(number, s, number / 0x20_0000);
      Store(buffer, at + 3, number / 0x20_0000, was, s, at);
      return 4;
    }
    BegunMore(number, s, number / 0x20_0000);
    Store(buffer, at + 3, Marked(number / 0x20_0000), was, s, at);
    s := s + [Marked(number / 0x20_0000)];
    BegunLast(number, s, number / 0x1000_0000);
    Store(buffer, at + 4, number / 0x1000_0000, was, s, at);
    return 5;
  }

  /** Successive shifts by seven bits. */
  lemma Shifts(n: nat)
    ensures n / 0x80 / 128 == n / 0x4000 && n / 0x4000 / 128 == n / 0x20_0000 && n / 0x20_0000 / 128 == n / 0x1000_0000
  {
  }

  /** _pbcV_encode */
  method Encode(number0: ULLong, buffer: array<Octet>, at: nat) returns (len: nat)
    requires at + 10 <= buffer.Length
    modifies buffer
    ensures len == |Encoded(number0)| <= 10
    ensures buffer[..] == Patched(old(buffer[..]), at, Encoded(number0))
  {
    hide Encoded, Patched, Pow;
    EncodedFits(number0);
    if number0 < 0x1_0000_0000 {
      len := Encode32(number0, buffer, at);
      return;
    }
    ghost var was := buffer[..];
    ghost var s: seq<Octet> := [];
    PatchedNone(was, at);
    BegunNone(number0);
    var number, i := number0, 0;
    while true
      invariant number >= 128 && i == |s| && i < 10
      invariant Begun(number0, s, number) && buffer[..] == Patched(was, at, s)
      decreases number
    {
      BegunMore(number0, s, number);
      ShortEnough(number0, s + [Marked(number)], number / 128);
      Store(buffer, at + i, Marked(number), was, s, at);
      s := s + [Marked(number)];
      number := number / 128;
      i := i + 1;
      if number < 0x80 {
        break;
      }
    }
    BegunLast(number0, s, number);
    Store(buffer, at + i, number, was, s, at);
    len := i + 1;
  }

  lemma ShortEnough(n: nat, s: seq<Octet>, rest: nat)
    requires Begun(n, s, rest) && |Encoded(n)| <= 10
    ensures |s| < 10
  {
  }

  // ---------------------------------------------------------------- decoding

  /** What a varint at i amounts to: not ended within the buffer, not ended within ten bytes, or a number and its length. */
  datatype Var = Cut | Overlong | Got(n: nat, len: nat)

  /** The bytes from the j-th on, weight being the weight of the j-th group. */
  function ReadFrom(s: seq<Octet>, i: nat, j: nat): (v: Var)
    requires j <= 10
    ensures v.Got? ==> j < v.len <= 10 && i + v.len <= |s|
    ensures v.Overlong? ==> i + 10 <= |s|
    decreases 10 - j
  {
    if j == 10 then (if i + 10 <= |s| then Overlong else Cut)
    else if i + j >= |s| then Cut
    else if s[i + j] < 128 then Got(s[i + j], j + 1)
    else
      var v := ReadFrom(s, i, j + 1);
      if v.Got? then Got(s[i + j] - 128 + 128 * v.n, v.len) else v
  }

  function Read(s: seq<Octet>, i: nat): (v: Var)
    ensures v.Got? ==> 0 < v.len <= 10
    ensures !v.Cut? ==> 0 < DecodedLength(v) && i + DecodedLength(v) <= |s|
  {
    ReadFrom(s, i, 0)
  }

  /** The 64-bit value and the length that decoding yields: 0 and 10 for a number that does not end. */
  function DecodedValue(v: Var): ULLong
  {
    if v.Got? then v.n % 0x1_0000_0000_0000_0000 else 0
  }

  function DecodedLength(v: Var): nat
  {
    if v.Got? then v.len else 10
  }

  lemma {:induction false} ReadBack(s: seq<Octet>, i: nat, j: nat, n: nat)
    requires i + j + |Encoded(n)| <= |s| && s[i + j..i + j + |Encoded(n)|] == Encoded(n) && j + |Encoded(n)| <= 10
    ensures ReadFrom(s, i, j) == Got(n, j + |Encoded(n)|)
    decreases n
  {
    var e := Encoded(n);
    assert s[i + j] == e[0];
    if n >= 128 {
      assert s[i + j + 1..i + j + |e|] == s[i + j..i + j + |e|][1..] == Encoded(n / 128);
      ReadBack(s, i, j + 1, n / 128);
    }
  }

  /** Decoding undoes encoding wherever the number stands. */
  lemma RoundTrip(a: seq<Octet>, n: ULLong, b: seq<Octet>)
    ensures Read(a + Encoded(n) + b, |a|) == Got(n, |Encoded(n)|)
    ensures DecodedValue(Read(a + Encoded(n) + b, |a|)) == n
  {
    hide Encoded, ReadFrom;
    EncodedFits(n);
    var e := Encoded(n);
    var s := a + e + b;
    assert s[|a|..|a| + |e|] == e;
    ReadBack(s, |a|, 0, n);
  }

  /** The groups of seven bits in the first len bytes from i on, each by its weight. */
  function GroupSum(s: seq<Octet>, i: nat, len: nat): nat
    requires i + len <= |s|
  {
    if len == 0 then 0 else GroupSum(s, i, len - 1) + s[i + len - 1] % 128 * Pow(128, len - 1)
  }

  /** The first n bytes from i on are marked: another one follows each. */
  predicate MarkedTo(s: seq<Octet>, i: nat, n: nat)
  {
    i + n <= |s| && forall k :: i <= k < i + n ==> s[k] >= 128
  }

  lemma {:induction false} GroupsFrom(s: seq<Octet>, i: nat, j: nat, len: nat) returns (n: nat)
    requires j < len <= 10 && i + len <= |s| && MarkedTo(s, i, len - 1) && s[i + len - 1] < 128
    ensures ReadFrom(s, i, j) == Got(n, len) && GroupSum(s, i, j) + Pow(128, j) * n == GroupSum(s, i, len)
    decreases len - j
  {
    hide Pow, GroupSum;
    SumMore(s, i, j);
    if j == len - 1 {
      n := s[i + j];
    } else {
      var m := GroupsFrom(s, i, j + 1, len);
      n := s[i + j] - 128 + 128 * m;
      NextWeight(s[i + j] - 128, m, j);
    }
  }

  lemma SumMore(s: seq<Octet>, i: nat, j: nat)
    requires i + j < |s|
    ensures var c := s[i + j];
      GroupSum(s, i, j + 1) == GroupSum(s, i, j) + (if c < 128 then c else c - 128) * Pow(128, j)
  {
    hide Pow;
    assert s[i + j] % 128 == if s[i + j] < 128 then s[i + j] else s[i + j] - 128;
  }

  lemma NextWeight(g: nat, m: nat, j: nat)
    ensures Pow(128, j) * (g + 128 * m) == g * Pow(128, j) + Pow(128, j + 1) * m
  {
    assert Pow(128, j + 1) == 128 * Pow(128, j);
    assert Pow(128, j) * (128 * m) == (128 * Pow(128, j)) * m;
  }

  /** Any bytes, not only shortest encodings, are read as the sum of their groups; ten marked ones do not end. */
  lemma GroupsRead(s: seq<Octet>, i: nat, len: nat)
    requires 1 <= len <= 10 && MarkedTo(s, i, len - 1) && i + len <= |s|
    ensures s[i + len - 1] < 128 ==> Read(s, i) == Got(GroupSum(s, i, len), len)
    ensures len == 10 && s[i + 9] >= 128 ==> Read(s, i) == Overlong
  {
    hide GroupSum;
    if s[i + len - 1] < 128 {
      var n := GroupsFrom(s, i, 0, len);
      NoGroups(s, i);
    } else if len == 10 {
      AllMarked(s, i, 0);
    }
  }

  lemma NoGroups(s: seq<Octet>, i: nat)
    requires i <= |s|
    ensures GroupSum(s, i, 0) == 0 && Pow(128, 0) == 1
  {
  }

  lemma {:induction false} AllMarked(s: seq<Octet>, i: nat, j: nat)
    requires j <= 10 && MarkedTo(s, i, 10)
    ensures ReadFrom(s, i, j) == Overlong
    decreases 10 - j
  {
    if j < 10 {
      AllMarked(s, i, j + 1);
    }
  }

  /** r + 128^j * rest is the number read once the rest is known. */
  ghost predicate Summed(s: seq<Octet>, i: nat, j: nat, r: nat)
    requires j <= 10
  {
    var v, w := Read(s, i), ReadFrom(s, i, j);
    && (v.Got? <==> w.Got?) && (v.Cut? <==> w.Cut?) && r < Pow(128, j)
    && (v.Got? ==> v.n == r + Pow(128, j) * w.n && v.len == w.len)
  }

  lemma SummedStart(s: seq<Octet>, i: nat)
    ensures Summed(s, i, 0, 0)
  {
  }

  /** What the j-th byte contributes to the number. */
  function Part(s: seq<Octet>, i: nat, j: nat): nat
    requires i + j < |s|
  {
    s[i + j] as int % 128 * Pow(128, j)
  }

  lemma SummedNext(s: seq<Octet>, i: nat, j: nat, r: nat)
    requires j < 10 && Summed(s, i, j, r) && i + j < |s|
    ensures s[i + j] >= 128 ==> Summed(s, i, j + 1, r + Part(s, i, j))
    ensures s[i + j] < 128 ==> Read(s, i) == Got(r + Part(s, i, j), j + 1)
    ensures r + Part(s, i, j) < Pow(128, j + 1)
  {
    hide Read, ReadFrom;
    var c := s[i + j];
    StepBound(r, c % 128, Pow(128, j));
    ReadStep(s, i, j);
    var w := ReadFrom(s, i, j + 1);
    if c >= 128 && w.Got? {
      StepValue(r, c % 128, Pow(128, j), w.n);
    }
  }

  lemma ReadStep(s: seq<Octet>, i: nat, j: nat)
    requires j < 10 && i + j < |s|
    ensures var v, w := ReadFrom(s, i, j), ReadFrom(s, i, j + 1);
      if s[i + j] < 128 then v == Got(s[i + j] % 128, j + 1)
      else if w.Got? then v == Got(s[i + j] % 128 + 128 * w.n, w.len)
      else v == w
  {
  }

  lemma StepBound(r: nat, g: nat, p: nat)
    requires r < p && g < 128
    ensures r + g * p < 128 * p && p * g == g * p
  {
    MulMonotone(g + 1, 128, p);
    assert (g + 1) * p == g * p + p;
  }

  lemma StepValue(r: nat, g: nat, p: nat, n: nat)
    ensures r + p * (g + 128 * n) == r + g * p + (128 * p) * n
  {
    assert p * (g + 128 * n) == p * g + p * (128 * n);
    assert p * (128 * n) == (128 * p) * n;
  }

  /** hi and low of a number whose first four groups are r and whose others are lr. */
  lemma HiAndLow(r: nat, lr: nat)
    requires r < 0x1000_0000
    ensures var v := LongLong(r + lr % 16 * 0x1000_0000, lr / 16 % 0x1_0000_0000);
      Join(v) == (r + 0x1000_0000 * lr) % 0x1_0000_0000_0000_0000
  {
    var q := lr / 16 / 0x1_0000_0000;
    var n := r + 0x1000_0000 * lr;
    var v := LongLong(r + lr % 16 * 0x1000_0000, lr / 16 % 0x1_0000_0000);
    assert n == Join(v) + 0x1_0000_0000_0000_0000 * q;
    ModUnique(n, q, Join(v));
  }

  lemma ModUnique(n: nat, q: nat, r: nat)
    requires n == r + 0x1_0000_0000_0000_0000 * q && r < 0x1_0000_0000_0000_0000
    ensures n % 0x1_0000_0000_0000_0000 == r
  {
  }

  lemma FourthPower()
    ensures Pow(128, 4) == 0x1000_0000 && Pow(128, 0) == 1
  {
    assert Pow(128, 1) == 128 * Pow(128, 0);
    assert Pow(128, 2) == 128 * Pow(128, 1);
    assert Pow(128, 3) == 128 * Pow(128, 2);
    assert Pow(128, 4) == 128 * Pow(128, 3);
  }

  /** Ten bytes, or fewer when one of them ends the number, can be read. */
  predicate Readable(s: seq<Octet>, i: nat)
  {
    !Read(s, i).Cut?
  }

  lemma InBounds(s: seq<Octet>, i: nat, j: nat, r: nat)
    requires j < 10 && Readable(s, i) && Summed(s, i, j, r)
    ensures i + j < |s|
  {
  }

  lemma FourGroups(r: nat, k: nat)
    requires k <= 4 && r < Pow(128, k)
    ensures r < 0x1000_0000
  {
    PowMonotone(128, k, 4);
    FourthPower();
  }

  lemma SummedBound(s: seq<Octet>, i: nat, r: nat)
    requires Summed(s, i, 4, r)
    ensures r < 0x1000_0000
  {
    FourGroups(r, 4);
  }

  /** Groups from the fourth on are 28 bits up. */
  lemma GroupsAbove(c: nat, j: nat)
    requires 4 <= j
    ensures c * Pow(128, j) == 0x1000_0000 * (c * Pow(128, j - 4))
  {
    FourthPower();
    PowAdd(128, 4, j - 4);
  }

  lemma NoEnd(s: seq<Octet>, i: nat, r: nat)
    requires Readable(s, i) && Summed(s, i, 10, r)
    ensures Read(s, i) == Overlong
  {
  }

  /** _pbcV_decode; masks and shifts of groups that do not overlap are written as arithmetic. */
  method Decode(buffer: seq<Octet>, at: nat) returns (result: LongLong, len: nat)
    requires Readable(buffer, at)
    ensures Join(result) == DecodedValue(Read(buffer, at)) && len == DecodedLength(Read(buffer, at))
  {
    hide Pow, ReadFrom, Summed, Readable;
    var r: nat, lr: nat := 0, 0;
    SummedStart(buffer, at);
    for i := 0 to 4
      invariant Summed(buffer, at, i, r)
    {
      InBounds(buffer, at, i, r);
      SummedNext(buffer, at, i, r);
      r := r + buffer[at + i] % 128 * Pow(128, i);
      if buffer[at + i] < 128 {
        FourGroups(r, i + 1);
        return LongLong(r, 0), i + 1;
      }
    }
    SummedBound(buffer, at, r);
    for i := 4 to 10
      invariant Summed(buffer, at, i, r + 0x1000_0000 * lr)
    {
      InBounds(buffer, at, i, r + 0x1000_0000 * lr);
      SummedNext(buffer, at, i, r + 0x1000_0000 * lr);
      GroupsAbove(buffer[at + i] % 128, i);
      lr := lr + buffer[at + i] % 128 * Pow(128, i - 4);
      if buffer[at + i] < 128 {
        HiAndLow(r, lr);
        return LongLong(r + lr % 16 * 0x1000_0000, lr / 16 % 0x1_0000_0000), i + 1;
      }
    }
    NoEnd(buffer, at, r + 0x1000_0000 * lr);
    return LongLong(0, 0), 10;
  }

  // ---------------------------------------------------------------- zigzag

  /** x ^ mask, where mask is all ones or 0. */
  function Flip32(x: ULong, on: bool): ULong
  {
    if on then 0xFFFF_FFFF - x else x
  }

  function Flip64(x: ULLong, on: bool): ULLong
  {
    if on then 0xFFFF_FFFF_FFFF_FFFF - x else x
  }

  /** (n << 1) ^ (n >> 63) on the word that holds n; the shift to the right copies the sign. */
  function Zigzag64(n: ULLong): ULLong
  {
    Flip64(2 * n % 0x1_0000_0000_0000_0000, n >= 0x8000_0000_0000_0000)
  }

  function Zigzag32(n: ULong): ULong
  {
    Flip32(2 * n % 0x1_0000_0000, n >= 0x8000_0000)
  }

  /** _pbcV_dezigzag64 */
  function Dezigzag64(r: LongLong): LongLong
  {
    LongLong(Flip32(r.low / 2 + r.hi % 2 * 0x8000_0000, r.low % 2 == 1), Flip32(r.hi / 2, r.low % 2 == 1))
  }

  /** The low half of what _pbcV_dezigzag32 leaves. */
  function Dezigzag32(low: ULong): ULong
  {
    Flip32(low / 2, low % 2 == 1)
  }

  /** The two's complement word of a signed number. */
  function Word64(i: int): ULLong
    requires -0x8000_0000_0000_0000 <= i < 0x8000_0000_0000_0000
  {
    if i < 0 then i + 0x1_0000_0000_0000_0000 else i
  }

  function Word32(i: int): ULong
    requires -0x8000_0000 <= i < 0x8000_0000
  {
    if i < 0 then i + 0x1_0000_0000 else i
  }

  /** Small numbers of either sign have small codes. */
  lemma ZigzagInterleaves(i: int)
    ensures -0x8000_0000_0000_0000 <= i < 0x8000_0000_0000_0000 ==>
              Zigzag64(Word64(i)) == if i >= 0 then 2 * i else -2 * i - 1
    ensures -0x8000_0000 <= i < 0x8000_0000 ==>
              Zigzag32(Word32(i)) == if i >= 0 then 2 * i else -2 * i - 1
  {
  }

  lemma HalvesHalved(v: LongLong)
    ensures v.low / 2 + v.hi % 2 * 0x8000_0000 < 0x1_0000_0000 && v.low % 2 == Join(v) % 2
    ensures v.low / 2 + v.hi % 2 * 0x8000_0000 + v.hi / 2 * 0x1_0000_0000 == Join(v) / 2
  {
    DivTwo(v.low, v.low / 2, v.low % 2);
    DivTwo(v.hi, v.hi / 2, v.hi % 2);
    DivTwo(Join(v), v.low / 2 + v.hi % 2 * 0x8000_0000 + v.hi / 2 * 0x1_0000_0000, v.low % 2);
  }

  lemma DivTwo(n: int, q: int, r: int)
    ensures n == 2 * q + r && 0 <= r < 2 ==> n / 2 == q && n % 2 == r
    ensures n == 2 * (n / 2) + n % 2
  {
  }

  lemma Zigzag64Back(n: ULLong)
    ensures Join(Dezigzag64(Halves(Zigzag64(n)))) == n
  {
    var z := Zigzag64(n);
    var v := Halves(z);
    HalvesHalved(v);
    Undoubled(n);
    hide Halves, Zigzag64;
    var d := Dezigzag64(v);
    if z % 2 == 1 {
      assert Join(d) == 0xFFFF_FFFF_FFFF_FFFF - z / 2;
    } else {
      assert Join(d) == z / 2;
    }
  }

  lemma Undoubled(n: ULLong)
    ensures var z := Zigzag64(n); n == Flip64(z / 2, z % 2 == 1)
  {
  }

  lemma Zigzag32Back(n: ULong)
    ensures Dezigzag32(Zigzag32(n)) == n
  {
  }
}
