/** strbuf.c and strbuf.h: a growing character buffer, with appends that check for room and appends that do not. */
module StringBuffer {
  import opened Limbs

  const DEFAULT_SIZE: nat := 1023
  const DEFAULT_INCREMENT: int := -2

  /** size after j rounds of exponential growth. */
  function Grown(size: nat, factor: nat, j: nat): nat
  {
    size * Pow(factor, j)
  }

  /** Linear growth rounds the present size up, whatever was asked for. */
  function RoundedUp(size: nat, inc: nat): nat
    requires inc > 0
  {
    (size + inc - 1) / inc * inc
  }

  ghost predicate GrewTo(size: nat, factor: nat, j: nat, n: nat)
  {
    n == Grown(size, factor, j)
  }

  ghost predicate Reachable(size: nat, factor: nat, n: nat)
  {
    exists j: nat :: GrewTo(size, factor, j, n)
  }

  function Times(n: nat, factor: nat): nat
  {
    n * factor
  }

  /** What calculate_new_size returns for a request of req bytes. */
  ghost predicate NewSize(size: nat, increment: int, req: nat, n: nat)
    requires increment != 0
  {
    if size > req then n == req
    else if increment < 0 then
      n >= req && Reachable(size, -increment, n) && (n == size || n < Times(req, -increment))
    else n == RoundedUp(size, increment)
  }

  class StrBuf {
    var buf: array<char>
    var length: nat
    var increment: int

    /** There is always room for a NUL. */
    ghost predicate Valid()
      reads this
    {
      length < buf.Length && increment != 0 && increment != -1
    }

    /** A buffer that grows by a factor, as every buffer does unless it is told otherwise. */
    ghost predicate Growing()
      reads this
    {
      Valid() && increment < 0
    }

    /** Room for len more characters, now or after one growth. */
    ghost predicate Takes(len: nat)
      reads this
    {
      len <= EmptyLength() || increment < 0 || (increment > 0 && RoundedUp(buf.Length, increment) > length + len)
    }

    ghost function Text(): string
      reads this, buf
      requires Valid()
    {
      buf[..length]
    }

    /** strbuf_init */
    constructor (len: int)
      ensures Valid() && Text() == "" && fresh(buf) && increment == DEFAULT_INCREMENT
      ensures buf.Length == if len <= 0 then DEFAULT_SIZE else len + 1
      ensures buf[0] == '\0'
    {
      var size := if len <= 0 then DEFAULT_SIZE else len + 1;
      buf := new char[size](_ => '\0');
      length, increment := 0, DEFAULT_INCREMENT;
    }

    function EmptyLength(): int
      reads this
    {
      buf.Length - length - 1
    }

    /** strbuf_resize: what does not fit in the new size is cut off, whatever the length says. */
    method Resize(len: nat)
      requires Valid() && len > 0
      modifies this
      ensures length == old(length) && increment == old(increment) && fresh(buf)
      ensures NewSize(old(buf.Length), increment, len + 1, buf.Length)
      ensures length < buf.Length ==> Valid() && Text() == old(Text())
      ensures length >= buf.Length ==> buf[..] == old(Text())[..buf.Length]
    {
      var n := CalculateNewSize(buf.Length, increment, len);
      var b := new char[n];
      var m := if n < buf.Length then n else buf.Length;
      forall i | 0 <= i < m {
        b[i] := buf[i];
      }
      assert b[..m] == buf[..m];
      ghost var text := buf[..length];
      assert length < n ==> b[..length] == b[..m][..length] == text;
      assert length >= n ==> b[..] == text[..n];
      buf := b;
    }

    /** strbuf_ensure_empty_length: there is room afterwards exactly when one growth makes it. */
    method EnsureEmptyLength(len: nat)
      requires Valid()
      modifies this
      ensures Valid() && Text() == old(Text()) && length == old(length) && increment == old(increment)
      ensures EmptyLength() >= len <==> old(Takes(len))
      ensures buf == old(buf) || fresh(buf)
      ensures old(EmptyLength()) >= len ==> buf == old(buf)
    {
      hide Times, Reachable, RoundedUp;
      if len > EmptyLength() {
        RoundsUp(buf.Length, increment);
        Resize(length + len);
      }
    }

    /** strbuf_append_char_unsafe: the caller answers for the room. */
    method AppendCharUnsafe(c: char)
      requires Valid() && EmptyLength() >= 1
      modifies this`length, buf
      ensures Valid() && Text() == old(Text()) + [c] && length == old(length) + 1
    {
      buf[length] := c;
      length := length + 1;
    }

    method AppendMemUnsafe(mem: string)
      requires Valid() && EmptyLength() >= |mem|
      modifies this`length, buf
      ensures Valid() && Text() == old(Text()) + mem && length == old(length) + |mem|
    {
      ghost var was := buf[..length];
      forall i | 0 <= i < |mem| {
        buf[length + i] := mem[i];
      }
      length := length + |mem|;
      assert buf[..length] == was + mem;
    }

    method AppendChar(c: char)
      requires Valid() && Takes(1)
      modifies this, buf
      ensures Valid() && Text() == old(Text()) + [c] && increment == old(increment)
      ensures buf == old(buf) || fresh(buf)
    {
      EnsureEmptyLength(1);
      AppendCharUnsafe(c);
    }

    method AppendMem(mem: string)
      requires Valid() && Takes(|mem|)
      modifies this, buf
      ensures Valid() && Text() == old(Text()) + mem && increment == old(increment)
      ensures buf == old(buf) || fresh(buf)
    {
      EnsureEmptyLength(|mem|);
      AppendMemUnsafe(mem);
    }

    /**
     strbuf_append_string: character by character, growing when there is no room left. A linear buffer grows once at
     most, so the condition is that of strbuf_append_mem.
     */
    method AppendString(str: string)
      requires Valid() && Takes(|str|)
      modifies this, buf
      ensures Valid() && Text() == old(Text()) + str && increment == old(increment) && length == old(length) + |str|
      ensures buf == old(buf) || fresh(buf)
      ensures old(EmptyLength()) >= |str| ==> buf == old(buf)
    {
      hide Times, Reachable, RoundedUp;
      var space := EmptyLength();
      ghost var size := buf.Length;
      RoundsUp(size, increment);
      assert old(Text()) + str[..0] == old(Text());
      for i := 0 to |str|
        invariant Valid() && space == EmptyLength() && length == old(length) + i
        invariant Text() == old(Text()) + str[..i] && increment == old(increment)
        invariant buf == old(buf) || fresh(buf)
        invariant old(EmptyLength()) >= |str| ==> buf == old(buf)
        invariant increment > 0 ==> buf.Length == size || buf.Length == RoundedUp(size, increment)
      {
        if space < 1 {
          Resize(length + 1);
          space := EmptyLength();
        }
        AppendCharUnsafe(str[i]);
        space := space - 1;
        assert str[..i + 1] == str[..i] + [str[i]];
      }
      assert str[..|str|] == str;
    }

    /** strbuf_set_increment; the program aborts on 0 and -1. */
    method SetIncrement(n: int)
      requires Valid() && n != 0 && n != -1
      modifies this`increment
      ensures Valid() && Text() == old(Text()) && increment == n && EmptyLength() == old(EmptyLength())
    {
      increment := n;
    }

    /** strbuf_reset */
    method Reset()
      requires Valid()
      modifies this`length
      ensures Valid() && Text() == ""
    {
      length := 0;
    }

    /** strbuf_ensure_null */
    method EnsureNull()
      requires Valid()
      modifies buf
      ensures Valid() && Text() == old(Text()) && buf[length] == '\0'
    {
      buf[length] := '\0';
    }
  }

  /** calculate_new_size; the program aborts on a length that is not positive. */
  method CalculateNewSize(size: nat, increment: int, len: nat) returns (newsize: nat)
    requires len > 0 && size > 0 && increment != 0 && increment != -1
    ensures NewSize(size, increment, len + 1, newsize)
  {
    hide Times, Grown;
    var reqsize := len + 1;
    if size > reqsize {
      return reqsize;
    }
    newsize := size;
    if increment < 0 {
      var factor := -increment;
      ghost var j: nat := 0;
      NotGrown(size, factor);
      while newsize < reqsize
        invariant GrewTo(size, factor, j, newsize) && newsize > 0
        invariant newsize == size || newsize < Times(reqsize, factor)
        decreases reqsize - newsize
      {
        GrowsBy(newsize, reqsize, factor);
        GrownNext(size, factor, j);
        newsize := Times(newsize, factor);
        j := j + 1;
      }
      assert GrewTo(size, -increment, j, newsize);
    } else {
      newsize := RoundedUp(size, increment);
    }
  }

  lemma GrowsBy(n: nat, req: nat, factor: nat)
    requires 0 < n < req && factor >= 2
    ensures n < Times(n, factor) < Times(req, factor)
  {
    MulMonotone(n + 1, req, factor);
    MulMonotone(2, factor, n);
    assert (n + 1) * factor == n * factor + factor;
  }

  lemma NotGrown(size: nat, factor: nat)
    ensures GrewTo(size, factor, 0, size)
  {
  }

  lemma GrownNext(size: nat, factor: nat, j: nat)
    ensures Grown(size, factor, j + 1) == Times(Grown(size, factor, j), factor)
  {
    assert size * (factor * Pow(factor, j)) == (size * Pow(factor, j)) * factor;
  }

  /** Exponential growth always makes room; linear growth exactly when rounding the old size up happens to be enough. */
  lemma MakesRoom(size: nat, increment: int, req: nat, n: nat)
    requires size > 0 && increment != 0 && NewSize(size, increment, req, n)
    ensures n >= req <==> size > req || increment < 0 || RoundedUp(size, increment) >= req
  {
  }

  lemma RoundsUp(size: nat, increment: int)
    ensures increment > 0 ==>
      size <= RoundedUp(size, increment) && RoundedUp(RoundedUp(size, increment), increment) == RoundedUp(size, increment)
  {
    if increment > 0 {
      var q := (size + increment - 1) / increment;
      assert q * increment + increment > size + increment - 1 by {
        assert size + increment - 1 == q * increment + (size + increment - 1) % increment;
      }
      QuotientOf(q, increment);
    }
  }

  lemma QuotientOf(q: nat, inc: nat)
    requires inc > 0
    ensures (q * inc + inc - 1) / inc == q
  {
    var x := q * inc + inc - 1;
    assert x == x / inc * inc + x % inc;
    if x / inc < q {
      MulMonotone(x / inc + 1, q, inc);
    } else if x / inc > q {
      MulMonotone(q + 1, x / inc, inc);
    }
  }

  lemma LinearStaysShort()
    ensures NewSize(16, 8, 101, 16)
  {
  }
}
