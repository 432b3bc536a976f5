/** lrandom.c: the 32-bit Mersenne Twister. */
module Twister32 {
  import opened Recurrence

  const N: nat := 624
  const M: nat := 397
  const MATRIX_A: bv32 := 0x9908b0df
  const UPPER_MASK: bv32 := 0x80000000
  const LOWER_MASK: bv32 := 0x7fffffff

  /** x[j + N] from x[j + M], x[j] and x[j + 1]. */
  function Next(far: bv32, upper: bv32, lower: bv32): bv32
  {
    var y := (upper & UPPER_MASK) | (lower & LOWER_MASK);
    far ^ (y >> 1) ^ (if y & 1 == 0 then 0 else MATRIX_A)
  }

  function Mix(x: bv32, k: nat): bv32
    requires k < N
  {
    1812433253 * (x ^ (x >> 30)) + (k as bv32)
  }

  /** The k-th word of the state after seeding. */
  function Seeded(s: bv32, k: nat): bv32
    requires k < N
  {
    if k == 0 then s else Mix(Seeded(s, k - 1), k)
  }

  function Temper(x: bv32): bv32
  {
    Temper4(Temper3(Temper2(Temper1(x))))
  }

  function Temper1(y: bv32): bv32
  {
    y ^ (y >> 11)
  }

  function Temper2(y: bv32): bv32
  {
    y ^ ((y << 7) & 0x9d2c5680)
  }

  function Temper3(y: bv32): bv32
  {
    y ^ ((y << 15) & 0xefc60000)
  }

  function Temper4(y: bv32): bv32
  {
    y ^ (y >> 18)
  }

  function Undo1(z: bv32): bv32
  {
    z ^ (z >> 11) ^ (z >> 22)
  }

  lemma Untemper1(y: bv32)
    ensures Undo1(y ^ (y >> 11)) == y
  {
  }

  lemma Injective1(x: bv32, y: bv32)
    requires Temper1(x) == Temper1(y)
    ensures x == y
  {
    hide Undo1;
    Untemper1(x);
    Untemper1(y);
  }

  function Undo2(z: bv32): bv32
  {
    z ^ ((z << 7) & 0x9d2c5680) ^ ((z << 14) & 0x94284000) ^ ((z << 21) & 0x14200000) ^ ((z << 28) & 0x10000000)
  }

  lemma Untemper2(y: bv32)
    ensures Undo2(y ^ ((y << 7) & 0x9d2c5680)) == y
  {
  }

  lemma Injective2(x: bv32, y: bv32)
    requires Temper2(x) == Temper2(y)
    ensures x == y
  {
    hide Undo2;
    Untemper2(x);
    Untemper2(y);
  }

  function Undo3(z: bv32): bv32
  {
    z ^ ((z << 15) & 0xefc60000)
  }

  lemma Untemper3(y: bv32)
    ensures Undo3(y ^ ((y << 15) & 0xefc60000)) == y
  {
  }

  lemma Injective3(x: bv32, y: bv32)
    requires Temper3(x) == Temper3(y)
    ensures x == y
  {
    hide Undo3;
    Untemper3(x);
    Untemper3(y);
  }

  function Undo4(z: bv32): bv32
  {
    z ^ (z >> 18)
  }

  lemma Untemper4(y: bv32)
    ensures Undo4(y ^ (y >> 18)) == y
  {
  }

  lemma Injective4(x: bv32, y: bv32)
    requires Temper4(x) == Temper4(y)
    ensures x == y
  {
    hide Undo4;
    Untemper4(x);
    Untemper4(y);
  }

  /** Tempering loses nothing: different terms give different numbers. */
  lemma TemperInjective(x: bv32, y: bv32)
    requires Temper(x) == Temper(y)
    ensures x == y
  {
    hide Temper1, Temper2, Temper3, Temper4;
    var x1, y1 := Temper1(x), Temper1(y);
    var x2, y2 := Temper2(x1), Temper2(y1);
    var x3, y3 := Temper3(x2), Temper3(y2);
    Injective4(x3, y3);
    Injective3(x2, y2);
    Injective2(x1, y1);
    Injective1(x, y);
  }

  /** The k-th word drawn after seeding with s, by the recurrence alone. */
  function Word(s: bv32, k: nat): bv32
  {
    Temper(Term(Start(s), N, M, Next, N + k))
  }

  function Start(s: bv32): (r: seq<bv32>)
    ensures |r| == N && forall k :: 0 <= k < N ==> r[k] == Seeded(s, k)
  {
    seq(N, k requires 0 <= k < N => Seeded(s, k))
  }

  class MT {
    const v: array<bv32>
    var mti: nat
    ghost var seed: bv32
    ghost var drawn: nat

    /** Seeded, with drawn words taken since. */
    ghost predicate Valid()
      reads this, v
    {
      v.Length == N && mti <= N && drawn + N >= mti && Block(v[..], Start(seed), N, M, Next, drawn + N - mti)
    }

    constructor (s: bv32)
      ensures Valid() && seed == s && drawn == 0 && fresh(v)
    {
      v := new bv32[N];
      mti := N + 1;
      new;
      InitGenrand(s);
    }

    /** init_genrand */
    method InitGenrand(s: bv32)
      requires v.Length == N
      modifies this, v
      ensures Valid() && seed == s && drawn == 0
    {
      hide Seeded, Mix, Start, Block, Next;
      v[0] := s;
      mti := 1;
      SeededFirst(s);
      while mti < N
        invariant 1 <= mti <= N && v.Length == N
        invariant forall k :: 0 <= k < mti ==> v[k] == Seeded(s, k)
      {
        SeededNext(s, mti);
        assert v[mti - 1] == Seeded(s, mti - 1);
        v[mti] := Mix(v[mti - 1], mti);
        mti := mti + 1;
      }
      seed, drawn := s, 0;
      assert v[..] == Start(s);
      BlockStart(v[..], M, Next);
    }

    /** genrand_int32: the next word in the order of the recurrence, whenever the block is regenerated. */
    method GenrandInt32() returns (y: bv32)
      requires Valid()
      modifies this, v
      ensures Valid() && seed == old(seed) && drawn == old(drawn) + 1
      ensures y == Word(seed, old(drawn))
    {
      hide Block, Term, Start, Temper1, Temper2, Temper3, Temper4;
      if mti >= N {
        Regenerate(v, N, M, Next, Start(seed), drawn + N - mti);
        mti := 0;
      }
      BlockAt(v[..], Start(seed), N, M, Next, drawn + N - mti, mti);
      y := v[mti];
      mti := mti + 1;
      drawn := drawn + 1;
      y := Temper1(y);
      y := Temper2(y);
      y := Temper3(y);
      y := Temper4(y);
    }
  }

  lemma SeededFirst(s: bv32)
    ensures Seeded(s, 0) == s
  {
    hide Mix;
  }

  lemma SeededNext(s: bv32, k: nat)
    requires 0 < k < N
    ensures Seeded(s, k) == Mix(Seeded(s, k - 1), k)
  {
    hide Mix;
  }

  // ---------------------------------------------------------------- dying out

  /** Only the upper bit of the first word of a state ever matters. */
  predicate Faint(x: bv32)
  {
    x & UPPER_MASK == 0
  }

  lemma NextBackwards(u: bv32, l: bv32)
    requires Next(0, u, l) == 0 && Faint(l)
    ensures Faint(u) && l == 0
  {
  }

  lemma AllBackwards()
    ensures Backwards(Next, 0, Faint) && Faint(0)
  {
    hide Next, Faint;
    forall u, l | Next(0, u, l) == 0 && Faint(l) ensures Faint(u) && l == 0 {
      NextBackwards(u, l);
    }
    assert Faint(0) by { ZeroFaint(); }
  }

  lemma ZeroFaint()
    ensures Faint(0)
  {
  }

  lemma ZeroTempered()
    ensures Temper(0) == 0
  {
  }

  lemma MixOfZero()
    ensures Mix(0, 2) == 2
  {
  }

  /** Whatever the seed, some word is not zero among any N in a row: the generator never dies out. */
  lemma NeverZero(s: bv32, i: nat)
    ensures exists k :: i <= k < i + N && Word(s, k) != 0
  {
    hide Next, Faint, Term, Temper, Seeded, Mix;
    AllBackwards();
    ZeroTempered();
    SeededNext(s, 2);
    MixOfZero();
    DeadStart(Start(s), N, M, Next, 0, Faint);
    if forall k :: i <= k < i + N ==> Word(s, k) == 0 {
      forall k | i + N <= k < i + N + N ensures Term(Start(s), N, M, Next, k) == 0 {
        assert Word(s, k - N) == 0;
        TemperInjective(Term(Start(s), N, M, Next, k), 0);
      }
      DeadFromStart(Start(s), N, M, Next, 0, Faint, i + N);
    }
  }

  // ---------------------------------------------------------------- value(a, b)

  /** Two's complement of 32 bits. */
  function Wrap32(x: int): int
  {
    (x + 0x8000_0000) % 0x1_0000_0000 - 0x8000_0000
  }

  /** a + floor(r * (b - a + 1)) with r = word / 2^32, in exact arithmetic; b - a + 1 is an int. */
  function Scaled(a: int, b: int, word: int): int
  {
    a + word * Wrap32(b - a + 1) / 0x1_0000_0000
  }

  /** Lvalue with two bounds in either order. */
  function Value(a: int, b: int, word: int): int
  {
    if a > b then Scaled(b, a, word) else Scaled(a, b, word)
  }

  predicate Int32(x: int)
  {
    -0x8000_0000 <= x < 0x8000_0000
  }

  predicate WordRange(w: int)
  {
    0 <= w < 0x1_0000_0000
  }

  lemma FloorBelow(w: int, c: int)
    requires WordRange(w) && 0 < c
    ensures 0 <= w * c / 0x1_0000_0000 < c
  {
    assert 0 <= w * c < 0x1_0000_0000 * c;
  }

  /**
   Every word is mapped into [a, b] exactly when b - a + 1 is a positive int, or wraps round to 0 for the full range
   of ints, where the value is always a.
   */
  lemma ValueInRange(a: int, b: int)
    requires Int32(a) && Int32(b) && a <= b
    ensures (forall w :: WordRange(w) ==> a <= Value(a, b, w) <= b) <==> b - a < 0x7FFF_FFFF || b - a == 0xFFFF_FFFF
  {
    var c := Wrap32(b - a + 1);
    if b - a < 0x7FFF_FFFF {
      assert c == b - a + 1;
      forall w | WordRange(w) ensures a <= Value(a, b, w) <= b {
        FloorBelow(w, c);
      }
    } else if b - a == 0xFFFF_FFFF {
      assert c == 0;
    } else {
      assert c < 0;
      assert WordRange(0xFFFF_FFFF);
      assert 0xFFFF_FFFF * c < 0;
      assert Value(a, b, 0xFFFF_FFFF) < a;
    }
  }

  /** No value is missed: each number of the range comes from some word. */
  lemma ValueReaches(a: int, b: int, x: int) returns (w: int)
    requires Int32(a) && Int32(b) && a <= x <= b && b - a < 0x7FFF_FFFF
    ensures WordRange(w) && Value(a, b, w) == x
  {
    var c := b - a + 1;
    var d := x - a;
    w := (d * 0x1_0000_0000 + c - 1) / c;
    CeilThenFloor(d, c, w);
  }

  lemma CeilThenFloor(d: int, c: int, w: int)
    requires 0 <= d < c <= 0x7FFF_FFFF && w == (d * 0x1_0000_0000 + c - 1) / c
    ensures WordRange(w) && w * c / 0x1_0000_0000 == d
  {
    var n := d * 0x1_0000_0000 + c - 1;
    Quotient(n, c, w);
    BelowAll(w, c);
  }

  lemma Quotient(n: int, c: int, w: int)
    requires c > 0 && n >= 0 && w == n / c
    ensures 0 <= w && w * c <= n < w * c + c
  {
  }

  lemma BelowAll(w: int, c: int)
    requires c > 0 && w * c < c * 0x1_0000_0000
    ensures w < 0x1_0000_0000
  {
    Product(w - 0x1_0000_0000, c);
    assert w * c == (w - 0x1_0000_0000) * c + c * 0x1_0000_0000;
  }

  lemma Product(x: int, c: int)
    requires c > 0
    ensures x >= 0 ==> x * c >= 0
  {
  }
}
