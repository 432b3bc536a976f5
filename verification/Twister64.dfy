/** lrandom64.c: the 64-bit Mersenne Twister. */
module Twister64 {
  import opened Recurrence

  const NN: nat := 312
  const MM: nat := 156
  const MATRIX_A: bv64 := 0xB502_6F5A_A966_19E9
  const UM: bv64 := 0xFFFF_FFFF_8000_0000
  const LM: bv64 := 0x7FFF_FFFF

  /** x[j + NN] from x[j + MM], x[j] and x[j + 1]. */
  function Next(far: bv64, upper: bv64, lower: bv64): bv64
  {
    var x := (upper & UM) | (lower & LM);
    far ^ (x >> 1) ^ (if x & 1 == 0 then 0 else MATRIX_A)
  }

  function Mix(x: bv64, k: nat): bv64
    requires k < NN
  {
    6364136223846793005 * (x ^ (x >> 62)) + (k as bv64)
  }

  /** The k-th word of the state after init_genrand64. */
  function Seeded(s: bv64, k: nat): bv64
    requires k < NN
  {
    if k == 0 then s else Mix(Seeded(s, k - 1), k)
  }

  function Temper(x: bv64): bv64
  {
    Temper4(Temper3(Temper2(Temper1(x))))
  }

  function Temper1(y: bv64): bv64
  {
    y ^ ((y >> 29) & 0x5555_5555_5555_5555)
  }

  function Temper2(y: bv64): bv64
  {
    y ^ ((y << 17) & 0x71D6_7FFF_EDA6_0000)
  }

  function Temper3(y: bv64): bv64
  {
    y ^ ((y << 37) & 0xFFF7_EEE0_0000_0000)
  }

  function Temper4(y: bv64): bv64
  {
    y ^ (y >> 43)
  }

  function Undo1(z: bv64): bv64
  {
    z ^ ((z >> 29) & 0x5555_5555_5555_5555)
  }

  lemma Untemper1(y: bv64)
    ensures Undo1(y ^ ((y >> 29) & 0x5555_5555_5555_5555)) == y
  {
  }

  lemma Injective1(x: bv64, y: bv64)
    requires Temper1(x) == Temper1(y)
    ensures x == y
  {
    hide Undo1;
    Untemper1(x);
    Untemper1(y);
  }

  function Undo2(z: bv64): bv64
  {
    z ^ ((z << 17) & 0x71D6_7FFF_EDA6_0000) ^ ((z << 34) & 0x71d65b4c00000000) ^ ((z << 51) & 0x3090000000000000)
  }

  lemma Untemper2(y: bv64)
    ensures Undo2(y ^ ((y << 17) & 0x71D6_7FFF_EDA6_0000)) == y
  {
  }

  lemma Injective2(x: bv64, y: bv64)
    requires Temper2(x) == Temper2(y)
    ensures x == y
  {
    hide Undo2;
    Untemper2(x);
    Untemper2(y);
  }

  function Undo3(z: bv64): bv64
  {
    z ^ ((z << 37) & 0xFFF7_EEE0_0000_0000)
  }

  lemma Untemper3(y: bv64)
    ensures Undo3(y ^ ((y << 37) & 0xFFF7_EEE0_0000_0000)) == y
  {
  }

  lemma Injective3(x: bv64, y: bv64)
    requires Temper3(x) == Temper3(y)
    ensures x == y
  {
    hide Undo3;
    Untemper3(x);
    Untemper3(y);
  }

  function Undo4(z: bv64): bv64
  {
    z ^ (z >> 43)
  }

  lemma Untemper4(y: bv64)
    ensures Undo4(y ^ (y >> 43)) == y
  {
  }

  lemma Injective4(x: bv64, y: bv64)
    requires Temper4(x) == Temper4(y)
    ensures x == y
  {
    hide Undo4;
    Untemper4(x);
    Untemper4(y);
  }

  /** Tempering loses nothing: different terms give different numbers. */
  lemma TemperInjective(x: bv64, y: bv64)
    requires Temper(x) == Temper(y)
    ensures x == y
  {
    hide Temper1, Temper2, Temper3, Temper4;
    var x1, y1 := Temper1(x), Temper1(y);
    var x2, y2 := Temper2(x1), Temper2(y1);
    var x3, y3 := Temper3(x2), Temper3(y2);
    Injective4(x3, y3);
    Injective3(x2, y2);
    Injective2(x1, y1);
    Injective1(x, y);
  }

  /** The k-th word drawn from the state first, by the recurrence alone. */
  function Word(first: seq<bv64>, k: nat): bv64
    requires |first| == NN
  {
    Temper(Term(first, NN, MM, Next, NN + k))
  }

  function Start(s: bv64): (r: seq<bv64>)
    ensures |r| == NN && forall k :: 0 <= k < NN ==> r[k] == Seeded(s, k)
  {
    seq(NN, k requires 0 <= k < NN => Seeded(s, k))
  }

  lemma SeededFirst(s: bv64)
    ensures Seeded(s, 0) == s
  {
    hide Mix;
  }

  lemma SeededNext(s: bv64, k: nat)
    requires 0 < k < NN
    ensures Seeded(s, k) == Mix(Seeded(s, k - 1), k)
  {
    hide Mix;
  }

  // ---------------------------------------------------------------- init_by_array64

  function Stir(x: bv64, before: bv64, key: bv64, j: nat): bv64
    requires j < 0x1_0000_0000
  {
    (x ^ ((before ^ (before >> 62)) * 3935559000370003845)) + key + (j as bv64)
  }

  function Settle(x: bv64, before: bv64, i: nat): bv64
    requires i < NN
  {
    (x ^ ((before ^ (before >> 62)) * 2862933555777941757)) - (i as bv64)
  }

  /** Where position i goes next; after the last word the state is carried over to its first. */
  function Carried(v: seq<bv64>, i: nat): (r: seq<bv64>)
    requires |v| == NN && i < NN
    ensures |r| == NN
  {
    if i + 1 >= NN then v[0 := v[NN - 1]] else v
  }

  function After(i: nat): (r: nat)
    requires i < NN
    ensures 0 < r < NN
  {
    if i + 1 >= NN then 1 else i + 1
  }

  /** k rounds over the key. */
  function Stirred(v: seq<bv64>, key: seq<bv64>, i: nat, j: nat, k: nat): (r: seq<bv64>)
    requires |v| == NN && 0 < i < NN && j < |key| < 0x1_0000_0000
    ensures |r| == NN
    decreases k
  {
    if k == 0 then v
    else
      Stirred(Carried(v[i := Stir(v[i], v[i - 1], key[j], j)], i), key, After(i), if j + 1 >= |key| then 0 else j + 1, k - 1)
  }

  /** Where the first loop leaves i. */
  function Position(i: nat, k: nat): (r: nat)
    requires 0 < i < NN
    ensures 0 < r < NN
    decreases k
  {
    if k == 0 then i else Position(After(i), k - 1)
  }

  /** k rounds without the key. */
  function Settled(v: seq<bv64>, i: nat, k: nat): (r: seq<bv64>)
    requires |v| == NN && 0 < i < NN
    ensures |r| == NN
    decreases k
  {
    if k == 0 then v else Settled(Carried(v[i := Settle(v[i], v[i - 1], i)], i), After(i), k - 1)
  }

  lemma StirStep(v: seq<bv64>, key: seq<bv64>, i: nat, j: nat, k: nat)
    requires |v| == NN && 0 < i < NN && j < |key| < 0x1_0000_0000 && k > 0
    ensures Stirred(v, key, i, j, k)
      == Stirred(Carried(v[i := Stir(v[i], v[i - 1], key[j], j)], i), key, After(i), if j + 1 >= |key| then 0 else j + 1, k - 1)
    ensures Position(i, k) == Position(After(i), k - 1)
  {
    hide Stir, Carried, After;
  }

  lemma SettleStep(v: seq<bv64>, i: nat, k: nat)
    requires |v| == NN && 0 < i < NN && k > 0
    ensures Settled(v, i, k) == Settled(Carried(v[i := Settle(v[i], v[i - 1], i)], i), After(i), k - 1)
  {
    hide Settle, Carried, After;
  }

  function Rounds(key: seq<bv64>): nat
  {
    if NN > |key| then NN else |key|
  }

  /** The state init_by_array64 arrives at. */
  function FromKey(key: seq<bv64>): (r: seq<bv64>)
    requires 0 < |key| < 0x1_0000_0000
    ensures |r| == NN
  {
    var k := Rounds(key);
    Settled(Stirred(Start(19650218), key, 1, 0, k), Position(1, k), NN - 1)[0 := 0x8000_0000_0000_0000]
  }

  /** Only the upper bits of the first word of a state ever matter. */
  predicate Faint(x: bv64)
  {
    x & UM == 0
  }

  ghost predicate ZeroBlock(first: seq<bv64>, base: nat)
    requires |first| == NN
  {
    forall k :: base <= k < base + NN ==> Term(first, NN, MM, Next, k) == 0
  }

  lemma NextBackwards(u: bv64, l: bv64)
    requires Next(0, u, l) == 0 && Faint(l)
    ensures Faint(u) && l == 0
  {
  }

  lemma NextOfFaint(u: bv64)
    requires Faint(u)
    ensures Next(0, u, 0) == 0
  {
  }

  lemma AllBackwards()
    ensures Backwards(Next, 0, Faint) && (forall u :: Faint(u) ==> Next(0, u, 0) == 0) && Faint(0)
  {
    hide Next, Faint;
    forall u, l | Next(0, u, l) == 0 && Faint(l) ensures Faint(u) && l == 0 {
      NextBackwards(u, l);
    }
    forall u | Faint(u) ensures Next(0, u, 0) == 0 {
      NextOfFaint(u);
    }
    assert Faint(0) by { ZeroFaint(); }
  }

  lemma ZeroFaint()
    ensures Faint(0)
  {
  }

  /**
   A state that ever leads to NN zeros in a row had nothing but the 31 idle bits of its first word, and leads to
   nothing but zeros.
   */
  lemma DiesExactly(first: seq<bv64>)
    requires |first| == NN
    ensures (exists base: nat :: ZeroBlock(first, base)) <==> Faint(first[0]) && forall k :: 0 < k < NN ==> first[k] == 0
    ensures (exists base: nat :: ZeroBlock(first, base)) ==> forall j: nat :: j > 0 ==> Term(first, NN, MM, Next, j) == 0
  {
    hide Next, Faint, Term;
    AllBackwards();
    DeadStart(first, NN, MM, Next, 0, Faint);
    if base: nat :| ZeroBlock(first, base) {
      DeadFromStart(first, NN, MM, Next, 0, Faint, base);
    }
    if Dead(first, NN, MM, Next, 0, Faint, 0) {
      forall j: nat | j > 0 ensures Term(first, NN, MM, Next, j) == 0 {
        DeadForever(first, NN, MM, Next, 0, Faint, j);
      }
      assert ZeroBlock(first, 1);
    }
  }

  lemma ZeroTempered()
    ensures Temper(0) == 0
  {
  }

  /** Some word is not zero among any NN in a row. */
  ghost predicate Alive(first: seq<bv64>, i: nat)
    requires |first| == NN
  {
    exists k :: i <= k < i + NN && Word(first, k) != 0
  }

  lemma NotDead(first: seq<bv64>, i: nat)
    requires |first| == NN && !(Faint(first[0]) && forall k :: 0 < k < NN ==> first[k] == 0)
    ensures Alive(first, i)
  {
    hide Next, Faint, Term, Temper;
    DiesExactly(first);
    assert !ZeroBlock(first, NN + i);
    var k :| NN + i <= k < NN + i + NN && Term(first, NN, MM, Next, k) != 0;
    ZeroTempered();
    if Word(first, k - NN) == 0 {
      TemperInjective(Term(first, NN, MM, Next, k), 0);
    }
  }

  /** Whatever the seed or the key, the generator never dies out. */
  lemma NeverZero(key: seq<bv64>, i: nat)
    requires 0 < |key| < 0x1_0000_0000
    ensures Alive(FromKey(key), i)
  {
    TopNotFaint();
    NotDead(FromKey(key), i);
  }

  lemma TopNotFaint()
    ensures !Faint(0x8000_0000_0000_0000)
  {
  }

  lemma SeedNeverZero(s: bv64, i: nat)
    ensures Alive(Start(s), i)
  {
    hide Seeded, Mix;
    SeededNext(s, 2);
    MixOfZero();
    NotDead(Start(s), i);
  }

  lemma MixOfZero()
    ensures Mix(0, 2) == 2
  {
  }

  class MT {
    const v: array<bv64>
    var mti: nat
    ghost var first: seq<bv64>
    ghost var drawn: nat

    /** Seeded with the state first, with drawn words taken since. */
    ghost predicate Valid()
      reads this, v
    {
      v.Length == NN && mti <= NN && drawn + NN >= mti && Block(v[..], first, NN, MM, Next, drawn + NN - mti)
    }

    constructor ()
      ensures v.Length == NN && mti == NN + 1 && fresh(v)
    {
      v := new bv64[NN];
      mti := NN + 1;
    }

    /** init_genrand64 */
    method InitGenrand64(seed: bv64)
      requires v.Length == NN
      modifies this, v
      ensures Valid() && first == Start(seed) && drawn == 0 && v[..] == first && mti == NN
    {
      hide Seeded, Mix, Start, Block, Next;
      v[0] := seed;
      mti := 1;
      SeededFirst(seed);
      while mti < NN
        invariant 1 <= mti <= NN && v.Length == NN
        invariant forall k :: 0 <= k < mti ==> v[k] == Seeded(seed, k)
      {
        SeededNext(seed, mti);
        assert v[mti - 1] == Seeded(seed, mti - 1);
        v[mti] := Mix(v[mti - 1], mti);
        mti := mti + 1;
      }
      first, drawn := Start(seed), 0;
      assert v[..] == Start(seed);
      BlockStart(v[..], MM, Next);
    }

    /** The first loop of init_by_array64, over the key. */
    method StirKey(key: seq<bv64>) returns (i: nat)
      requires v.Length == NN && 0 < |key| < 0x1_0000_0000
      modifies v
      ensures v[..] == Stirred(old(v[..]), key, 1, 0, Rounds(key)) && i == Position(1, Rounds(key))
    {
      hide Stir, Carried, Rounds, After;
      var j: nat, k: nat := 0, Rounds(key);
      i := 1;
      while k > 0
        invariant 0 < i < NN && j < |key|
        invariant Stirred(old(v[..]), key, 1, 0, Rounds(key)) == Stirred(v[..], key, i, j, k)
        invariant Position(1, Rounds(key)) == Position(i, k)
      {
        ghost var was := v[..];
        StirStep(was, key, i, j, k);
        v[i] := Stir(v[i], v[i - 1], key[j], j);
        assert v[..] == was[i := v[i]];
        i := CarryOver(i);
        j := j + 1;
        if j >= |key| {
          j := 0;
        }
        k := k - 1;
      }
    }

    /** Its second loop. */
    method SettleAll(i0: nat)
      requires v.Length == NN && 0 < i0 < NN
      modifies v
      ensures v[..] == Settled(old(v[..]), i0, NN - 1)
    {
      hide Settle, Carried, After;
      var i: nat, k: nat := i0, NN - 1;
      while k > 0
        invariant 0 < i < NN && Settled(old(v[..]), i0, NN - 1) == Settled(v[..], i, k)
      {
        ghost var was := v[..];
        SettleStep(was, i, k);
        v[i] := Settle(v[i], v[i - 1], i);
        assert v[..] == was[i := v[i]];
        i := CarryOver(i);
        k := k - 1;
      }
    }

    /** init_by_array64 */
    method InitByArray64(key: seq<bv64>)
      requires v.Length == NN && 0 < |key| < 0x1_0000_0000
      modifies this, v
      ensures Valid() && first == FromKey(key) && drawn == 0
    {
      hide Start, Stirred, Settled, Rounds, Position, Block;
      InitGenrand64(19650218);
      var i := StirKey(key);
      SettleAll(i);
      ghost var settled := v[..];
      v[0] := 0x8000_0000_0000_0000;
      assert v[..] == settled[0 := v[0]];
      first, drawn, mti := v[..], 0, NN;
      BlockStart(v[..], MM, Next);
    }

    /** i++; if (i >= NN) { mt[0] = mt[NN-1]; i = 1; } */
    method CarryOver(i0: nat) returns (i: nat)
      requires v.Length == NN && i0 < NN
      modifies v
      ensures v[..] == Carried(old(v[..]), i0) && i == After(i0) && 0 < i < NN
    {
      i := i0 + 1;
      if i >= NN {
        ghost var was := v[..];
        v[0] := v[NN - 1];
        assert v[..] == was[0 := was[NN - 1]];
        i := 1;
      }
    }

    /** genrand64_int64, once seeded. */
    method Genrand64Int64() returns (x: bv64)
      requires Valid()
      modifies this, v
      ensures Valid() && first == old(first) && drawn == old(drawn) + 1
      ensures |first| == NN && x == Word(first, old(drawn))
    {
      hide Block, Term, Temper1, Temper2, Temper3, Temper4;
      BlockMeans(v[..], first, NN, MM, Next, drawn + NN - mti);
      if mti >= NN {
        Regenerate(v, NN, MM, Next, first, drawn + NN - mti);
        mti := 0;
      }
      BlockAt(v[..], first, NN, MM, Next, drawn + NN - mti, mti);
      x := v[mti];
      mti := mti + 1;
      drawn := drawn + 1;
      x := Temper1(x);
      x := Temper2(x);
      x := Temper3(x);
      x := Temper4(x);
    }
  }
}
