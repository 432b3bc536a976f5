/** Linear recurrences of the Mersenne Twister kind, and the regeneration of a whole block of terms in place. */
module Recurrence {
  /** x[j + n] = f(x[j + m], x[j], x[j + 1]), from n given terms. */
  function Term<T>(first: seq<T>, n: nat, m: nat, f: (T, T, T) -> T, j: nat): T
    requires |first| == n && 0 < m < n
    decreases j
  {
    if j < n then first[j]
    else f(Term(first, n, m, f, j - n + m), Term(first, n, m, f, j - n), Term(first, n, m, f, j - n + 1))
  }

  /** v holds the n terms from base on. */
  ghost predicate Block<T>(v: seq<T>, first: seq<T>, n: nat, m: nat, f: (T, T, T) -> T, base: nat)
  {
    |first| == |v| == n && 0 < m < n && forall k :: 0 <= k < n ==> v[k] == Term(first, n, m, f, base + k)
  }

  /** The first kk places of v hold the next block already, the others still the present one. */
  ghost predicate Half<T>(v: seq<T>, first: seq<T>, n: nat, m: nat, f: (T, T, T) -> T, base: nat, kk: nat)
  {
    && |first| == |v| == n && 0 < m < n && kk <= n
    && forall k :: 0 <= k < n ==> v[k] == Term(first, n, m, f, Place(n, base, kk, k))
  }

  function Place(n: nat, base: nat, kk: nat, k: nat): nat
  {
    if k < kk then base + n + k else base + k
  }

  lemma HalfNext<T>(v: seq<T>, first: seq<T>, n: nat, m: nat, f: (T, T, T) -> T, base: nat, kk: nat, w: T)
    requires Half(v, first, n, m, f, base, kk) && kk < n
    requires w == f(v[if kk < n - m then kk + m else kk + m - n], v[kk], v[if kk < n - 1 then kk + 1 else 0])
    ensures Half(v[kk := w], first, n, m, f, base, kk + 1)
  {
    var a := if kk < n - m then kk + m else kk + m - n;
    var c := if kk < n - 1 then kk + 1 else 0;
    assert Place(n, base, kk, a) == base + kk + m && Place(n, base, kk, c) == base + kk + 1;
    assert Term(first, n, m, f, base + n + kk) == w;
    var v' := v[kk := w];
    forall k | 0 <= k < n ensures v'[k] == Term(first, n, m, f, Place(n, base, kk + 1, k)) {
      assert v[k] == Term(first, n, m, f, Place(n, base, kk, k));
    }
  }

  lemma HalfStart<T>(v: seq<T>, first: seq<T>, n: nat, m: nat, f: (T, T, T) -> T, base: nat)
    requires Block(v, first, n, m, f, base)
    ensures Half(v, first, n, m, f, base, 0)
  {
  }

  lemma HalfEnd<T>(v: seq<T>, first: seq<T>, n: nat, m: nat, f: (T, T, T) -> T, base: nat)
    requires Half(v, first, n, m, f, base, n)
    ensures Block(v, first, n, m, f, base + n)
  {
    forall k | 0 <= k < n ensures v[k] == Term(first, n, m, f, base + n + k) {
      assert v[k] == Term(first, n, m, f, Place(n, base, n, k));
    }
  }

  lemma BlockStart<T>(v: seq<T>, m: nat, f: (T, T, T) -> T)
    requires 0 < m < |v|
    ensures Block(v, v, |v|, m, f, 0)
  {
  }

  lemma BlockAt<T>(v: seq<T>, first: seq<T>, n: nat, m: nat, f: (T, T, T) -> T, base: nat, k: nat)
    requires Block(v, first, n, m, f, base) && k < n
    ensures v[k] == Term(first, n, m, f, base + k)
  {
  }

  /** One step of the loops, at kk, from the terms at a and c. */
  method Overwrite<T>(v: array<T>, n: nat, m: nat, f: (T, T, T) -> T, kk: nat, a: nat, c: nat, ghost first: seq<T>, ghost base: nat)
    requires v.Length == n && kk < n && 0 < m < n && Half(v[..], first, n, m, f, base, kk)
    requires a == (if kk < n - m then kk + m else kk + m - n) && c == (if kk < n - 1 then kk + 1 else 0)
    modifies v
    ensures Half(v[..], first, n, m, f, base, kk + 1)
  {
    hide Half, Term;
    ghost var was := v[..];
    var w := f(v[a], v[kk], v[c]);
    HalfNext(was, first, n, m, f, base, kk, w);
    v[kk] := w;
    assert v[..] == was[kk := w];
  }

  /** The three loops that overwrite a block with the next one. */
  method Regenerate<T>(v: array<T>, n: nat, m: nat, f: (T, T, T) -> T, ghost first: seq<T>, ghost base: nat)
    requires v.Length == n && Block(v[..], first, n, m, f, base)
    modifies v
    ensures Block(v[..], first, n, m, f, base + n)
  {
    HalfStart(v[..], first, n, m, f, base);
    BlockMeans(v[..], first, n, m, f, base);
    hide Half, Block, Term;
    var kk := 0;
    while kk < n - m
      invariant kk <= n - m && Half(v[..], first, n, m, f, base, kk)
    {
      Overwrite(v, n, m, f, kk, kk + m, kk + 1, first, base);
      kk := kk + 1;
    }
    while kk < n - 1
      invariant n - m <= kk <= n - 1 && Half(v[..], first, n, m, f, base, kk)
    {
      Overwrite(v, n, m, f, kk, kk + m - n, kk + 1, first, base);
      kk := kk + 1;
    }
    Overwrite(v, n, m, f, n - 1, m - 1, 0, first, base);
    HalfEnd(v[..], first, n, m, f, base);
  }

  lemma BlockMeans<T>(v: seq<T>, first: seq<T>, n: nat, m: nat, f: (T, T, T) -> T, base: nat)
    requires Block(v, first, n, m, f, base)
    ensures |first| == |v| == n && 0 < m < n
  {
  }

  // ---------------------------------------------------------------- dying out

  /** What the recurrence keeps of a term it leaves behind is nothing, and the n - 1 terms behind it are zero. */
  ghost predicate Dead<T>(first: seq<T>, n: nat, m: nat, f: (T, T, T) -> T, zero: T, faint: T -> bool, base: nat)
  {
    && |first| == n && 0 < m < n && faint(Term(first, n, m, f, base))
    && forall k :: base < k < base + n ==> Term(first, n, m, f, k) == zero
  }

  /** From zeros one can conclude backwards. */
  ghost predicate Backwards<T(!new)>(f: (T, T, T) -> T, zero: T, faint: T -> bool)
  {
    forall u, l :: f(zero, u, l) == zero && faint(l) ==> faint(u) && l == zero
  }

  lemma DeadBefore<T(!new)>(first: seq<T>, n: nat, m: nat, f: (T, T, T) -> T, zero: T, faint: T -> bool, base: nat)
    requires Dead(first, n, m, f, zero, faint, base + 1) && Backwards(f, zero, faint) && m >= 2
    ensures Dead(first, n, m, f, zero, faint, base)
  {
    var u, l := Term(first, n, m, f, base), Term(first, n, m, f, base + 1);
    assert Term(first, n, m, f, base + n) == f(Term(first, n, m, f, base + m), u, l);
    assert Term(first, n, m, f, base + n) == zero && Term(first, n, m, f, base + m) == zero;
    assert f(zero, u, l) == zero;
  }

  /** A dead stretch anywhere goes back to the state itself. */
  lemma {:induction false} DeadFromStart<T(!new)>(first: seq<T>, n: nat, m: nat, f: (T, T, T) -> T, zero: T,
                                                  faint: T -> bool, base: nat)
    requires Dead(first, n, m, f, zero, faint, base) && Backwards(f, zero, faint) && m >= 2
    ensures Dead(first, n, m, f, zero, faint, 0)
    decreases base
  {
    if base > 0 {
      DeadBefore(first, n, m, f, zero, faint, base - 1);
      DeadFromStart(first, n, m, f, zero, faint, base - 1);
    }
  }

  /** And a dead state never produces anything but zeros. */
  lemma {:induction false} DeadForever<T(!new)>(first: seq<T>, n: nat, m: nat, f: (T, T, T) -> T, zero: T,
                                                faint: T -> bool, j: nat)
    requires Dead(first, n, m, f, zero, faint, 0) && (forall u :: faint(u) ==> f(zero, u, zero) == zero) && faint(zero)
    requires j > 0
    ensures Term(first, n, m, f, j) == zero
    decreases j
  {
    if j >= n {
      DeadForever(first, n, m, f, zero, faint, j - n + m);
      DeadForever(first, n, m, f, zero, faint, j - n + 1);
      if j > n {
        DeadForever(first, n, m, f, zero, faint, j - n);
      }
    }
  }

  /** The state is the terms before n. */
  lemma DeadStart<T(!new)>(first: seq<T>, n: nat, m: nat, f: (T, T, T) -> T, zero: T, faint: T -> bool)
    requires |first| == n && 0 < m < n
    ensures Dead(first, n, m, f, zero, faint, 0) <==> faint(first[0]) && forall k :: 0 < k < n ==> first[k] == zero
  {
    if faint(first[0]) && forall k :: 0 < k < n ==> first[k] == zero {
      forall k | 0 < k < n ensures Term(first, n, m, f, k) == zero {
        assert Term(first, n, m, f, k) == first[k];
      }
    } else if Dead(first, n, m, f, zero, faint, 0) {
      forall k | 0 < k < n ensures first[k] == zero {
        assert Term(first, n, m, f, k) == first[k];
      }
    }
  }
}
