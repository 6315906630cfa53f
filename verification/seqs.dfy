/** Sequence utilities: order-preserving filtering and sums of projections. */
module Seqs {

  /** The elements of `s` that satisfy `p`, in their original order (`Array.prototype.filter`). */
  function Filter<T>(s: seq<T>, p: T -> bool): (r: seq<T>)
    ensures |r| <= |s|
    ensures forall i :: 0 <= i < |r| ==> r[i] in s && p(r[i])
    ensures forall i :: 0 <= i < |s| && p(s[i]) ==> s[i] in r
    ensures multiset(r) <= multiset(s)
    decreases |s|
  {
    if |s| == 0 then []
    else
      var init := Filter(s[..|s| - 1], p);
      assert s == s[..|s| - 1] + [s[|s| - 1]];
      if p(s[|s| - 1]) then init + [s[|s| - 1]] else init
  }

  /** The positions of `s` whose element satisfies `p`, in increasing order. */
  function MatchingIndices<T>(s: seq<T>, p: T -> bool): (ix: seq<nat>)
    decreases |s|
  {
    if |s| == 0 then []
    else
      var init := MatchingIndices(s[..|s| - 1], p);
      if p(s[|s| - 1]) then init + [|s| - 1] else init
  }

  /** `ix` lists positions below `n` in strictly increasing order. */
  ghost predicate StrictlyIncreasingBelow(ix: seq<nat>, n: nat) {
    (forall k :: 0 <= k < |ix| ==> ix[k] < n) &&
    (forall k, l :: 0 <= k < l < |ix| ==> ix[k] < ix[l])
  }

  /** `r` is exactly the subsequence of `s` taken at the positions whose element satisfies `p`. */
  ghost predicate SubsequenceAt<T>(r: seq<T>, s: seq<T>, ix: seq<nat>, p: T -> bool) {
    && |r| == |ix|
    && StrictlyIncreasingBelow(ix, |s|)
    && (forall k :: 0 <= k < |ix| ==> ix[k] < |s| && r[k] == s[ix[k]])
    && (forall i :: 0 <= i < |s| ==> (p(s[i]) <==> i in ix))
  }

  /** Filtering keeps precisely the satisfying positions of the input, in their order. */
  lemma FilterIsOrderedSelection<T>(s: seq<T>, p: T -> bool)
    ensures SubsequenceAt(Filter(s, p), s, MatchingIndices(s, p), p)
  {
    FilterAtIndices(s, p);
    MatchingIndicesIncreasing(s, p);
    MatchingIndicesExact(s, p);
  }

  /** `r[k]` is the element of `s` at position `ix[k]`, for every `k`. */
  ghost predicate TakenAt<T>(r: seq<T>, s: seq<T>, ix: seq<nat>) {
    |r| == |ix| && forall k :: 0 <= k < |ix| ==> ix[k] < |s| && r[k] == s[ix[k]]
  }

  /** Positions taken from a prefix are positions of the whole, and the last element can follow them. */
  lemma TakenAtExtend<T>(r: seq<T>, s: seq<T>, ix: seq<nat>)
    requires |s| > 0 && TakenAt(r, s[..|s| - 1], ix)
    ensures TakenAt(r, s, ix) && TakenAt(r + [s[|s| - 1]], s, ix + [|s| - 1])
  {
    var n := |s| - 1;
    forall k | 0 <= k < |ix| ensures ix[k] < |s| && r[k] == s[ix[k]] {
      assert s[..n][ix[k]] == s[ix[k]];
    }
  }

  /** A non-empty sequence is its front followed by its last element. */
  lemma LastSplit<T>(s: seq<T>)
    requires |s| > 0
    ensures s == s[..|s| - 1] + [s[|s| - 1]]
  {
  }

  /** One step of `Filter` and `MatchingIndices` on a non-empty sequence. */
  lemma FilterSnoc<T>(s: seq<T>, p: T -> bool)
    requires |s| > 0
    ensures Filter(s, p) == if p(s[|s| - 1]) then Filter(s[..|s| - 1], p) + [s[|s| - 1]] else Filter(s[..|s| - 1], p)
    ensures MatchingIndices(s, p) ==
      if p(s[|s| - 1]) then MatchingIndices(s[..|s| - 1], p) + [|s| - 1] else MatchingIndices(s[..|s| - 1], p)
  {
  }

  /** Filtering one more element keeps the filtered elements at their positions. */
  lemma FilterAtIndicesStep<T>(s: seq<T>, p: T -> bool)
    requires |s| > 0 && TakenAt(Filter(s[..|s| - 1], p), s[..|s| - 1], MatchingIndices(s[..|s| - 1], p))
    ensures TakenAt(Filter(s, p), s, MatchingIndices(s, p))
  {
    var n := |s| - 1;
    var r0, ix0 := Filter(s[..n], p), MatchingIndices(s[..n], p);
    FilterSnoc(s, p);
    TakenAtExtend(r0, s, ix0);
  }

  /** Each filtered element is the input element at the matching position of the same rank. */
  lemma {:induction false} FilterAtIndices<T>(s: seq<T>, p: T -> bool)
    ensures TakenAt(Filter(s, p), s, MatchingIndices(s, p))
    decreases |s|
  {
    if |s| > 0 {
      FilterAtIndices(s[..|s| - 1], p);
      FilterAtIndicesStep(s, p);
    }
  }

  lemma {:induction false} MatchingIndicesIncreasing<T>(s: seq<T>, p: T -> bool)
    ensures StrictlyIncreasingBelow(MatchingIndices(s, p), |s|)
    decreases |s|
  {
    if |s| > 0 {
      MatchingIndicesIncreasing(s[..|s| - 1], p);
    }
  }

  lemma {:induction false} MatchingIndicesExact<T>(s: seq<T>, p: T -> bool)
    ensures forall i :: 0 <= i < |s| ==> (p(s[i]) <==> i in MatchingIndices(s, p))
    decreases |s|
  {
    if |s| > 0 {
      var n := |s| - 1;
      var init := s[..n];
      MatchingIndicesExact(init, p);
      MatchingIndicesIncreasing(init, p);
      var ix0, ix := MatchingIndices(init, p), MatchingIndices(s, p);
      forall i | 0 <= i < |s| ensures p(s[i]) <==> i in ix {
        if i < n {
          assert s[i] == init[i];
          assert i in ix <==> i in ix0;
        } else {
          assert n !in ix0;
        }
      }
    }
  }

  /** A filter whose predicate holds everywhere is the identity. */
  lemma {:induction false} FilterAll<T>(s: seq<T>, p: T -> bool)
    requires forall i :: 0 <= i < |s| ==> p(s[i])
    ensures Filter(s, p) == s
    decreases |s|
  {
    if |s| > 0 {
      FilterAll(s[..|s| - 1], p);
      FilterSnoc(s, p);
      LastSplit(s);
    }
  }

  /** Filters with predicates that agree on every element of `s` give the same result. */
  lemma {:induction false} FilterExtensional<T>(s: seq<T>, p: T -> bool, q: T -> bool)
    requires forall i :: 0 <= i < |s| ==> p(s[i]) == q(s[i])
    ensures Filter(s, p) == Filter(s, q)
    decreases |s|
  {
    if |s| > 0 {
      FilterExtensional(s[..|s| - 1], p, q);
    }
  }

  /** Filtering distributes over concatenation. */
  lemma {:induction false} FilterConcat<T>(a: seq<T>, b: seq<T>, p: T -> bool)
    ensures Filter(a + b, p) == Filter(a, p) + Filter(b, p)
    decreases |b|
  {
    if |b| > 0 {
      var b' := b[..|b| - 1];
      assert (a + b)[..|a + b| - 1] == a + b';
      FilterConcat(a, b', p);
    } else {
      assert a + b == a;
    }
  }

  /** Filtering the one-element sequence `[x]`. */
  /** Filtering a prefix gives a prefix of the filtered sequence. */
  lemma FilterOfPrefix<T>(s: seq<T>, m: nat, p: T -> bool)
    requires m <= |s|
    ensures Filter(s[..m], p) <= Filter(s, p)
  {
    SplitAt(s, m);
    FilterOfConcatPrefix(s[..m], s[m..], p);
  }

  lemma FilterOfConcatPrefix<T>(a: seq<T>, b: seq<T>, p: T -> bool)
    ensures Filter(a, p) <= Filter(a + b, p)
  {
    FilterConcat(a, b, p);
    PrefixOfConcat(Filter(a, p), Filter(b, p));
  }

  lemma SplitAt<T>(s: seq<T>, m: nat)
    requires m <= |s|
    ensures s == s[..m] + s[m..]
  {
  }

  lemma PrefixOfConcat<T>(a: seq<T>, b: seq<T>)
    ensures a <= a + b
  {
  }

  lemma FilterSingleton<T>(x: T, p: T -> bool)
    ensures Filter([x], p) == if p(x) then [x] else []
  {
    assert [x][..0] == [];
  }

  /** Filtering a sequence with a first element `y`. */
  lemma FilterCons<T>(y: T, s: seq<T>, p: T -> bool)
    ensures Filter([y] + s, p) == if p(y) then [y] + Filter(s, p) else Filter(s, p)
  {
    FilterConcat([y], s, p);
    FilterSingleton(y, p);
  }

  /** The sum of `f` over the elements of `s` (a left fold of `+` starting at 0). */
  function SumOf<T>(s: seq<T>, f: T -> real): real
    decreases |s|
  {
    if |s| == 0 then 0.0 else SumOf(s[..|s| - 1], f) + f(s[|s| - 1])
  }

  /** The sum over a single element is that element's value. */
  lemma SumOfOne<T>(s: seq<T>, f: T -> real)
    requires |s| == 1
    ensures SumOf(s, f) == f(s[0])
  {
    assert s[..0] == [];
  }

  /** The integer sum of `f` over the elements of `s`. */
  function IntSumOf<T>(s: seq<T>, f: T -> int): int
    decreases |s|
  {
    if |s| == 0 then 0 else IntSumOf(s[..|s| - 1], f) + f(s[|s| - 1])
  }

  /** Sums distribute over concatenation. */
  lemma {:induction false} SumOfConcat<T>(a: seq<T>, b: seq<T>, f: T -> real)
    ensures SumOf(a + b, f) == SumOf(a, f) + SumOf(b, f)
    decreases |b|
  {
    if |b| > 0 {
      assert (a + b)[..|a + b| - 1] == a + b[..|b| - 1];
      SumOfConcat(a, b[..|b| - 1], f);
    } else {
      assert a + b == a;
    }
  }

  /** Integer sums distribute over concatenation. */
  lemma {:induction false} IntSumOfConcat<T>(a: seq<T>, b: seq<T>, f: T -> int)
    ensures IntSumOf(a + b, f) == IntSumOf(a, f) + IntSumOf(b, f)
    decreases |b|
  {
    if |b| > 0 {
      assert (a + b)[..|a + b| - 1] == a + b[..|b| - 1];
      IntSumOfConcat(a, b[..|b| - 1], f);
    } else {
      assert a + b == a;
    }
  }

  /** A sum of terms that each lie in [lo, hi] lies in [lo * n, hi * n]. */
  lemma {:induction false} SumOfBounds<T>(s: seq<T>, f: T -> real, lo: real, hi: real)
    requires forall i :: 0 <= i < |s| ==> lo <= f(s[i]) <= hi
    ensures lo * |s| as real <= SumOf(s, f) <= hi * |s| as real
    decreases |s|
  {
    if |s| > 0 {
      SumOfBounds(s[..|s| - 1], f, lo, hi);
    }
  }

  /** A sum of non-negative integer terms is non-negative, and it dominates each of its terms. */
  lemma {:induction false} IntSumOfNonNegative<T>(s: seq<T>, f: T -> int)
    requires forall i :: 0 <= i < |s| ==> f(s[i]) >= 0
    ensures IntSumOf(s, f) >= 0
    ensures forall i :: 0 <= i < |s| ==> f(s[i]) <= IntSumOf(s, f)
    decreases |s|
  {
    if |s| > 0 {
      IntSumOfNonNegative(s[..|s| - 1], f);
    }
  }

  /** A term-by-term smaller integer sum is smaller. */
  lemma {:induction false} IntSumOfMonotone<T>(s: seq<T>, f: T -> int, g: T -> int)
    requires forall i :: 0 <= i < |s| ==> f(s[i]) <= g(s[i])
    ensures IntSumOf(s, f) <= IntSumOf(s, g)
    decreases |s|
  {
    if |s| > 0 {
      IntSumOfMonotone(s[..|s| - 1], f, g);
    }
  }

  /** A sum of non-negative real terms is non-negative. */
  lemma {:induction false} SumOfNonNegative<T>(s: seq<T>, f: T -> real)
    requires forall i :: 0 <= i < |s| ==> f(s[i]) >= 0.0
    ensures SumOf(s, f) >= 0.0
    decreases |s|
  {
    if |s| > 0 {
      SumOfNonNegative(s[..|s| - 1], f);
    }
  }

  /** Sums over sequences that are permutations of each other agree. */
  lemma {:induction false} SumOfPermutation<T>(s: seq<T>, t: seq<T>, f: T -> real)
    requires multiset(s) == multiset(t)
    ensures SumOf(s, f) == SumOf(t, f)
    decreases |s|
  {
    if |s| > 0 {
      var x := s[|s| - 1];
      assert x in multiset(t);
      var j :| 0 <= j < |t| && t[j] == x;
      var t' := t[..j] + t[j + 1..];
      assert t == t[..j] + [x] + t[j + 1..];
      assert s == s[..|s| - 1] + [x];
      assert multiset(s) == multiset(s[..|s| - 1]) + multiset{x};
      assert multiset(t) == multiset(t[..j]) + multiset{x} + multiset(t[j + 1..]);
      assert multiset(t') == multiset(t[..j]) + multiset(t[j + 1..]);
      calc {
        multiset(s[..|s| - 1]);
        multiset(s) - multiset{x};
        multiset(t) - multiset{x};
        multiset(t');
      }
      SumOfPermutation(s[..|s| - 1], t', f);
      SumOfConcat(t[..j] + [x], t[j + 1..], f);
      SumOfConcat(t[..j], [x], f);
      SumOfConcat(t[..j], t[j + 1..], f);
      assert [x][..0] == [];
    } else {
      assert |t| == |multiset(t)| == 0;
    }
  }
}
