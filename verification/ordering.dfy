/**
  Sorting as `Array.prototype.sort` does it with a three-way comparator on one
  key: the result is a permutation, ordered by the key in the chosen
  direction, and stable (records with equal keys keep their input order).
 */
module Ordering {
  import opened Seqs

  /** A sort key: a number, or a string compared character by character. */
  datatype Key = IntKey(n: int) | StrKey(s: string)

  /** The lexicographic order of JavaScript's `<` on strings, on characters rather than UTF-16 code units. */
  predicate LexLess(a: string, b: string)
    decreases |a|
  {
    if |a| == 0 then |b| > 0
    else |b| > 0 && (a[0] < b[0] || (a[0] == b[0] && LexLess(a[1..], b[1..])))
  }

  lemma {:induction false} LexIrreflexive(a: string)
    ensures !LexLess(a, a)
    decreases |a|
  {
    if |a| > 0 {
      LexIrreflexive(a[1..]);
    }
  }

  lemma {:induction false} LexTransitive(a: string, b: string, c: string)
    ensures LexLess(a, b) && LexLess(b, c) ==> LexLess(a, c)
    decreases |a|
  {
    if |a| > 0 && |b| > 0 && |c| > 0 {
      LexTransitive(a[1..], b[1..], c[1..]);
    }
  }

  lemma {:induction false} LexTotal(a: string, b: string)
    ensures a == b || LexLess(a, b) || LexLess(b, a)
    decreases |a|
  {
    if |a| > 0 && |b| > 0 {
      LexTotal(a[1..], b[1..]);
      if a[0] == b[0] && a[1..] == b[1..] {
        assert a == [a[0]] + a[1..] && b == [b[0]] + b[1..];
      }
    }
  }

  /**
    The strict order on keys. A table column holds keys of one kind only; the
    order between a number and a string is fixed arbitrarily to keep it total.
   */
  predicate KeyLess(a: Key, b: Key) {
    match (a, b)
    case (IntKey(x), IntKey(y)) => x < y
    case (StrKey(x), StrKey(y)) => LexLess(x, y)
    case (IntKey(_), StrKey(_)) => true
    case (StrKey(_), IntKey(_)) => false
  }

  /** `KeyLess` is a strict total order. */
  lemma KeyLessStrictTotalOrder(a: Key, b: Key, c: Key)
    ensures !KeyLess(a, a)
    ensures KeyLess(a, b) && KeyLess(b, c) ==> KeyLess(a, c)
    ensures a == b || KeyLess(a, b) || KeyLess(b, a)
  {
    if a.StrKey? {
      LexIrreflexive(a.s);
      if b.StrKey? {
        LexTotal(a.s, b.s);
        if c.StrKey? {
          LexTransitive(a.s, b.s, c.s);
        }
      }
    }
  }

  datatype Direction = Asc | Desc

  /** `a` strictly goes before `b` in direction `dir`. */
  predicate Precedes(a: Key, b: Key, dir: Direction) {
    if dir == Asc then KeyLess(a, b) else KeyLess(b, a)
  }

  /** "Goes before or ties with" is transitive, and strict precedence excludes ties. */
  lemma PrecedesFacts(a: Key, b: Key, c: Key, dir: Direction)
    ensures !Precedes(a, a, dir)
    ensures !Precedes(b, a, dir) && !Precedes(c, b, dir) ==> !Precedes(c, a, dir)
    ensures Precedes(a, b, dir) ==> !Precedes(b, a, dir)
  {
    KeyLessStrictTotalOrder(a, b, c);
    KeyLessStrictTotalOrder(b, c, a);
    KeyLessStrictTotalOrder(c, a, b);
    KeyLessStrictTotalOrder(a, c, b);
    KeyLessStrictTotalOrder(c, b, a);
    KeyLessStrictTotalOrder(b, a, c);
    KeyLessStrictTotalOrder(a, b, a);
    KeyLessStrictTotalOrder(b, a, b);
  }

  /** No element is followed by one that strictly goes before it. */
  ghost predicate SortedBy<T>(s: seq<T>, key: T -> Key, dir: Direction) {
    forall i, j :: 0 <= i < j < |s| ==> !Precedes(key(s[j]), key(s[i]), dir)
  }

  /** Places `x` after the elements that strictly go before it and before all others. */
  function Insert<T>(x: T, t: seq<T>, key: T -> Key, dir: Direction): (r: seq<T>)
    ensures multiset(r) == multiset(t) + multiset{x}
    ensures |r| == |t| + 1
    decreases |t|
  {
    if |t| == 0 then [x]
    else
      assert t == [t[0]] + t[1..];
      if Precedes(key(t[0]), key(x), dir) then [t[0]] + Insert(x, t[1..], key, dir)
      else [x] + t
  }

  /** The stable sort: insert each element, from the last to the first, into the sorted rest. */
  function Sort<T>(s: seq<T>, key: T -> Key, dir: Direction): (r: seq<T>)
    ensures multiset(r) == multiset(s)
    ensures |r| == |s|
    decreases |s|
  {
    if |s| == 0 then []
    else
      assert s == [s[0]] + s[1..];
      Insert(s[0], Sort(s[1..], key, dir), key, dir)
  }

  lemma {:induction false} InsertSorted<T>(x: T, t: seq<T>, key: T -> Key, dir: Direction)
    requires SortedBy(t, key, dir)
    ensures SortedBy(Insert(x, t, key, dir), key, dir)
    decreases |t|
  {
    if |t| > 0 {
      var r := Insert(x, t, key, dir);
      if Precedes(key(t[0]), key(x), dir) {
        var rest := Insert(x, t[1..], key, dir);
        InsertSorted(x, t[1..], key, dir);
        assert r == [t[0]] + rest;
        forall j | 1 <= j < |r| ensures !Precedes(key(r[j]), key(t[0]), dir) {
          assert r[j] in multiset(rest);
          assert r[j] in multiset(t[1..]) + multiset{x};
          if r[j] == x {
            PrecedesFacts(key(t[0]), key(x), key(x), dir);
          } else {
            assert r[j] in t[1..];
            var m :| 0 <= m < |t[1..]| && t[1..][m] == r[j];
            assert t[m + 1] == r[j];
          }
        }
      } else {
        assert r == [x] + t;
        forall j | 1 <= j < |r| ensures !Precedes(key(r[j]), key(x), dir) {
          assert r[j] == t[j - 1];
          if j > 1 {
            PrecedesFacts(key(x), key(t[0]), key(t[j - 1]), dir);
          }
        }
      }
    }
  }

  /** `Sort` orders its result. */
  lemma {:induction false} SortSorted<T>(s: seq<T>, key: T -> Key, dir: Direction)
    ensures SortedBy(Sort(s, key, dir), key, dir)
    decreases |s|
  {
    if |s| > 0 {
      SortSorted(s[1..], key, dir);
      InsertSorted(s[0], Sort(s[1..], key, dir), key, dir);
    }
  }

  /** The predicate "has key `k`". */
  function HasKey<T>(key: T -> Key, k: Key): T -> bool {
    x => key(x) == k
  }

  /** The elements of `s` whose key is `k`, in order: the ones a stable sort must not reorder. */
  function WithKey<T>(s: seq<T>, key: T -> Key, k: Key): seq<T> {
    Filter(s, HasKey(key, k))
  }

  /** Moving `x` past an element `y` that cannot share its key keeps the filtered order. */
  lemma PassTie<T>(y: T, x: T, rest: seq<T>, tail: seq<T>, p: T -> bool)
    requires !(p(y) && p(x))
    requires Filter(rest, p) == Filter([x], p) + Filter(tail, p)
    ensures Filter([y] + rest, p) == Filter([x], p) + Filter([y] + tail, p)
  {
    FilterCons(y, rest, p);
    FilterCons(y, tail, p);
    FilterSingleton(x, p);
    PassTieShape(y, x, p(y), p(x), Filter(rest, p), Filter(tail, p),
                 Filter([y] + rest, p), Filter([y] + tail, p), Filter([x], p));
  }

  /** The sequence reasoning behind `PassTie`, with each filter result named. */
  lemma PassTieShape<T>(y: T, x: T, py: bool, px: bool, fr: seq<T>, ft: seq<T>, a: seq<T>, b: seq<T>, fx: seq<T>)
    requires !(py && px)
    requires fr == fx + ft
    requires a == (if py then [y] + fr else fr)
    requires b == (if py then [y] + ft else ft)
    requires fx == (if px then [x] else [])
    ensures a == fx + b
  {
    if py {
      assert fx == [];
      assert fx + b == b;
    }
  }

  lemma {:induction false} InsertKeepsTies<T>(x: T, t: seq<T>, key: T -> Key, dir: Direction, k: Key)
    ensures WithKey(Insert(x, t, key, dir), key, k) == WithKey([x], key, k) + WithKey(t, key, k)
    decreases |t|
  {
    if |t| == 0 {
      assert Insert(x, t, key, dir) == [x] + t;
      FilterConcat([x], t, HasKey(key, k));
    } else if Precedes(key(t[0]), key(x), dir) {
      InsertKeepsTies(x, t[1..], key, dir, k);
      InsertPastEarlier(x, t, key, dir, k);
    } else {
      assert Insert(x, t, key, dir) == [x] + t;
      FilterConcat([x], t, HasKey(key, k));
    }
  }

  /** The inductive step of `InsertKeepsTies` when `x` moves past the first element. */
  lemma InsertPastEarlier<T>(x: T, t: seq<T>, key: T -> Key, dir: Direction, k: Key)
    requires |t| > 0 && Precedes(key(t[0]), key(x), dir)
    requires WithKey(Insert(x, t[1..], key, dir), key, k) == WithKey([x], key, k) + WithKey(t[1..], key, k)
    ensures WithKey(Insert(x, t, key, dir), key, k) == WithKey([x], key, k) + WithKey(t, key, k)
  {
    var y, rest := t[0], t[1..];
    PrecedesDistinct(key(y), key(x), dir);
    InsertPast(x, t, key, dir);
    HeadTail(t);
    PassTie(y, x, Insert(x, rest, key, dir), rest, HasKey(key, k));
  }

  /** A non-empty sequence is its head followed by its tail. */
  lemma HeadTail<T>(t: seq<T>)
    requires |t| > 0
    ensures t == [t[0]] + t[1..]
  {
  }

  /** Strict precedence relates distinct keys only. */
  lemma PrecedesDistinct(a: Key, b: Key, dir: Direction)
    requires Precedes(a, b, dir)
    ensures a != b
  {
    KeyLessStrictTotalOrder(a, a, a);
  }

  /** `x` inserted past a first element that goes before it lands in the rest. */
  lemma InsertPast<T>(x: T, t: seq<T>, key: T -> Key, dir: Direction)
    requires |t| > 0 && Precedes(key(t[0]), key(x), dir)
    ensures Insert(x, t, key, dir) == [t[0]] + Insert(x, t[1..], key, dir)
  {
  }

  /** Stability: for every key, the elements with that key appear in the same order as in the input. */
  lemma {:induction false} SortStable<T>(s: seq<T>, key: T -> Key, dir: Direction, k: Key)
    ensures WithKey(Sort(s, key, dir), key, k) == WithKey(s, key, k)
    decreases |s|
  {
    if |s| > 0 {
      var rest := Sort(s[1..], key, dir);
      assert Sort(s, key, dir) == Insert(s[0], rest, key, dir);
      SortStable(s[1..], key, dir, k);
      InsertKeepsTies(s[0], rest, key, dir, k);
      HeadTail(s);
      FilterConcat([s[0]], s[1..], HasKey(key, k));
    }
  }

  /** A sequence already in order, with ties allowed, is returned unchanged. */
  lemma {:induction false} SortOfSortedIsIdentity<T>(s: seq<T>, key: T -> Key, dir: Direction)
    requires SortedBy(s, key, dir)
    ensures Sort(s, key, dir) == s
    decreases |s|
  {
    if |s| > 0 {
      assert SortedBy(s[1..], key, dir);
      SortOfSortedIsIdentity(s[1..], key, dir);
      if |s| > 1 {
        assert !Precedes(key(s[1]), key(s[0]), dir);
      }
      assert s == [s[0]] + s[1..];
    }
  }
}
