/**
 * Array operations the front ends get from JavaScript's library:
 * `filter`, the first-occurrence order of a `Set`, and the stable `sort`.
 */
module Seqs {
  import opened Text

  // ---------------------------------------------------------------- filter

  /** `a` is `b` with some elements left out, the rest in their original order. */
  predicate IsSubseq<T(==)>(a: seq<T>, b: seq<T>)
    decreases |b|
  {
    if a == [] then true
    else if b == [] then false
    else (a[0] == b[0] && IsSubseq(a[1..], b[1..])) || IsSubseq(a, b[1..])
  }

  /** `xs.filter(p)`. */
  function Filter<T(==,!new)>(xs: seq<T>, p: T -> bool): (r: seq<T>)
    ensures |r| <= |xs|
    ensures forall x :: x in r <==> x in xs && p(x)
    ensures IsSubseq(r, xs)
  {
    if |xs| == 0 then []
    else if p(xs[0]) then [xs[0]] + Filter(xs[1..], p)
    else Filter(xs[1..], p)
  }

  /** A passing element is kept as many times as it occurs; a failing one is dropped. */
  lemma {:induction false} FilterCount<T(!new)>(xs: seq<T>, p: T -> bool, x: T)
    ensures multiset(Filter(xs, p))[x] == if p(x) then multiset(xs)[x] else 0
  {
    if |xs| > 0 {
      FilterCount(xs[1..], p, x);
      assert xs == [xs[0]] + xs[1..];
    }
  }

  /** Filtering an array with one more element at the end. */
  lemma {:induction false} FilterSnoc<T(!new)>(xs: seq<T>, x: T, p: T -> bool)
    ensures Filter(xs + [x], p) == Filter(xs, p) + (if p(x) then [x] else [])
  {
    if |xs| == 0 {
      assert xs + [x] == [x];
    } else {
      assert (xs + [x])[1..] == xs[1..] + [x];
      FilterSnoc(xs[1..], x, p);
    }
  }

  /** A filter every element passes keeps the whole array. */
  lemma {:induction false} FilterAll<T(!new)>(xs: seq<T>, p: T -> bool)
    requires forall x :: x in xs ==> p(x)
    ensures Filter(xs, p) == xs
  {
    if |xs| > 0 {
      FilterAll(xs[1..], p);
      assert xs == [xs[0]] + xs[1..];
    }
  }

  /** A filter no element passes leaves nothing. */
  lemma {:induction false} FilterNone<T(!new)>(xs: seq<T>, p: T -> bool)
    requires forall x :: x in xs ==> !p(x)
    ensures Filter(xs, p) == []
  {
    if |xs| > 0 {
      assert forall x :: x in xs[1..] ==> x in xs;
      FilterNone(xs[1..], p);
    }
  }

  /** Two filters in a row are one filter by the conjunction. */
  lemma {:induction false} FilterFilter<T(!new)>(xs: seq<T>, p: T -> bool, q: T -> bool)
    ensures Filter(Filter(xs, p), q) == Filter(xs, x => p(x) && q(x))
  {
    if |xs| > 0 {
      FilterFilter(xs[1..], p, q);
      if p(xs[0]) {
        assert ([xs[0]] + Filter(xs[1..], p))[1..] == Filter(xs[1..], p);
      }
    }
  }

  /** Filters whose tests agree on every element give the same result. */
  lemma {:induction false} FilterExt<T(!new)>(xs: seq<T>, p: T -> bool, q: T -> bool)
    requires forall x :: x in xs ==> p(x) == q(x)
    ensures Filter(xs, p) == Filter(xs, q)
  {
    if |xs| > 0 {
      assert forall x :: x in xs[1..] ==> x in xs;
      FilterExt(xs[1..], p, q);
    }
  }

  /** A filter applied only when `on` holds is one filter by `!on || p`. */
  lemma GuardedFilter<T(!new)>(xs: seq<T>, on: bool, p: T -> bool, q: T -> bool)
    requires forall x :: q(x) == (!on || p(x))
    ensures (if on then Filter(xs, p) else xs) == Filter(xs, q)
  {
    if on {
      FilterExt(xs, p, q);
    } else {
      FilterAll(xs, q);
    }
  }

  /** Two filters in a row are one filter by any test equivalent to the conjunction. */
  lemma FilterThen<T(!new)>(xs: seq<T>, p: T -> bool, q: T -> bool, both: T -> bool)
    requires forall x :: both(x) == (p(x) && q(x))
    ensures Filter(Filter(xs, p), q) == Filter(xs, both)
  {
    FilterFilter(xs, p, q);
    FilterExt(xs, x => p(x) && q(x), both);
  }

  // ---------------------------------------------------------------- flatMap

  /** `xs.flatMap(f)`: the lists `f` gives for the elements, concatenated in order. */
  function FlatMap<T, U>(xs: seq<T>, f: T -> seq<U>): seq<U> {
    if |xs| == 0 then [] else FlatMap(xs[..|xs| - 1], f) + f(xs[|xs| - 1])
  }

  /** A value is in the concatenation exactly when it is in the list of some element. */
  lemma {:induction false} FlatMapIff<T, U>(xs: seq<T>, f: T -> seq<U>, x: U)
    ensures x in FlatMap(xs, f) <==> exists i :: 0 <= i < |xs| && x in f(xs[i])
  {
    if |xs| > 0 {
      var n := |xs| - 1;
      var front := xs[..n];
      FlatMapIff(front, f, x);
      if x in FlatMap(xs, f) && x !in FlatMap(front, f) {
        assert x in f(xs[n]);
      }
      if exists i :: 0 <= i < |xs| && x in f(xs[i]) {
        var i :| 0 <= i < |xs| && x in f(xs[i]);
        if i < n {
          assert front[i] == xs[i];
        }
      }
    }
  }

  // ---------------------------------------------------------------- Set

  predicate NoDup<T(==)>(xs: seq<T>) {
    forall i, j :: 0 <= i < j < |xs| ==> xs[i] != xs[j]
  }

  /**
   * `Array.from(new Set(xs))`: each distinct value once, in the order of its
   * first occurrence.
   */
  function Distinct<T(==,!new)>(xs: seq<T>): (r: seq<T>)
    ensures NoDup(r)
    ensures forall x :: x in r <==> x in xs
    ensures |r| <= |xs|
  {
    if |xs| == 0 then []
    else
      var prefix := Distinct(xs[..|xs| - 1]);
      var last := xs[|xs| - 1];
      assert forall x :: x in xs <==> x in xs[..|xs| - 1] || x == last by {
        assert xs == xs[..|xs| - 1] + [last];
      }
      if last in prefix then prefix else prefix + [last]
  }

  /** The position of the first occurrence of `x` in `xs`. */
  function FirstIndex<T(==)>(xs: seq<T>, x: T): (k: nat)
    requires x in xs
    ensures k < |xs| && xs[k] == x && x !in xs[..k]
  {
    if xs[0] == x then 0
    else
      var k := 1 + FirstIndex(xs[1..], x);
      assert xs[..k] == [xs[0]] + xs[1..][..k - 1];
      k
  }

  /** A position holding `x` with no `x` before it is the first occurrence. */
  lemma FirstIndexUnique<T>(xs: seq<T>, x: T, k: nat)
    requires k < |xs| && xs[k] == x && x !in xs[..k]
    ensures FirstIndex(xs, x) == k
  {
  }

  /** Appending values leaves the first occurrence of an existing value where it was. */
  lemma FirstIndexSnoc<T>(xs: seq<T>, z: T, x: T)
    requires x in xs
    ensures FirstIndex(xs + [z], x) == FirstIndex(xs, x)
  {
    var k := FirstIndex(xs, x);
    assert (xs + [z])[..k] == xs[..k];
    FirstIndexUnique(xs + [z], x, k);
  }

  /**
   * `new Set` keeps insertion order: the values of `Distinct(xs)` come in the
   * order of their first occurrences in `xs`.
   */
  lemma {:induction false} DistinctFirstOrder<T(!new)>(xs: seq<T>, i: nat, j: nat)
    requires i < j < |Distinct(xs)|
    ensures Distinct(xs)[i] in xs && Distinct(xs)[j] in xs
    ensures FirstIndex(xs, Distinct(xs)[i]) < FirstIndex(xs, Distinct(xs)[j])
    decreases |xs|
  {
    var front := xs[..|xs| - 1];
    var last := xs[|xs| - 1];
    assert xs == front + [last];
    DistinctSnoc(front, last);
    var d := Distinct(front);
    var a, b := Distinct(xs)[i], Distinct(xs)[j];
    assert a in front by {
      assert a == d[i];
    }
    FirstIndexSnoc(front, last, a);
    if j < |d| {
      assert b == d[j];
      DistinctFirstOrder(front, i, j);
      FirstIndexSnoc(front, last, b);
    } else {
      assert b == last && last !in front;
      assert xs[..|front|] == front;
      FirstIndexUnique(xs, last, |front|);
    }
  }

  /** Sequences with the same multiset hold the same values. */
  lemma SameMembers<T>(d: seq<T>, u: seq<T>)
    requires multiset(d) == multiset(u)
    ensures forall x :: x in u <==> x in d
  {
    forall x ensures x in u <==> x in d {
      assert x in u <==> x in multiset(u);
      assert x in d <==> x in multiset(d);
    }
  }

  /** Adding one more value to the set: it joins at the end unless already present. */
  lemma DistinctSnoc<T(!new)>(xs: seq<T>, x: T)
    ensures Distinct(xs + [x]) == if x in Distinct(xs) then Distinct(xs) else Distinct(xs) + [x]
  {
    assert (xs + [x])[..|xs|] == xs;
  }

  // ---------------------------------------------------------------- sort

  /** Under the comparator, `x` must be placed strictly before `y`. */
  predicate Before<T>(key: T -> string, descending: bool, x: T, y: T) {
    if descending then LexLess(key(y), key(x)) else LexLess(key(x), key(y))
  }

  /** No adjacent pair is out of order. */
  predicate SortedBy<T>(xs: seq<T>, key: T -> string, descending: bool) {
    forall i :: 0 < i < |xs| ==> !Before(key, descending, xs[i], xs[i - 1])
  }

  lemma BeforeAsymmetric<T>(key: T -> string, descending: bool, x: T, y: T)
    ensures !(Before(key, descending, x, y) && Before(key, descending, y, x))
  {
    LexLessAsymmetric(key(x), key(y));
  }

  /** Insert `x` after every element it need not precede. */
  function InsertBy<T>(x: T, xs: seq<T>, key: T -> string, descending: bool): (r: seq<T>)
    ensures |r| == |xs| + 1
    ensures multiset(r) == multiset(xs) + multiset{x}
    ensures r[0] == x || (|xs| > 0 && r[0] == xs[0])
  {
    if |xs| == 0 then [x]
    else if Before(key, descending, x, xs[0]) then [x] + xs
    else
      assert xs == [xs[0]] + xs[1..];
      [xs[0]] + InsertBy(x, xs[1..], key, descending)
  }

  lemma {:induction false} InsertBySorted<T>(x: T, xs: seq<T>, key: T -> string, descending: bool)
    requires SortedBy(xs, key, descending)
    ensures SortedBy(InsertBy(x, xs, key, descending), key, descending)
  {
    if |xs| > 0 {
      if Before(key, descending, x, xs[0]) {
        BeforeAsymmetric(key, descending, x, xs[0]);
      } else {
        InsertBySorted(x, xs[1..], key, descending);
        var r := InsertBy(x, xs, key, descending);
        var rest := InsertBy(x, xs[1..], key, descending);
        assert r == [xs[0]] + rest;
        forall i | 0 < i < |r| ensures !Before(key, descending, r[i], r[i - 1]) {
          if i > 1 {
            assert r[i] == rest[i - 1] && r[i - 1] == rest[i - 2];
          }
        }
      }
    }
  }

  /** `xs.sort(comparator)`: stable insertion sort by `key`, ascending or descending. */
  function SortBy<T>(xs: seq<T>, key: T -> string, descending: bool): (r: seq<T>)
    ensures multiset(r) == multiset(xs)
    ensures SortedBy(r, key, descending)
  {
    if |xs| == 0 then []
    else
      assert xs == xs[..|xs| - 1] + [xs[|xs| - 1]];
      var sorted := SortBy(xs[..|xs| - 1], key, descending);
      InsertBySorted(xs[|xs| - 1], sorted, key, descending);
      InsertBy(xs[|xs| - 1], sorted, key, descending)
  }

  // ---------------------------------------------------------------- stability

  /** The elements whose key is `k`. */
  function KeyIs<T>(key: T -> string, k: string): T -> bool {
    (x: T) => key(x) == k
  }

  /** The elements whose key is `k`, in order: `Filter` by `KeyIs`, unfolded by hand. */
  function WithKey<T>(xs: seq<T>, key: T -> string, k: string): seq<T> {
    if |xs| == 0 then []
    else (if key(xs[0]) == k then [xs[0]] else []) + WithKey(xs[1..], key, k)
  }

  lemma {:induction false} WithKeyIsFilter<T(!new)>(xs: seq<T>, key: T -> string, k: string)
    ensures WithKey(xs, key, k) == Filter(xs, KeyIs(key, k))
  {
    if |xs| > 0 {
      WithKeyIsFilter(xs[1..], key, k);
    }
  }

  lemma {:induction false} WithKeySnoc<T>(xs: seq<T>, x: T, key: T -> string, k: string)
    ensures WithKey(xs + [x], key, k) == WithKey(xs, key, k) + WithKey([x], key, k)
  {
    if |xs| == 0 {
      assert xs + [x] == [x];
    } else {
      assert (xs + [x])[1..] == xs[1..] + [x];
      WithKeySnoc(xs[1..], x, key, k);
    }
  }

  /** "Need not come before" is transitive. */
  lemma NotBeforeTransitive<T>(key: T -> string, descending: bool, a: T, b: T, c: T)
    requires !Before(key, descending, a, b) && !Before(key, descending, b, c)
    ensures !Before(key, descending, a, c)
  {
    LexLessTotal(key(a), key(b));
    if descending {
      if LexLess(key(a), key(b)) && LexLess(key(c), key(a)) {
        LexLessTransitive(key(c), key(a), key(b));
      }
    } else {
      if LexLess(key(b), key(a)) && LexLess(key(a), key(c)) {
        LexLessTransitive(key(b), key(a), key(c));
      }
    }
  }

  /** In a sorted array no element must come before the first. */
  lemma {:induction false} SortedHeadLeast<T>(xs: seq<T>, key: T -> string, descending: bool, i: nat)
    requires SortedBy(xs, key, descending) && i < |xs|
    ensures !Before(key, descending, xs[i], xs[0])
  {
    if i == 0 {
      LexLessIrreflexive(key(xs[0]));
    } else {
      SortedHeadLeast(xs, key, descending, i - 1);
      NotBeforeTransitive(key, descending, xs[i], xs[i - 1], xs[0]);
    }
  }

  /** Elements from position `i` on, none of them with key `k`, contribute nothing. */
  lemma {:induction false} WithKeyNone<T>(xs: seq<T>, key: T -> string, k: string)
    requires forall i :: 0 <= i < |xs| ==> key(xs[i]) != k
    ensures WithKey(xs, key, k) == []
  {
    if |xs| > 0 {
      WithKeyNone(xs[1..], key, k);
    }
  }

  /** When `x` goes in front of a sorted array, no element of the array shares its key. */
  lemma InsertInFront<T>(x: T, xs: seq<T>, key: T -> string, descending: bool)
    requires SortedBy(xs, key, descending) && |xs| > 0 && Before(key, descending, x, xs[0])
    ensures WithKey(xs, key, key(x)) == []
  {
    forall i | 0 <= i < |xs| ensures key(xs[i]) != key(x) {
      SortedHeadLeast(xs, key, descending, i);
    }
    WithKeyNone(xs, key, key(x));
  }

  /** The tail of a sorted array is sorted. */
  lemma SortedTail<T>(xs: seq<T>, key: T -> string, descending: bool)
    requires SortedBy(xs, key, descending) && |xs| > 0
    ensures SortedBy(xs[1..], key, descending)
  {
    var tail := xs[1..];
    forall i | 0 < i < |tail| ensures !Before(key, descending, tail[i], tail[i - 1]) {
      assert tail[i] == xs[i + 1] && tail[i - 1] == xs[i];
    }
  }

  /** The head's contribution, then the rest's. */
  lemma WithKeyCons<T>(a: T, rest: seq<T>, key: T -> string, k: string)
    ensures WithKey([a] + rest, key, k) == WithKey([a], key, k) + WithKey(rest, key, k)
  {
    assert ([a] + rest)[1..] == rest;
    assert [a][1..] == [];
  }

  /** `x` goes first: it is the last of its key, as no element of the array shares that key. */
  lemma InsertFrontStable<T>(x: T, xs: seq<T>, key: T -> string, descending: bool, k: string)
    requires SortedBy(xs, key, descending) && |xs| > 0 && Before(key, descending, x, xs[0])
    ensures WithKey([x] + xs, key, k) == WithKey(xs, key, k) + WithKey([x], key, k)
  {
    WithKeyCons(x, xs, key, k);
    if key(x) == k {
      InsertInFront(x, xs, key, descending);
    } else {
      assert WithKey([x], key, k) == [] + WithKey([x][1..], key, k);
    }
  }

  /** `x` goes past the head: the head's contribution comes first on both sides. */
  lemma InsertPastStable<T>(x: T, head: T, tail: seq<T>, rest: seq<T>, key: T -> string, k: string)
    requires WithKey(rest, key, k) == WithKey(tail, key, k) + WithKey([x], key, k)
    ensures WithKey([head] + rest, key, k) == WithKey([head] + tail, key, k) + WithKey([x], key, k)
  {
    WithKeyCons(head, rest, key, k);
    WithKeyCons(head, tail, key, k);
  }

  /** Inserting into a sorted array puts `x` after every element with the same key. */
  lemma {:induction false} InsertByStable<T>(x: T, xs: seq<T>, key: T -> string, descending: bool, k: string)
    requires SortedBy(xs, key, descending)
    ensures WithKey(InsertBy(x, xs, key, descending), key, k) == WithKey(xs, key, k) + WithKey([x], key, k)
  {
    if |xs| == 0 {
      assert InsertBy(x, xs, key, descending) == [x];
    } else if Before(key, descending, x, xs[0]) {
      InsertFrontStable(x, xs, key, descending, k);
    } else {
      SortedTail(xs, key, descending);
      InsertByStable(x, xs[1..], key, descending, k);
      InsertPastStable(x, xs[0], xs[1..], InsertBy(x, xs[1..], key, descending), key, k);
      assert xs == [xs[0]] + xs[1..];
    }
  }

  /** One insertion step of the sort keeps the ties of the front, then the last element. */
  lemma TiesStep<T>(xs: seq<T>, sorted: seq<T>, inserted: seq<T>, key: T -> string, k: string)
    requires |xs| > 0
    requires WithKey(sorted, key, k) == WithKey(xs[..|xs| - 1], key, k)
    requires WithKey(inserted, key, k) == WithKey(sorted, key, k) + WithKey([xs[|xs| - 1]], key, k)
    ensures WithKey(inserted, key, k) == WithKey(xs, key, k)
  {
    assert xs == xs[..|xs| - 1] + [xs[|xs| - 1]];
    WithKeySnoc(xs[..|xs| - 1], xs[|xs| - 1], key, k);
  }

  /** `SortBy` inserts the last element into the sorted front. */
  lemma SortBySnoc<T>(xs: seq<T>, key: T -> string, descending: bool)
    requires |xs| > 0
    ensures SortBy(xs, key, descending) ==
      InsertBy(xs[|xs| - 1], SortBy(xs[..|xs| - 1], key, descending), key, descending)
  {
  }

  /** Ties keep their input order under `SortBy`. */
  lemma {:induction false} SortByKeepsTies<T>(xs: seq<T>, key: T -> string, descending: bool, k: string)
    ensures WithKey(SortBy(xs, key, descending), key, k) == WithKey(xs, key, k)
  {
    if |xs| > 0 {
      var front, last := xs[..|xs| - 1], xs[|xs| - 1];
      var sorted := SortBy(front, key, descending);
      SortBySnoc(xs, key, descending);
      SortByKeepsTies(front, key, descending, k);
      InsertByStable(last, sorted, key, descending, k);
      TiesStep(xs, sorted, SortBy(xs, key, descending), key, k);
    }
  }

  /**
   * The sort is stable: the elements sharing a key keep their input order,
   * so ties (such as recipes never eaten) stay in filter order.
   */
  lemma SortByStable<T(!new)>(xs: seq<T>, key: T -> string, descending: bool, k: string)
    ensures Filter(SortBy(xs, key, descending), KeyIs(key, k)) == Filter(xs, KeyIs(key, k))
  {
    SortByKeepsTies(xs, key, descending, k);
    WithKeyIsFilter(SortBy(xs, key, descending), key, k);
    WithKeyIsFilter(xs, key, k);
  }

  /** `xs.sort()` on strings: code-unit order. */
  function SortStrings(xs: seq<string>): (r: seq<string>)
    ensures multiset(r) == multiset(xs)
    ensures forall i :: 0 < i < |r| ==> !LexLess(r[i], r[i - 1])
  {
    SortBy(xs, s => s, false)
  }

  /** Sorting duplicate-free strings gives a strictly increasing array. */
  lemma SortStringsStrict(xs: seq<string>)
    requires NoDup(xs)
    ensures forall i :: 0 < i < |SortStrings(xs)| ==> LexLess(SortStrings(xs)[i - 1], SortStrings(xs)[i])
    ensures NoDup(SortStrings(xs))
  {
    var r := SortStrings(xs);
    MultisetNoDup(xs, r);
    forall i | 0 < i < |r| ensures LexLess(r[i - 1], r[i]) {
      LexLessTotal(r[i - 1], r[i]);
    }
  }

  lemma MultisetNoDup<T>(xs: seq<T>, ys: seq<T>)
    requires NoDup(xs) && multiset(xs) == multiset(ys)
    ensures NoDup(ys)
  {
    forall i, j | 0 <= i < j < |ys| ensures ys[i] != ys[j] {
      if ys[i] == ys[j] {
        var m := multiset(ys[..i] + [ys[i]] + ys[i + 1..j] + [ys[j]] + ys[j + 1..]);
        assert ys == ys[..i] + [ys[i]] + ys[i + 1..j] + [ys[j]] + ys[j + 1..];
        assert multiset(ys)[ys[i]] >= 2;
        NoDupCount(xs, ys[i]);
      }
    }
  }

  lemma {:induction false} NoDupCount<T>(xs: seq<T>, x: T)
    requires NoDup(xs)
    ensures multiset(xs)[x] <= 1
  {
    if |xs| > 0 {
      assert xs == [xs[0]] + xs[1..];
      NoDupCount(xs[1..], x);
      if xs[0] == x {
        assert x !in xs[1..];
      }
    }
  }
}
