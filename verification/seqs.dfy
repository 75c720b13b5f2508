/**
 * Keeping the first element of each key, in input order: the forward pass with a set of
 * seen keys that both the listing deduplication and Python's `Counter` (whose keys keep
 * first-insertion order) perform.
 */
module Seqs {

  /** The index of the first element of `xs[..n]` that satisfies `p`, or `n` when none does. */
  function FirstIndex<T>(xs: seq<T>, p: T -> bool, n: nat): (k: nat)
    requires n <= |xs|
    ensures k <= n
    ensures forall i :: 0 <= i < k ==> !p(xs[i])
    ensures k < n ==> p(xs[k])
  {
    if n == 0 then 0
    else
      var k := FirstIndex(xs, p, n - 1);
      if k < n - 1 || p(xs[n - 1]) then k else n
  }

  /** Some element of `xs` has key `k`. */
  predicate HasKey<T, K(==)>(xs: seq<T>, key: T -> K, k: K) {
    exists i :: 0 <= i < |xs| && key(xs[i]) == k
  }

  /** No two elements of `xs` share a key. */
  predicate DistinctKeys<T, K(==)>(xs: seq<T>, key: T -> K) {
    forall i, j :: 0 <= i < j < |xs| ==> key(xs[i]) != key(xs[j])
  }

  /** `xs[i]` is the first element of `xs` with its key. */
  predicate IsFirst<T, K(==)>(xs: seq<T>, key: T -> K, i: int)
    requires 0 <= i < |xs|
  {
    forall j :: 0 <= j < i ==> key(xs[j]) != key(xs[i])
  }

  /**
   * One forward pass: an element is kept when no element kept before it has its key,
   * and dropped otherwise.
   */
  function FirstOccurrences<T, K(==)>(xs: seq<T>, key: T -> K): (r: seq<T>)
    ensures |r| <= |xs|
  {
    if xs == [] then []
    else
      var kept := FirstOccurrences(xs[..|xs| - 1], key);
      if HasKey(kept, key, key(xs[|xs| - 1])) then kept else kept + [xs[|xs| - 1]]
  }

  /** Reference definition: the elements at the indices that hold the first occurrence of their key, in order. */
  function Firsts<T, K(==)>(xs: seq<T>, key: T -> K, n: nat): seq<T>
    requires n <= |xs|
  {
    if n == 0 then []
    else Firsts(xs, key, n - 1) + (if IsFirst(xs, key, n - 1) then [xs[n - 1]] else [])
  }

  /** The pass keeps every key of the input and no other. */
  lemma {:induction false} FirstOccurrencesKeys<T, K>(xs: seq<T>, key: T -> K, k: K)
    ensures HasKey(FirstOccurrences(xs, key), key, k) <==> HasKey(xs, key, k)
  {
    if xs != [] {
      var init, last := xs[..|xs| - 1], xs[|xs| - 1];
      var kept := FirstOccurrences(init, key);
      FirstOccurrencesKeys(init, key, k);
      FirstOccurrencesKeys(init, key, key(last));
      if HasKey(xs, key, k) {
        var i :| 0 <= i < |xs| && key(xs[i]) == k;
        if i < |xs| - 1 {
          assert key(init[i]) == k;
        }
      }
      if HasKey(init, key, k) {
        var i :| 0 <= i < |init| && key(init[i]) == k;
        assert key(xs[i]) == k;
      }
      if !HasKey(kept, key, key(last)) {
        var r := kept + [last];
        if HasKey(r, key, k) {
          var i :| 0 <= i < |r| && key(r[i]) == k;
          if i < |kept| {
            assert key(kept[i]) == k;
          }
        }
        if HasKey(kept, key, k) {
          var i :| 0 <= i < |kept| && key(kept[i]) == k;
          assert key(r[i]) == k;
        }
        assert key(r[|kept|]) == key(last);
      }
    }
  }

  /** No two kept elements share a key. */
  lemma {:induction false} FirstOccurrencesDistinct<T, K>(xs: seq<T>, key: T -> K)
    ensures DistinctKeys(FirstOccurrences(xs, key), key)
  {
    if xs != [] {
      var init, last := xs[..|xs| - 1], xs[|xs| - 1];
      var kept := FirstOccurrences(init, key);
      FirstOccurrencesDistinct(init, key);
      if !HasKey(kept, key, key(last)) {
        var r := kept + [last];
        forall i, j | 0 <= i < j < |r| ensures key(r[i]) != key(r[j]) {
          if j == |kept| {
            assert key(r[i]) == key(kept[i]);
          } else {
            assert r[i] == kept[i] && r[j] == kept[j];
          }
        }
      }
    }
  }

  /** The pass keeps exactly the first occurrences, in their input order. */
  lemma {:induction false} FirstOccurrencesAreFirsts<T, K>(xs: seq<T>, key: T -> K)
    ensures FirstOccurrences(xs, key) == Firsts(xs, key, |xs|)
  {
    FirstsPrefix(xs, key, |xs|);
    assert xs[..|xs|] == xs;
  }

  lemma {:induction false} FirstsPrefix<T, K>(xs: seq<T>, key: T -> K, n: nat)
    requires n <= |xs|
    ensures FirstOccurrences(xs[..n], key) == Firsts(xs, key, n)
  {
    if n > 0 {
      var p := xs[..n];
      assert p[..n - 1] == xs[..n - 1];
      FirstsPrefix(xs, key, n - 1);
      var kept := FirstOccurrences(xs[..n - 1], key);
      FirstOccurrencesKeys(xs[..n - 1], key, key(xs[n - 1]));
      if HasKey(xs[..n - 1], key, key(xs[n - 1])) {
        var j :| 0 <= j < n - 1 && key(xs[..n - 1][j]) == key(xs[n - 1]);
        assert key(xs[j]) == key(xs[n - 1]);
        assert !IsFirst(xs, key, n - 1);
      } else {
        forall j | 0 <= j < n - 1 ensures key(xs[j]) != key(xs[n - 1]) {
          assert xs[..n - 1][j] == xs[j];
        }
        assert IsFirst(xs, key, n - 1);
      }
    }
  }

  /** A list whose keys are already distinct passes through unchanged. */
  lemma {:induction false} FirstOccurrencesOfDistinct<T, K>(ys: seq<T>, key: T -> K)
    requires DistinctKeys(ys, key)
    ensures FirstOccurrences(ys, key) == ys
  {
    if ys != [] {
      var init, last := ys[..|ys| - 1], ys[|ys| - 1];
      assert DistinctKeys(init, key) by {
        forall i, j | 0 <= i < j < |init| ensures key(init[i]) != key(init[j]) {
          assert init[i] == ys[i] && init[j] == ys[j];
        }
      }
      FirstOccurrencesOfDistinct(init, key);
      forall i | 0 <= i < |init| ensures key(init[i]) != key(last) {
        assert init[i] == ys[i];
      }
      assert init + [last] == ys;
    }
  }

  /** Deduplicating twice is the same as deduplicating once. */
  lemma FirstOccurrencesIdempotent<T, K>(xs: seq<T>, key: T -> K)
    ensures FirstOccurrences(FirstOccurrences(xs, key), key) == FirstOccurrences(xs, key)
  {
    FirstOccurrencesDistinct(xs, key);
    FirstOccurrencesOfDistinct(FirstOccurrences(xs, key), key);
  }

  /** Every kept element is an element of the input. */
  lemma {:induction false} FirstOccurrencesFromInput<T, K>(xs: seq<T>, key: T -> K)
    ensures forall x :: x in FirstOccurrences(xs, key) ==> x in xs
  {
    if xs != [] {
      FirstOccurrencesFromInput(xs[..|xs| - 1], key);
      assert forall x :: x in xs[..|xs| - 1] ==> x in xs;
    }
  }

  /** The pieces `f` gives for each element, in order, concatenated. */
  function FlatMap<T, U>(xs: seq<T>, f: T -> seq<U>): seq<U> {
    if xs == [] then [] else FlatMap(xs[..|xs| - 1], f) + f(xs[|xs| - 1])
  }

  /** A value is in the concatenation exactly when it is among the pieces of some element. */
  lemma {:induction false} FlatMapMembers<T, U>(xs: seq<T>, f: T -> seq<U>, y: U)
    ensures y in FlatMap(xs, f) <==> exists x :: x in xs && y in f(x)
  {
    if xs != [] {
      var init, last := xs[..|xs| - 1], xs[|xs| - 1];
      FlatMapMembers(init, f, y);
      assert xs == init + [last];
      if y in FlatMap(init, f) {
        var x :| x in init && y in f(x);
        assert x in xs;
      } else if y in f(last) {
        assert last in xs;
      } else {
        forall x | x in xs ensures y !in f(x) {
          assert x in init || x == last;
        }
      }
    }
  }

  /** The concatenation of two runs is the concatenation of each run's pieces. */
  lemma {:induction false} FlatMapAppend<T, U>(xs: seq<T>, ys: seq<T>, f: T -> seq<U>)
    ensures FlatMap(xs + ys, f) == FlatMap(xs, f) + FlatMap(ys, f)
    decreases |ys|
  {
    if ys != [] {
      var init := ys[..|ys| - 1];
      assert (xs + ys)[..|xs + ys| - 1] == xs + init;
      assert (xs + ys)[|xs + ys| - 1] == ys[|ys| - 1];
      FlatMapAppend(xs, init, f);
    } else {
      assert xs + ys == xs;
    }
  }
}
