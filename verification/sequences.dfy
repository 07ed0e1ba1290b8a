/**
 * Sequence helpers: distinctness, prefixes, and the order-preserving
 * de-duplicating append that Python's `if x not in lst: lst.append(x)` loop performs.
 */
module Sequences {

  /** No element occurs twice. */
  predicate Distinct<T(==)>(s: seq<T>) {
    forall i, j :: 0 <= i < j < |s| ==> s[i] != s[j]
  }

  /** Python's `s.startswith(prefix)`. */
  predicate StartsWith<T(==)>(s: seq<T>, prefix: seq<T>) {
    |prefix| <= |s| && s[..|prefix|] == prefix
  }

  /** The position of the first occurrence of `x` in `s`. */
  function FirstIndex<T(==)>(s: seq<T>, x: T): (i: nat)
    requires x in s
    ensures i < |s| && s[i] == x
    ensures x !in s[..i]
  {
    if s[0] == x then 0 else 1 + FirstIndex(s[1..], x)
  }

  /**
   * Appends to `acc`, left to right, every element of `s` that is not
   * already present in the list being built.
   */
  function AppendNew<T(==,!new)>(acc: seq<T>, s: seq<T>): (r: seq<T>)
    ensures forall x :: x in r <==> x in acc || x in s
    decreases |s|
  {
    if s == [] then acc
    else AppendNew(if s[0] in acc then acc else acc + [s[0]], s[1..])
  }

  /** The list being appended to is kept, unchanged, as a prefix. */
  lemma {:induction false} AppendNewKeepsPrefix<T(!new)>(acc: seq<T>, s: seq<T>)
    ensures |acc| <= |AppendNew(acc, s)|
    ensures AppendNew(acc, s)[..|acc|] == acc
    decreases |s|
  {
    if s != [] {
      var acc' := if s[0] in acc then acc else acc + [s[0]];
      AppendNewKeepsPrefix(acc', s[1..]);
      assert AppendNew(acc, s)[..|acc|] == acc'[..|acc|];
    }
  }

  /** Appending to a duplicate-free list keeps it duplicate-free. */
  lemma {:induction false} AppendNewDistinct<T(!new)>(acc: seq<T>, s: seq<T>)
    requires Distinct(acc)
    ensures Distinct(AppendNew(acc, s))
    decreases |s|
  {
    if s != [] {
      var acc' := if s[0] in acc then acc else acc + [s[0]];
      AppendNewDistinct(acc', s[1..]);
    }
  }

  /** The elements of `s`, each kept at its first occurrence only. */
  function Dedup<T(==,!new)>(s: seq<T>): (r: seq<T>)
    ensures Distinct(r)
    ensures forall x :: x in r <==> x in s
  {
    AppendNewDistinct([], s);
    AppendNew([], s)
  }

  /** Appending `a` and then `b` is appending `a + b`. */
  lemma {:induction false} AppendNewConcat<T(!new)>(acc: seq<T>, a: seq<T>, b: seq<T>)
    ensures AppendNew(AppendNew(acc, a), b) == AppendNew(acc, a + b)
    decreases |a|
  {
    if a == [] {
      assert a + b == b;
    } else {
      var acc' := if a[0] in acc then acc else acc + [a[0]];
      assert AppendNew(acc, a) == AppendNew(acc', a[1..]);
      assert (a + b)[0] == a[0];
      assert (a + b)[1..] == a[1..] + b;
      assert AppendNew(acc, a + b) == AppendNew(acc', a[1..] + b);
      AppendNewConcat(acc', a[1..], b);
    }
  }

  /** Appending elements that are all present already changes nothing. */
  lemma {:induction false} AppendNewAbsorbs<T(!new)>(acc: seq<T>, s: seq<T>)
    requires forall x :: x in s ==> x in acc
    ensures AppendNew(acc, s) == acc
    decreases |s|
  {
    if s != [] {
      assert s[0] in s;
      AppendNewAbsorbs(acc, s[1..]);
    }
  }

  /** Appending the same elements twice is appending them once. */
  lemma AppendNewIdempotent<T(!new)>(acc: seq<T>, s: seq<T>)
    ensures AppendNew(AppendNew(acc, s), s) == AppendNew(acc, s)
  {
    AppendNewAbsorbs(AppendNew(acc, s), s);
  }

  /**
   * From position `from` on, `r` holds elements of `s` in the order of their
   * first occurrence in `s`.
   */
  predicate InFirstOccurrenceOrder<T(==)>(r: seq<T>, s: seq<T>, from: nat) {
    forall i, j :: from <= i < j < |r| ==>
      r[i] in s && r[j] in s && FirstIndex(s, r[i]) < FirstIndex(s, r[j])
  }

  /** Past the head of `s`, first-occurrence indices shift by one. */
  lemma FirstIndexTail<T>(s: seq<T>, y: T)
    requires y in s && y != s[0]
    ensures y in s[1..]
    ensures FirstIndex(s, y) == 1 + FirstIndex(s[1..], y)
  {
  }

  /**
   * The appended part of `AppendNew(acc, s)` holds elements of `s` absent from
   * `acc`, in the order of their first occurrence in `s`.
   */
  lemma {:induction false} AppendNewOrder<T(!new)>(acc: seq<T>, s: seq<T>)
    ensures forall i :: |acc| <= i < |AppendNew(acc, s)| ==>
      AppendNew(acc, s)[i] in s && AppendNew(acc, s)[i] !in acc
    ensures InFirstOccurrenceOrder(AppendNew(acc, s), s, |acc|)
    decreases |s|
  {
    if s != [] {
      var x := s[0];
      var acc' := if x in acc then acc else acc + [x];
      var r := AppendNew(acc, s);
      assert r == AppendNew(acc', s[1..]);
      AppendNewOrder(acc', s[1..]);
      AppendNewKeepsPrefix(acc', s[1..]);
      assert r[..|acc'|] == acc';
      assert x in acc';
      forall i | |acc| <= i < |r|
        ensures r[i] in s && r[i] !in acc
      {
        if i < |acc'| {
          assert r[i] == acc'[i] == x;
        } else {
          assert r[i] in s[1..];
        }
      }
      forall i, j | |acc| <= i < j < |r|
        ensures r[i] in s && r[j] in s && FirstIndex(s, r[i]) < FirstIndex(s, r[j])
      {
        assert r[j] !in acc';
        FirstIndexTail(s, r[j]);
        if i < |acc'| {
          assert r[i] == acc'[i] == x;
        } else {
          FirstIndexTail(s, r[i]);
        }
      }
      assert InFirstOccurrenceOrder(r, s, |acc|);
    }
  }

  /** `Dedup` keeps the first occurrences in their original order. */
  lemma DedupFirstOccurrenceOrder<T(!new)>(s: seq<T>)
    ensures InFirstOccurrenceOrder(Dedup(s), s, 0)
  {
    AppendNewOrder([], s);
  }

  /** Concatenating two distinct sequences with no common element is distinct. */
  lemma DistinctConcat<T>(a: seq<T>, b: seq<T>)
    requires Distinct(a) && Distinct(b)
    requires forall x :: x in a ==> x !in b
    ensures Distinct(a + b)
  {
    forall i, j | 0 <= i < j < |a + b|
      ensures (a + b)[i] != (a + b)[j]
    {
      if i < |a| && |a| <= j {
        assert (a + b)[i] in a;
        assert (a + b)[j] == b[j - |a|];
      }
    }
  }

  /** `f(xs[0]) + f(xs[1]) + ... + f(xs[|xs| - 1])`, folded from the left. */
  function ConcatMap<A, B>(xs: seq<A>, f: A -> seq<B>): seq<B> {
    if xs == [] then []
    else ConcatMap(xs[..|xs| - 1], f) + f(xs[|xs| - 1])
  }

  lemma {:induction false} ConcatMapAppend<A, B>(xs: seq<A>, ys: seq<A>, f: A -> seq<B>)
    ensures ConcatMap(xs + ys, f) == ConcatMap(xs, f) + ConcatMap(ys, f)
    decreases |ys|
  {
    if ys == [] {
      assert xs + ys == xs;
    } else {
      var init := ys[..|ys| - 1];
      ConcatMapAppend(xs, init, f);
      assert (xs + ys)[..|xs + ys| - 1] == xs + init;
      assert (xs + ys)[|xs + ys| - 1] == ys[|ys| - 1];
    }
  }

  lemma {:induction false} ConcatMapMembers<A, B>(xs: seq<A>, f: A -> seq<B>, y: B)
    ensures y in ConcatMap(xs, f) <==> exists i :: 0 <= i < |xs| && y in f(xs[i])
    decreases |xs|
  {
    if xs != [] {
      var init := xs[..|xs| - 1];
      ConcatMapMembers(init, f, y);
      assert forall i :: 0 <= i < |init| ==> init[i] == xs[i];
    }
  }

  /** An element contributing nothing can be dropped, wherever it stands. */
  lemma ConcatMapSkip<A, B>(a: seq<A>, x: A, b: seq<A>, f: A -> seq<B>)
    requires f(x) == []
    ensures ConcatMap(a + [x] + b, f) == ConcatMap(a + b, f)
  {
    ConcatMapAppend(a + [x], b, f);
    ConcatMapAppend(a, [x], f);
    ConcatMapAppend(a, b, f);
    assert ConcatMap([x], f) == [] + f(x);
  }
}
