/** Order-preserving filters over sequences of element ids, and the facts about
    them that the pool bookkeeping relies on. */
module Seqs {

  /** No value occurs twice in `s`. */
  ghost predicate NoDups<T>(s: seq<T>) {
    forall i, j :: 0 <= i < j < |s| ==> s[i] != s[j]
  }

  /** `a` is obtained from `b` by deleting some entries (the survivors keep their order). */
  ghost predicate Subsequence<T>(a: seq<T>, b: seq<T>)
    decreases |b|
  {
    if b == [] then a == []
    else (a != [] && a[0] == b[0] && Subsequence(a[1..], b[1..])) || Subsequence(a, b[1..])
  }

  function Elements<T>(s: seq<T>): set<T> {
    set x | x in s
  }

  /** How many times `x` occurs in `s`. */
  function Count<T(==)>(s: seq<T>, x: T): nat
    decreases |s|
  {
    if s == [] then 0 else Count(s[..|s| - 1], x) + (if s[|s| - 1] == x then 1 else 0)
  }

  lemma {:induction false} CountIsMultiplicity<T>(s: seq<T>, x: T)
    ensures Count(s, x) == multiset(s)[x]
    decreases |s|
  {
    if s != [] {
      CountIsMultiplicity(s[..|s| - 1], x);
      assert s == s[..|s| - 1] + [s[|s| - 1]];
    }
  }

  /** The entries of `s` that lie in `a`, in their original order. */
  function Keep<T>(s: seq<T>, a: set<T>): seq<T> {
    if s == [] then []
    else if s[0] in a then [s[0]] + Keep(s[1..], a)
    else Keep(s[1..], a)
  }

  /** The entries of `s` that do not lie in `a`, in their original order. */
  function Drop<T>(s: seq<T>, a: set<T>): seq<T> {
    if s == [] then []
    else if s[0] in a then Drop(s[1..], a)
    else [s[0]] + Drop(s[1..], a)
  }

  lemma SubsequenceOfTail<T>(a: seq<T>, x: T, b: seq<T>)
    requires Subsequence(a, b)
    ensures Subsequence(a, [x] + b)
  {
    assert ([x] + b)[1..] == b;
  }

  /** A subsequence takes each value at most as often as the whole sequence holds it. */
  lemma {:induction false} SubsequenceMultiset<T>(a: seq<T>, b: seq<T>)
    requires Subsequence(a, b)
    ensures multiset(a) <= multiset(b)
    decreases |b|
  {
    if b != [] {
      assert b == [b[0]] + b[1..];
      if a != [] && a[0] == b[0] && Subsequence(a[1..], b[1..]) {
        SubsequenceMultiset(a[1..], b[1..]);
        assert a == [a[0]] + a[1..];
      } else {
        SubsequenceMultiset(a, b[1..]);
      }
    }
  }

  /** A subsequence of a sequence without repetitions has none either. */
  lemma {:induction false} SubsequenceNoDups<T>(a: seq<T>, b: seq<T>)
    requires Subsequence(a, b) && NoDups(b)
    ensures NoDups(a)
    decreases |b|
  {
    if b != [] {
      assert NoDups(b[1..]);
      if a != [] && a[0] == b[0] && Subsequence(a[1..], b[1..]) {
        SubsequenceNoDups(a[1..], b[1..]);
        SubsequenceMultiset(a[1..], b[1..]);
        assert b[0] !in b[1..];
        assert a[0] !in multiset(a[1..]);
        assert a == [a[0]] + a[1..];
      } else {
        SubsequenceNoDups(a, b[1..]);
      }
    }
  }

  lemma {:induction false} KeepSpec<T>(s: seq<T>, a: set<T>)
    ensures forall x :: x in Keep(s, a) <==> x in s && x in a
    ensures Subsequence(Keep(s, a), s)
  {
    if s != [] {
      KeepSpec(s[1..], a);
      assert s == [s[0]] + s[1..];
      if s[0] !in a {
        SubsequenceOfTail(Keep(s[1..], a), s[0], s[1..]);
      } else {
        assert ([s[0]] + Keep(s[1..], a))[1..] == Keep(s[1..], a);
      }
    }
  }

  lemma {:induction false} DropSpec<T>(s: seq<T>, a: set<T>)
    ensures forall x :: x in Drop(s, a) <==> x in s && x !in a
    ensures Subsequence(Drop(s, a), s)
    ensures |Drop(s, a)| <= |s|
  {
    if s != [] {
      DropSpec(s[1..], a);
      assert s == [s[0]] + s[1..];
      if s[0] in a {
        SubsequenceOfTail(Drop(s[1..], a), s[0], s[1..]);
      } else {
        assert ([s[0]] + Drop(s[1..], a))[1..] == Drop(s[1..], a);
      }
    }
  }
}
