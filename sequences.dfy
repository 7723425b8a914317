/** Sequence operations behind the list comprehensions of the news
    extractors (`[f(x) for x in s]`, `[x for x in s if p(x)]`) and the
    relations used to state that a result keeps the input's order.

    Recursive definitions peel the LAST element, so that a loop that appends
    to a list matches them one iteration at a time. */
module Sequences {

  /** `[f(x) for x in s]` */
  function Map<T, U>(f: T -> U, s: seq<T>): seq<U>
  {
    seq(|s|, i requires 0 <= i < |s| => f(s[i]))
  }

  /** `[x for x in s if p(x)]` */
  function Filter<T(==)>(p: T -> bool, s: seq<T>): (r: seq<T>)
    ensures |r| <= |s|
    ensures forall x :: x in r ==> x in s && p(x)
    decreases |s|
  {
    if s == [] then []
    else
      var kept := Filter(p, s[..|s| - 1]);
      if p(s[|s| - 1]) then kept + [s[|s| - 1]] else kept
  }

  /** The pieces `f(x)` of every `x` in `s`, concatenated in the order of
      `s` (a loop that extends one list with the pieces in turn). */
  function ConcatMap<T, U>(f: T -> seq<U>, s: seq<T>): seq<U>
    decreases |s|
  {
    if s == [] then [] else ConcatMap(f, s[..|s| - 1]) + f(s[|s| - 1])
  }

  /** `a` is obtained from `b` by deleting elements, keeping the order of
      the rest. */
  predicate IsSubseq<T(==)>(a: seq<T>, b: seq<T>)
    decreases |b|
  {
    if a == [] then true
    else if b == [] then false
    else if a[|a| - 1] == b[|b| - 1] then IsSubseq(a[..|a| - 1], b[..|b| - 1])
    else IsSubseq(a, b[..|b| - 1])
  }

  /** No element occurs twice. */
  predicate Unique<T(==)>(s: seq<T>)
  {
    forall i, j :: 0 <= i < j < |s| ==> s[i] != s[j]
  }

  /** The position of the first occurrence of `x` in `s`. */
  function FirstIndex<T(==)>(s: seq<T>, x: T): (i: nat)
    requires x in s
    ensures i < |s| && s[i] == x && x !in s[..i]
    decreases |s|
  {
    var n := |s| - 1;
    if x in s[..n] then
      var i := FirstIndex(s[..n], x);
      assert s[..n][..i] == s[..i];
      i
    else n
  }

  /** A filter keeps the order of what it keeps. */
  lemma {:induction false} FilterSubseq<T>(p: T -> bool, s: seq<T>)
    ensures IsSubseq(Filter(p, s), s)
    decreases |s|
  {
    if s != [] {
      var init := s[..|s| - 1];
      var kept := Filter(p, init);
      FilterSubseq(p, init);
      if p(s[|s| - 1]) {
        assert (kept + [s[|s| - 1]])[..|kept|] == kept;
      } else if kept != [] {
        assert kept[|kept| - 1] in kept;
      }
    }
  }

  /** A filter drops nothing that satisfies the predicate. */
  lemma {:induction false} FilterComplete<T>(p: T -> bool, s: seq<T>)
    ensures forall x :: x in s && p(x) ==> x in Filter(p, s)
    decreases |s|
  {
    if s != [] {
      var init := s[..|s| - 1];
      FilterComplete(p, init);
      assert s == init + [s[|s| - 1]];
    }
  }

  /** A filter keeps every copy of an element that satisfies the predicate
      and no copy of one that does not. Together with FilterSubseq this pins
      the result down exactly. */
  lemma {:induction false} FilterMultiplicity<T>(p: T -> bool, s: seq<T>, x: T)
    ensures multiset(Filter(p, s))[x] == if p(x) then multiset(s)[x] else 0
    decreases |s|
  {
    if s != [] {
      var init := s[..|s| - 1];
      FilterMultiplicity(p, init, x);
      assert s == init + [s[|s| - 1]];
      assert multiset(s) == multiset(init) + multiset{s[|s| - 1]};
    }
  }

  /** Filtering after a projection is projecting after filtering with the
      composed predicate. */
  lemma {:induction false} FilterMap<T, U>(q: U -> bool, f: T -> U, p: T -> bool, s: seq<T>)
    requires forall x :: p(x) == q(f(x))
    ensures Filter(q, Map(f, s)) == Map(f, Filter(p, s))
    decreases |s|
  {
    if s != [] {
      var init := s[..|s| - 1];
      FilterMap(q, f, p, init);
      assert Map(f, s)[..|s| - 1] == Map(f, init);
      var kept := Filter(p, init);
      assert Map(f, kept + [s[|s| - 1]]) == Map(f, kept) + [f(s[|s| - 1])];
    }
  }

  lemma ConcatMapSnoc<T, U>(f: T -> seq<U>, s: seq<T>, x: T)
    ensures ConcatMap(f, s + [x]) == ConcatMap(f, s) + f(x)
  {
    assert (s + [x])[..|s|] == s;
  }

  /** The pieces of a concatenation are the pieces of each part, in order. */
  lemma {:induction false} ConcatMapAppend<T, U>(f: T -> seq<U>, s: seq<T>, t: seq<T>)
    ensures ConcatMap(f, s + t) == ConcatMap(f, s) + ConcatMap(f, t)
    decreases |t|
  {
    if t == [] {
      assert s + t == s;
    } else {
      var init, last := t[..|t| - 1], t[|t| - 1];
      assert t == init + [last];
      assert s + t == (s + init) + [last];
      calc {
        ConcatMap(f, s + t);
        { ConcatMapSnoc(f, s + init, last); }
        ConcatMap(f, s + init) + f(last);
        { ConcatMapAppend(f, s, init); }
        ConcatMap(f, s) + ConcatMap(f, init) + f(last);
        { ConcatMapSnoc(f, init, last); }
        ConcatMap(f, s) + ConcatMap(f, t);
      }
    }
  }

  /** Appending one element to the input of a projection. */
  lemma MapSnoc<T, U>(f: T -> U, s: seq<T>, x: T)
    ensures Map(f, s + [x]) == Map(f, s) + [f(x)]
  {
  }

  /** Appending one element to the input of a filter. */
  lemma FilterSnoc<T>(p: T -> bool, s: seq<T>, x: T)
    ensures Filter(p, s + [x]) == Filter(p, s) + if p(x) then [x] else []
  {
    assert (s + [x])[..|s|] == s;
  }

  /** Every element of a projection of a filter is the image of an element
      of the input that passes the filter. */
  lemma MapFilterSource<T, U>(f: T -> U, p: T -> bool, s: seq<T>, y: U)
    requires y in Map(f, Filter(p, s))
    ensures exists x :: x in s && p(x) && y == f(x)
  {
    var kept := Filter(p, s);
    var k :| 0 <= k < |kept| && Map(f, kept)[k] == y;
    assert kept[k] in kept;
  }

  /** The image of every element that passes a filter is in the projection
      of the filter. */
  lemma MapFilterImage<T, U>(f: T -> U, p: T -> bool, s: seq<T>, x: T)
    requires x in s && p(x)
    ensures f(x) in Map(f, Filter(p, s))
  {
    FilterComplete(p, s);
    var kept := Filter(p, s);
    var k :| 0 <= k < |kept| && kept[k] == x;
    assert Map(f, kept)[k] == f(x);
  }

  /** Dropping the last element of a subsequence keeps it a subsequence. */
  lemma {:induction false} SubseqDropLast<T>(a: seq<T>, b: seq<T>)
    requires a != [] && IsSubseq(a, b)
    ensures IsSubseq(a[..|a| - 1], b)
    decreases |b|
  {
    var a' := a[..|a| - 1];
    var b' := b[..|b| - 1];
    if a[|a| - 1] == b[|b| - 1] {
      if a' != [] && a'[|a'| - 1] == b[|b| - 1] {
        SubseqDropLast(a', b');
      }
    } else {
      SubseqDropLast(a, b');
      if a' != [] && a'[|a'| - 1] == b[|b| - 1] {
        SubseqDropLast(a', b');
      }
    }
  }

  /** A subsequence of `b` is a subsequence of `b` extended at the end. */
  lemma SubseqSnoc<T>(a: seq<T>, b: seq<T>, x: T)
    requires IsSubseq(a, b)
    ensures IsSubseq(a, b + [x])
  {
    assert (b + [x])[..|b|] == b;
    if a != [] && a[|a| - 1] == x {
      SubseqDropLast(a, b);
    }
  }

  /** The concatenation is empty exactly when every piece is. */
  lemma {:induction false} ConcatMapEmpty<T, U>(f: T -> seq<U>, s: seq<T>)
    ensures ConcatMap(f, s) == [] <==> forall i :: 0 <= i < |s| ==> f(s[i]) == []
    decreases |s|
  {
    if s != [] {
      var init := s[..|s| - 1];
      ConcatMapEmpty(f, init);
      assert forall i :: 0 <= i < |init| ==> init[i] == s[i];
    }
  }
}
