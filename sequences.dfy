/**
 * Python list operations the line-network code relies on: `list.remove`
 * (drop the first element equal to x, or raise ValueError), `list.index`,
 * and the "subsequence" relation that says a list only lost elements.
 */
module Sequences {
  import opened Wrappers

  /** `s.remove(x)`: None when x is not in s (Python raises ValueError). */
  function RemoveFirst<T(==)>(s: seq<T>, x: T): (r: Option<seq<T>>)
    ensures r.Some? <==> x in s
    ensures r.Some? ==> |r.value| == |s| - 1
    ensures r.Some? ==> multiset(r.value) == multiset(s) - multiset{x}
    ensures r.Some? ==> IsSubseq(r.value, s)
    ensures r.Some? ==>
      IndexOf(s, x).Some? && r.value == s[..IndexOf(s, x).value] + s[IndexOf(s, x).value + 1..]
  {
    match IndexOf(s, x)
    case None => None
    case Some(i) =>
      assert s == s[..i] + [s[i]] + s[i + 1..];
      SubseqDropOne(s, i);
      Some(s[..i] + s[i + 1..])
  }

  /** Dropping one position leaves a subsequence. */
  lemma {:induction false} SubseqDropOne<T>(s: seq<T>, i: nat)
    requires i < |s|
    ensures IsSubseq(s[..i] + s[i + 1..], s)
    decreases i
  {
    if i == 0 {
      assert s[..0] + s[1..] == s[1..];
      SubseqOfSelf(s[1..]);
    } else {
      SubseqDropOne(s[1..], i - 1);
      var a := s[..i] + s[i + 1..];
      assert a[0] == s[0];
      assert a[1..] == s[1..][..i - 1] + s[1..][i..];
    }
  }

  /** a is obtained from b by deleting elements; the order is kept. */
  predicate IsSubseq<T(==)>(a: seq<T>, b: seq<T>)
    decreases |b|
  {
    if a == [] then true
    else if b == [] then false
    else (a[0] == b[0] && IsSubseq(a[1..], b[1..])) || IsSubseq(a, b[1..])
  }

  lemma {:induction false} SubseqOfSelf<T>(s: seq<T>)
    ensures IsSubseq(s, s)
    decreases |s|
  {
    if s != [] { SubseqOfSelf(s[1..]); }
  }

  /** Every element of a subsequence is an element of the whole. */
  lemma {:induction false} SubseqMembers<T>(a: seq<T>, b: seq<T>)
    requires IsSubseq(a, b)
    ensures forall x :: x in a ==> x in b
    ensures |a| <= |b|
    decreases |b|
  {
    if a != [] && b != [] {
      if a[0] == b[0] && IsSubseq(a[1..], b[1..]) {
        SubseqMembers(a[1..], b[1..]);
        assert a == [a[0]] + a[1..];
        assert b == [b[0]] + b[1..];
      } else {
        SubseqMembers(a, b[1..]);
        assert b == [b[0]] + b[1..];
      }
    }
  }

  /** Deleting from a list that only lost elements still leaves a list that
      only lost elements. */
  lemma {:induction false} SubseqTransitive<T>(a: seq<T>, b: seq<T>, c: seq<T>)
    requires IsSubseq(a, b) && IsSubseq(b, c)
    ensures IsSubseq(a, c)
    decreases |c|
  {
    if a == [] {
    } else if b == [] {
    } else if c == [] {
    } else if IsSubseq(b, c[1..]) {
      SubseqTransitive(a, b, c[1..]);
    } else if a[0] == b[0] && IsSubseq(a[1..], b[1..]) {
      SubseqTransitive(a[1..], b[1..], c[1..]);
    } else {
      SubseqTransitive(a, b[1..], c[1..]);
    }
  }

  /** `s.index(x)`: the position of the first element equal to x. */
  function IndexOf<T(==)>(s: seq<T>, x: T): (r: Option<nat>)
    ensures r.Some? <==> x in s
    ensures r.Some? ==> r.value < |s| && s[r.value] == x
    ensures r.Some? ==> forall k :: 0 <= k < r.value ==> s[k] != x
  {
    if s == [] then None
    else if s[0] == x then Some(0)
    else
      match IndexOf(s[1..], x)
      case None => None
      case Some(i) => Some(i + 1)
  }

  /** The elements of s that satisfy p, in their order. */
  function Filter<T(!new)>(s: seq<T>, p: T -> bool): (r: seq<T>)
    ensures |r| <= |s|
    ensures forall x :: x in r <==> x in s && p(x)
  {
    if s == [] then []
    else if p(s[0]) then [s[0]] + Filter(s[1..], p)
    else Filter(s[1..], p)
  }
}
