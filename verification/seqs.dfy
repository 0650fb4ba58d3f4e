/** Generic, order-preserving operations on sequences: the `Array.prototype.filter`,
    `findIndex` and `find` of the screens, as pure functions. */
module Seqs {
  import opened Wrappers

  /** `a` can be obtained from `b` by deleting elements, keeping the rest in order. */
  ghost predicate IsSubsequence<T>(a: seq<T>, b: seq<T>)
    decreases |b|
  {
    || |a| == 0
    || (&& |b| > 0
        && (|| (a[0] == b[0] && IsSubsequence(a[1..], b[1..]))
            || IsSubsequence(a, b[1..])))
  }

  /** The elements of `s` that satisfy `f`, in their original order. */
  function Filter<T>(f: T -> bool, s: seq<T>): (r: seq<T>)
    ensures |r| <= |s|
    ensures forall i :: 0 <= i < |r| ==> r[i] in s && f(r[i])
    ensures forall i :: 0 <= i < |s| && f(s[i]) ==> s[i] in r
    ensures r == [] <==> forall i :: 0 <= i < |s| ==> !f(s[i])
  {
    if |s| == 0 then []
    else if f(s[0]) then [s[0]] + Filter(f, s[1..])
    else Filter(f, s[1..])
  }

  /** A subsequence is never longer than, and only holds elements of, the sequence it comes from. */
  lemma {:induction false} SubsequenceBounds<T>(a: seq<T>, b: seq<T>)
    requires IsSubsequence(a, b)
    ensures |a| <= |b|
    ensures forall i :: 0 <= i < |a| ==> a[i] in b
    decreases |b|
  {
    if |a| == 0 {
    } else if a[0] == b[0] && IsSubsequence(a[1..], b[1..]) {
      SubsequenceBounds(a[1..], b[1..]);
      assert a == [a[0]] + a[1..];
      assert b == [b[0]] + b[1..];
    } else {
      SubsequenceBounds(a, b[1..]);
      assert b == [b[0]] + b[1..];
    }
  }

  /** Filtering keeps the surviving elements in their original relative order. */
  lemma {:induction false} FilterIsSubsequence<T>(f: T -> bool, s: seq<T>)
    ensures IsSubsequence(Filter(f, s), s)
  {
    if |s| > 0 {
      FilterIsSubsequence(f, s[1..]);
      var rest := Filter(f, s[1..]);
      if f(s[0]) {
        assert Filter(f, s) == [s[0]] + rest;
        assert ([s[0]] + rest)[1..] == rest;
      }
    }
  }

  /** Each element occurs in the result exactly as often as it occurs in the input when it
      passes the test, and never otherwise: nothing is duplicated and nothing accepted is dropped. */
  lemma {:induction false} FilterCount<T>(f: T -> bool, s: seq<T>, x: T)
    ensures multiset(Filter(f, s))[x] == if f(x) then multiset(s)[x] else 0
  {
    if |s| > 0 {
      FilterCount(f, s[1..], x);
      assert s == [s[0]] + s[1..];
      assert multiset(s) == multiset{s[0]} + multiset(s[1..]);
      if f(s[0]) {
        assert multiset(Filter(f, s)) == multiset{s[0]} + multiset(Filter(f, s[1..]));
      }
    }
  }

  /** Filtering twice with the same test changes nothing the second time. */
  lemma {:induction false} FilterIdempotent<T>(f: T -> bool, s: seq<T>)
    ensures Filter(f, Filter(f, s)) == Filter(f, s)
  {
    if |s| > 0 {
      FilterIdempotent(f, s[1..]);
      if f(s[0]) {
        var rest := Filter(f, s[1..]);
        assert ([s[0]] + rest)[0] == s[0];
        assert ([s[0]] + rest)[1..] == rest;
      }
    }
  }

  /** Two tests that agree on every element of `s` select the same sequence. */
  lemma {:induction false} FilterExtensional<T>(f: T -> bool, g: T -> bool, s: seq<T>)
    requires forall i :: 0 <= i < |s| ==> f(s[i]) == g(s[i])
    ensures Filter(f, s) == Filter(g, s)
  {
    if |s| > 0 {
      FilterExtensional(f, g, s[1..]);
    }
  }

  /** A test that accepts every element of `s` selects all of `s`. */
  lemma {:induction false} FilterAll<T>(f: T -> bool, s: seq<T>)
    requires forall i :: 0 <= i < |s| ==> f(s[i])
    ensures Filter(f, s) == s
  {
    if |s| > 0 {
      FilterAll(f, s[1..]);
      assert s == [s[0]] + s[1..];
    }
  }

  /** A weaker test selects a supersequence: whatever `f` keeps, `g` keeps too, in the same order. */
  lemma {:induction false} FilterMonotone<T>(f: T -> bool, g: T -> bool, s: seq<T>)
    requires forall i :: 0 <= i < |s| ==> f(s[i]) ==> g(s[i])
    ensures IsSubsequence(Filter(f, s), Filter(g, s))
  {
    if |s| > 0 {
      FilterMonotone(f, g, s[1..]);
      var a, b := Filter(f, s[1..]), Filter(g, s[1..]);
      if f(s[0]) {
        assert ([s[0]] + a)[1..] == a;
        assert ([s[0]] + b)[1..] == b;
      } else if g(s[0]) {
        assert ([s[0]] + b)[1..] == b;
      }
    }
  }

  /** The index of the first element of `s` that satisfies `f`, as `findIndex` computes it. */
  function FindIndex<T>(f: T -> bool, s: seq<T>): (r: Option<nat>)
    ensures r.None? <==> forall i :: 0 <= i < |s| ==> !f(s[i])
    ensures r.Some? ==> r.value < |s| && f(s[r.value])
    ensures r.Some? ==> forall j :: 0 <= j < r.value ==> !f(s[j])
  {
    if |s| == 0 then None
    else if f(s[0]) then Some(0)
    else match FindIndex(f, s[1..])
      case None => None
      case Some(i) => Some(i + 1)
  }

  /** The first element of `s` that satisfies `f`, as `find` computes it. */
  function Find<T>(f: T -> bool, s: seq<T>): (r: Option<T>)
    ensures r.None? <==> forall i :: 0 <= i < |s| ==> !f(s[i])
    ensures r.Some? ==> exists i :: && 0 <= i < |s| && s[i] == r.value && f(s[i])
                                    && forall j :: 0 <= j < i ==> !f(s[j])
  {
    match FindIndex(f, s)
    case None => None
    case Some(i) => Some(s[i])
  }

  /** Two tests that agree on every element of `s` find the same element. */
  lemma {:induction false} FindExtensional<T>(f: T -> bool, g: T -> bool, s: seq<T>)
    requires forall i :: 0 <= i < |s| ==> f(s[i]) == g(s[i])
    ensures FindIndex(f, s) == FindIndex(g, s)
    ensures Find(f, s) == Find(g, s)
  {
    if |s| > 0 {
      FindExtensional(f, g, s[1..]);
    }
  }

  /** The first element found is the head of the filtered sequence, and nothing is found exactly
      when the filter keeps nothing. */
  lemma {:induction false} FindIsFilterHead<T>(f: T -> bool, s: seq<T>)
    ensures Find(f, s) == if Filter(f, s) == [] then None else Some(Filter(f, s)[0])
  {
    if |s| > 0 && !f(s[0]) {
      FindIsFilterHead(f, s[1..]);
      match FindIndex(f, s[1..])
      case None =>
      case Some(i) => assert s[1..][i] == s[i + 1];
    }
  }
}
