/** Sequence helpers shared by the time-tracking model: an optional value
    and the `Array.prototype.filter` that the components use throughout. */
module Sequences {

  /** A value that may be absent (`undefined` / `null` in the source). */
  datatype Option<+T> = None | Some(value: T) {
    /** The `x ?? fallback` operator. */
    function GetOr(fallback: T): (r: T)
      ensures this.Some? ==> r == this.value
      ensures this.None? ==> r == fallback
    {
      match this
      case Some(v) => v
      case None => fallback
    }
  }

  /** `a` can be obtained from `b` by deleting elements: the elements of `a`
      occur in `b` in the same order. */
  ghost predicate IsSubsequence<T>(a: seq<T>, b: seq<T>)
    decreases |b|
  {
    a == [] || (b != [] && ((a[0] == b[0] && IsSubsequence(a[1..], b[1..])) || IsSubsequence(a, b[1..])))
  }

  /** `s.filter(p)`: the elements of `s` that satisfy `p`, in their order. */
  function Filter<T>(s: seq<T>, p: T -> bool): (r: seq<T>)
    ensures |r| <= |s|
    ensures forall i :: 0 <= i < |r| ==> r[i] in s && p(r[i])
    ensures forall i :: 0 <= i < |s| && p(s[i]) ==> s[i] in r
  {
    if s == [] then []
    else if p(s[0]) then [s[0]] + Filter(s[1..], p)
    else Filter(s[1..], p)
  }

  lemma {:induction false} SubsequenceOfTail<T>(a: seq<T>, x: T, b: seq<T>)
    requires IsSubsequence(a, b)
    ensures IsSubsequence(a, [x] + b)
  {
    assert ([x] + b)[1..] == b;
  }

  /** The filtered sequence keeps the order of the original. */
  lemma {:induction false} FilterIsSubsequence<T>(s: seq<T>, p: T -> bool)
    ensures IsSubsequence(Filter(s, p), s)
  {
    if s != [] {
      FilterIsSubsequence(s[1..], p);
      if p(s[0]) {
        assert ([s[0]] + Filter(s[1..], p))[1..] == Filter(s[1..], p);
      } else {
        assert s == [s[0]] + s[1..];
        SubsequenceOfTail(Filter(s[1..], p), s[0], s[1..]);
      }
    }
  }

  /** A weaker predicate keeps a superset, and still in order. */
  lemma {:induction false} FilterWeaker<T>(s: seq<T>, p: T -> bool, q: T -> bool)
    requires forall i :: 0 <= i < |s| && p(s[i]) ==> q(s[i])
    ensures IsSubsequence(Filter(s, p), Filter(s, q))
  {
    if s != [] {
      FilterWeaker(s[1..], p, q);
      if p(s[0]) {
        assert ([s[0]] + Filter(s[1..], p))[1..] == Filter(s[1..], p);
        assert ([s[0]] + Filter(s[1..], q))[1..] == Filter(s[1..], q);
      } else if q(s[0]) {
        SubsequenceOfTail(Filter(s[1..], p), s[0], Filter(s[1..], q));
      }
    }
  }

  /** Filtering depends only on the values of the predicate on the elements. */
  lemma {:induction false} FilterCongruent<T>(s: seq<T>, p: T -> bool, q: T -> bool)
    requires forall i :: 0 <= i < |s| ==> p(s[i]) == q(s[i])
    ensures Filter(s, p) == Filter(s, q)
  {
    if s != [] {
      FilterCongruent(s[1..], p, q);
    }
  }

  /** A predicate that holds of every element keeps the whole sequence. */
  lemma {:induction false} FilterKeepsAll<T>(s: seq<T>, p: T -> bool)
    requires forall i :: 0 <= i < |s| ==> p(s[i])
    ensures Filter(s, p) == s
  {
    if s != [] {
      FilterKeepsAll(s[1..], p);
      assert s == [s[0]] + s[1..];
    }
  }

  lemma {:induction false} FilterAppend<T>(a: seq<T>, b: seq<T>, p: T -> bool)
    ensures Filter(a + b, p) == Filter(a, p) + Filter(b, p)
  {
    if a != [] {
      assert (a + b)[0] == a[0];
      assert (a + b)[1..] == a[1..] + b;
      FilterAppend(a[1..], b, p);
      if p(a[0]) {
        assert Filter(a + b, p) == [a[0]] + Filter(a[1..] + b, p);
      } else {
        assert Filter(a + b, p) == Filter(a[1..] + b, p);
      }
    } else {
      assert a + b == b;
    }
  }

  /** The set of positions of `s` whose element satisfies `p`. */
  ghost function Positions<T>(s: seq<T>, p: T -> bool): set<int> {
    set i | 0 <= i < |s| && p(s[i])
  }

  /** The positions of `s` are those of its prefix and possibly its last index. */
  lemma PositionsSnoc<T>(s: seq<T>, p: T -> bool)
    requires s != []
    ensures Positions(s, p) == Positions(s[..|s| - 1], p) + (if p(s[|s| - 1]) then {|s| - 1} else {})
    ensures |s| - 1 !in Positions(s[..|s| - 1], p)
  {
    var n := |s| - 1;
    forall i | i in Positions(s[..n], p)
      ensures i in Positions(s, p)
    {
      assert s[..n][i] == s[i];
    }
    forall i | i in Positions(s, p) && i < n
      ensures i in Positions(s[..n], p)
    {
      assert s[..n][i] == s[i];
    }
  }

  /** The length of a filtered sequence is the number of positions whose
      element satisfies the predicate. */
  lemma {:induction false} FilterLength<T>(s: seq<T>, p: T -> bool)
    ensures |Filter(s, p)| == |Positions(s, p)|
    decreases |s|
  {
    if s == [] {
      assert Positions(s, p) == {};
    } else {
      var n := |s| - 1;
      var init := s[..n];
      assert s == init + [s[n]];
      FilterAppend(init, [s[n]], p);
      FilterLength(init, p);
      PositionsSnoc(s, p);
    }
  }
}
