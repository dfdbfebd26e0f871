/** `Array.prototype.filter` and the counting facts the dashboard's statistics rely on */
module Seqs {

  /** `s.filter(p)`: the elements satisfying `p`, in their original order */
  function Filter<T(!new)>(p: T -> bool, s: seq<T>): (r: seq<T>)
    ensures |r| <= |s|
  {
    if |s| == 0 then [] else (if p(s[0]) then [s[0]] else []) + Filter(p, s[1..])
  }

  /** The filter keeps exactly the elements that satisfy `p` */
  lemma {:induction false} FilterMembers<T(!new)>(p: T -> bool, s: seq<T>)
    ensures forall x :: x in Filter(p, s) <==> x in s && p(x)
  {
    if |s| > 0 {
      FilterMembers(p, s[1..]);
      assert s == [s[0]] + s[1..];
    }
  }

  lemma {:induction false} FilterAppend<T(!new)>(p: T -> bool, a: seq<T>, b: seq<T>)
    ensures Filter(p, a + b) == Filter(p, a) + Filter(p, b)
  {
    if |a| > 0 {
      assert (a + b)[1..] == a[1..] + b;
      FilterAppend(p, a[1..], b);
    } else {
      assert a + b == b;
    }
  }

  /** A filter keeps everything when everything passes */
  lemma {:induction false} FilterKeepsAll<T(!new)>(p: T -> bool, s: seq<T>)
    requires forall i :: 0 <= i < |s| ==> p(s[i])
    ensures Filter(p, s) == s
  {
    if |s| > 0 {
      FilterKeepsAll(p, s[1..]);
    }
  }

  /** A filter keeps nothing when nothing passes */
  lemma {:induction false} FilterNone<T(!new)>(p: T -> bool, s: seq<T>)
    requires forall i :: 0 <= i < |s| ==> !p(s[i])
    ensures Filter(p, s) == []
  {
    if |s| > 0 {
      FilterNone(p, s[1..]);
    }
  }

  /** Two filters in a row are one filter on the conjunction */
  lemma {:induction false} FilterFilter<T(!new)>(p: T -> bool, q: T -> bool, pq: T -> bool, s: seq<T>)
    requires forall x :: pq(x) == (p(x) && q(x))
    ensures Filter(q, Filter(p, s)) == Filter(pq, s)
  {
    if |s| > 0 {
      FilterFilter(p, q, pq, s[1..]);
      if p(s[0]) {
        var f := Filter(p, s);
        assert f[0] == s[0] && f[1..] == Filter(p, s[1..]);
        assert Filter(q, f) == (if q(s[0]) then [s[0]] else []) + Filter(q, f[1..]);
      } else {
        assert Filter(p, s) == Filter(p, s[1..]);
      }
      assert Filter(pq, s) == (if pq(s[0]) then [s[0]] else []) + Filter(pq, s[1..]);
    }
  }

  /** Filtering twice with the same predicate changes nothing */
  lemma FilterIdempotent<T(!new)>(p: T -> bool, s: seq<T>)
    ensures Filter(p, Filter(p, s)) == Filter(p, s)
  {
    var f := Filter(p, s);
    FilterMembers(p, s);
    assert forall i :: 0 <= i < |f| ==> f[i] in f;
    FilterKeepsAll(p, f);
  }

  /** Two mutually exclusive predicates select at most all elements between them */
  lemma {:induction false} FilterDisjointBound<T(!new)>(p: T -> bool, q: T -> bool, s: seq<T>)
    requires forall x :: !(p(x) && q(x))
    ensures |Filter(p, s)| + |Filter(q, s)| <= |s|
  {
    if |s| > 0 {
      FilterDisjointBound(p, q, s[1..]);
    }
  }
}
