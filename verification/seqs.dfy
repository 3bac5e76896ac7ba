/** Generic helpers over sequences, shared by the catalogue queries and the
    palette filter: the source's nullable results and `Array.prototype.filter`. */
module Seqs {

  /** A value of the source's `T | null`. */
  datatype Option<+T> = None | Some(value: T)

  /** `a` is obtained from `b` by deleting some elements and keeping the rest
      in their original order. */
  ghost predicate Subsequence<T>(a: seq<T>, b: seq<T>)
    decreases |b|
  {
    if |b| == 0 then |a| == 0
    else (|a| > 0 && a[0] == b[0] && Subsequence(a[1..], b[1..])) || Subsequence(a, b[1..])
  }

  /** `Array.prototype.filter`: the elements of `s` satisfying `p`, in order.
      It keeps one element per passing position, so an element occurring
      several times is kept as often as it passes. */
  function Filter<T>(s: seq<T>, p: T -> bool): (r: seq<T>)
    ensures |r| <= |s|
    ensures forall k :: 0 <= k < |r| ==> r[k] in s && p(r[k])
    ensures forall k :: 0 <= k < |s| && p(s[k]) ==> s[k] in r
    ensures |r| == |Positions(s, p)|
    decreases |s|
  {
    if |s| == 0 then
      assert Positions(s, p) == {};
      []
    else
      assert s == [s[0]] + s[1..];
      PositionsCons(s[0], s[1..], p);
      if p(s[0]) then [s[0]] + Filter(s[1..], p) else Filter(s[1..], p)
  }

  lemma {:induction false} SubsequenceReflexive<T>(s: seq<T>)
    ensures Subsequence(s, s)
    decreases |s|
  {
    if |s| > 0 {
      SubsequenceReflexive(s[1..]);
    }
  }

  /** Filtering keeps the survivors in their original relative order. */
  lemma {:induction false} FilterIsSubsequence<T>(s: seq<T>, p: T -> bool)
    ensures Subsequence(Filter(s, p), s)
    decreases |s|
  {
    if |s| > 0 {
      FilterIsSubsequence(s[1..], p);
      var r := Filter(s, p);
      if p(s[0]) {
        assert r[0] == s[0] && r[1..] == Filter(s[1..], p);
      }
    }
  }

  /** A filter whose predicate holds everywhere on `s` returns `s` itself. */
  lemma {:induction false} FilterKeepsAll<T>(s: seq<T>, p: T -> bool)
    requires forall k :: 0 <= k < |s| ==> p(s[k])
    ensures Filter(s, p) == s
    decreases |s|
  {
    if |s| > 0 {
      FilterKeepsAll(s[1..], p);
      assert s == [s[0]] + s[1..];
    }
  }

  /** Filters with predicates that agree on the elements of `s` agree. */
  lemma {:induction false} FilterCongruent<T>(s: seq<T>, p: T -> bool, q: T -> bool)
    requires forall k :: 0 <= k < |s| ==> p(s[k]) == q(s[k])
    ensures Filter(s, p) == Filter(s, q)
    decreases |s|
  {
    if |s| > 0 {
      FilterCongruent(s[1..], p, q);
    }
  }

  /** Filtering by a stronger predicate keeps an order-preserving part of what
      the weaker predicate keeps. */
  lemma {:induction false} FilterStrongerIsSubsequence<T>(s: seq<T>, p: T -> bool, q: T -> bool)
    requires forall k :: 0 <= k < |s| ==> p(s[k]) ==> q(s[k])
    ensures Subsequence(Filter(s, p), Filter(s, q))
    decreases |s|
  {
    if |s| > 0 {
      FilterStrongerIsSubsequence(s[1..], p, q);
      var a, b := Filter(s, p), Filter(s, q);
      if p(s[0]) {
        assert a[0] == s[0] && a[1..] == Filter(s[1..], p);
        assert b[0] == s[0] && b[1..] == Filter(s[1..], q);
      } else if q(s[0]) {
        assert b[0] == s[0] && b[1..] == Filter(s[1..], q);
        assert a == Filter(s[1..], p);
      }
    }
  }

  /** The positions of `s` whose element satisfies `p`. */
  ghost function Positions<T>(s: seq<T>, p: T -> bool): set<int>
  {
    set k | 0 <= k < |s| && p(s[k])
  }

  /** Appending one element adds its position exactly when it passes. */
  lemma PositionsSnoc<T>(t: seq<T>, y: T, p: T -> bool)
    ensures Positions(t + [y], p) == Positions(t, p) + (if p(y) then {|t|} else {})
  {
    var s := t + [y];
    forall k | 0 <= k < |t|
      ensures s[k] == t[k]
    {
    }
  }

  /** Putting one element in front adds one passing position exactly when
      it passes. */
  lemma {:induction false} PositionsCons<T>(x: T, t: seq<T>, p: T -> bool)
    ensures |Positions([x] + t, p)| == |Positions(t, p)| + (if p(x) then 1 else 0)
    decreases |t|
  {
    if |t| == 0 {
      assert Positions([x] + t, p) == if p(x) then {0} else {} by {
        assert [x] + t == [x];
      }
      assert Positions(t, p) == {};
    } else {
      var u, y := t[..|t| - 1], t[|t| - 1];
      PositionsCons(x, u, p);
      PositionsConsSnoc(x, u, y, p);
      assert t == u + [y];
      assert [x] + t == ([x] + u) + [y];
    }
  }

  /** The count of `PositionsCons` carries over to a sequence with one more
      element at its end. */
  lemma PositionsConsSnoc<T>(x: T, u: seq<T>, y: T, p: T -> bool)
    requires |Positions([x] + u, p)| == |Positions(u, p)| + (if p(x) then 1 else 0)
    ensures |Positions(([x] + u) + [y], p)| == |Positions(u + [y], p)| + (if p(x) then 1 else 0)
  {
    var a, b := Positions([x] + u, p), Positions(u, p);
    PositionsSnoc([x] + u, y, p);
    PositionsSnoc(u, y, p);
    assert |u| + 1 !in a && |u| !in b;
  }
}
