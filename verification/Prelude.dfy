// Small helpers shared by the models of the database layer.
module Prelude {

  datatype Option<+T> = None | Some(value: T)

  function Max(a: int, b: int): (r: int)
    ensures r >= a && r >= b && (r == a || r == b)
  {
    if a >= b then a else b
  }

  function Min(a: int, b: int): (r: int)
    ensures r <= a && r <= b && (r == a || r == b)
  {
    if a <= b then a else b
  }

  // No element occurs twice.
  ghost predicate Distinct<T>(s: seq<T>) {
    forall i, j :: 0 <= i < j < |s| ==> s[i] != s[j]
  }

  // The elements of a sequence, as a set.
  function Elems<T>(s: seq<T>): set<T> { set x | x in s }

  lemma DistinctCardinality<T>(s: seq<T>)
    requires Distinct(s)
    ensures |Elems(s)| == |s|
  {
    if s == [] {
    } else {
      var n := |s| - 1;
      DistinctCardinality(s[..n]);
      assert s == s[..n] + [s[n]];
      assert Elems(s) == Elems(s[..n]) + {s[n]};
    }
  }

  lemma SubsetCardinality<T>(a: set<T>, b: set<T>)
    requires a <= b
    ensures |a| <= |b|
    ensures |a| == |b| ==> a == b
  {
    assert b == a + (b - a);
    if |a| == |b| {
      assert b - a == {};
    }
  }

  lemma Member<T>(s: set<T>) returns (x: T)
    requires s != {}
    ensures x in s
  {
    x :| x in s;
  }

  lemma {:induction false} Greatest(s: set<int>) returns (m: int)
    requires s != {}
    ensures m in s && forall x :: x in s ==> x <= m
    decreases |s|
  {
    m := Member(s);
    var rest := s - {m};
    forall x | x in s && x != m ensures x in rest {}
    if rest == {} {
      assert forall x :: x in s ==> x == m;
    } else {
      var d := Greatest(rest);
      m := if m > d then m else d;
    }
  }

  lemma {:induction false} CardinalityDistinct<T>(s: seq<T>)
    ensures |Elems(s)| <= |s|
    ensures |Elems(s)| == |s| ==> Distinct(s)
  {
    if s != [] {
      var n := |s| - 1;
      var t, x := s[..n], s[n];
      CardinalityDistinct(t);
      assert s == t + [x];
      assert Elems(s) == Elems(t) + {x};
      if x in t {
        assert Elems(s) == Elems(t);
      }
    }
  }
}
