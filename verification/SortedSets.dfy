/** `sorted(...)` of a set of integers. */
module SortedSets {
  import opened Prelude

  predicate IsMin(xs: set<int>, x: int) {
    x in xs && forall y :: y in xs ==> x <= y
  }

  lemma {:induction false} MinExists(xs: set<int>)
    requires xs != {}
    ensures exists x :: IsMin(xs, x)
    decreases |xs|
  {
    var x := Witness(xs);
    var rest := xs - {x};
    assert forall y :: y in xs ==> y == x || y in rest;
    if rest == {} {
      assert IsMin(xs, x);
    } else {
      MinExists(rest);
      var y :| IsMin(rest, y);
      assert IsMin(xs, if x <= y then x else y);
    }
  }

  /** `sorted(...)` of a set. */
  function Sorted(xs: set<int>): (r: seq<int>)
    ensures forall x :: x in r <==> x in xs
    ensures forall i, j :: 0 <= i < j < |r| ==> r[i] < r[j]
    decreases |xs|
  {
    if xs == {} then []
    else
      MinExists(xs);
      var x :| IsMin(xs, x);
      [x] + Sorted(xs - {x})
  }

  lemma NoneMeansEmpty(xs: set<int>)
    requires forall x :: x !in xs
    ensures xs == {}
  {
    if xs != {} {
      var x := Witness(xs);
    }
  }
}
