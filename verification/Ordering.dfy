/** Ascending enumeration of finite sets. */
module Ordering {
  ghost predicate IsLeast(x: nat, s: set<nat>) {
    x in s && forall y :: y in s ==> x <= y
  }

  lemma {:induction false} LeastExists(s: set<nat>)
    requires s != {}
    ensures exists x :: IsLeast(x, s)
    decreases |s|
  {
    var x :| x in s;
    if s - {x} == {} {
      assert forall y :: y in s ==> y == x || y in s - {x};
      assert IsLeast(x, s);
    } else {
      LeastExists(s - {x});
      var z :| IsLeast(z, s - {x});
      assert forall y :: y in s ==> y == x || y in s - {x};
      assert IsLeast(if x <= z then x else z, s);
    }
  }

  function Least(s: set<nat>): (x: nat)
    requires s != {}
    ensures x in s && forall y :: y in s ==> x <= y
  {
    LeastExists(s);
    assert exists x :: x in s && forall y :: y in s ==> x <= y by {
      var x :| IsLeast(x, s);
    }
    var x :| x in s && forall y :: y in s ==> x <= y;
    x
  }

  ghost predicate StrictlyAscending(s: seq<nat>) {
    forall i, j :: 0 <= i < j < |s| ==> s[i] < s[j]
  }

  /** The elements of a finite set in ascending order. */
  function Ascending(s: set<nat>): (sorted: seq<nat>)
    ensures StrictlyAscending(sorted)
    ensures forall x :: x in sorted <==> x in s
    ensures |sorted| == |s|
    decreases |s|
  {
    if s == {} then []
    else
      var x := Least(s);
      [x] + Ascending(s - {x})
  }
}
