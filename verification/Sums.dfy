/** Sums over maps and sizes of finite sets. */
module Sums {
  /** The sum of all values of a finite map. */
  ghost function Total<K>(m: map<K, nat>): nat
    decreases |m|
  {
    if m == map[] then 0
    else
      var k :| k in m;
      m[k] + Total(m - {k})
  }

  lemma {:induction false} TotalSplit<K>(m: map<K, nat>, k: K)
    requires k in m
    ensures Total(m) == m[k] + Total(m - {k})
    decreases |m|
  {
    var j :| j in m && Total(m) == m[j] + Total(m - {j});
    if j != k {
      TotalSplit(m - {j}, k);
      TotalSplit(m - {k}, j);
      assert m - {j} - {k} == m - {k} - {j};
    }
  }

  lemma {:induction false} TotalUpdate<K>(m: map<K, nat>, k: K, v: nat)
    ensures Total(m[k := v]) == Total(m) - (if k in m then m[k] else 0) + v
    ensures k in m ==> m[k] <= Total(m)
  {
    TotalSplit(m[k := v], k);
    assert m[k := v] - {k} == m - {k};
    if k in m {
      TotalSplit(m, k);
    } else {
      assert m - {k} == m;
    }
  }

  lemma {:induction false} TotalGrows<K>(a: map<K, nat>, b: map<K, nat>)
    requires a.Keys <= b.Keys && forall k :: k in a ==> a[k] <= b[k]
    ensures Total(a) <= Total(b)
    decreases |a|
  {
    if a != map[] {
      var k :| k in a;
      TotalSplit(a, k);
      TotalSplit(b, k);
      TotalGrows(a - {k}, b - {k});
    }
  }

  lemma {:induction false} SubsetSize<T>(a: set<T>, b: set<T>)
    requires a <= b
    ensures |a| <= |b|
    ensures |a| == |b| ==> a == b
  {
    assert b == a + (b - a);
    assert |b| == |a| + |b - a|;
  }

  lemma UnionSize<T>(a: set<T>, b: set<T>)
    ensures |a + b| <= |a| + |b|
  {
    assert |a + b| + |a * b| == |a| + |b|;
  }

  /** A set covered by the image of another is no larger than it. */
  lemma {:induction false} ImageSize<A(!new), B>(a: set<A>, b: set<B>, f: A -> B)
    requires forall y :: y in b ==> exists x :: x in a && f(x) == y
    ensures |b| <= |a|
    decreases |a|
  {
    if b != {} {
      var y :| y in b;
      var x :| x in a && f(x) == y;
      forall z | z in b - {y}
        ensures exists w :: w in a - {x} && f(w) == z
      {
        var w :| w in a && f(w) == z;
        assert w in a - {x};
      }
      ImageSize(a - {x}, b - {y}, f);
    }
  }

  /** A set of pairs has at most as many elements as the product of the sides. */
  lemma {:induction false} ProductSize<A(!new), B(!new)>(pairs: set<(A, B)>, a: set<A>, b: set<B>)
    requires forall p :: p in pairs ==> p.0 in a && p.1 in b
    ensures |pairs| <= |a| * |b|
    decreases |a|
  {
    if a == {} {
      assert pairs == {};
    } else {
      var x :| x in a;
      var row := set p | p in pairs && p.0 == x;
      var rest := pairs - row;
      forall p | p in row
        ensures exists y :: y in b && (x, y) == p
      {
        assert (x, p.1) == p;
      }
      ImageSize(b, row, y => (x, y));
      ProductSize(rest, a - {x}, b);
      UnionSize(row, rest);
      assert pairs == row + rest;
      assert |a - {x}| == |a| - 1;
      assert (|a| - 1) * |b| + |b| == |a| * |b|;
    }
  }

  function SumOf(costs: seq<nat>): nat {
    if costs == [] then 0 else SumOf(costs[..|costs| - 1]) + costs[|costs| - 1]
  }

  lemma {:induction false} SumStep(costs: seq<nat>, i: nat)
    requires i < |costs|
    ensures SumOf(costs[..i + 1]) == SumOf(costs[..i]) + costs[i]
    ensures SumOf(costs[..i + 1]) <= SumOf(costs)
    decreases |costs| - i
  {
    assert costs[..i + 1][..i] == costs[..i];
    if i + 1 == |costs| {
      assert costs[..i + 1] == costs;
    } else {
      SumStep(costs, i + 1);
    }
  }
}
