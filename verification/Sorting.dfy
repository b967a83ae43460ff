/** Stable sorting by a key, and when the result is determined by the elements alone. */
module Sorting {
  type Key = (nat, nat)

  predicate AtMost(a: Key, b: Key) {
    a.0 < b.0 || (a.0 == b.0 && a.1 <= b.1)
  }

  /** Inserts after every element with the same or a smaller key. */
  function Insert<T>(sorted: seq<T>, x: T, key: T -> Key): seq<T> {
    if sorted == [] then [x]
    else
      var last := sorted[|sorted| - 1];
      if AtMost(key(last), key(x)) then sorted + [x]
      else Insert(sorted[..|sorted| - 1], x, key) + [last]
  }

  function SortBy<T>(s: seq<T>, key: T -> Key): seq<T> {
    if s == [] then [] else Insert(SortBy(s[..|s| - 1], key), s[|s| - 1], key)
  }

  ghost predicate IsSorted<T>(s: seq<T>, key: T -> Key) {
    forall i, j :: 0 <= i <= j < |s| ==> AtMost(key(s[i]), key(s[j]))
  }

  /** Elements with the same key are the same. */
  ghost predicate KeyDetermines<T, K>(elements: multiset<T>, key: T -> K) {
    forall x, y :: x in elements && y in elements && key(x) == key(y) ==> x == y
  }

  ghost predicate DistinctKeys<T, K>(s: seq<T>, key: T -> K) {
    forall i, j :: 0 <= i < j < |s| ==> key(s[i]) != key(s[j])
  }

  lemma {:induction false} InsertKeeps<T>(sorted: seq<T>, x: T, key: T -> Key)
    requires IsSorted(sorted, key)
    ensures multiset(Insert(sorted, x, key)) == multiset(sorted) + multiset{x}
    ensures IsSorted(Insert(sorted, x, key), key)
    decreases |sorted|
  {
    if sorted != [] {
      var init, last := sorted[..|sorted| - 1], sorted[|sorted| - 1];
      assert sorted == init + [last];
      if !AtMost(key(last), key(x)) {
        InsertKeeps(init, x, key);
        var inner := Insert(init, x, key);
        forall i | 0 <= i < |inner|
          ensures AtMost(key(inner[i]), key(last))
        {
          assert inner[i] in multiset(inner);
          assert inner[i] == x || inner[i] in init;
        }
      }
    }
  }

  lemma {:induction false} SortKeeps<T>(s: seq<T>, key: T -> Key)
    ensures multiset(SortBy(s, key)) == multiset(s) && IsSorted(SortBy(s, key), key)
    decreases |s|
  {
    if s != [] {
      var init, last := s[..|s| - 1], s[|s| - 1];
      assert s == init + [last];
      SortKeeps(init, key);
      InsertKeeps(SortBy(init, key), last, key);
    }
  }

  lemma MembersOfMultiset<T>(a: seq<T>, b: seq<T>)
    requires multiset(a) == multiset(b)
    ensures |a| == |b| && forall x :: x in a <==> x in b
  {
    forall x
      ensures x in a <==> x in b
    {
      assert x in multiset(a) <==> x in a;
      assert x in multiset(b) <==> x in b;
    }
    assert |multiset(a)| == |a| && |multiset(b)| == |b|;
  }

  /** Two sorted arrangements of the same elements are the same when keys determine elements. */
  lemma {:induction false} SortedIsUnique<T>(a: seq<T>, b: seq<T>, key: T -> Key)
    requires multiset(a) == multiset(b) && IsSorted(a, key) && IsSorted(b, key) && KeyDetermines(multiset(a), key)
    ensures a == b
    decreases |a|
  {
    MembersOfMultiset(a, b);
    if a != [] {
      FirstsAgree(a, b, key);
      FirstsAgree(b, a, key);
      SameFirst(a, b, key);
      WithoutFirst(a);
      WithoutFirst(b);
      TailSorted(a, key);
      TailSorted(b, key);
      SortedIsUnique(a[1..], b[1..], key);
    }
  }

  lemma TailSorted<T>(s: seq<T>, key: T -> Key)
    requires s != [] && IsSorted(s, key)
    ensures IsSorted(s[1..], key)
  {
  }

  lemma SameFirst<T>(a: seq<T>, b: seq<T>, key: T -> Key)
    requires a != [] && b != [] && multiset(a) == multiset(b) && KeyDetermines(multiset(a), key)
    requires AtMost(key(b[0]), key(a[0])) && AtMost(key(a[0]), key(b[0]))
    ensures a[0] == b[0]
  {
    assert a[0] in multiset(a) && b[0] in multiset(b);
  }

  lemma WithoutFirst<T>(a: seq<T>)
    requires a != []
    ensures multiset(a[1..]) == multiset(a) - multiset{a[0]} && a == [a[0]] + a[1..]
  {
    assert a == [a[0]] + a[1..];
  }

  lemma FirstsAgree<T>(a: seq<T>, b: seq<T>, key: T -> Key)
    requires a != [] && b != [] && IsSorted(b, key) && forall x :: x in a ==> x in b
    ensures AtMost(key(b[0]), key(a[0]))
  {
    assert a[0] in a;
    var i :| 0 <= i < |b| && b[i] == a[0];
  }

  /** Sorting gives the same result exactly for rearrangements of the same elements. */
  lemma SortIsCanonical<T>(a: seq<T>, b: seq<T>, key: T -> Key)
    requires KeyDetermines(multiset(a), key)
    ensures SortBy(a, key) == SortBy(b, key) <==> multiset(a) == multiset(b)
  {
    SortKeeps(a, key);
    SortKeeps(b, key);
    if multiset(a) == multiset(b) {
      MembersOfMultiset(a, SortBy(a, key));
      SortedIsUnique(SortBy(a, key), SortBy(b, key), key);
    }
  }

  /** Distinct keys are a property of the elements, not of their order. */
  lemma DistinctIsUnordered<T, K>(s: seq<T>, key: T -> K)
    ensures DistinctKeys(s, key) <==> KeyDetermines(multiset(s), key) && forall x :: x in multiset(s) ==> multiset(s)[x] == 1
  {
    if DistinctKeys(s, key) { DistinctIsOnce(s, key); }
    if i, j :| 0 <= i < j < |s| && key(s[i]) == key(s[j]) {
      assert s[i] in multiset(s) && s[j] in multiset(s);
      if s[i] == s[j] {
        assert s == s[..j] + [s[j]] + s[j + 1..];
        assert s[i] in s[..j];
      }
    }
  }

  lemma {:induction false} DistinctIsOnce<T, K>(s: seq<T>, key: T -> K)
    requires DistinctKeys(s, key)
    ensures KeyDetermines(multiset(s), key) && forall x :: x in multiset(s) ==> multiset(s)[x] == 1
    decreases |s|
  {
    if s != [] {
      var init, last := s[..|s| - 1], s[|s| - 1];
      assert s == init + [last];
      DistinctIsOnce(init, key);
      forall x | x in init
        ensures key(x) != key(last)
      {
        var i :| 0 <= i < |init| && init[i] == x;
        assert s[i] == x;
      }
      assert multiset(s) == multiset(init) + multiset{last};
      assert last !in init;
    }
  }

  /** Rearranging keeps keys distinct. */
  lemma DistinctRearranged<T, K>(a: seq<T>, b: seq<T>, key: T -> K)
    requires multiset(a) == multiset(b)
    ensures DistinctKeys(a, key) <==> DistinctKeys(b, key)
  {
    DistinctIsUnordered(a, key);
    DistinctIsUnordered(b, key);
  }
}
