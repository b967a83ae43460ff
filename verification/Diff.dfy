/** The difference between the definitions of two snapshots, by structural key. */
module Diff {
  import opened Wrappers
  import opened Cancellation
  import opened Facts
  import opened Sums
  import Neighborhood

  const DIFF_DEFINITIONS: nat := 10_000
  const DIFF_CHANGES: nat := 1000
  const IMPACT_ROWS: nat := 201
  const IMPACT_CALLERS: nat := 200
  const RESPONSE_BYTES: nat := Neighborhood.RESPONSE_BYTES
  const HEADER_BYTES: nat := 8192
  const READ_BYTES: nat := 16 * 1024 * 1024

  /** A unique path, qualified name and kind identify a definition across snapshots. */
  datatype StructuralKey = StructuralKey(path: string, qualifiedName: nat, kind: nat)

  /** What the diff compares of a definition. */
  datatype View = View(key: StructuralKey, signature: nat, body: nat, visibility: nat, cfg: seq<nat>,
                       cfgStatus: CfgStatus, start: nat, end: nat)

  datatype Field = Signature | Body | Visibility | Cfg | CfgStatusField | SourceSpan

  datatype Change =
    | Modified(before: Definition, after: Definition, fields: seq<Field>)
    | Removed(before: Definition, ambiguous: bool)
    | Added(after: Definition, ambiguous: bool)

  /** One snapshot: its definitions and the paths of its files. */
  datatype Side = Side(definitions: seq<Definition>, paths: map<nat, string>)

  function KeyOf(d: Definition, paths: map<nat, string>): StructuralKey {
    StructuralKey(if d.file in paths then paths[d.file] else "", d.qualifiedName, d.kind)
  }

  /** The definition as the diff sees it; a file that is not listed has the empty path. */
  ghost function ViewOf(d: Definition, paths: map<nat, string>): View {
    var path := if d.file in paths then paths[d.file] else "";
    View(StructuralKey(path, d.qualifiedName, d.kind), d.signatureHash, d.bodyHash, d.visibility, d.cfg, d.cfgStatus, d.span.start, d.span.end)
  }

  ghost function One(b: bool): nat {
    if b then 1 else 0
  }

  lemma KeyIsViewed(d: Definition, paths: map<nat, string>)
    ensures KeyOf(d, paths) == ViewOf(d, paths).key
  {
  }

  /** How many definitions look like v. */
  ghost function Count(ds: seq<Definition>, paths: map<nat, string>, v: View): nat {
    if ds == [] then 0 else Count(ds[..|ds| - 1], paths, v) + One(ViewOf(ds[|ds| - 1], paths) == v)
  }

  // ---- the order of keys ----

  predicate PathBelow(a: string, b: string) {
    b != [] && (a == [] || a[0] < b[0] || (a[0] == b[0] && PathBelow(a[1..], b[1..])))
  }

  /** The order of paths is lexicographic: they agree up to some place, where a ends or is smaller. */
  lemma {:induction false} PathBelowIsLexicographic(a: string, b: string)
    ensures PathBelow(a, b) <==> exists k :: SmallerAt(a, b, k)
    decreases |a|
  {
    if a == [] {
      if b != [] { assert SmallerAt(a, b, 0); }
    } else if b != [] {
      var x, y := a[1..], b[1..];
      PathBelowIsLexicographic(x, y);
      if a[0] < b[0] { assert SmallerAt(a, b, 0); }
      if a[0] == b[0] && PathBelow(x, y) {
        var k :| SmallerAt(x, y, k);
        assert a[..k + 1] == [a[0]] + x[..k] && b[..k + 1] == [b[0]] + y[..k];
        assert SmallerAt(a, b, k + 1);
      }
      if k :| SmallerAt(a, b, k) {
        if k > 0 {
          assert a[..k] == [a[0]] + x[..k - 1] && b[..k] == [b[0]] + y[..k - 1];
          assert SmallerAt(x, y, k - 1) by { assert a[..k][1..] == b[..k][1..]; }
        }
      }
    }
  }

  ghost predicate SmallerAt(a: string, b: string, k: int) {
    0 <= k <= |a| && k < |b| && a[..k] == b[..k] && (k == |a| || a[k] < b[k])
  }

  predicate KeyBelow(a: StructuralKey, b: StructuralKey) {
    || PathBelow(a.path, b.path)
    || (a.path == b.path && (a.qualifiedName < b.qualifiedName || (a.qualifiedName == b.qualifiedName && a.kind < b.kind)))
  }

  lemma {:induction false} PathsCompare(a: string, b: string)
    ensures a == b || PathBelow(a, b) || PathBelow(b, a)
    ensures !(PathBelow(a, b) && PathBelow(b, a)) && !PathBelow(a, a)
    decreases |a|
  {
    if a != [] {
      PathsCompare(a[1..], if b == [] then [] else b[1..]);
      if b != [] && a[0] == b[0] && a[1..] == b[1..] {
        assert a == [a[0]] + a[1..] && b == [b[0]] + b[1..];
      }
    }
  }

  lemma {:induction false} PathsTransitive(a: string, b: string, c: string)
    requires PathBelow(a, b) && PathBelow(b, c)
    ensures PathBelow(a, c)
    decreases |a|
  {
    if a != [] && a[0] == b[0] && b[0] == c[0] {
      PathsTransitive(a[1..], b[1..], c[1..]);
    }
  }

  lemma KeysCompare(a: StructuralKey, b: StructuralKey)
    ensures a == b || KeyBelow(a, b) || KeyBelow(b, a)
    ensures !(KeyBelow(a, b) && KeyBelow(b, a)) && !KeyBelow(a, a)
  {
    PathsCompare(a.path, b.path);
    PathsCompare(a.path, a.path);
  }

  lemma KeysTransitive(a: StructuralKey, b: StructuralKey, c: StructuralKey)
    requires KeyBelow(a, b) && KeyBelow(b, c)
    ensures KeyBelow(a, c)
  {
    if PathBelow(a.path, b.path) && PathBelow(b.path, c.path) { PathsTransitive(a.path, b.path, c.path); }
  }

  ghost predicate IsLeastKey(least: StructuralKey, keys: set<StructuralKey>) {
    least in keys && forall k :: k in keys ==> k == least || KeyBelow(least, k)
  }

  lemma LeastWithOne(least: StructuralKey, keys: set<StructuralKey>, key: StructuralKey)
    requires IsLeastKey(least, keys)
    ensures IsLeastKey(if KeyBelow(key, least) then key else least, keys + {key})
  {
    KeysCompare(key, least);
    if KeyBelow(key, least) {
      forall k | k in keys && k != least
        ensures KeyBelow(key, k)
      {
        KeysTransitive(key, least, k);
      }
    }
  }

  lemma {:induction false} LeastKeyExists(keys: set<StructuralKey>) returns (least: StructuralKey)
    requires keys != {}
    ensures IsLeastKey(least, keys)
    decreases |keys|
  {
    var key :| key in keys;
    var rest := keys - {key};
    assert rest + {key} == keys;
    if rest == {} {
      least := key;
    } else {
      var other := LeastKeyExists(rest);
      LeastWithOne(other, rest, key);
      least := if KeyBelow(key, other) then key else other;
    }
  }

  method LeastKey(keys: set<StructuralKey>) returns (least: StructuralKey)
    requires keys != {}
    ensures IsLeastKey(least, keys)
  {
    least :| least in keys;
    var rest := keys - {least};
    while rest != {}
      invariant rest <= keys && IsLeastKey(least, keys - rest)
    {
      var key :| key in rest;
      LeastWithOne(least, keys - rest, key);
      assert keys - (rest - {key}) == (keys - rest) + {key};
      if KeyBelow(key, least) { least := key; }
      rest := rest - {key};
    }
    assert keys - rest == keys;
  }

  ghost predicate AscendingKeys(order: seq<StructuralKey>) {
    forall i, j :: 0 <= i < j < |order| ==> KeyBelow(order[i], order[j])
  }

  /** The listed keys ascend and precede the rest. */
  ghost predicate Precede(order: seq<StructuralKey>, rest: set<StructuralKey>) {
    AscendingKeys(order) && forall i, k :: 0 <= i < |order| && k in rest ==> KeyBelow(order[i], k)
  }

  lemma PrecedeNext(order: seq<StructuralKey>, rest: set<StructuralKey>, key: StructuralKey)
    requires Precede(order, rest) && IsLeastKey(key, rest)
    ensures Precede(order + [key], rest - {key})
  {
    var longer := order + [key];
    forall i, j | 0 <= i < j < |longer|
      ensures KeyBelow(longer[i], longer[j])
    {
      if j < |order| { assert KeyBelow(order[i], order[j]); }
    }
  }

  lemma {:induction false} AscentIsUnique(a: seq<StructuralKey>, b: seq<StructuralKey>)
    requires AscendingKeys(a) && AscendingKeys(b) && forall k :: k in a <==> k in b
    ensures a == b
    decreases |a|
  {
    assert (a != [] ==> a[0] in a) && (b != [] ==> b[0] in b);
    if a != [] {
      FirstIsLeast(a);
      FirstIsLeast(b);
      assert b[0] in a;
      KeysCompare(a[0], b[0]);
      forall k
        ensures k in a[1..] <==> k in b[1..]
      {
        TailMembers(a, k);
        TailMembers(b, k);
      }
      AscentIsUnique(a[1..], b[1..]);
      assert a == [a[0]] + a[1..] && b == [b[0]] + b[1..];
    }
  }

  lemma FirstIsLeast(a: seq<StructuralKey>)
    requires AscendingKeys(a) && a != []
    ensures forall k :: k in a ==> k == a[0] || KeyBelow(a[0], k)
  {
  }

  lemma TailMembers(a: seq<StructuralKey>, k: StructuralKey)
    requires AscendingKeys(a) && a != []
    ensures AscendingKeys(a[1..]) && (k in a[1..] <==> k in a && k != a[0])
  {
    assert a == [a[0]] + a[1..];
    KeysCompare(a[0], a[0]);
    if k in a[1..] {
      var i :| 0 <= i < |a[1..]| && a[1..][i] == k;
      assert KeyBelow(a[0], a[i + 1]);
    }
  }

  // ---- grouping ----

  /** The definitions with one key, in order. */
  ghost function Group(ds: seq<Definition>, paths: map<nat, string>, key: StructuralKey): seq<Definition> {
    if ds == [] then []
    else
      var last := ds[|ds| - 1];
      Group(ds[..|ds| - 1], paths, key) + if KeyOf(last, paths) == key then [last] else []
  }

  ghost function Keys(side: Side): set<StructuralKey> {
    set d | d in side.definitions :: KeyOf(d, side.paths)
  }

  ghost function GroupOf(side: Side, key: StructuralKey): seq<Definition> {
    Group(side.definitions, side.paths, key)
  }

  lemma {:induction false} GroupMembers(ds: seq<Definition>, paths: map<nat, string>, key: StructuralKey)
    ensures forall d :: d in Group(ds, paths, key) <==> d in ds && KeyOf(d, paths) == key
  {
    if ds != [] {
      GroupMembers(ds[..|ds| - 1], paths, key);
      assert ds == ds[..|ds| - 1] + [ds[|ds| - 1]];
    }
  }

  lemma EmptyGroup(ds: seq<Definition>, paths: map<nat, string>, key: StructuralKey)
    requires key !in Keys(Side(ds, paths))
    ensures Group(ds, paths, key) == []
  {
    var group := Group(ds, paths, key);
    assert group != [] ==> group[0] in group;
    GroupMembers(ds, paths, key);
    forall d | d in ds
      ensures KeyOf(d, paths) != key
    {
      assert KeyOf(d, paths) in Keys(Side(ds, paths));
    }
  }

  ghost predicate GroupedBy(groups: map<StructuralKey, seq<Definition>>, ds: seq<Definition>, paths: map<nat, string>) {
    && groups.Keys == Keys(Side(ds, paths))
    && forall key :: key in groups ==> groups[key] == Group(ds, paths, key)
  }

  lemma GroupAppend(ds: seq<Definition>, paths: map<nat, string>, d: Definition, key: StructuralKey)
    ensures Group(ds + [d], paths, key) == Group(ds, paths, key) + if KeyOf(d, paths) == key then [d] else []
  {
    assert (ds + [d])[..|ds|] == ds;
  }

  lemma KeysAppend(ds: seq<Definition>, paths: map<nat, string>, d: Definition)
    ensures Keys(Side(ds + [d], paths)) == Keys(Side(ds, paths)) + {KeyOf(d, paths)}
  {
    assert forall x :: x in ds + [d] <==> x in ds || x == d;
  }

  /** The group of d's key with d at its end. */
  function Grown(groups: map<StructuralKey, seq<Definition>>, key: StructuralKey, d: Definition): seq<Definition> {
    (if key in groups then groups[key] else []) + [d]
  }

  lemma GroupStep(groups: map<StructuralKey, seq<Definition>>, updated: map<StructuralKey, seq<Definition>>, ds: seq<Definition>,
                  paths: map<nat, string>, d: Definition)
    requires GroupedBy(groups, ds, paths) && updated == groups[KeyOf(d, paths) := Grown(groups, KeyOf(d, paths), d)]
    ensures GroupedBy(updated, ds + [d], paths)
  {
    var key := KeyOf(d, paths);
    if key !in groups { EmptyGroup(ds, paths, key); }
    KeysAppend(ds, paths, d);
    forall k | k in updated
      ensures updated[k] == Group(ds + [d], paths, k)
    {
      GroupAppend(ds, paths, d, k);
    }
  }

  method GroupAll(side: Side) returns (groups: map<StructuralKey, seq<Definition>>)
    ensures GroupedBy(groups, side.definitions, side.paths)
  {
    groups := map[];
    var ds := side.definitions;
    for i := 0 to |ds|
      invariant GroupedBy(groups, ds[..i], side.paths)
    {
      var key := KeyOf(ds[i], side.paths);
      var updated := groups[key := Grown(groups, key, ds[i])];
      GroupStep(groups, updated, ds[..i], side.paths, ds[i]);
      OneLonger(ds, i);
      groups := updated;
    }
    assert ds[..|ds|] == ds;
  }

  lemma OneLonger<T>(s: seq<T>, i: nat)
    requires i < |s|
    ensures s[..i + 1] == s[..i] + [s[i]]
  {
  }

  ghost predicate Enumerates(order: seq<StructuralKey>, keys: set<StructuralKey>) {
    Distinct(order) && forall key :: key in order <==> key in keys
  }

  ghost predicate Distinct(order: seq<StructuralKey>) {
    forall i, j :: 0 <= i < j < |order| ==> order[i] != order[j]
  }

  /** How many definitions of the enumerated groups look like v. */
  ghost function GroupCount(side: Side, order: seq<StructuralKey>, v: View): nat {
    if order == [] then 0
    else GroupCount(side, order[..|order| - 1], v) + Count(GroupOf(side, order[|order| - 1]), side.paths, v)
  }

  lemma CountAppend(ds: seq<Definition>, d: Definition, paths: map<nat, string>, v: View)
    ensures Count(ds + [d], paths, v) == Count(ds, paths, v) + One(ViewOf(d, paths) == v)
  {
    assert (ds + [d])[..|ds|] == ds;
  }

  /** A group holds exactly the definitions that look like one of its key. */
  lemma {:induction false} CountInGroup(ds: seq<Definition>, paths: map<nat, string>, key: StructuralKey, v: View)
    ensures Count(Group(ds, paths, key), paths, v) == if v.key == key then Count(ds, paths, v) else 0
    decreases |ds|
  {
    if ds != [] {
      var init, last := ds[..|ds| - 1], ds[|ds| - 1];
      CountInGroup(init, paths, key, v);
      var group := Group(init, paths, key);
      GroupLast(ds, paths, key);
      CountLast(ds, paths, v);
      CountAppend(group, last, paths, v);
      CountedTogether(last, paths, key, v, Count(group, paths, v), Count(init, paths, v));
    }
  }

  lemma CountLast(ds: seq<Definition>, paths: map<nat, string>, v: View)
    requires ds != []
    ensures Count(ds, paths, v) == Count(ds[..|ds| - 1], paths, v) + One(ViewOf(ds[|ds| - 1], paths) == v)
  {
  }

  /** A definition outside the group does not look like anything of its key. */
  lemma CountedTogether(d: Definition, paths: map<nat, string>, key: StructuralKey, v: View, inGroup: nat, inAll: nat)
    requires inGroup == if v.key == key then inAll else 0
    ensures (if KeyOf(d, paths) == key then inGroup + One(ViewOf(d, paths) == v) else inGroup)
         == if v.key == key then inAll + One(ViewOf(d, paths) == v) else 0
  {
  }

  lemma GroupLast(ds: seq<Definition>, paths: map<nat, string>, key: StructuralKey)
    requires ds != []
    ensures var init, last := ds[..|ds| - 1], ds[|ds| - 1];
      Group(ds, paths, key) == if KeyOf(last, paths) == key then Group(init, paths, key) + [last] else Group(init, paths, key)
  {
    assert Group(ds[..|ds| - 1], paths, key) + [] == Group(ds[..|ds| - 1], paths, key);
  }

  /** Enumerated once, the groups together hold every definition of an enumerated key once. */
  lemma {:induction false} GroupCountIsCount(side: Side, order: seq<StructuralKey>, v: View)
    requires Distinct(order)
    ensures GroupCount(side, order, v) == if v.key in order then Count(side.definitions, side.paths, v) else 0
    decreases |order|
  {
    if order != [] {
      var init, last := order[..|order| - 1], order[|order| - 1];
      assert order == init + [last];
      GroupCountIsCount(side, init, v);
      CountInGroup(side.definitions, side.paths, last, v);
      assert last !in init;
    }
  }

  lemma {:induction false} CountedHasKey(ds: seq<Definition>, paths: map<nat, string>, v: View)
    ensures Count(ds, paths, v) > 0 ==> v.key in Keys(Side(ds, paths))
    decreases |ds|
  {
    if ds != [] {
      var init, last := ds[..|ds| - 1], ds[|ds| - 1];
      assert ds == init + [last];
      CountedHasKey(init, paths, v);
      KeyIsViewed(last, paths);
    }
  }

  // ---- changes ----

  function Also(fields: seq<Field>, changed: bool, field: Field): seq<Field> {
    if changed then fields + [field] else fields
  }

  function ChangedFields(before: Definition, after: Definition): seq<Field> {
    var a := Also([], before.signatureHash != after.signatureHash, Signature);
    var b := Also(a, before.bodyHash != after.bodyHash, Body);
    var c := Also(b, before.visibility != after.visibility, Visibility);
    var d := Also(c, before.cfg != after.cfg, Cfg);
    var e := Also(d, before.cfgStatus != after.cfgStatus, CfgStatusField);
    Also(e, before.span.start != after.span.start || before.span.end != after.span.end, SourceSpan)
  }

  ghost function AllRemoved(ds: seq<Definition>, ambiguous: bool): (changes: seq<Change>)
    ensures |changes| == |ds| && forall i :: 0 <= i < |ds| ==> changes[i] == Removed(ds[i], ambiguous)
  {
    seq(|ds|, i requires 0 <= i < |ds| => Removed(ds[i], ambiguous))
  }

  ghost function AllAdded(ds: seq<Definition>, ambiguous: bool): (changes: seq<Change>)
    ensures |changes| == |ds| && forall i :: 0 <= i < |ds| ==> changes[i] == Added(ds[i], ambiguous)
  {
    seq(|ds|, i requires 0 <= i < |ds| => Added(ds[i], ambiguous))
  }

  ghost predicate Ambiguous(before: seq<Definition>, after: seq<Definition>) {
    |before| > 1 || |after| > 1
  }

  /** What is reported for one key. */
  ghost function GroupChanges(before: seq<Definition>, after: seq<Definition>): seq<Change> {
    if |before| == 1 && |after| == 1 then
      var fields := ChangedFields(before[0], after[0]);
      if fields == [] then [] else [Modified(before[0], after[0], fields)]
    else
      AllRemoved(before, Ambiguous(before, after)) + AllAdded(after, Ambiguous(before, after))
  }

  ghost function FullChanges(before: Side, after: Side, order: seq<StructuralKey>): seq<Change> {
    if order == [] then []
    else
      var key := order[|order| - 1];
      FullChanges(before, after, order[..|order| - 1]) + GroupChanges(GroupOf(before, key), GroupOf(after, key))
  }

  /** How many definitions that look like v a list of changes takes away, and how many it brings in. */
  ghost function Taken(changes: seq<Change>, paths: map<nat, string>, v: View): nat {
    if changes == [] then 0
    else
      var last := changes[|changes| - 1];
      Taken(changes[..|changes| - 1], paths, v) + One(!last.Added? && ViewOf(last.before, paths) == v)
  }

  ghost function Brought(changes: seq<Change>, paths: map<nat, string>, v: View): nat {
    if changes == [] then 0
    else
      var last := changes[|changes| - 1];
      Brought(changes[..|changes| - 1], paths, v) + One(!last.Removed? && ViewOf(last.after, paths) == v)
  }

  lemma {:induction false} ChangesJoin(a: seq<Change>, b: seq<Change>, paths: map<nat, string>, v: View)
    ensures Taken(a + b, paths, v) == Taken(a, paths, v) + Taken(b, paths, v)
    ensures Brought(a + b, paths, v) == Brought(a, paths, v) + Brought(b, paths, v)
    decreases |b|
  {
    if b == [] {
      assert a + b == a;
    } else {
      ChangesJoin(a, b[..|b| - 1], paths, v);
      assert (a + b)[..|a + b| - 1] == a + b[..|b| - 1];
    }
  }

  lemma {:induction false} RemovedTakes(ds: seq<Definition>, ambiguous: bool, paths: map<nat, string>, v: View)
    ensures Taken(AllRemoved(ds, ambiguous), paths, v) == Count(ds, paths, v)
    ensures Brought(AllRemoved(ds, ambiguous), paths, v) == 0
    decreases |ds|
  {
    if ds != [] {
      RemovedTakes(ds[..|ds| - 1], ambiguous, paths, v);
      assert AllRemoved(ds, ambiguous)[..|ds| - 1] == AllRemoved(ds[..|ds| - 1], ambiguous);
    }
  }

  lemma {:induction false} AddedBrings(ds: seq<Definition>, ambiguous: bool, paths: map<nat, string>, v: View)
    ensures Brought(AllAdded(ds, ambiguous), paths, v) == Count(ds, paths, v)
    ensures Taken(AllAdded(ds, ambiguous), paths, v) == 0
    decreases |ds|
  {
    if ds != [] {
      AddedBrings(ds[..|ds| - 1], ambiguous, paths, v);
      assert AllAdded(ds, ambiguous)[..|ds| - 1] == AllAdded(ds[..|ds| - 1], ambiguous);
    }
  }

  lemma SingleCount(d: Definition, paths: map<nat, string>, v: View)
    ensures Count([d], paths, v) == One(ViewOf(d, paths) == v)
  {
    assert [d][..0] == [];
  }

  lemma SingleChange(c: Change, paths: map<nat, string>, v: View)
    requires c.Modified?
    ensures Taken([c], paths, v) == One(ViewOf(c.before, paths) == v)
    ensures Brought([c], paths, v) == One(ViewOf(c.after, paths) == v)
  {
    assert [c][..0] == [];
  }

  /** Nothing is reported as changed exactly when the views are the same. */
  lemma NoFieldsIsSameView(before: Definition, after: Definition, p: map<nat, string>, q: map<nat, string>)
    requires KeyOf(before, p) == KeyOf(after, q)
    ensures ChangedFields(before, after) == [] <==> ViewOf(before, p) == ViewOf(after, q)
  {
  }

  lemma PairBalances(b: Definition, a: Definition, p: map<nat, string>, q: map<nat, string>, v: View)
    requires KeyOf(b, p) == KeyOf(a, q)
    ensures Count([b], p, v) + Brought(GroupChanges([b], [a]), q, v) == Taken(GroupChanges([b], [a]), p, v) + Count([a], q, v)
    ensures Taken(GroupChanges([b], [a]), p, v) <= Count([b], p, v)
  {
    SingleCount(b, p, v);
    SingleCount(a, q, v);
    NoFieldsIsSameView(b, a, p, q);
    var fields := ChangedFields(b, a);
    SingleChange(Modified(b, a, fields), p, v);
    SingleChange(Modified(b, a, fields), q, v);
  }

  lemma UnpairedBalances(b: seq<Definition>, a: seq<Definition>, p: map<nat, string>, q: map<nat, string>, v: View)
    requires !(|b| == 1 && |a| == 1)
    ensures Count(b, p, v) + Brought(GroupChanges(b, a), q, v) == Taken(GroupChanges(b, a), p, v) + Count(a, q, v)
    ensures Taken(GroupChanges(b, a), p, v) <= Count(b, p, v)
  {
    var ambiguous := Ambiguous(b, a);
    RemovedTakes(b, ambiguous, p, v);
    RemovedTakes(b, ambiguous, q, v);
    AddedBrings(a, ambiguous, p, v);
    AddedBrings(a, ambiguous, q, v);
    ChangesJoin(AllRemoved(b, ambiguous), AllAdded(a, ambiguous), p, v);
    ChangesJoin(AllRemoved(b, ambiguous), AllAdded(a, ambiguous), q, v);
  }

  /** The changes of one key turn the group before into the group after. */
  lemma GroupBalances(before: Side, after: Side, key: StructuralKey, v: View)
    ensures var b, a := GroupOf(before, key), GroupOf(after, key);
      Count(b, before.paths, v) + Brought(GroupChanges(b, a), after.paths, v)
      == Taken(GroupChanges(b, a), before.paths, v) + Count(a, after.paths, v)
      && Taken(GroupChanges(b, a), before.paths, v) <= Count(b, before.paths, v)
  {
    var b, a := GroupOf(before, key), GroupOf(after, key);
    if |b| == 1 && |a| == 1 {
      GroupMembers(before.definitions, before.paths, key);
      GroupMembers(after.definitions, after.paths, key);
      assert b[0] in b && a[0] in a;
      assert b == [b[0]] && a == [a[0]];
      PairBalances(b[0], a[0], before.paths, after.paths, v);
    } else {
      UnpairedBalances(b, a, before.paths, after.paths, v);
    }
  }

  lemma {:induction false} ChangesBalance(before: Side, after: Side, order: seq<StructuralKey>, v: View)
    ensures GroupCount(before, order, v) + Brought(FullChanges(before, after, order), after.paths, v)
         == Taken(FullChanges(before, after, order), before.paths, v) + GroupCount(after, order, v)
    ensures Taken(FullChanges(before, after, order), before.paths, v) <= GroupCount(before, order, v)
    decreases |order|
  {
    if order != [] {
      var init, key := order[..|order| - 1], order[|order| - 1];
      ChangesBalance(before, after, init, v);
      GroupBalances(before, after, key, v);
      var group := GroupChanges(GroupOf(before, key), GroupOf(after, key));
      ChangesJoin(FullChanges(before, after, init), group, before.paths, v);
      ChangesJoin(FullChanges(before, after, init), group, after.paths, v);
    }
  }

  /** Taking away what the changes remove and adding what they add turns the definitions before into
      the definitions after, counted by everything the diff compares. */
  lemma ChangesApply(before: Side, after: Side, order: seq<StructuralKey>, v: View)
    requires Enumerates(order, Keys(before) + Keys(after))
    ensures var full := FullChanges(before, after, order);
      Count(before.definitions, before.paths, v) + Brought(full, after.paths, v)
      == Taken(full, before.paths, v) + Count(after.definitions, after.paths, v)
      && Taken(full, before.paths, v) <= Count(before.definitions, before.paths, v)
  {
    ChangesBalance(before, after, order, v);
    GroupCountIsCount(before, order, v);
    GroupCountIsCount(after, order, v);
    CountedHasKey(before.definitions, before.paths, v);
    CountedHasKey(after.definitions, after.paths, v);
    assert Side(before.definitions, before.paths) == before && Side(after.definitions, after.paths) == after;
  }

  /** A change says what it claims: a modification pairs the only definition of its key on each side
      and lists exactly the fields that differ; anything else keeps to its side. */
  ghost predicate Sound(before: Side, after: Side, c: Change) {
    match c
    case Modified(b, a, fields) =>
      && ViewOf(b, before.paths).key == ViewOf(a, after.paths).key && fields != [] && DifferIn(b, a, fields, 6)
      && Sharing(before, ViewOf(b, before.paths).key) == [b] && Sharing(after, ViewOf(b, before.paths).key) == [a]
    case Removed(b, ambiguous) =>
      var key := ViewOf(b, before.paths).key;
      b in before.definitions && (ambiguous <==> |Sharing(before, key)| > 1 || |Sharing(after, key)| > 1)
      && (ambiguous || Sharing(after, key) == [])
    case Added(a, ambiguous) =>
      var key := ViewOf(a, after.paths).key;
      a in after.definitions && (ambiguous <==> |Sharing(before, key)| > 1 || |Sharing(after, key)| > 1)
      && (ambiguous || Sharing(before, key) == [])
  }

  /** The definitions of a side with this path, qualified name and kind, in order. */
  ghost function Sharing(side: Side, key: StructuralKey): seq<Definition> {
    SharingIn(side.definitions, side.paths, key)
  }

  ghost function SharingIn(ds: seq<Definition>, paths: map<nat, string>, key: StructuralKey): seq<Definition> {
    if ds == [] then []
    else
      var last := ds[|ds| - 1];
      SharingIn(ds[..|ds| - 1], paths, key) + if ViewOf(last, paths).key == key then [last] else []
  }

  lemma {:induction false} GroupIsSharing(ds: seq<Definition>, paths: map<nat, string>, key: StructuralKey)
    ensures Group(ds, paths, key) == SharingIn(ds, paths, key)
    decreases |ds|
  {
    if ds != [] { GroupIsSharing(ds[..|ds| - 1], paths, key); }
  }

  ghost predicate Differs(b: Definition, a: Definition, field: Field) {
    match field
    case Signature => b.signatureHash != a.signatureHash
    case Body => b.bodyHash != a.bodyHash
    case Visibility => b.visibility != a.visibility
    case Cfg => b.cfg != a.cfg
    case CfgStatusField => b.cfgStatus != a.cfgStatus
    case SourceSpan => b.span.start != a.span.start || b.span.end != a.span.end
  }

  ghost function Place(field: Field): nat {
    match field
    case Signature => 0 case Body => 1 case Visibility => 2 case Cfg => 3 case CfgStatusField => 4 case SourceSpan => 5
  }

  /** Of the first n kinds of fields, those in which the definitions differ, in order. */
  ghost predicate DifferIn(b: Definition, a: Definition, fields: seq<Field>, n: nat) {
    && (forall f :: f in fields <==> Place(f) < n && Differs(b, a, f))
    && forall i, j :: 0 <= i < j < |fields| ==> Place(fields[i]) < Place(fields[j])
  }

  lemma AlsoDiffers(b: Definition, a: Definition, fields: seq<Field>, field: Field)
    requires DifferIn(b, a, fields, Place(field))
    ensures DifferIn(b, a, Also(fields, Differs(b, a, field), field), Place(field) + 1)
  {
    assert forall i :: 0 <= i < |fields| ==> fields[i] in fields;
    assert forall f :: Place(f) == Place(field) ==> f == field;
  }

  lemma TwoMoreDiffer(b: Definition, a: Definition, fields: seq<Field>, first: Field, second: Field)
    requires DifferIn(b, a, fields, Place(first)) && Place(second) == Place(first) + 1
    ensures DifferIn(b, a, Also(Also(fields, Differs(b, a, first), first), Differs(b, a, second), second), Place(second) + 1)
  {
    AlsoDiffers(b, a, fields, first);
    AlsoDiffers(b, a, Also(fields, Differs(b, a, first), first), second);
  }

  /** Every difference shows, and nothing else. */
  lemma FieldsDiffer(b: Definition, a: Definition)
    ensures DifferIn(b, a, ChangedFields(b, a), 6)
  {
    var f2 := Also(Also([], Differs(b, a, Signature), Signature), Differs(b, a, Body), Body);
    TwoMoreDiffer(b, a, [], Signature, Body);
    LaterDiffer(b, a, f2);
  }

  lemma LaterDiffer(b: Definition, a: Definition, f2: seq<Field>)
    requires DifferIn(b, a, f2, 2)
    ensures var f4 := Also(Also(f2, Differs(b, a, Visibility), Visibility), Differs(b, a, Cfg), Cfg);
      DifferIn(b, a, Also(Also(f4, Differs(b, a, CfgStatusField), CfgStatusField), Differs(b, a, SourceSpan), SourceSpan), 6)
  {
    TwoMoreDiffer(b, a, f2, Visibility, Cfg);
    TwoMoreDiffer(b, a, Also(Also(f2, Differs(b, a, Visibility), Visibility), Differs(b, a, Cfg), Cfg), CfgStatusField, SourceSpan);
  }

  lemma PairSound(before: Side, after: Side, key: StructuralKey, b: Definition, a: Definition)
    requires Sharing(before, key) == [b] && Sharing(after, key) == [a]
    requires ViewOf(b, before.paths).key == key && ViewOf(a, after.paths).key == key && ChangedFields(b, a) != []
    ensures Sound(before, after, Modified(b, a, ChangedFields(b, a)))
  {
    FieldsDiffer(b, a);
  }

  lemma GroupChangesSound(before: Side, after: Side, key: StructuralKey, c: Change)
    requires c in GroupChanges(GroupOf(before, key), GroupOf(after, key))
    ensures Sound(before, after, c)
  {
    var b, a := GroupOf(before, key), GroupOf(after, key);
    GroupIsSharing(before.definitions, before.paths, key);
    GroupIsSharing(after.definitions, after.paths, key);
    GroupMembers(before.definitions, before.paths, key);
    GroupMembers(after.definitions, after.paths, key);
    if |b| == 1 && |a| == 1 {
      assert b[0] in b && a[0] in a;
      assert b == [b[0]] && a == [a[0]];
      KeyIsViewed(b[0], before.paths);
      KeyIsViewed(a[0], after.paths);
      PairSound(before, after, key, b[0], a[0]);
    } else {
      UnpairedSound(before, after, key, c);
    }
  }

  lemma UnpairedSound(before: Side, after: Side, key: StructuralKey, c: Change)
    requires var b, a := GroupOf(before, key), GroupOf(after, key);
      && b == Sharing(before, key) && a == Sharing(after, key) && !(|b| == 1 && |a| == 1)
      && (forall d :: d in b <==> d in before.definitions && KeyOf(d, before.paths) == key)
      && (forall d :: d in a <==> d in after.definitions && KeyOf(d, after.paths) == key)
      && (c in AllRemoved(b, Ambiguous(b, a)) || c in AllAdded(a, Ambiguous(b, a)))
    ensures Sound(before, after, c)
  {
    var b, a := GroupOf(before, key), GroupOf(after, key);
    var ambiguous := Ambiguous(b, a);
    if c in AllRemoved(b, ambiguous) {
      var i :| 0 <= i < |b| && c == Removed(b[i], ambiguous);
      assert b[i] in b;
      KeyIsViewed(b[i], before.paths);
    } else {
      var i :| 0 <= i < |a| && c == Added(a[i], ambiguous);
      assert a[i] in a;
      KeyIsViewed(a[i], after.paths);
    }
  }

  lemma {:induction false} FullChangesSound(before: Side, after: Side, order: seq<StructuralKey>)
    ensures forall c :: c in FullChanges(before, after, order) ==> Sound(before, after, c)
    decreases |order|
  {
    if order != [] {
      var init, key := order[..|order| - 1], order[|order| - 1];
      FullChangesSound(before, after, init);
      forall c | c in GroupChanges(GroupOf(before, key), GroupOf(after, key))
        ensures Sound(before, after, c)
      {
        GroupChangesSound(before, after, key, c);
      }
    }
  }

  // ---- emission ----

  method BuildGroup(before: seq<Definition>, after: seq<Definition>) returns (changes: seq<Change>)
    ensures changes == GroupChanges(before, after)
  {
    changes := [];
    if |before| == 1 && |after| == 1 {
      var fields := ChangedFields(before[0], after[0]);
      if fields != [] { changes := [Modified(before[0], after[0], fields)]; }
      return;
    }
    var ambiguous := |before| > 1 || |after| > 1;
    for i := 0 to |before|
      invariant changes == AllRemoved(before, ambiguous)[..i]
    {
      changes := changes + [Removed(before[i], ambiguous)];
    }
    assert AllRemoved(before, ambiguous)[..|before|] == AllRemoved(before, ambiguous);
    for i := 0 to |after|
      invariant changes == AllRemoved(before, ambiguous) + AllAdded(after, ambiguous)[..i]
    {
      changes := changes + [Added(after[i], ambiguous)];
    }
    assert AllAdded(after, ambiguous)[..|after|] == AllAdded(after, ambiguous);
  }

  /** The first n changes of a group were appended, within both budgets. */
  ghost predicate Appended(changes: seq<Change>, changes': seq<Change>, group: seq<Change>, n: nat) {
    n <= |group| && changes' == changes + group[..n] && |changes'| <= DIFF_CHANGES
  }

  ghost function ChangesBytes(changes: seq<Change>, size: Change -> nat): nat {
    if changes == [] then 0 else ChangesBytes(changes[..|changes| - 1], size) + size(changes[|changes| - 1])
  }

  /** The changes do not fit into one response. */
  ghost predicate TooMuch(changes: seq<Change>, size: Change -> nat) {
    |changes| > DIFF_CHANGES || HEADER_BYTES + ChangesBytes(changes, size) > RESPONSE_BYTES
  }

  /** The changes are the longest beginning of the full list that fits. */
  ghost predicate Longest(changes: seq<Change>, full: seq<Change>, size: Change -> nat) {
    changes <= full && |changes| < |full| && TooMuch(changes + [full[|changes|]], size)
  }

  lemma {:induction false} TooMuchGrows(changes: seq<Change>, more: seq<Change>, size: Change -> nat)
    requires changes <= more
    ensures ChangesBytes(changes, size) <= ChangesBytes(more, size)
    ensures TooMuch(changes, size) ==> TooMuch(more, size)
    decreases |more|
  {
    if changes != more {
      assert changes <= more[..|more| - 1];
      TooMuchGrows(changes, more[..|more| - 1], size);
    }
  }

  lemma NextBytes(changes: seq<Change>, next: Change, size: Change -> nat)
    ensures ChangesBytes(changes + [next], size) == ChangesBytes(changes, size) + size(next)
  {
    assert (changes + [next])[..|changes|] == changes;
  }

  lemma PrefixWithNext<T>(a: seq<T>, b: seq<T>, n: nat)
    requires n < |b|
    ensures (a + b[..n]) + [b[n]] <= a + b && (a + b[..n]) + [b[n]] == a + b[..n + 1]
  {
  }

  /** Adds changes while they fit. */
  method AppendGroup(group: seq<Change>, changes: seq<Change>, bytes: nat, size: Change -> nat)
    returns (changes': seq<Change>, bytes': nat, truncated: bool, ghost n: nat)
    requires |changes| <= DIFF_CHANGES && bytes == HEADER_BYTES + ChangesBytes(changes, size) <= RESPONSE_BYTES
    ensures Appended(changes, changes', group, n) && (!truncated ==> n == |group|)
    ensures bytes' == HEADER_BYTES + ChangesBytes(changes', size) <= RESPONSE_BYTES
    ensures truncated ==> TooMuch(changes + group, size) && Longest(changes', changes + group, size)
  {
    changes', bytes', n := changes, bytes, 0;
    for i := 0 to |group|
      invariant n == i && Appended(changes, changes', group, n)
      invariant bytes' == HEADER_BYTES + ChangesBytes(changes', size) <= RESPONSE_BYTES
    {
      var extra := size(group[i]);
      NextBytes(changes', group[i], size);
      PrefixWithNext(changes, group, i);
      if |changes'| >= DIFF_CHANGES || bytes' + extra > RESPONSE_BYTES {
        TooMuchGrows(changes' + [group[i]], changes + group, size);
        assert (changes + group)[|changes'|] == group[i];
        return changes', bytes', true, n;
      }
      bytes', changes', n := bytes' + extra, changes' + [group[i]], n + 1;
    }
    return changes', bytes', false, n;
  }

  lemma EnumeratesMore(order: seq<StructuralKey>, done: set<StructuralKey>, key: StructuralKey)
    requires Enumerates(order, done) && key !in done
    ensures Enumerates(order + [key], done + {key})
  {
  }

  lemma OneFewer<T>(keys: set<T>, done: set<T>, key: T)
    requires key in keys - done
    ensures keys - (done + {key}) == (keys - done) - {key} && |keys - (done + {key})| < |keys - done|
  {
    assert keys - (done + {key}) == (keys - done) - {key};
  }

  lemma ExtendStep(order: seq<StructuralKey>, done: set<StructuralKey>, keys: set<StructuralKey>, key: StructuralKey)
    requires Enumerates(order, done) && done <= keys && Precede(order, keys - done) && IsLeastKey(key, keys - done)
    ensures Enumerates(order + [key], done + {key}) && done + {key} <= keys && Precede(order + [key], keys - (done + {key}))
    ensures |keys - (done + {key})| < |keys - done|
  {
    EnumeratesMore(order, done, key);
    PrecedeNext(order, keys - done, key);
    OneFewer(keys, done, key);
  }

  /** Any ascending start of the keys extends to all of them. */
  lemma {:induction false} ExtendOrder(order: seq<StructuralKey>, done: set<StructuralKey>, keys: set<StructuralKey>)
    returns (full: seq<StructuralKey>)
    requires Enumerates(order, done) && done <= keys && Precede(order, keys - done)
    ensures Enumerates(full, keys) && AscendingKeys(full) && order <= full
    decreases |keys - done|
  {
    if keys - done == {} {
      full := order;
      assert done == keys;
    } else {
      var key := LeastKeyExists(keys - done);
      ExtendStep(order, done, keys, key);
      full := ExtendOrder(order + [key], done + {key}, keys);
    }
  }

  lemma {:induction false} ChangesExtend(before: Side, after: Side, order: seq<StructuralKey>, full: seq<StructuralKey>)
    requires order <= full
    ensures FullChanges(before, after, order) <= FullChanges(before, after, full)
    decreases |full|
  {
    if order != full {
      assert order <= full[..|full| - 1];
      ChangesExtend(before, after, order, full[..|full| - 1]);
    }
  }

  lemma ChangesAppend(before: Side, after: Side, order: seq<StructuralKey>, key: StructuralKey)
    ensures FullChanges(before, after, order + [key])
         == FullChanges(before, after, order) + GroupChanges(GroupOf(before, key), GroupOf(after, key))
  {
    assert (order + [key])[..|order|] == order;
  }

  /** The reported changes begin the full list, in ascending order of the keys, and are all of it
      unless truncated. */
  ghost predicate Reports(before: Side, after: Side, order: seq<StructuralKey>, changes: seq<Change>, truncated: bool) {
    && Enumerates(order, Keys(before) + Keys(after)) && AscendingKeys(order) && |changes| <= DIFF_CHANGES
    && changes <= FullChanges(before, after, order)
    && (!truncated ==> changes == FullChanges(before, after, order))
  }

  lemma ReportsWhenCut(before: Side, after: Side, order: seq<StructuralKey>, done: set<StructuralKey>, changes: seq<Change>)
    returns (full: seq<StructuralKey>)
    requires Enumerates(order, done) && done <= Keys(before) + Keys(after) && |changes| <= DIFF_CHANGES
    requires Precede(order, Keys(before) + Keys(after) - done)
    requires changes <= FullChanges(before, after, order)
    ensures Reports(before, after, full, changes, true)
    ensures FullChanges(before, after, order) <= FullChanges(before, after, full)
  {
    full := ExtendOrder(order, done, Keys(before) + Keys(after));
    ChangesExtend(before, after, order, full);
  }

  function At(groups: map<StructuralKey, seq<Definition>>, key: StructuralKey): seq<Definition> {
    if key in groups then groups[key] else []
  }

  lemma AtIsGroup(groups: map<StructuralKey, seq<Definition>>, side: Side, key: StructuralKey)
    requires GroupedBy(groups, side.definitions, side.paths)
    ensures At(groups, key) == GroupOf(side, key)
  {
    assert Side(side.definitions, side.paths) == side;
    if key !in groups { EmptyGroup(side.definitions, side.paths, key); }
  }

  /** Several definitions share the key on one side. */
  ghost predicate AmbiguousKey(before: Side, after: Side, key: StructuralKey) {
    Ambiguous(GroupOf(before, key), GroupOf(after, key))
  }

  ghost predicate SomeAmbiguous(before: Side, after: Side, order: seq<StructuralKey>) {
    exists i :: 0 <= i < |order| && AmbiguousKey(before, after, order[i])
  }

  lemma AmbiguousNext(before: Side, after: Side, order: seq<StructuralKey>, key: StructuralKey)
    ensures SomeAmbiguous(before, after, order + [key]) <==> SomeAmbiguous(before, after, order) || AmbiguousKey(before, after, key)
  {
    var longer := order + [key];
    if SomeAmbiguous(before, after, order) {
      var i :| 0 <= i < |order| && AmbiguousKey(before, after, order[i]);
      assert longer[i] == order[i];
    }
    assert longer[|order|] == key;
  }

  /** Reports the changes of one more key. */
  method EmitKey(before: Side, after: Side, b: seq<Definition>, a: seq<Definition>, changes: seq<Change>, bytes: nat,
                 ambiguous: bool, size: Change -> nat, ghost order: seq<StructuralKey>, ghost key: StructuralKey)
    returns (changes': seq<Change>, bytes': nat, truncated: bool, ambiguous': bool)
    requires b == GroupOf(before, key) && a == GroupOf(after, key) && changes == FullChanges(before, after, order)
    requires |changes| <= DIFF_CHANGES && bytes == HEADER_BYTES + ChangesBytes(changes, size) <= RESPONSE_BYTES
    ensures |changes'| <= DIFF_CHANGES && bytes' == HEADER_BYTES + ChangesBytes(changes', size) <= RESPONSE_BYTES
    requires ambiguous <==> SomeAmbiguous(before, after, order)
    ensures ambiguous' <==> SomeAmbiguous(before, after, order + [key])
    ensures truncated ==> TooMuch(FullChanges(before, after, order + [key]), size)
    ensures truncated ==> Longest(changes', FullChanges(before, after, order + [key]), size)
    ensures changes' <= FullChanges(before, after, order + [key])
    ensures !truncated ==> changes' == FullChanges(before, after, order + [key])
  {
    ambiguous' := ambiguous || |b| > 1 || |a| > 1;
    AmbiguousNext(before, after, order, key);
    var group := BuildGroup(b, a);
    ghost var n: nat;
    changes', bytes', truncated, n := AppendGroup(group, changes, bytes, size);
    ChangesAppend(before, after, order, key);
    PrefixOfJoin(changes, group, n);
    if !truncated { assert group[..n] == group; }
  }

  lemma PrefixOfJoin<T>(a: seq<T>, b: seq<T>, n: nat)
    requires n <= |b|
    ensures a + b[..n] <= a + b
  {
  }

  lemma EnumeratesNext(order: seq<StructuralKey>, keys: set<StructuralKey>, rest: set<StructuralKey>, key: StructuralKey)
    requires Enumerates(order, keys - rest) && key in rest && rest <= keys
    ensures Enumerates(order + [key], keys - (rest - {key}))
  {
  }

  method CollectChanges(before: Side, after: Side, size: Change -> nat, control: Control)
    returns (changes: seq<Change>, bytes: nat, truncated: bool, ambiguous: bool, ghost order: seq<StructuralKey>)
    modifies control
    ensures !truncated ==> control.fired == old(control.fired)
    ensures old(control.fired) ==> control.fired
    ensures Reports(before, after, order, changes, truncated)
    ensures bytes == HEADER_BYTES + ChangesBytes(changes, size) <= RESPONSE_BYTES
    ensures !control.fired ==> (truncated <==> TooMuch(FullChanges(before, after, order), size))
    ensures !control.fired && truncated ==> Longest(changes, FullChanges(before, after, order), size)
    ensures !truncated ==> (ambiguous <==> SomeAmbiguous(before, after, order))
  {
    var beforeGroups := GroupAll(before);
    var afterGroups := GroupAll(after);
    var rest := beforeGroups.Keys + afterGroups.Keys;
    ghost var keys := rest;
    assert Side(before.definitions, before.paths) == before && Side(after.definitions, after.paths) == after;
    changes, bytes, truncated, ambiguous, order := [], HEADER_BYTES, false, false, [];
    assert keys - rest == {};
    while rest != {}
      invariant !truncated ==> control.fired == old(control.fired)
      invariant old(control.fired) ==> control.fired
      invariant rest <= keys && Enumerates(order, keys - rest) && Precede(order, rest)
      invariant changes == FullChanges(before, after, order) && |changes| <= DIFF_CHANGES
      invariant bytes == HEADER_BYTES + ChangesBytes(changes, size) <= RESPONSE_BYTES
      invariant ambiguous <==> SomeAmbiguous(before, after, order)
      decreases rest
    {
      var stop := control.Stopped();
      if stop {
        order := ReportsRest(before, after, order, rest, changes, size);
        return changes, bytes, true, ambiguous, order;
      }
      var key := LeastKey(rest);
      AtIsGroup(beforeGroups, before, key);
      AtIsGroup(afterGroups, after, key);
      EnumeratesNext(order, keys, rest, key);
      PrecedeNext(order, rest, key);
      var b, a := At(beforeGroups, key), At(afterGroups, key);
      changes, bytes, truncated, ambiguous := EmitKey(before, after, b, a, changes, bytes, ambiguous, size, order, key);
      rest, order := rest - {key}, order + [key];
      if truncated {
        order := ReportsRest(before, after, order, rest, changes, size);
        return;
      }
    }
    assert keys - rest == keys;
  }

  /** The order of the keys that were not reached, and what it means for the full list. */
  lemma ReportsRest(before: Side, after: Side, order: seq<StructuralKey>, rest: set<StructuralKey>, changes: seq<Change>, size: Change -> nat)
    returns (full: seq<StructuralKey>)
    requires rest <= Keys(before) + Keys(after) && Enumerates(order, Keys(before) + Keys(after) - rest) && Precede(order, rest)
    requires |changes| <= DIFF_CHANGES && changes <= FullChanges(before, after, order)
    ensures Reports(before, after, full, changes, true)
    ensures TooMuch(FullChanges(before, after, order), size) ==> TooMuch(FullChanges(before, after, full), size)
    ensures Longest(changes, FullChanges(before, after, order), size) ==> Longest(changes, FullChanges(before, after, full), size)
  {
    var keys := Keys(before) + Keys(after);
    assert keys - (keys - rest) == rest;
    full := ReportsWhenCut(before, after, order, keys - rest, changes);
    TooMuchGrows(FullChanges(before, after, order), FullChanges(before, after, full), size);
  }

  // ---- callers of what changed ----

  /** A stored definition that calls x. */
  ghost predicate Calls(g: Neighborhood.Shard, caller: nat, x: nat) {
    caller in g.definitions
    && exists r :: r in g.relations && Neighborhood.Leaves(r, x, Neighborhood.Incoming) && r.source == caller
  }

  /** Calls a definition that a change shows as it is afterwards. */
  ghost predicate CallsChanged(g: Neighborhood.Shard, caller: nat, changes: seq<Change>) {
    exists i :: 0 <= i < |changes| && !changes[i].Removed? && Calls(g, caller, changes[i].after.id)
  }

  ghost predicate ImpactOf(g: Neighborhood.Shard, changes: seq<Change>, impact: set<nat>, truncated: bool) {
    && (forall c :: c in impact ==> CallsChanged(g, c, changes)) && |impact| <= IMPACT_CALLERS
    && (!truncated ==> forall c :: CallsChanged(g, c, changes) ==> c in impact)
  }

  lemma ImpactCut(g: Neighborhood.Shard, changes: seq<Change>, i: nat, impact: set<nat>)
    requires i <= |changes| && ImpactOf(g, changes[..i], impact, true)
    ensures ImpactOf(g, changes, impact, true)
  {
    forall c | c in impact
      ensures CallsChanged(g, c, changes)
    {
      var k :| 0 <= k < i && !changes[..i][k].Removed? && Calls(g, c, changes[..i][k].after.id);
      assert changes[..i][k] == changes[k];
    }
  }

  ghost function CallerSizes(g: Neighborhood.Shard, impact: set<nat>): map<nat, nat> {
    map c | c in impact && c in g.definitions :: g.definitions[c]
  }

  lemma CallerAdded(g: Neighborhood.Shard, impact: set<nat>, c: nat)
    requires c in g.definitions && c !in impact
    ensures Total(CallerSizes(g, impact + {c})) == Total(CallerSizes(g, impact)) + g.definitions[c]
  {
    TotalUpdate(CallerSizes(g, impact), c, g.definitions[c]);
    assert CallerSizes(g, impact + {c}) == CallerSizes(g, impact)[c := g.definitions[c]];
  }

  /** One more caller does not fit beside those listed. */
  ghost predicate NoRoomFor(g: Neighborhood.Shard, impact: set<nat>, bytes: nat, c: nat) {
    c in g.definitions && c !in impact
    && (|impact| >= IMPACT_CALLERS || bytes + Total(CallerSizes(g, impact)) + g.definitions[c] > RESPONSE_BYTES)
  }

  /** Adds the callers among some rows of x. cut means the budget is spent. */
  method AddCallers(g: Neighborhood.Shard, x: nat, rows: seq<Neighborhood.Relation>, impact: set<nat>, used: nat, ghost bytes: nat)
    returns (impact': set<nat>, used': nat, cut: bool)
    requires |impact| <= IMPACT_CALLERS && used == bytes + Total(CallerSizes(g, impact)) <= RESPONSE_BYTES
    requires forall k :: 0 <= k < |rows| ==> rows[k] in g.relations && Neighborhood.Leaves(rows[k], x, Neighborhood.Incoming)
    ensures impact <= impact' && |impact'| <= IMPACT_CALLERS
    ensures used' == bytes + Total(CallerSizes(g, impact')) <= RESPONSE_BYTES
    ensures forall c :: c in impact' ==> c in impact || Calls(g, c, x)
    ensures !cut ==> forall k :: 0 <= k < |rows| && rows[k].source in g.definitions ==> rows[k].source in impact'
    ensures cut ==> exists c :: Calls(g, c, x) && NoRoomFor(g, impact', bytes, c)
  {
    impact', used' := impact, used;
    for i := 0 to |rows|
      invariant impact <= impact' && |impact'| <= IMPACT_CALLERS
      invariant used' == bytes + Total(CallerSizes(g, impact')) <= RESPONSE_BYTES
      invariant forall c :: c in impact' ==> c in impact || Calls(g, c, x)
      invariant forall k :: 0 <= k < i && rows[k].source in g.definitions ==> rows[k].source in impact'
    {
      var caller := rows[i].source;
      if caller !in impact' && caller in g.definitions {
        var extra := g.definitions[caller];
        assert Calls(g, caller, x);
        CallerAdded(g, impact', caller);
        if |impact'| >= IMPACT_CALLERS || used' + extra > RESPONSE_BYTES {
          assert NoRoomFor(g, impact', bytes, caller);
          return impact', used', true;
        }
        used', impact' := used' + extra, impact' + {caller};
      }
    }
    return impact', used', false;
  }

  lemma AllCallersRead(g: Neighborhood.Shard, x: nat, rows: seq<Neighborhood.Relation>, impact: set<nat>)
    requires Neighborhood.IsRead(g, x, Neighborhood.Incoming, IMPACT_ROWS, rows) && |rows| < IMPACT_ROWS
    requires forall k :: 0 <= k < |rows| && rows[k].source in g.definitions ==> rows[k].source in impact
    ensures forall c :: Calls(g, c, x) ==> c in impact
  {
    forall c | Calls(g, c, x)
      ensures c in impact
    {
      var r :| r in g.relations && Neighborhood.Leaves(r, x, Neighborhood.Incoming) && r.source == c;
      var k :| 0 <= k < |rows| && rows[k] == r;
    }
  }

  /** More calls of a changed definition are stored than one read returns. */
  ghost predicate ManyCalls(g: Neighborhood.Shard, change: Change) {
    !change.Removed? && exists rows ::
      Neighborhood.IsRead(g, change.after.id, Neighborhood.Incoming, IMPACT_ROWS, rows) && |rows| == IMPACT_ROWS
  }

  ghost predicate SomeManyCalls(g: Neighborhood.Shard, changes: seq<Change>) {
    exists i :: 0 <= i < |changes| && ManyCalls(g, changes[i])
  }

  ghost function CallersOf(g: Neighborhood.Shard, changes: seq<Change>): set<nat> {
    set c | c in g.definitions && CallsChanged(g, c, changes)
  }

  /** The calls of one changed definition, or the callers of all of them, exceed a budget. */
  ghost predicate ImpactExceeds(g: Neighborhood.Shard, changes: seq<Change>, bytes: nat) {
    || SomeManyCalls(g, changes)
    || |CallersOf(g, changes)| > IMPACT_CALLERS
    || bytes + Total(CallerSizes(g, CallersOf(g, changes))) > RESPONSE_BYTES
  }

  lemma NoRoomExceeds(g: Neighborhood.Shard, changes: seq<Change>, impact: set<nat>, bytes: nat, c: nat)
    requires NoRoomFor(g, impact, bytes, c) && CallsChanged(g, c, changes)
    requires forall i :: i in impact ==> CallsChanged(g, i, changes)
    ensures ImpactExceeds(g, changes, bytes)
  {
    var more, all := impact + {c}, CallersOf(g, changes);
    forall i | i in more
      ensures i in all
    {
      CallerIsStored(g, changes, i);
    }
    SubsetSize(more, all);
    CallerAdded(g, impact, c);
    TotalGrows(CallerSizes(g, more), CallerSizes(g, all));
  }

  lemma CallerIsStored(g: Neighborhood.Shard, changes: seq<Change>, c: nat)
    requires CallsChanged(g, c, changes)
    ensures c in CallersOf(g, changes)
  {
    var i :| 0 <= i < |changes| && !changes[i].Removed? && Calls(g, c, changes[i].after.id);
  }

  /** The calls of a changed definition exceed the read budget. */
  ghost predicate ReadExceeds(g: Neighborhood.Shard, changes: seq<Change>) {
    exists i, excess: map<nat, nat> :: 0 <= i < |changes| && !changes[i].Removed?
      && Neighborhood.RowsOf(g, changes[i].after.id, Neighborhood.Incoming, excess) && Total(excess) > RESPONSE_BYTES
  }

  lemma ManyCallsKept(g: Neighborhood.Shard, changes: seq<Change>, i: nat)
    requires i < |changes|
    ensures SomeManyCalls(g, changes[..i]) || ManyCalls(g, changes[i]) ==> SomeManyCalls(g, changes[..i + 1])
    ensures SomeManyCalls(g, changes[..i + 1]) ==> SomeManyCalls(g, changes)
  {
    if SomeManyCalls(g, changes[..i]) {
      var k :| 0 <= k < i && ManyCalls(g, changes[..i][k]);
      assert changes[..i + 1][k] == changes[..i][k];
    }
    if ManyCalls(g, changes[i]) { assert changes[..i + 1][i] == changes[i]; }
    if SomeManyCalls(g, changes[..i + 1]) {
      var k :| 0 <= k < i + 1 && ManyCalls(g, changes[..i + 1][k]);
      assert changes[k] == changes[..i + 1][k];
    }
  }

  /** What one changed definition adds. short means that callers may be missing, cut that there is no room. */
  datatype CallerStep = Callers(found: set<nat>, used: nat, short: bool, cut: bool)

  ghost predicate StepIsRight(g: Neighborhood.Shard, change: Change, impact: set<nat>, bytes: nat, step: CallerStep)
    requires !change.Removed?
  {
    var x := change.after.id;
    && impact <= step.found && |step.found| <= IMPACT_CALLERS
    && step.used == bytes + Total(CallerSizes(g, step.found)) <= RESPONSE_BYTES
    && (forall c :: c in step.found ==> c in impact || Calls(g, c, x))
    && (!step.short ==> forall c :: Calls(g, c, x) ==> c in step.found)
    && (step.cut ==> step.short && exists c :: Calls(g, c, x) && NoRoomFor(g, step.found, bytes, c))
    && (step.short && !step.cut ==> ManyCalls(g, change))
  }

  method ReadCallers(g: Neighborhood.Shard, change: Change, impact: set<nat>, used: nat, ghost bytes: nat, control: Control)
    returns (step: Option<CallerStep>, ghost excess: map<nat, nat>)
    requires Neighborhood.DistinctIds(g.relations) && !change.Removed?
    requires |impact| <= IMPACT_CALLERS && used == bytes + Total(CallerSizes(g, impact)) <= RESPONSE_BYTES
    modifies control
    ensures step.Some? ==> control.fired == old(control.fired)
    ensures old(control.fired) ==> control.fired
    ensures step.Some? ==> StepIsRight(g, change, impact, bytes, step.value)
    ensures step.None? && !control.fired ==>
      Neighborhood.RowsOf(g, change.after.id, Neighborhood.Incoming, excess) && Total(excess) > RESPONSE_BYTES
  {
    var rows;
    rows, excess := Neighborhood.Adjacency(g, change.after.id, Neighborhood.Incoming, IMPACT_ROWS, control);
    if rows.None? { return None, excess; }
    var more, total, cut := AddCallers(g, change.after.id, rows.value, impact, used, bytes);
    if !cut && |rows.value| < IMPACT_ROWS { AllCallersRead(g, change.after.id, rows.value, more); }
    return Some(Callers(more, total, cut || |rows.value| == IMPACT_ROWS, cut)), excess;
  }

  method CollectImpact(g: Neighborhood.Shard, changes: seq<Change>, bytes: nat, control: Control)
    returns (impact: Option<set<nat>>, truncated: bool)
    requires Neighborhood.DistinctIds(g.relations) && bytes <= RESPONSE_BYTES
    modifies control
    ensures impact.Some? && !truncated ==> control.fired == old(control.fired)
    ensures old(control.fired) ==> control.fired
    ensures impact.Some? ==> ImpactOf(g, changes, impact.value, truncated)
    ensures impact.Some? && truncated && !control.fired ==> ImpactExceeds(g, changes, bytes)
    ensures impact.None? && !control.fired ==> ReadExceeds(g, changes)
  {
    var found: set<nat>, used: nat := {}, bytes;
    truncated := false;
    assert CallerSizes(g, found) == map[];
    for i := 0 to |changes|
      invariant control.fired == old(control.fired)
      invariant ImpactOf(g, changes[..i], found, truncated)
      invariant used == bytes + Total(CallerSizes(g, found)) <= RESPONSE_BYTES
      invariant truncated ==> SomeManyCalls(g, changes[..i])
    {
      var change := changes[i];
      ghost var before := changes[..i];
      assert changes[..i + 1] == before + [change];
      ManyCallsKept(g, changes, i);
      if change.Removed? {
        KeepImpact(g, before, change, found, truncated);
      } else {
        var stop := control.Stopped();
        if stop {
          ImpactCut(g, changes, i, found);
          return Some(found), true;
        }
        var step, excess := ReadCallers(g, change, found, used, bytes, control);
        if step.None? {
          assert changes[i] == change;
          return None, true;
        }
        var Callers(more, total, short, cut) := step.value;
        NextImpact(g, before, change, found, more, truncated, short);
        truncated, found, used := truncated || short, more, total;
        if cut {
          ImpactCut(g, changes, i + 1, found);
          CutExceeds(g, changes, i, found, bytes);
          return Some(found), true;
        }
      }
    }
    assert changes[..|changes|] == changes;
    return Some(found), truncated;
  }

  lemma CutExceeds(g: Neighborhood.Shard, changes: seq<Change>, i: nat, impact: set<nat>, bytes: nat)
    requires i < |changes| && !changes[i].Removed? && ImpactOf(g, changes, impact, true)
    requires exists c :: Calls(g, c, changes[i].after.id) && NoRoomFor(g, impact, bytes, c)
    ensures ImpactExceeds(g, changes, bytes)
  {
    var c :| Calls(g, c, changes[i].after.id) && NoRoomFor(g, impact, bytes, c);
    NoRoomExceeds(g, changes, impact, bytes, c);
  }

  lemma KeepImpact(g: Neighborhood.Shard, changes: seq<Change>, next: Change, impact: set<nat>, truncated: bool)
    requires ImpactOf(g, changes, impact, truncated) && next.Removed?
    ensures ImpactOf(g, changes + [next], impact, truncated)
  {
    NextImpact(g, changes, next, impact, impact, truncated, false);
  }

  lemma NextImpact(g: Neighborhood.Shard, changes: seq<Change>, next: Change, impact: set<nat>, impact': set<nat>,
                   truncated: bool, short: bool)
    requires ImpactOf(g, changes, impact, truncated) && impact <= impact' && |impact'| <= IMPACT_CALLERS
    requires forall c :: c in impact' ==> c in impact || (!next.Removed? && Calls(g, c, next.after.id))
    requires !short && !next.Removed? ==> forall c :: Calls(g, c, next.after.id) ==> c in impact'
    ensures ImpactOf(g, changes + [next], impact', truncated || short)
  {
    var longer := changes + [next];
    forall c
      ensures CallsChanged(g, c, longer) <==> CallsChanged(g, c, changes) || (!next.Removed? && Calls(g, c, next.after.id))
    {
      if CallsChanged(g, c, changes) {
        var i :| 0 <= i < |changes| && !changes[i].Removed? && Calls(g, c, changes[i].after.id);
        assert longer[i] == changes[i];
      }
      assert longer[|changes|] == next;
    }
  }

  // ---- the whole diff ----

  datatype Error = InvalidQuery | BudgetExhausted

  datatype Response = Response(changes: seq<Change>, impact: set<nat>, complete: bool, truncated: bool)

  /** What a response promises for one order of the keys. */
  ghost predicate Honest(before: Side, after: Side, g: Neighborhood.Shard, order: seq<StructuralKey>, r: Response) {
    && (forall c :: c in r.changes ==> Sound(before, after, c))
    && ImpactOf(g, r.changes, r.impact, r.truncated)
    && Reports(before, after, order, r.changes, r.truncated)
    && (r.complete ==> !r.truncated)
  }

  /** The changes of an undisturbed comparison, cut exactly when they are too many or too large. */
  ghost predicate Compared(before: Side, after: Side, order: seq<StructuralKey>, size: Change -> nat, r: Response) {
    && Reports(before, after, order, r.changes, r.truncated)
    && (r.truncated <==> TooMuch(FullChanges(before, after, order), size))
    && (r.truncated ==> Longest(r.changes, FullChanges(before, after, order), size))
  }

  /** Why an undisturbed comparison is cut short. */
  ghost predicate ExceedsResponse(before: Side, after: Side, g: Neighborhood.Shard, order: seq<StructuralKey>,
                                  size: Change -> nat, r: Response) {
    || TooMuch(FullChanges(before, after, order), size)
    || ImpactExceeds(g, r.changes, HEADER_BYTES + ChangesBytes(r.changes, size))
  }

  /** The definitions of a side are too many or too large to be read. */
  ghost predicate Oversized(side: Side, sideBytes: nat) {
    |side.definitions| > DIFF_DEFINITIONS || sideBytes > READ_BYTES
  }

  /** The answer before its encoded size is known. */
  ghost predicate Answers(before: Side, after: Side, g: Neighborhood.Shard, order: seq<StructuralKey>, size: Change -> nat,
                          baseComplete: bool, r: Response, fired: bool) {
    && Honest(before, after, g, order, r)
    && (r.truncated && !fired ==> ExceedsResponse(before, after, g, order, size, r))
    && (!fired ==> r.changes == FullChanges(before, after, order) || Longest(r.changes, FullChanges(before, after, order), size))
    && (!r.truncated ==>
          && !TooMuch(FullChanges(before, after, order), size)
          && (r.complete <==> baseComplete && !SomeAmbiguous(before, after, order))
          && Applies(before, after, r.changes))
  }

  /** Taking away what the changes remove and adding what they bring turns one side into the other. */
  ghost predicate Applies(before: Side, after: Side, changes: seq<Change>) {
    forall v ::
      Count(before.definitions, before.paths, v) + Brought(changes, after.paths, v)
      == Taken(changes, before.paths, v) + Count(after.definitions, after.paths, v)
  }

  lemma FullApplies(before: Side, after: Side, order: seq<StructuralKey>)
    requires Enumerates(order, Keys(before) + Keys(after))
    ensures Applies(before, after, FullChanges(before, after, order))
  {
    forall v
      ensures Count(before.definitions, before.paths, v) + Brought(FullChanges(before, after, order), after.paths, v)
           == Taken(FullChanges(before, after, order), before.paths, v) + Count(after.definitions, after.paths, v)
    {
      ChangesApply(before, after, order, v);
    }
  }

  lemma ResponseAnswers(before: Side, after: Side, g: Neighborhood.Shard, order: seq<StructuralKey>, size: Change -> nat,
                        baseComplete: bool, r: Response, cut: bool, short: bool, ambiguous: bool, fired: bool)
    requires Reports(before, after, order, r.changes, cut) && ImpactOf(g, r.changes, r.impact, short)
    requires HEADER_BYTES + ChangesBytes(r.changes, size) <= RESPONSE_BYTES
    requires !fired ==> (cut <==> TooMuch(FullChanges(before, after, order), size))
    requires !fired && cut ==> Longest(r.changes, FullChanges(before, after, order), size)
    requires !fired && short ==> ImpactExceeds(g, r.changes, HEADER_BYTES + ChangesBytes(r.changes, size))
    requires !cut ==> (ambiguous <==> SomeAmbiguous(before, after, order))
    requires (cut || short ==> r.truncated) && (r.truncated && !fired ==> cut || short)
    requires r.complete <==> baseComplete && !ambiguous && !r.truncated
    ensures Answers(before, after, g, order, size, baseComplete, r, fired)
  {
    FullChangesSound(before, after, order);
    FullApplies(before, after, order);
  }

  /** sameRepository and the sizes stand for the snapshots' metadata and the encoded rows, changes and
      answer; calls is the later snapshot's shard; full is the answer before its size is known. */
  method Compare(sameRepository: bool, before: Side, beforeBytes: nat, after: Side, afterBytes: nat,
                 calls: Neighborhood.Shard, baseComplete: bool, size: Change -> nat, responseBytes: Response -> nat,
                 control: Control)
    returns (result: Result<Response, Error>, ghost order: seq<StructuralKey>, ghost full: Response)
    requires Neighborhood.DistinctIds(calls.relations)
    modifies control
    ensures result.Ok? && !full.truncated ==> control.fired == old(control.fired)
    ensures result == Err(InvalidQuery) <==> !sameRepository
    ensures sameRepository && (Oversized(before, beforeBytes) || Oversized(after, afterBytes)) ==> result == Err(BudgetExhausted)
    ensures result.Ok? ==>
      && result.value == full && responseBytes(full) <= RESPONSE_BYTES
      && Answers(before, after, calls, order, size, baseComplete, full, control.fired)
    ensures result == Err(BudgetExhausted) && !control.fired ==>
      || Oversized(before, beforeBytes) || Oversized(after, afterBytes)
      || (Compared(before, after, order, size, full) && ReadExceeds(calls, full.changes))
      || (Answers(before, after, calls, order, size, baseComplete, full, false) && responseBytes(full) > RESPONSE_BYTES)
  {
    order, full := [], Response([], {}, false, true);
    if !sameRepository { return Err(InvalidQuery), order, full; }
    if |before.definitions| > DIFF_DEFINITIONS || |after.definitions| > DIFF_DEFINITIONS {
      return Err(BudgetExhausted), order, full;
    }
    if beforeBytes > READ_BYTES || afterBytes > READ_BYTES { return Err(BudgetExhausted), order, full; }
    var changes, bytes, truncated, ambiguous;
    changes, bytes, truncated, ambiguous, order := CollectChanges(before, after, size, control);
    full := full.(changes := changes, truncated := truncated);
    var impact, short := CollectImpact(calls, changes, bytes, control);
    if impact.None? { return Err(BudgetExhausted), order, full; }
    var stop := control.Stopped();
    var partial := truncated || short || stop;
    var response := Response(changes, impact.value, baseComplete && !ambiguous && !partial, partial);
    ResponseAnswers(before, after, calls, order, size, baseComplete, response, truncated, short, ambiguous, control.fired);
    full := response;
    if responseBytes(response) > RESPONSE_BYTES { return Err(BudgetExhausted), order, full; }
    return Ok(response), order, full;
  }
}
