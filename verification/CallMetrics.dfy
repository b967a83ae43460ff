/** Fan-in and fan-out counts over the call sites of a selected graph. */
module CallMetrics {
  import opened Cancellation
  import opened CallGraph
  import opened Sums

  /** Call sites and distinct partners per definition. Absent keys stand for zero and the empty set. */
  datatype Counts = Counts(outgoing: map<nat, nat>, incoming: map<nat, nat>,
                           callers: map<nat, set<nat>>, callees: map<nat, set<nat>>)

  function At(m: map<nat, nat>, id: nat): nat {
    if id in m then m[id] else 0
  }

  function Among(m: map<nat, set<nat>>, id: nat): set<nat> {
    if id in m then m[id] else {}
  }

  ghost function SitesFrom(sites: seq<Relation>, id: nat): nat {
    if sites == [] then 0
    else SitesFrom(sites[..|sites| - 1], id) + if sites[|sites| - 1].source == id then 1 else 0
  }

  ghost predicate Arrives(indexes: set<nat>, r: Relation, id: nat) {
    r.target == Resolved(id) && id in indexes
  }

  ghost function SitesTo(sites: seq<Relation>, indexes: set<nat>, id: nat): nat {
    if sites == [] then 0
    else SitesTo(sites[..|sites| - 1], indexes, id) + if Arrives(indexes, sites[|sites| - 1], id) then 1 else 0
  }

  /** Sites whose target is selected. */
  ghost function ResolvedSites(sites: seq<Relation>, indexes: set<nat>): nat {
    if sites == [] then 0
    else
      var r := sites[|sites| - 1];
      ResolvedSites(sites[..|sites| - 1], indexes) + if r.target.Resolved? && r.target.id in indexes then 1 else 0
  }

  ghost function Callers(sites: seq<Relation>, indexes: set<nat>, id: nat): set<nat> {
    set r | r in sites && Arrives(indexes, r, id) :: r.source
  }

  ghost function Callees(sites: seq<Relation>, indexes: set<nat>, id: nat): set<nat> {
    set r | r in sites && r.source == id && r.target.Resolved? && r.target.id in indexes :: r.target.id
  }

  /** Each count is what it says, and the counts add up to the sites. */
  ghost predicate CountsAre(c: Counts, sites: seq<Relation>, indexes: set<nat>) {
    && (forall id :: At(c.outgoing, id) == SitesFrom(sites, id))
    && (forall id :: At(c.incoming, id) == SitesTo(sites, indexes, id))
    && (forall id :: Among(c.callers, id) == Callers(sites, indexes, id))
    && (forall id :: Among(c.callees, id) == Callees(sites, indexes, id))
    && Total(c.outgoing) == |sites| && Total(c.incoming) == ResolvedSites(sites, indexes)
  }

  function Counted(c: Counts, r: Relation, indexes: set<nat>): Counts {
    var source := c.(outgoing := c.outgoing[r.source := At(c.outgoing, r.source) + 1]);
    if r.target.Resolved? && r.target.id in indexes then
      var id := r.target.id;
      source.(incoming := c.incoming[id := At(c.incoming, id) + 1],
              callers := c.callers[id := Among(c.callers, id) + {r.source}],
              callees := c.callees[r.source := Among(c.callees, r.source) + {id}])
    else source
  }

  lemma SitesNext(sites: seq<Relation>, r: Relation, indexes: set<nat>, id: nat)
    ensures SitesFrom(sites + [r], id) == SitesFrom(sites, id) + if r.source == id then 1 else 0
    ensures SitesTo(sites + [r], indexes, id) == SitesTo(sites, indexes, id) + if Arrives(indexes, r, id) then 1 else 0
    ensures Callers(sites + [r], indexes, id) == Callers(sites, indexes, id) + if Arrives(indexes, r, id) then {r.source} else {}
    ensures Callees(sites + [r], indexes, id) == Callees(sites, indexes, id)
         + if r.source == id && r.target.Resolved? && r.target.id in indexes then {r.target.id} else {}
  {
    assert (sites + [r])[..|sites|] == sites;
  }

  lemma TotalsNext(c: Counts, sites: seq<Relation>, r: Relation, indexes: set<nat>)
    requires Total(c.outgoing) == |sites| && Total(c.incoming) == ResolvedSites(sites, indexes)
    ensures var next := Counted(c, r, indexes);
      Total(next.outgoing) == |sites + [r]| && Total(next.incoming) == ResolvedSites(sites + [r], indexes)
  {
    assert (sites + [r])[..|sites|] == sites;
    TotalUpdate(c.outgoing, r.source, At(c.outgoing, r.source) + 1);
    if r.target.Resolved? && r.target.id in indexes {
      TotalUpdate(c.incoming, r.target.id, At(c.incoming, r.target.id) + 1);
    }
  }

  lemma CountedNext(c: Counts, sites: seq<Relation>, r: Relation, indexes: set<nat>)
    requires CountsAre(c, sites, indexes)
    ensures CountsAre(Counted(c, r, indexes), sites + [r], indexes)
  {
    var next := Counted(c, r, indexes);
    TotalsNext(c, sites, r, indexes);
    forall id
      ensures At(next.outgoing, id) == SitesFrom(sites + [r], id) && At(next.incoming, id) == SitesTo(sites + [r], indexes, id)
      ensures Among(next.callers, id) == Callers(sites + [r], indexes, id)
      ensures Among(next.callees, id) == Callees(sites + [r], indexes, id)
    {
      SitesNext(sites, r, indexes, id);
      assert At(c.outgoing, id) == SitesFrom(sites, id) && At(c.incoming, id) == SitesTo(sites, indexes, id);
      assert Among(c.callers, id) == Callers(sites, indexes, id) && Among(c.callees, id) == Callees(sites, indexes, id);
    }
  }

  /** Counts a prefix of the sites, and all of them unless a poll asked to stop. */
  method CountSites(sites: seq<Relation>, indexes: set<nat>, control: Control) returns (c: Counts, stopped: bool, ghost n: nat)
    modifies control
    ensures control.fired == (old(control.fired) || stopped)
    ensures n <= |sites| && CountsAre(c, sites[..n], indexes) && (!stopped ==> CountsAre(c, sites, indexes))
  {
    c := Counts(map[], map[], map[], map[]);
    n := 0;
    for i := 0 to |sites|
      invariant control.fired == old(control.fired)
      invariant n == i && CountsAre(c, sites[..i], indexes)
    {
      var stop := control.Stopped();
      if stop { return c, true, n; }
      CountedNext(c, sites[..i], sites[i], indexes);
      assert sites[..i + 1] == sites[..i] + [sites[i]];
      c, n := Counted(c, sites[i], indexes), n + 1;
    }
    assert sites[..|sites|] == sites;
    return c, false, n;
  }

  /** Distinct callers never exceed incoming sites. */
  lemma {:induction false} CallersBelowSites(sites: seq<Relation>, indexes: set<nat>, id: nat)
    ensures |Callers(sites, indexes, id)| <= SitesTo(sites, indexes, id)
    decreases |sites|
  {
    if sites == [] {
      assert Callers(sites, indexes, id) == {};
    } else {
      var init, r := sites[..|sites| - 1], sites[|sites| - 1];
      assert sites == init + [r];
      CallersBelowSites(init, indexes, id);
      SitesNext(init, r, indexes, id);
    }
  }
}
