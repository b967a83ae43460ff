/** Shortest paths and reachability in a selected call graph. */
module CallGraph {
  import opened Wrappers
  import opened Cancellation
  import opened Ordering
  import Sorting

  const MAX_NODES: nat := 10_000
  const MAX_EDGES: nat := 50_000
  const MAX_INPUT_BYTES: nat := 16 * 1024 * 1024

  datatype Node = Node(id: nat, context: nat, active: bool)

  datatype Target = Resolved(id: nat) | Unknown(reason: nat)

  datatype Relation = Relation(id: nat, source: nat, target: Target, calls: bool)

  datatype Selection = Selection(nodes: seq<Node>, edges: seq<Relation>, complete: bool, truncated: bool)

  datatype Limits = Limits(maxNodes: nat, maxEdges: nat, maxVisits: nat, maxDepth: nat, maxResponseBytes: nat)

  datatype Error = InvalidInput | BudgetExhausted

  /** A call between two selected definitions. */
  datatype Link = Link(id: nat, source: nat, target: nat)

  datatype Frontier = External(source: nat, relation: nat, target: Option<nat>) | Unresolved(source: nat, relation: nat, reason: nat)

  /** complete is the coverage status; truncated is set with every omission. */
  datatype Prepared = Prepared(indexes: set<nat>, links: set<Link>, unknown: seq<Frontier>, sites: seq<Relation>,
                               complete: bool, truncated: bool)

  ghost predicate LimitsValid(limits: Limits) {
    && 1 <= limits.maxNodes <= 10_000 && 1 <= limits.maxEdges <= 50_000 && 1 <= limits.maxVisits <= 10_000
    && limits.maxDepth <= 64 && 256 <= limits.maxResponseBytes <= 2 * 1024 * 1024
  }

  // ---- the selected graph ----

  ghost function NodeIds(nodes: seq<Node>): set<nat> {
    set n | n in nodes :: n.id
  }

  ghost predicate Inner(indexes: set<nat>, r: Relation) {
    r.source in indexes && r.target.Resolved? && r.target.id in indexes
  }

  ghost function LinkOf(r: Relation): Link
    requires r.target.Resolved?
  {
    Link(r.id, r.source, r.target.id)
  }

  /** The frontier entry of a call that is not between selected definitions. */
  ghost function FrontierOf(indexes: set<nat>, r: Relation): Frontier
    requires !Inner(indexes, r)
  {
    if r.source !in indexes then External(r.source, r.id, if r.target.Resolved? then Some(r.target.id) else None)
    else if r.target.Resolved? then External(r.source, r.id, Some(r.target.id))
    else Unresolved(r.source, r.id, r.target.reason)
  }

  /** All resolved calls of the selection. */
  ghost function CallLinks(edges: seq<Relation>): set<Link> {
    set r | r in edges && r.calls && r.target.Resolved? :: LinkOf(r)
  }

  /** Links and frontier of the calls in retained, each call once. */
  ghost predicate Sorted(p: Prepared, retained: set<Relation>) {
    && (forall l :: l in p.links <==> exists r :: r in retained && Inner(p.indexes, r) && LinkOf(r) == l)
    && (forall f :: f in p.unknown <==> exists r :: r in retained && !Inner(p.indexes, r) && FrontierOf(p.indexes, r) == f)
    && Sorting.DistinctKeys(p.unknown, RelationId)
  }

  ghost function RelationId(f: Frontier): nat { f.relation }

  function FrontierKey(f: Frontier): Sorting.Key { (f.source, f.relation) }

  ghost predicate DistinctCalls(retained: set<Relation>) {
    forall r, r' :: r in retained && r' in retained && r.id == r'.id ==> r == r'
  }

  /** The calls that have become links or frontier are some of the selection's, and the frontier is in order. */
  ghost predicate Files(input: Selection, p: Prepared) {
    && Sorting.IsSorted(p.unknown, FrontierKey)
    && exists filed: set<Relation> :: filed <= Calls(input.edges) && Sorted(p, filed)
  }

  /** What preparation promises. A complete graph is the whole selection, with nothing unresolved. */
  ghost predicate IsPrepared(input: Selection, limits: Limits, p: Prepared) {
    && Files(input, p) && p.indexes <= NodeIds(input.nodes) && |p.indexes| <= limits.maxNodes && |p.links| <= limits.maxEdges
    && p.links <= CallLinks(input.edges) && (forall l :: l in p.links ==> l.source in p.indexes && l.target in p.indexes)
    && (p.truncated ==> !p.complete) && (!p.truncated ==> p.indexes == NodeIds(input.nodes))
    && (p.complete ==> WholeSelection(input, p))
  }

  ghost predicate WholeSelection(input: Selection, p: Prepared) {
    && input.complete && !input.truncated && p.indexes == NodeIds(input.nodes) && p.unknown == []
    && (forall n :: n in input.nodes ==> n.active)
    && p.links == CallLinks(input.edges)
    && forall r :: r in input.edges && r.calls ==> Inner(p.indexes, r)
  }

  ghost function Calls(edges: seq<Relation>): set<Relation> {
    set r | r in edges && r.calls
  }

  ghost function CallIds(edges: seq<Relation>): set<nat> {
    set r | r in edges && r.calls :: r.id
  }

  /** The calls that the edge limit retains. */
  ghost function Retained(edges: seq<Relation>, maxEdges: nat): set<Relation> {
    set r | r in edges && r.calls && r.id in Taken(CallIds(edges), maxEdges)
  }

  /** What an undisturbed preparation has done; links, frontier and flags are determined by the input. */
  ghost predicate FullyPrepared(input: Selection, limits: Limits, p: Prepared) {
    && p.indexes == Taken(NodeIds(input.nodes), limits.maxNodes)
    && Sorted(p, Retained(input.edges, limits.maxEdges)) && Sorting.IsSorted(p.unknown, FrontierKey)
    && (p.truncated <==> input.truncated || |NodeIds(input.nodes)| > limits.maxNodes || |CallIds(input.edges)| > limits.maxEdges)
    && (p.complete <==> !p.truncated && WholeSelection(input, p))
  }

  /** The inputs that are refused rather than analysed. */
  ghost function Refusal(input: Selection, inputBytes: nat, limits: Limits): Option<Error> {
    if !LimitsValid(limits) then Some(InvalidInput)
    else if |input.nodes| > MAX_NODES || |input.edges| > MAX_EDGES || inputBytes > MAX_INPUT_BYTES then Some(BudgetExhausted)
    else if !OneContext(input.nodes) || !NoCallTwice(input.edges) then Some(InvalidInput)
    else None
  }

  // ---- preparation ----

  /** One build context, and no identity twice. */
  ghost predicate OneContext(nodes: seq<Node>) {
    && (forall k :: 0 <= k < |nodes| ==> nodes[k].context == nodes[0].context)
    && forall j, k :: 0 <= j < k < |nodes| ==> nodes[j].id != nodes[k].id
  }

  ghost predicate NoCallTwice(edges: seq<Relation>) {
    forall j, k :: 0 <= j < k < |edges| ==> edges[j].id != edges[k].id
  }

  method SelectNodes(nodes: seq<Node>, control: Control) returns (selected: Result<map<nat, Node>, Error>, stopped: bool)
    modifies control
    ensures control.fired == (old(control.fired) || stopped)
    ensures selected.Ok? ==> forall id :: id in selected.value ==> selected.value[id] in nodes && selected.value[id].id == id
    ensures selected.Ok? && !stopped ==> forall n :: n in nodes ==> n.id in selected.value && selected.value[n.id] == n
    ensures selected.Err? ==> selected.error == InvalidInput && !OneContext(nodes)
    ensures selected.Ok? && !stopped ==> OneContext(nodes)
  {
    var m: map<nat, Node> := map[];
    for i := 0 to |nodes|
      invariant control.fired == old(control.fired)
      invariant forall id :: id in m ==> exists k :: 0 <= k < i && nodes[k].id == id && m[id] == nodes[k]
      invariant forall k :: 0 <= k < i ==> nodes[k].id in m && m[nodes[k].id] == nodes[k]
      invariant forall k :: 0 <= k < i ==> nodes[k].context == nodes[0].context
      invariant forall j, k :: 0 <= j < k < i ==> nodes[j].id != nodes[k].id
    {
      var stop := control.Stopped();
      if stop { return Ok(m), true; }
      if i > 0 && nodes[i].context != nodes[0].context { return Err(InvalidInput), false; }
      if nodes[i].id in m { return Err(InvalidInput), false; }
      m := m[nodes[i].id := nodes[i]];
    }
    return Ok(m), false;
  }

  method SelectCalls(edges: seq<Relation>, control: Control) returns (selected: Result<map<nat, Relation>, Error>, stopped: bool)
    modifies control
    ensures control.fired == (old(control.fired) || stopped)
    ensures selected.Ok? ==> forall id :: id in selected.value ==>
      selected.value[id] in edges && selected.value[id].id == id && selected.value[id].calls
    ensures selected.Ok? && !stopped ==>
      forall r :: r in edges && r.calls ==> r.id in selected.value && selected.value[r.id] == r
    ensures selected.Err? ==> selected.error == InvalidInput && !NoCallTwice(edges)
    ensures selected.Ok? && !stopped ==> NoCallTwice(edges)
  {
    var m: map<nat, Relation>, seen: set<nat> := map[], {};
    for i := 0 to |edges|
      invariant control.fired == old(control.fired)
      invariant m.Keys <= seen
      invariant forall id :: id in seen <==> exists k :: 0 <= k < i && edges[k].id == id
      invariant forall id :: id in m ==> m[id] in edges && m[id].id == id && m[id].calls
      invariant forall k :: 0 <= k < i && edges[k].calls ==> edges[k].id in m && m[edges[k].id] == edges[k]
      invariant forall j, k :: 0 <= j < k < i ==> edges[j].id != edges[k].id
    {
      var stop := control.Stopped();
      if stop { return Ok(m), true; }
      if edges[i].id in seen { return Err(InvalidInput), false; }
      seen := seen + {edges[i].id};
      if edges[i].calls { m := m[edges[i].id := edges[i]]; }
    }
    return Ok(m), false;
  }

  /** The first ids in ascending order, at most the limit. */
  function Taken(ids: set<nat>, limit: nat): (taken: set<nat>)
    ensures taken <= ids && |taken| <= limit && (|ids| <= limit ==> taken == ids)
  {
    var sorted := Ascending(ids);
    var prefix := if |sorted| <= limit then sorted else sorted[..limit];
    ElementsSize(prefix);
    Elements(prefix)
  }

  function Elements(ids: seq<nat>): set<nat> {
    set id | id in ids
  }

  lemma {:induction false} ElementsSize(ids: seq<nat>)
    ensures |Elements(ids)| <= |ids|
  {
    if ids == [] {
      assert Elements(ids) == {};
    } else {
      var init, last := ids[..|ids| - 1], ids[|ids| - 1];
      ElementsSize(init);
      assert ids == init + [last];
      assert Elements(ids) == Elements(init) + {last};
    }
  }

  /** One call becomes a link or a frontier entry, and a call site when its caller is selected. */
  ghost function FileCall(p: Prepared, r: Relation): Prepared {
    var sites := if r.source in p.indexes then p.sites + [r] else p.sites;
    if Inner(p.indexes, r) then p.(links := p.links + {LinkOf(r)}, sites := sites)
    else p.(unknown := p.unknown + [FrontierOf(p.indexes, r)], sites := sites, complete := false)
  }

  /** The calls in filed have been turned into links, call sites and frontier. */
  ghost predicate Connected(indexes: set<nat>, filed: set<Relation>, complete: bool, p: Prepared) {
    && p.indexes == indexes && !p.truncated && Sorted(p, filed)
    && (p.complete <==> complete && p.unknown == [])
    && forall r :: r in p.sites <==> r in filed && r.source in indexes
  }

  lemma LinkFiled(p: Prepared, filed: set<Relation>, r: Relation)
    requires Sorted(p, filed) && Inner(p.indexes, r)
    ensures Sorted(FileCall(p, r), filed + {r})
  {
    assert forall r' :: r' in filed + {r} <==> r' in filed || r' == r;
  }

  lemma FrontierFiled(p: Prepared, filed: set<Relation>, r: Relation)
    requires Sorted(p, filed) && !Inner(p.indexes, r) && DistinctCalls(filed + {r}) && r !in filed
    ensures Sorted(FileCall(p, r), filed + {r})
  {
    var last := FrontierOf(p.indexes, r);
    forall f | f in p.unknown
      ensures f.relation != r.id
    {
      var r' :| r' in filed && !Inner(p.indexes, r') && FrontierOf(p.indexes, r') == f;
      assert r' in filed + {r} && r in filed + {r};
    }
    assert forall k :: 0 <= k < |p.unknown| ==> p.unknown[k] in p.unknown;
    assert forall r' :: r' in filed + {r} <==> r' in filed || r' == r;
  }

  lemma FileCallKeeps(indexes: set<nat>, filed: set<Relation>, complete: bool, p: Prepared, r: Relation)
    requires Connected(indexes, filed, complete, p) && DistinctCalls(filed + {r}) && r !in filed
    ensures Connected(indexes, filed + {r}, complete, FileCall(p, r))
    ensures |FileCall(p, r).links| <= |p.links| + 1
  {
    if Inner(indexes, r) {
      LinkFiled(p, filed, r);
    } else {
      FrontierFiled(p, filed, r);
    }
  }

  /** Putting the frontier in order changes nothing else. */
  lemma OrderKeeps(p: Prepared, filed: set<Relation>)
    requires Sorted(p, filed)
    ensures var unknown := Sorting.SortBy(p.unknown, FrontierKey);
      Sorted(p.(unknown := unknown), filed) && Sorting.IsSorted(unknown, FrontierKey) && (unknown == [] <==> p.unknown == [])
  {
    Sorting.SortKeeps(p.unknown, FrontierKey);
    var unknown := Sorting.SortBy(p.unknown, FrontierKey);
    Sorting.MembersOfMultiset(unknown, p.unknown);
    Sorting.DistinctRearranged(p.unknown, unknown, RelationId);
  }

  /** Turns the retained calls, in any order, into links, call sites and an ordered frontier. */
  method Connect(indexes: set<nat>, retained: set<Relation>, complete: bool, control: Control)
    returns (p: Prepared, stopped: bool, ghost filed: set<Relation>)
    requires DistinctCalls(retained)
    modifies control
    ensures control.fired == (old(control.fired) || stopped)
    ensures Connected(indexes, filed, complete, p) && Sorting.IsSorted(p.unknown, FrontierKey)
    ensures filed <= retained && |p.links| <= |retained| && (!stopped ==> filed == retained)
  {
    p := Prepared(indexes, {}, [], [], complete, false);
    stopped, filed := false, {};
    var rest := retained;
    while rest != {}
      invariant control.fired == old(control.fired)
      invariant !stopped && filed + rest == retained && filed !! rest
      invariant |p.links| + |rest| <= |retained|
      invariant Connected(indexes, filed, complete, p)
      decreases rest
    {
      stopped := control.Stopped();
      if stopped { break; }
      var r :| r in rest;
      FileCallKeeps(indexes, filed, complete, p, r);
      if r.source !in indexes {
        var target := if r.target.Resolved? then Some(r.target.id) else None;
        p := p.(unknown := p.unknown + [External(r.source, r.id, target)], complete := false);
      } else {
        p := p.(sites := p.sites + [r]);
        match r.target {
          case Resolved(id) =>
            if id in indexes {
              p := p.(links := p.links + {Link(r.id, r.source, id)});
            } else {
              p := p.(unknown := p.unknown + [External(r.source, r.id, Some(id))], complete := false);
            }
          case Unknown(reason) => p := p.(unknown := p.unknown + [Unresolved(r.source, r.id, reason)], complete := false);
        }
      }
      rest, filed := rest - {r}, filed + {r};
    }
    OrderKeeps(p, filed);
    p := p.(unknown := Sorting.SortBy(p.unknown, FrontierKey));
  }

  function Picked(edges: map<nat, Relation>, ids: set<nat>): set<Relation>
    requires ids <= edges.Keys
  {
    set id | id in ids :: edges[id]
  }

  lemma {:induction false} PickedSize(edges: map<nat, Relation>, ids: set<nat>)
    requires ids <= edges.Keys
    ensures |Picked(edges, ids)| <= |ids|
    decreases |ids|
  {
    if ids == {} {
      assert Picked(edges, ids) == {};
    } else {
      var id :| id in ids;
      PickedSize(edges, ids - {id});
      assert Picked(edges, ids) == Picked(edges, ids - {id}) + {edges[id]};
    }
  }

  /** inputBytes stands for the encoded size of the selection. */
  method Prepare(input: Selection, inputBytes: nat, limits: Limits, control: Control) returns (prepared: Result<Prepared, Error>)
    modifies control
    ensures prepared.Ok? && !prepared.value.truncated ==> control.fired == old(control.fired)
    ensures prepared.Ok? ==> LimitsValid(limits) && IsPrepared(input, limits, prepared.value)
    ensures prepared.Err? ==> Refusal(input, inputBytes, limits) == Some(prepared.error)
    ensures prepared.Ok? && !control.fired ==>
      Refusal(input, inputBytes, limits) == None && FullyPrepared(input, limits, prepared.value)
    ensures old(control.fired) ==> control.fired
  {
    if !(1 <= limits.maxNodes <= 10_000 && 1 <= limits.maxEdges <= 50_000 && 1 <= limits.maxVisits <= 10_000
         && limits.maxDepth <= 64 && 256 <= limits.maxResponseBytes <= 2 * 1024 * 1024)
    {
      return Err(InvalidInput);
    }
    if |input.nodes| > MAX_NODES || |input.edges| > MAX_EDGES { return Err(BudgetExhausted); }
    if inputBytes > MAX_INPUT_BYTES { return Err(BudgetExhausted); }
    var nodes, stop1 := SelectNodes(input.nodes, control);
    if nodes.Err? { return Err(nodes.error); }
    var calls, stop2 := SelectCalls(input.edges, control);
    if calls.Err? { return Err(calls.error); }
    var p := Assemble(input, limits, nodes.value, calls.value, stop1 || stop2, control);
    return Ok(p);
  }

  /** The definitions and calls read so far; stopped tells whether some were not. */
  ghost predicate Gathered(input: Selection, nodes: map<nat, Node>, calls: map<nat, Relation>, stopped: bool) {
    && (forall id :: id in nodes ==> nodes[id] in input.nodes && nodes[id].id == id)
    && (forall id :: id in calls ==> calls[id] in input.edges && calls[id].id == id && calls[id].calls)
    && (!stopped ==>
          && (forall n :: n in input.nodes ==> n.id in nodes && nodes[n.id] == n)
          && forall r :: r in input.edges && r.calls ==> r.id in calls && calls[r.id] == r)
  }

  method Assemble(input: Selection, limits: Limits, nodes: map<nat, Node>, calls: map<nat, Relation>, stopped: bool, control: Control)
    returns (p: Prepared)
    requires Gathered(input, nodes, calls, stopped)
    modifies control
    ensures stopped ==> p.truncated
    ensures !p.truncated ==> control.fired == old(control.fired)
    ensures IsPrepared(input, limits, p)
    ensures !stopped && !control.fired ==> FullyPrepared(input, limits, p)
    ensures old(control.fired) ==> control.fired
  {
    var truncated := stopped || input.truncated || |nodes| > limits.maxNodes || |calls| > limits.maxEdges;
    var indexes := Taken(nodes.Keys, limits.maxNodes);
    var active := forall id :: id in indexes ==> nodes[id].active;
    var picked := Picked(calls, Taken(calls.Keys, limits.maxEdges));
    PickedIsDistinct(input, nodes, calls, stopped, limits.maxEdges);
    var connected, cut, filed := Connect(indexes, picked, input.complete && !truncated && active, control);
    p := connected.(truncated := truncated || cut, complete := connected.complete && !cut);
    AssembledPartly(input, limits, nodes, calls, stopped, cut, filed, active, p);
    if !stopped && !cut { AssembledFully(input, limits, nodes, calls, active, p); }
  }

  lemma PickedIsDistinct(input: Selection, nodes: map<nat, Node>, calls: map<nat, Relation>, stopped: bool, maxEdges: nat)
    requires Gathered(input, nodes, calls, stopped)
    ensures DistinctCalls(Picked(calls, Taken(calls.Keys, maxEdges)))
    ensures |Picked(calls, Taken(calls.Keys, maxEdges))| <= maxEdges
  {
    PickedSize(calls, Taken(calls.Keys, maxEdges));
  }

  /** What was assembled, whether or not a poll stopped it. */
  lemma AssembledPartly(input: Selection, limits: Limits, nodes: map<nat, Node>, calls: map<nat, Relation>, stopped: bool, cut: bool,
                        filed: set<Relation>, active: bool, p: Prepared)
    requires Gathered(input, nodes, calls, stopped) && |p.links| <= limits.maxEdges
    requires p.indexes == Taken(nodes.Keys, limits.maxNodes) && active == forall id :: id in p.indexes ==> nodes[id].active
    requires filed <= Picked(calls, Taken(calls.Keys, limits.maxEdges))
    requires !cut ==> filed == Picked(calls, Taken(calls.Keys, limits.maxEdges))
    requires Sorted(p, filed) && Sorting.IsSorted(p.unknown, FrontierKey)
    requires p.truncated <==> stopped || cut || input.truncated || |nodes| > limits.maxNodes || |calls| > limits.maxEdges
    requires p.complete ==> input.complete && !p.truncated && active && p.unknown == []
    ensures IsPrepared(input, limits, p)
  {
    FiledIsPart(input, nodes, calls, stopped, Taken(calls.Keys, limits.maxEdges), filed, p);
    if !stopped { AllGathered(input, nodes, calls); }
    if p.complete { CompleteIsWhole(input, nodes, calls, p); }
  }

  lemma AllGathered(input: Selection, nodes: map<nat, Node>, calls: map<nat, Relation>)
    requires Gathered(input, nodes, calls, false)
    ensures nodes.Keys == NodeIds(input.nodes) && calls.Keys == CallIds(input.edges)
  {
  }

  lemma PickedIsRetained(input: Selection, nodes: map<nat, Node>, calls: map<nat, Relation>, maxEdges: nat)
    requires Gathered(input, nodes, calls, false)
    ensures Picked(calls, Taken(calls.Keys, maxEdges)) == Retained(input.edges, maxEdges)
  {
    AllGathered(input, nodes, calls);
    var ids := Taken(calls.Keys, maxEdges);
    forall r | r in Retained(input.edges, maxEdges)
      ensures r in Picked(calls, ids)
    {
      assert calls[r.id] == r;
    }
  }

  /** What was assembled from everything, unhurried. */
  lemma AssembledFully(input: Selection, limits: Limits, nodes: map<nat, Node>, calls: map<nat, Relation>, active: bool, p: Prepared)
    requires Gathered(input, nodes, calls, false)
    requires p.indexes == Taken(nodes.Keys, limits.maxNodes) && active == forall id :: id in p.indexes ==> nodes[id].active
    requires p.truncated <==> input.truncated || |nodes| > limits.maxNodes || |calls| > limits.maxEdges
    requires p.complete <==> input.complete && !p.truncated && active && p.unknown == []
    requires Sorted(p, Picked(calls, Taken(calls.Keys, limits.maxEdges))) && Sorting.IsSorted(p.unknown, FrontierKey)
    requires p.links <= CallLinks(input.edges)
    ensures FullyPrepared(input, limits, p)
  {
    AllGathered(input, nodes, calls);
    PickedIsRetained(input, nodes, calls, limits.maxEdges);
    if p.complete { CompleteIsWhole(input, nodes, calls, p); }
    if WholeSelection(input, p) { WholeIsActive(input, nodes, p.indexes); }
  }

  lemma WholeIsActive(input: Selection, nodes: map<nat, Node>, indexes: set<nat>)
    requires indexes <= nodes.Keys && forall n :: n in input.nodes ==> n.active
    requires forall id :: id in nodes ==> nodes[id] in input.nodes
    ensures forall id :: id in indexes ==> nodes[id].active
  {
  }

  lemma FiledIsPart(input: Selection, nodes: map<nat, Node>, calls: map<nat, Relation>, stopped: bool, ids: set<nat>,
                    filed: set<Relation>, p: Prepared)
    requires Gathered(input, nodes, calls, stopped) && ids <= calls.Keys && p.indexes <= nodes.Keys
    requires filed <= Picked(calls, ids) && Sorted(p, filed) && Sorting.IsSorted(p.unknown, FrontierKey)
    ensures Files(input, p) && p.indexes <= NodeIds(input.nodes)
    ensures p.links <= CallLinks(input.edges) && forall l :: l in p.links ==> l.source in p.indexes && l.target in p.indexes
  {
    assert filed <= Calls(input.edges);
  }

  lemma CompleteIsWhole(input: Selection, nodes: map<nat, Node>, calls: map<nat, Relation>, p: Prepared)
    requires input.complete && !input.truncated && p.unknown == [] && p.indexes == nodes.Keys
    requires forall id :: id in nodes ==> nodes[id] in input.nodes && nodes[id].id == id && nodes[id].active
    requires forall n :: n in input.nodes ==> n.id in nodes && nodes[n.id] == n
    requires forall r :: r in input.edges && r.calls ==> r.id in calls && calls[r.id] == r
    requires Sorted(p, Picked(calls, calls.Keys)) && p.links <= CallLinks(input.edges)
    ensures WholeSelection(input, p)
  {
    forall r | r in input.edges && r.calls
      ensures Inner(p.indexes, r) && LinkOf(r) in p.links
    {
      assert calls[r.id] in Picked(calls, calls.Keys);
      assert !Inner(p.indexes, r) ==> FrontierOf(p.indexes, r) in p.unknown;
    }
  }

  lemma SameMembersOnce(a: seq<Frontier>, b: seq<Frontier>)
    requires Sorting.DistinctKeys(a, RelationId) && Sorting.DistinctKeys(b, RelationId) && forall f :: f in a <==> f in b
    ensures multiset(a) == multiset(b) && Sorting.KeyDetermines(multiset(a), RelationId)
  {
    Sorting.DistinctIsOnce(a, RelationId);
    Sorting.DistinctIsOnce(b, RelationId);
    forall f
      ensures multiset(a)[f] == multiset(b)[f]
    {
      assert f in multiset(a) <==> f in a;
      assert f in multiset(b) <==> f in b;
    }
  }

  /** The prepared graph, call sites aside, is determined by the selection and the limits. */
  lemma PreparedIsUnique(input: Selection, limits: Limits, p: Prepared, q: Prepared)
    requires FullyPrepared(input, limits, p) && FullyPrepared(input, limits, q)
    ensures p.(sites := []) == q.(sites := [])
  {
    var retained := Retained(input.edges, limits.maxEdges);
    forall f
      ensures f in p.unknown <==> f in q.unknown
    {
      assert f in p.unknown <==> exists r :: r in retained && !Inner(p.indexes, r) && FrontierOf(p.indexes, r) == f;
      assert f in q.unknown <==> exists r :: r in retained && !Inner(q.indexes, r) && FrontierOf(q.indexes, r) == f;
    }
    SameMembersOnce(p.unknown, q.unknown);
    Sorting.SortedIsUnique(p.unknown, q.unknown, FrontierKey);
    assert p.links == q.links;
  }

  // ---- chains of calls ----

  ghost predicate IsChain(links: set<Link>, start: nat, end: nat, chain: seq<Link>)
    decreases |chain|
  {
    if chain == [] then start == end
    else
      var last := chain[|chain| - 1];
      last in links && last.target == end && IsChain(links, start, last.source, chain[..|chain| - 1])
  }

  ghost predicate Reaches(links: set<Link>, start: nat, end: nat) {
    exists chain :: IsChain(links, start, end, chain)
  }

  lemma ChainStep(links: set<Link>, start: nat, chain: seq<Link>, link: Link)
    requires IsChain(links, start, link.source, chain) && link in links
    ensures IsChain(links, start, link.target, chain + [link])
  {
    assert (chain + [link])[..|chain|] == chain;
  }

  // ---- breadth-first search ----

  /** stack and discovered are the traversal's own state; distance and previous are kept beside it. */
  datatype Search = Search(stack: seq<nat>, discovered: set<nat>, visited: seq<nat>,
                           distance: map<nat, nat>, previous: map<nat, (nat, nat)>)

  /** A step of the search tree follows a link. */
  ghost predicate TreeEdge(links: set<Link>, distance: map<nat, nat>, x: nat, parent: nat, id: nat) {
    && Link(id, parent, x) in links && parent in distance && x in distance && distance[x] == distance[parent] + 1
  }

  /** Distances are those of the search tree rooted at start. */
  ghost predicate Tree(links: set<Link>, start: nat, distance: map<nat, nat>, previous: map<nat, (nat, nat)>) {
    && start in distance && distance[start] == 0 && start !in previous
    && (forall x :: x in distance ==> x == start || x in previous)
    && forall x :: x in previous ==> TreeEdge(links, distance, x, previous[x].0, previous[x].1)
  }

  /** Links out of the visited definitions have been followed. */
  ghost predicate Followed(links: set<Link>, visited: seq<nat>, distance: map<nat, nat>) {
    forall l :: l in links && l.source in visited ==>
      l.source in distance && l.target in distance && distance[l.target] <= distance[l.source] + 1
  }

  ghost predicate Distinct(ids: seq<nat>) {
    forall i, j :: 0 <= i < j < |ids| ==> ids[i] != ids[j]
  }

  /** Every definition with a distance is visited or on the stack, once. */
  ghost predicate Placed(s: Search) {
    && (forall x :: x in s.distance <==> x in s.visited || x in s.stack)
    && Distinct(s.visited) && Distinct(s.stack)
    && forall x :: x in s.stack ==> x !in s.visited
  }

  ghost predicate InLayers(stack: seq<nat>, distance: map<nat, nat>, now: nat) {
    && (forall i :: 0 <= i < |stack| ==> stack[i] in distance && now <= distance[stack[i]] <= now + 1)
    && forall i, j :: 0 <= i <= j < |stack| ==> distance[stack[i]] <= distance[stack[j]]
  }

  ghost predicate Searching(links: set<Link>, start: nat, s: Search, now: nat) {
    && Tree(links, start, s.distance, s.previous) && Followed(links, s.visited, s.distance)
    && Placed(s) && InLayers(s.stack, s.distance, now) && s.discovered == s.distance.Keys
    && VisitedBy(s.visited, s.distance, now)
  }

  ghost predicate VisitedBy(visited: seq<nat>, distance: map<nat, nat>, now: nat) {
    forall x :: x in visited ==> x in distance && distance[x] <= now
  }

  /** A chain ends at a definition no further than its length, or runs through a waiting one. */
  lemma {:induction false} ChainIsTracked(links: set<Link>, start: nat, s: Search, now: nat, end: nat, chain: seq<Link>)
    requires Searching(links, start, s, now) && IsChain(links, start, end, chain)
    ensures (end in s.distance && s.distance[end] <= |chain|)
         || exists x :: x in s.stack && s.distance[x] < |chain|
    decreases |chain|
  {
    if chain != [] {
      var last := chain[|chain| - 1];
      ChainIsTracked(links, start, s, now, last.source, chain[..|chain| - 1]);
    }
  }

  /** Nothing shorter leads to the front of the stack. */
  lemma FrontIsNearest(links: set<Link>, start: nat, s: Search, now: nat, chain: seq<Link>)
    requires Searching(links, start, s, now) && s.stack != [] && IsChain(links, start, s.stack[0], chain)
    ensures s.distance[s.stack[0]] <= |chain|
  {
    ChainIsTracked(links, start, s, now, s.stack[0], chain);
  }

  /** When the stack is empty, whatever is reachable was visited. */
  lemma EmptyStackIsComplete(links: set<Link>, start: nat, s: Search, now: nat, end: nat)
    requires Searching(links, start, s, now) && s.stack == [] && Reaches(links, start, end)
    ensures end in s.visited
  {
    var chain :| IsChain(links, start, end, chain);
    ChainIsTracked(links, start, s, now, end, chain);
  }

  lemma {:induction false} TreeReaches(links: set<Link>, start: nat, distance: map<nat, nat>, previous: map<nat, (nat, nat)>, x: nat)
    requires Tree(links, start, distance, previous) && x in distance
    ensures Reaches(links, start, x)
    decreases distance[x]
  {
    if x == start {
      assert IsChain(links, start, x, []);
    } else {
      var parent, id := previous[x].0, previous[x].1;
      assert TreeEdge(links, distance, x, parent, id);
      TreeReaches(links, start, distance, previous, parent);
      var chain :| IsChain(links, start, parent, chain);
      ChainStep(links, start, chain, Link(id, parent, x));
    }
  }

  ghost predicate Targets(links: set<Link>, x: nat, y: nat) {
    exists l :: l in links && l.source == x && l.target == y
  }

  /** The traversal puts the undiscovered successors of x on the stack. */
  method Discover(links: set<Link>, x: nat, stack: seq<nat>, discovered: set<nat>)
    returns (stack': seq<nat>, discovered': set<nat>, ghost added: seq<nat>)
    ensures stack' == stack + added && Distinct(added)
    ensures forall y :: y in added <==> y !in discovered && Targets(links, x, y)
    ensures forall y :: y in discovered' <==> y in discovered || y in added
  {
    stack', discovered', added := stack, discovered, [];
    var rest := links;
    ghost var done: set<Link> := {};
    while rest != {}
      invariant done + rest == links && done !! rest
      invariant stack' == stack + added && Distinct(added)
      invariant forall y :: y in added <==> y !in discovered && Targets(done, x, y)
      invariant forall y :: y in discovered' <==> y in discovered || y in added
      decreases rest
    {
      var l :| l in rest;
      TargetsGrow(done, l, x);
      rest, done := rest - {l}, done + {l};
      if l.source == x && l.target !in discovered' {
        discovered' := discovered' + {l.target};
        stack' := stack' + [l.target];
        added := added + [l.target];
      }
    }
  }

  lemma TargetsGrow(done: set<Link>, l: Link, x: nat)
    ensures forall y :: Targets(done + {l}, x, y) <==> Targets(done, x, y) || (l.source == x && l.target == y)
  {
    forall y
      ensures Targets(done + {l}, x, y) <==> Targets(done, x, y) || (l.source == x && l.target == y)
    {
      if Targets(done, x, y) {
        var e :| e in done && e.source == x && e.target == y;
        assert e in done + {l};
      }
      if l.source == x && l.target == y { assert l in done + {l}; }
    }
  }

  ghost predicate Relaxed(links: set<Link>, x: nat, before: map<nat, nat>, after: map<nat, nat>,
                          previous: map<nat, (nat, nat)>, previous': map<nat, (nat, nat)>)
    requires x in before
  {
    && (forall y :: y in after <==> y in before || Targets(links, x, y))
    && (forall y :: y in after ==> after[y] == if y in before then before[y] else before[x] + 1)
    && (forall y :: y in previous' <==> y in previous || (y in after && y !in before))
    && forall y :: y in previous' ==>
         if y in before && y in previous then previous'[y] == previous[y]
         else previous'[y].0 == x && Link(previous'[y].1, x, y) in links
  }

  /** Successors seen for the first time get a distance and a parent. */
  method Relax(links: set<Link>, x: nat, distance: map<nat, nat>, previous: map<nat, (nat, nat)>)
    returns (distance': map<nat, nat>, previous': map<nat, (nat, nat)>)
    requires x in distance && previous.Keys <= distance.Keys
    ensures Relaxed(links, x, distance, distance', previous, previous')
  {
    distance', previous' := distance, previous;
    var depth, rest := distance[x], links;
    ghost var done: set<Link> := {};
    while rest != {}
      invariant done + rest == links && done !! rest
      invariant Relaxed(done, x, distance, distance', previous, previous')
      decreases rest
    {
      var l :| l in rest;
      TargetsGrow(done, l, x);
      ghost var before := distance';
      rest, done := rest - {l}, done + {l};
      if l.source == x && l.target !in distance' {
        assert l == Link(l.id, x, l.target);
        distance' := distance'[l.target := depth + 1];
        previous' := previous'[l.target := (x, l.id)];
      }
    }
  }

  /** One definition taken off the stack, its successors discovered and given distances. */
  ghost predicate Stepped(links: set<Link>, s: Search, s': Search, added: seq<nat>) {
    s.stack != [] &&
    var x := s.stack[0];
    && x in s.distance && s'.visited == s.visited + [x] && s'.stack == s.stack[1..] + added && Distinct(added)
    && (forall y :: y in added <==> y !in s.discovered && Targets(links, x, y))
    && (forall y :: y in s'.discovered <==> y in s.discovered || y in added)
    && Relaxed(links, x, s.distance, s'.distance, s.previous, s'.previous)
  }

  lemma StepKeepsTree(links: set<Link>, start: nat, s: Search, now: nat, s': Search, added: seq<nat>)
    requires Searching(links, start, s, now) && Stepped(links, s, s', added)
    ensures Tree(links, start, s'.distance, s'.previous)
  {
    forall y | y in s'.previous
      ensures TreeEdge(links, s'.distance, y, s'.previous[y].0, s'.previous[y].1)
    {
      if y in s.previous { assert TreeEdge(links, s.distance, y, s.previous[y].0, s.previous[y].1); }
    }
  }

  lemma StepKeepsFollowed(links: set<Link>, start: nat, s: Search, now: nat, s': Search, added: seq<nat>)
    requires Searching(links, start, s, now) && Stepped(links, s, s', added)
    ensures Followed(links, s'.visited, s'.distance)
  {
    var x := s.stack[0];
    forall l | l in links && l.source in s'.visited
      ensures l.source in s'.distance && l.target in s'.distance && s'.distance[l.target] <= s'.distance[l.source] + 1
    {
      if l.source == x {
        assert Targets(links, x, l.target);
        if l.target in s.distance {
          assert InLayers(s.stack, s.distance, now);
          NoneFarther(s, now, l.target);
        }
      } else {
        assert l.source in s.visited;
      }
    }
  }

  /** Everything discovered is at most one step further out than the front of the stack. */
  lemma NoneFarther(s: Search, now: nat, y: nat)
    requires Placed(s) && InLayers(s.stack, s.distance, now) && s.stack != [] && y in s.distance
    requires VisitedBy(s.visited, s.distance, now)
    ensures s.distance[y] <= s.distance[s.stack[0]] + 1
  {
    if y in s.stack {
      var i :| 0 <= i < |s.stack| && s.stack[i] == y;
    }
  }

  lemma DistinctTail(ids: seq<nat>)
    requires ids != [] && Distinct(ids)
    ensures Distinct(ids[1..]) && ids[0] !in ids[1..]
    ensures forall y :: y in ids <==> y == ids[0] || y in ids[1..]
  {
    assert ids == [ids[0]] + ids[1..];
  }

  lemma DistinctJoin(a: seq<nat>, b: seq<nat>)
    requires Distinct(a) && Distinct(b) && forall x :: x in a ==> x !in b
    ensures Distinct(a + b)
  {
    var c := a + b;
    forall i, j | 0 <= i < j < |c|
      ensures c[i] != c[j]
    {
      if i < |a| <= j {
        assert c[i] in a && c[j] in b;
      } else if j < |a| {
        assert c[i] == a[i] && c[j] == a[j];
      } else {
        assert c[i] == b[i - |a|] && c[j] == b[j - |a|];
      }
    }
  }

  lemma StepKeepsPlaced(links: set<Link>, start: nat, s: Search, now: nat, s': Search, added: seq<nat>)
    requires Searching(links, start, s, now) && Stepped(links, s, s', added)
    ensures Placed(s') && s'.discovered == s'.distance.Keys
  {
    DistinctTail(s.stack);
    DistinctJoin(s.stack[1..], added);
    DistinctJoin(s.visited, [s.stack[0]]);
  }

  lemma TailLayers(stack: seq<nat>, distance: map<nat, nat>, now: nat)
    requires stack != [] && InLayers(stack, distance, now)
    ensures stack[0] in distance && now <= distance[stack[0]] && InLayers(stack[1..], distance, distance[stack[0]])
  {
    var rest := stack[1..];
    assert forall i :: 0 <= i < |rest| ==> rest[i] == stack[i + 1];
  }

  lemma JoinLayers(a: seq<nat>, b: seq<nat>, distance: map<nat, nat>, d: nat)
    requires InLayers(a, distance, d) && forall y :: y in b ==> y in distance && distance[y] == d + 1
    ensures InLayers(a + b, distance, d)
  {
    var c := a + b;
    forall i | 0 <= i < |c|
      ensures c[i] in distance && d <= distance[c[i]] <= d + 1
      ensures |a| <= i ==> distance[c[i]] == d + 1
    {
      if |a| <= i {
        assert c[i] in b;
      } else {
        assert c[i] == a[i];
      }
    }
    forall i, j | 0 <= i <= j < |c|
      ensures distance[c[i]] <= distance[c[j]]
    {
      if j < |a| {
        assert c[i] == a[i] && c[j] == a[j];
        assert distance[a[i]] <= distance[a[j]];
      } else {
        assert distance[c[i]] <= d + 1 == distance[c[j]];
      }
    }
  }

  lemma StepKeepsLayers(links: set<Link>, start: nat, s: Search, now: nat, s': Search, added: seq<nat>)
    requires Searching(links, start, s, now) && Stepped(links, s, s', added)
    ensures InLayers(s'.stack, s'.distance, s.distance[s.stack[0]])
  {
    TailLayers(s.stack, s.distance, now);
    assert InLayers(s.stack[1..], s'.distance, s.distance[s.stack[0]]);
    JoinLayers(s.stack[1..], added, s'.distance, s.distance[s.stack[0]]);
  }

  lemma VisitedOneMore(visited: seq<nat>, x: nat, before: map<nat, nat>, after: map<nat, nat>, now: nat)
    requires VisitedBy(visited, before, now) && x in before && now <= before[x] && Kept(before, after)
    ensures VisitedBy(visited + [x], after, before[x])
  {
  }

  ghost predicate Kept(before: map<nat, nat>, after: map<nat, nat>) {
    forall y :: y in before ==> y in after && after[y] == before[y]
  }

  lemma RelaxKeeps(links: set<Link>, x: nat, before: map<nat, nat>, after: map<nat, nat>,
                   previous: map<nat, (nat, nat)>, previous': map<nat, (nat, nat)>)
    requires x in before && Relaxed(links, x, before, after, previous, previous')
    ensures Kept(before, after)
  {
  }

  lemma StepKeepsVisited(links: set<Link>, start: nat, s: Search, now: nat, s': Search, added: seq<nat>)
    requires Searching(links, start, s, now) && Stepped(links, s, s', added)
    ensures VisitedBy(s'.visited, s'.distance, s.distance[s.stack[0]])
  {
    RelaxKeeps(links, s.stack[0], s.distance, s'.distance, s.previous, s'.previous);
    TailLayers(s.stack, s.distance, now);
    VisitedOneMore(s.visited, s.stack[0], s.distance, s'.distance, now);
  }

  lemma StepKeepsSearching(links: set<Link>, start: nat, s: Search, now: nat, s': Search, added: seq<nat>)
    requires Searching(links, start, s, now) && Stepped(links, s, s', added)
    ensures Searching(links, start, s', s.distance[s.stack[0]])
  {
    StepKeepsTree(links, start, s, now, s', added);
    StepKeepsFollowed(links, start, s, now, s', added);
    StepKeepsPlaced(links, start, s, now, s', added);
    StepKeepsLayers(links, start, s, now, s', added);
    StepKeepsVisited(links, start, s, now, s', added);
  }

  /** What the search found out: whether it met the target, and whether it was cut short. */
  datatype Exploration = Exploration(s: Search, found: Option<nat>, cut: bool)

  ghost predicate Nearest(links: set<Link>, start: nat, end: nat, length: nat) {
    forall chain :: IsChain(links, start, end, chain) ==> length <= |chain|
  }

  /** Some chain of at most this length leads to the definition. */
  ghost predicate Within(links: set<Link>, start: nat, end: nat, length: nat) {
    exists chain :: IsChain(links, start, end, chain) && |chain| <= length
  }

  lemma {:induction false} TreeIsNear(links: set<Link>, start: nat, distance: map<nat, nat>, previous: map<nat, (nat, nat)>, x: nat)
    requires Tree(links, start, distance, previous) && x in distance
    ensures Within(links, start, x, distance[x])
    decreases distance[x]
  {
    if x == start {
      assert IsChain(links, start, x, []);
    } else {
      var parent, id := previous[x].0, previous[x].1;
      assert TreeEdge(links, distance, x, parent, id);
      TreeIsNear(links, start, distance, previous, parent);
      var chain :| IsChain(links, start, parent, chain) && |chain| <= distance[parent];
      ChainStep(links, start, chain, Link(id, parent, x));
      assert |chain + [Link(id, parent, x)]| == |chain| + 1;
    }
  }

  /** A chain to a definition that was not visited is at least as long as the front is deep. */
  lemma FrontBounds(links: set<Link>, start: nat, s: Search, now: nat, end: nat, chain: seq<Link>)
    requires Searching(links, start, s, now) && s.stack != [] && end !in s.visited && IsChain(links, start, end, chain)
    ensures s.stack[0] in s.distance && now <= s.distance[s.stack[0]] <= |chain|
  {
    ChainIsTracked(links, start, s, now, end, chain);
    if end in s.distance && s.distance[end] <= |chain| {
      var i :| 0 <= i < |s.stack| && s.stack[i] == end;
    } else {
      var x :| x in s.stack && s.distance[x] < |chain|;
      var i :| 0 <= i < |s.stack| && s.stack[i] == x;
    }
  }

  /** x is at least as near as everything else that was not visited before it. */
  ghost predicate NextNearest(links: set<Link>, start: nat, before: seq<nat>, x: nat) {
    forall y, chain :: y !in before && IsChain(links, start, y, chain) ==> Within(links, start, x, |chain|)
  }

  /** The definitions come in breadth-first order: by distance, leaving out none that is nearer. */
  ghost predicate NearestFirst(links: set<Link>, start: nat, ids: seq<nat>)
    decreases |ids|
  {
    ids == [] || (NearestFirst(links, start, ids[..|ids| - 1]) && NextNearest(links, start, ids[..|ids| - 1], ids[|ids| - 1]))
  }

  /** What a search lists: distinct definitions within the limits, nearest first. */
  ghost predicate InSight(links: set<Link>, start: nat, limits: Limits, ids: seq<nat>) {
    && Distinct(ids) && |ids| <= limits.maxVisits && NearestFirst(links, start, ids)
    && forall x :: x in ids ==> Within(links, start, x, limits.maxDepth)
  }

  /** Something reachable is left out, because of the visit limit or because all that is left lies too deep. */
  ghost predicate CutShort(links: set<Link>, start: nat, limits: Limits, ids: seq<nat>) {
    && (exists x :: Reaches(links, start, x) && x !in ids)
    && (|ids| >= limits.maxVisits
        || forall x :: Reaches(links, start, x) && x !in ids ==> Nearest(links, start, x, limits.maxDepth + 1))
  }

  ghost predicate Everything(links: set<Link>, start: nat, ids: seq<nat>) {
    forall x :: Reaches(links, start, x) ==> x in ids
  }

  ghost predicate Hit(target: Option<nat>, ids: seq<nat>) {
    target.Some? && target.value in ids
  }

  lemma FrontIsNext(links: set<Link>, start: nat, s: Search, now: nat)
    requires Searching(links, start, s, now) && s.stack != []
    ensures NextNearest(links, start, s.visited, s.stack[0])
    ensures NearestFirst(links, start, s.visited) ==> NearestFirst(links, start, s.visited + [s.stack[0]])
  {
    forall y, chain | y !in s.visited && IsChain(links, start, y, chain)
      ensures Within(links, start, s.stack[0], |chain|)
    {
      FrontBounds(links, start, s, now, y, chain);
      TreeIsNear(links, start, s.distance, s.previous, s.stack[0]);
    }
    assert (s.visited + [s.stack[0]])[..|s.visited|] == s.visited;
  }

  /** Stopping at the front because of a limit leaves out what lies beyond it. */
  lemma FrontIsCut(links: set<Link>, start: nat, s: Search, now: nat, limits: Limits)
    requires Searching(links, start, s, now) && s.stack != [] && s.stack[0] in s.distance
    requires |s.visited| >= limits.maxVisits || s.distance[s.stack[0]] > limits.maxDepth
    ensures CutShort(links, start, limits, s.visited)
  {
    var front := s.stack[0];
    assert front in s.stack && front !in s.visited;
    TreeReaches(links, start, s.distance, s.previous, front);
    if |s.visited| < limits.maxVisits {
      forall x, chain | x !in s.visited && IsChain(links, start, x, chain)
        ensures limits.maxDepth + 1 <= |chain|
      {
        FrontBounds(links, start, s, now, x, chain);
      }
    }
  }

  ghost predicate Explored(links: set<Link>, start: nat, target: Option<nat>, limits: Limits, e: Exploration) {
    && Tree(links, start, e.s.distance, e.s.previous)
    && InSight(links, start, limits, e.s.visited)
    && (forall x :: x in e.s.visited ==> x in e.s.distance)
    && (e.found.Some? ==>
          e.found == target && !e.cut && e.s.visited != [] && e.s.visited[|e.s.visited| - 1] == e.found.value
          && Nearest(links, start, e.found.value, e.s.distance[e.found.value]))
    && (e.found.None? && target.Some? ==> target.value !in e.s.visited)
    && (e.found.None? && !e.cut ==> Everything(links, start, e.s.visited))
  }

  /** Facts about the visited definitions between steps. */
  ghost predicate Visiting(links: set<Link>, start: nat, target: Option<nat>, limits: Limits, s: Search, now: nat) {
    && Searching(links, start, s, now) && InSight(links, start, limits, s.visited)
    && (target.Some? ==> target.value !in s.visited)
  }

  lemma VisitingIsExplored(links: set<Link>, start: nat, target: Option<nat>, limits: Limits, s: Search, now: nat, s': Search, cut: bool)
    requires Visiting(links, start, target, limits, s, now) && s' == s.(stack := s'.stack, discovered := s'.discovered)
    requires cut || s.stack == []
    ensures Explored(links, start, target, limits, Exploration(s', None, cut))
  {
    if !cut {
      forall y | Reaches(links, start, y)
        ensures y in s.visited
      {
        EmptyStackIsComplete(links, start, s, now, y);
      }
    }
  }

  lemma FrontInSight(links: set<Link>, start: nat, s: Search, now: nat, limits: Limits)
    requires Searching(links, start, s, now) && InSight(links, start, limits, s.visited) && s.stack != []
    requires |s.visited| < limits.maxVisits && s.stack[0] in s.distance && s.distance[s.stack[0]] <= limits.maxDepth
    ensures InSight(links, start, limits, s.visited + [s.stack[0]])
  {
    assert s.stack[0] in s.stack;
    DistinctJoin(s.visited, [s.stack[0]]);
    FrontIsNext(links, start, s, now);
    TreeIsNear(links, start, s.distance, s.previous, s.stack[0]);
  }

  lemma FoundIsExplored(links: set<Link>, start: nat, target: Option<nat>, limits: Limits, s: Search, now: nat, s': Search)
    requires Visiting(links, start, target, limits, s, now) && s.stack != [] && target == Some(s.stack[0])
    requires |s.visited| < limits.maxVisits && s.stack[0] in s.distance && s.distance[s.stack[0]] <= limits.maxDepth
    requires s' == s.(stack := s'.stack, discovered := s'.discovered, visited := s.visited + [s.stack[0]])
    ensures Explored(links, start, target, limits, Exploration(s', target, false))
  {
    var x := s.stack[0];
    FrontInSight(links, start, s, now, limits);
    forall chain | IsChain(links, start, x, chain)
      ensures s.distance[x] <= |chain|
    {
      FrontIsNearest(links, start, s, now, chain);
    }
  }

  lemma StartIsVisiting(links: set<Link>, start: nat, target: Option<nat>, limits: Limits)
    ensures Visiting(links, start, target, limits, Search([start], {start}, [], map[start := 0], map[]), 0)
  {
  }

  lemma StepKeepsVisiting(links: set<Link>, start: nat, target: Option<nat>, limits: Limits, s: Search, now: nat,
                          s': Search, added: seq<nat>)
    requires Visiting(links, start, target, limits, s, now) && Stepped(links, s, s', added)
    requires |s.visited| < limits.maxVisits && s.distance[s.stack[0]] <= limits.maxDepth && target != Some(s.stack[0])
    ensures Visiting(links, start, target, limits, s', s.distance[s.stack[0]])
  {
    StepKeepsSearching(links, start, s, now, s', added);
    FrontInSight(links, start, s, now, limits);
  }

  /** More definitions are reachable than may be visited, or one lies deeper than the depth limit. */
  ghost predicate Exceeds(links: set<Link>, start: nat, limits: Limits) {
    || (exists ids: set<nat> :: |ids| > limits.maxVisits && forall y :: y in ids ==> Reaches(links, start, y))
    || (exists y :: Reaches(links, start, y) && Nearest(links, start, y, limits.maxDepth + 1))
  }

  /** The target lies deeper than the depth limit, or enough other definitions are at least as near. */
  ghost predicate OutOfSight(links: set<Link>, start: nat, target: nat, limits: Limits) {
    || Nearest(links, start, target, limits.maxDepth + 1)
    || exists ids: set<nat> :: |ids| >= limits.maxVisits && target !in ids
         && forall y, chain :: y in ids && IsChain(links, start, target, chain) ==> Within(links, start, y, |chain|)
  }

  lemma {:induction false} DistinctSize(ids: seq<nat>)
    requires Distinct(ids)
    ensures |Elements(ids)| == |ids|
    decreases |ids|
  {
    if ids == [] {
      assert Elements(ids) == {};
    } else {
      var rest := Elements(ids[1..]);
      DistinctTail(ids);
      DistinctSize(ids[1..]);
      assert ids[0] !in rest && Elements(ids) == {ids[0]} + rest;
    }
  }

  lemma CrowdExceeds(links: set<Link>, start: nat, s: Search, limits: Limits, x: nat)
    requires Tree(links, start, s.distance, s.previous) && Placed(s) && x in s.stack
    requires |s.visited| >= limits.maxVisits
    ensures Exceeds(links, start, limits)
  {
    DistinctSize(s.visited);
    var ids := Elements(s.visited) + {x};
    assert |ids| == |s.visited| + 1;
    forall y | y in ids
      ensures Reaches(links, start, y)
    {
      TreeReaches(links, start, s.distance, s.previous, y);
    }
  }

  lemma DepthExceeds(links: set<Link>, start: nat, s: Search, now: nat, limits: Limits)
    requires Searching(links, start, s, now) && s.stack != [] && s.stack[0] in s.distance
    requires s.distance[s.stack[0]] > limits.maxDepth
    ensures Exceeds(links, start, limits)
  {
    var x := s.stack[0];
    TreeReaches(links, start, s.distance, s.previous, x);
    forall chain | IsChain(links, start, x, chain)
      ensures limits.maxDepth + 1 <= |chain|
    {
      FrontIsNearest(links, start, s, now, chain);
    }
    assert Nearest(links, start, x, limits.maxDepth + 1);
  }

  lemma CrowdHidesTarget(links: set<Link>, start: nat, s: Search, now: nat, limits: Limits, target: nat)
    requires Searching(links, start, s, now) && s.stack != [] && target !in s.visited && |s.visited| >= limits.maxVisits
    ensures OutOfSight(links, start, target, limits)
  {
    DistinctSize(s.visited);
    var ids := Elements(s.visited);
    forall y, chain | y in ids && IsChain(links, start, target, chain)
      ensures Within(links, start, y, |chain|)
    {
      FrontBounds(links, start, s, now, target, chain);
      TreeIsNear(links, start, s.distance, s.previous, y);
    }
  }

  lemma DepthHidesTarget(links: set<Link>, start: nat, s: Search, now: nat, limits: Limits, target: nat)
    requires Searching(links, start, s, now) && s.stack != [] && s.stack[0] in s.distance && target !in s.visited
    requires s.distance[s.stack[0]] > limits.maxDepth
    ensures OutOfSight(links, start, target, limits)
  {
    forall chain | IsChain(links, start, target, chain)
      ensures limits.maxDepth + 1 <= |chain|
    {
      FrontBounds(links, start, s, now, target, chain);
    }
    assert Nearest(links, start, target, limits.maxDepth + 1);
  }

  /** Stopping at a cap means that the reachable definitions exceed it and that it hides the target. */
  lemma CapExplained(links: set<Link>, start: nat, s: Search, now: nat, limits: Limits, target: Option<nat>)
    requires Searching(links, start, s, now) && s.stack != [] && s.stack[0] in s.distance
    requires target.Some? ==> target.value !in s.visited
    requires |s.visited| >= limits.maxVisits || s.distance[s.stack[0]] > limits.maxDepth
    ensures CutExplained(links, start, target, limits)
  {
    if |s.visited| >= limits.maxVisits {
      CrowdExceeds(links, start, s, limits, s.stack[0]);
      if target.Some? { CrowdHidesTarget(links, start, s, now, limits, target.value); }
    } else {
      DepthExceeds(links, start, s, now, limits);
      if target.Some? { DepthHidesTarget(links, start, s, now, limits, target.value); }
    }
  }

  /** Why a search that nobody stopped ends early. */
  ghost predicate CutExplained(links: set<Link>, start: nat, target: Option<nat>, limits: Limits) {
    Exceeds(links, start, limits) && (target.Some? ==> OutOfSight(links, start, target.value, limits))
  }

  method Explore(links: set<Link>, start: nat, target: Option<nat>, limits: Limits, control: Control) returns (e: Exploration)
    modifies control
    ensures !e.cut ==> control.fired == old(control.fired)
    ensures Explored(links, start, target, limits, e)
    ensures e.cut && !control.fired ==> CutExplained(links, start, target, limits) && CutShort(links, start, limits, e.s.visited)
    ensures old(control.fired) ==> control.fired
  {
    var s := Search([start], {start}, [], map[start := 0], map[]);
    ghost var now: nat := 0;
    StartIsVisiting(links, start, target, limits);
    while s.stack != []
      invariant control.fired == old(control.fired)
      invariant Visiting(links, start, target, limits, s, now)
      decreases limits.maxVisits - |s.visited|
    {
      var x := s.stack[0];
      assert x in s.stack && x in s.distance;
      var stack, discovered, added := Discover(links, x, s.stack[1..], s.discovered);
      var cut := s.(stack := stack, discovered := discovered);
      VisitingIsExplored(links, start, target, limits, s, now, cut, true);
      var stop := control.Stopped();
      if stop { return Exploration(cut, None, true); }
      var depth := s.distance[x];
      if |s.visited| >= limits.maxVisits || depth > limits.maxDepth {
        CapExplained(links, start, s, now, limits, target);
        FrontIsCut(links, start, s, now, limits);
        return Exploration(cut, None, true);
      }
      var visited := s.visited + [x];
      if target == Some(x) {
        FoundIsExplored(links, start, target, limits, s, now, cut.(visited := visited));
        return Exploration(cut.(visited := visited), target, false);
      }
      var distance, previous := Relax(links, x, s.distance, s.previous);
      var next := Search(stack, discovered, visited, distance, previous);
      assert Stepped(links, s, next, added);
      StepKeepsVisiting(links, start, target, limits, s, now, next, added);
      s, now := next, depth;
    }
    VisitingIsExplored(links, start, target, limits, s, now, s, false);
    return Exploration(s, None, false);
  }

  // ---- the answer ----

  datatype Outcome = Found | NotFoundInSelection | ReachabilityComplete | UnknownOutcome

  datatype PathAnalysis = PathAnalysis(outcome: Outcome, path: seq<nat>, relations: seq<nat>, reachable: seq<nat>,
                                       frontier: seq<Frontier>, complete: bool, truncated: bool)

  /** Consecutive definitions joined by the named relations. */
  ghost predicate IsPath(links: set<Link>, start: nat, end: nat, path: seq<nat>, relations: seq<nat>) {
    && |path| == |relations| + 1 && path[0] == start && path[|path| - 1] == end
    && forall i :: 0 <= i < |relations| ==> Link(relations[i], path[i], path[i + 1]) in links
  }

  /** A path is a chain of as many links. */
  lemma {:induction false} PathIsChain(links: set<Link>, start: nat, end: nat, path: seq<nat>, relations: seq<nat>)
    requires IsPath(links, start, end, path, relations)
    ensures exists chain :: IsChain(links, start, end, chain) && |chain| == |relations|
    decreases |relations|
  {
    if relations == [] {
      assert IsChain(links, start, end, []);
    } else {
      var n := |relations| - 1;
      PathIsChain(links, start, path[n], path[..n + 1], relations[..n]);
      var chain :| IsChain(links, start, path[n], chain) && |chain| == n;
      var link := Link(relations[n], path[n], path[n + 1]);
      ChainStep(links, start, chain, link);
      assert |chain + [link]| == |relations|;
    }
  }

  /** Walks the search tree back from the target. */
  method TraceBack(links: set<Link>, start: nat, s: Search, end: nat) returns (path: seq<nat>, relations: seq<nat>)
    requires Tree(links, start, s.distance, s.previous) && end in s.distance
    ensures IsPath(links, start, end, path, relations) && |relations| == s.distance[end]
  {
    var x := end;
    path, relations := [end], [];
    while x in s.previous
      invariant x in s.distance && IsPath(links, x, end, path, relations)
      invariant |relations| + s.distance[x] == s.distance[end]
      decreases s.distance[x]
    {
      var parent, id := s.previous[x].0, s.previous[x].1;
      assert TreeEdge(links, s.distance, x, parent, id);
      path, relations := [parent] + path, [id] + relations;
      x := parent;
    }
  }

  function WithSource(unknown: seq<Frontier>, reached: seq<nat>): (kept: seq<Frontier>)
    ensures forall f :: f in kept <==> f in unknown && f.source in reached
  {
    if unknown == [] then []
    else
      var last := unknown[|unknown| - 1];
      WithSource(unknown[..|unknown| - 1], reached) + if last.source in reached then [last] else []
  }

  /** What each outcome means, in terms of the calls of the selection. */
  ghost predicate Decides(input: Selection, start: nat, target: Option<nat>, p: Prepared, r: PathAnalysis) {
    match r.outcome
    case Found =>
      target.Some? && IsPath(p.links, start, target.value, r.path, r.relations)
      && Nearest(p.links, start, target.value, |r.relations|)
    case NotFoundInSelection =>
      target.Some? && start in NodeIds(input.nodes) && target.value in NodeIds(input.nodes)
      && !Reaches(CallLinks(input.edges), start, target.value)
    case ReachabilityComplete =>
      target.None? && forall y :: y in r.reachable <==> Reaches(CallLinks(input.edges), start, y)
    case UnknownOutcome => !r.complete
  }

  /** The whole answer: its verdict, the definitions listed, the frontier behind them and the two flags. */
  ghost predicate Means(input: Selection, limits: Limits, start: nat, target: Option<nat>, p: Prepared, r: PathAnalysis) {
    && IsPrepared(input, limits, p) && Decides(input, start, target, p, r)
    && (r.outcome == Found <==> Hit(target, r.reachable))
    && (r.outcome == UnknownOutcome <==> !Hit(target, r.reachable) && !r.complete)
    && (r.outcome != Found ==> r.path == [] && r.relations == [])
    && InSight(p.links, start, limits, r.reachable)
    && (Hit(target, r.reachable) ==> r.reachable[|r.reachable| - 1] == target.value)
    && r.frontier == WithSource(p.unknown, r.reachable)
    && (p.truncated ==> r.truncated)
    && (r.complete <==> p.complete && !r.truncated && (target.Some? ==> target.value in p.indexes))
  }

  /** Nothing but the limits ended the search: it stopped at the target, was cut short, or listed everything. */
  ghost predicate Undisturbed(start: nat, target: Option<nat>, limits: Limits, p: Prepared, r: PathAnalysis) {
    && (if start in p.indexes then
          && (Hit(target, r.reachable) || CutShort(p.links, start, limits, r.reachable) || Everything(p.links, start, r.reachable))
          && (r.truncated <==> p.truncated || (!Hit(target, r.reachable) && CutShort(p.links, start, limits, r.reachable)))
        else r.reachable == [] && r.truncated)
    && (r.outcome == UnknownOutcome ==> Excused(start, target, limits, p))
  }

  /** Why an undisturbed search may give no verdict: the start was cut off, the limits hide the answer,
      or the selection is partial and shows no path. */
  ghost predicate Excused(start: nat, target: Option<nat>, limits: Limits, p: Prepared) {
    || start !in p.indexes
    || CutExplained(p.links, start, target, limits)
    || ((p.truncated || !p.complete || (target.Some? && target.value !in p.indexes))
        && (target.Some? ==> !Reaches(p.links, start, target.value)))
  }

  /** On a whole selection, an undisturbed search for a target in sight decides reachability. */
  lemma WholeSelectionIsDecided(input: Selection, limits: Limits, start: nat, target: nat, p: Prepared, r: PathAnalysis)
    requires Means(input, limits, start, Some(target), p, r) && FullyPrepared(input, limits, p) && p.complete
    requires r.outcome == UnknownOutcome ==> Excused(start, Some(target), limits, p)
    requires start in p.indexes && target in p.indexes
    requires !OutOfSight(p.links, start, target, limits) || !Exceeds(p.links, start, limits)
    ensures r.outcome == Found <==> Reaches(CallLinks(input.edges), start, target)
    ensures r.outcome == NotFoundInSelection <==> !Reaches(CallLinks(input.edges), start, target)
  {
    if r.outcome == Found { PathIsChain(p.links, start, target, r.path, r.relations); }
  }

  /** A report is given exactly when it fits. */
  ghost predicate Fits(full: PathAnalysis, reportBytes: PathAnalysis -> nat, limits: Limits, result: Result<PathAnalysis, Error>) {
    result == if reportBytes(full) <= limits.maxResponseBytes then Ok(full) else Err(BudgetExhausted)
  }

  /** What an undisturbed call answers, with the prepared graph and the report before its size is known. */
  ghost predicate Answers(input: Selection, inputBytes: nat, start: nat, target: Option<nat>, limits: Limits,
                          reportBytes: PathAnalysis -> nat, p: Prepared, full: PathAnalysis, result: Result<PathAnalysis, Error>) {
    match Refusal(input, inputBytes, limits)
    case Some(error) => result == Err(error)
    case None =>
      && FullyPrepared(input, limits, p)
      && if start !in p.indexes && !p.truncated then result == Err(InvalidInput)
         else Means(input, limits, start, target, p, full) && Undisturbed(start, target, limits, p, full)
              && Fits(full, reportBytes, limits, result)
  }

  /** inputBytes and reportBytes stand for encoded sizes. */
  method FindPath(input: Selection, inputBytes: nat, start: nat, target: Option<nat>, limits: Limits,
                  reportBytes: PathAnalysis -> nat, control: Control)
    returns (result: Result<PathAnalysis, Error>, ghost p: Prepared, ghost full: PathAnalysis)
    modifies control
    ensures result.Ok? && !full.truncated ==> control.fired == old(control.fired)
    ensures result.Ok? ==> Means(input, limits, start, target, p, full) && Fits(full, reportBytes, limits, result)
    ensures result == Err(InvalidInput) ==>
      Refusal(input, inputBytes, limits) == Some(InvalidInput) || start !in NodeIds(input.nodes)
    ensures result == Err(BudgetExhausted) ==>
      || Refusal(input, inputBytes, limits) == Some(BudgetExhausted)
      || (Means(input, limits, start, target, p, full) && Fits(full, reportBytes, limits, result))
    ensures !control.fired ==> Answers(input, inputBytes, start, target, limits, reportBytes, p, full, result)
  {
    p := Prepared({}, {}, [], [], false, false);
    full := PathAnalysis(UnknownOutcome, [], [], [], [], false, true);
    var prepared := Prepare(input, inputBytes, limits, control);
    if prepared.Err? { return Err(prepared.error), p, full; }
    var graph := prepared.value;
    p := graph;
    var report := PathAnalysis(UnknownOutcome, [], [], [], WithSource(graph.unknown, []), false, true);
    if start in graph.indexes {
      var e := Explore(graph.links, start, target, limits, control);
      report := Conclude(input, limits, graph, start, target, e);
    } else if !graph.truncated {
      return Err(InvalidInput), p, full;
    }
    full := report;
    if reportBytes(report) > limits.maxResponseBytes { return Err(BudgetExhausted), p, full; }
    return Ok(report), p, full;
  }

  method Conclude(input: Selection, limits: Limits, p: Prepared, start: nat, target: Option<nat>, e: Exploration)
    returns (r: PathAnalysis)
    requires IsPrepared(input, limits, p) && Explored(p.links, start, target, limits, e) && start in p.indexes
    ensures Means(input, limits, start, target, p, r) && r.reachable == e.s.visited && r.truncated == (p.truncated || e.cut)
    ensures !e.cut || (CutShort(p.links, start, limits, e.s.visited) && CutExplained(p.links, start, target, limits)) ==>
      Undisturbed(start, target, limits, p, r)
  {
    var truncated, complete := p.truncated || e.cut, p.complete && !e.cut;
    var outcome, path, relations := UnknownOutcome, [], [];
    var selected := target.None? || target.value in p.indexes;
    if e.found.Some? {
      outcome := Found;
      path, relations := TraceBack(p.links, start, e.s, e.found.value);
    } else if !truncated && complete && selected {
      outcome := if target.Some? then NotFoundInSelection else ReachabilityComplete;
    }
    r := PathAnalysis(outcome, path, relations, e.s.visited, WithSource(p.unknown, e.s.visited), complete && selected, truncated);
    ConclusionDecides(input, limits, p, start, target, e, r);
    if !e.cut || (CutShort(p.links, start, limits, e.s.visited) && CutExplained(p.links, start, target, limits)) {
      ConclusionUndisturbed(input, limits, p, start, target, e, r);
    }
  }

  /** How the answer is put together from what the search found. */
  ghost predicate Concluded(p: Prepared, start: nat, target: Option<nat>, e: Exploration, r: PathAnalysis) {
    && r.reachable == e.s.visited && r.frontier == WithSource(p.unknown, e.s.visited) && r.truncated == (p.truncated || e.cut)
    && r.complete == (p.complete && !e.cut && (target.Some? ==> target.value in p.indexes))
    && if e.found.Some? then
         && r.outcome == Found && e.found.value in e.s.distance
         && IsPath(p.links, start, e.found.value, r.path, r.relations) && |r.relations| == e.s.distance[e.found.value]
       else
         && r.path == [] && r.relations == []
         && r.outcome == if r.complete && !r.truncated then (if target.Some? then NotFoundInSelection else ReachabilityComplete)
                         else UnknownOutcome
  }

  lemma HitIffFound(links: set<Link>, start: nat, target: Option<nat>, limits: Limits, e: Exploration)
    requires Explored(links, start, target, limits, e)
    ensures Hit(target, e.s.visited) <==> e.found.Some?
  {
  }

  lemma ConclusionDecides(input: Selection, limits: Limits, p: Prepared, start: nat, target: Option<nat>, e: Exploration, r: PathAnalysis)
    requires IsPrepared(input, limits, p) && Explored(p.links, start, target, limits, e) && start in p.indexes
    requires Concluded(p, start, target, e, r)
    ensures Means(input, limits, start, target, p, r)
  {
    HitIffFound(p.links, start, target, limits, e);
    ListedIsReached(p.links, start, limits, e.s.visited);
  }

  lemma ConclusionUndisturbed(input: Selection, limits: Limits, p: Prepared, start: nat, target: Option<nat>, e: Exploration, r: PathAnalysis)
    requires IsPrepared(input, limits, p) && Explored(p.links, start, target, limits, e) && start in p.indexes
    requires Concluded(p, start, target, e, r)
    requires !e.cut || (CutShort(p.links, start, limits, e.s.visited) && CutExplained(p.links, start, target, limits))
    ensures Undisturbed(start, target, limits, p, r)
  {
    HitIffFound(p.links, start, target, limits, e);
    ListedIsReached(p.links, start, limits, e.s.visited);
  }

  lemma ListedIsReached(links: set<Link>, start: nat, limits: Limits, ids: seq<nat>)
    requires InSight(links, start, limits, ids)
    ensures forall x :: x in ids ==> Reaches(links, start, x)
  {
    forall x | x in ids
      ensures Reaches(links, start, x)
    {
      var chain :| IsChain(links, start, x, chain) && |chain| <= limits.maxDepth;
    }
  }
}
