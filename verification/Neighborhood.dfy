/** The bounded call-graph walk around one definition. */
module Neighborhood {
  import opened Wrappers
  import opened Cancellation
  import opened Sums

  const RESPONSE_BYTES: nat := 2 * 1024 * 1024
  const MAX_ROWS: nat := 10_001

  datatype Direction = Incoming | Outgoing | Both

  datatype Target = Resolved(id: nat) | Unknown(reason: nat)

  /** size is the length of the stored row. calls is false for relations of any other kind. */
  datatype Relation = Relation(id: nat, source: nat, target: Target, calls: bool, size: nat)

  /** Definitions with the length of their rows, and relations in the order of the index in use. */
  datatype Shard = Shard(definitions: map<nat, nat>, relations: seq<Relation>)

  datatype Request = Request(root: nat, direction: Direction, depth: nat, maxNodes: nat, maxEdges: nat)

  datatype Error = InvalidQuery | NotFound | BudgetExhausted | Unavailable

  datatype Response = Response(nodes: map<nat, nat>, edges: map<nat, Relation>, complete: bool, truncated: bool)

  /** The primary key of the relations table. */
  ghost predicate DistinctIds(relations: seq<Relation>) {
    forall i, j :: 0 <= i < j < |relations| ==> relations[i].id != relations[j].id
  }

  // ---- what a neighborhood is ----

  /** Whether a step in this direction can leave some definition of s along the relation. */
  ghost predicate Touches(r: Relation, s: set<nat>, direction: Direction) {
    r.calls &&
    match direction
    case Incoming => r.target.Resolved? && r.target.id in s
    case Outgoing => r.source in s
    case Both => r.source in s || (r.target.Resolved? && r.target.id in s)
  }

  /** Where such a step can arrive. */
  ghost function Ends(r: Relation, direction: Direction): set<nat> {
    var target := if r.target.Resolved? then {r.target.id} else {};
    match direction
    case Incoming => {r.source}
    case Outgoing => target
    case Both => {r.source} + target
  }

  ghost function Endpoints(r: Relation): set<nat> {
    Ends(r, Both)
  }

  ghost function Incident(g: Shard, s: set<nat>, direction: Direction): set<Relation> {
    set r | r in g.relations && Touches(r, s, direction)
  }

  ghost function Arrivals(g: Shard, s: set<nat>, direction: Direction): set<nat> {
    set r, y | r in g.relations && Touches(r, s, direction) && y in Ends(r, direction) :: y
  }

  /** The definitions within k steps of the root. */
  ghost function Ball(g: Shard, root: nat, direction: Direction, k: nat): set<nat> {
    if k == 0 then {root}
    else
      var inner := Ball(g, root, direction, k - 1);
      inner + Arrivals(g, inner, direction)
  }

  /** The relations that a complete answer shows: those touching a definition nearer than the depth. */
  ghost function Shown(g: Shard, request: Request): set<Relation> {
    if request.depth == 0 then {}
    else Incident(g, Ball(g, request.root, request.direction, request.depth - 1), request.direction)
  }

  ghost function Area(g: Shard, request: Request): set<nat> {
    Ball(g, request.root, request.direction, request.depth)
  }

  ghost predicate OneStep(g: Shard, x: nat, y: nat, direction: Direction) {
    exists r :: r in g.relations && Touches(r, {x}, direction) && y in Ends(r, direction)
  }

  /** A walk from the root, one relation at a time. */
  ghost predicate IsWalk(g: Shard, root: nat, direction: Direction, walk: seq<nat>) {
    && |walk| > 0 && walk[0] == root
    && forall i :: 0 <= i < |walk| - 1 ==> OneStep(g, walk[i], walk[i + 1], direction)
  }

  lemma TouchesOne(r: Relation, s: set<nat>, direction: Direction) returns (x: nat)
    requires Touches(r, s, direction)
    ensures x in s && Touches(r, {x}, direction)
  {
    x := if direction.Incoming? || (direction.Both? && r.source !in s) then r.target.id else r.source;
  }

  /** The ball of radius k is the end points of the walks of at most k steps. */
  lemma {:induction false} BallIsWalks(g: Shard, root: nat, direction: Direction, k: nat, x: nat)
    ensures x in Ball(g, root, direction, k) <==>
      exists walk :: IsWalk(g, root, direction, walk) && |walk| <= k + 1 && walk[|walk| - 1] == x
  {
    if x in Ball(g, root, direction, k) {
      var walk := WalkTo(g, root, direction, k, x);
    }
    forall walk | IsWalk(g, root, direction, walk) && |walk| <= k + 1 && walk[|walk| - 1] == x
      ensures x in Ball(g, root, direction, k)
    {
      WalkStaysInside(g, root, direction, walk);
      BallGrows(g, root, direction, |walk| - 1, k);
    }
  }

  lemma {:induction false} WalkTo(g: Shard, root: nat, direction: Direction, k: nat, x: nat) returns (walk: seq<nat>)
    requires x in Ball(g, root, direction, k)
    ensures IsWalk(g, root, direction, walk) && |walk| <= k + 1 && walk[|walk| - 1] == x
  {
    if k == 0 {
      walk := [root];
    } else if x in Ball(g, root, direction, k - 1) {
      walk := WalkTo(g, root, direction, k - 1, x);
    } else {
      var inner := Ball(g, root, direction, k - 1);
      var r :| r in g.relations && Touches(r, inner, direction) && x in Ends(r, direction);
      var y := TouchesOne(r, inner, direction);
      var prefix := WalkTo(g, root, direction, k - 1, y);
      walk := prefix + [x];
      assert OneStep(g, y, x, direction);
      assert forall i :: 0 <= i < |prefix| ==> walk[i] == prefix[i];
    }
  }

  lemma {:induction false} WalkStaysInside(g: Shard, root: nat, direction: Direction, walk: seq<nat>)
    requires IsWalk(g, root, direction, walk)
    ensures walk[|walk| - 1] in Ball(g, root, direction, |walk| - 1)
    decreases |walk|
  {
    if |walk| > 1 {
      var prefix := walk[..|walk| - 1];
      assert forall i :: 0 <= i < |prefix| ==> prefix[i] == walk[i];
      WalkStaysInside(g, root, direction, prefix);
      assert OneStep(g, walk[|walk| - 2], walk[|walk| - 1], direction);
    }
  }

  lemma {:induction false} BallGrows(g: Shard, root: nat, direction: Direction, j: nat, k: nat)
    requires j <= k
    ensures Ball(g, root, direction, j) <= Ball(g, root, direction, k)
    decreases k
  {
    if j < k {
      BallGrows(g, root, direction, j, k - 1);
    }
  }

  // ---- reading the rows of one definition ----

  ghost predicate Leaves(r: Relation, x: nat, direction: Direction) {
    Touches(r, {x}, direction)
  }

  /** The condition on the indexed columns of a row. */
  predicate Selects(r: Relation, x: nat, direction: Direction): (selected: bool)
    ensures selected <==> Leaves(r, x, direction)
  {
    var into := r.target.Resolved? && r.target.id == x;
    match direction
    case Incoming => into && r.calls
    case Outgoing => r.source == x && r.calls
    case Both => (r.source == x && r.calls) || (into && r.calls)
  }

  /** Rows of x, in index order, cut at the limit. */
  ghost predicate IsRead(g: Shard, x: nat, direction: Direction, limit: nat, rows: seq<Relation>) {
    && |rows| <= limit && DistinctIds(rows)
    && (forall k :: 0 <= k < |rows| ==> rows[k] in g.relations && Leaves(rows[k], x, direction))
    && (|rows| < limit ==> forall r :: r in g.relations && Leaves(r, x, direction) ==> r in rows)
  }

  /** None when a poll asked to stop or the rows exceed the read budget; excess lists those rows. */
  method Adjacency(g: Shard, x: nat, direction: Direction, limit: nat, control: Control)
    returns (rows: Option<seq<Relation>>, ghost excess: map<nat, nat>)
    requires DistinctIds(g.relations)
    modifies control
    ensures rows.Some? ==> control.fired == old(control.fired)
    ensures old(control.fired) ==> control.fired
    ensures rows.Some? ==> IsRead(g, x, direction, if limit <= MAX_ROWS then limit else MAX_ROWS, rows.value)
    ensures rows.Some? ==> RowsOf(g, x, direction, excess) && excess.Keys == IdsOf(rows.value) && Total(excess) <= RESPONSE_BYTES
    ensures rows.None? && !control.fired ==> RowsOf(g, x, direction, excess) && Total(excess) > RESPONSE_BYTES
  {
    var cap := if limit <= MAX_ROWS then limit else MAX_ROWS;
    var read: seq<Relation>, bytes: nat := [], 0;
    excess := map[];
    for i := 0 to |g.relations|
      invariant control.fired == old(control.fired)
      invariant ReadSoFar(g, x, direction, cap, i, read, excess) && Total(excess) == bytes <= RESPONSE_BYTES
    {
      var stopped := control.Stopped();
      if stopped { return None, excess; }
      var r := g.relations[i];
      if |read| < cap && Selects(r, x, direction) {
        RowRead(g, x, direction, cap, i, read, excess);
        bytes, excess := bytes + r.size, excess[r.id := r.size];
        if bytes > RESPONSE_BYTES { return None, excess; }
        read := read + [r];
      } else {
        ReadSkips(g, x, direction, cap, i, read, excess);
      }
    }
    AllRead(g, x, direction, cap, read, excess);
    return Some(read), excess;
  }

  /** The rows read from the first i relations, and their sizes. */
  ghost predicate ReadSoFar(g: Shard, x: nat, direction: Direction, cap: nat, i: nat, read: seq<Relation>, excess: map<nat, nat>) {
    && i <= |g.relations| && |read| <= cap && DistinctIds(read)
    && (forall k :: 0 <= k < |read| ==> read[k] in g.relations[..i] && Leaves(read[k], x, direction))
    && (|read| < cap ==> forall k :: 0 <= k < i && Leaves(g.relations[k], x, direction) ==> g.relations[k] in read)
    && RowsOf(g, x, direction, excess) && excess.Keys == IdsOf(read)
  }

  lemma ReadNext(g: Shard, x: nat, direction: Direction, cap: nat, i: nat, read: seq<Relation>, excess: map<nat, nat>)
    requires ReadSoFar(g, x, direction, cap, i, read, excess) && i < |g.relations| && |read| < cap
    requires Leaves(g.relations[i], x, direction) && forall k :: 0 <= k < |read| ==> read[k].id != g.relations[i].id
    requires RowsOf(g, x, direction, excess[g.relations[i].id := g.relations[i].size])
    ensures ReadSoFar(g, x, direction, cap, i + 1, read + [g.relations[i]], excess[g.relations[i].id := g.relations[i].size])
  {
    var r := g.relations[i];
    assert g.relations[..i + 1] == g.relations[..i] + [r];
    assert IdsOf(read + [r]) == IdsOf(read) + {r.id};
  }

  lemma ReadSkips(g: Shard, x: nat, direction: Direction, cap: nat, i: nat, read: seq<Relation>, excess: map<nat, nat>)
    requires ReadSoFar(g, x, direction, cap, i, read, excess) && i < |g.relations|
    requires |read| >= cap || !Leaves(g.relations[i], x, direction)
    ensures ReadSoFar(g, x, direction, cap, i + 1, read, excess)
  {
    assert g.relations[..i + 1] == g.relations[..i] + [g.relations[i]];
  }

  /** One more row: it is new, and its size adds up. */
  lemma RowRead(g: Shard, x: nat, direction: Direction, cap: nat, i: nat, read: seq<Relation>, excess: map<nat, nat>)
    requires DistinctIds(g.relations) && ReadSoFar(g, x, direction, cap, i, read, excess) && i < |g.relations|
    requires |read| < cap && Leaves(g.relations[i], x, direction)
    ensures var r := g.relations[i];
      && ReadSoFar(g, x, direction, cap, i + 1, read + [r], excess[r.id := r.size])
      && RowsOf(g, x, direction, excess[r.id := r.size]) && Total(excess[r.id := r.size]) == Total(excess) + r.size
  {
    NewRow(g, i, read);
    ReadGrows(g, x, direction, excess, g.relations[i]);
    ReadNext(g, x, direction, cap, i, read, excess);
  }

  lemma AllRead(g: Shard, x: nat, direction: Direction, cap: nat, read: seq<Relation>, excess: map<nat, nat>)
    requires ReadSoFar(g, x, direction, cap, |g.relations|, read, excess)
    ensures IsRead(g, x, direction, cap, read)
  {
    assert g.relations[..|g.relations|] == g.relations;
  }

  ghost function IdsOf(rows: seq<Relation>): set<nat> {
    set r | r in rows :: r.id
  }

  /** Sizes of some rows of x. */
  ghost predicate RowsOf(g: Shard, x: nat, direction: Direction, sizes: map<nat, nat>) {
    forall id :: id in sizes ==> IsRowOf(g, x, direction, id, sizes[id])
  }

  ghost predicate IsRowOf(g: Shard, x: nat, direction: Direction, id: nat, size: nat) {
    exists r :: r in g.relations && Leaves(r, x, direction) && r.id == id && r.size == size
  }

  lemma ReadGrows(g: Shard, x: nat, direction: Direction, sizes: map<nat, nat>, r: Relation)
    requires RowsOf(g, x, direction, sizes) && r in g.relations && Leaves(r, x, direction) && r.id !in sizes
    ensures RowsOf(g, x, direction, sizes[r.id := r.size]) && Total(sizes[r.id := r.size]) == Total(sizes) + r.size
  {
    TotalUpdate(sizes, r.id, r.size);
  }

  lemma NewRow(g: Shard, i: nat, read: seq<Relation>)
    requires DistinctIds(g.relations) && i < |g.relations|
    requires forall k :: 0 <= k < |read| ==> read[k] in g.relations[..i]
    ensures forall k :: 0 <= k < |read| ==> read[k].id != g.relations[i].id
    ensures g.relations[i].id !in IdsOf(read)
  {
    forall k | 0 <= k < |read|
      ensures read[k].id != g.relations[i].id
    {
      var j :| 0 <= j < i && g.relations[..i][j] == read[k];
      assert g.relations[j] == read[k];
    }
  }

  // ---- the state of the walk ----

  datatype Entry = Entry(id: nat, depth: nat)

  datatype Walk = Walk(queue: seq<Entry>, visited: set<nat>, nodes: map<nat, nat>, edges: map<nat, Relation>,
                       bytes: nat, truncated: bool)

  ghost function EdgeSizes(edges: map<nat, Relation>): map<nat, nat> {
    map k | k in edges :: edges[k].size
  }

  ghost predicate ValidLimits(request: Request) {
    1 <= request.maxNodes <= 200 && 1 <= request.maxEdges <= 500 && request.depth <= 4
  }

  /** The node, edge and byte budgets. */
  ghost predicate Within(request: Request, w: Walk) {
    && |w.nodes| <= request.maxNodes && |w.edges| <= request.maxEdges
    && w.bytes == 4096 + Total(w.nodes) + Total(EdgeSizes(w.edges)) <= RESPONSE_BYTES
  }

  /** The nodes are stored definitions. */
  ghost predicate Drawn(g: Shard, nodes: map<nat, nat>) {
    forall id :: id in nodes ==> id in g.definitions && g.definitions[id] == nodes[id]
  }

  /** The definitions within each number of steps, and the relations to show. */
  datatype Scope = Scope(balls: seq<set<nat>>, shown: set<Relation>)

  ghost function Near(s: Scope, d: nat): set<nat> {
    if d < |s.balls| then s.balls[d] else {}
  }

  /** What the walk needs to know about its scope: relations of a near definition are shown, and
      lead one step further out. */
  ghost predicate Covers(g: Shard, request: Request, s: Scope) {
    && request.root in Near(s, 0) && (forall r :: r in s.shown ==> r in g.relations)
    && (forall d: nat, x :: d < request.depth && x in Near(s, d) ==> LeadsOut(g, request, s, x, d))
    && forall d: nat :: d <= request.depth ==> Near(s, d) <= Near(s, request.depth)
  }

  ghost predicate LeadsOut(g: Shard, request: Request, s: Scope, x: nat, d: nat) {
    forall r :: r in g.relations && Leaves(r, x, request.direction) ==> LandsIn(request, s, r, d)
  }

  ghost predicate LandsIn(request: Request, s: Scope, r: Relation, d: nat) {
    && r in s.shown && Ends(r, request.direction) <= Near(s, d + 1)
    && Endpoints(r) <= Near(s, request.depth)
  }

  ghost function Ids(shown: set<Relation>): set<nat> {
    set r | r in shown :: r.id
  }

  ghost function RowSize(relations: seq<Relation>, id: nat): nat {
    if relations == [] then 0
    else if relations[|relations| - 1].id == id then relations[|relations| - 1].size
    else RowSize(relations[..|relations| - 1], id)
  }

  ghost function RowSizes(g: Shard, shown: set<Relation>): map<nat, nat> {
    map id | id in Ids(shown) :: RowSize(g.relations, id)
  }

  ghost function DefinitionSizes(g: Shard, ids: set<nat>): map<nat, nat> {
    map id | id in ids && id in g.definitions :: g.definitions[id]
  }

  /** The whole neighborhood is within every budget. */
  ghost predicate Fits(g: Shard, request: Request, s: Scope) {
    && |Near(s, request.depth)| <= request.maxNodes && |Ids(s.shown)| <= request.maxEdges
    && 4096 + Total(DefinitionSizes(g, Near(s, request.depth))) + Total(RowSizes(g, s.shown)) <= RESPONSE_BYTES
  }

  lemma {:induction false} RowSizeIsSize(relations: seq<Relation>, r: Relation)
    requires DistinctIds(relations) && r in relations
    ensures RowSize(relations, r.id) == r.size
  {
    var init, last := relations[..|relations| - 1], relations[|relations| - 1];
    assert relations == init + [last];
    if last.id != r.id {
      assert forall i :: 0 <= i < |init| ==> init[i] == relations[i];
      RowSizeIsSize(init, r);
    } else {
      SameId(relations, r, last);
    }
  }

  /** A part of a map weighs no more than the whole. */
  lemma {:induction false} TotalOfPart(part: map<nat, nat>, whole: map<nat, nat>)
    requires forall k :: k in part ==> k in whole && whole[k] == part[k]
    ensures Total(part) <= Total(whole)
    decreases |part|
  {
    if part != map[] {
      var k :| k in part;
      TotalSplit(part, k);
      TotalSplit(whole, k);
      TotalOfPart(part - {k}, whole - {k});
    }
  }

  /** Everything collected belongs to the neighborhood, and no relation dangles. */
  ghost predicate Inside(g: Shard, request: Request, s: Scope, w: Walk, at: map<nat, nat>) {
    && w.nodes.Keys <= Near(s, request.depth) && request.root in w.nodes
    && Drawn(g, w.nodes)
    && (forall k :: k in w.edges ==>
          w.edges[k].id == k && w.edges[k] in s.shown && Endpoints(w.edges[k]) <= w.nodes.Keys)
    && (forall i :: 0 <= i < |w.queue| ==>
          w.queue[i].id in w.nodes && w.queue[i].id in Near(s, w.queue[i].depth))
    && at.Keys == w.visited
    && (forall x :: x in at ==> x in w.nodes && at[x] < request.depth && x in Near(s, at[x]))
  }

  /** Breadth first: the queue is sorted and spans at most two depths, starting no earlier than now. */
  ghost predicate Layered(w: Walk, at: map<nat, nat>, now: nat) {
    InLayers(w.queue, now) && forall x :: x in at ==> at[x] <= now
  }

  ghost predicate InLayers(queue: seq<Entry>, now: nat) {
    && (forall i, j :: 0 <= i <= j < |queue| ==> queue[i].depth <= queue[j].depth)
    && forall i :: 0 <= i < |queue| ==> now <= queue[i].depth <= now + 1
  }

  /** y was or will be expanded at depth d or less, unless d is beyond the requested depth. */
  ghost predicate Handled(request: Request, w: Walk, at: map<nat, nat>, y: nat, d: nat) {
    (y in at && at[y] <= d) || Waiting(w.queue, y, d) || d >= request.depth
  }

  ghost predicate Waiting(queue: seq<Entry>, y: nat, d: nat) {
    exists i :: 0 <= i < |queue| && queue[i].id == y && queue[i].depth <= d
  }

  ghost predicate FollowedRelation(request: Request, w: Walk, at: map<nat, nat>, r: Relation, d: nat) {
    r.id in w.edges && w.edges[r.id] == r && forall y :: y in Ends(r, request.direction) ==> Handled(request, w, at, y, d)
  }

  /** Until something was left out, every relation of a visited definition is kept and followed. */
  ghost predicate Followed(g: Shard, request: Request, w: Walk, at: map<nat, nat>, now: nat, pending: set<nat>) {
    && Handled(request, w, at, request.root, 0)
    && (forall k :: k in w.edges ==> FollowedRelation(request, w, at, w.edges[k], now + 1))
    && forall x, r :: x in at && x !in pending && r in g.relations && Leaves(r, x, request.direction) ==>
         FollowedRelation(request, w, at, r, at[x] + 1)
  }

  ghost predicate Good(g: Shard, request: Request, s: Scope, w: Walk, at: map<nat, nat>, now: nat, pending: set<nat>) {
    && Within(request, w) && Inside(g, request, s, w, at) && Layered(w, at, now)
    && (w.truncated || Followed(g, request, w, at, now, pending))
  }

  // ---- taking one entry off the queue ----

  ghost function Popped(w: Walk): Walk
    requires w.queue != []
  {
    w.(queue := w.queue[1..])
  }

  lemma HandledLater(request: Request, w: Walk, at: map<nat, nat>, y: nat, d: nat, d': nat)
    requires Handled(request, w, at, y, d) && d <= d'
    ensures Handled(request, w, at, y, d')
  {
  }

  lemma WaitingBehind(queue: seq<Entry>, y: nat, d: nat)
    requires queue != [] && Waiting(queue, y, d)
    ensures Waiting(queue[1..], y, d) || (queue[0].id == y && queue[0].depth <= d)
  {
    var i :| 0 <= i < |queue| && queue[i].id == y && queue[i].depth <= d;
    if i > 0 {
      assert queue[1..][i - 1] == queue[i];
    }
  }

  /** Facts about followed relations survive any change that keeps what was handled. */
  lemma FollowedTransfers(g: Shard, request: Request, w: Walk, at: map<nat, nat>, now: nat, pending: set<nat>,
                          w': Walk, at': map<nat, nat>, now': nat, pending': set<nat>)
    requires Followed(g, request, w, at, now, pending) && w'.edges == w.edges && now <= now'
    requires forall y, d :: Handled(request, w, at, y, d) ==> Handled(request, w', at', y, d)
    requires forall x :: x in at' && x !in pending' ==> x in at && x !in pending && at'[x] == at[x]
    ensures Followed(g, request, w', at', now', pending')
  {
    forall k | k in w'.edges
      ensures FollowedRelation(request, w', at', w'.edges[k], now' + 1)
    {
      assert FollowedRelation(request, w, at, w.edges[k], now + 1);
      forall y | y in Ends(w.edges[k], request.direction)
        ensures Handled(request, w', at', y, now' + 1)
      {
        HandledLater(request, w', at', y, now + 1, now' + 1);
      }
    }
    forall x, r | x in at' && x !in pending' && r in g.relations && Leaves(r, x, request.direction)
      ensures FollowedRelation(request, w', at', r, at'[x] + 1)
    {
      assert FollowedRelation(request, w, at, r, at[x] + 1);
    }
  }

  /** A skipped entry was beyond the depth, or its definition was visited no later. */
  lemma SkipKeepsGood(g: Shard, request: Request, s: Scope, w: Walk, at: map<nat, nat>, now: nat)
    requires w.queue != [] && Good(g, request, s, w, at, now, {})
    requires w.queue[0].depth >= request.depth || w.queue[0].id in w.visited
    ensures Good(g, request, s, Popped(w), at, w.queue[0].depth, {})
  {
    var w', now' := Popped(w), w.queue[0].depth;
    PopKeepsPlaces(g, request, s, w, at, now);
    if !w.truncated {
      forall y, d | Handled(request, w, at, y, d)
        ensures Handled(request, w', at, y, d)
      {
        if Waiting(w.queue, y, d) { WaitingBehind(w.queue, y, d); }
      }
      FollowedTransfers(g, request, w, at, now, {}, w', at, now', {});
    }
  }

  lemma PopKeepsPlaces(g: Shard, request: Request, s: Scope, w: Walk, at: map<nat, nat>, now: nat)
    requires w.queue != [] && Inside(g, request, s, w, at) && Layered(w, at, now)
    ensures Inside(g, request, s, Popped(w), at) && Layered(Popped(w), at, w.queue[0].depth) && now <= w.queue[0].depth
  {
    var rest := w.queue[1..];
    assert forall i :: 0 <= i < |rest| ==> rest[i] == w.queue[i + 1];
  }

  /** The popped definition is marked visited before its relations are read. */
  lemma VisitKeepsGood(g: Shard, request: Request, s: Scope, w: Walk, at: map<nat, nat>, now: nat)
    requires w.queue != [] && Good(g, request, s, w, at, now, {})
    requires w.queue[0].depth < request.depth && w.queue[0].id !in w.visited
    ensures var x, d := w.queue[0].id, w.queue[0].depth;
      Good(g, request, s, Popped(w).(visited := w.visited + {x}), at[x := d], d, {x})
  {
    var x, d := w.queue[0].id, w.queue[0].depth;
    var w', at' := Popped(w).(visited := w.visited + {x}), at[x := d];
    PopKeepsPlaces(g, request, s, w, at, now);
    MarkKeepsPlaces(g, request, s, Popped(w), at, x, d);
    if !w.truncated {
      forall y, e | Handled(request, w, at, y, e)
        ensures Handled(request, w', at', y, e)
      {
        VisitHandled(request, w, at, y, e);
      }
      FollowedTransfers(g, request, w, at, now, {}, w', at', d, {x});
    }
  }

  lemma MarkKeepsPlaces(g: Shard, request: Request, s: Scope, w: Walk, at: map<nat, nat>, x: nat, d: nat)
    requires Inside(g, request, s, w, at) && Layered(w, at, d) && x in w.nodes && x !in w.visited
    requires d < request.depth && x in Near(s, d)
    ensures Inside(g, request, s, w.(visited := w.visited + {x}), at[x := d])
    ensures Layered(w.(visited := w.visited + {x}), at[x := d], d)
  {
  }

  lemma VisitHandled(request: Request, w: Walk, at: map<nat, nat>, y: nat, e: nat)
    requires w.queue != [] && w.queue[0].id !in at && Handled(request, w, at, y, e)
    ensures Handled(request, Popped(w).(visited := w.visited + {w.queue[0].id}), at[w.queue[0].id := w.queue[0].depth], y, e)
  {
    if Waiting(w.queue, y, e) { WaitingBehind(w.queue, y, e); }
  }

  // ---- adding one relation ----

  /** The end points of r that are not shown yet. */
  function Required(nodes: map<nat, nat>, r: Relation): (required: seq<nat>)
    ensures forall id :: id in required <==> id in Endpoints(r) && id !in nodes
    ensures |required| <= 2 && (|required| == 2 ==> required[0] != required[1])
  {
    var sources := if r.source in nodes then [] else [r.source];
    if r.target.Resolved? && r.target.id !in nodes && r.target.id !in sources then sources + [r.target.id] else sources
  }

  ghost function Sizes(g: Shard, ids: seq<nat>): nat
    requires forall id :: id in ids ==> id in g.definitions
  {
    if ids == [] then 0 else Sizes(g, ids[..|ids| - 1]) + g.definitions[ids[|ids| - 1]]
  }

  ghost function AddAll(g: Shard, nodes: map<nat, nat>, ids: seq<nat>): map<nat, nat>
    requires forall id :: id in ids ==> id in g.definitions
  {
    nodes + map id | id in ids :: g.definitions[id]
  }

  lemma AddLast(g: Shard, nodes: map<nat, nat>, ids: seq<nat>)
    requires ids != [] && forall id :: id in ids ==> id in g.definitions
    ensures AddAll(g, nodes, ids) == AddAll(g, nodes, ids[..|ids| - 1])[ids[|ids| - 1] := g.definitions[ids[|ids| - 1]]]
  {
    var init, last := ids[..|ids| - 1], ids[|ids| - 1];
    assert ids == init + [last];
  }

  lemma {:induction false} AddAllIsExact(g: Shard, nodes: map<nat, nat>, ids: seq<nat>)
    requires forall id :: id in ids ==> id in g.definitions
    requires forall i :: 0 <= i < |ids| ==> ids[i] !in nodes
    requires forall i, j :: 0 <= i < j < |ids| ==> ids[i] != ids[j]
    ensures |AddAll(g, nodes, ids)| == |nodes| + |ids|
    ensures Total(AddAll(g, nodes, ids)) == Total(nodes) + Sizes(g, ids)
  {
    if ids == [] {
      assert AddAll(g, nodes, ids) == nodes;
    } else {
      var init, last := ids[..|ids| - 1], ids[|ids| - 1];
      assert forall i :: 0 <= i < |init| ==> init[i] == ids[i];
      AddAllIsExact(g, nodes, init);
      AddLast(g, nodes, ids);
      TotalUpdate(AddAll(g, nodes, init), last, g.definitions[last]);
      assert last !in AddAll(g, nodes, init);
    }
  }

  /** A relation of the shard names a definition that is not stored. */
  ghost predicate Dangling(g: Shard) {
    exists r :: r in g.relations && !(Endpoints(r) <= g.definitions.Keys)
  }

  /** The only ways in which a walk can fail. */
  ghost predicate WalkError(g: Shard, error: Error, fired: bool) {
    (error == Unavailable && Dangling(g)) || (error == BudgetExhausted && fired)
  }

  /** The total size of the definitions to be added. */
  method Fetch(g: Shard, required: seq<nat>, control: Control) returns (bytes: Result<nat, Error>)
    modifies control
    ensures bytes.Ok? ==> control.fired == old(control.fired)
    ensures old(control.fired) ==> control.fired
    ensures bytes.Err? ==>
      (bytes.error == Unavailable && exists id :: id in required && id !in g.definitions)
      || (bytes.error == BudgetExhausted && control.fired)
    ensures bytes.Ok? ==> (forall id :: id in required ==> id in g.definitions) && bytes.value == Sizes(g, required)
  {
    var total := 0;
    for i := 0 to |required|
      invariant control.fired == old(control.fired)
      invariant forall id :: id in required[..i] ==> id in g.definitions
      invariant total == Sizes(g, required[..i])
    {
      var stop := control.Stopped();
      if stop { return Err(BudgetExhausted); }
      if required[i] !in g.definitions { return Err(Unavailable); }
      assert required[..i + 1] == required[..i] + [required[i]];
      assert required[..i + 1][..i] == required[..i];
      total := total + g.definitions[required[i]];
    }
    assert required[..|required|] == required;
    return Ok(total);
  }

  method Insert(g: Shard, nodes: map<nat, nat>, required: seq<nat>) returns (after: map<nat, nat>)
    requires forall id :: id in required ==> id in g.definitions
    ensures after == AddAll(g, nodes, required)
  {
    after := nodes;
    for i := 0 to |required|
      invariant after == AddAll(g, nodes, required[..i])
    {
      assert required[..i + 1][..i] == required[..i];
      AddLast(g, nodes, required[..i + 1]);
      after := after[required[i] := g.definitions[required[i]]];
    }
    assert required[..|required|] == required;
  }

  /** What is queued after a relation is followed at depth d. */
  ghost function Pushed(r: Relation, direction: Direction, d: nat): seq<Entry> {
    var target := if r.target.Resolved? then [Entry(r.target.id, d)] else [];
    match direction
    case Incoming => [Entry(r.source, d)]
    case Outgoing => target
    case Both => [Entry(r.source, d)] + target
  }

  ghost function Added(g: Shard, request: Request, w: Walk, r: Relation, d: nat): Walk
    requires forall id :: id in Required(w.nodes, r) ==> id in g.definitions
  {
    w.(nodes := AddAll(g, w.nodes, Required(w.nodes, r)),
       edges := w.edges[r.id := r],
       queue := w.queue + Pushed(r, request.direction, d),
       bytes := w.bytes + r.size + Sizes(g, Required(w.nodes, r)))
  }

  /** A later state of the same expansion. */
  ghost predicate Extends(w: Walk, w': Walk) {
    && w'.visited == w.visited && w.queue <= w'.queue && w.edges.Keys <= w'.edges.Keys
    && (forall k :: k in w.edges ==> w'.edges[k] == w.edges[k])
    && (w.truncated ==> w'.truncated)
    && |w'.queue| + 2 * |w.edges| <= |w.queue| + 2 * |w'.edges|
  }

  lemma ExtendsHandled(request: Request, w: Walk, w': Walk, at: map<nat, nat>, y: nat, d: nat)
    requires Extends(w, w') && Handled(request, w, at, y, d)
    ensures Handled(request, w', at, y, d)
  {
    if Waiting(w.queue, y, d) {
      var i :| 0 <= i < |w.queue| && w.queue[i].id == y && w.queue[i].depth <= d;
      assert w'.queue[i] == w.queue[i];
    }
  }

  lemma ExtendsFollowed(request: Request, w: Walk, w': Walk, at: map<nat, nat>, r: Relation, d: nat)
    requires Extends(w, w') && FollowedRelation(request, w, at, r, d)
    ensures FollowedRelation(request, w', at, r, d)
  {
    forall y | y in Ends(r, request.direction)
      ensures Handled(request, w', at, y, d)
    {
      ExtendsHandled(request, w, w', at, y, d);
    }
  }

  lemma ExtendsChains(a: Walk, b: Walk, c: Walk)
    requires Extends(a, b) && Extends(b, c)
    ensures Extends(a, c)
  {
  }

  /** The definition being expanded, and one of its relations. */
  ghost predicate Expanding(g: Shard, request: Request, at: map<nat, nat>, x: nat, d: nat, r: Relation) {
    x in at && at[x] == d && r in g.relations && Leaves(r, x, request.direction)
  }

  lemma RequiredAdds(g: Shard, nodes: map<nat, nat>, r: Relation)
    requires forall id :: id in Required(nodes, r) ==> id in g.definitions
    ensures var required := Required(nodes, r);
      && |AddAll(g, nodes, required)| == |nodes| + |required|
      && Total(AddAll(g, nodes, required)) == Total(nodes) + Sizes(g, required)
  {
    var required := Required(nodes, r);
    assert forall i :: 0 <= i < |required| ==> required[i] in required;
    AddAllIsExact(g, nodes, required);
  }

  lemma AddedWithin(g: Shard, request: Request, w: Walk, r: Relation, d: nat)
    requires Within(request, w) && r.id !in w.edges && |w.edges| < request.maxEdges
    requires forall id :: id in Required(w.nodes, r) ==> id in g.definitions
    requires |w.nodes| + |Required(w.nodes, r)| <= request.maxNodes
    requires w.bytes + r.size + Sizes(g, Required(w.nodes, r)) <= RESPONSE_BYTES
    ensures Within(request, Added(g, request, w, r, d))
  {
    var required := Required(w.nodes, r);
    RequiredAdds(g, w.nodes, r);
    EdgeSizesGrow(w.edges, r);
    GrownWithin(request, w, AddAll(g, w.nodes, required), r, w.queue + Pushed(r, request.direction, d),
                w.bytes + r.size + Sizes(g, required));
  }

  lemma EdgeSizesGrow(edges: map<nat, Relation>, r: Relation)
    requires r.id !in edges
    ensures Total(EdgeSizes(edges[r.id := r])) == Total(EdgeSizes(edges)) + r.size
  {
    TotalUpdate(EdgeSizes(edges), r.id, r.size);
    assert EdgeSizes(edges[r.id := r]) == EdgeSizes(edges)[r.id := r.size];
  }

  lemma GrownWithin(request: Request, w: Walk, nodes: map<nat, nat>, r: Relation, queue: seq<Entry>, bytes: nat)
    requires Within(request, w) && r.id !in w.edges && |w.edges| < request.maxEdges && |nodes| <= request.maxNodes
    requires Total(EdgeSizes(w.edges[r.id := r])) == Total(EdgeSizes(w.edges)) + r.size
    requires bytes - w.bytes == r.size + Total(nodes) - Total(w.nodes) && bytes <= RESPONSE_BYTES
    ensures Within(request, w.(nodes := nodes, edges := w.edges[r.id := r], queue := queue, bytes := bytes))
  {
  }

  lemma PushedInside(s: Scope, direction: Direction, r: Relation, d: nat, nodes: map<nat, nat>)
    requires Ends(r, direction) <= Near(s, d) && Endpoints(r) <= nodes.Keys
    ensures forall i :: 0 <= i < |Pushed(r, direction, d)| ==>
      var e := Pushed(r, direction, d)[i]; e.id in nodes && e.depth == d && e.id in Near(s, e.depth)
  {
  }

  lemma AddedInside(g: Shard, request: Request, s: Scope, w: Walk, at: map<nat, nat>, x: nat, d: nat, r: Relation)
    requires Covers(g, request, s) && Inside(g, request, s, w, at) && Expanding(g, request, at, x, d, r)
    requires forall id :: id in Required(w.nodes, r) ==> id in g.definitions
    ensures Inside(g, request, s, Added(g, request, w, r, d + 1), at)
  {
    assert LeadsOut(g, request, s, x, d);
    assert LandsIn(request, s, r, d);
    var required := Required(w.nodes, r);
    RequiredNodes(g, w.nodes, r);
    AddedNodes(g, request, s, w, at, d, r, AddAll(g, w.nodes, required), w.bytes + r.size + Sizes(g, required));
  }

  lemma RequiredNodes(g: Shard, nodes: map<nat, nat>, r: Relation)
    requires forall id :: id in Required(nodes, r) ==> id in g.definitions
    requires Drawn(g, nodes)
    ensures var after := AddAll(g, nodes, Required(nodes, r));
      after.Keys == nodes.Keys + Endpoints(r) && Drawn(g, after)
  {
    var after := AddAll(g, nodes, Required(nodes, r));
    assert forall id :: id in after <==> id in nodes || id in Required(nodes, r);
  }

  lemma AddedNodes(g: Shard, request: Request, s: Scope, w: Walk, at: map<nat, nat>, d: nat, r: Relation,
                   nodes: map<nat, nat>, bytes: nat)
    requires Inside(g, request, s, w, at) && LandsIn(request, s, r, d)
    requires nodes.Keys == w.nodes.Keys + Endpoints(r) && Drawn(g, nodes)
    ensures Inside(g, request, s, w.(nodes := nodes, edges := w.edges[r.id := r],
                                     queue := w.queue + Pushed(r, request.direction, d + 1), bytes := bytes), at)
  {
    PushedInside(s, request.direction, r, d + 1, nodes);
  }

  lemma AddedLayered(g: Shard, request: Request, w: Walk, at: map<nat, nat>, d: nat, r: Relation)
    requires Layered(w, at, d) && forall id :: id in Required(w.nodes, r) ==> id in g.definitions
    ensures Layered(Added(g, request, w, r, d + 1), at, d)
  {
    AppendLayered(w.queue, Pushed(r, request.direction, d + 1), d);
  }

  lemma AppendLayered(queue: seq<Entry>, pushed: seq<Entry>, d: nat)
    requires InLayers(queue, d) && forall i :: 0 <= i < |pushed| ==> pushed[i].depth == d + 1
    ensures InLayers(queue + pushed, d)
  {
  }

  lemma PushedSize(r: Relation, direction: Direction, d: nat)
    ensures |Pushed(r, direction, d)| <= 2
  {
  }

  lemma AddedExtends(g: Shard, request: Request, w: Walk, d: nat, r: Relation)
    requires r.id !in w.edges && forall id :: id in Required(w.nodes, r) ==> id in g.definitions
    ensures Extends(w, Added(g, request, w, r, d))
  {
    PushedSize(r, request.direction, d);
  }

  lemma AddedFollows(g: Shard, request: Request, w: Walk, at: map<nat, nat>, d: nat, r: Relation)
    requires r.id !in w.edges && forall id :: id in Required(w.nodes, r) ==> id in g.definitions
    ensures Extends(w, Added(g, request, w, r, d))
    ensures FollowedRelation(request, Added(g, request, w, r, d), at, r, d)
  {
    AddedExtends(g, request, w, d, r);
    forall y | y in Ends(r, request.direction)
      ensures Handled(request, Added(g, request, w, r, d), at, y, d)
    {
      PushedWaits(w.queue, r, request.direction, d, y);
    }
  }

  lemma PushedWaits(queue: seq<Entry>, r: Relation, direction: Direction, d: nat, y: nat)
    requires y in Ends(r, direction)
    ensures Waiting(queue + Pushed(r, direction, d), y, d)
  {
    var pushed := Pushed(r, direction, d);
    var i := if |pushed| == 2 && pushed[0].id != y then 1 else 0;
    assert (queue + pushed)[|queue| + i] == pushed[i];
  }

  // ---- why something is left out ----

  /** What the state and the relation at hand say together about the scope. */
  ghost predicate Candidate(g: Shard, request: Request, s: Scope, w: Walk, r: Relation) {
    && DistinctIds(g.relations) && r in g.relations && r in s.shown && Endpoints(r) <= Near(s, request.depth)
    && (forall e :: e in s.shown ==> e in g.relations)
    && w.nodes.Keys <= Near(s, request.depth) && Drawn(g, w.nodes)
    && (forall k :: k in w.edges ==> w.edges[k].id == k && w.edges[k] in s.shown)
    && w.bytes == 4096 + Total(w.nodes) + Total(EdgeSizes(w.edges))
  }

  lemma ExpandingIsCandidate(g: Shard, request: Request, s: Scope, w: Walk, at: map<nat, nat>, x: nat, d: nat, r: Relation)
    requires DistinctIds(g.relations) && Covers(g, request, s) && Within(request, w) && Inside(g, request, s, w, at)
    requires Expanding(g, request, at, x, d, r)
    ensures Candidate(g, request, s, w, r)
  {
    assert LeadsOut(g, request, s, x, d);
    assert LandsIn(request, s, r, d);
  }

  lemma EdgesDoNotFit(g: Shard, request: Request, s: Scope, w: Walk, r: Relation)
    requires Candidate(g, request, s, w, r) && r.id !in w.edges && |w.edges| >= request.maxEdges
    ensures !Fits(g, request, s)
  {
    forall k | k in w.edges.Keys + {r.id}
      ensures k in Ids(s.shown)
    {
      assert k in w.edges ==> w.edges[k] in s.shown;
    }
    SubsetSize(w.edges.Keys + {r.id}, Ids(s.shown));
  }

  lemma NodesDoNotFit(g: Shard, request: Request, s: Scope, w: Walk, r: Relation)
    requires Candidate(g, request, s, w, r) && |w.nodes| + |Required(w.nodes, r)| > request.maxNodes
    ensures !Fits(g, request, s)
  {
    RequiredCount(w.nodes, r);
    SubsetSize(w.nodes.Keys + Endpoints(r), Near(s, request.depth));
  }

  ghost function Members(ids: seq<nat>): set<nat> {
    set id | id in ids
  }

  lemma PairSize(ids: seq<nat>)
    requires |ids| <= 2 && (|ids| == 2 ==> ids[0] != ids[1])
    ensures |Members(ids)| == |ids|
  {
    if |ids| == 0 {
      assert Members(ids) == {};
    } else if |ids| == 1 {
      assert Members(ids) == {ids[0]};
    } else {
      assert Members(ids) == {ids[0], ids[1]};
    }
  }

  lemma EndpointsSplit(nodes: map<nat, nat>, r: Relation)
    ensures nodes.Keys + Endpoints(r) == nodes.Keys + Members(Required(nodes, r))
    ensures nodes.Keys !! Members(Required(nodes, r))
  {
  }

  lemma DisjointSize<T>(a: set<T>, b: set<T>)
    requires a !! b
    ensures |a + b| == |a| + |b|
  {
  }

  lemma RequiredCount(nodes: map<nat, nat>, r: Relation)
    ensures |nodes.Keys + Endpoints(r)| == |nodes| + |Required(nodes, r)|
  {
    EndpointsSplit(nodes, r);
    PairSize(Required(nodes, r));
    DisjointSize(nodes.Keys, Members(Required(nodes, r)));
  }

  lemma BytesDoNotFit(g: Shard, request: Request, s: Scope, w: Walk, r: Relation)
    requires Candidate(g, request, s, w, r) && r.id !in w.edges
    requires forall id :: id in Required(w.nodes, r) ==> id in g.definitions
    requires w.bytes + r.size + Sizes(g, Required(w.nodes, r)) > RESPONSE_BYTES
    ensures !Fits(g, request, s)
  {
    var required := Required(w.nodes, r);
    RequiredNodes(g, w.nodes, r);
    RequiredAdds(g, w.nodes, r);
    EdgeSizesGrow(w.edges, r);
    NodesArePart(g, s, request, AddAll(g, w.nodes, required));
    EdgesArePart(g, request, s, w, r);
  }

  lemma NodesArePart(g: Shard, s: Scope, request: Request, nodes: map<nat, nat>)
    requires Drawn(g, nodes) && nodes.Keys <= Near(s, request.depth)
    ensures Total(nodes) <= Total(DefinitionSizes(g, Near(s, request.depth)))
  {
    TotalOfPart(nodes, DefinitionSizes(g, Near(s, request.depth)));
  }

  lemma EdgesArePart(g: Shard, request: Request, s: Scope, w: Walk, r: Relation)
    requires Candidate(g, request, s, w, r)
    ensures Total(EdgeSizes(w.edges[r.id := r])) <= Total(RowSizes(g, s.shown))
  {
    var sizes := EdgeSizes(w.edges[r.id := r]);
    forall k | k in sizes
      ensures k in RowSizes(g, s.shown) && RowSizes(g, s.shown)[k] == sizes[k]
    {
      RowSizeIsSize(g.relations, w.edges[r.id := r][k]);
    }
    TotalOfPart(sizes, RowSizes(g, s.shown));
  }

  lemma RowsDoNotFit(g: Shard, request: Request, s: Scope, x: nat, d: nat, sizes: map<nat, nat>)
    requires DistinctIds(g.relations) && Covers(g, request, s) && x in Near(s, d) && d < request.depth
    requires RowsOf(g, x, request.direction, sizes) && Total(sizes) > RESPONSE_BYTES
    ensures !Fits(g, request, s)
  {
    assert LeadsOut(g, request, s, x, d);
    forall k | k in sizes
      ensures k in RowSizes(g, s.shown) && RowSizes(g, s.shown)[k] == sizes[k]
    {
      assert IsRowOf(g, x, request.direction, k, sizes[k]);
      var r :| r in g.relations && Leaves(r, x, request.direction) && r.id == k && r.size == sizes[k];
      assert LandsIn(request, s, r, d);
      RowSizeIsSize(g.relations, r);
    }
    TotalOfPart(sizes, RowSizes(g, s.shown));
  }

  // ---- the walk ----

  /** Whether this relation, and everything it needs, can still be shown. */
  datatype Step = Keep(bytes: nat) | LeaveOut | Halt

  lemma MissingIsDangling(g: Shard, nodes: map<nat, nat>, r: Relation, id: nat)
    requires r in g.relations && id in Required(nodes, r) && id !in g.definitions
    ensures Dangling(g)
  {
    assert id in Endpoints(r);
  }

  /** The relation ends the walk: the answer holds as many relations or bytes as it may. One with too
      many new definitions is only left out. */
  ghost predicate Blocked(g: Shard, request: Request, w: Walk, r: Relation) {
    || |w.edges| >= request.maxEdges
    || (|w.nodes| + |Required(w.nodes, r)| <= request.maxNodes && (forall id :: id in Required(w.nodes, r) ==> id in g.definitions)
        && w.bytes + r.size + Sizes(g, Required(w.nodes, r)) > RESPONSE_BYTES)
  }

  method Admit(g: Shard, request: Request, w: Walk, r: Relation, ghost s: Scope, control: Control) returns (step: Result<Step, Error>)
    requires Candidate(g, request, s, w, r) && r.id !in w.edges
    modifies control
    ensures old(control.fired) ==> control.fired
    ensures step.Ok? ==> (step.value.Halt? <==> Blocked(g, request, w, r))
    ensures step.Ok? ==> control.fired == old(control.fired)
    ensures step.Err? ==> WalkError(g, step.error, control.fired)
    ensures step.Ok? && step.value.Keep? ==>
      && |w.edges| < request.maxEdges && |w.nodes| + |Required(w.nodes, r)| <= request.maxNodes
      && (forall id :: id in Required(w.nodes, r) ==> id in g.definitions)
      && step.value.bytes == w.bytes + r.size + Sizes(g, Required(w.nodes, r)) <= RESPONSE_BYTES
    ensures step.Ok? && !step.value.Keep? ==> !Fits(g, request, s)
  {
    if |w.edges| >= request.maxEdges {
      EdgesDoNotFit(g, request, s, w, r);
      return Ok(Halt);
    }
    var required := Required(w.nodes, r);
    if |w.nodes| + |required| > request.maxNodes {
      NodesDoNotFit(g, request, s, w, r);
      return Ok(LeaveOut);
    }
    var fetched := Fetch(g, required, control);
    if fetched.Err? {
      if fetched.error == Unavailable {
        var id :| id in required && id !in g.definitions;
        MissingIsDangling(g, w.nodes, r, id);
      }
      return Err(fetched.error);
    }
    var bytes := w.bytes + r.size + fetched.value;
    if bytes > RESPONSE_BYTES {
      BytesDoNotFit(g, request, s, w, r);
      return Ok(Halt);
    }
    return Ok(Keep(bytes));
  }

  ghost predicate FollowedRows(request: Request, w: Walk, at: map<nat, nat>, rows: seq<Relation>, n: nat, d: nat) {
    n <= |rows| && forall k :: 0 <= k < n ==> FollowedRelation(request, w, at, rows[k], d)
  }

  lemma TruncatedIsGood(g: Shard, request: Request, s: Scope, w: Walk, at: map<nat, nat>, now: nat, pending: set<nat>)
    requires Good(g, request, s, w, at, now, pending)
    ensures Good(g, request, s, w.(truncated := true), at, now, pending)
  {
  }

  /** A known relation leads back to something already handled. */
  lemma KnownIsFollowed(g: Shard, request: Request, s: Scope, w: Walk, at: map<nat, nat>, d: nat, pending: set<nat>, r: Relation)
    requires Good(g, request, s, w, at, d, pending) && !w.truncated && r.id in w.edges && r in g.relations
    requires DistinctIds(g.relations) && Covers(g, request, s)
    ensures FollowedRelation(request, w, at, r, d + 1)
  {
    var k := r.id;
    assert w.edges[k] in g.relations && w.edges[k].id == r.id;
    SameId(g.relations, w.edges[k], r);
    assert FollowedRelation(request, w, at, w.edges[k], d + 1);
  }

  lemma SameId(relations: seq<Relation>, a: Relation, b: Relation)
    requires DistinctIds(relations) && a in relations && b in relations && a.id == b.id
    ensures a == b
  {
  }

  lemma AddedIsGood(g: Shard, request: Request, s: Scope, w: Walk, at: map<nat, nat>, x: nat, d: nat, pending: set<nat>, r: Relation)
    requires Covers(g, request, s) && Good(g, request, s, w, at, d, pending)
    requires Expanding(g, request, at, x, d, r) && r.id !in w.edges
    requires |w.edges| < request.maxEdges && |w.nodes| + |Required(w.nodes, r)| <= request.maxNodes
    requires forall id :: id in Required(w.nodes, r) ==> id in g.definitions
    requires w.bytes + r.size + Sizes(g, Required(w.nodes, r)) <= RESPONSE_BYTES
    ensures Good(g, request, s, Added(g, request, w, r, d + 1), at, d, pending)
  {
    var w' := Added(g, request, w, r, d + 1);
    AddedWithin(g, request, w, r, d + 1);
    AddedInside(g, request, s, w, at, x, d, r);
    AddedLayered(g, request, w, at, d, r);
    AddedFollows(g, request, w, at, d + 1, r);
    if !w.truncated {
      ExtendedFollowed(g, request, w, w', at, d, pending, r);
    }
  }

  lemma ExtendedFollowed(g: Shard, request: Request, w: Walk, w': Walk, at: map<nat, nat>, d: nat, pending: set<nat>, r: Relation)
    requires Followed(g, request, w, at, d, pending) && Extends(w, w') && w'.edges == w.edges[r.id := r]
    requires FollowedRelation(request, w', at, r, d + 1)
    ensures Followed(g, request, w', at, d, pending)
  {
    ExtendsHandled(request, w, w', at, request.root, 0);
    forall k | k in w'.edges
      ensures FollowedRelation(request, w', at, w'.edges[k], d + 1)
    {
      if k != r.id { ExtendsFollowed(request, w, w', at, w.edges[k], d + 1); }
    }
    forall x, e | x in at && x !in pending && e in g.relations && Leaves(e, x, request.direction)
      ensures FollowedRelation(request, w', at, e, at[x] + 1)
    {
      ExtendsFollowed(request, w, w', at, e, at[x] + 1);
    }
  }

  lemma RowsStayFollowed(request: Request, w: Walk, w': Walk, at: map<nat, nat>, rows: seq<Relation>, n: nat, d: nat)
    requires FollowedRows(request, w, at, rows, n, d) && Extends(w, w')
    ensures FollowedRows(request, w', at, rows, n, d)
  {
    forall k | 0 <= k < n
      ensures FollowedRelation(request, w', at, rows[k], d)
    {
      ExtendsFollowed(request, w, w', at, rows[k], d);
    }
  }

  /** What one relation of the definition being expanded does to the walk. */
  ghost predicate Progress(g: Shard, request: Request, s: Scope, w: Walk, w': Walk, at: map<nat, nat>, x: nat, d: nat, r: Relation) {
    && Good(g, request, s, w', at, d, {x}) && Extends(w, w')
    && (!w'.truncated ==> FollowedRelation(request, w', at, r, d + 1))
  }

  lemma KnownProgress(g: Shard, request: Request, s: Scope, w: Walk, at: map<nat, nat>, x: nat, d: nat, r: Relation)
    requires DistinctIds(g.relations) && Covers(g, request, s) && Good(g, request, s, w, at, d, {x})
    requires r in g.relations && r.id in w.edges
    ensures Progress(g, request, s, w, w, at, x, d, r)
  {
    if !w.truncated { KnownIsFollowed(g, request, s, w, at, d, {x}, r); }
  }

  lemma AddedProgress(g: Shard, request: Request, s: Scope, w: Walk, at: map<nat, nat>, x: nat, d: nat, r: Relation)
    requires Covers(g, request, s) && Good(g, request, s, w, at, d, {x})
    requires Expanding(g, request, at, x, d, r) && r.id !in w.edges
    requires |w.edges| < request.maxEdges && |w.nodes| + |Required(w.nodes, r)| <= request.maxNodes
    requires forall id :: id in Required(w.nodes, r) ==> id in g.definitions
    requires w.bytes + r.size + Sizes(g, Required(w.nodes, r)) <= RESPONSE_BYTES
    ensures Progress(g, request, s, w, Added(g, request, w, r, d + 1), at, x, d, r)
  {
    AddedIsGood(g, request, s, w, at, x, d, {x}, r);
    AddedFollows(g, request, w, at, d + 1, r);
  }

  method Add(g: Shard, request: Request, w: Walk, r: Relation, d: nat, bytes: nat) returns (next: Walk)
    requires forall id :: id in Required(w.nodes, r) ==> id in g.definitions
    requires bytes == w.bytes + r.size + Sizes(g, Required(w.nodes, r))
    ensures next == Added(g, request, w, r, d)
  {
    var nodes := Insert(g, w.nodes, Required(w.nodes, r));
    var queue := w.queue;
    if !request.direction.Outgoing? { queue := queue + [Entry(r.source, d)]; }
    if !request.direction.Incoming? && r.target.Resolved? { queue := queue + [Entry(r.target.id, d)]; }
    assert queue == w.queue + Pushed(r, request.direction, d);
    return w.(nodes := nodes, bytes := bytes, queue := queue, edges := w.edges[r.id := r]);
  }

  method Follow(g: Shard, request: Request, w: Walk, r: Relation, x: nat, d: nat, ghost s: Scope, ghost at: map<nat, nat>,
                control: Control)
    returns (next: Result<Walk, Error>, halt: bool)
    requires DistinctIds(g.relations) && Covers(g, request, s) && Good(g, request, s, w, at, d, {x})
    requires Expanding(g, request, at, x, d, r)
    modifies control
    ensures old(control.fired) ==> control.fired
    ensures next.Ok? ==> (halt <==> r.id !in w.edges && Blocked(g, request, w, r))
    ensures next.Ok? ==> control.fired == old(control.fired) && (w.truncated ==> next.value.truncated)
    ensures next.Ok? ==> Progress(g, request, s, w, next.value, at, x, d, r) && (halt ==> next.value.truncated)
    ensures next.Ok? && next.value.truncated && !w.truncated ==> !Fits(g, request, s)
    ensures next.Err? ==> WalkError(g, next.error, control.fired)
  {
    if r.id in w.edges {
      KnownProgress(g, request, s, w, at, x, d, r);
      return Ok(w), false;
    }
    ExpandingIsCandidate(g, request, s, w, at, x, d, r);
    var step := Admit(g, request, w, r, s, control);
    if step.Err? { return Err(step.error), true; }
    match step.value
    case Keep(bytes) =>
      AddedProgress(g, request, s, w, at, x, d, r);
      var kept := Add(g, request, w, r, d + 1, bytes);
      return Ok(kept), false;
    case LeaveOut =>
      TruncatedIsGood(g, request, s, w, at, d, {x});
      return Ok(w.(truncated := true)), false;
    case Halt =>
      TruncatedIsGood(g, request, s, w, at, d, {x});
      return Ok(w.(truncated := true)), true;
  }

  // ---- one definition ----

  /** When nothing was left out the read was complete, so the definition is done. */
  lemma RowsWereAll(g: Shard, request: Request, s: Scope, w: Walk, at: map<nat, nat>, x: nat, d: nat, rows: seq<Relation>)
    requires Good(g, request, s, w, at, d, {x}) && !w.truncated && x in at && at[x] == d
    requires IsRead(g, x, request.direction, request.maxEdges + 1, rows)
    requires FollowedRows(request, w, at, rows, |rows|, d + 1)
    ensures Good(g, request, s, w, at, d, {})
  {
    forall k | 0 <= k < |rows|
      ensures rows[k].id in w.edges
    {
      assert FollowedRelation(request, w, at, rows[k], d + 1);
    }
    DistinctFit(rows, w.edges.Keys);
    forall r | r in g.relations && Leaves(r, x, request.direction)
      ensures FollowedRelation(request, w, at, r, d + 1)
    {
      var k :| 0 <= k < |rows| && rows[k] == r;
    }
  }

  lemma {:induction false} DistinctFit(rows: seq<Relation>, ids: set<nat>)
    requires DistinctIds(rows) && forall k :: 0 <= k < |rows| ==> rows[k].id in ids
    ensures |rows| <= |ids|
    decreases |rows|
  {
    if rows != [] {
      var init, last := rows[..|rows| - 1], rows[|rows| - 1];
      assert forall k :: 0 <= k < |init| ==> init[k] == rows[k];
      DistinctFit(init, ids - {last.id});
    }
  }

  /** The first n rows of x are dealt with. */
  ghost predicate RowsDone(g: Shard, request: Request, s: Scope, w0: Walk, w: Walk, at: map<nat, nat>, x: nat, d: nat,
                           rows: seq<Relation>, n: nat) {
    && Good(g, request, s, w, at, d, {x}) && Extends(w0, w)
    && (w.truncated || FollowedRows(request, w, at, rows, n, d + 1))
  }

  lemma NextRow(g: Shard, request: Request, s: Scope, w0: Walk, w: Walk, w': Walk, at: map<nat, nat>, x: nat, d: nat,
                rows: seq<Relation>, n: nat)
    requires RowsDone(g, request, s, w0, w, at, x, d, rows, n) && n < |rows|
    requires Progress(g, request, s, w, w', at, x, d, rows[n])
    ensures RowsDone(g, request, s, w0, w', at, x, d, rows, n + 1)
  {
    ExtendsChains(w0, w, w');
    if !w'.truncated { RowsStayFollowed(request, w, w', at, rows, n, d + 1); }
  }

  /** The definition is expanded as far as it will be. */
  ghost predicate Expanded(g: Shard, request: Request, s: Scope, w0: Walk, w: Walk, at: map<nat, nat>, d: nat) {
    Good(g, request, s, w, at, d, {}) && Extends(w0, w)
  }

  lemma CutShort(g: Shard, request: Request, s: Scope, w0: Walk, w: Walk, at: map<nat, nat>, x: nat, d: nat,
                 rows: seq<Relation>, n: nat)
    requires RowsDone(g, request, s, w0, w, at, x, d, rows, n)
    ensures Expanded(g, request, s, w0, w.(truncated := true), at, d)
  {
  }

  lemma AllRowsDone(g: Shard, request: Request, s: Scope, w0: Walk, w: Walk, at: map<nat, nat>, x: nat, d: nat,
                    rows: seq<Relation>)
    requires RowsDone(g, request, s, w0, w, at, x, d, rows, |rows|) && x in at && at[x] == d
    requires IsRead(g, x, request.direction, request.maxEdges + 1, rows)
    ensures Expanded(g, request, s, w0, w, at, d)
  {
    if w.truncated {
      CutShort(g, request, s, w0, w, at, x, d, rows, |rows|);
      assert w.(truncated := true) == w;
    } else {
      RowsWereAll(g, request, s, w, at, x, d, rows);
    }
  }

  /** One row of the definition: stop, or follow it. */
  method ExpandRow(g: Shard, request: Request, ghost w: Walk, walk: Walk, x: nat, d: nat, ghost s: Scope, ghost at: map<nat, nat>,
                   rows: seq<Relation>, i: nat, control: Control)
    returns (next: Result<Walk, Error>, halt: bool)
    requires DistinctIds(g.relations) && Covers(g, request, s) && i < |rows|
    requires RowsDone(g, request, s, w, walk, at, x, d, rows, i)
    requires Expanding(g, request, at, x, d, rows[i])
    requires walk.truncated && !w.truncated && !control.fired ==> !Fits(g, request, s)
    modifies control
    ensures old(control.fired) ==> control.fired
    ensures next.Ok? && control.fired && !old(control.fired) ==> halt
    ensures next.Ok? && !next.value.truncated ==> !walk.truncated && control.fired == old(control.fired)
    ensures next.Ok? && !halt ==> RowsDone(g, request, s, w, next.value, at, x, d, rows, i + 1)
    ensures next.Ok? && halt ==> next.value.truncated && Expanded(g, request, s, w, next.value, at, d)
    ensures next.Ok? && next.value.truncated && !w.truncated && !control.fired ==> !Fits(g, request, s)
    ensures next.Err? ==> WalkError(g, next.error, control.fired)
  {
    CutShort(g, request, s, w, walk, at, x, d, rows, i);
    var stop := control.Stopped();
    if stop { return Ok(walk.(truncated := true)), true; }
    next, halt := Follow(g, request, walk, rows[i], x, d, s, at, control);
    if next.Ok? {
      NextRow(g, request, s, w, walk, next.value, at, x, d, rows, i);
      if halt {
        CutShort(g, request, s, w, next.value, at, x, d, rows, i + 1);
        assert next.value.(truncated := true) == next.value;
      }
    }
  }

  lemma RowsAreExpanding(g: Shard, request: Request, at: map<nat, nat>, x: nat, d: nat, rows: seq<Relation>, i: nat)
    requires IsRead(g, x, request.direction, request.maxEdges + 1, rows) && i < |rows|
    requires x in at && at[x] == d && d < request.depth
    ensures Expanding(g, request, at, x, d, rows[i])
  {
  }

  /** Follows the rows that were read. */
  method ExpandRows(g: Shard, request: Request, w: Walk, x: nat, d: nat, ghost s: Scope, ghost at: map<nat, nat>,
                    rows: seq<Relation>, control: Control)
    returns (next: Result<Walk, Error>, halt: bool)
    requires DistinctIds(g.relations) && Covers(g, request, s) && RowsDone(g, request, s, w, w, at, x, d, rows, 0)
    requires x in at && at[x] == d && IsRead(g, x, request.direction, request.maxEdges + 1, rows)
    modifies control
    ensures old(control.fired) ==> control.fired
    ensures next.Ok? && control.fired && !old(control.fired) ==> halt
    ensures next.Ok? && !next.value.truncated ==> !w.truncated && control.fired == old(control.fired)
    ensures next.Ok? && next.value.truncated && !w.truncated && !control.fired ==> !Fits(g, request, s)
    ensures next.Ok? ==> Expanded(g, request, s, w, next.value, at, d) && (halt ==> next.value.truncated)
    ensures next.Err? ==> WalkError(g, next.error, control.fired)
  {
    var walk := w;
    for i := 0 to |rows|
      invariant control.fired == old(control.fired)
      invariant !walk.truncated ==> !w.truncated && control.fired == old(control.fired)
      invariant RowsDone(g, request, s, w, walk, at, x, d, rows, i)
      invariant walk.truncated && !w.truncated && !control.fired ==> !Fits(g, request, s)
    {
      RowsAreExpanding(g, request, at, x, d, rows, i);
      next, halt := ExpandRow(g, request, w, walk, x, d, s, at, rows, i, control);
      if next.Err? || halt { return; }
      walk := next.value;
    }
    AllRowsDone(g, request, s, w, walk, at, x, d, rows);
    return Ok(walk), false;
  }

  lemma NoRowsDone(g: Shard, request: Request, s: Scope, w: Walk, at: map<nat, nat>, x: nat, d: nat, rows: seq<Relation>)
    requires Good(g, request, s, w, at, d, {x})
    ensures RowsDone(g, request, s, w, w, at, x, d, rows, 0)
  {
  }

  method Expand(g: Shard, request: Request, w: Walk, x: nat, d: nat, ghost s: Scope, ghost at: map<nat, nat>, control: Control)
    returns (next: Result<Walk, Error>, halt: bool)
    requires DistinctIds(g.relations) && Covers(g, request, s) && Good(g, request, s, w, at, d, {x})
    requires x in at && at[x] == d && ValidLimits(request)
    modifies control
    ensures old(control.fired) ==> control.fired
    ensures next.Ok? && control.fired && !old(control.fired) ==> halt
    ensures next.Ok? && !next.value.truncated ==> !w.truncated && control.fired == old(control.fired)
    ensures next.Ok? && next.value.truncated && !w.truncated && !control.fired ==> !Fits(g, request, s)
    ensures next.Ok? ==> Expanded(g, request, s, w, next.value, at, d) && (halt ==> next.value.truncated)
    ensures next.Err? ==> WalkError(g, next.error, control.fired)
  {
    var read, excess := Adjacency(g, x, request.direction, request.maxEdges + 1, control);
    if read.None? {
      NoRowsDone(g, request, s, w, at, x, d, []);
      CutShort(g, request, s, w, w, at, x, d, [], 0);
      if !control.fired { RowsDoNotFit(g, request, s, x, d, excess); }
      return Ok(w.(truncated := true)), true;
    }
    NoRowsDone(g, request, s, w, at, x, d, read.value);
    next, halt := ExpandRows(g, request, w, x, d, s, at, read.value, control);
  }

  // ---- the whole walk ----

  ghost function ScopeOf(g: Shard, request: Request): Scope {
    Scope(seq(request.depth + 1, d => if d < 0 then {} else Ball(g, request.root, request.direction, d)), Shown(g, request))
  }

  lemma NearIsBall(g: Shard, request: Request, d: nat)
    requires d <= request.depth
    ensures Near(ScopeOf(g, request), d) == Ball(g, request.root, request.direction, d)
  {
  }

  lemma ShownWhen(g: Shard, request: Request, x: nat, d: nat, r: Relation)
    requires x in Ball(g, request.root, request.direction, d) && d < request.depth
    requires r in g.relations && Leaves(r, x, request.direction)
    ensures r in Shown(g, request)
  {
    var inner := Ball(g, request.root, request.direction, request.depth - 1);
    assert x in inner by { BallGrows(g, request.root, request.direction, d, request.depth - 1); }
    assert Touches(r, inner, request.direction) by { LeavesTouches(r, x, inner, request.direction); }
    assert r in Incident(g, inner, request.direction);
  }

  lemma LeavesTouches(r: Relation, x: nat, s: set<nat>, direction: Direction)
    requires Leaves(r, x, direction) && x in s
    ensures Touches(r, s, direction)
    ensures Endpoints(r) <= Ends(r, direction) + {x}
  {
  }

  lemma ArrivesInside(g: Shard, root: nat, direction: Direction, x: nat, d: nat, r: Relation)
    requires x in Ball(g, root, direction, d) && r in g.relations && Leaves(r, x, direction)
    ensures Ends(r, direction) <= Ball(g, root, direction, d + 1)
    ensures Endpoints(r) <= Ball(g, root, direction, d + 1)
  {
    var inner := Ball(g, root, direction, d);
    LeavesTouches(r, x, inner, direction);
    assert Ends(r, direction) <= Arrivals(g, inner, direction);
  }

  lemma BallLeadsOut(g: Shard, request: Request, x: nat, d: nat)
    requires d < request.depth && x in Near(ScopeOf(g, request), d)
    ensures LeadsOut(g, request, ScopeOf(g, request), x, d)
  {
    var s := ScopeOf(g, request);
    NearIsBall(g, request, d);
    NearIsBall(g, request, d + 1);
    NearIsBall(g, request, request.depth);
    BallGrows(g, request.root, request.direction, d + 1, request.depth);
    forall r | r in g.relations && Leaves(r, x, request.direction)
      ensures LandsIn(request, s, r, d)
    {
      ShownWhen(g, request, x, d, r);
      ArrivesInside(g, request.root, request.direction, x, d, r);
    }
  }

  lemma ScopeCovers(g: Shard, request: Request)
    ensures Covers(g, request, ScopeOf(g, request))
  {
    var s := ScopeOf(g, request);
    NearIsBall(g, request, 0);
    forall d: nat, x | d < request.depth && x in Near(s, d)
      ensures LeadsOut(g, request, s, x, d)
    {
      BallLeadsOut(g, request, x, d);
    }
    forall d: nat | d <= request.depth
      ensures Near(s, d) <= Near(s, request.depth)
    {
      NearIsBall(g, request, d);
      NearIsBall(g, request, request.depth);
      BallGrows(g, request.root, request.direction, d, request.depth);
    }
  }

  /** After a walk that left nothing out, everything nearer than the depth was visited in time. */
  lemma {:induction false} NearVisited(g: Shard, request: Request, w: Walk, at: map<nat, nat>, now: nat, k: nat, x: nat)
    requires Followed(g, request, w, at, now, {}) && w.queue == [] && k < request.depth
    requires x in Ball(g, request.root, request.direction, k)
    ensures x in at && at[x] <= k
    decreases k
  {
    if k == 0 {
      assert Handled(request, w, at, request.root, 0);
    } else if x in Ball(g, request.root, request.direction, k - 1) {
      NearVisited(g, request, w, at, now, k - 1, x);
    } else {
      var inner := Ball(g, request.root, request.direction, k - 1);
      var r :| r in g.relations && Touches(r, inner, request.direction) && x in Ends(r, request.direction);
      var y := TouchesOne(r, inner, request.direction);
      NearVisited(g, request, w, at, now, k - 1, y);
      assert Leaves(r, y, request.direction);
      assert FollowedRelation(request, w, at, r, at[y] + 1);
      assert Handled(request, w, at, x, at[y] + 1);
    }
  }

  lemma AllShown(g: Shard, request: Request, w: Walk, at: map<nat, nat>, now: nat, r: Relation)
    requires Followed(g, request, w, at, now, {}) && w.queue == [] && r in Shown(g, request)
    ensures r.id in w.edges && w.edges[r.id] == r
  {
    var inner := Ball(g, request.root, request.direction, request.depth - 1);
    var y := TouchesOne(r, inner, request.direction);
    NearVisited(g, request, w, at, now, request.depth - 1, y);
    assert Leaves(r, y, request.direction);
    assert FollowedRelation(request, w, at, r, at[y] + 1);
  }

  lemma AllNear(g: Shard, request: Request, w: Walk, at: map<nat, nat>, now: nat, x: nat)
    requires Followed(g, request, w, at, now, {}) && w.queue == [] && x in Area(g, request)
    requires request.root in w.nodes && forall y :: y in at ==> y in w.nodes
    requires forall k :: k in w.edges ==> Endpoints(w.edges[k]) <= w.nodes.Keys
    ensures x in w.nodes
  {
    if request.depth > 0 {
      var inner := Ball(g, request.root, request.direction, request.depth - 1);
      if x in inner {
        NearVisited(g, request, w, at, now, request.depth - 1, x);
      } else {
        var r :| r in g.relations && Touches(r, inner, request.direction) && x in Ends(r, request.direction);
        assert r in Shown(g, request);
        AllShown(g, request, w, at, now, r);
        assert x in Endpoints(r);
      }
    }
  }

  /** A walk that left nothing out shows the whole neighborhood. */
  lemma WalkIsExact(g: Shard, request: Request, w: Walk, at: map<nat, nat>, now: nat)
    requires Good(g, request, ScopeOf(g, request), w, at, now, {}) && w.queue == [] && !w.truncated
    ensures w.nodes.Keys == Area(g, request) && w.edges.Values == Shown(g, request)
  {
    NearIsBall(g, request, request.depth);
    forall x | x in Area(g, request)
      ensures x in w.nodes
    {
      AllNear(g, request, w, at, now, x);
    }
    forall r | r in Shown(g, request)
      ensures r in w.edges.Values
    {
      AllShown(g, request, w, at, now, r);
    }
  }

  /** What every response guarantees, truncated or not. */
  ghost predicate Honest(g: Shard, request: Request, response: Response) {
    && |response.nodes| <= request.maxNodes && |response.edges| <= request.maxEdges
    && 4096 + Total(response.nodes) + Total(EdgeSizes(response.edges)) <= RESPONSE_BYTES
    && Drawn(g, response.nodes) && response.nodes.Keys <= Area(g, request)
    && (forall k :: k in response.edges ==>
          response.edges[k].id == k && response.edges[k] in Shown(g, request)
          && Endpoints(response.edges[k]) <= response.nodes.Keys)
    && (response.complete ==>
          !response.truncated && forall k :: k in response.edges ==> response.edges[k].target.Resolved?)
  }

  /** What an untruncated response guarantees. */
  ghost predicate Whole(g: Shard, request: Request, response: Response) {
    response.nodes.Keys == Area(g, request) && response.edges.Values == Shown(g, request)
  }

  /** The answer before its encoded size is known. */
  ghost predicate Answers(g: Shard, request: Request, response: Response, fired: bool) {
    && Honest(g, request, response) && (!response.truncated ==> Whole(g, request, response))
    && (!fired ==> (response.truncated <==> !Fits(g, request, ScopeOf(g, request))))
  }

  /** An answer claims completeness when the snapshot does, nothing was left out and every target is known. */
  ghost predicate CoversAll(response: Response, baseComplete: bool) {
    && baseComplete && !response.truncated
    && forall k :: k in response.edges ==> response.edges[k].target.Resolved?
  }

  /** Unless a poll asked to stop, the answer is truncated exactly when the neighborhood exceeds a
      budget. responseBytes stands for the encoded size; full is the answer before it is known. */
  method Neighborhood(g: Shard, request: Request, baseComplete: bool, responseBytes: Response -> nat, control: Control)
    returns (result: Result<Response, Error>, ghost full: Response)
    requires DistinctIds(g.relations)
    modifies control
    ensures result == Err(InvalidQuery) <==> !ValidLimits(request)
    ensures result == Err(NotFound) ==> request.root !in g.definitions
    ensures ValidLimits(request) && request.root !in g.definitions && !control.fired ==> result == Err(NotFound)
    ensures result == Err(Unavailable) ==> Dangling(g)
    ensures result == Err(BudgetExhausted) && !control.fired ==>
      Answers(g, request, full, false) && responseBytes(full) > RESPONSE_BYTES
    ensures result.Ok? ==> result.value == full && Answers(g, request, full, control.fired)
    ensures result.Ok? ==> responseBytes(full) <= RESPONSE_BYTES && (full.complete <==> CoversAll(full, baseComplete))
    ensures result.Ok? && !full.truncated ==> control.fired == old(control.fired)
  {
    full := Response(map[], map[], false, true);
    if !(1 <= request.maxNodes <= 200 && 1 <= request.maxEdges <= 500 && request.depth <= 4) {
      return Err(InvalidQuery), full;
    }
    var response := Response(map[], map[], false, true);
    var stopped := control.Stopped();
    if !stopped {
      if request.root !in g.definitions { return Err(NotFound), full; }
      var bytes := g.definitions[request.root] + 4096;
      if bytes > RESPONSE_BYTES {
        RootDoesNotFit(g, request);
      } else {
        var walked := WalkFrom(g, request, bytes, control);
        if walked.Err? { return Err(walked.error), full; }
        response := Respond(g, request, baseComplete, walked.value, control);
      }
    }
    full := response;
    if responseBytes(response) > RESPONSE_BYTES { return Err(BudgetExhausted), full; }
    return Ok(response), full;
  }

  /** Coverage and the last look at the deadline. */
  method Respond(g: Shard, request: Request, baseComplete: bool, w: Walk, control: Control) returns (response: Response)
    requires DistinctIds(g.relations) && Collected(g, request, w)
    requires w.truncated && !control.fired ==> !Fits(g, request, ScopeOf(g, request))
    modifies control
    ensures old(control.fired) ==> control.fired
    ensures !response.truncated ==> !w.truncated && control.fired == old(control.fired)
    ensures response.complete <==> CoversAll(response, baseComplete)
    ensures Answers(g, request, response, control.fired)
  {
    var deadline := control.Stopped();
    var resolved := forall k :: k in w.edges ==> w.edges[k].target.Resolved?;
    var truncated := w.truncated || deadline;
    if !w.truncated { WholeFits(g, request, Response(w.nodes, w.edges, false, false)); }
    return Response(w.nodes, w.edges, baseComplete && resolved && !truncated, truncated);
  }

  lemma RootDoesNotFit(g: Shard, request: Request)
    requires request.root in g.definitions && 4096 + g.definitions[request.root] > RESPONSE_BYTES
    ensures !Fits(g, request, ScopeOf(g, request))
  {
    NearIsBall(g, request, request.depth);
    BallGrows(g, request.root, request.direction, 0, request.depth);
    var sizes := DefinitionSizes(g, Area(g, request));
    TotalSplit(sizes, request.root);
  }

  /** A whole answer within the budgets is a neighborhood that fits. */
  lemma WholeFits(g: Shard, request: Request, response: Response)
    requires DistinctIds(g.relations) && Honest(g, request, response) && Whole(g, request, response)
    ensures Fits(g, request, ScopeOf(g, request))
  {
    NearIsBall(g, request, request.depth);
    assert DefinitionSizes(g, Area(g, request)) == response.nodes;
    EdgesAreShown(g, response.edges, Shown(g, request));
  }

  lemma EdgesAreShown(g: Shard, edges: map<nat, Relation>, shown: set<Relation>)
    requires DistinctIds(g.relations) && forall r :: r in shown ==> r in g.relations
    requires edges.Values == shown && forall k :: k in edges ==> edges[k].id == k
    ensures Ids(shown) == edges.Keys && RowSizes(g, shown) == EdgeSizes(edges)
  {
    forall k | k in edges
      ensures k in Ids(shown) && RowSize(g.relations, k) == edges[k].size
    {
      assert edges[k] in shown;
      RowSizeIsSize(g.relations, edges[k]);
    }
    forall k | k in Ids(shown)
      ensures k in edges
    {
      var r :| r in shown && r.id == k;
      assert r in edges.Values;
    }
  }

  lemma StartIsGood(g: Shard, request: Request, bytes: nat)
    requires request.root in g.definitions && bytes == g.definitions[request.root] + 4096 <= RESPONSE_BYTES && ValidLimits(request)
    ensures Good(g, request, ScopeOf(g, request),
                 Walk([Entry(request.root, 0)], {}, map[request.root := g.definitions[request.root]], map[], bytes, false),
                 map[], 0, {})
  {
    var size := g.definitions[request.root];
    var w := Walk([Entry(request.root, 0)], {}, map[request.root := size], map[], bytes, false);
    var none: map<nat, nat> := map[];
    TotalUpdate(none, request.root, size);
    assert none[request.root := size] == w.nodes && EdgeSizes(w.edges) == none;
    NearIsBall(g, request, 0);
    NearIsBall(g, request, request.depth);
    BallGrows(g, request.root, request.direction, 0, request.depth);
    assert Waiting(w.queue, request.root, 0) by { assert w.queue[0].id == request.root; }
  }

  method WalkFrom(g: Shard, request: Request, bytes: nat, control: Control) returns (walked: Result<Walk, Error>)
    requires DistinctIds(g.relations) && ValidLimits(request)
    requires request.root in g.definitions && bytes == g.definitions[request.root] + 4096 <= RESPONSE_BYTES
    modifies control
    ensures old(control.fired) ==> control.fired
    ensures walked.Ok? && !walked.value.truncated ==> control.fired == old(control.fired)
    ensures walked.Ok? ==> Collected(g, request, walked.value)
    ensures walked.Err? ==> WalkError(g, walked.error, control.fired)
    ensures walked.Ok? && walked.value.truncated && !control.fired ==> !Fits(g, request, ScopeOf(g, request))
  {
    var w := Walk([Entry(request.root, 0)], {}, map[request.root := g.definitions[request.root]], map[], bytes, false);
    ghost var at: map<nat, nat>, now: nat := map[], 0;
    ghost var s := ScopeOf(g, request);
    StartIsGood(g, request, bytes);
    ScopeCovers(g, request);
    var halt := false;
    while w.queue != [] && !halt
      invariant old(control.fired) ==> control.fired
      invariant !w.truncated ==> control.fired == old(control.fired)
      invariant Good(g, request, s, w, at, now, {}) && (halt ==> w.truncated)
      invariant w.truncated && !control.fired ==> !Fits(g, request, s)
      decreases !halt, Remaining(request, w)
    {
      var next;
      next, halt, at, now := Advance(g, request, w, s, at, now, control);
      if next.Err? { return next; }
      w := next.value;
    }
    CollectedWhenDone(g, request, w, at, now);
    return Ok(w);
  }

  /** Every relation queues at most two entries. */
  ghost function Remaining(request: Request, w: Walk): int {
    |w.queue| + 2 * (request.maxEdges - |w.edges|)
  }

  /** Takes one entry off the queue. */
  method Advance(g: Shard, request: Request, w: Walk, ghost s: Scope, ghost at: map<nat, nat>, ghost now: nat, control: Control)
    returns (next: Result<Walk, Error>, halt: bool, ghost at': map<nat, nat>, ghost now': nat)
    requires DistinctIds(g.relations) && ValidLimits(request) && Covers(g, request, s)
    requires Good(g, request, s, w, at, now, {}) && w.queue != []
    modifies control
    ensures old(control.fired) ==> control.fired
    ensures next.Ok? && control.fired && !old(control.fired) ==> halt
    ensures next.Ok? && !next.value.truncated ==> !w.truncated && control.fired == old(control.fired)
    ensures next.Ok? ==>
      && Good(g, request, s, next.value, at', now', {}) && (halt ==> next.value.truncated)
      && (!halt ==> 0 <= Remaining(request, next.value) < Remaining(request, w))
    ensures next.Err? ==> WalkError(g, next.error, control.fired)
    ensures next.Ok? && next.value.truncated && !w.truncated && !control.fired ==> !Fits(g, request, s)
  {
    var entry := w.queue[0];
    var stopped := control.Stopped();
    if stopped {
      TruncatedIsGood(g, request, s, w, at, now, {});
      return Ok(w.(truncated := true)), true, at, now;
    }
    if entry.depth >= request.depth || entry.id in w.visited {
      SkipKeepsGood(g, request, s, w, at, now);
      return Ok(w.(queue := w.queue[1..])), false, at, entry.depth;
    }
    VisitKeepsGood(g, request, s, w, at, now);
    at', now' := at[entry.id := entry.depth], entry.depth;
    var visited := w.(queue := w.queue[1..], visited := w.visited + {entry.id});
    next, halt := Expand(g, request, visited, entry.id, entry.depth, s, at', control);
  }

  ghost predicate Collected(g: Shard, request: Request, w: Walk) {
    && Honest(g, request, Response(w.nodes, w.edges, false, w.truncated))
    && (!w.truncated ==> Whole(g, request, Response(w.nodes, w.edges, false, false)))
  }

  lemma CollectedWhenDone(g: Shard, request: Request, w: Walk, at: map<nat, nat>, now: nat)
    requires Good(g, request, ScopeOf(g, request), w, at, now, {}) && (w.truncated || w.queue == [])
    ensures Collected(g, request, w)
  {
    NearIsBall(g, request, request.depth);
    if !w.truncated { WalkIsExact(g, request, w, at, now); }
  }
}