/** The exit-normalized cyclomatic measure of one complete compiler body. */
module Complexity {
  import opened Wrappers
  import opened Cancellation
  import opened Sums
  import opened Ordering
  import opened Mir
  import opened Traces
  import opened CompilerImport

  /** Edges the measure leaves out: imaginary ones, and the cleanup alternative of false_unwind. */
  predicate ExcludedEdge(term: Terminator, kind: EdgeKind) {
    kind == Imaginary || (term.kind == FalseUnwind && kind == Unwind)
  }

  ghost predicate CountedEdge(term: Terminator, edge: Successor) {
    edge in term.successors && !ExcludedEdge(term, edge.kind)
  }

  /** What the graph guard demands of one terminator. */
  ghost predicate GraphTermValid(term: Terminator) {
    SwitchValuesValid(term.successors) && UnwindValid(term) && ShapeValid(term)
  }

  method ValidateGraphTerm(term: Terminator) returns (valid: bool)
    ensures valid <==> GraphTermValid(term)
  {
    var switches := SwitchValues(term.successors);
    if switches.None? { return false; }
    valid := ValidateUnwind(term);
    if valid { valid := ValidateShape(term, |switches.value|); }
  }

  // ---- reachability ----

  ghost predicate IsCountedPath(cfg: map<nat, Block>, path: Path, block: nat) {
    match path
    case Start => block == 0
    case Via(before, source, edge) =>
      source in cfg && CountedEdge(cfg[source].terminator, edge) && edge.target == block
      && IsCountedPath(cfg, before, source)
  }

  ghost predicate Reachable(cfg: map<nat, Block>, block: nat) {
    exists path :: IsCountedPath(cfg, path, block)
  }

  /** Targets exist and entries are keyed by their own index. */
  ghost predicate ClosedGraph(cfg: map<nat, Block>) {
    0 in cfg && forall b :: b in cfg ==>
      forall e :: e in cfg[b].terminator.successors ==> e.target in cfg
  }

  ghost predicate SuccessorsIn(cfg: map<nat, Block>, b: nat, blocks: set<nat>)
    requires b in cfg
  {
    forall e :: CountedEdge(cfg[b].terminator, e) ==> e.target in blocks
  }

  function Members(stack: seq<nat>): set<nat> {
    set b | b in stack
  }

  /** Depth-first reachability from block 0; None when the poll asked to stop. */
  method Reach(cfg: map<nat, Block>, control: Control) returns (reached: Option<set<nat>>)
    requires ClosedGraph(cfg)
    modifies control
    ensures control.fired == (old(control.fired) || reached.None?)
    ensures reached.Some? ==> 0 in reached.value && reached.value <= cfg.Keys
    ensures reached.Some? ==> forall b :: b in reached.value <==> Reachable(cfg, b)
  {
    var done: set<nat> := {};
    var stack := [0];
    assert IsCountedPath(cfg, Start, 0);
    while stack != []
      invariant control.fired == old(control.fired)
      invariant done + Members(stack) <= cfg.Keys && 0 in done + Members(stack)
      invariant forall b :: b in done + Members(stack) ==> Reachable(cfg, b)
      invariant forall b :: b in done ==> SuccessorsIn(cfg, b, done + Members(stack))
      decreases cfg.Keys - done, |stack|
    {
      ghost var before := done + Members(stack);
      var b := stack[|stack| - 1];
      assert stack == stack[..|stack| - 1] + [b];
      stack := stack[..|stack| - 1];
      if b !in done {
        var stop := control.Stopped();
        if stop { return None; }
        done := done + {b};
        assert before <= done + Members(stack);
        stack := PushSuccessors(cfg, b, done, stack);
        forall c | c in done
          ensures SuccessorsIn(cfg, c, done + Members(stack))
        {
          if c != b {
            assert SuccessorsIn(cfg, c, before);
          }
        }
      } else {
        assert before == done + Members(stack);
      }
    }
    forall b | Reachable(cfg, b)
      ensures b in done
    {
      var path :| IsCountedPath(cfg, path, b);
      PathStaysInside(cfg, done, path, b);
    }
    return Some(done);
  }

  /** Pushes the counted successors that are not yet done. */
  method PushSuccessors(cfg: map<nat, Block>, b: nat, done: set<nat>, stack: seq<nat>) returns (pushed: seq<nat>)
    requires ClosedGraph(cfg) && b in cfg && Reachable(cfg, b)
    ensures stack <= pushed
    ensures SuccessorsIn(cfg, b, done + Members(pushed))
    ensures forall c :: c in pushed && c !in stack ==> c in cfg && Reachable(cfg, c)
  {
    var edges := cfg[b].terminator.successors;
    pushed := stack;
    for i := 0 to |edges|
      invariant stack <= pushed
      invariant forall c :: c in pushed && c !in stack ==> c in cfg && Reachable(cfg, c)
      invariant forall k :: 0 <= k < i && !ExcludedEdge(cfg[b].terminator, edges[k].kind) ==>
        edges[k].target in done + Members(pushed)
    {
      var edge := edges[i];
      if !ExcludedEdge(cfg[b].terminator, edge.kind) && edge.target !in done {
        pushed := pushed + [edge.target];
        ghost var path :| IsCountedPath(cfg, path, b);
        assert IsCountedPath(cfg, Via(path, b, edge), edge.target);
      }
    }
  }

  lemma {:induction false} PathStaysInside(cfg: map<nat, Block>, done: set<nat>, path: Path, b: nat)
    requires 0 in done && done <= cfg.Keys && forall c :: c in done ==> SuccessorsIn(cfg, c, done)
    requires IsCountedPath(cfg, path, b)
    ensures b in done
  {
    if path.Via? {
      PathStaysInside(cfg, done, path.before, path.block);
      assert SuccessorsIn(cfg, path.block, done);
    }
  }

  // ---- counting ----

  function CountedEdges(term: Terminator, edges: seq<Successor>): nat {
    if edges == [] then 0
    else CountedEdges(term, edges[..|edges| - 1])
         + (if ExcludedEdge(term, edges[|edges| - 1].kind) then 0 else 1)
  }

  lemma {:induction false} CountedAtMost(term: Terminator, edges: seq<Successor>)
    ensures CountedEdges(term, edges) <= |edges|
  {
    if edges != [] {
      CountedAtMost(term, edges[..|edges| - 1]);
    }
  }

  function OutDegree(term: Terminator): nat {
    CountedEdges(term, term.successors)
  }

  /** External unwinding, or else having no counted successor, makes a block an exit. */
  predicate IsExit(term: Terminator) {
    (term.kind != FalseUnwind && term.unwind.Some? && (term.unwind.value.Continue? || term.unwind.value.Terminate?))
    || OutDegree(term) == 0
  }

  ghost function Degrees(cfg: map<nat, Block>, blocks: set<nat>): map<nat, nat>
    requires blocks <= cfg.Keys
  {
    map b | b in blocks :: OutDegree(cfg[b].terminator)
  }

  ghost function Excluded(cfg: map<nat, Block>, blocks: set<nat>): map<nat, nat>
    requires blocks <= cfg.Keys
  {
    map b | b in blocks :: ExcludedCount(cfg[b].terminator)
  }

  function ExcludedCount(term: Terminator): nat {
    CountedAtMost(term, term.successors);
    |term.successors| - OutDegree(term)
  }

  lemma {:induction false} CountedComplement(term: Terminator, s: seq<Successor>)
    ensures CountedEdges(term, s) + Count(s, Imaginary) + (if term.kind == FalseUnwind then Count(s, Unwind) else 0) == |s|
  {
    if s != [] {
      CountedComplement(term, s[..|s| - 1]);
    }
  }

  /** Behind the graph guard the measure leaves out exactly the imaginary edge of a false_edge and the
      cleanup edge of a false_unwind; only a block without
      successors has no counted edge. */
  lemma GuardedExclusions(term: Terminator)
    requires GraphTermValid(term)
    ensures ExcludedCount(term) == (match term.kind
      case FalseEdge => 1
      case FalseUnwind => if term.unwind.value.Cleanup? then 1 else 0
      case _ => 0)
    ensures OutDegree(term) == 0 ==> term.successors == []
  {
    var s := term.successors;
    CountsCover(s);
    CountedComplement(term, s);
  }

  /** Behind the graph guard a block is an exit when its kind never continues, when its unwinding leaves the
      function, or when it is a call or inline assembly with nowhere to go. */
  lemma GuardedExits(term: Terminator)
    requires GraphTermValid(term)
    ensures IsExit(term) <==>
      match term.kind
      case Return => true case UnwindResume => true case Unreachable => true
      case DropCoroutine => true case TailCall => true case UnwindTerminate => true
      case CallFunction => term.successors == [] || LeavesUnwinding(term)
      case InlineAsm => term.successors == [] || LeavesUnwinding(term)
      case DropPlace => LeavesUnwinding(term)
      case Assert => LeavesUnwinding(term)
      case _ => false
  {
    GuardedExclusions(term);
    CountsCover(term.successors);
  }

  ghost predicate LeavesUnwinding(term: Terminator) {
    term.unwind == Some(Continue) || exists reason :: term.unwind == Some(Terminate(reason))
  }

  ghost function Exits(cfg: map<nat, Block>, blocks: set<nat>): set<nat>
    requires blocks <= cfg.Keys
  {
    set b | b in blocks && IsExit(cfg[b].terminator)
  }

  /** The contribution of one block beyond its own node: its edges, its exit edge, minus one. */
  ghost function Surplus(term: Terminator): (surplus: nat)
  {
    OutDegree(term) + (if IsExit(term) then 1 else 0) - 1
  }

  ghost function Surpluses(cfg: map<nat, Block>, blocks: set<nat>): map<nat, nat>
    requires blocks <= cfg.Keys
  {
    map b | b in blocks :: Surplus(cfg[b].terminator)
  }

  /** Edges, exits and nodes summed over any blocks agree with the per-block surpluses. */
  lemma {:induction false} SurplusSum(cfg: map<nat, Block>, blocks: set<nat>)
    requires blocks <= cfg.Keys
    ensures Total(Degrees(cfg, blocks)) + |Exits(cfg, blocks)| == |blocks| + Total(Surpluses(cfg, blocks))
    decreases |blocks|
  {
    if blocks == {} {
      assert Degrees(cfg, blocks) == map[] && Surpluses(cfg, blocks) == map[];
      assert Exits(cfg, blocks) == {};
    } else {
      var b :| b in blocks;
      var rest := blocks - {b};
      SurplusSum(cfg, rest);
      TotalSplit(Degrees(cfg, blocks), b);
      TotalSplit(Surpluses(cfg, blocks), b);
      assert Degrees(cfg, blocks) - {b} == Degrees(cfg, rest);
      assert Surpluses(cfg, blocks) - {b} == Surpluses(cfg, rest);
      assert Exits(cfg, rest) == Exits(cfg, blocks) - {b};
    }
  }

  datatype Metrics = Metrics(
    nodes: nat, edges: nat, components: nat, cyclomatic: nat, runtimeBlocks: nat,
    runtimeEdges: nat, syntheticExitEdges: nat, excludedImaginaryEdges: nat)

  datatype Limits = Limits(maxBlocks: nat, maxEdges: nat, maxResponseBytes: nat)

  /** The page carrying the body; the flags stand for checks on its textual metadata. */
  datatype FlowPage = FlowPage(
    body: Body, offset: nat, nextOffset: Option<nat>, totalBlocks: nat, bytes: nat,
    runtimeOptimized: bool, knownPanicStrategy: bool, available: bool, identified: bool)

  datatype Report = Report(
    metrics: Option<Metrics>, reachable: seq<nat>, unreachable: set<nat>, exits: seq<nat>,
    truncated: bool, locationsTruncated: bool)

  datatype Error = InvalidInput | BudgetExhausted

  /** The report of an analysis that was cut before it reached anything. */
  const NOTHING: Report := Report(None, [], {}, [], true, false)

  ghost function Withheld(report: Report): Report {
    report.(reachable := [], unreachable := {}, exits := [], locationsTruncated := true)
  }

  /** The published measure over the reached blocks. */
  ghost predicate Measures(cfg: map<nat, Block>, reached: set<nat>, metrics: Metrics)
    requires reached <= cfg.Keys
  {
    && metrics.runtimeBlocks == |reached| && metrics.nodes == |reached| + 1 && metrics.components == 1
    && metrics.runtimeEdges == Total(Degrees(cfg, reached))
    && metrics.syntheticExitEdges == |Exits(cfg, reached)|
    && metrics.edges == metrics.runtimeEdges + metrics.syntheticExitEdges
    && metrics.excludedImaginaryEdges == Total(Excluded(cfg, reached))
    && metrics.cyclomatic == 1 + Total(Surpluses(cfg, reached))
    && metrics.cyclomatic == metrics.edges + 2 - metrics.nodes
  }

  datatype Counts = Counts(edges: nat, excluded: nat, exits: seq<nat>)

  lemma KeysPrefix(keys: seq<nat>, i: nat)
    requires i < |keys| && StrictlyAscending(keys)
    ensures Members(keys[..i + 1]) == Members(keys[..i]) + {keys[i]}
    ensures keys[i] !in keys[..i]
  {
    assert keys[..i + 1] == keys[..i] + [keys[i]];
  }

  /** The running counts over some of the reached blocks. */
  ghost predicate Counted(cfg: map<nat, Block>, done: set<nat>, counts: Counts)
    requires done <= cfg.Keys
  {
    && counts.edges == Total(Degrees(cfg, done))
    && counts.excluded == Total(Excluded(cfg, done))
    && |counts.exits| == |Exits(cfg, done)|
    && forall b :: b in counts.exits <==> b in Exits(cfg, done)
  }

  lemma DegreesStep(cfg: map<nat, Block>, done: set<nat>, b: nat)
    requires done <= cfg.Keys && b in cfg && b !in done
    ensures Total(Degrees(cfg, done + {b})) == Total(Degrees(cfg, done)) + OutDegree(cfg[b].terminator)
  {
    TotalUpdate(Degrees(cfg, done), b, OutDegree(cfg[b].terminator));
    assert Degrees(cfg, done + {b}) == Degrees(cfg, done)[b := OutDegree(cfg[b].terminator)];
  }

  lemma ExcludedStep(cfg: map<nat, Block>, done: set<nat>, b: nat)
    requires done <= cfg.Keys && b in cfg && b !in done
    ensures Total(Excluded(cfg, done + {b})) == Total(Excluded(cfg, done)) + ExcludedCount(cfg[b].terminator)
  {
    TotalUpdate(Excluded(cfg, done), b, ExcludedCount(cfg[b].terminator));
    assert Excluded(cfg, done + {b}) == Excluded(cfg, done)[b := ExcludedCount(cfg[b].terminator)];
  }

  lemma CountStep(cfg: map<nat, Block>, done: set<nat>, b: nat, counts: Counts)
    requires done <= cfg.Keys && b in cfg && b !in done && Counted(cfg, done, counts)
    ensures Counted(cfg, done + {b}, Counts(
      counts.edges + OutDegree(cfg[b].terminator), counts.excluded + ExcludedCount(cfg[b].terminator),
      counts.exits + (if IsExit(cfg[b].terminator) then [b] else [])))
  {
    DegreesStep(cfg, done, b);
    ExcludedStep(cfg, done, b);
    ExitsStep(cfg, done, b, counts.exits);
  }

  lemma ExitsStep(cfg: map<nat, Block>, done: set<nat>, b: nat, exits: seq<nat>)
    requires done <= cfg.Keys && b in cfg && b !in done
    requires |exits| == |Exits(cfg, done)| && forall x :: x in exits <==> x in Exits(cfg, done)
    ensures var more := exits + (if IsExit(cfg[b].terminator) then [b] else []);
      |more| == |Exits(cfg, done + {b})| && forall x :: x in more <==> x in Exits(cfg, done + {b})
  {
    assert Exits(cfg, done + {b}) == Exits(cfg, done) + (if IsExit(cfg[b].terminator) then {b} else {});
  }

  /** Counts edges, exclusions and exits over the reached blocks in ascending order; done are the blocks
      counted, all of them unless a poll stopped the loop. */
  method CountReached(cfg: map<nat, Block>, keys: seq<nat>, control: Control)
    returns (counts: Counts, stopped: bool, ghost done: set<nat>)
    requires StrictlyAscending(keys) && Members(keys) <= cfg.Keys
    modifies control
    ensures control.fired == (old(control.fired) || stopped)
    ensures done <= Members(keys) && (!stopped ==> done == Members(keys))
    ensures Counted(cfg, done, counts) && StrictlyAscending(counts.exits)
  {
    counts, stopped, done := Counts(0, 0, []), false, {};
    assert Degrees(cfg, done) == map[] && Excluded(cfg, done) == map[];
    assert keys[..0] == [];
    for i := 0 to |keys|
      invariant control.fired == old(control.fired)
      invariant done == Members(keys[..i]) && done <= Members(keys) && !stopped
      invariant Counted(cfg, done, counts) && StrictlyAscending(counts.exits)
    {
      stopped := control.Stopped();
      if stopped { return; }
      KeysPrefix(keys, i);
      assert keys[i] in Members(keys);
      var term := cfg[keys[i]].terminator;
      CountStep(cfg, done, keys[i], counts);
      LaterKey(keys, i, counts.exits);
      counts := Counts(counts.edges + OutDegree(term), counts.excluded + ExcludedCount(term),
                       counts.exits + (if IsExit(term) then [keys[i]] else []));
      done := done + {keys[i]};
    }
    assert keys[..|keys|] == keys;
  }

  lemma LaterKey(keys: seq<nat>, i: nat, exits: seq<nat>)
    requires i < |keys| && StrictlyAscending(keys) && StrictlyAscending(exits)
    requires forall b :: b in exits ==> b in Members(keys[..i])
    ensures StrictlyAscending(exits + [keys[i]])
  {
    forall k | 0 <= k < |exits|
      ensures exits[k] < keys[i]
    {
      assert exits[k] in exits;
    }
  }

  ghost predicate IsReached(cfg: map<nat, Block>, reached: set<nat>) {
    reached <= cfg.Keys && forall b :: b in reached <==> Reachable(cfg, b)
  }

  /** The locations of a report, unless withheld. Only a stop may leave exits out. */
  ghost predicate Locates(cfg: map<nat, Block>, reached: set<nat>, report: Report, fired: bool)
    requires reached <= cfg.Keys
  {
    if report.locationsTruncated then report == Withheld(report)
    else
      && StrictlyAscending(report.reachable) && Members(report.reachable) == reached
      && report.unreachable == cfg.Keys - reached
      && StrictlyAscending(report.exits) && Members(report.exits) <= Exits(cfg, reached)
      && (!report.truncated || !fired ==> Members(report.exits) == Exits(cfg, reached))
  }

  /** The value is exact for the reached blocks; without one, the report says so or none of them is an exit. */
  ghost predicate Describes(cfg: map<nat, Block>, reached: set<nat>, report: Report, fired: bool) {
    && IsReached(cfg, reached) && Locates(cfg, reached, report, fired)
    && match report.metrics
       case Some(metrics) =>
         Measures(cfg, reached, metrics) && metrics.cyclomatic >= 1 && Exits(cfg, reached) != {} && !report.truncated
       case None => report.truncated || Exits(cfg, reached) == {}
  }

  /** A graph with an exit has too many edges when the synthetic ones are counted. */
  ghost predicate TooManyEdges(cfg: map<nat, Block>, maxEdges: nat) {
    exists reached :: IsReached(cfg, reached) && Exits(cfg, reached) != {}
      && Total(Degrees(cfg, reached)) + |Exits(cfg, reached)| > maxEdges
  }

  lemma ReachedIsUnique(cfg: map<nat, Block>, a: set<nat>, b: set<nat>)
    requires IsReached(cfg, a) && IsReached(cfg, b)
    ensures a == b
  {
    assert forall x :: x in a <==> x in b;
  }

  /** With the reached blocks known, counting decides whether there are too many edges. */
  lemma EdgesDecide(cfg: map<nat, Block>, reached: set<nat>, maxEdges: nat)
    requires IsReached(cfg, reached)
    ensures TooManyEdges(cfg, maxEdges)
      <==> Exits(cfg, reached) != {} && Total(Degrees(cfg, reached)) + |Exits(cfg, reached)| > maxEdges
  {
    if TooManyEdges(cfg, maxEdges) {
      var other :| IsReached(cfg, other) && Exits(cfg, other) != {}
        && Total(Degrees(cfg, other)) + |Exits(cfg, other)| > maxEdges;
      ReachedIsUnique(cfg, reached, other);
    }
  }

  /** A report without a value, after the blocks in done have been counted. */
  lemma LocatedDescribes(cfg: map<nat, Block>, keys: seq<nat>, done: set<nat>, counts: Counts, report: Report, fired: bool)
    requires StrictlyAscending(keys) && Members(keys) <= cfg.Keys && IsReached(cfg, Members(keys))
    requires done <= Members(keys) && Counted(cfg, done, counts) && StrictlyAscending(counts.exits)
    requires report == Report(None, keys, cfg.Keys - Members(keys), counts.exits, report.truncated, false)
    requires done == Members(keys) || (report.truncated && fired)
    requires report.truncated || counts.exits == []
    ensures Describes(cfg, Members(keys), report, fired)
  {
    assert forall b :: b in Exits(cfg, done) ==> b in Exits(cfg, Members(keys));
  }

  function MetricsOf(blocks: nat, counts: Counts): Metrics
    requires counts.edges + |counts.exits| + 2 >= blocks + 1
  {
    var nodes, edges := blocks + 1, counts.edges + |counts.exits|;
    Metrics(nodes, edges, 1, edges + 2 - nodes, blocks, counts.edges, |counts.exits|, counts.excluded)
  }

  /** A report with the value, after all reached blocks have been counted. */
  lemma MeasuredDescribes(cfg: map<nat, Block>, keys: seq<nat>, counts: Counts, report: Report, fired: bool)
    requires StrictlyAscending(keys) && Members(keys) <= cfg.Keys && IsReached(cfg, Members(keys))
    requires Counted(cfg, Members(keys), counts) && StrictlyAscending(counts.exits) && counts.exits != []
    requires |keys| == |Members(keys)| && counts.edges + |counts.exits| + 2 >= |keys| + 1
    requires report == Report(Some(MetricsOf(|keys|, counts)), keys, cfg.Keys - Members(keys), counts.exits, false, false)
    ensures Describes(cfg, Members(keys), report, fired)
  {
    assert counts.exits[0] in Exits(cfg, Members(keys));
    assert Members(counts.exits) == Exits(cfg, Members(keys));
    SurplusSum(cfg, Members(keys));
  }

  /** The counted edges decide; the surpluses give the checked subtraction. */
  lemma CountsDecide(cfg: map<nat, Block>, keys: seq<nat>, counts: Counts, maxEdges: nat)
    requires Members(keys) <= cfg.Keys && IsReached(cfg, Members(keys)) && Counted(cfg, Members(keys), counts)
    ensures TooManyEdges(cfg, maxEdges) <==> counts.exits != [] && counts.edges + |counts.exits| > maxEdges
    ensures counts.exits != [] && |keys| == |Members(keys)| ==> counts.edges + |counts.exits| + 2 >= |keys| + 1
  {
    EdgesDecide(cfg, Members(keys), maxEdges);
    if counts.exits != [] { assert counts.exits[0] in Exits(cfg, Members(keys)); }
    SurplusSum(cfg, Members(keys));
  }

  /** The report on the reached blocks, once they have been counted. */
  method ReportCounts(cfg: map<nat, Block>, keys: seq<nat>, counts: Counts, stopped: bool, ghost done: set<nat>, maxEdges: nat, control: Control)
    returns (report: Report)
    requires StrictlyAscending(keys) && |keys| == |Members(keys)| && Members(keys) <= cfg.Keys && IsReached(cfg, Members(keys))
    requires done <= Members(keys) && Counted(cfg, done, counts) && StrictlyAscending(counts.exits)
    requires if stopped then control.fired else done == Members(keys)
    modifies control
    ensures stopped ==> report.truncated
    ensures !report.truncated ==> control.fired == old(control.fired)
    ensures Describes(cfg, Members(keys), report, control.fired) && !report.locationsTruncated
    ensures report.truncated && !control.fired ==> TooManyEdges(cfg, maxEdges)
    ensures !report.truncated ==> !TooManyEdges(cfg, maxEdges)
  {
    report := Report(None, keys, cfg.Keys - Members(keys), counts.exits, stopped, false);
    if stopped || counts.exits == [] {
      if !stopped { CountsDecide(cfg, keys, counts, maxEdges); }
      LocatedDescribes(cfg, keys, done, counts, report, control.fired);
      return;
    }
    report := ReportValue(cfg, keys, counts, maxEdges, control);
  }

  /** The report on fully counted blocks with an exit: the value, unless over the edge budget or stopped. */
  method ReportValue(cfg: map<nat, Block>, keys: seq<nat>, counts: Counts, maxEdges: nat, control: Control) returns (report: Report)
    requires StrictlyAscending(keys) && |keys| == |Members(keys)| && Members(keys) <= cfg.Keys && IsReached(cfg, Members(keys))
    requires Counted(cfg, Members(keys), counts) && StrictlyAscending(counts.exits) && counts.exits != []
    modifies control
    ensures !report.truncated ==> control.fired == old(control.fired)
    ensures Describes(cfg, Members(keys), report, control.fired) && !report.locationsTruncated
    ensures report.truncated && !control.fired ==> TooManyEdges(cfg, maxEdges)
    ensures !report.truncated ==> !TooManyEdges(cfg, maxEdges)
  {
    CountsDecide(cfg, keys, counts, maxEdges);
    var edges, stop := counts.edges + |counts.exits|, false;
    if edges <= maxEdges { stop := control.Stopped(); }
    if edges > maxEdges || stop {
      report := Report(None, keys, cfg.Keys - Members(keys), counts.exits, true, false);
      LocatedDescribes(cfg, keys, Members(keys), counts, report, control.fired);
      return;
    }
    report := Report(Some(MetricsOf(|keys|, counts)), keys, cfg.Keys - Members(keys), counts.exits, false, false);
    MeasuredDescribes(cfg, keys, counts, report, control.fired);
  }

  /** Reachability and counting over a guarded graph. */
  method Measure(cfg: map<nat, Block>, maxEdges: nat, control: Control) returns (report: Report, ghost reached: set<nat>)
    requires ClosedGraph(cfg)
    modifies control
    ensures !report.truncated ==> control.fired == old(control.fired)
    ensures report == NOTHING || Describes(cfg, reached, report, control.fired)
    ensures report == NOTHING ==> control.fired
    ensures !report.locationsTruncated
    ensures report.truncated && !control.fired ==> TooManyEdges(cfg, maxEdges)
    ensures !report.truncated ==> !TooManyEdges(cfg, maxEdges)
  {
    reached := {};
    var visited := Reach(cfg, control);
    if visited.None? { return NOTHING, reached; }
    reached := visited.value;
    var keys := Ascending(visited.value);
    assert reached == Members(keys);
    var counts, stopped, done := CountReached(cfg, keys, control);
    report := ReportCounts(cfg, keys, counts, stopped, done, maxEdges, control);
    DescribedIsSomething(cfg, reached, report, control.fired);
  }

  /** Block 0 is always reached, so a report about the reached blocks lists something. */
  lemma DescribedIsSomething(cfg: map<nat, Block>, reached: set<nat>, report: Report, fired: bool)
    requires Describes(cfg, reached, report, fired) && !report.locationsTruncated
    ensures report != NOTHING
  {
    assert IsCountedPath(cfg, Start, 0);
    assert 0 in Members(report.reachable);
  }

  ghost predicate GuardedUpTo(blocks: seq<Block>, i: nat)
    requires i <= |blocks|
  {
    (forall j, k :: 0 <= j < k < i ==> blocks[j].index != blocks[k].index) && TermsValid(blocks, i)
  }

  lemma GuardedNext(blocks: seq<Block>, i: nat)
    requires i < |blocks| && GuardedUpTo(blocks, i) && GraphTermValid(blocks[i].terminator)
    requires forall k :: 0 <= k < i ==> blocks[k].index != blocks[i].index
    ensures GuardedUpTo(blocks, i + 1)
  {
  }

  /** First pass of the guard: distinct indices, the edge budget and the terminator shapes. */
  method GuardTerms(blocks: seq<Block>, maxEdges: nat, control: Control) returns (guard: Guard)
    modifies control
    ensures control.fired == (old(control.fired) || guard == GuardStopped)
    ensures guard == Passed ==>
      DistinctIndices(blocks) && TermsValid(blocks, |blocks|) && SuccessorTotal(blocks) <= maxEdges
    ensures guard == Refused ==> !DistinctIndices(blocks) || !TermsValid(blocks, |blocks|)
    ensures guard == Over ==> SuccessorTotal(blocks) > maxEdges
  {
    var edges := 0;
    for i := 0 to |blocks|
      invariant control.fired == old(control.fired)
      invariant edges == SuccessorTotal(blocks[..i]) <= maxEdges
      invariant GuardedUpTo(blocks, i)
    {
      var stop := control.Stopped();
      if stop { return GuardStopped; }
      SuccessorStep(blocks, i);
      if exists k :: 0 <= k < i && blocks[k].index == blocks[i].index { return Refused; }
      edges := edges + |blocks[i].terminator.successors|;
      if edges > maxEdges { return Over; }
      var valid := ValidateGraphTerm(blocks[i].terminator);
      if !valid {
        BadTerm(blocks, i);
        return Refused;
      }
      GuardedNext(blocks, i);
    }
    assert blocks[..|blocks|] == blocks;
    return Passed;
  }

  /** The guard over all blocks; the second pass resolves the targets. */
  method GuardBlocks(blocks: seq<Block>, maxEdges: nat, control: Control) returns (guard: Guard)
    modifies control
    ensures control.fired == (old(control.fired) || guard == GuardStopped)
    ensures guard == Passed ==> GraphAcceptable(blocks) && SuccessorTotal(blocks) <= maxEdges
    ensures guard == Refused ==> !GraphAcceptable(blocks)
    ensures guard == Over ==> SuccessorTotal(blocks) > maxEdges
  {
    guard := GuardTerms(blocks, maxEdges, control);
    if guard == Passed {
      var cfg := BlockTable(blocks);
      guard := if 0 in cfg then Passed else Refused;
      if guard == Passed {
        guard := GuardTargets(blocks, cfg.Keys, control);
      }
    }
  }

  /** Second pass of the guard: every successor names an existing block. */
  method GuardTargets(blocks: seq<Block>, indices: set<nat>, control: Control) returns (guard: Guard)
    modifies control
    ensures control.fired == (old(control.fired) || guard == GuardStopped)
    ensures guard == Passed ==> AllTargetsInside(blocks, indices)
    ensures guard == Refused ==> !AllTargetsInside(blocks, indices)
    ensures guard != Over
  {
    for i := 0 to |blocks|
      invariant control.fired == old(control.fired)
      invariant forall k :: 0 <= k < i ==> TargetsInside(blocks[k], indices)
    {
      var stop := control.Stopped();
      if stop { return GuardStopped; }
      if exists k :: 0 <= k < |blocks[i].terminator.successors| && blocks[i].terminator.successors[k].target !in indices {
        return Refused;
      }
    }
    return Passed;
  }

  ghost predicate AllTargetsInside(blocks: seq<Block>, indices: set<nat>) {
    forall k :: 0 <= k < |blocks| ==> TargetsInside(blocks[k], indices)
  }

  lemma BadTerm(blocks: seq<Block>, i: nat)
    requires i < |blocks| && !GraphTermValid(blocks[i].terminator)
    ensures !TermsValid(blocks, |blocks|)
  {
    if TermsValid(blocks, |blocks|) {
      TermsValidAt(blocks, |blocks|, i);
    }
  }

  lemma {:induction false} TermsValidAt(blocks: seq<Block>, count: nat, i: nat)
    requires i < count <= |blocks| && TermsValid(blocks, count)
    ensures GraphTermValid(blocks[i].terminator)
  {
    if i < count - 1 {
      TermsValidAt(blocks, count - 1, i);
    }
  }

  lemma {:induction false} EachTermValid(blocks: seq<Block>, count: nat)
    requires count <= |blocks| && forall k :: 0 <= k < |blocks| ==> GraphTermValid(blocks[k].terminator)
    ensures TermsValid(blocks, count)
  {
    if count > 0 {
      EachTermValid(blocks, count - 1);
    }
  }

  ghost predicate TermsValid(blocks: seq<Block>, count: nat)
    requires count <= |blocks|
  {
    count == 0 || (TermsValid(blocks, count - 1) && GraphTermValid(blocks[count - 1].terminator))
  }

  ghost predicate TargetsInside(block: Block, indices: set<nat>) {
    forall k :: 0 <= k < |block.terminator.successors| ==> block.terminator.successors[k].target in indices
  }

  datatype Guard = Passed | Refused | Over | GuardStopped

  ghost function SuccessorTotal(blocks: seq<Block>): nat {
    if blocks == [] then 0
    else SuccessorTotal(blocks[..|blocks| - 1]) + |blocks[|blocks| - 1].terminator.successors|
  }

  lemma {:induction false} SuccessorTotalGrows(blocks: seq<Block>, i: nat)
    requires i <= |blocks|
    ensures SuccessorTotal(blocks[..i]) <= SuccessorTotal(blocks)
    decreases |blocks| - i
  {
    if i == |blocks| {
      assert blocks[..i] == blocks;
    } else {
      SuccessorTotalGrows(blocks, i + 1);
      assert blocks[..i + 1][..i] == blocks[..i];
    }
  }

  lemma SuccessorStep(blocks: seq<Block>, i: nat)
    requires i < |blocks|
    ensures SuccessorTotal(blocks[..i + 1]) == SuccessorTotal(blocks[..i]) + |blocks[i].terminator.successors|
    ensures SuccessorTotal(blocks[..i + 1]) <= SuccessorTotal(blocks)
  {
    SuccessorTotalGrows(blocks, i + 1);
    assert blocks[..i + 1][..i] == blocks[..i];
  }

  /** What the graph guard demands of a body, budgets aside. */
  ghost predicate GraphAcceptable(blocks: seq<Block>) {
    && DistinctIndices(blocks) && 0 in BlockTable(blocks) && TermsValid(blocks, |blocks|)
    && AllTargetsInside(blocks, BlockTable(blocks).Keys)
  }

  lemma AcceptableIsClosed(blocks: seq<Block>)
    requires GraphAcceptable(blocks)
    ensures ClosedGraph(BlockTable(blocks))
  {
    var cfg := BlockTable(blocks);
    forall b, e | b in cfg && e in cfg[b].terminator.successors
      ensures e.target in cfg
    {
      var k :| 0 <= k < |blocks| && blocks[k] == cfg[b];
      assert TargetsInside(blocks[k], cfg.Keys);
      var i :| 0 <= i < |blocks[k].terminator.successors| && blocks[k].terminator.successors[i] == e;
    }
  }

  ghost predicate LimitsValid(limits: Limits) {
    1 <= limits.maxBlocks <= 4096 && 1 <= limits.maxEdges <= 20_000 && 1024 <= limits.maxResponseBytes <= 2_097_152
  }

  ghost predicate PageComplete(page: FlowPage) {
    && page.offset == 0 && page.nextOffset.None? && page.totalBlocks == |page.body.blocks|
    && page.runtimeOptimized && page.knownPanicStrategy && page.available && page.identified
  }

  /** The report itself when it fits, else without its locations when that fits, else nothing. */
  ghost predicate Fitted(report: Report, reportBytes: Report -> nat, maxBytes: nat, result: Result<Report, Error>) {
    match result
    case Ok(fitted) =>
      reportBytes(fitted) <= maxBytes && (fitted == report || (fitted == Withheld(report) && reportBytes(report) > maxBytes))
    case Err(error) => error == BudgetExhausted && reportBytes(report) > maxBytes && reportBytes(Withheld(report)) > maxBytes
  }

  /** Withholds locations, not counts, when the serialized report is too large. */
  method Finish(report: Report, reportBytes: Report -> nat, maxBytes: nat) returns (result: Result<Report, Error>)
    ensures Fitted(report, reportBytes, maxBytes, result)
  {
    if reportBytes(report) <= maxBytes { return Ok(report); }
    var withheld := report.(reachable := [], unreachable := {}, exits := [], locationsTruncated := true);
    if reportBytes(withheld) > maxBytes { return Err(BudgetExhausted); }
    return Ok(withheld);
  }

  /** What a report says is exact for the reachable blocks of the body. */
  ghost predicate Published(blocks: seq<Block>, report: Report, fired: bool) {
    || report == NOTHING || report == Withheld(NOTHING)
    || (GraphAcceptable(blocks) && exists reached :: Describes(BlockTable(blocks), reached, report, fired))
  }

  /** A report of the analysis before its size is known; unless a poll fired it is cut exactly over a budget. */
  ghost predicate Analyzed(blocks: seq<Block>, limits: Limits, report: Report, fired: bool) {
    && Published(blocks, report, fired) && !report.locationsTruncated
    && (!report.truncated ==> !OverBudget(blocks, limits))
    && (report.truncated && !fired ==> OverBudget(blocks, limits))
  }

  /** Why an undisturbed analysis gives no value. */
  ghost predicate OverBudget(blocks: seq<Block>, limits: Limits) {
    |blocks| > limits.maxBlocks || SuccessorTotal(blocks) > limits.maxEdges || TooManyEdges(BlockTable(blocks), limits.maxEdges)
  }

  /** Withholding the locations keeps what the report says about the measure. */
  lemma WithheldIsPublished(blocks: seq<Block>, report: Report, fired: bool)
    requires Published(blocks, report, fired)
    ensures Published(blocks, Withheld(report), fired)
  {
    if report != NOTHING && report != Withheld(NOTHING) {
      var reached :| Describes(BlockTable(blocks), reached, report, fired);
      assert Describes(BlockTable(blocks), reached, Withheld(report), fired);
    }
  }

  /** The part that looks at the body. A refused body has no report. */
  method AnalyzeBlocks(blocks: seq<Block>, limits: Limits, control: Control) returns (report: Option<Report>)
    modifies control
    ensures report.Some? && !report.value.truncated ==> control.fired == old(control.fired)
    ensures report.None? ==> !GraphAcceptable(blocks)
    ensures report.Some? ==> Analyzed(blocks, limits, report.value, control.fired)
  {
    var stop := control.Stopped();
    if stop || |blocks| > limits.maxBlocks { return Some(NOTHING); }
    var guard := GuardBlocks(blocks, limits.maxEdges, control);
    if guard == Refused { return None; }
    if guard != Passed { return Some(NOTHING); }
    AcceptableIsClosed(blocks);
    var measured, reached := Measure(BlockTable(blocks), limits.maxEdges, control);
    return Some(measured);
  }

  /** Why a page is refused before its body is looked at. */
  ghost function PageRefusal(page: FlowPage, limits: Limits): Option<Error> {
    if !LimitsValid(limits) then Some(InvalidInput)
    else if page.bytes > 4 * 1024 * 1024 then Some(BudgetExhausted)
    else if !PageComplete(page) then Some(InvalidInput)
    else None
  }

  /** The whole analysis; its checked subtraction cannot fail, so no other error is possible. full is
      the report before its size is known, so the last clause names what an oversized answer withheld. */
  method Analyze(page: FlowPage, limits: Limits, reportBytes: Report -> nat, control: Control)
    returns (result: Result<Report, Error>, ghost full: Report)
    modifies control
    ensures !full.truncated ==> control.fired == old(control.fired)
    ensures PageRefusal(page, limits).Some? ==> result == Err(PageRefusal(page, limits).value)
    ensures PageRefusal(page, limits).None? ==>
      if result == Err(InvalidInput) then !GraphAcceptable(page.body.blocks)
      else Analyzed(page.body.blocks, limits, full, control.fired) && Fitted(full, reportBytes, limits.maxResponseBytes, result)
    ensures result.Ok? ==> Published(page.body.blocks, result.value, control.fired)
  {
    full := NOTHING;
    if !(1 <= limits.maxBlocks <= 4096 && 1 <= limits.maxEdges <= 20_000 && 1024 <= limits.maxResponseBytes <= 2_097_152) {
      return Err(InvalidInput), full;
    }
    if page.bytes > 4 * 1024 * 1024 { return Err(BudgetExhausted), full; }
    if page.offset != 0 || page.nextOffset.Some? || page.totalBlocks != |page.body.blocks| { return Err(InvalidInput), full; }
    if !page.runtimeOptimized || !page.knownPanicStrategy || !page.available || !page.identified { return Err(InvalidInput), full; }
    var report := AnalyzeBlocks(page.body.blocks, limits, control);
    if report.None? { return Err(InvalidInput), full; }
    full := report.value;
    WithheldIsPublished(page.body.blocks, report.value, control.fired);
    result := Finish(report.value, reportBytes, limits.maxResponseBytes);
  }
}
