/** Reaching definitions as a statement about execution paths.

    A path through a body produces a trace of events: clearing a local (a move or a storage
    event), defining a local at a point, or an unknown memory effect. What is true of a local at
    the end of a trace is decided by the last event that touches it. Nothing here mentions the
    abstract states of the analysis. */
module Traces {
  import opened Mir

  datatype Point =
    | Entry
    | StatementPoint(block: nat, index: nat)
    | TerminatorPoint(block: nat)
    | NormalReturn(block: nat, target: nat)

  datatype Definition = Definition(local: nat, point: Point)

  datatype Event = Clear(local: nat) | Define(local: nat, point: Point) | Taint(effect: UnknownEffect)

  datatype Fact =
    | Reached
    | Defined(definition: Definition)
    | Uninitialized(local: nat)
    | Tainted(effect: UnknownEffect)

  ghost predicate Touches(event: Event, local: nat) {
    (event.Clear? || event.Define?) && event.local == local
  }

  /** Event i is the last one of the trace that touches the local. */
  ghost predicate LastTouch(trace: seq<Event>, i: int, local: nat) {
    0 <= i < |trace| && Touches(trace[i], local)
    && forall j :: i < j < |trace| ==> !Touches(trace[j], local)
  }

  /** What a fact means at the end of one concrete trace. */
  ghost predicate TrueOf(trace: seq<Event>, fact: Fact) {
    match fact
    case Reached => true
    case Defined(d) =>
      exists i :: LastTouch(trace, i, d.local) && trace[i] == Define(d.local, d.point)
    case Uninitialized(x) =>
      (forall i :: 0 <= i < |trace| ==> !Touches(trace[i], x))
      || exists i :: LastTouch(trace, i, x) && trace[i].Clear?
    case Tainted(e) => Taint(e) in trace
  }

  // ---- events of the program parts ----

  ghost function Clears(locals: seq<nat>): seq<Event> {
    seq(|locals|, i requires 0 <= i < |locals| => Clear(locals[i]))
  }

  ghost function Defines(locals: seq<nat>, point: Point): seq<Event> {
    seq(|locals|, i requires 0 <= i < |locals| => Define(locals[i], point))
  }

  ghost function Taints(effects: seq<UnknownEffect>): seq<Event> {
    seq(|effects|, i requires 0 <= i < |effects| => Taint(effects[i]))
  }

  /** Moves and storage events clear, then whole-local assignments define, then effects taint. */
  ghost function EffectEvents(effects: LocalEffects, point: Point): seq<Event> {
    Clears(effects.moves + effects.storageLive + effects.storageDead)
    + Defines(effects.defs, point) + Taints(effects.unknown)
  }

  predicate Suspends(terminator: Terminator) {
    terminator.kind == Yield
    || exists i :: 0 <= i < |terminator.successors|
                   && (terminator.successors[i].kind == Resume || terminator.successors[i].kind == CoroutineDrop)
  }

  /** Suspension points always carry the external-state effect. */
  function TerminatorEffects(block: Block): LocalEffects {
    var effects := block.terminator.locals;
    if Suspends(block.terminator) && ExternalState !in effects.unknown
    then effects.(unknown := effects.unknown + [ExternalState])
    else effects
  }

  /** The program items of a block in execution order, with their points. */
  function Items(block: Block): seq<(Point, LocalEffects)> {
    seq(|block.statements|, i requires 0 <= i < |block.statements| =>
      (StatementPoint(block.index, block.statements[i].index), block.statements[i].locals))
    + [(TerminatorPoint(block.index), TerminatorEffects(block))]
  }

  ghost function ItemEvents(items: seq<(Point, LocalEffects)>): seq<Event> {
    if items == [] then []
    else ItemEvents(items[..|items| - 1]) + EffectEvents(items[|items| - 1].1, items[|items| - 1].0)
  }

  /** Call destinations become defined only on the normal-return edge. */
  ghost function EdgeEvents(block: Block, edge: Successor): seq<Event> {
    if edge.kind == Normal
    then Defines(block.terminator.normalReturnDefs, NormalReturn(block.index, edge.target))
    else []
  }

  ghost function StepEvents(block: Block, edge: Successor): seq<Event> {
    ItemEvents(Items(block)) + EdgeEvents(block, edge)
  }

  /** Arguments 1..=count are defined at entry. */
  ghost function EntryEvents(argumentCount: nat): seq<Event> {
    seq(argumentCount, i requires 0 <= i < argumentCount => Define(i + 1, Entry))
  }

  // ---- paths ----

  datatype Path = Start | Via(before: Path, block: nat, edge: Successor)

  ghost predicate RuntimeEdge(block: Block, edge: Successor) {
    edge in block.terminator.successors && edge.kind != Imaginary
  }

  /** A path of non-imaginary edges from block 0 to the given block. */
  ghost predicate IsPath(cfg: map<nat, Block>, path: Path, block: nat) {
    match path
    case Start => block == 0
    case Via(before, source, edge) =>
      source in cfg && RuntimeEdge(cfg[source], edge) && edge.target == block
      && IsPath(cfg, before, source)
  }

  ghost function Trace(cfg: map<nat, Block>, argumentCount: nat, path: Path): seq<Event> {
    match path
    case Start => EntryEvents(argumentCount)
    case Via(before, source, edge) =>
      Trace(cfg, argumentCount, before) + (if source in cfg then StepEvents(cfg[source], edge) else [])
  }

  /** Some path to the block makes the fact true there, before the block runs. */
  ghost predicate AtEntry(cfg: map<nat, Block>, argumentCount: nat, block: nat, fact: Fact) {
    exists path :: IsPath(cfg, path, block) && TrueOf(Trace(cfg, argumentCount, path), fact)
  }

  /** Some path makes the fact true after it has also run the given events of the block. */
  ghost predicate AfterEvents(cfg: map<nat, Block>, argumentCount: nat, block: nat, events: seq<Event>, fact: Fact) {
    exists path :: IsPath(cfg, path, block) && TrueOf(Trace(cfg, argumentCount, path) + events, fact)
  }

  // ---- one event, and many, as generation and removal of facts ----

  ghost predicate Generates(event: Event, fact: Fact) {
    match event
    case Clear(x) => fact == Uninitialized(x)
    case Define(x, p) => fact == Defined(Definition(x, p))
    case Taint(e) => fact == Tainted(e)
  }

  ghost predicate Removes(event: Event, fact: Fact) {
    match fact
    case Defined(d) => Touches(event, d.local)
    case Uninitialized(x) => Touches(event, x)
    case _ => false
  }

  ghost predicate GeneratedBy(events: seq<Event>, fact: Fact) {
    events != [] &&
    var last := events[|events| - 1];
    Generates(last, fact) || (GeneratedBy(events[..|events| - 1], fact) && !Removes(last, fact))
  }

  ghost predicate RemovedBy(events: seq<Event>, fact: Fact) {
    events != [] && (Removes(events[|events| - 1], fact) || RemovedBy(events[..|events| - 1], fact))
  }

  lemma {:induction false} EventStep(trace: seq<Event>, event: Event, fact: Fact)
    ensures TrueOf(trace + [event], fact)
       <==> Generates(event, fact) || (TrueOf(trace, fact) && !Removes(event, fact))
  {
    var longer := trace + [event];
    assert forall i :: 0 <= i < |trace| ==> longer[i] == trace[i];
    assert longer[|trace|] == event;
    if fact.Defined? || fact.Uninitialized? {
      var x := if fact.Defined? then fact.definition.local else fact.local;
      if Touches(event, x) {
        assert LastTouch(longer, |trace|, x);
        assert forall i :: LastTouch(longer, i, x) ==> i == |trace|;
      } else {
        forall i ensures LastTouch(longer, i, x) <==> LastTouch(trace, i, x) {
          if LastTouch(trace, i, x) {
            assert forall j :: i < j < |longer| ==> !Touches(longer[j], x);
          }
          if LastTouch(longer, i, x) {
            assert i != |trace|;
            assert forall j :: i < j < |trace| ==> !Touches(longer[j], x);
          }
        }
        if fact.Defined? && TrueOf(trace, fact) {
          var i :| LastTouch(trace, i, x) && trace[i] == Define(x, fact.definition.point);
          assert LastTouch(longer, i, x);
        }
        if fact.Uninitialized? && TrueOf(trace, fact) && exists i :: LastTouch(trace, i, x) {
          var i :| LastTouch(trace, i, x) && trace[i].Clear?;
          assert LastTouch(longer, i, x);
        }
        if fact.Uninitialized? && TrueOf(longer, fact) && forall i :: 0 <= i < |longer| ==> !Touches(longer[i], x) {
          assert forall i :: 0 <= i < |trace| ==> !Touches(longer[i], x);
        }
      }
    }
  }

  /** Running events after a trace keeps the facts they do not remove and adds those they generate. */
  lemma {:induction false} EventsStep(trace: seq<Event>, events: seq<Event>, fact: Fact)
    ensures TrueOf(trace + events, fact)
       <==> GeneratedBy(events, fact) || (TrueOf(trace, fact) && !RemovedBy(events, fact))
    decreases |events|
  {
    if events == [] {
      assert trace + events == trace;
    } else {
      var init, last := events[..|events| - 1], events[|events| - 1];
      assert trace + events == (trace + init) + [last];
      EventsStep(trace, init, fact);
      EventStep(trace + init, last, fact);
    }
  }

  /** Facts after a block's events: generated there on some reaching path, or carried through. */
  lemma {:induction false} AfterEventsExact(cfg: map<nat, Block>, argumentCount: nat, block: nat, events: seq<Event>, fact: Fact)
    ensures AfterEvents(cfg, argumentCount, block, events, fact)
       <==> (AtEntry(cfg, argumentCount, block, Reached) && GeneratedBy(events, fact))
            || (AtEntry(cfg, argumentCount, block, fact) && !RemovedBy(events, fact))
  {
    forall path { EventsStep(Trace(cfg, argumentCount, path), events, fact); }
    if AtEntry(cfg, argumentCount, block, Reached) && GeneratedBy(events, fact) {
      var path :| IsPath(cfg, path, block) && TrueOf(Trace(cfg, argumentCount, path), Reached);
      assert TrueOf(Trace(cfg, argumentCount, path) + events, fact);
    }
  }

  /** A path fact crosses every runtime edge of the block it holds in. */
  lemma {:induction false} CrossEdge(cfg: map<nat, Block>, argumentCount: nat, block: nat, edge: Successor, fact: Fact)
    requires block in cfg && RuntimeEdge(cfg[block], edge)
    requires AfterEvents(cfg, argumentCount, block, StepEvents(cfg[block], edge), fact)
    ensures AtEntry(cfg, argumentCount, edge.target, fact)
  {
    var path :| IsPath(cfg, path, block)
                && TrueOf(Trace(cfg, argumentCount, path) + StepEvents(cfg[block], edge), fact);
    var longer := Via(path, block, edge);
    assert IsPath(cfg, longer, edge.target);
    assert Trace(cfg, argumentCount, longer) == Trace(cfg, argumentCount, path) + StepEvents(cfg[block], edge);
  }
}
