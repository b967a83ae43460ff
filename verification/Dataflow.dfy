/** Whole-local reaching definitions: abstract states, the worklist fixed point and the emission.

    The abstract state is a value: it is cloned, joined, compared and stored per block. The
    in-place updates of the state become methods that return the updated value. */
module Dataflow {
  import opened Wrappers
  import opened Cancellation
  import opened Sums
  import opened Mir
  import opened Traces

  datatype Value = Value(definitions: set<Definition>, uninitialized: bool)

  /** A missing local means no tracked definition, possibly uninitialized. */
  datatype State = State(values: map<nat, Value>, unknown: set<UnknownEffect>)

  const EMPTY: State := State(map[], {})

  ghost predicate Holds(state: State, fact: Fact) {
    match fact
    case Reached => true
    case Defined(d) => d.local in state.values && d in state.values[d.local].definitions
    case Uninitialized(x) => x in state.values ==> state.values[x].uninitialized
    case Tainted(e) => e in state.unknown
  }

  /** The sparse form stores a local only with at least one definition, all of that local. */
  ghost predicate Canonical(state: State) {
    forall x :: x in state.values ==>
      && state.values[x].definitions != {}
      && forall d :: d in state.values[x].definitions ==> d.local == x
  }

  ghost predicate Below(a: State, b: State) {
    forall fact :: Holds(a, fact) ==> Holds(b, fact)
  }

  /** Canonical states are determined by their facts. */
  lemma SameFactsSameState(a: State, b: State)
    requires Canonical(a) && Canonical(b)
    requires forall fact :: Holds(a, fact) <==> Holds(b, fact)
    ensures a == b
  {
    LocalsContained(a, b);
    LocalsContained(b, a);
    forall x | x in a.values
      ensures a.values[x] == b.values[x]
    {
      assert Holds(a, Uninitialized(x)) <==> Holds(b, Uninitialized(x));
      forall d ensures d in a.values[x].definitions <==> d in b.values[x].definitions {
        assert Holds(a, Defined(d)) <==> Holds(b, Defined(d));
      }
    }
    forall e ensures e in a.unknown <==> e in b.unknown {
      assert Holds(a, Tainted(e)) <==> Holds(b, Tainted(e));
    }
  }

  lemma LocalsContained(a: State, b: State)
    requires Canonical(a) && Below(a, b)
    ensures a.values.Keys <= b.values.Keys
  {
    forall x | x in a.values
      ensures x in b.values
    {
      var d :| d in a.values[x].definitions;
      assert Holds(a, Defined(d));
    }
  }

  // ---- transfer ----

  ghost function Apply(state: State, event: Event): State {
    match event
    case Clear(x) => state.(values := state.values - {x})
    case Define(x, p) => state.(values := state.values[x := Value({Definition(x, p)}, false)])
    case Taint(e) => state.(unknown := state.unknown + {e})
  }

  ghost function ApplyAll(state: State, events: seq<Event>): State {
    if events == [] then state
    else Apply(ApplyAll(state, events[..|events| - 1]), events[|events| - 1])
  }

  lemma {:induction false} ApplySplit(state: State, first: seq<Event>, second: seq<Event>)
    ensures ApplyAll(state, first + second) == ApplyAll(ApplyAll(state, first), second)
    decreases |second|
  {
    if second == [] {
      assert first + second == first;
    } else {
      var init := second[..|second| - 1];
      assert (first + second)[..|first + second| - 1] == first + init;
      ApplySplit(state, first, init);
    }
  }

  /** The transfer of the abstract state is exactly the gen/kill of path facts. */
  lemma {:induction false} ApplyFacts(state: State, events: seq<Event>, fact: Fact)
    ensures Holds(ApplyAll(state, events), fact)
       <==> GeneratedBy(events, fact) || (Holds(state, fact) && !RemovedBy(events, fact))
    decreases |events|
  {
    if events != [] {
      ApplyFacts(state, events[..|events| - 1], fact);
    }
  }

  lemma {:induction false} ApplyCanonical(state: State, events: seq<Event>)
    requires Canonical(state)
    ensures Canonical(ApplyAll(state, events))
    decreases |events|
  {
    if events != [] {
      ApplyCanonical(state, events[..|events| - 1]);
    }
  }

  lemma PrefixStep<T>(s: seq<T>, i: int)
    requires 0 <= i < |s|
    ensures s[..i + 1] == s[..i] + [s[i]] && s[..i + 1][..i] == s[..i]
  {
  }

  method Transfer(state: State, effects: LocalEffects, point: Point) returns (after: State)
    ensures after == ApplyAll(state, EffectEvents(effects, point))
  {
    var cleared := effects.moves + effects.storageLive + effects.storageDead;
    ghost var clears, defines, taints := Clears(cleared), Defines(effects.defs, point), Taints(effects.unknown);
    after := state;
    for i := 0 to |cleared|
      invariant after == ApplyAll(state, clears[..i])
    {
      PrefixStep(clears, i);
      after := after.(values := after.values - {cleared[i]});
    }
    assert clears[..|cleared|] == clears;
    for i := 0 to |effects.defs|
      invariant after == ApplyAll(ApplyAll(state, clears), defines[..i])
    {
      PrefixStep(defines, i);
      var x := effects.defs[i];
      after := after.(values := after.values[x := Value({Definition(x, point)}, false)]);
    }
    assert defines[..|defines|] == defines;
    ApplySplit(state, clears, defines);
    for i := 0 to |effects.unknown|
      invariant after == ApplyAll(ApplyAll(state, clears + defines), taints[..i])
    {
      PrefixStep(taints, i);
      after := after.(unknown := after.unknown + {effects.unknown[i]});
    }
    assert taints[..|taints|] == taints;
    ApplySplit(state, clears + defines, taints);
  }

  // ---- join ----

  /** A local that only state tracks may be uninitialised on the other side. */
  ghost function MissingMarked(state: State, other: State): map<nat, Value> {
    map x | x in state.values ::
      if x in other.values then state.values[x] else state.values[x].(uninitialized := true)
  }

  method MarkMissing(state: State, other: State, control: Control) returns (marked: Option<map<nat, Value>>)
    modifies control
    ensures control.fired == (old(control.fired) || marked.None?)
    ensures marked.Some? ==> marked.value == MissingMarked(state, other)
  {
    var values := state.values;
    var pending := state.values.Keys;
    while pending != {}
      invariant control.fired == old(control.fired)
      invariant pending <= state.values.Keys == values.Keys
      invariant forall x :: x in values ==>
        values[x] == if x in pending || x in other.values then state.values[x]
                     else state.values[x].(uninitialized := true)
    {
      var x :| x in pending;
      var stop := control.Stopped();
      if stop { return None; }
      if x !in other.values {
        values := values[x := values[x].(uninitialized := true)];
      }
      pending := pending - {x};
    }
    return Some(values);
  }

  method AddOther(state: State, other: State, marked: map<nat, Value>, control: Control)
    returns (merged: Option<map<nat, Value>>)
    requires marked == MissingMarked(state, other)
    modifies control
    ensures control.fired == (old(control.fired) || merged.None?)
    ensures merged.Some? ==> merged.value.Keys == state.values.Keys + other.values.Keys
    ensures merged.Some? ==> forall x :: x in merged.value ==>
      merged.value[x] == if x in other.values then MergedValue(state, x, other.values[x])
                         else state.values[x].(uninitialized := true)
  {
    var values := marked;
    var pending := other.values.Keys;
    while pending != {}
      invariant control.fired == old(control.fired)
      invariant pending <= other.values.Keys
      invariant values.Keys == state.values.Keys + (other.values.Keys - pending)
      invariant forall x :: x in values ==>
        values[x] == if x in other.values && x !in pending
                     then MergedValue(state, x, other.values[x])
                     else marked[x]
    {
      var x :| x in pending;
      var stop := control.Stopped();
      if stop { return None; }
      var destination := if x in values then values[x] else Value({}, true);
      var value := other.values[x];
      values := values[x := Value(destination.definitions + value.definitions,
                                  destination.uninitialized || value.uninitialized)];
      pending := pending - {x};
    }
    return Some(values);
  }

  /** Merges other into state, local by local; None when the poll asked to stop. */
  method Join(state: State, other: State, control: Control) returns (joined: Option<State>)
    modifies control
    ensures control.fired == (old(control.fired) || joined.None?)
    ensures joined.Some? ==>
      forall fact :: Holds(joined.value, fact) <==> Holds(state, fact) || Holds(other, fact)
    ensures joined.Some? && Canonical(state) && Canonical(other) ==> Canonical(joined.value)
  {
    var marked := MarkMissing(state, other, control);
    if marked.None? { return None; }
    var merged := AddOther(state, other, marked.value, control);
    if merged.None? { return None; }
    var values := merged.value;
    joined := Some(State(values, state.unknown + other.unknown));
    forall fact
      ensures Holds(joined.value, fact) <==> Holds(state, fact) || Holds(other, fact)
    {
    }
  }

  ghost function MergedValue(state: State, x: nat, value: Value): Value {
    var prior := if x in state.values then state.values[x] else Value({}, true);
    Value(prior.definitions + value.definitions, prior.uninitialized || value.uninitialized)
  }

  // ---- fact counting ----

  ghost function FactCount(state: State): nat {
    |state.values| + Total(map x | x in state.values :: |state.values[x].definitions|) + |state.unknown|
  }

  method Facts(state: State) returns (count: nat)
    ensures count == FactCount(state)
  {
    count := |state.values| + |state.unknown|;
    ghost var sizes := map x | x in state.values :: |state.values[x].definitions|;
    var pending := state.values.Keys;
    ghost var rest := sizes;
    while pending != {}
      invariant pending <= state.values.Keys
      invariant rest.Keys == pending && forall x :: x in pending ==> rest[x] == sizes[x]
      invariant count + Total(rest) == FactCount(state)
    {
      var x :| x in pending;
      TotalSplit(rest, x);
      count := count + |state.values[x].definitions|;
      pending, rest := pending - {x}, rest - {x};
    }
  }

  // ---- the body as the analysis sees it ----

  ghost predicate EffectsInside(effects: LocalEffects, locals: set<nat>) {
    forall x :: x in effects.defs + effects.uses + effects.moves + effects.storageLive + effects.storageDead
                ==> x in locals
  }

  ghost predicate BlockInside(block: Block, locals: set<nat>, indices: set<nat>) {
    && (forall i :: 0 <= i < |block.statements| ==>
          block.statements[i].index == i && EffectsInside(block.statements[i].locals, locals))
    && EffectsInside(block.terminator.locals, locals)
    && (forall x :: x in block.terminator.normalReturnDefs ==> x in locals)
    && (forall e :: e in block.terminator.successors ==> e.target in indices)
  }

  ghost predicate WellFormed(cfg: map<nat, Block>, locals: set<nat>, argumentCount: nat) {
    && 0 in cfg && 0 in locals
    && (forall x :: 1 <= x <= argumentCount ==> x in locals)
    && (forall b :: b in cfg ==> cfg[b].index == b && BlockInside(cfg[b], locals, cfg.Keys))
  }

  /** Every point of the body at which some local is defined. */
  ghost function DefinitionSites(cfg: map<nat, Block>, argumentCount: nat): set<Definition> {
    DefinedBy(EntryEvents(argumentCount))
    + (set b, d | b in cfg && d in BlockSites(cfg[b]) :: d)
  }

  ghost function DefinedBy(events: seq<Event>): set<Definition> {
    set e | e in events && e.Define? :: Definition(e.local, e.point)
  }

  /** The definitions a block can make, in its items and on its normal edges. */
  ghost function BlockSites(block: Block): set<Definition> {
    DefinedBy(ItemEvents(Items(block)))
    + (set e, d | e in block.terminator.successors && d in DefinedBy(EdgeEvents(block, e)) :: d)
  }

  ghost function AllEffects(): (effects: set<UnknownEffect>)
    ensures |effects| == 10
  {
    {Call, IndirectCall, PointerAliasing, BorrowAliasing, PartialWrite,
     Drop, InlineAssembly, Intrinsic, Retag, ExternalState}
  }

  lemma EveryEffect(e: UnknownEffect)
    ensures e in AllEffects()
  {
    match e case _ => {}
  }

  /** The facts that can distinguish states of this body. */
  ghost function FactSpace(cfg: map<nat, Block>, locals: set<nat>, argumentCount: nat): set<Fact> {
    {Reached}
    + (set d | d in DefinitionSites(cfg, argumentCount) :: Defined(d))
    + (set x | x in locals :: Uninitialized(x))
    + (set e | e in AllEffects() :: Tainted(e))
  }

  lemma FactSpaceSize(cfg: map<nat, Block>, locals: set<nat>, argumentCount: nat)
    ensures |FactSpace(cfg, locals, argumentCount)|
         <= FactBound(cfg, locals, argumentCount)
  {
    var sites := DefinitionSites(cfg, argumentCount);
    var a := set d | d in sites :: Defined(d);
    var b := set x | x in locals :: Uninitialized(x);
    var c := set e | e in AllEffects() :: Tainted(e);
    ImageSize(sites, a, d => Defined(d));
    ImageSize(locals, b, x => Uninitialized(x));
    ImageSize(AllEffects(), c, e => Tainted(e));
    UnionSize({Reached}, a);
    UnionSize({Reached} + a, b);
    UnionSize({Reached} + a + b, c);
  }

  ghost function FactBound(cfg: map<nat, Block>, locals: set<nat>, argumentCount: nat): nat {
    1 + |DefinitionSites(cfg, argumentCount)| + |locals| + 10
  }

  /** The number of pops after which the worklist must be empty. */
  ghost function PopBound(cfg: map<nat, Block>, locals: set<nat>, argumentCount: nat): int {
    |cfg| * FactBound(cfg, locals, argumentCount)
  }

  /** The state only speaks of this body's locals and definition sites. */
  ghost predicate Inside(state: State, locals: set<nat>, sites: set<Definition>) {
    forall x :: x in state.values ==> x in locals && state.values[x].definitions <= sites
  }

  lemma {:induction false} ApplyInside(state: State, events: seq<Event>, locals: set<nat>, sites: set<Definition>)
    requires Inside(state, locals, sites)
    requires forall d :: d in DefinedBy(events) ==> d.local in locals && d in sites
    ensures Inside(ApplyAll(state, events), locals, sites)
    decreases |events|
  {
    if events != [] {
      var init, last := events[..|events| - 1], events[|events| - 1];
      assert forall e :: e in init ==> e in events;
      assert last in events;
      if last.Define? {
        assert Definition(last.local, last.point) in DefinedBy(events);
      }
      ApplyInside(state, init, locals, sites);
    }
  }

  lemma {:induction false} ItemEventsInside(items: seq<(Point, LocalEffects)>, locals: set<nat>)
    requires forall i :: 0 <= i < |items| ==> EffectsInside(items[i].1, locals)
    ensures forall d :: d in DefinedBy(ItemEvents(items)) ==> d.local in locals
    decreases |items|
  {
    if items != [] {
      ItemEventsInside(items[..|items| - 1], locals);
      var last := items[|items| - 1];
      assert EffectsInside(last.1, locals);
      forall x | x in last.1.defs ensures x in locals {
        assert x in last.1.defs + last.1.uses + last.1.moves + last.1.storageLive + last.1.storageDead;
      }
    }
  }

  lemma SitesInside(cfg: map<nat, Block>, locals: set<nat>, argumentCount: nat, b: nat, edge: Successor)
    requires WellFormed(cfg, locals, argumentCount) && b in cfg && edge in cfg[b].terminator.successors
    ensures forall d :: d in DefinedBy(StepEvents(cfg[b], edge)) ==>
              d.local in locals && d in DefinitionSites(cfg, argumentCount)
  {
    ItemSitesInside(cfg, locals, argumentCount, b);
    var block := cfg[b];
    forall d | d in DefinedBy(EdgeEvents(block, edge))
      ensures d.local in locals && d in DefinitionSites(cfg, argumentCount)
    {
      assert d.local in block.terminator.normalReturnDefs;
      assert d in BlockSites(block);
    }
  }

  lemma ItemSitesInside(cfg: map<nat, Block>, locals: set<nat>, argumentCount: nat, b: nat)
    requires WellFormed(cfg, locals, argumentCount) && b in cfg
    ensures forall d :: d in DefinedBy(ItemEvents(Items(cfg[b]))) ==>
              d.local in locals && d in DefinitionSites(cfg, argumentCount)
  {
    var block := cfg[b];
    assert BlockInside(block, locals, cfg.Keys);
    var items := Items(block);
    forall i | 0 <= i < |items|
      ensures EffectsInside(items[i].1, locals)
    {
    }
    ItemEventsInside(items, locals);
    forall d | d in DefinedBy(ItemEvents(items))
      ensures d in DefinitionSites(cfg, argumentCount)
    {
      assert d in BlockSites(block);
    }
  }

  // ---- the fixed point ----

  ghost predicate Covers(entries: map<nat, State>, target: nat, state: State) {
    target in entries && Below(state, entries[target])
  }

  /** Every runtime edge of the block carries its exit state into the target's entry. */
  ghost predicate Closed(cfg: map<nat, Block>, entries: map<nat, State>, b: nat)
    requires b in cfg && b in entries
  {
    forall e :: RuntimeEdge(cfg[b], e) ==> Covers(entries, e.target, ApplyAll(entries[b], StepEvents(cfg[b], e)))
  }

  /** What the worklist keeps about the entry states, whatever order it runs in. */
  ghost predicate Sound(cfg: map<nat, Block>, locals: set<nat>, argumentCount: nat, entries: map<nat, State>) {
    && entries.Keys <= cfg.Keys
    && Covers(entries, 0, ApplyAll(EMPTY, EntryEvents(argumentCount)))
    && (forall b :: b in entries ==> SoundAt(cfg, locals, argumentCount, b, entries[b]))
  }

  /** The state is in canonical form, inside the body, and each of its facts has a witnessing path. */
  ghost predicate SoundAt(cfg: map<nat, Block>, locals: set<nat>, argumentCount: nat, b: nat, state: State) {
    && Canonical(state) && Inside(state, locals, DefinitionSites(cfg, argumentCount))
    && (forall fact :: Holds(state, fact) ==> AtEntry(cfg, argumentCount, b, fact))
  }

  /** Entry states agree with paths, fact by fact. */
  ghost predicate Exact(cfg: map<nat, Block>, argumentCount: nat, entries: map<nat, State>) {
    forall b, fact :: AtEntry(cfg, argumentCount, b, fact) <==> b in entries && Holds(entries[b], fact)
  }

  lemma {:induction false} PathCovered(cfg: map<nat, Block>, locals: set<nat>, argumentCount: nat,
                                       entries: map<nat, State>, path: Path, b: nat, fact: Fact)
    requires WellFormed(cfg, locals, argumentCount) && Sound(cfg, locals, argumentCount, entries)
    requires forall s :: s in entries ==> Closed(cfg, entries, s)
    requires IsPath(cfg, path, b) && TrueOf(Trace(cfg, argumentCount, path), fact)
    ensures b in entries && Holds(entries[b], fact)
    decreases path
  {
    match path
    case Start =>
      var events := EntryEvents(argumentCount);
      assert [] + events == events;
      EventsStep([], events, fact);
      ApplyFacts(EMPTY, events, fact);
    case Via(before, source, edge) =>
      var events := StepEvents(cfg[source], edge);
      EventsStep(Trace(cfg, argumentCount, before), events, fact);
      assert TrueOf(Trace(cfg, argumentCount, before), Reached);
      PathCovered(cfg, locals, argumentCount, entries, before, source, Reached);
      if TrueOf(Trace(cfg, argumentCount, before), fact) {
        PathCovered(cfg, locals, argumentCount, entries, before, source, fact);
      }
      ApplyFacts(entries[source], events, fact);
      assert Covers(entries, edge.target, ApplyAll(entries[source], events));
  }

  /** A sound table closed under every block is exactly the meet over all paths. */
  lemma ClosedIsExact(cfg: map<nat, Block>, locals: set<nat>, argumentCount: nat, entries: map<nat, State>)
    requires WellFormed(cfg, locals, argumentCount) && Sound(cfg, locals, argumentCount, entries)
    requires forall b :: b in entries ==> Closed(cfg, entries, b)
    ensures Exact(cfg, argumentCount, entries)
  {
    forall b, fact | AtEntry(cfg, argumentCount, b, fact)
      ensures b in entries && Holds(entries[b], fact)
    {
      var path :| IsPath(cfg, path, b) && TrueOf(Trace(cfg, argumentCount, path), fact);
      PathCovered(cfg, locals, argumentCount, entries, path, b, fact);
    }
  }

  /** The converged table is unique: it cannot depend on worklist or successor order. */
  lemma ExactIsUnique(cfg: map<nat, Block>, argumentCount: nat, a: map<nat, State>, b: map<nat, State>)
    requires Exact(cfg, argumentCount, a) && Exact(cfg, argumentCount, b)
    requires forall s :: s in a ==> Canonical(a[s])
    requires forall s :: s in b ==> Canonical(b[s])
    ensures a == b
  {
    forall s ensures s in a <==> s in b {
      assert AtEntry(cfg, argumentCount, s, Reached) <==> s in a && Holds(a[s], Reached);
      assert AtEntry(cfg, argumentCount, s, Reached) <==> s in b && Holds(b[s], Reached);
    }
    forall s | s in a
      ensures a[s] == b[s]
    {
      forall fact ensures Holds(a[s], fact) <==> Holds(b[s], fact) {
        assert AtEntry(cfg, argumentCount, s, fact) <==> s in a && Holds(a[s], fact);
        assert AtEntry(cfg, argumentCount, s, fact) <==> s in b && Holds(b[s], fact);
      }
      SameFactsSameState(a[s], b[s]);
    }
  }

  // ---- the termination measure ----

  /** One token for every block reached and every fact known at its entry. */
  ghost function Tokens(space: set<Fact>, entries: map<nat, State>): set<(nat, Fact)> {
    set b, fact | b in entries && fact in space && Holds(entries[b], fact) :: (b, fact)
  }

  lemma Scale(a: nat, b: nat, c: nat)
    requires b <= c
    ensures a * b <= a * c
  {
  }

  lemma TokensBounded(cfg: map<nat, Block>, locals: set<nat>, argumentCount: nat, entries: map<nat, State>)
    requires entries.Keys <= cfg.Keys
    ensures |Tokens(FactSpace(cfg, locals, argumentCount), entries)| <= PopBound(cfg, locals, argumentCount)
  {
    var space := FactSpace(cfg, locals, argumentCount);
    FactSpaceSize(cfg, locals, argumentCount);
    var tokens := Tokens(space, entries);
    ProductSize(tokens, cfg.Keys, space);
    Scale(|cfg|, |space|, FactBound(cfg, locals, argumentCount));
  }

  /** Storing a new entry, or a strictly larger one, adds a token. */
  lemma TokensGrow(space: set<Fact>, entries: map<nat, State>, target: nat, state: State)
    requires Reached in space
    requires target in entries ==> Below(entries[target], state)
    requires target in entries ==> exists fact :: fact in space && Holds(state, fact) && !Holds(entries[target], fact)
    ensures |Tokens(space, entries[target := state])| > |Tokens(space, entries)|
  {
    var before, after := Tokens(space, entries), Tokens(space, entries[target := state]);
    assert before <= after;
    if target in entries {
      var fact :| fact in space && Holds(state, fact) && !Holds(entries[target], fact);
      assert (target, fact) in after && (target, fact) !in before;
    } else {
      assert (target, Reached) in after && (target, Reached) !in before;
    }
    SubsetSize(before, after);
  }

  /** Two canonical states of the body that differ, differ on a fact of its space. */
  lemma NewFact(cfg: map<nat, Block>, locals: set<nat>, argumentCount: nat, before: State, after: State)
    requires Canonical(before) && Canonical(after) && Below(before, after) && before != after
    requires Inside(before, locals, DefinitionSites(cfg, argumentCount))
    requires Inside(after, locals, DefinitionSites(cfg, argumentCount))
    ensures exists fact :: fact in FactSpace(cfg, locals, argumentCount) && Holds(after, fact) && !Holds(before, fact)
  {
    if forall fact :: Holds(after, fact) ==> Holds(before, fact) {
      SameFactsSameState(before, after);
    }
    var fact :| Holds(after, fact) && !Holds(before, fact);
    match fact
    case Reached =>
    case Defined(d) =>
    case Uninitialized(x) =>
    case Tainted(e) => EveryEffect(e);
  }

  // ---- the worklist ----

  datatype Limits = Limits(maxBlocks: nat, maxLocals: nat, maxFacts: nat, maxIterations: nat, maxResponseBytes: nat)

  datatype Limitation =
    | BodyBudget | InputByteBudget | InputFactBudget | ArgumentFactBudget | TransferFactBudget
    | TerminatorFactBudget | IterationBudget | RetainedFactBudget | OutputFactBudget | ResponseByteBudget

  datatype BlockRun = Exit(state: State) | RunStopped | RunLimited(why: Limitation)

  /** Some state inside the block holds more facts than the budget allows. */
  ghost predicate BlockExceeds(block: Block, entry: State, maxFacts: nat) {
    exists i :: 0 <= i <= |Items(block)| && FactCount(ApplyAll(entry, ItemEvents(Items(block)[..i]))) > maxFacts
  }

  /** After each of the first n items the state is within the budget. */
  ghost predicate StaysWithin(items: seq<(Point, LocalEffects)>, entry: State, maxFacts: nat, n: nat)
    requires n <= |items|
  {
    forall i :: 0 < i <= n ==> FactCount(ApplyAll(entry, ItemEvents(items[..i]))) <= maxFacts
  }

  lemma StaysNext(items: seq<(Point, LocalEffects)>, entry: State, maxFacts: nat, n: nat)
    requires n < |items| && StaysWithin(items, entry, maxFacts, n)
    requires FactCount(ApplyAll(entry, ItemEvents(items[..n + 1]))) <= maxFacts
    ensures StaysWithin(items, entry, maxFacts, n + 1)
  {
  }

  /** Runs the items of one block over its entry state, within the state fact budget. */
  method RunBlock(block: Block, entry: State, maxFacts: nat, control: Control) returns (run: BlockRun)
    requires forall i :: 0 <= i < |block.statements| ==> block.statements[i].index == i
    modifies control
    ensures control.fired == (old(control.fired) || run.RunStopped?)
    ensures run.Exit? ==> run.state == ApplyAll(entry, ItemEvents(Items(block)))
    ensures run.Exit? ==> FactCount(run.state) <= maxFacts && StaysWithin(Items(block), entry, maxFacts, |Items(block)|)
    ensures run.RunLimited? ==> BlockExceeds(block, entry, maxFacts)
    ensures run.RunLimited? ==> run.why == TransferFactBudget || run.why == TerminatorFactBudget
  {
    ghost var items := Items(block);
    var state := entry;
    for i := 0 to |block.statements|
      invariant control.fired == old(control.fired)
      invariant state == ApplyAll(entry, ItemEvents(items[..i])) && StaysWithin(items, entry, maxFacts, i)
    {
      var stop := control.Stopped();
      if stop { return RunStopped; }
      var statement := block.statements[i];
      PrefixStep(items, i);
      ApplySplit(entry, ItemEvents(items[..i]), EffectEvents(items[i].1, items[i].0));
      state := Transfer(state, statement.locals, StatementPoint(block.index, statement.index));
      var count := Facts(state);
      if count > maxFacts {
        assert state == ApplyAll(entry, ItemEvents(items[..i + 1]));
        return RunLimited(TransferFactBudget);
      }
      StaysNext(items, entry, maxFacts, i);
    }
    var last := |block.statements|;
    PrefixStep(items, last);
    assert items[..last + 1] == items;
    ApplySplit(entry, ItemEvents(items[..last]), EffectEvents(items[last].1, items[last].0));
    state := Transfer(state, TerminatorEffects(block), TerminatorPoint(block.index));
    var count := Facts(state);
    if count > maxFacts {
      assert state == ApplyAll(entry, ItemEvents(items[..last + 1]));
      return RunLimited(TerminatorFactBudget);
    }
    StaysNext(items, entry, maxFacts, last);
    return Exit(state);
  }

  /** Adds the call destinations on a normal edge. */
  method EdgeExit(block: Block, state: State, edge: Successor) returns (outgoing: State)
    ensures outgoing == ApplyAll(state, EdgeEvents(block, edge))
  {
    outgoing := state;
    if edge.kind == Normal {
      ghost var events := EdgeEvents(block, edge);
      for i := 0 to |block.terminator.normalReturnDefs|
        invariant outgoing == ApplyAll(state, events[..i])
      {
        PrefixStep(events, i);
        var x := block.terminator.normalReturnDefs[i];
        outgoing := outgoing.(values :=
          outgoing.values[x := Value({Definition(x, NormalReturn(block.index, edge.target))}, false)]);
      }
      assert events[..|events|] == events;
    }
  }

  /** The abstract state at function entry. */
  method EntryState(argumentCount: nat) returns (entry: State)
    ensures entry == ApplyAll(EMPTY, EntryEvents(argumentCount))
  {
    entry := EMPTY;
    ghost var events := EntryEvents(argumentCount);
    for i := 0 to argumentCount
      invariant entry == ApplyAll(EMPTY, events[..i])
    {
      PrefixStep(events, i);
      entry := entry.(values := entry.values[i + 1 := Value({Definition(i + 1, Entry)}, false)]);
    }
    assert events[..argumentCount] == events;
  }

  lemma EntryIsSound(cfg: map<nat, Block>, locals: set<nat>, argumentCount: nat, entry: State)
    requires WellFormed(cfg, locals, argumentCount)
    requires entry == ApplyAll(EMPTY, EntryEvents(argumentCount))
    ensures Sound(cfg, locals, argumentCount, map[0 := entry])
  {
    var events := EntryEvents(argumentCount);
    ApplyCanonical(EMPTY, events);
    forall d | d in DefinedBy(events)
      ensures d.local in locals && d in DefinitionSites(cfg, argumentCount)
    {
      var e :| e in events && e.Define? && d == Definition(e.local, e.point);
      var i :| 0 <= i < |events| && events[i] == e;
    }
    ApplyInside(EMPTY, events, locals, DefinitionSites(cfg, argumentCount));
    assert Trace(cfg, argumentCount, Start) == events && IsPath(cfg, Start, 0);
    forall fact | Holds(entry, fact)
      ensures AtEntry(cfg, argumentCount, 0, fact)
    {
      ApplyFacts(EMPTY, events, fact);
      EventsStep([], events, fact);
      assert [] + events == events;
    }
  }

  /** What leaves a block along an edge is sound at the target. */
  lemma OutgoingIsSound(cfg: map<nat, Block>, locals: set<nat>, argumentCount: nat,
                        b: nat, entry: State, edge: Successor)
    requires WellFormed(cfg, locals, argumentCount)
    requires b in cfg && SoundAt(cfg, locals, argumentCount, b, entry) && RuntimeEdge(cfg[b], edge)
    ensures SoundAt(cfg, locals, argumentCount, edge.target, ApplyAll(entry, StepEvents(cfg[b], edge)))
  {
    var events := StepEvents(cfg[b], edge);
    ApplyCanonical(entry, events);
    SitesInside(cfg, locals, argumentCount, b, edge);
    ApplyInside(entry, events, locals, DefinitionSites(cfg, argumentCount));
    forall fact | Holds(ApplyAll(entry, events), fact)
      ensures AtEntry(cfg, argumentCount, edge.target, fact)
    {
      ApplyFacts(entry, events, fact);
      AfterEventsExact(cfg, argumentCount, b, events, fact);
      assert Holds(entry, Reached);
      CrossEdge(cfg, argumentCount, b, edge, fact);
    }
  }

  ghost predicate Grows(before: map<nat, State>, after: map<nat, State>) {
    forall b :: b in before ==> Covers(after, b, before[b])
  }

  ghost function RetainedFacts(entries: map<nat, State>): nat {
    Total(FactCounts(entries))
  }

  ghost function FactCounts(entries: map<nat, State>): map<nat, nat> {
    map b | b in entries :: FactCount(entries[b])
  }

  lemma FactCountsUpdate(entries: map<nat, State>, target: nat, state: State)
    ensures FactCounts(entries[target := state]) == FactCounts(entries)[target := FactCount(state)]
  {
  }

  lemma RetainedUpdate(entries: map<nat, State>, target: nat, state: State)
    ensures RetainedFacts(entries[target := state])
         == RetainedFacts(entries) - (if target in entries then FactCount(entries[target]) else 0) + FactCount(state)
    ensures target in entries ==> FactCount(entries[target]) <= RetainedFacts(entries)
  {
    TotalUpdate(FactCounts(entries), target, FactCount(state));
    FactCountsUpdate(entries, target, state);
  }

  /** The mutable variables of the search. */
  datatype Table = Table(entries: map<nat, State>, worklist: set<nat>, retained: nat)

  /** What one pop, and each of its pushes, keeps about the table. */
  ghost predicate TableInvariant(cfg: map<nat, Block>, locals: set<nat>, argumentCount: nat, maxFacts: nat, table: Table) {
    && Sound(cfg, locals, argumentCount, table.entries)
    && table.worklist <= table.entries.Keys
    && table.retained == RetainedFacts(table.entries) <= maxFacts
  }

  /** Work done and pending never exceeds the tokens collected. */
  ghost function Slack(space: set<Fact>, table: Table): int {
    |Tokens(space, table.entries)| - |table.worklist|
  }

  /** The later table only adds to the earlier one, and re-queues every block whose entry changed. */
  ghost predicate Advances(space: set<Fact>, before: Table, after: Table) {
    && Grows(before.entries, after.entries)
    && before.worklist <= after.worklist
    && (forall b :: b in after.entries && b !in after.worklist ==>
          b in before.entries && after.entries[b] == before.entries[b])
    && Slack(space, after) >= Slack(space, before)
  }

  lemma AdvancesTransitive(space: set<Fact>, a: Table, b: Table, c: Table)
    requires Advances(space, a, b) && Advances(space, b, c)
    ensures Advances(space, a, c)
  {
    forall s | s in a.entries
      ensures Covers(c.entries, s, a.entries[s])
    {
      assert Covers(b.entries, s, a.entries[s]);
      assert Covers(c.entries, s, b.entries[s]);
    }
  }

  /** Replacing an entry by a larger sound state keeps the table sound. */
  lemma StoreIsSound(cfg: map<nat, Block>, locals: set<nat>, argumentCount: nat,
                     entries: map<nat, State>, target: nat, state: State)
    requires Sound(cfg, locals, argumentCount, entries)
    requires target in cfg && SoundAt(cfg, locals, argumentCount, target, state)
    requires target in entries ==> Below(entries[target], state)
    ensures Sound(cfg, locals, argumentCount, entries[target := state])
  {
  }

  lemma StoredGrows(entries: map<nat, State>, target: nat, stored: State)
    requires target in entries ==> Below(entries[target], stored)
    ensures Grows(entries, entries[target := stored])
  {
  }

  lemma StoreAdvances(cfg: map<nat, Block>, locals: set<nat>, argumentCount: nat,
                      table: Table, target: nat, stored: State, after: Table)
    requires target in table.entries ==> SoundAt(cfg, locals, argumentCount, target, table.entries[target])
    requires SoundAt(cfg, locals, argumentCount, target, stored)
    requires target in table.entries ==> table.entries[target] != stored && Below(table.entries[target], stored)
    requires after.entries == table.entries[target := stored] && after.worklist == table.worklist + {target}
    ensures Advances(FactSpace(cfg, locals, argumentCount), table, after)
  {
    var space := FactSpace(cfg, locals, argumentCount);
    if target in table.entries {
      NewFact(cfg, locals, argumentCount, table.entries[target], stored);
    }
    TokensGrow(space, table.entries, target, stored);
    UnionSize(table.worklist, {target});
    StoredGrows(table.entries, target, stored);
  }

  lemma StoreStep(cfg: map<nat, Block>, locals: set<nat>, argumentCount: nat, maxFacts: nat,
                  table: Table, target: nat, stored: State, after: Table)
    requires TableInvariant(cfg, locals, argumentCount, maxFacts, table)
    requires target in cfg && SoundAt(cfg, locals, argumentCount, target, stored)
    requires target in table.entries ==> table.entries[target] != stored && Below(table.entries[target], stored)
    requires after.entries == table.entries[target := stored] && after.worklist == table.worklist + {target}
    requires after.retained == RetainedFacts(after.entries) <= maxFacts
    ensures TableInvariant(cfg, locals, argumentCount, maxFacts, after)
    ensures Advances(FactSpace(cfg, locals, argumentCount), table, after)
  {
    StoreIsSound(cfg, locals, argumentCount, table.entries, target, stored);
    StoreAdvances(cfg, locals, argumentCount, table, target, stored, after);
  }

  datatype Push = Pushed(table: Table) | PushStopped | PushLimited

  /** Facts that paths establish are more than the budget allows. */
  ghost predicate TableExceeds(cfg: map<nat, Block>, locals: set<nat>, argumentCount: nat, maxFacts: nat) {
    exists entries :: Sound(cfg, locals, argumentCount, entries) && RetainedFacts(entries) > maxFacts
  }

  /** The joined or fresh entry state of an edge's target; None when the poll asked to stop. */
  method Merge(entries: map<nat, State>, target: nat, outgoing: State, control: Control) returns (stored: Option<State>)
    requires target in entries ==> Canonical(entries[target])
    requires Canonical(outgoing)
    modifies control
    ensures control.fired == (old(control.fired) || stored.None?)
    ensures stored.Some? && target !in entries ==> stored.value == outgoing
    ensures stored.Some? && target in entries ==> Canonical(stored.value) && forall fact ::
              Holds(stored.value, fact) <==> Holds(entries[target], fact) || Holds(outgoing, fact)
  {
    if target in entries {
      stored := Join(entries[target], outgoing, control);
    } else {
      stored := Some(outgoing);
    }
  }

  /** Sends a sound outgoing state to a block: join, compare, account, store, enqueue. */
  method PushState(cfg: map<nat, Block>, ghost locals: set<nat>, ghost argumentCount: nat, maxFacts: nat,
                   table: Table, target: nat, outgoing: State, control: Control)
    returns (push: Push)
    requires WellFormed(cfg, locals, argumentCount) && TableInvariant(cfg, locals, argumentCount, maxFacts, table)
    requires target in cfg && SoundAt(cfg, locals, argumentCount, target, outgoing)
    modifies control
    ensures control.fired == (old(control.fired) || push.PushStopped?)
    ensures push.Pushed? ==>
              && TableInvariant(cfg, locals, argumentCount, maxFacts, push.table)
              && Advances(FactSpace(cfg, locals, argumentCount), table, push.table)
              && Covers(push.table.entries, target, outgoing)
    ensures push.PushLimited? ==> TableExceeds(cfg, locals, argumentCount, maxFacts)
  {
    var merged := Merge(table.entries, target, outgoing, control);
    if merged.None? { return PushStopped; }
    var stored := merged.value;
    if target in table.entries {
      JoinIsSound(cfg, locals, argumentCount, target, table.entries[target], outgoing, stored);
      if stored == table.entries[target] { return Pushed(table); }
    }
    push := StoreState(cfg, locals, argumentCount, maxFacts, table, target, stored);
  }

  /** Replaces a block's entry state, within the fact budget, and queues the block. */
  method StoreState(cfg: map<nat, Block>, ghost locals: set<nat>, ghost argumentCount: nat, maxFacts: nat,
                    table: Table, target: nat, stored: State)
    returns (push: Push)
    requires TableInvariant(cfg, locals, argumentCount, maxFacts, table)
    requires target in cfg && SoundAt(cfg, locals, argumentCount, target, stored)
    requires target in table.entries ==> table.entries[target] != stored && Below(table.entries[target], stored)
    ensures push.Pushed? ==>
      && push.table.entries == table.entries[target := stored]
      && TableInvariant(cfg, locals, argumentCount, maxFacts, push.table)
      && Advances(FactSpace(cfg, locals, argumentCount), table, push.table)
    ensures push.PushLimited? ==> TableExceeds(cfg, locals, argumentCount, maxFacts)
    ensures !push.PushStopped?
  {
    RetainedUpdate(table.entries, target, stored);
    var previousFacts := 0;
    if target in table.entries { previousFacts := Facts(table.entries[target]); }
    var storedFacts := Facts(stored);
    var retained := table.retained - previousFacts + storedFacts;
    if retained > maxFacts {
      StoreIsSound(cfg, locals, argumentCount, table.entries, target, stored);
      return PushLimited;
    }
    push := Pushed(Table(table.entries[target := stored], table.worklist + {target}, retained));
    StoreStep(cfg, locals, argumentCount, maxFacts, table, target, stored, push.table);
  }

  /** Sends a block's exit state along one edge. */
  method PushEdge(cfg: map<nat, Block>, ghost locals: set<nat>, ghost argumentCount: nat, maxFacts: nat,
                  table: Table, block: Block, state: State, edge: Successor, ghost entry: State, control: Control)
    returns (push: Push)
    requires WellFormed(cfg, locals, argumentCount) && TableInvariant(cfg, locals, argumentCount, maxFacts, table)
    requires block.index in cfg && cfg[block.index] == block && RuntimeEdge(block, edge)
    requires SoundAt(cfg, locals, argumentCount, block.index, entry)
    requires state == ApplyAll(entry, ItemEvents(Items(block)))
    modifies control
    ensures control.fired == (old(control.fired) || push.PushStopped?)
    ensures push.Pushed? ==>
              && TableInvariant(cfg, locals, argumentCount, maxFacts, push.table)
              && Advances(FactSpace(cfg, locals, argumentCount), table, push.table)
              && Covers(push.table.entries, edge.target, ApplyAll(entry, StepEvents(block, edge)))
    ensures push.PushLimited? ==> TableExceeds(cfg, locals, argumentCount, maxFacts)
  {
    assert edge.target in cfg by { assert BlockInside(block, locals, cfg.Keys); }
    var stop := control.Stopped();
    if stop { return PushStopped; }
    var outgoing := EdgeExit(block, state, edge);
    ApplySplit(entry, ItemEvents(Items(block)), EdgeEvents(block, edge));
    OutgoingIsSound(cfg, locals, argumentCount, block.index, entry, edge);
    push := PushState(cfg, locals, argumentCount, maxFacts, table, edge.target, outgoing, control);
  }

  lemma JoinIsSound(cfg: map<nat, Block>, locals: set<nat>, argumentCount: nat, b: nat,
                    previous: State, outgoing: State, merged: State)
    requires SoundAt(cfg, locals, argumentCount, b, previous) && SoundAt(cfg, locals, argumentCount, b, outgoing)
    requires forall fact :: Holds(merged, fact) <==> Holds(previous, fact) || Holds(outgoing, fact)
    requires Canonical(merged)
    ensures SoundAt(cfg, locals, argumentCount, b, merged) && Below(previous, merged) && Below(outgoing, merged)
  {
    var sites := DefinitionSites(cfg, argumentCount);
    forall x | x in merged.values
      ensures x in locals && merged.values[x].definitions <= sites
    {
      forall d | d in merged.values[x].definitions
        ensures x in locals && d in sites
      {
        assert Holds(merged, Defined(d));
      }
    }
  }

  /** The order in which the source sorts the edges is one of these. */
  method AnyOrder(successors: seq<Successor>) returns (edges: seq<Successor>)
    ensures multiset(edges) == multiset(successors)
  {
    assert multiset(successors) == multiset(successors);
    edges :| multiset(edges) == multiset(successors);
  }

  /** The runtime edges among the first few are carried into the table. */
  ghost predicate Carried(edges: seq<Successor>, block: Block, entry: State, entries: map<nat, State>) {
    forall i :: 0 <= i < |edges| && edges[i].kind != Imaginary ==>
      Covers(entries, edges[i].target, ApplyAll(entry, StepEvents(block, edges[i])))
  }

  lemma CarriedGrows(edges: seq<Successor>, block: Block, entry: State, before: map<nat, State>, after: map<nat, State>)
    requires Carried(edges, block, entry, before) && Grows(before, after)
    ensures Carried(edges, block, entry, after)
  {
    forall i | 0 <= i < |edges| && edges[i].kind != Imaginary
      ensures Covers(after, edges[i].target, ApplyAll(entry, StepEvents(block, edges[i])))
    {
      assert Covers(before, edges[i].target, ApplyAll(entry, StepEvents(block, edges[i])));
    }
  }

  lemma ClosedGrows(cfg: map<nat, Block>, b: nat, before: map<nat, State>, after: map<nat, State>)
    requires b in cfg && b in before && b in after && Closed(cfg, before, b) && Grows(before, after)
    requires after[b] == before[b]
    ensures Closed(cfg, after, b)
  {
    forall e | RuntimeEdge(cfg[b], e)
      ensures Covers(after, e.target, ApplyAll(after[b], StepEvents(cfg[b], e)))
    {
      assert Covers(before, e.target, ApplyAll(before[b], StepEvents(cfg[b], e)));
    }
  }

  datatype Search =
    | Converged(entries: map<nat, State>, iterations: nat)
    | SearchStopped(iterations: nat)
    | SearchLimited(iterations: nat, why: Limitation)

  ghost predicate Settled(cfg: map<nat, Block>, table: Table) {
    forall b :: b in cfg && b in table.entries && b !in table.worklist ==> Closed(cfg, table.entries, b)
  }

  /** After all its edges are carried, a popped block is settled unless it was queued again. */
  lemma SettledAgain(cfg: map<nat, Block>, space: set<Fact>, before: Table, after: Table, index: nat)
    requires before.entries.Keys <= cfg.Keys && after.entries.Keys <= cfg.Keys && index in before.entries
    requires forall b :: b in before.entries && b !in before.worklist && b != index ==> Closed(cfg, before.entries, b)
    requires Advances(space, before, after)
    requires Carried(cfg[index].terminator.successors, cfg[index], before.entries[index], after.entries)
    ensures Settled(cfg, after)
  {
    forall b | b in after.entries && b !in after.worklist
      ensures Closed(cfg, after.entries, b)
    {
      if b != index {
        ClosedGrows(cfg, b, before.entries, after.entries);
      } else {
        forall e | RuntimeEdge(cfg[index], e)
          ensures Covers(after.entries, e.target, ApplyAll(after.entries[index], StepEvents(cfg[index], e)))
        {
          var successors := cfg[index].terminator.successors;
          var i :| 0 <= i < |successors| && successors[i] == e;
        }
      }
    }
  }

  /** Pushes along every edge of a popped block; the block itself is settled again unless re-queued. */
  method PushEdges(cfg: map<nat, Block>, ghost locals: set<nat>, ghost argumentCount: nat, maxFacts: nat,
                   table: Table, index: nat, state: State, control: Control)
    returns (push: Push)
    requires WellFormed(cfg, locals, argumentCount) && TableInvariant(cfg, locals, argumentCount, maxFacts, table)
    requires index in table.entries && state == ApplyAll(table.entries[index], ItemEvents(Items(cfg[index])))
    modifies control
    ensures control.fired == (old(control.fired) || push.PushStopped?)
    ensures push.Pushed? ==>
              && TableInvariant(cfg, locals, argumentCount, maxFacts, push.table)
              && Advances(FactSpace(cfg, locals, argumentCount), table, push.table)
              && Carried(cfg[index].terminator.successors, cfg[index], table.entries[index], push.table.entries)
    ensures push.PushLimited? ==> TableExceeds(cfg, locals, argumentCount, maxFacts)
  {
    ghost var space := FactSpace(cfg, locals, argumentCount);
    var block := cfg[index];
    ghost var entry := table.entries[index];
    var edges := AnyOrder(block.terminator.successors);
    var current := table;
    for i := 0 to |edges|
      invariant control.fired == old(control.fired)
      invariant TableInvariant(cfg, locals, argumentCount, maxFacts, current)
      invariant Advances(space, table, current)
      invariant Carried(edges[..i], block, entry, current.entries)
    {
      var edge := edges[i];
      if edge.kind != Imaginary {
        assert edge in multiset(edges);
        var one := PushEdge(cfg, locals, argumentCount, maxFacts, current, block, state, edge, entry, control);
        if !one.Pushed? { return one; }
        CarriedStep(edges, i, block, entry, current.entries, one.table.entries);
        AdvancesTransitive(space, table, current, one.table);
        current := one.table;
      } else {
        CarriedSkip(edges, i, block, entry, current.entries);
      }
    }
    CarriedReordered(edges, block, entry, current.entries);
    return Pushed(current);
  }

  lemma CarriedStep(edges: seq<Successor>, i: nat, block: Block, entry: State, before: map<nat, State>, after: map<nat, State>)
    requires i < |edges| && Carried(edges[..i], block, entry, before) && Grows(before, after)
    requires Covers(after, edges[i].target, ApplyAll(entry, StepEvents(block, edges[i])))
    ensures Carried(edges[..i + 1], block, entry, after)
  {
    CarriedGrows(edges[..i], block, entry, before, after);
    PrefixStep(edges, i);
  }

  lemma CarriedSkip(edges: seq<Successor>, i: nat, block: Block, entry: State, entries: map<nat, State>)
    requires i < |edges| && Carried(edges[..i], block, entry, entries) && edges[i].kind == Imaginary
    ensures Carried(edges[..i + 1], block, entry, entries)
  {
    PrefixStep(edges, i);
  }

  lemma CarriedReordered(edges: seq<Successor>, block: Block, entry: State, entries: map<nat, State>)
    requires multiset(edges) == multiset(block.terminator.successors)
    requires Carried(edges[..|edges|], block, entry, entries)
    ensures Carried(block.terminator.successors, block, entry, entries)
  {
    assert edges[..|edges|] == edges;
    var successors := block.terminator.successors;
    forall k | 0 <= k < |successors| && successors[k].kind != Imaginary
      ensures Covers(entries, successors[k].target, ApplyAll(entry, StepEvents(block, successors[k])))
    {
      assert successors[k] in multiset(edges);
      var i :| 0 <= i < |edges| && edges[i] == successors[k];
    }
  }

  /** Runs one popped block and pushes its exit states. */
  method Visit(cfg: map<nat, Block>, ghost locals: set<nat>, ghost argumentCount: nat, maxFacts: nat,
               table: Table, index: nat, control: Control)
    returns (visited: Visited)
    requires WellFormed(cfg, locals, argumentCount) && TableInvariant(cfg, locals, argumentCount, maxFacts, table)
    requires index in table.entries
    requires forall b :: b in table.entries && b !in table.worklist && b != index ==> Closed(cfg, table.entries, b)
    modifies control
    ensures control.fired == (old(control.fired) || visited.VisitStopped?)
    ensures visited.Resumed? ==>
              && TableInvariant(cfg, locals, argumentCount, maxFacts, visited.table)
              && Settled(cfg, visited.table)
              && Slack(FactSpace(cfg, locals, argumentCount), visited.table)
                 >= Slack(FactSpace(cfg, locals, argumentCount), table)
    ensures visited.VisitLimited? ==> LimitIsReal(cfg, locals, argumentCount, maxFacts, visited.why)
  {
    assert BlockInside(cfg[index], locals, cfg.Keys);
    var run := RunBlock(cfg[index], table.entries[index], maxFacts, control);
    if run.RunStopped? { return VisitStopped; }
    if run.RunLimited? {
      assert SoundAt(cfg, locals, argumentCount, index, table.entries[index]);
      return VisitLimited(run.why);
    }
    var push := PushEdges(cfg, locals, argumentCount, maxFacts, table, index, run.state, control);
    if push.PushStopped? { return VisitStopped; }
    if push.PushLimited? { return VisitLimited(RetainedFactBudget); }
    SettledAgain(cfg, FactSpace(cfg, locals, argumentCount), table, push.table, index);
    return Resumed(push.table);
  }

  /** What a fact budget that stops the search is exceeded by. */
  ghost predicate LimitIsReal(cfg: map<nat, Block>, locals: set<nat>, argumentCount: nat, maxFacts: nat, why: Limitation) {
    match why
    case ArgumentFactBudget => FactCount(ApplyAll(EMPTY, EntryEvents(argumentCount))) > maxFacts
    case TransferFactBudget => RunExceeds(cfg, locals, argumentCount, maxFacts)
    case TerminatorFactBudget => RunExceeds(cfg, locals, argumentCount, maxFacts)
    case RetainedFactBudget => TableExceeds(cfg, locals, argumentCount, maxFacts)
    case _ => false
  }

  ghost predicate RunExceeds(cfg: map<nat, Block>, locals: set<nat>, argumentCount: nat, maxFacts: nat) {
    exists b, entry :: b in cfg && SoundAt(cfg, locals, argumentCount, b, entry) && BlockExceeds(cfg[b], entry, maxFacts)
  }

  datatype Visited = Resumed(table: Table) | VisitStopped | VisitLimited(why: Limitation)

  // ---- when the search must converge ----

  ghost predicate ExactTable(cfg: map<nat, Block>, argumentCount: nat, entries: map<nat, State>) {
    && Exact(cfg, argumentCount, entries)
    && forall b :: b in entries ==> b in cfg && Canonical(entries[b])
  }

  /** The facts that paths establish are within the budget, at the entry, in every block and in all. */
  ghost predicate Fits(cfg: map<nat, Block>, argumentCount: nat, entries: map<nat, State>, maxFacts: nat) {
    && FactCount(ApplyAll(EMPTY, EntryEvents(argumentCount))) <= maxFacts
    && RetainedFacts(entries) <= maxFacts
    && forall b :: b in entries && b in cfg ==> !BlockExceeds(cfg[b], entries[b], maxFacts)
  }

  ghost predicate Feasible(cfg: map<nat, Block>, locals: set<nat>, argumentCount: nat, limits: Limits) {
    && PopBound(cfg, locals, argumentCount) <= limits.maxIterations
    && exists entries :: ExactTable(cfg, argumentCount, entries) && Fits(cfg, argumentCount, entries, limits.maxFacts)
  }

  lemma CountGrows(a: State, b: State)
    requires Canonical(a) && Canonical(b) && Below(a, b)
    ensures FactCount(a) <= FactCount(b)
  {
    forall x | x in a.values
      ensures x in b.values && a.values[x].definitions <= b.values[x].definitions
    {
      var d :| d in a.values[x].definitions;
      assert Holds(a, Defined(d));
      forall e | e in a.values[x].definitions
        ensures e in b.values[x].definitions
      {
        assert Holds(a, Defined(e));
      }
      SubsetSize(a.values[x].definitions, b.values[x].definitions);
    }
    forall e | e in a.unknown
      ensures e in b.unknown
    {
      assert Holds(a, Tainted(e));
    }
    SubsetSize(a.values.Keys, b.values.Keys);
    SubsetSize(a.unknown, b.unknown);
    var sizesA := map x | x in a.values :: |a.values[x].definitions|;
    var sizesB := map x | x in b.values :: |b.values[x].definitions|;
    forall x | x in sizesA
      ensures sizesA[x] <= sizesB[x]
    {
      SubsetSize(a.values[x].definitions, b.values[x].definitions);
    }
    TotalGrows(sizesA, sizesB);
  }

  lemma ApplyGrows(a: State, b: State, events: seq<Event>)
    requires Canonical(a) && Canonical(b) && Below(a, b)
    ensures FactCount(ApplyAll(a, events)) <= FactCount(ApplyAll(b, events))
  {
    forall fact | Holds(ApplyAll(a, events), fact)
      ensures Holds(ApplyAll(b, events), fact)
    {
      ApplyFacts(a, events, fact);
      ApplyFacts(b, events, fact);
    }
    ApplyCanonical(a, events);
    ApplyCanonical(b, events);
    CountGrows(ApplyAll(a, events), ApplyAll(b, events));
  }

  lemma SoundIsBelowExact(cfg: map<nat, Block>, locals: set<nat>, argumentCount: nat, entries: map<nat, State>, b: nat, state: State)
    requires Exact(cfg, argumentCount, entries) && SoundAt(cfg, locals, argumentCount, b, state)
    ensures b in entries && Below(state, entries[b])
  {
    assert Holds(state, Reached);
  }

  lemma FittingBlock(cfg: map<nat, Block>, locals: set<nat>, argumentCount: nat, entries: map<nat, State>, maxFacts: nat, b: nat, entry: State)
    requires ExactTable(cfg, argumentCount, entries) && Fits(cfg, argumentCount, entries, maxFacts)
    requires b in cfg && SoundAt(cfg, locals, argumentCount, b, entry)
    ensures !BlockExceeds(cfg[b], entry, maxFacts)
  {
    SoundIsBelowExact(cfg, locals, argumentCount, entries, b, entry);
    forall i | 0 <= i <= |Items(cfg[b])|
      ensures FactCount(ApplyAll(entry, ItemEvents(Items(cfg[b])[..i]))) <= maxFacts
    {
      ApplyGrows(entry, entries[b], ItemEvents(Items(cfg[b])[..i]));
    }
  }

  lemma FittingTable(cfg: map<nat, Block>, locals: set<nat>, argumentCount: nat, entries: map<nat, State>, maxFacts: nat, sound: map<nat, State>)
    requires ExactTable(cfg, argumentCount, entries) && Fits(cfg, argumentCount, entries, maxFacts)
    requires Sound(cfg, locals, argumentCount, sound)
    ensures RetainedFacts(sound) <= maxFacts
  {
    forall b | b in sound
      ensures b in entries && FactCount(sound[b]) <= FactCount(entries[b])
    {
      SoundIsBelowExact(cfg, locals, argumentCount, entries, b, sound[b]);
      CountGrows(sound[b], entries[b]);
    }
    TotalGrows(FactCounts(sound), FactCounts(entries));
  }

  /** A limit that is reached is one the exact facts exceed. */
  lemma LimitRulesOutFit(cfg: map<nat, Block>, locals: set<nat>, argumentCount: nat, limits: Limits, why: Limitation)
    requires LimitIsReal(cfg, locals, argumentCount, limits.maxFacts, why)
    ensures !Feasible(cfg, locals, argumentCount, limits)
  {
    forall entries | ExactTable(cfg, argumentCount, entries)
      ensures !Fits(cfg, argumentCount, entries, limits.maxFacts)
    {
      if Fits(cfg, argumentCount, entries, limits.maxFacts) {
        if TableExceeds(cfg, locals, argumentCount, limits.maxFacts) {
          var sound :| Sound(cfg, locals, argumentCount, sound) && RetainedFacts(sound) > limits.maxFacts;
          FittingTable(cfg, locals, argumentCount, entries, limits.maxFacts, sound);
        } else if RunExceeds(cfg, locals, argumentCount, limits.maxFacts) {
          var b, entry :| b in cfg && SoundAt(cfg, locals, argumentCount, b, entry) && BlockExceeds(cfg[b], entry, limits.maxFacts);
          FittingBlock(cfg, locals, argumentCount, entries, limits.maxFacts, b, entry);
        }
      }
    }
  }

  lemma InitialTable(cfg: map<nat, Block>, locals: set<nat>, argumentCount: nat, maxFacts: nat, entry: State)
    requires WellFormed(cfg, locals, argumentCount)
    requires entry == ApplyAll(EMPTY, EntryEvents(argumentCount)) && FactCount(entry) <= maxFacts
    ensures TableInvariant(cfg, locals, argumentCount, maxFacts, Table(map[0 := entry], {0}, FactCount(entry)))
    ensures Slack(FactSpace(cfg, locals, argumentCount), Table(map[0 := entry], {0}, FactCount(entry))) >= 0
  {
    EntryIsSound(cfg, locals, argumentCount, entry);
    RetainedUpdate(map[], 0, entry);
    TokensGrow(FactSpace(cfg, locals, argumentCount), map[], 0, entry);
    assert map[][0 := entry] == map[0 := entry];
  }

  lemma PopKeeps(cfg: map<nat, Block>, locals: set<nat>, argumentCount: nat, maxFacts: nat, table: Table, index: nat)
    requires TableInvariant(cfg, locals, argumentCount, maxFacts, table) && Settled(cfg, table) && index in table.worklist
    ensures var popped := table.(worklist := table.worklist - {index});
            && TableInvariant(cfg, locals, argumentCount, maxFacts, popped)
            && (forall b :: b in popped.entries && b !in popped.worklist && b != index ==> Closed(cfg, popped.entries, b))
            && Slack(FactSpace(cfg, locals, argumentCount), popped) == Slack(FactSpace(cfg, locals, argumentCount), table) + 1
  {
  }

  /** The worklist search. Blocks are taken in any order and the edges of a block in any order, so
      the contract covers the source's ascending orders and every other one. */
  method FixedPoint(cfg: map<nat, Block>, ghost locals: set<nat>, argumentCount: nat, limits: Limits, control: Control)
    returns (search: Search)
    requires WellFormed(cfg, locals, argumentCount)
    modifies control
    ensures control.fired == (old(control.fired) || search.SearchStopped?)
    ensures search.Converged? ==>
              && TableInvariant(cfg, locals, argumentCount, limits.maxFacts, Table(search.entries, {}, RetainedFacts(search.entries)))
              && Exact(cfg, argumentCount, search.entries)
    ensures search.iterations <= limits.maxIterations
    ensures search.iterations <= PopBound(cfg, locals, argumentCount)
    ensures Feasible(cfg, locals, argumentCount, limits) && !control.fired ==> search.Converged?
    ensures search.SearchLimited? ==>
              if search.why == IterationBudget then limits.maxIterations < PopBound(cfg, locals, argumentCount)
              else LimitIsReal(cfg, locals, argumentCount, limits.maxFacts, search.why)
  {
    ghost var space := FactSpace(cfg, locals, argumentCount);
    var entry := EntryState(argumentCount);
    var iterations := 0;
    var retained := Facts(entry);
    TokensBounded(cfg, locals, argumentCount, map[]);
    if retained > limits.maxFacts {
      LimitRulesOutFit(cfg, locals, argumentCount, limits, ArgumentFactBudget);
      return SearchLimited(iterations, ArgumentFactBudget);
    }
    InitialTable(cfg, locals, argumentCount, limits.maxFacts, entry);
    var table := Table(map[0 := entry], {0}, retained);
    while table.worklist != {}
      invariant control.fired == old(control.fired)
      invariant TableInvariant(cfg, locals, argumentCount, limits.maxFacts, table)
      invariant Settled(cfg, table)
      invariant iterations <= limits.maxIterations
      invariant iterations <= Slack(space, table)
      decreases PopBound(cfg, locals, argumentCount) - iterations
    {
      TokensBounded(cfg, locals, argumentCount, table.entries);
      var index :| index in table.worklist;
      PopKeeps(cfg, locals, argumentCount, limits.maxFacts, table, index);
      table := table.(worklist := table.worklist - {index});
      var stop := control.Stopped();
      if stop { return SearchStopped(iterations); }
      if iterations == limits.maxIterations { return SearchLimited(iterations, IterationBudget); }
      iterations := iterations + 1;
      var visited := Visit(cfg, locals, argumentCount, limits.maxFacts, table, index, control);
      if visited.VisitStopped? { return SearchStopped(iterations); }
      if visited.VisitLimited? {
        LimitRulesOutFit(cfg, locals, argumentCount, limits, visited.why);
        return SearchLimited(iterations, visited.why);
      }
      table := visited.table;
    }
    TokensBounded(cfg, locals, argumentCount, table.entries);
    ClosedIsExact(cfg, locals, argumentCount, table.entries);
    return Converged(table.entries, iterations);
  }
}
