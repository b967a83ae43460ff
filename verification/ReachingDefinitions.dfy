/** Input guard, emission and report of the reaching-definitions analysis. */
module ReachingDefinitions {
  import opened Wrappers
  import opened Cancellation
  import opened Ordering
  import opened Sums
  import opened Mir
  import opened Traces
  import opened Dataflow

  // ---- input guard ----

  ghost predicate ValidLimits(limits: Limits) {
    1 <= limits.maxBlocks <= 4096 && 1 <= limits.maxLocals <= 4096 && 1 <= limits.maxFacts <= 200_000
    && 1 <= limits.maxIterations <= 1_000_000 && 1024 <= limits.maxResponseBytes <= 2 * 1024 * 1024
  }

  function LocalSet(locals: seq<Local>): set<nat> {
    set l | l in locals :: l.index
  }

  ghost predicate DistinctLocals(locals: seq<Local>) {
    forall i, j :: 0 <= i < j < |locals| ==> locals[i].index != locals[j].index
  }

  lemma LocalSetStep(init: seq<Local>, last: Local)
    ensures LocalSet(init + [last]) == LocalSet(init) + {last.index}
  {
  }

  lemma DistinctLocalsStep(init: seq<Local>, last: Local)
    ensures DistinctLocals(init + [last]) <==> DistinctLocals(init) && last.index !in LocalSet(init)
  {
    var locals := init + [last];
    assert forall i :: 0 <= i < |init| ==> locals[i] == init[i] && init[i].index in LocalSet(init);
    if last.index in LocalSet(init) {
      var l :| l in init && l.index == last.index;
      var i :| 0 <= i < |init| && init[i] == l;
      assert locals[i].index == locals[|init|].index;
    }
  }

  lemma {:induction false} LocalSetSize(locals: seq<Local>)
    ensures |LocalSet(locals)| <= |locals|
    ensures |LocalSet(locals)| == |locals| <==> DistinctLocals(locals)
  {
    if locals != [] {
      var init, last := locals[..|locals| - 1], locals[|locals| - 1];
      assert locals == init + [last];
      LocalSetSize(init);
      LocalSetStep(init, last);
      DistinctLocalsStep(init, last);
    }
  }

  /** What the analysis demands of a body, apart from budgets. */
  ghost predicate Acceptable(body: Body) {
    && DistinctIndices(body.blocks) && DistinctLocals(body.locals)
    && body.argumentCount < |body.locals|
    && WellFormed(BlockTable(body.blocks), LocalSet(body.locals), body.argumentCount)
  }

  function References(effects: LocalEffects): seq<nat> {
    effects.defs + effects.uses + effects.moves + effects.storageLive + effects.storageDead
  }

  function EffectFacts(effects: LocalEffects): nat {
    1 + |References(effects)| + |effects.unknown|
  }

  ghost function StatementFacts(statements: seq<Statement>): nat {
    if statements == [] then 0
    else StatementFacts(statements[..|statements| - 1]) + EffectFacts(statements[|statements| - 1].locals)
  }

  ghost function BlockFacts(block: Block): nat {
    StatementFacts(block.statements) + EffectFacts(block.terminator.locals)
    + |block.terminator.normalReturnDefs| + |block.terminator.successors|
  }

  ghost function BlocksFacts(blocks: seq<Block>): nat {
    if blocks == [] then 0
    else BlocksFacts(blocks[..|blocks| - 1]) + BlockFacts(blocks[|blocks| - 1])
  }

  ghost function InputFacts(body: Body): nat {
    |body.blocks| + |body.locals| + BlocksFacts(body.blocks)
  }

  datatype Tally = Counted(facts: nat) | TallyInvalid | TallyOver | TallyStopped

  /** Counts references one by one, refusing the first missing local or the first fact over budget. */
  method CountReferences(references: seq<nat>, locals: set<nat>, start: nat, maxFacts: nat) returns (tally: Tally)
    ensures tally.Counted? ==> tally.facts == start + |references| && forall x :: x in references ==> x in locals
    ensures tally.TallyInvalid? ==> exists x :: x in references && x !in locals
    ensures tally.TallyOver? ==> start + |references| > maxFacts
    ensures !tally.TallyStopped?
    ensures tally.Counted? && references != [] ==> tally.facts <= maxFacts
  {
    var facts := start;
    for i := 0 to |references|
      invariant facts == start + i
      invariant forall x :: x in references[..i] ==> x in locals
      invariant i > 0 ==> facts <= maxFacts
    {
      facts := facts + 1;
      if facts > maxFacts { return TallyOver; }
      if references[i] !in locals { return TallyInvalid; }
    }
    return Counted(facts);
  }

  method CountEffects(effects: LocalEffects, locals: set<nat>, start: nat, maxFacts: nat, control: Control) returns (tally: Tally)
    modifies control
    ensures control.fired == (old(control.fired) || tally.TallyStopped?)
    ensures tally.Counted? ==> tally.facts == start + EffectFacts(effects) <= maxFacts && EffectsInside(effects, locals)
    ensures tally.TallyInvalid? ==> !EffectsInside(effects, locals)
    ensures tally.TallyOver? ==> start + EffectFacts(effects) > maxFacts
  {
    tally := CountReferences(References(effects), locals, start + 1, maxFacts);
    if tally.Counted? {
      if tally.facts + |effects.unknown| > maxFacts { return TallyOver; }
      var stop := control.Stopped();
      if stop { return TallyStopped; }
      tally := Counted(tally.facts + |effects.unknown|);
    }
  }

  lemma {:induction false} StatementFactsGrow(statements: seq<Statement>, i: nat)
    requires i <= |statements|
    ensures StatementFacts(statements[..i]) + (|statements| - i) <= StatementFacts(statements)
    decreases |statements| - i
  {
    if i == |statements| {
      assert statements[..i] == statements;
    } else {
      StatementFactsGrow(statements, i + 1);
      assert statements[..i + 1][..i] == statements[..i];
    }
  }

  ghost predicate StatementsInside(statements: seq<Statement>, locals: set<nat>) {
    forall k :: 0 <= k < |statements| ==> statements[k].index == k && EffectsInside(statements[k].locals, locals)
  }

  method IndicesAscend(statements: seq<Statement>) returns (ok: bool)
    ensures ok <==> forall k :: 0 <= k < |statements| ==> statements[k].index == k
  {
    for i := 0 to |statements|
      invariant forall k :: 0 <= k < i ==> statements[k].index == k
    {
      if statements[i].index != i { return false; }
    }
    return true;
  }

  method CountStatementEffects(statements: seq<Statement>, locals: set<nat>, start: nat, maxFacts: nat, control: Control) returns (tally: Tally)
    requires start <= maxFacts
    modifies control
    ensures control.fired == (old(control.fired) || tally.TallyStopped?)
    ensures tally.Counted? ==> tally.facts == start + StatementFacts(statements) <= maxFacts
    ensures tally.Counted? ==> forall k :: 0 <= k < |statements| ==> EffectsInside(statements[k].locals, locals)
    ensures tally.TallyInvalid? ==> exists k :: 0 <= k < |statements| && !EffectsInside(statements[k].locals, locals)
    ensures tally.TallyOver? ==> start + StatementFacts(statements) > maxFacts
  {
    assert statements[..0] == [];
    var facts := start;
    for i := 0 to |statements|
      invariant control.fired == old(control.fired)
      invariant facts == start + StatementFacts(statements[..i]) <= maxFacts
      invariant forall k :: 0 <= k < i ==> EffectsInside(statements[k].locals, locals)
    {
      PrefixStep(statements, i);
      StatementFactsGrow(statements, i + 1);
      tally := CountEffects(statements[i].locals, locals, facts, maxFacts, control);
      if !tally.Counted? { return; }
      facts := tally.facts;
    }
    assert statements[..|statements|] == statements;
    return Counted(facts);
  }

  method CountStatements(statements: seq<Statement>, locals: set<nat>, start: nat, maxFacts: nat, control: Control) returns (tally: Tally)
    requires start <= maxFacts
    modifies control
    ensures control.fired == (old(control.fired) || tally.TallyStopped?)
    ensures tally.Counted? ==> tally.facts == start + StatementFacts(statements) <= maxFacts
    ensures tally.Counted? ==> StatementsInside(statements, locals)
    ensures tally.TallyInvalid? ==> !StatementsInside(statements, locals)
    ensures tally.TallyOver? ==> start + StatementFacts(statements) > maxFacts
  {
    assert statements[..0] == [];
    StatementFactsGrow(statements, 0);
    if start + |statements| > maxFacts { return TallyOver; }
    var ok := IndicesAscend(statements);
    if !ok { return TallyInvalid; }
    tally := CountStatementEffects(statements, locals, start, maxFacts, control);
  }

  method CountSuccessors(successors: seq<Successor>, indices: set<nat>, start: nat, maxFacts: nat) returns (tally: Tally)
    requires start <= maxFacts
    ensures tally.Counted? ==> tally.facts == start + |successors| <= maxFacts
    ensures tally.Counted? ==> forall e :: e in successors ==> e.target in indices
    ensures tally.TallyInvalid? ==> exists e :: e in successors && e.target !in indices
    ensures tally.TallyOver? ==> start + |successors| > maxFacts
    ensures !tally.TallyStopped?
  {
    var facts := start;
    for i := 0 to |successors|
      invariant facts == start + i <= maxFacts
      invariant forall e :: e in successors[..i] ==> e.target in indices
    {
      facts := facts + 1;
      if facts > maxFacts { return TallyOver; }
      if successors[i].target !in indices { return TallyInvalid; }
    }
    return Counted(facts);
  }

  /** What counting one block says about it. */
  ghost predicate Tallies(tally: Tally, block: Block, locals: set<nat>, indices: set<nat>, start: nat, maxFacts: nat) {
    match tally
    case Counted(facts) => facts == start + BlockFacts(block) <= maxFacts && BlockInside(block, locals, indices)
    case TallyInvalid => !BlockInside(block, locals, indices)
    case TallyOver => start + BlockFacts(block) > maxFacts
    case TallyStopped => true
  }

  method CountBlock(block: Block, locals: set<nat>, indices: set<nat>, start: nat, maxFacts: nat, control: Control) returns (tally: Tally)
    requires start <= maxFacts
    modifies control
    ensures control.fired == (old(control.fired) || tally.TallyStopped?)
    ensures Tallies(tally, block, locals, indices, start, maxFacts)
  {
    tally := CountStatements(block.statements, locals, start, maxFacts, control);
    if !tally.Counted? { return; }
    tally := CountEffects(block.terminator.locals, locals, tally.facts, maxFacts, control);
    if !tally.Counted? { return; }
    tally := CountReferences(block.terminator.normalReturnDefs, locals, tally.facts, maxFacts);
    if !tally.Counted? { return; }
    tally := CountSuccessors(block.terminator.successors, indices, tally.facts, maxFacts);
  }

  lemma {:induction false} BlocksFactsGrow(blocks: seq<Block>, i: nat)
    requires i <= |blocks|
    ensures BlocksFacts(blocks[..i]) <= BlocksFacts(blocks)
    decreases |blocks| - i
  {
    if i == |blocks| {
      assert blocks[..i] == blocks;
    } else {
      BlocksFactsGrow(blocks, i + 1);
      assert blocks[..i + 1][..i] == blocks[..i];
    }
  }

  datatype Guard =
    | Proceed(cfg: map<nat, Block>, locals: set<nat>)
    | GuardInvalid | GuardStopped | GuardLimited(why: Limitation)

  /** The input budgets. */
  ghost predicate WithinInput(body: Body, bodyBytes: nat, limits: Limits) {
    && |body.blocks| <= limits.maxBlocks && |body.locals| <= limits.maxLocals
    && bodyBytes <= 32 * 1024 * 1024 && InputFacts(body) <= limits.maxFacts
  }

  /** The body apart from the insides of its blocks. */
  ghost predicate Shaped(body: Body) {
    && DistinctIndices(body.blocks) && DistinctLocals(body.locals) && body.argumentCount < |body.locals|
    && 0 in BlockTable(body.blocks) && 0 in LocalSet(body.locals)
    && |BlockTable(body.blocks)| == |body.blocks| && |LocalSet(body.locals)| == |body.locals|
    && forall x :: 1 <= x <= body.argumentCount ==> x in LocalSet(body.locals)
  }

  ghost predicate BlocksInside(cfg: map<nat, Block>, locals: set<nat>) {
    forall b :: b in cfg ==> BlockInside(cfg[b], locals, cfg.Keys)
  }

  lemma AcceptableParts(body: Body)
    ensures Acceptable(body) <==> Shaped(body) && BlocksInside(BlockTable(body.blocks), LocalSet(body.locals))
  {
    TableSize(body.blocks);
    LocalSetSize(body.locals);
  }

  method CheckShape(body: Body, cfg: map<nat, Block>, locals: set<nat>) returns (ok: bool)
    requires cfg == BlockTable(body.blocks) && locals == LocalSet(body.locals)
    ensures ok <==> Shaped(body)
  {
    TableSize(body.blocks);
    LocalSetSize(body.locals);
    if body.blocks == [] || body.locals == [] { return false; }
    return !(|cfg| != |body.blocks| || |locals| != |body.locals| || 0 !in cfg || 0 !in locals
             || body.argumentCount >= |body.locals|
             || exists x :: 1 <= x <= body.argumentCount && x !in locals);
  }

  /** The checks before the search. An acceptable body within the budgets is never refused. */
  method InputGuard(body: Body, bodyBytes: nat, limits: Limits, control: Control) returns (guard: Guard)
    requires ValidLimits(limits)
    modifies control
    ensures control.fired == (old(control.fired) || guard.GuardStopped?)
    ensures guard.Proceed? ==>
      Acceptable(body) && guard.cfg == BlockTable(body.blocks) && guard.locals == LocalSet(body.locals)
    ensures guard.Proceed? ==>
      WithinInput(body, bodyBytes, limits)
    ensures guard.GuardInvalid? ==> !Acceptable(body)
    ensures guard.GuardLimited? ==>
      match guard.why
      case BodyBudget => |body.blocks| > limits.maxBlocks || |body.locals| > limits.maxLocals
      case InputByteBudget => bodyBytes > 32 * 1024 * 1024
      case InputFactBudget => InputFacts(body) > limits.maxFacts
      case _ => false
  {
    var stop := control.Stopped();
    if stop { return GuardStopped; }
    if |body.blocks| > limits.maxBlocks || |body.locals| > limits.maxLocals { return GuardLimited(BodyBudget); }
    if bodyBytes > 32 * 1024 * 1024 { return GuardLimited(InputByteBudget); }
    var cfg, locals := BlockTable(body.blocks), LocalSet(body.locals);
    var shaped := CheckShape(body, cfg, locals);
    AcceptableParts(body);
    if !shaped { return GuardInvalid; }
    var facts := |cfg| + |locals|;
    if facts > limits.maxFacts {
      stop := control.Stopped();
      return if stop then GuardStopped else GuardLimited(InputFactBudget);
    }
    guard := CountBlocks(body.blocks, cfg, locals, facts, limits.maxFacts, control);
  }

  lemma BlockFactsStep(blocks: seq<Block>, i: nat)
    requires i < |blocks|
    ensures BlocksFacts(blocks[..i + 1]) == BlocksFacts(blocks[..i]) + BlockFacts(blocks[i])
    ensures BlocksFacts(blocks[..i + 1]) <= BlocksFacts(blocks)
  {
    PrefixStep(blocks, i);
    BlocksFactsGrow(blocks, i + 1);
  }

  lemma AllInside(blocks: seq<Block>, cfg: map<nat, Block>, locals: set<nat>)
    requires cfg == BlockTable(blocks) && forall k :: 0 <= k < |blocks| ==> BlockInside(blocks[k], locals, cfg.Keys)
    ensures BlocksInside(cfg, locals)
  {
    forall b | b in cfg
      ensures BlockInside(cfg[b], locals, cfg.Keys)
    {
      var k :| 0 <= k < |blocks| && blocks[k] == cfg[b];
    }
  }

  lemma WholePrefix<T>(s: seq<T>)
    ensures s[..|s|] == s
  {
  }

  /** The first blocks are in order and cost the facts counted so far. */
  ghost predicate CountedTo(blocks: seq<Block>, i: nat, locals: set<nat>, indices: set<nat>, start: nat, facts: nat)
    requires i <= |blocks|
  {
    facts == start + BlocksFacts(blocks[..i]) && forall k :: 0 <= k < i ==> BlockInside(blocks[k], locals, indices)
  }

  lemma CountedNext(blocks: seq<Block>, i: nat, cfg: map<nat, Block>, locals: set<nat>, start: nat, facts: nat, maxFacts: nat, tally: Tally)
    requires DistinctIndices(blocks) && cfg == BlockTable(blocks) && i < |blocks|
    requires CountedTo(blocks, i, locals, cfg.Keys, start, facts) && Tallies(tally, blocks[i], locals, cfg.Keys, facts, maxFacts)
    ensures tally.Counted? ==> CountedTo(blocks, i + 1, locals, cfg.Keys, start, tally.facts) && tally.facts <= maxFacts
    ensures tally.TallyInvalid? ==> !BlocksInside(cfg, locals)
    ensures tally.TallyOver? ==> start + BlocksFacts(blocks) > maxFacts
  {
    BlockFactsStep(blocks, i);
    TableLookup(blocks, blocks[i]);
  }

  method CountBlocks(blocks: seq<Block>, cfg: map<nat, Block>, locals: set<nat>, start: nat, maxFacts: nat, control: Control)
    returns (guard: Guard)
    requires start <= maxFacts && DistinctIndices(blocks) && cfg == BlockTable(blocks)
    modifies control
    ensures control.fired == (old(control.fired) || guard.GuardStopped?)
    ensures guard.Proceed? ==> guard.cfg == cfg && guard.locals == locals
    ensures guard.Proceed? ==> start + BlocksFacts(blocks) <= maxFacts
    ensures guard.Proceed? ==> BlocksInside(cfg, locals)
    ensures guard.GuardInvalid? ==> !BlocksInside(cfg, locals)
    ensures guard.GuardLimited? ==> guard.why == InputFactBudget && start + BlocksFacts(blocks) > maxFacts
  {
    var facts: nat := start;
    for i := 0 to |blocks|
      invariant control.fired == old(control.fired)
      invariant CountedTo(blocks, i, locals, cfg.Keys, start, facts) && facts <= maxFacts
    {
      var stop := control.Stopped();
      if stop { return GuardStopped; }
      var tally := CountBlock(blocks[i], locals, cfg.Keys, facts, maxFacts, control);
      CountedNext(blocks, i, cfg, locals, start, facts, maxFacts, tally);
      match tally {
        case TallyInvalid => return GuardInvalid;
        case TallyOver => return GuardLimited(InputFactBudget);
        case TallyStopped => return GuardStopped;
        case Counted(sum) => facts := sum;
      }
    }
    WholePrefix(blocks);
    AllInside(blocks, cfg, locals);
    return Proceed(cfg, locals);
  }

  // ---- emission ----

  datatype LocalUse = LocalUse(
    local: nat, point: Point, reaching: set<Definition>,
    mayBeUninitialized: bool, possiblyChangedByUnknownMemory: bool)

  datatype MemoryEffect = MemoryEffect(point: Point, effects: set<UnknownEffect>)

  /** A use or a move reads the local. */
  ghost predicate Reads(effects: LocalEffects, x: nat) {
    x in effects.uses || x in effects.moves
  }

  function UsedLocals(effects: LocalEffects): set<nat> {
    set x | x in effects.uses + effects.moves
  }

  function UseOf(state: State, item: (Point, LocalEffects), x: nat): LocalUse {
    var value := if x in state.values then state.values[x] else Value({}, true);
    LocalUse(x, item.0, value.definitions, value.uninitialized, state.unknown != {} || item.1.unknown != [])
  }

  /** The use records of one item, by ascending local. */
  ghost function ItemUses(state: State, item: (Point, LocalEffects)): seq<LocalUse> {
    var used := Ascending(UsedLocals(item.1));
    seq(|used|, i requires 0 <= i < |used| => UseOf(state, item, used[i]))
  }

  ghost function UsesIn(items: seq<(Point, LocalEffects)>, entry: State): seq<LocalUse> {
    if items == [] then []
    else
      var init, last := items[..|items| - 1], items[|items| - 1];
      UsesIn(init, entry) + ItemUses(ApplyAll(entry, ItemEvents(init)), last)
  }

  /** All use records of the blocks in key order. */
  ghost function AllUses(cfg: map<nat, Block>, entries: map<nat, State>, keys: seq<nat>): seq<LocalUse>
    requires forall b :: b in keys ==> b in cfg && b in entries
  {
    if keys == [] then []
    else
      var init, last := keys[..|keys| - 1], keys[|keys| - 1];
      AllUses(cfg, entries, init) + UsesIn(Items(cfg[last]), entries[last])
  }

  ghost function MemoryEffects(items: seq<(Point, LocalEffects)>): seq<MemoryEffect> {
    if items == [] then []
    else
      var last := items[|items| - 1];
      MemoryEffects(items[..|items| - 1])
      + if last.1.unknown == [] then [] else [MemoryEffect(last.0, set e | e in last.1.unknown)]
  }

  ghost function AllMemoryEffects(cfg: map<nat, Block>, keys: seq<nat>): seq<MemoryEffect>
    requires forall b :: b in keys ==> b in cfg
  {
    if keys == [] then []
    else AllMemoryEffects(cfg, keys[..|keys| - 1]) + MemoryEffects(Items(cfg[keys[|keys| - 1]]))
  }

  ghost function AllSites(cfg: map<nat, Block>, argumentCount: nat, keys: seq<nat>): set<Definition>
    requires forall b :: b in keys ==> b in cfg
  {
    DefinedBy(EntryEvents(argumentCount)) + (set b, d | b in keys && d in BlockSites(cfg[b]) :: d)
  }

  // ---- what a use record means ----

  /** The record says exactly what holds over all paths to its point. */
  ghost predicate UseIsExact(cfg: map<nat, Block>, argumentCount: nat, b: nat, i: nat, use: LocalUse)
    requires b in cfg && i < |Items(cfg[b])|
  {
    var events := ItemEvents(Items(cfg[b])[..i]);
    && use.point == Items(cfg[b])[i].0
    && (forall d :: d in use.reaching <==>
          d.local == use.local && AfterEvents(cfg, argumentCount, b, events, Defined(d)))
    && (use.mayBeUninitialized <==> AfterEvents(cfg, argumentCount, b, events, Uninitialized(use.local)))
    && (use.possiblyChangedByUnknownMemory <==>
          Items(cfg[b])[i].1.unknown != []
          || exists e :: AfterEvents(cfg, argumentCount, b, events, Tainted(e)))
  }

  lemma StateIsExact(cfg: map<nat, Block>, argumentCount: nat, entries: map<nat, State>, b: nat,
                     events: seq<Event>, fact: Fact)
    requires Exact(cfg, argumentCount, entries) && b in entries
    ensures Holds(ApplyAll(entries[b], events), fact) <==> AfterEvents(cfg, argumentCount, b, events, fact)
  {
    ApplyFacts(entries[b], events, fact);
    AfterEventsExact(cfg, argumentCount, b, events, fact);
    assert AtEntry(cfg, argumentCount, b, fact) <==> b in entries && Holds(entries[b], fact);
    assert AtEntry(cfg, argumentCount, b, Reached) <==> b in entries && Holds(entries[b], Reached);
  }

  lemma RecordIsOfState(state: State, item: (Point, LocalEffects), use: LocalUse)
    requires use in ItemUses(state, item)
    ensures use == UseOf(state, item, use.local) && Reads(item.1, use.local)
  {
    var used := Ascending(UsedLocals(item.1));
    var k :| 0 <= k < |used| && ItemUses(state, item)[k] == use;
    assert used[k] in used;
  }

  /** The record of a used local is exact over paths. */
  lemma RecordIsExact(cfg: map<nat, Block>, argumentCount: nat, entries: map<nat, State>, b: nat, i: nat, x: nat)
    requires Exact(cfg, argumentCount, entries) && b in entries && b in cfg && Canonical(entries[b])
    requires i < |Items(cfg[b])|
    ensures UseIsExact(cfg, argumentCount, b, i,
                       UseOf(ApplyAll(entries[b], ItemEvents(Items(cfg[b])[..i])), Items(cfg[b])[i], x))
  {
    var events := ItemEvents(Items(cfg[b])[..i]);
    var state := ApplyAll(entries[b], events);
    ApplyCanonical(entries[b], events);
    forall fact
      ensures Holds(state, fact) <==> AfterEvents(cfg, argumentCount, b, events, fact)
    {
      StateIsExact(cfg, argumentCount, entries, b, events, fact);
    }
    RecordMatches(cfg, argumentCount, b, i, state, x);
  }

  lemma RecordMatches(cfg: map<nat, Block>, argumentCount: nat, b: nat, i: nat, state: State, x: nat)
    requires b in cfg && i < |Items(cfg[b])| && Canonical(state)
    requires forall fact :: Holds(state, fact) <==> AfterEvents(cfg, argumentCount, b, ItemEvents(Items(cfg[b])[..i]), fact)
    ensures UseIsExact(cfg, argumentCount, b, i, UseOf(state, Items(cfg[b])[i], x))
  {
    var events := ItemEvents(Items(cfg[b])[..i]);
    var use := UseOf(state, Items(cfg[b])[i], x);
    forall d
      ensures d in use.reaching <==> d.local == x && AfterEvents(cfg, argumentCount, b, events, Defined(d))
    {
      assert Holds(state, Defined(d)) <==> AfterEvents(cfg, argumentCount, b, events, Defined(d));
    }
    assert Holds(state, Uninitialized(x)) <==> AfterEvents(cfg, argumentCount, b, events, Uninitialized(x));
    forall e
      ensures e in state.unknown <==> AfterEvents(cfg, argumentCount, b, events, Tainted(e))
    {
      assert Holds(state, Tainted(e)) <==> AfterEvents(cfg, argumentCount, b, events, Tainted(e));
    }
  }

  /** Every record the emission makes for an item is exact over paths. */
  lemma EmittedUseIsExact(cfg: map<nat, Block>, argumentCount: nat, entries: map<nat, State>, b: nat, i: nat, use: LocalUse)
    requires Exact(cfg, argumentCount, entries) && b in entries && b in cfg && Canonical(entries[b])
    requires i < |Items(cfg[b])|
    requires use in ItemUses(ApplyAll(entries[b], ItemEvents(Items(cfg[b])[..i])), Items(cfg[b])[i])
    ensures UseIsExact(cfg, argumentCount, b, i, use) && Reads(Items(cfg[b])[i].1, use.local)
  {
    RecordIsOfState(ApplyAll(entries[b], ItemEvents(Items(cfg[b])[..i])), Items(cfg[b])[i], use);
    RecordIsExact(cfg, argumentCount, entries, b, i, use.local);
  }

  /** The record is one of item i, in the state reached there. */
  ghost predicate UsedBy(items: seq<(Point, LocalEffects)>, entry: State, use: LocalUse, i: nat) {
    i < |items| && use in ItemUses(ApplyAll(entry, ItemEvents(items[..i])), items[i])
  }

  /** Some item of a prefix made the record. */
  ghost predicate UsedBySome(items: seq<(Point, LocalEffects)>, entry: State, use: LocalUse) {
    items != [] && (UsedBy(items, entry, use, |items| - 1) || UsedBySome(items[..|items| - 1], entry, use))
  }

  lemma {:induction false} ListedBySome(items: seq<(Point, LocalEffects)>, entry: State, use: LocalUse)
    requires use in UsesIn(items, entry)
    ensures UsedBySome(items, entry, use)
    decreases |items|
  {
    UsesLast(items, entry, use);
    if !UsedBy(items, entry, use, |items| - 1) {
      ListedBySome(items[..|items| - 1], entry, use);
    }
  }

  lemma {:induction false} UseComesFromItem(items: seq<(Point, LocalEffects)>, entry: State, use: LocalUse) returns (i: nat)
    requires UsedBySome(items, entry, use)
    ensures UsedBy(items, entry, use, i)
    decreases |items|
  {
    i := |items| - 1;
    if !UsedBy(items, entry, use, i) {
      i := UseComesFromItem(items[..i], entry, use);
      UsedByLonger(items, entry, use, i);
    }
  }

  lemma UsedByLonger(items: seq<(Point, LocalEffects)>, entry: State, use: LocalUse, i: nat)
    requires items != [] && UsedBy(items[..|items| - 1], entry, use, i)
    ensures UsedBy(items, entry, use, i)
  {
    assert items[..|items| - 1][..i] == items[..i];
  }

  lemma UsesLast(items: seq<(Point, LocalEffects)>, entry: State, use: LocalUse)
    requires use in UsesIn(items, entry)
    ensures items != []
    ensures use in UsesIn(items[..|items| - 1], entry) || UsedBy(items, entry, use, |items| - 1)
  {
  }

  lemma {:induction false} UseComesFromBlock(cfg: map<nat, Block>, entries: map<nat, State>, keys: seq<nat>, use: LocalUse)
    returns (b: nat)
    requires forall b :: b in keys ==> b in cfg && b in entries
    requires use in AllUses(cfg, entries, keys)
    ensures b in keys && use in UsesIn(Items(cfg[b]), entries[b])
    decreases |keys|
  {
    var init, last := keys[..|keys| - 1], keys[|keys| - 1];
    if use in AllUses(cfg, entries, init) {
      b := UseComesFromBlock(cfg, entries, init, use);
    } else {
      b := last;
    }
  }

  ghost predicate UseAtSomePoint(cfg: map<nat, Block>, argumentCount: nat, keys: seq<nat>, use: LocalUse) {
    exists b, i :: b in keys && b in cfg && 0 <= i < |Items(cfg[b])| && UseIsExact(cfg, argumentCount, b, i, use)
                   && Reads(Items(cfg[b])[i].1, use.local)
  }

  /** Main result on the emission: every record in the listing is exact at its point. */
  lemma AllUsesAreExact(cfg: map<nat, Block>, argumentCount: nat, entries: map<nat, State>, keys: seq<nat>, use: LocalUse)
    requires Exact(cfg, argumentCount, entries)
    requires forall b :: b in keys ==> b in cfg && b in entries && Canonical(entries[b])
    requires use in AllUses(cfg, entries, keys)
    ensures UseAtSomePoint(cfg, argumentCount, keys, use)
  {
    var b := UseComesFromBlock(cfg, entries, keys, use);
    ListedBySome(Items(cfg[b]), entries[b], use);
    var i := UseComesFromItem(Items(cfg[b]), entries[b], use);
    EmittedUseIsExact(cfg, argumentCount, entries, b, i, use);
  }

  lemma {:induction false} ItemIsListed(items: seq<(Point, LocalEffects)>, entry: State, i: nat, x: nat)
    requires i < |items| && Reads(items[i].1, x)
    ensures UseOf(ApplyAll(entry, ItemEvents(items[..i])), items[i], x) in UsesIn(items, entry)
    decreases |items|
  {
    var init, last := items[..|items| - 1], items[|items| - 1];
    if i < |init| {
      ItemIsListed(init, entry, i, x);
      assert items[..i] == init[..i];
    } else {
      assert items[..i] == init;
      var state := ApplyAll(entry, ItemEvents(init));
      var used := Ascending(UsedLocals(last.1));
      assert x in UsedLocals(last.1);
      var k :| 0 <= k < |used| && used[k] == x;
      assert ItemUses(state, last)[k] == UseOf(state, last, x);
    }
  }

  lemma {:induction false} BlockIsListed(cfg: map<nat, Block>, entries: map<nat, State>, keys: seq<nat>, b: nat, use: LocalUse)
    requires forall k :: k in keys ==> k in cfg && k in entries
    requires b in keys && use in UsesIn(Items(cfg[b]), entries[b])
    ensures use in AllUses(cfg, entries, keys)
    decreases |keys|
  {
    var init, last := keys[..|keys| - 1], keys[|keys| - 1];
    AllUsesLast(cfg, entries, keys, use);
    if b != last {
      InInit(keys, b);
      BlockIsListed(cfg, entries, init, b, use);
    }
  }

  lemma InInit<T>(s: seq<T>, x: T)
    requires x in s && x != s[|s| - 1]
    ensures x in s[..|s| - 1]
  {
    assert s == s[..|s| - 1] + [s[|s| - 1]];
  }

  lemma AllUsesLast(cfg: map<nat, Block>, entries: map<nat, State>, keys: seq<nat>, use: LocalUse)
    requires keys != [] && forall k :: k in keys ==> k in cfg && k in entries
    ensures var init, last := keys[..|keys| - 1], keys[|keys| - 1];
      use in AllUses(cfg, entries, keys)
      <==> use in AllUses(cfg, entries, init) || use in UsesIn(Items(cfg[last]), entries[last])
  {
  }

  /** The listing misses no use: every local that is used or moved in an item of a listed block has its record. */
  lemma NoUseIsMissing(cfg: map<nat, Block>, entries: map<nat, State>, keys: seq<nat>, b: nat, i: nat, x: nat)
    requires forall k :: k in keys ==> k in cfg && k in entries
    requires b in keys && i < |Items(cfg[b])| && Reads(Items(cfg[b])[i].1, x)
    ensures exists use :: use in AllUses(cfg, entries, keys) && use.local == x && use.point == Items(cfg[b])[i].0
  {
    ItemIsListed(Items(cfg[b]), entries[b], i, x);
    var use := UseOf(ApplyAll(entries[b], ItemEvents(Items(cfg[b])[..i])), Items(cfg[b])[i], x);
    BlockIsListed(cfg, entries, keys, b, use);
  }

  // ---- the emission loop ----

  /** The facts charged for a list of records. */
  ghost function UseFacts(uses: seq<LocalUse>): nat {
    if uses == [] then 0
    else UseFacts(uses[..|uses| - 1]) + 1 + |uses[|uses| - 1].reaching|
  }

  lemma {:induction false} UseFactsSplit(a: seq<LocalUse>, b: seq<LocalUse>)
    ensures UseFacts(a + b) == UseFacts(a) + UseFacts(b)
    decreases |b|
  {
    if b == [] {
      assert a + b == a;
    } else {
      assert (a + b)[..|a + b| - 1] == a + b[..|b| - 1];
      UseFactsSplit(a, b[..|b| - 1]);
    }
  }

  lemma {:induction false} UsesInPrefix(items: seq<(Point, LocalEffects)>, entry: State, i: nat)
    requires i <= |items|
    ensures UsesIn(items[..i], entry) <= UsesIn(items, entry)
    ensures MemoryEffects(items[..i]) <= MemoryEffects(items)
    ensures DefinedBy(ItemEvents(items[..i])) <= DefinedBy(ItemEvents(items))
    decreases |items| - i
  {
    if i == |items| {
      assert items[..i] == items;
    } else {
      UsesInPrefix(items, entry, i + 1);
      PrefixStep(items, i);
      var step := items[..i + 1];
      assert step[..|step| - 1] == items[..i];
    }
  }

  /** What has been emitted; why is None both while complete and after a stop. */
  datatype Emission = Emission(
    uses: seq<LocalUse>, effects: seq<MemoryEffect>, definitions: set<Definition>,
    facts: nat, complete: bool, why: Option<Limitation>)

  /** Later emission extends an earlier one and stays within a target listing. */
  ghost predicate Within(emission: Emission, uses: seq<LocalUse>, effects: seq<MemoryEffect>, definitions: set<Definition>) {
    && emission.uses <= uses && emission.effects <= effects && emission.definitions <= definitions
    && (emission.complete ==> emission.uses == uses && emission.effects == effects && emission.definitions == definitions)
  }

  /** What one item adds to the output. */
  ghost function ItemCost(item: (Point, LocalEffects), state: State): nat {
    UseFacts(ItemUses(state, item)) + |item.1.defs| + |item.1.unknown|
  }

  ghost function ItemCosts(items: seq<(Point, LocalEffects)>, entry: State): seq<nat> {
    seq(|items|, i requires 0 <= i < |items| => ItemCost(items[i], ApplyAll(entry, ItemEvents(items[..i]))))
  }

  ghost function EdgeCosts(block: Block): seq<nat> {
    var edges := block.terminator.successors;
    seq(|edges|, i requires 0 <= i < |edges| => if edges[i].kind == Normal then |block.terminator.normalReturnDefs| else 0)
  }

  ghost function BlockCost(block: Block, entry: State): nat {
    SumOf(ItemCosts(Items(block), entry)) + SumOf(EdgeCosts(block))
  }

  ghost function BlockCosts(cfg: map<nat, Block>, entries: map<nat, State>, keys: seq<nat>): seq<nat>
    requires forall b :: b in keys ==> b in cfg && b in entries
  {
    seq(|keys|, i requires 0 <= i < |keys| => BlockCost(cfg[keys[i]], entries[keys[i]]))
  }

  /** The facts of the whole listing. */
  ghost function OutputCost(cfg: map<nat, Block>, entries: map<nat, State>, argumentCount: nat, keys: seq<nat>): nat
    requires forall b :: b in keys ==> b in cfg && b in entries
  {
    argumentCount + |keys| + SumOf(BlockCosts(cfg, entries, keys))
  }

  /** The facts charged are exact, and the budget is only reported when they exceed it. */
  ghost predicate Costs(start: Emission, emission: Emission, cost: nat, maxFacts: nat) {
    && (emission.complete ==> emission.facts == start.facts + cost)
    && (emission.why.Some? ==> start.facts + cost > maxFacts)
  }

  /** The records charged never exceed the output budget. */
  ghost predicate Charged(emission: Emission, maxFacts: nat) {
    && (emission.why.None? || (emission.why == Some(OutputFactBudget) && !emission.complete))
    && UseFacts(emission.uses) <= emission.facts && (emission.uses == [] || UseFacts(emission.uses) <= maxFacts)
  }

  /** Emits the records of one item, or stops or is limited before any of them. */
  method EmitItem(item: (Point, LocalEffects), state: State, start: Emission, maxFacts: nat, control: Control) returns (emission: Emission)
    requires start.complete && Charged(start, maxFacts)
    modifies control
    ensures control.fired == (old(control.fired) || (!emission.complete && emission.why.None?))
    ensures Charged(emission, maxFacts) && Costs(start, emission, ItemCost(item, state), maxFacts)
    ensures emission.complete ==> emission.facts <= maxFacts
    ensures emission.complete ==>
      && emission.uses == start.uses + ItemUses(state, item)
      && emission.effects == start.effects + (if item.1.unknown == [] then [] else [MemoryEffect(item.0, set e | e in item.1.unknown)])
      && emission.definitions == start.definitions + DefinedBy(Defines(item.1.defs, item.0))
    ensures !emission.complete ==>
      emission.uses == start.uses && emission.effects == start.effects && emission.definitions == start.definitions
  {
    var stop := control.Stopped();
    if stop { return start.(complete := false); }
    var uses, extra := ListUses(item, state);
    var facts := start.facts + extra + |item.1.defs| + |item.1.unknown|;
    if facts > maxFacts { return start.(complete := false, why := Some(OutputFactBudget)); }
    UseFactsSplit(start.uses, uses);
    var defined := ListDefinitions(item.1.defs, item.0);
    emission := Emission(start.uses + uses,
      start.effects + (if item.1.unknown == [] then [] else [MemoryEffect(item.0, set e | e in item.1.unknown)]),
      start.definitions + defined, facts, true, None);
  }

  /** The records of one item, and the facts they cost. */
  method ListUses(item: (Point, LocalEffects), state: State) returns (uses: seq<LocalUse>, extra: nat)
    ensures uses == ItemUses(state, item) && extra == UseFacts(uses)
  {
    var used := Ascending(UsedLocals(item.1));
    ghost var expected := ItemUses(state, item);
    uses, extra := [], 0;
    for i := 0 to |used|
      invariant uses == expected[..i] && extra == UseFacts(uses)
    {
      PrefixStep(expected, i);
      var use := UseOf(state, item, used[i]);
      extra := extra + 1 + |use.reaching|;
      uses := uses + [use];
    }
    assert expected[..|used|] == expected;
  }

  method ListDefinitions(defs: seq<nat>, point: Point) returns (definitions: set<Definition>)
    ensures definitions == DefinedBy(Defines(defs, point))
  {
    definitions := {};
    assert DefinedBy(Defines(defs[..0], point)) == {};
    for i := 0 to |defs|
      invariant definitions == DefinedBy(Defines(defs[..i], point))
    {
      DefinedStep(defs, i, point);
      definitions := definitions + {Definition(defs[i], point)};
    }
    assert defs[..|defs|] == defs;
  }

  lemma DefinedStep(defs: seq<nat>, i: nat, point: Point)
    requires i < |defs|
    ensures DefinedBy(Defines(defs[..i + 1], point))
         == DefinedBy(Defines(defs[..i], point)) + {Definition(defs[i], point)}
  {
    PrefixStep(defs, i);
    var a, b := Defines(defs[..i], point), Defines(defs[..i + 1], point);
    assert b == a + [Define(defs[i], point)];
    assert forall e :: e in b <==> e in a || e == Define(defs[i], point);
  }

  lemma DefinedAppend(a: seq<Event>, b: seq<Event>)
    ensures DefinedBy(a + b) == DefinedBy(a) + DefinedBy(b)
  {
  }

  lemma ItemDefines(item: (Point, LocalEffects))
    ensures DefinedBy(EffectEvents(item.1, item.0)) == DefinedBy(Defines(item.1.defs, item.0))
  {
    var effects := item.1;
    var c, d, t := Clears(effects.moves + effects.storageLive + effects.storageDead), Defines(effects.defs, item.0), Taints(effects.unknown);
    DefinedAppend(c + d, t);
    DefinedAppend(c, d);
  }

  lemma ItemStep(items: seq<(Point, LocalEffects)>, entry: State, i: nat)
    requires i < |items|
    ensures var before, after, item := items[..i], items[..i + 1], items[i];
      && UsesIn(after, entry) == UsesIn(before, entry) + ItemUses(ApplyAll(entry, ItemEvents(before)), item)
      && MemoryEffects(after) == MemoryEffects(before)
           + (if item.1.unknown == [] then [] else [MemoryEffect(item.0, set e | e in item.1.unknown)])
      && DefinedBy(ItemEvents(after)) == DefinedBy(ItemEvents(before)) + DefinedBy(Defines(item.1.defs, item.0))
      && ApplyAll(entry, ItemEvents(after)) == ApplyAll(ApplyAll(entry, ItemEvents(before)), EffectEvents(item.1, item.0))
  {
    PrefixStep(items, i);
    ItemDefines(items[i]);
    DefinedAppend(ItemEvents(items[..i]), EffectEvents(items[i].1, items[i].0));
    ApplySplit(entry, ItemEvents(items[..i]), EffectEvents(items[i].1, items[i].0));
  }

  /** Stopping before item i leaves prefixes of the block's listings. */
  lemma PartialItems(items: seq<(Point, LocalEffects)>, entry: State, i: nat, start: Emission, emission: Emission)
    requires i <= |items| && (emission.complete ==> i == |items|) && EmittedUpTo(items, entry, i, start, emission)
    ensures Within(emission, start.uses + UsesIn(items, entry), start.effects + MemoryEffects(items),
                   start.definitions + DefinedBy(ItemEvents(items)))
  {
    UsesInPrefix(items, entry, i);
    assert items[..|items|] == items;
  }

  lemma EmittedStep(items: seq<(Point, LocalEffects)>, entry: State, i: nat, start: Emission, before: Emission, after: Emission)
    requires i < |items| && EmittedUpTo(items, entry, i, start, before)
    requires after.uses == before.uses + ItemUses(ApplyAll(entry, ItemEvents(items[..i])), items[i])
    requires after.effects == before.effects
      + (if items[i].1.unknown == [] then [] else [MemoryEffect(items[i].0, set e | e in items[i].1.unknown)])
    requires after.definitions == before.definitions + DefinedBy(Defines(items[i].1.defs, items[i].0))
    ensures EmittedUpTo(items, entry, i + 1, start, after)
  {
    ItemStep(items, entry, i);
    Associate(start.uses, UsesIn(items[..i], entry), ItemUses(ApplyAll(entry, ItemEvents(items[..i])), items[i]));
    Associate(start.effects, MemoryEffects(items[..i]),
      if items[i].1.unknown == [] then [] else [MemoryEffect(items[i].0, set e | e in items[i].1.unknown)]);
  }

  /** The block's items before i have been emitted on top of start. */
  ghost predicate EmittedUpTo(items: seq<(Point, LocalEffects)>, entry: State, i: nat, start: Emission, emission: Emission)
    requires i <= |items|
  {
    && emission.uses == start.uses + UsesIn(items[..i], entry)
    && emission.effects == start.effects + MemoryEffects(items[..i])
    && emission.definitions == start.definitions + DefinedBy(ItemEvents(items[..i]))
  }

  method EmitItems(items: seq<(Point, LocalEffects)>, entry: State, start: Emission, maxFacts: nat, control: Control) returns (emission: Emission)
    requires start.complete && Charged(start, maxFacts)
    modifies control
    ensures control.fired == (old(control.fired) || (!emission.complete && emission.why.None?))
    ensures Charged(emission, maxFacts) && Costs(start, emission, SumOf(ItemCosts(items, entry)), maxFacts)
    ensures emission.complete && items != [] ==> emission.facts <= maxFacts
    ensures Within(emission, start.uses + UsesIn(items, entry), start.effects + MemoryEffects(items),
                   start.definitions + DefinedBy(ItemEvents(items)))
  {
    var state := entry;
    emission := start;
    ghost var costs := ItemCosts(items, entry);
    for i := 0 to |items|
      invariant control.fired == old(control.fired)
      invariant emission.complete && Charged(emission, maxFacts)
      invariant emission.facts == start.facts + SumOf(costs[..i]) && (i > 0 ==> emission.facts <= maxFacts)
      invariant state == ApplyAll(entry, ItemEvents(items[..i]))
      invariant EmittedUpTo(items, entry, i, start, emission)
    {
      ghost var before := emission;
      SumStep(costs, i);
      emission := EmitItem(items[i], state, emission, maxFacts, control);
      if !emission.complete {
        PartialItems(items, entry, i, start, emission);
        return;
      }
      EmittedStep(items, entry, i, start, before, emission);
      ItemStep(items, entry, i);
      state := Transfer(state, items[i].1, items[i].0);
    }
    assert costs[..|items|] == costs;
    PartialItems(items, entry, |items|, start, emission);
  }

  /** The call destinations defined on the normal edges among some successors. */
  ghost function EdgeSites(block: Block, edges: seq<Successor>): set<Definition> {
    set e, d | e in edges && d in DefinedBy(EdgeEvents(block, e)) :: d
  }

  method EmitEdge(block: Block, edge: Successor, start: Emission, maxFacts: nat) returns (emission: Emission)
    requires start.complete && edge.kind == Normal && Charged(start, maxFacts)
    ensures emission.complete || emission.why.Some?
    ensures EdgeResult(block, edge, start, emission, maxFacts)
  {
    var defs := block.terminator.normalReturnDefs;
    var point := NormalReturn(block.index, edge.target);
    emission := start;
    for i := 0 to |defs|
      invariant emission.complete && Charged(emission, maxFacts) && emission.facts == start.facts + i
      invariant start.facts <= maxFacts ==> emission.facts <= maxFacts
      invariant emission.uses == start.uses && emission.effects == start.effects
      invariant emission.definitions == start.definitions + DefinedBy(Defines(defs[..i], point))
    {
      assert DefinedBy(Defines(defs[..i], point)) <= DefinedBy(Defines(defs, point)) by { SitesPrefix(defs, i, point); }
      DefinedStep(defs, i, point);
      emission := emission.(facts := emission.facts + 1);
      if emission.facts > maxFacts { return emission.(complete := false, why := Some(OutputFactBudget)); }
      emission := emission.(definitions := emission.definitions + {Definition(defs[i], point)});
    }
    assert defs[..|defs|] == defs;
  }

  lemma SitesPrefix(defs: seq<nat>, i: nat, point: Point)
    requires i <= |defs|
    ensures DefinedBy(Defines(defs[..i], point)) <= DefinedBy(Defines(defs, point))
  {
    var a, b := Defines(defs[..i], point), Defines(defs, point);
    assert forall k :: 0 <= k < i ==> a[k] == b[k];
  }

  /** The definitions on the first edges have been emitted on top of start. */
  ghost predicate EmittedEdges(block: Block, i: nat, start: Emission, emission: Emission, maxFacts: nat)
    requires i <= |block.terminator.successors|
  {
    && emission.complete && Charged(emission, maxFacts)
    && emission.facts == start.facts + SumOf(EdgeCosts(block)[..i]) && (start.facts <= maxFacts ==> emission.facts <= maxFacts)
    && emission.uses == start.uses && emission.effects == start.effects
    && emission.definitions == start.definitions + EdgeSites(block, block.terminator.successors[..i])
  }

  /** What emitting the edges of a block promises. */
  ghost predicate EdgesResult(block: Block, start: Emission, emission: Emission, maxFacts: nat) {
    && Charged(emission, maxFacts) && Costs(start, emission, SumOf(EdgeCosts(block)), maxFacts)
    && (emission.complete && start.facts <= maxFacts ==> emission.facts <= maxFacts)
    && Within(emission, start.uses, start.effects, start.definitions + EdgeSites(block, block.terminator.successors))
  }

  /** One edge of a block, emitted or without anything to emit. */
  ghost predicate EdgeResult(block: Block, edge: Successor, start: Emission, emission: Emission, maxFacts: nat) {
    if edge.kind != Normal then emission == start
    else
      && Charged(emission, maxFacts) && Costs(start, emission, |block.terminator.normalReturnDefs|, maxFacts)
      && emission.uses == start.uses && emission.effects == start.effects
      && (emission.complete && start.facts <= maxFacts ==> emission.facts <= maxFacts)
      && start.definitions <= emission.definitions <= start.definitions + DefinedBy(EdgeEvents(block, edge))
      && (emission.complete ==> emission.definitions == start.definitions + DefinedBy(EdgeEvents(block, edge)))
  }

  lemma EdgesStep(block: Block, i: nat, start: Emission, before: Emission, after: Emission, maxFacts: nat)
    requires i < |block.terminator.successors| && EmittedEdges(block, i, start, before, maxFacts)
    requires EdgeResult(block, block.terminator.successors[i], before, after, maxFacts)
    ensures after.complete ==> EmittedEdges(block, i + 1, start, after, maxFacts)
    ensures !after.complete ==> EdgesResult(block, start, after, maxFacts)
  {
    EdgeSitesStep(block, block.terminator.successors, i);
    SumStep(EdgeCosts(block), i);
  }

  method EmitEdges(block: Block, start: Emission, maxFacts: nat) returns (emission: Emission)
    requires start.complete && Charged(start, maxFacts)
    ensures emission.complete || emission.why.Some?
    ensures EdgesResult(block, start, emission, maxFacts)
  {
    var edges := block.terminator.successors;
    emission := start;
    for i := 0 to |edges|
      invariant EmittedEdges(block, i, start, emission, maxFacts)
    {
      ghost var before := emission;
      if edges[i].kind == Normal { emission := EmitEdge(block, edges[i], emission, maxFacts); }
      EdgesStep(block, i, start, before, emission, maxFacts);
      if !emission.complete { return; }
    }
    WholePrefix(edges);
    WholePrefix(EdgeCosts(block));
  }

  lemma EdgeSitesStep(block: Block, edges: seq<Successor>, i: nat)
    requires i < |edges|
    ensures EdgeSites(block, edges[..i + 1]) == EdgeSites(block, edges[..i]) + DefinedBy(EdgeEvents(block, edges[i]))
    ensures EdgeSites(block, edges[..i + 1]) <= EdgeSites(block, edges)
    ensures EdgeSites(block, edges[..i]) <= EdgeSites(block, edges)
    ensures edges[i].kind != Normal ==> DefinedBy(EdgeEvents(block, edges[i])) == {}
  {
    PrefixStep(edges, i);
    assert forall e :: e in edges[..i + 1] <==> e in edges[..i] || e == edges[i];
  }

  // ---- blocks and the report ----

  lemma {:induction false} AllUsesPrefix(cfg: map<nat, Block>, entries: map<nat, State>, keys: seq<nat>, i: nat)
    requires i <= |keys| && forall b :: b in keys ==> b in cfg && b in entries
    ensures AllUses(cfg, entries, keys[..i]) <= AllUses(cfg, entries, keys)
    ensures AllMemoryEffects(cfg, keys[..i]) <= AllMemoryEffects(cfg, keys)
    decreases |keys| - i
  {
    if i == |keys| {
      assert keys[..i] == keys;
    } else {
      AllUsesPrefix(cfg, entries, keys, i + 1);
      PrefixStep(keys, i);
    }
  }

  lemma AllSitesPrefix(cfg: map<nat, Block>, argumentCount: nat, keys: seq<nat>, i: nat)
    requires i <= |keys| && forall b :: b in keys ==> b in cfg
    ensures AllSites(cfg, argumentCount, keys[..i]) <= AllSites(cfg, argumentCount, keys)
  {
    assert forall b :: b in keys[..i] ==> b in keys;
  }

  lemma SitesStep(cfg: map<nat, Block>, argumentCount: nat, keys: seq<nat>, i: nat)
    requires i < |keys| && forall b :: b in keys ==> b in cfg
    ensures AllSites(cfg, argumentCount, keys[..i + 1])
         == AllSites(cfg, argumentCount, keys[..i]) + DefinedBy(ItemEvents(Items(cfg[keys[i]])))
            + EdgeSites(cfg[keys[i]], cfg[keys[i]].terminator.successors)
  {
    PrefixStep(keys, i);
    assert forall b :: b in keys[..i + 1] <==> b in keys[..i] || b == keys[i];
    assert BlockSites(cfg[keys[i]]) == DefinedBy(ItemEvents(Items(cfg[keys[i]])))
                                       + EdgeSites(cfg[keys[i]], cfg[keys[i]].terminator.successors);
  }

  /** What emitting one block promises. */
  ghost predicate EmittedBlock(block: Block, entry: State, start: Emission, emission: Emission, maxFacts: nat) {
    && Charged(emission, maxFacts) && Costs(start, emission, BlockCost(block, entry), maxFacts)
    && Within(emission, start.uses + UsesIn(Items(block), entry), start.effects + MemoryEffects(Items(block)),
              start.definitions + DefinedBy(ItemEvents(Items(block))) + EdgeSites(block, block.terminator.successors))
  }

  method EmitBlock(block: Block, entry: State, start: Emission, maxFacts: nat, control: Control) returns (emission: Emission)
    requires start.complete && Charged(start, maxFacts)
    modifies control
    ensures control.fired == (old(control.fired) || (!emission.complete && emission.why.None?))
    ensures EmittedBlock(block, entry, start, emission, maxFacts)
    ensures emission.complete ==> emission.facts <= maxFacts
  {
    emission := EmitItems(Items(block), entry, start, maxFacts, control);
    if emission.complete {
      emission := EmitEdges(block, emission, maxFacts);
    }
  }

  ghost predicate Listable(cfg: map<nat, Block>, entries: map<nat, State>, keys: seq<nat>) {
    forall b :: b in keys ==> b in cfg && b in entries
  }

  /** The first i blocks have been emitted in full. */
  ghost predicate EmittedBlocks(cfg: map<nat, Block>, entries: map<nat, State>, argumentCount: nat, keys: seq<nat>, i: nat, emission: Emission)
    requires Listable(cfg, entries, keys) && i <= |keys|
  {
    && emission.complete
    && emission.facts == argumentCount + |keys| + SumOf(BlockCosts(cfg, entries, keys)[..i])
    && emission.uses == AllUses(cfg, entries, keys[..i])
    && emission.effects == AllMemoryEffects(cfg, keys[..i])
    && emission.definitions == AllSites(cfg, argumentCount, keys[..i])
  }

  /** What the emission of a converged table promises. */
  ghost predicate Emitted(cfg: map<nat, Block>, entries: map<nat, State>, argumentCount: nat, keys: seq<nat>, emission: Emission, maxFacts: nat)
    requires Listable(cfg, entries, keys)
  {
    && Within(emission, AllUses(cfg, entries, keys), AllMemoryEffects(cfg, keys), AllSites(cfg, argumentCount, keys))
    && (emission.complete ==> emission.facts == OutputCost(cfg, entries, argumentCount, keys))
    && (emission.why.Some? ==> OutputCost(cfg, entries, argumentCount, keys) > maxFacts)
  }

  /** One more block's listings and cost, on top of the first i. */
  lemma BlockTargets(cfg: map<nat, Block>, entries: map<nat, State>, argumentCount: nat, keys: seq<nat>, i: nat, start: Emission)
    requires Listable(cfg, entries, keys) && i < |keys| && EmittedBlocks(cfg, entries, argumentCount, keys, i, start)
    ensures var block, entry := cfg[keys[i]], entries[keys[i]];
      && start.uses + UsesIn(Items(block), entry) == AllUses(cfg, entries, keys[..i + 1])
      && start.effects + MemoryEffects(Items(block)) == AllMemoryEffects(cfg, keys[..i + 1])
      && start.definitions + DefinedBy(ItemEvents(Items(block))) + EdgeSites(block, block.terminator.successors)
         == AllSites(cfg, argumentCount, keys[..i + 1])
  {
    PrefixStep(keys, i);
    SitesStep(cfg, argumentCount, keys, i);
  }

  lemma BlockCostStep(cfg: map<nat, Block>, entries: map<nat, State>, argumentCount: nat, keys: seq<nat>, i: nat)
    requires Listable(cfg, entries, keys) && i < |keys|
    ensures var costs := BlockCosts(cfg, entries, keys);
      && SumOf(costs[..i + 1]) == SumOf(costs[..i]) + BlockCost(cfg[keys[i]], entries[keys[i]])
      && argumentCount + |keys| + SumOf(costs[..i + 1]) <= OutputCost(cfg, entries, argumentCount, keys)
  {
    SumStep(BlockCosts(cfg, entries, keys), i);
  }

  lemma BlocksStep(cfg: map<nat, Block>, entries: map<nat, State>, argumentCount: nat, keys: seq<nat>, i: nat,
                   start: Emission, emission: Emission, maxFacts: nat)
    requires Listable(cfg, entries, keys) && i < |keys| && EmittedBlocks(cfg, entries, argumentCount, keys, i, start)
    requires EmittedBlock(cfg[keys[i]], entries[keys[i]], start, emission, maxFacts)
    ensures emission.complete ==> EmittedBlocks(cfg, entries, argumentCount, keys, i + 1, emission)
    ensures !emission.complete ==> Emitted(cfg, entries, argumentCount, keys, emission, maxFacts)
  {
    BlockTargets(cfg, entries, argumentCount, keys, i, start);
    BlockCostStep(cfg, entries, argumentCount, keys, i);
    AllUsesPrefix(cfg, entries, keys, i + 1);
    AllSitesPrefix(cfg, argumentCount, keys, i + 1);
  }

  lemma BlocksDone(cfg: map<nat, Block>, entries: map<nat, State>, argumentCount: nat, keys: seq<nat>, emission: Emission, maxFacts: nat)
    requires Listable(cfg, entries, keys) && EmittedBlocks(cfg, entries, argumentCount, keys, |keys|, emission) && emission.why.None?
    ensures Emitted(cfg, entries, argumentCount, keys, emission, maxFacts)
  {
    assert Within(emission, AllUses(cfg, entries, keys), AllMemoryEffects(cfg, keys), AllSites(cfg, argumentCount, keys)) by {
      WholePrefix(keys);
    }
    WholePrefix(BlockCosts(cfg, entries, keys));
  }

  lemma NothingEmitted(cfg: map<nat, Block>, entries: map<nat, State>, argumentCount: nat, keys: seq<nat>, arguments: set<Definition>)
    requires Listable(cfg, entries, keys) && arguments == set x | 1 <= x <= argumentCount :: Definition(x, Entry)
    ensures EmittedBlocks(cfg, entries, argumentCount, keys, 0, Emission([], [], arguments, |arguments| + |keys|, true, None))
  {
    ArgumentSites(argumentCount);
    ArgumentCount(argumentCount);
    assert keys[..0] == [];
    assert BlockCosts(cfg, entries, keys)[..0] == [];
  }

  /** Emits every reached block in ascending order, or a prefix of that. */
  method Emit(cfg: map<nat, Block>, entries: map<nat, State>, argumentCount: nat, keys: seq<nat>, maxFacts: nat, control: Control)
    returns (emission: Emission)
    requires Listable(cfg, entries, keys)
    modifies control
    ensures control.fired == (old(control.fired) || (!emission.complete && emission.why.None?))
    ensures Charged(emission, maxFacts) && Emitted(cfg, entries, argumentCount, keys, emission, maxFacts)
    ensures emission.complete && keys != [] ==> emission.facts <= maxFacts
  {
    var arguments := set x | 1 <= x <= argumentCount :: Definition(x, Entry);
    emission := Emission([], [], arguments, |arguments| + |keys|, true, None);
    NothingEmitted(cfg, entries, argumentCount, keys, arguments);
    for i := 0 to |keys|
      invariant control.fired == old(control.fired)
      invariant Charged(emission, maxFacts) && EmittedBlocks(cfg, entries, argumentCount, keys, i, emission)
      invariant i > 0 ==> emission.facts <= maxFacts
    {
      ghost var start := emission;
      emission := EmitBlock(cfg[keys[i]], entries[keys[i]], emission, maxFacts, control);
      BlocksStep(cfg, entries, argumentCount, keys, i, start, emission, maxFacts);
      if !emission.complete { return; }
    }
    BlocksDone(cfg, entries, argumentCount, keys, emission, maxFacts);
  }

  lemma {:induction false} ArgumentCount(argumentCount: nat)
    ensures |set x | 1 <= x <= argumentCount :: Definition(x, Entry)| == argumentCount
    decreases argumentCount
  {
    var arguments := set x | 1 <= x <= argumentCount :: Definition(x, Entry);
    if argumentCount == 0 {
      assert arguments == {};
    } else {
      ArgumentCount(argumentCount - 1);
      assert arguments == (set x | 1 <= x <= argumentCount - 1 :: Definition(x, Entry)) + {Definition(argumentCount, Entry)};
    }
  }

  lemma ArgumentSites(argumentCount: nat)
    ensures DefinedBy(EntryEvents(argumentCount)) == set x | 1 <= x <= argumentCount :: Definition(x, Entry)
  {
    var events := EntryEvents(argumentCount);
    forall x | 1 <= x <= argumentCount
      ensures Definition(x, Entry) in DefinedBy(events)
    {
      assert events[x - 1] == Define(x, Entry);
    }
  }

  datatype Report = Report(
    fixedPoint: bool, iterations: nat, reachableBlocks: seq<nat>, definitions: set<Definition>,
    uses: seq<LocalUse>, effects: seq<MemoryEffect>, truncated: bool, limitations: set<Limitation>)

  datatype AnalysisError = InvalidInput | BudgetExhausted

  const NOTHING: Report := Report(false, 0, [], {}, [], [], false, {})

  /** A converged table of the body. */
  ghost predicate Solved(body: Body, entries: map<nat, State>) {
    var cfg := BlockTable(body.blocks);
    && Exact(cfg, body.argumentCount, entries)
    && forall b :: b in entries ==> b in cfg && Canonical(entries[b])
  }

  /** What a report promises about the body, whatever cut it short. */
  ghost predicate Honest(body: Body, report: Report) {
    && (report.uses != [] ==> report.fixedPoint)
    && (forall use :: use in report.uses ==> UseAtSomePoint(BlockTable(body.blocks), body.argumentCount, report.reachableBlocks, use))
    && (forall b :: b in report.reachableBlocks ==> AtEntry(BlockTable(body.blocks), body.argumentCount, b, Reached))
    && (forall b :: b in report.reachableBlocks ==> b in BlockTable(body.blocks))
    && (report.definitions == {} || report.definitions <= AllSites(BlockTable(body.blocks), body.argumentCount, report.reachableBlocks))
    && report.effects <= AllMemoryEffects(BlockTable(body.blocks), report.reachableBlocks)
  }

  /** A report without truncation covers every path-reachable block, use and definition site. */
  ghost predicate Complete(body: Body, report: Report) {
    var cfg := BlockTable(body.blocks);
    && report.fixedPoint && StrictlyAscending(report.reachableBlocks)
    && (forall b :: b in report.reachableBlocks <==> AtEntry(cfg, body.argumentCount, b, Reached))
    && (forall b :: b in report.reachableBlocks ==> b in cfg)
    && (forall b, i, x :: UsedAt(cfg, report.reachableBlocks, b, i, x) ==> Recorded(report.uses, x, Items(cfg[b])[i].0))
    && report.definitions == AllSites(cfg, body.argumentCount, report.reachableBlocks)
    && report.effects == AllMemoryEffects(cfg, report.reachableBlocks)
  }

  ghost predicate UsedAt(cfg: map<nat, Block>, keys: seq<nat>, b: nat, i: int, x: nat) {
    b in keys && b in cfg && 0 <= i < |Items(cfg[b])| && Reads(Items(cfg[b])[i].1, x)
  }

  ghost predicate Recorded(uses: seq<LocalUse>, x: nat, point: Point) {
    exists use :: use in uses && use.local == x && use.point == point
  }

  lemma ReachedKeys(body: Body, entries: map<nat, State>)
    requires Solved(body, entries)
    ensures forall b :: b in Ascending(entries.Keys) <==> AtEntry(BlockTable(body.blocks), body.argumentCount, b, Reached)
    ensures forall b :: b in Ascending(entries.Keys) ==> b in BlockTable(body.blocks) && b in entries && Canonical(entries[b])
  {
    var cfg := BlockTable(body.blocks);
    forall b
      ensures b in Ascending(entries.Keys) <==> AtEntry(cfg, body.argumentCount, b, Reached)
    {
      assert AtEntry(cfg, body.argumentCount, b, Reached) <==> b in entries && Holds(entries[b], Reached);
    }
  }

  /** A prefix of the listing of a converged table is honest. */
  lemma ListingIsHonest(body: Body, entries: map<nat, State>, uses: seq<LocalUse>)
    requires Solved(body, entries)
    requires forall b :: b in Ascending(entries.Keys) ==> b in BlockTable(body.blocks) && b in entries
    requires uses <= AllUses(BlockTable(body.blocks), entries, Ascending(entries.Keys))
    ensures forall use :: use in uses ==> UseAtSomePoint(BlockTable(body.blocks), body.argumentCount, Ascending(entries.Keys), use)
  {
    var cfg, keys := BlockTable(body.blocks), Ascending(entries.Keys);
    forall use | use in uses
      ensures UseAtSomePoint(cfg, body.argumentCount, keys, use)
    {
      assert use in AllUses(cfg, entries, keys);
      AllUsesAreExact(cfg, body.argumentCount, entries, keys, use);
    }
  }

  lemma ListingIsComplete(cfg: map<nat, Block>, entries: map<nat, State>, keys: seq<nat>)
    requires forall k :: k in keys ==> k in cfg && k in entries
    ensures forall b, i, x :: UsedAt(cfg, keys, b, i, x) ==> Recorded(AllUses(cfg, entries, keys), x, Items(cfg[b])[i].0)
  {
    forall b, i, x | UsedAt(cfg, keys, b, i, x)
      ensures Recorded(AllUses(cfg, entries, keys), x, Items(cfg[b])[i].0)
    {
      NoUseIsMissing(cfg, entries, keys, b, i, x);
    }
  }

  ghost predicate CostsMore(body: Body, entries: map<nat, State>, maxFacts: nat) {
    var cfg, keys := BlockTable(body.blocks), Ascending(entries.Keys);
    Solved(body, entries) && Listable(cfg, entries, keys) && OutputCost(cfg, entries, body.argumentCount, keys) > maxFacts
  }

  /** The whole listing of the body's solution costs more facts than allowed. */
  ghost predicate OutputExceeds(body: Body, maxFacts: nat) {
    exists entries :: CostsMore(body, entries, maxFacts)
  }

  lemma SolvedIsUnique(body: Body, a: map<nat, State>, b: map<nat, State>)
    requires Solved(body, a) && Solved(body, b)
    ensures a == b
  {
    ExactIsUnique(BlockTable(body.blocks), body.argumentCount, a, b);
  }

  /** Whether the listing exceeds the budget can be read off any solution. */
  lemma ExceedsIffCostsMore(body: Body, entries: map<nat, State>, maxFacts: nat)
    requires Solved(body, entries)
    ensures OutputExceeds(body, maxFacts) <==> CostsMore(body, entries, maxFacts)
  {
    if OutputExceeds(body, maxFacts) {
      var other :| CostsMore(body, other, maxFacts);
      SolvedIsUnique(body, entries, other);
    }
  }

  /** An honest report, complete unless it says that it is truncated. */
  ghost predicate Finished(body: Body, report: Report) {
    Honest(body, report) && (report.truncated || Complete(body, report))
  }

  /** A limitation of the analysis is named only for a budget that the body exceeds. */
  ghost predicate Justified(body: Body, bodyBytes: nat, limits: Limits, why: Limitation) {
    var cfg, locals := BlockTable(body.blocks), LocalSet(body.locals);
    match why
    case BodyBudget => |body.blocks| > limits.maxBlocks || |body.locals| > limits.maxLocals
    case InputByteBudget => bodyBytes > 32 * 1024 * 1024
    case InputFactBudget => InputFacts(body) > limits.maxFacts
    case IterationBudget => limits.maxIterations < PopBound(cfg, locals, body.argumentCount)
    case OutputFactBudget => OutputExceeds(body, limits.maxFacts)
    case ResponseByteBudget => false
    case _ => LimitIsReal(cfg, locals, body.argumentCount, limits.maxFacts, why)
  }

  ghost predicate AllJustified(body: Body, bodyBytes: nat, limits: Limits, report: Report) {
    forall why :: why in report.limitations ==> Justified(body, bodyBytes, limits, why)
  }

  /** The report of a converged table: its whole listing, or a prefix where the output budget or a poll cut it. */
  ghost predicate Lists(body: Body, entries: map<nat, State>, limits: Limits, report: Report) {
    var cfg, keys := BlockTable(body.blocks), Ascending(entries.Keys);
    && Solved(body, entries) && Listable(cfg, entries, keys)
    && report.fixedPoint && report.reachableBlocks == keys && ListsWithin(cfg, entries, body.argumentCount, keys, report)
    && (report.uses != [] ==> UseFacts(report.uses) <= limits.maxFacts)
    && (report.limitations == {} || (report.limitations == {OutputFactBudget} && report.truncated))
    && (report.limitations != {} ==> CostsMore(body, entries, limits.maxFacts))
    && (!report.truncated ==> !CostsMore(body, entries, limits.maxFacts))
  }

  ghost predicate ListsWithin(cfg: map<nat, Block>, entries: map<nat, State>, argumentCount: nat, keys: seq<nat>, report: Report)
    requires Listable(cfg, entries, keys)
  {
    var uses, effects, definitions := AllUses(cfg, entries, keys), AllMemoryEffects(cfg, keys), AllSites(cfg, argumentCount, keys);
    && report.uses <= uses && report.effects <= effects && report.definitions <= definitions
    && (!report.truncated ==> report.uses == uses && report.effects == effects && report.definitions == definitions)
  }

  /** The report claims nothing. */
  ghost predicate Silent(report: Report) {
    && report.truncated && report.uses == [] && report.effects == [] && report.definitions == {} && report.reachableBlocks == []
  }

  /** The report before its size is known: the listing of a converged search, or no claim at all; every
      budget it names is exceeded, and naming none of them means a stop. */
  ghost predicate Explains(body: Body, bodyBytes: nat, limits: Limits, report: Report, fired: bool) {
    && report.iterations <= limits.maxIterations && AllJustified(body, bodyBytes, limits, report)
    && (report.truncated && report.limitations == {} ==> fired)
    && if report.fixedPoint then exists entries :: Lists(body, entries, limits, report) else Silent(report)
  }

  lemma ListsIsHonest(body: Body, entries: map<nat, State>, report: Report)
    requires Solved(body, entries) && Listable(BlockTable(body.blocks), entries, Ascending(entries.Keys))
    requires report.fixedPoint && report.reachableBlocks == Ascending(entries.Keys)
    requires ListsWithin(BlockTable(body.blocks), entries, body.argumentCount, Ascending(entries.Keys), report)
    ensures Honest(body, report)
  {
    ReachedKeys(body, entries);
    ListingIsHonest(body, entries, report.uses);
  }

  lemma ListsIsComplete(body: Body, entries: map<nat, State>, report: Report)
    requires Solved(body, entries) && Listable(BlockTable(body.blocks), entries, Ascending(entries.Keys))
    requires report.fixedPoint && report.reachableBlocks == Ascending(entries.Keys) && !report.truncated
    requires ListsWithin(BlockTable(body.blocks), entries, body.argumentCount, Ascending(entries.Keys), report)
    ensures Complete(body, report)
  {
    ReachedKeys(body, entries);
    ListingIsComplete(BlockTable(body.blocks), entries, Ascending(entries.Keys));
  }

  lemma ListsIsFinished(body: Body, entries: map<nat, State>, limits: Limits, report: Report)
    requires Lists(body, entries, limits, report)
    ensures Finished(body, report)
  {
    ListsIsHonest(body, entries, report);
    if !report.truncated { ListsIsComplete(body, entries, report); }
  }

  lemma SilentIsFinished(body: Body, report: Report)
    requires Silent(report)
    ensures Finished(body, report)
  {
  }

  lemma ExplainsIsFinished(body: Body, bodyBytes: nat, limits: Limits, report: Report, fired: bool)
    requires Explains(body, bodyBytes, limits, report, fired)
    ensures Finished(body, report)
  {
    if report.fixedPoint {
      var entries :| Lists(body, entries, limits, report);
      ListsIsFinished(body, entries, limits, report);
    } else {
      SilentIsFinished(body, report);
    }
  }

  /** The report of a converged search that no poll stopped is cut exactly when the output budget is exceeded. */
  lemma CutIffExceeds(body: Body, bodyBytes: nat, limits: Limits, report: Report)
    requires Explains(body, bodyBytes, limits, report, false) && report.fixedPoint
    ensures report.truncated <==> OutputExceeds(body, limits.maxFacts)
  {
    var entries :| Lists(body, entries, limits, report);
    ExceedsIffCostsMore(body, entries, limits.maxFacts);
  }

  /** Emits the report of a converged search. */
  method ReportSolution(body: Body, entries: map<nat, State>, iterations: nat, limits: Limits, control: Control)
    returns (report: Report)
    requires Solved(body, entries) && Listable(BlockTable(body.blocks), entries, Ascending(entries.Keys))
    modifies control
    ensures control.fired == (old(control.fired) || (report.truncated && report.limitations == {}))
    ensures Lists(body, entries, limits, report) && report.iterations == iterations
  {
    var cfg, keys := BlockTable(body.blocks), Ascending(entries.Keys);
    ReachedKeys(body, entries);
    EntryIsListed(body, entries);
    var emitted := Emit(cfg, entries, body.argumentCount, keys, limits.maxFacts, control);
    report := Report(true, iterations, keys, emitted.definitions, emitted.uses, emitted.effects,
                     !emitted.complete, if emitted.why.Some? then {emitted.why.value} else {});
  }

  lemma EntryIsListed(body: Body, entries: map<nat, State>)
    requires Solved(body, entries)
    ensures Ascending(entries.Keys) != []
  {
    var cfg := BlockTable(body.blocks);
    ReachedKeys(body, entries);
    assert IsPath(cfg, Start, 0) && TrueOf(Trace(cfg, body.argumentCount, Start), Reached);
    assert AtEntry(cfg, body.argumentCount, 0, Reached);
    assert 0 in Ascending(entries.Keys);
  }

  ghost function Withheld(report: Report): Report {
    report.(definitions := {}, uses := [], effects := [], reachableBlocks := [], truncated := true,
            limitations := report.limitations + {ResponseByteBudget})
  }

  /** The report itself when it fits, else without its claims when that fits, else nothing. */
  ghost predicate Fitted(report: Report, reportBytes: Report -> nat, maxBytes: nat, result: Result<Report, AnalysisError>) {
    match result
    case Ok(fitted) =>
      reportBytes(fitted) <= maxBytes && (fitted == report || (fitted == Withheld(report) && reportBytes(report) > maxBytes))
    case Err(error) => error == BudgetExhausted && reportBytes(report) > maxBytes && reportBytes(Withheld(report)) > maxBytes
  }

  /** Withholds every claim when the serialized report is too large. */
  method FitResponse(report: Report, reportBytes: Report -> nat, maxBytes: nat) returns (result: Result<Report, AnalysisError>)
    ensures Fitted(report, reportBytes, maxBytes, result)
  {
    if reportBytes(report) <= maxBytes { return Ok(report); }
    var withheld := report.(definitions := {}, uses := [], effects := [], reachableBlocks := [], truncated := true,
                            limitations := report.limitations + {ResponseByteBudget});
    if reportBytes(withheld) > maxBytes { return Err(BudgetExhausted); }
    return Ok(withheld);
  }

  /** An oversized report is never shown in part: what is delivered is the report itself, or claims
      nothing and says so; either way it is honest, and complete unless marked truncated. */
  lemma FittedIsHonest(body: Body, bodyBytes: nat, limits: Limits, report: Report, fired: bool, reportBytes: Report -> nat, fitted: Report)
    requires Explains(body, bodyBytes, limits, report, fired)
    requires Fitted(report, reportBytes, limits.maxResponseBytes, Ok(fitted))
    ensures Finished(body, fitted) && reportBytes(fitted) <= limits.maxResponseBytes
    ensures fitted != report ==> Silent(fitted) && ResponseByteBudget in fitted.limitations && reportBytes(report) > limits.maxResponseBytes
    ensures ResponseByteBudget in fitted.limitations ==> fitted != report
  {
    ExplainsIsFinished(body, bodyBytes, limits, report, fired);
    if fitted != report { SilentIsFinished(body, fitted); }
  }

  /** Only the report of a converged search is measured; one without claims is answered as it is. */
  ghost predicate Delivered(full: Report, reportBytes: Report -> nat, maxBytes: nat, result: Result<Report, AnalysisError>) {
    if full.fixedPoint then Fitted(full, reportBytes, maxBytes, result) else result == Ok(full)
  }

  /** Solves and reports an accepted body. */
  method AnalyzeBody(body: Body, ghost bodyBytes: nat, ghost locals: set<nat>, limits: Limits, reportBytes: Report -> nat, control: Control)
    returns (result: Result<Report, AnalysisError>, ghost full: Report)
    requires WellFormed(BlockTable(body.blocks), locals, body.argumentCount) && locals == LocalSet(body.locals)
    modifies control
    ensures control.fired == (old(control.fired) || (full.truncated && full.limitations == {}))
    ensures Explains(body, bodyBytes, limits, full, control.fired) && Delivered(full, reportBytes, limits.maxResponseBytes, result)
    ensures Feasible(BlockTable(body.blocks), locals, body.argumentCount, limits) && !control.fired ==> full.fixedPoint
  {
    var search := FixedPoint(BlockTable(body.blocks), locals, body.argumentCount, limits, control);
    match search {
      case SearchStopped(n) =>
        full := NOTHING.(truncated := true, iterations := n);
        return Ok(NOTHING.(truncated := true, iterations := n)), full;
      case SearchLimited(n, why) =>
        var limited := NOTHING.(truncated := true, iterations := n, limitations := {why});
        assert Justified(body, bodyBytes, limits, why);
        return Ok(limited), limited;
      case Converged(entries, n) =>
        SolvedBySearch(body, locals, entries, limits.maxFacts);
        result, full := Deliver(body, bodyBytes, entries, n, limits, reportBytes, control);
    }
  }

  method Deliver(body: Body, ghost bodyBytes: nat, entries: map<nat, State>, iterations: nat, limits: Limits,
                 reportBytes: Report -> nat, control: Control)
    returns (result: Result<Report, AnalysisError>, ghost full: Report)
    requires Solved(body, entries) && iterations <= limits.maxIterations
    modifies control
    ensures control.fired == (old(control.fired) || (full.truncated && full.limitations == {}))
    ensures Explains(body, bodyBytes, limits, full, control.fired) && full.fixedPoint
    ensures Fitted(full, reportBytes, limits.maxResponseBytes, result)
  {
    ReachedKeys(body, entries);
    var report := ReportSolution(body, entries, iterations, limits, control);
    ListsIsExplained(body, bodyBytes, entries, limits, report, control.fired);
    full := report;
    result := FitResponse(report, reportBytes, limits.maxResponseBytes);
  }

  lemma ListsIsExplained(body: Body, bodyBytes: nat, entries: map<nat, State>, limits: Limits, report: Report, fired: bool)
    requires Lists(body, entries, limits, report) && report.iterations <= limits.maxIterations
    requires report.truncated && report.limitations == {} ==> fired
    ensures Explains(body, bodyBytes, limits, report, fired)
  {
    ExceedsIffCostsMore(body, entries, limits.maxFacts);
  }

  lemma SolvedBySearch(body: Body, locals: set<nat>, entries: map<nat, State>, maxFacts: nat)
    requires TableInvariant(BlockTable(body.blocks), locals, body.argumentCount, maxFacts, Table(entries, {}, RetainedFacts(entries)))
    requires Exact(BlockTable(body.blocks), body.argumentCount, entries)
    ensures Solved(body, entries)
  {
    forall b | b in entries
      ensures b in BlockTable(body.blocks) && Canonical(entries[b])
    {
      assert SoundAt(BlockTable(body.blocks), locals, body.argumentCount, b, entries[b]);
    }
  }

  /** What the analysis answers unless it refuses its input. full is the report before its size is known:
      explained, and delivered as far as it fits. Unless a poll fired, an input within the budgets is well
      formed, and its solution is reported, whole unless the output budget cuts it, when it is feasible. */
  ghost predicate Answers(body: Body, bodyBytes: nat, limits: Limits, reportBytes: Report -> nat, full: Report, fired: bool,
                          result: Result<Report, AnalysisError>) {
    && Explains(body, bodyBytes, limits, full, fired) && Delivered(full, reportBytes, limits.maxResponseBytes, result)
    && (result.Ok? ==> Finished(body, result.value))
    && (full.fixedPoint || (result.Ok? && !result.value.truncated) ==> Acceptable(body) && WithinInput(body, bodyBytes, limits))
    && (!fired && WithinInput(body, bodyBytes, limits) ==> Acceptable(body) && SolvesFeasible(body, limits, full))
  }

  ghost predicate SolvesFeasible(body: Body, limits: Limits, full: Report) {
    WellFormed(BlockTable(body.blocks), LocalSet(body.locals), body.argumentCount)
    && (Feasible(BlockTable(body.blocks), LocalSet(body.locals), body.argumentCount, limits) ==>
          full.fixedPoint && (full.truncated <==> OutputExceeds(body, limits.maxFacts)))
  }

  method CheckLimits(limits: Limits) returns (ok: bool)
    ensures ok <==> ValidLimits(limits)
  {
    return 1 <= limits.maxBlocks <= 4096 && 1 <= limits.maxLocals <= 4096 && 1 <= limits.maxFacts <= 200_000
      && 1 <= limits.maxIterations <= 1_000_000 && 1024 <= limits.maxResponseBytes <= 2 * 1024 * 1024;
  }

  /** The whole analysis. bodyBytes and reportBytes stand for serialized sizes; full is the report
      before its size is known. */
  method Analyze(body: Body, bodyIdBytes: nat, bodyBytes: nat, limits: Limits, reportBytes: Report -> nat, control: Control)
    returns (result: Result<Report, AnalysisError>, ghost full: Report)
    modifies control
    ensures control.fired == (old(control.fired) || (full.truncated && full.limitations == {}))
    ensures result == Err(InvalidInput) ==> !ValidLimits(limits) || !(1 <= bodyIdBytes <= 256) || !Acceptable(body)
    ensures !ValidLimits(limits) || !(1 <= bodyIdBytes <= 256) ==> result == Err(InvalidInput)
    ensures result != Err(InvalidInput) ==> Answers(body, bodyBytes, limits, reportBytes, full, control.fired, result)
  {
    full := NOTHING;
    var ok := CheckLimits(limits);
    if !ok || bodyIdBytes == 0 || bodyIdBytes > 256 { return Err(InvalidInput), full; }
    result, full := AnalyzeInput(body, bodyBytes, limits, reportBytes, control);
  }

  /** The analysis within valid limits. */
  method AnalyzeInput(body: Body, bodyBytes: nat, limits: Limits, reportBytes: Report -> nat, control: Control)
    returns (result: Result<Report, AnalysisError>, ghost full: Report)
    requires ValidLimits(limits)
    modifies control
    ensures control.fired == (old(control.fired) || (full.truncated && full.limitations == {}))
    ensures result == Err(InvalidInput) ==> !Acceptable(body)
    ensures result != Err(InvalidInput) ==> Answers(body, bodyBytes, limits, reportBytes, full, control.fired, result)
  {
    full := NOTHING;
    var guard := InputGuard(body, bodyBytes, limits, control);
    match guard {
      case GuardInvalid => return Err(InvalidInput), full;
      case GuardStopped =>
        full := NOTHING.(truncated := true);
        return Ok(NOTHING.(truncated := true)), full;
      case GuardLimited(why) =>
        var limited := NOTHING.(truncated := true, limitations := {why});
        assert Justified(body, bodyBytes, limits, why);
        return Ok(limited), limited;
      case Proceed(cfg, locals) =>
        result, full := AnalyzeBody(body, bodyBytes, locals, limits, reportBytes, control);
        AnalyzedIsFinished(body, bodyBytes, limits, full, control.fired, reportBytes, result);
        if full.fixedPoint && !control.fired { CutIffExceeds(body, bodyBytes, limits, full); }
    }
  }

  lemma AnalyzedIsFinished(body: Body, bodyBytes: nat, limits: Limits, full: Report, fired: bool, reportBytes: Report -> nat,
                           result: Result<Report, AnalysisError>)
    requires Explains(body, bodyBytes, limits, full, fired) && Delivered(full, reportBytes, limits.maxResponseBytes, result)
    ensures result.Ok? ==> Finished(body, result.value)
  {
    if result.Ok? {
      if full.fixedPoint {
        FittedIsHonest(body, bodyBytes, limits, full, fired, reportBytes, result.value);
      } else {
        ExplainsIsFinished(body, bodyBytes, limits, full, fired);
      }
    }
  }
}
