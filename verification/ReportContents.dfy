/** What a reaching-definitions report lists, in terms of the statements, terminators and edges of the body. */
module ReportContents {
  import opened Mir
  import opened Traces
  import opened Dataflow
  import opened ReachingDefinitions

  /** A yield, or any edge on which a coroutine is resumed or dropped. */
  ghost predicate MaySuspend(terminator: Terminator) {
    terminator.kind == Yield
    || exists e :: e in terminator.successors && (e.kind == Resume || e.kind == CoroutineDrop)
  }

  /** A statement or the terminator of a block at its point, with the unknown memory effects it may have:
      a suspension point also lets outside code change memory. */
  ghost predicate IsPart(block: Block, point: Point, locals: LocalEffects, unknown: set<UnknownEffect>) {
    || IsStatement(block, point, locals, unknown)
    || (point == TerminatorPoint(block.index) && locals == block.terminator.locals
        && unknown == (set e | e in locals.unknown) + (if MaySuspend(block.terminator) then {ExternalState} else {}))
  }

  ghost predicate IsStatement(block: Block, point: Point, locals: LocalEffects, unknown: set<UnknownEffect>) {
    exists k :: 0 <= k < |block.statements| && point == StatementPoint(block.index, block.statements[k].index)
      && locals == block.statements[k].locals && unknown == set e | e in locals.unknown
  }

  /** Some part of a listed block uses or moves the local at the point. */
  ghost predicate ReadAt(cfg: map<nat, Block>, blocks: seq<nat>, x: nat, point: Point) {
    exists b, locals, unknown :: b in blocks && b in cfg && IsPart(cfg[b], point, locals, unknown)
      && (x in locals.uses || x in locals.moves)
  }

  /** An argument at entry, an assignment of a part, or a call destination on the normal edge. */
  ghost predicate DefinedAt(cfg: map<nat, Block>, argumentCount: nat, blocks: seq<nat>, d: Definition) {
    || (d.point == Entry && 1 <= d.local <= argumentCount)
    || (exists b, locals, unknown :: b in blocks && b in cfg && IsPart(cfg[b], d.point, locals, unknown) && d.local in locals.defs)
    || exists b, e :: b in blocks && b in cfg && ReturnsOver(cfg[b], e, d)
  }

  ghost predicate ReturnsOver(block: Block, edge: Successor, d: Definition) {
    edge in block.terminator.successors && edge.kind == Normal
    && d.point == NormalReturn(block.index, edge.target) && d.local in block.terminator.normalReturnDefs
  }

  /** Some part of a listed block has exactly these unknown effects, and at least one. */
  ghost predicate UnknownAt(cfg: map<nat, Block>, blocks: seq<nat>, m: MemoryEffect) {
    m.effects != {} && exists b, locals :: b in blocks && b in cfg && IsPart(cfg[b], m.point, locals, m.effects)
  }

  // ---- parts and items ----

  /** The item is the part, up to how its unknown effects are listed. */
  ghost predicate Presents(item: (Point, LocalEffects), point: Point, locals: LocalEffects, unknown: set<UnknownEffect>) {
    && item.0 == point && item.1.(unknown := []) == locals.(unknown := []) && unknown == (set e | e in item.1.unknown)
    && |item.1.unknown| == |locals.unknown| + (if exists e :: e in unknown && e !in locals.unknown then 1 else 0)
  }

  lemma SuspendsIsMaySuspend(terminator: Terminator)
    ensures Suspends(terminator) <==> MaySuspend(terminator)
  {
    if MaySuspend(terminator) && terminator.kind != Yield {
      var e :| e in terminator.successors && (e.kind == Resume || e.kind == CoroutineDrop);
      var i :| 0 <= i < |terminator.successors| && terminator.successors[i] == e;
    }
  }

  lemma TerminatorIsPresented(block: Block)
    ensures Presents(Items(block)[|block.statements|], TerminatorPoint(block.index), block.terminator.locals,
      (set e | e in block.terminator.locals.unknown) + (if MaySuspend(block.terminator) then {ExternalState} else {}))
  {
    SuspendsIsMaySuspend(block.terminator);
  }

  lemma PartIsItem(block: Block, point: Point, locals: LocalEffects, unknown: set<UnknownEffect>) returns (i: nat)
    requires IsPart(block, point, locals, unknown)
    ensures i < |Items(block)| && Presents(Items(block)[i], point, locals, unknown)
  {
    if IsStatement(block, point, locals, unknown) {
      i :| 0 <= i < |block.statements| && point == StatementPoint(block.index, block.statements[i].index)
        && locals == block.statements[i].locals && unknown == set e | e in locals.unknown;
    } else {
      i := |block.statements|;
      TerminatorIsPresented(block);
    }
  }

  lemma ItemIsPart(block: Block, i: nat) returns (locals: LocalEffects, unknown: set<UnknownEffect>)
    requires i < |Items(block)|
    ensures IsPart(block, Items(block)[i].0, locals, unknown) && Presents(Items(block)[i], Items(block)[i].0, locals, unknown)
  {
    if i < |block.statements| {
      locals := block.statements[i].locals;
      unknown := set e | e in locals.unknown;
      assert IsStatement(block, Items(block)[i].0, locals, unknown);
    } else {
      locals := block.terminator.locals;
      unknown := (set e | e in locals.unknown) + (if MaySuspend(block.terminator) then {ExternalState} else {});
      TerminatorIsPresented(block);
    }
  }

  // ---- what listings are made of ----

  lemma {:induction false} ItemsDefine(items: seq<(Point, LocalEffects)>, d: Definition)
    ensures d in DefinedBy(ItemEvents(items)) <==>
      exists i :: 0 <= i < |items| && items[i].0 == d.point && d.local in items[i].1.defs
    decreases |items|
  {
    if items != [] {
      var init, last := items[..|items| - 1], items[|items| - 1];
      ItemsDefine(init, d);
      DefinedAppend(ItemEvents(init), EffectEvents(last.1, last.0));
      ItemDefines(last);
      ListDefines(last.1.defs, last.0, d);
      assert forall i :: 0 <= i < |init| ==> items[i] == init[i];
    }
  }

  lemma ListDefines(defs: seq<nat>, point: Point, d: Definition)
    ensures d in DefinedBy(Defines(defs, point)) <==> d.point == point && d.local in defs
  {
    if d.point == point && d.local in defs {
      var i :| 0 <= i < |defs| && defs[i] == d.local;
      assert Defines(defs, point)[i] == Define(d.local, point);
    }
  }

  lemma {:induction false} ItemsHaveEffects(items: seq<(Point, LocalEffects)>, m: MemoryEffect)
    ensures m in MemoryEffects(items) <==>
      exists i :: 0 <= i < |items| && items[i].0 == m.point && items[i].1.unknown != [] && m.effects == set e | e in items[i].1.unknown
    decreases |items|
  {
    if items != [] {
      var init, last := items[..|items| - 1], items[|items| - 1];
      ItemsHaveEffects(init, m);
      assert forall i :: 0 <= i < |init| ==> items[i] == init[i];
    }
  }

  lemma {:induction false} BlocksHaveEffects(cfg: map<nat, Block>, keys: seq<nat>, m: MemoryEffect)
    requires forall b :: b in keys ==> b in cfg
    ensures m in AllMemoryEffects(cfg, keys) <==> exists b :: b in keys && m in MemoryEffects(Items(cfg[b]))
    decreases |keys|
  {
    if keys != [] {
      var init, last := keys[..|keys| - 1], keys[|keys| - 1];
      BlocksHaveEffects(cfg, init, m);
      assert forall b :: b in keys <==> b in init || b == last;
    }
  }

  lemma EffectsAreUnknown(cfg: map<nat, Block>, keys: seq<nat>, m: MemoryEffect)
    requires forall b :: b in keys ==> b in cfg
    ensures m in AllMemoryEffects(cfg, keys) <==> UnknownAt(cfg, keys, m)
  {
    BlocksHaveEffects(cfg, keys, m);
    if m in AllMemoryEffects(cfg, keys) {
      var b :| b in keys && m in MemoryEffects(Items(cfg[b]));
      ItemsHaveEffects(Items(cfg[b]), m);
      var i :| 0 <= i < |Items(cfg[b])| && Items(cfg[b])[i].0 == m.point && Items(cfg[b])[i].1.unknown != []
        && m.effects == set e | e in Items(cfg[b])[i].1.unknown;
      var locals, unknown := ItemIsPart(cfg[b], i);
      assert Items(cfg[b])[i].1.unknown[0] in m.effects;
    }
    if UnknownAt(cfg, keys, m) {
      var b, locals :| b in keys && b in cfg && IsPart(cfg[b], m.point, locals, m.effects);
      var i := PartIsItem(cfg[b], m.point, locals, m.effects);
      ItemsHaveEffects(Items(cfg[b]), m);
    }
  }

  lemma EdgesReturn(block: Block, d: Definition)
    ensures d in BlockSites(block) <==> d in DefinedBy(ItemEvents(Items(block))) || exists e :: ReturnsOver(block, e, d)
  {
    forall e
      ensures ReturnsOver(block, e, d) <==> e in block.terminator.successors && d in DefinedBy(EdgeEvents(block, e))
    {
      ListDefines(block.terminator.normalReturnDefs, NormalReturn(block.index, e.target), d);
    }
    if exists e :: ReturnsOver(block, e, d) {
      var e :| ReturnsOver(block, e, d);
      assert e in block.terminator.successors && d in DefinedBy(EdgeEvents(block, e));
    }
  }

  /** Some part of the block assigns the local at the point. */
  ghost predicate AssignedIn(block: Block, d: Definition) {
    exists locals, unknown :: IsPart(block, d.point, locals, unknown) && d.local in locals.defs
  }

  lemma BlockAssigns(block: Block, d: Definition)
    ensures d in DefinedBy(ItemEvents(Items(block))) <==> AssignedIn(block, d)
  {
    ItemsDefine(Items(block), d);
    if d in DefinedBy(ItemEvents(Items(block))) {
      var i :| 0 <= i < |Items(block)| && Items(block)[i].0 == d.point && d.local in Items(block)[i].1.defs;
      var locals, unknown := ItemIsPart(block, i);
    }
    if AssignedIn(block, d) {
      var locals, unknown :| IsPart(block, d.point, locals, unknown) && d.local in locals.defs;
      var i := PartIsItem(block, d.point, locals, unknown);
    }
  }

  lemma SitesAreDefined(cfg: map<nat, Block>, argumentCount: nat, keys: seq<nat>, d: Definition)
    requires forall b :: b in keys ==> b in cfg
    ensures d in AllSites(cfg, argumentCount, keys) <==> DefinedAt(cfg, argumentCount, keys, d)
  {
    ArgumentSites(argumentCount);
    forall b | b in keys
      ensures d in BlockSites(cfg[b]) <==> AssignedIn(cfg[b], d) || exists e :: ReturnsOver(cfg[b], e, d)
    {
      BlockAssigns(cfg[b], d);
      EdgesReturn(cfg[b], d);
    }
    var fromBlocks := set b, d' | b in keys && d' in BlockSites(cfg[b]) :: d';
    assert d in fromBlocks <==> exists b :: b in keys && d in BlockSites(cfg[b]);
  }

  // ---- the reports ----

  /** Main result on complete reports: every local that a statement or terminator of a reachable block
      uses or moves has its record there, and definitions and unknown effects are exactly those made. */
  lemma CompleteReport(body: Body, report: Report)
    requires Complete(body, report)
    ensures forall x, point :: ReadAt(BlockTable(body.blocks), report.reachableBlocks, x, point) ==> Recorded(report.uses, x, point)
    ensures forall d :: d in report.definitions <==> DefinedAt(BlockTable(body.blocks), body.argumentCount, report.reachableBlocks, d)
    ensures forall m :: m in report.effects <==> UnknownAt(BlockTable(body.blocks), report.reachableBlocks, m)
  {
    var cfg, keys := BlockTable(body.blocks), report.reachableBlocks;
    forall x, point | ReadAt(cfg, keys, x, point)
      ensures Recorded(report.uses, x, point)
    {
      var b, locals, unknown :| b in keys && b in cfg && IsPart(cfg[b], point, locals, unknown) && (x in locals.uses || x in locals.moves);
      var i := PartIsItem(cfg[b], point, locals, unknown);
      assert UsedAt(cfg, keys, b, i, x);
    }
    forall d
      ensures d in report.definitions <==> DefinedAt(cfg, body.argumentCount, keys, d)
    {
      SitesAreDefined(cfg, body.argumentCount, keys, d);
    }
    forall m
      ensures m in report.effects <==> UnknownAt(cfg, keys, m)
    {
      EffectsAreUnknown(cfg, keys, m);
    }
  }

  /** Every record, definition and effect of any report belongs to a statement, terminator or edge of a
      reported block. */
  lemma HonestReport(body: Body, report: Report)
    requires Honest(body, report)
    ensures forall use :: use in report.uses ==> ReadAt(BlockTable(body.blocks), report.reachableBlocks, use.local, use.point)
    ensures forall d :: d in report.definitions ==> DefinedAt(BlockTable(body.blocks), body.argumentCount, report.reachableBlocks, d)
    ensures forall m :: m in report.effects ==> UnknownAt(BlockTable(body.blocks), report.reachableBlocks, m)
  {
    var cfg, keys := BlockTable(body.blocks), report.reachableBlocks;
    forall use | use in report.uses
      ensures ReadAt(cfg, keys, use.local, use.point)
    {
      assert UseAtSomePoint(cfg, body.argumentCount, keys, use);
      var b, i :| b in keys && b in cfg && 0 <= i < |Items(cfg[b])| && UseIsExact(cfg, body.argumentCount, b, i, use)
        && Reads(Items(cfg[b])[i].1, use.local);
      var locals, unknown := ItemIsPart(cfg[b], i);
    }
    forall d | d in report.definitions
      ensures DefinedAt(cfg, body.argumentCount, keys, d)
    {
      SitesAreDefined(cfg, body.argumentCount, keys, d);
    }
    forall m | m in report.effects
      ensures UnknownAt(cfg, keys, m)
    {
      EffectsAreUnknown(cfg, keys, m);
    }
  }
}
