/** What import validation buys the two analyses that read the same body. */
module ImportedBodies {
  import opened Mir
  import opened Traces
  import opened Dataflow
  import opened ReachingDefinitions
  import opened CompilerImport
  import Complexity

  /** Imported blocks sit at their own index. */
  lemma ImportedTable(body: Body)
    requires BodyValid(body)
    ensures DistinctIndices(body.blocks)
    ensures forall b :: 0 <= b < |body.blocks| ==> b in BlockTable(body.blocks) && BlockTable(body.blocks)[b] == body.blocks[b]
    ensures forall b :: b in BlockTable(body.blocks) ==> b < |body.blocks|
  {
    forall b | 0 <= b < |body.blocks|
      ensures body.blocks[b].index == b
    {
      BlocksValidAt(body, |body.blocks|, b);
    }
    forall b | 0 <= b < |body.blocks|
      ensures b in BlockTable(body.blocks) && BlockTable(body.blocks)[b] == body.blocks[b]
    {
      TableLookup(body.blocks, body.blocks[b]);
    }
    forall b | b in BlockTable(body.blocks)
      ensures b < |body.blocks|
    {
      var i :| 0 <= i < |body.blocks| && body.blocks[i] == BlockTable(body.blocks)[b];
    }
  }

  lemma ImportedLocals(body: Body)
    requires HeaderValid(body)
    ensures DistinctLocals(body.locals)
    ensures forall x :: 0 <= x < |body.locals| ==> x in LocalSet(body.locals)
  {
    forall x: nat | x < |body.locals|
      ensures x in LocalSet(body.locals)
    {
      assert body.locals[x] in body.locals && body.locals[x].index == x;
    }
  }

  lemma ValidEffectsInside(effects: LocalEffects, count: nat, locals: set<nat>)
    requires EffectsValid(effects, count)
    requires forall x :: 0 <= x < count ==> x in locals
    ensures EffectsInside(effects, locals)
  {
  }

  lemma ImportedBlockInside(body: Body, b: nat)
    requires BodyValid(body) && b < |body.blocks|
    ensures BlockInside(body.blocks[b], LocalSet(body.locals), BlockTable(body.blocks).Keys)
  {
    ImportedTable(body);
    ImportedLocals(body);
    BlocksValidAt(body, |body.blocks|, b);
    var block, locals := body.blocks[b], LocalSet(body.locals);
    forall i | 0 <= i < |block.statements|
      ensures block.statements[i].index == i && EffectsInside(block.statements[i].locals, locals)
    {
      assert StatementValid(body, block.statements[i], i);
      ValidEffectsInside(block.statements[i].locals, |body.locals|, locals);
    }
    ValidEffectsInside(block.terminator.locals, |body.locals|, locals);
  }

  /** Every body that import validation accepts passes the reaching-definitions input guard. */
  lemma ImportedBodyIsAnalyzable(body: Body)
    requires BodyValid(body)
    ensures Acceptable(body)
  {
    ImportedTable(body);
    ImportedLocals(body);
    forall b | b in BlockTable(body.blocks)
      ensures BlockInside(BlockTable(body.blocks)[b], LocalSet(body.locals), BlockTable(body.blocks).Keys)
    {
      ImportedBlockInside(body, b);
    }
  }

  lemma ImportedTermValid(body: Body, b: nat)
    requires BodyValid(body) && b < |body.blocks|
    ensures Complexity.GraphTermValid(body.blocks[b].terminator)
  {
    BlocksValidAt(body, |body.blocks|, b);
  }

  /** Every body that import validation accepts passes the complexity graph guard. */
  lemma ImportedBodyIsMeasurable(body: Body)
    requires BodyValid(body)
    ensures Complexity.GraphAcceptable(body.blocks)
  {
    ImportedTable(body);
    forall k | 0 <= k < |body.blocks|
      ensures Complexity.GraphTermValid(body.blocks[k].terminator)
    {
      ImportedTermValid(body, k);
    }
    Complexity.EachTermValid(body.blocks, |body.blocks|);
    forall k | 0 <= k < |body.blocks|
      ensures Complexity.TargetsInside(body.blocks[k], BlockTable(body.blocks).Keys)
    {
      ImportedBlockInside(body, k);
    }
  }

  /** A path the measure counts is a path the dataflow follows. */
  lemma {:induction false} CountedPathIsPath(cfg: map<nat, Block>, path: Path, b: nat)
    requires Complexity.IsCountedPath(cfg, path, b)
    ensures IsPath(cfg, path, b)
  {
    if path.Via? {
      CountedPathIsPath(cfg, path.before, path.block);
    }
  }

  /** Blocks reachable for the measure are reachable for the dataflow; false_unwind cleanup edges
      can make the converse fail. */
  lemma MeasuredBlocksAreAnalyzed(cfg: map<nat, Block>, argumentCount: nat, b: nat)
    requires Complexity.Reachable(cfg, b)
    ensures AtEntry(cfg, argumentCount, b, Reached)
  {
    var path :| Complexity.IsCountedPath(cfg, path, b);
    CountedPathIsPath(cfg, path, b);
    assert TrueOf(Trace(cfg, argumentCount, path), Reached);
  }

  lemma MeasuredSubset(body: Body, report: ReachingDefinitions.Report, reached: set<nat>)
    requires Complete(body, report)
    requires forall b :: b in reached <==> Complexity.Reachable(BlockTable(body.blocks), b)
    ensures forall b :: b in reached ==> b in report.reachableBlocks
  {
    forall b | b in reached
      ensures b in report.reachableBlocks
    {
      MeasuredBlocksAreAnalyzed(BlockTable(body.blocks), body.argumentCount, b);
    }
  }
}
