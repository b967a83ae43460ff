/** The imported compiler body: blocks, statements, terminators and their local effects. */
module Mir {
  import opened Wrappers

  datatype EdgeKind = Normal | SwitchValue | Otherwise | Unwind | Resume | CoroutineDrop | Imaginary

  datatype UnknownEffect =
    | Call | IndirectCall | PointerAliasing | BorrowAliasing | PartialWrite
    | Drop | InlineAssembly | Intrinsic | Retag | ExternalState

  datatype LocalEffects = LocalEffects(
    defs: seq<nat>, uses: seq<nat>, moves: seq<nat>,
    storageLive: seq<nat>, storageDead: seq<nat>, unknown: seq<UnknownEffect>)

  datatype UnwindAction = Continue | UnwindUnreachable | Terminate(reason: string) | Cleanup(target: nat)

  datatype CallTarget = FunctionDefinition | Indirect

  datatype Successor = Successor(target: nat, kind: EdgeKind, switchValue: Option<string>)

  /** Terminator kinds are text in the interchange format; Unsupported stands for any other text. */
  datatype TerminatorKind =
    | Goto | SwitchInt | Return | UnwindResume | Unreachable | DropCoroutine | TailCall
    | UnwindTerminate | DropPlace | CallFunction | Assert | FalseUnwind | Yield | FalseEdge
    | InlineAsm | Unsupported

  datatype Terminator = Terminator(
    kind: TerminatorKind, sourceScope: nat, locals: LocalEffects, normalReturnDefs: seq<nat>,
    successors: seq<Successor>, unwind: Option<UnwindAction>,
    callTarget: Option<CallTarget>, assertExpected: Option<bool>)

  datatype Statement = Statement(index: nat, supportedKind: bool, sourceScope: nat, locals: LocalEffects)

  datatype Block = Block(index: nat, isCleanup: bool, statements: seq<Statement>, terminator: Terminator)

  datatype LocalRole = ReturnPlace | Argument | Temporary | OtherRole

  datatype Local = Local(index: nat, role: LocalRole, sourceScope: nat)

  datatype SourceScope = SourceScope(index: nat, parent: Option<nat>)

  datatype Body = Body(
    supportedKind: bool, argumentCount: nat, locals: seq<Local>,
    sourceScopes: seq<SourceScope>, blocks: seq<Block>)

  /** The block table keyed by index; a later duplicate replaces an earlier one. */
  function BlockTable(blocks: seq<Block>): (table: map<nat, Block>)
    ensures forall i :: i in table ==> table[i].index == i && table[i] in blocks
    ensures forall b :: b in blocks ==> b.index in table
  {
    if blocks == [] then map[]
    else
      var last := blocks[|blocks| - 1];
      var init := blocks[..|blocks| - 1];
      assert blocks == init + [last];
      BlockTable(init)[last.index := last]
  }

  ghost predicate DistinctIndices(blocks: seq<Block>) {
    forall i, j :: 0 <= i < j < |blocks| ==> blocks[i].index != blocks[j].index
  }

  ghost predicate HasIndex(blocks: seq<Block>, index: nat) {
    exists i :: 0 <= i < |blocks| && blocks[i].index == index
  }

  lemma TableHasIndex(blocks: seq<Block>, index: nat)
    ensures index in BlockTable(blocks) <==> HasIndex(blocks, index)
  {
    if index in BlockTable(blocks) {
      var i :| 0 <= i < |blocks| && blocks[i] == BlockTable(blocks)[index];
    }
    if HasIndex(blocks, index) {
      var i :| 0 <= i < |blocks| && blocks[i].index == index;
      assert blocks[i] in blocks;
    }
  }

  lemma DistinctSplits(blocks: seq<Block>, init: seq<Block>, last: Block)
    requires blocks == init + [last]
    ensures DistinctIndices(blocks) <==> DistinctIndices(init) && !HasIndex(init, last.index)
  {
    if HasIndex(init, last.index) {
      var i :| 0 <= i < |init| && init[i].index == last.index;
      assert blocks[i].index == blocks[|init|].index;
    }
    if DistinctIndices(blocks) {
      assert forall i :: 0 <= i < |init| ==> init[i] == blocks[i];
    }
  }

  lemma DistinctInit(blocks: seq<Block>)
    requires blocks != []
    ensures var init, last := blocks[..|blocks| - 1], blocks[|blocks| - 1];
            DistinctIndices(blocks) <==> DistinctIndices(init) && last.index !in BlockTable(init)
  {
    var init, last := blocks[..|blocks| - 1], blocks[|blocks| - 1];
    DistinctSplits(blocks, init, last);
    TableHasIndex(init, last.index);
  }

  /** The table keeps every block exactly when the indices are distinct. */
  lemma {:induction false} TableSize(blocks: seq<Block>)
    ensures |BlockTable(blocks)| <= |blocks|
    ensures |BlockTable(blocks)| == |blocks| <==> DistinctIndices(blocks)
  {
    if blocks != [] {
      TableSize(blocks[..|blocks| - 1]);
      DistinctInit(blocks);
    }
  }

  lemma {:induction false} TableLookup(blocks: seq<Block>, b: Block)
    requires DistinctIndices(blocks) && b in blocks
    ensures b.index in BlockTable(blocks) && BlockTable(blocks)[b.index] == b
    decreases |blocks|
  {
    var init, last := blocks[..|blocks| - 1], blocks[|blocks| - 1];
    DistinctSplits(blocks, init, last);
    if b != last {
      var i :| 0 <= i < |blocks| && blocks[i] == b;
      assert init[i] == b;
      assert HasIndex(init, b.index);
      TableLookup(init, b);
    }
  }
}
