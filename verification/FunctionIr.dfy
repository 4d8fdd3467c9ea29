/** Building one function's IR. */
module FunctionIr {
  import opened Collections
  import opened Lift
  import opened LinearCode
  import opened Blocks
  import opened Cfg
  import opened Pruning
  import opened MeaningPreservation
  import opened Elision

  /** What a consumer of the graph may rely on. */
  ghost predicate WellShaped(ir: seq<Block>) {
    && Numbered(ir) && PredsMatch(ir)
    && (forall b :: 0 <= b < |ir| ==> StrictlyAscending(ir[b].succs))
    && (forall b, s :: 0 <= b < |ir| && s in ir[b].succs ==> s < |ir|)
  }

  method BuildFunctionIr(asm: seq<AsmInstr>) returns (ir: seq<Block>, code: seq<Instr>)
    requires WellFormed(Lifted(asm))
    ensures code == Lifted(asm)
    ensures forall i :: 0 <= i < |asm| ==> LiftsAs(asm[i], InSpelledGuard(asm, i), code[i])
    ensures WellShaped(ir)
    ensures forall w :: LinearRun(code, w) <==> BlockRun(ir, w)
    ensures forall i :: 0 <= i < |code| ==> (Survives(ir, code[i]) <==> !GuardOnly(code, i))
  {
    code := LlirFromDisasm(asm);
    assert code == Lifted(asm);
    var leaders := CollectLeaders(code);
    var cut, cuts := CutBlocks(code, leaders);
    LayoutFacts(code, cuts, cut);
    var byStart := IndexStarts(cut);
    var blocks := ResolveSuccessors(cut, byStart);
    ResolvedFacts(code, cuts, cut, blocks);
    var after, origin := Prune(blocks, byStart);
    RenumberedShape(blocks, after, origin);
    ir := LinkPredecessors(after);
    LinkedShape(after, ir);
    forall w ensures LinearRun(code, w) <==> BlockRun(ir, w) {
      BlocksMeanTheCode(code, cuts, blocks, w);
      PruningKeepsEntryPaths(blocks, byStart, after, origin, w);
      PredecessorsDoNotMatter(after, ir, w);
    }
    forall i: nat | i < |code| ensures Survives(ir, code[i]) <==> !GuardOnly(code, i) {
      ExactlyTheGuardOnlyCodeIsDropped(code, cuts, blocks, byStart, after, origin, i);
    }
  }

  lemma LinkedShape(after: seq<Block>, ir: seq<Block>)
    requires SameButPreds(after, ir) && PredsMatch(ir) && Numbered(after)
    requires forall b :: 0 <= b < |after| ==> StrictlyAscending(after[b].succs)
    requires forall b, s :: 0 <= b < |after| && s in after[b].succs ==> s < |after|
    ensures WellShaped(ir) && forall instr :: Survives(ir, instr) <==> Survives(after, instr)
  {
    assert forall b :: 0 <= b < |ir| ==> after[b].(preds := []) == ir[b].(preds := []);
  }

  ghost function Lifted(asm: seq<AsmInstr>): (code: seq<Instr>)
    ensures |code| == |asm|
    ensures forall i :: 0 <= i < |asm| ==> code[i] == LiftOne(asm[i], InGuard(asm, i))
  {
    seq(|asm|, i requires 0 <= i < |asm| => LiftOne(asm[i], InGuard(asm, i)))
  }

  lemma LayoutFacts(code: seq<Instr>, cuts: seq<nat>, blocks: seq<Block>)
    requires WellFormed(code) && Layout(code, cuts, blocks)
    ensures Numbered(blocks) && DistinctStarts(blocks)
  {
    forall b | 0 <= b < |blocks| ensures blocks[b].id == b && |blocks[b].instrs| > 0 {
      assert IsSlice(code, cuts, blocks, b);
    }
    forall a, b | 0 <= a < b < |blocks| ensures blocks[a].startVa != blocks[b].startVa {
      assert IsSlice(code, cuts, blocks, a) && IsSlice(code, cuts, blocks, b);
    }
  }

  lemma ResolvedFacts(code: seq<Instr>, cuts: seq<nat>, cut: seq<Block>, blocks: seq<Block>)
    requires WellFormed(code) && Layout(code, cuts, cut) && Numbered(cut)
    requires SameBodies(cut, blocks) && Numbered(blocks)
    requires forall i, j :: 0 <= i < |blocks| && j in blocks[i].succs ==> j < |blocks|
    requires forall i, j :: 0 <= i < |blocks| && 0 <= j < |blocks| ==> (j in blocks[i].succs <==> Follows(cut, i, j))
    ensures Resolved(code, cuts, blocks)
  {
    forall b | 0 <= b < |blocks| ensures IsSlice(code, cuts, blocks, b) {
      assert IsSlice(code, cuts, cut, b);
    }
  }

  lemma RenumberedShape(before: seq<Block>, after: seq<Block>, origin: seq<nat>)
    requires Numbered(before) && Renumbers(before, after, origin)
    ensures Numbered(after)
    ensures forall b :: 0 <= b < |after| ==> StrictlyAscending(after[b].succs)
    ensures forall b, s :: 0 <= b < |after| && s in after[b].succs ==> s < |after|
  {
    forall b | 0 <= b < |after|
      ensures after[b].id == b && |after[b].instrs| > 0 && StrictlyAscending(after[b].succs)
      ensures forall s :: s in after[b].succs ==> s < |after|
    {
      assert Carries(before, after, origin, b);
    }
  }
}
