/** What the checkers read is the graph the builder built: joining the IR to the graph facts resolved against it. */
module EmittedIr {
  import opened Collections
  import opened Graphs
  import opened Blocks
  import opened FunctionIr
  import opened SiteKeys

  /** The IR as the checkers read it back. */
  function Emitted(ir: seq<Block>): (r: seq<IrBlock>)
    ensures |r| == |ir|
    ensures forall b :: 0 <= b < |ir| ==> r[b].id == ir[b].id && r[b].succs == ir[b].succs
  {
    seq(|ir|, b requires 0 <= b < |ir| =>
      IrBlock(ir[b].id, ir[b].succs, set k | 0 <= k < |ir[b].instrs| && ir[b].instrs[k].op.Call? :: ir[b].instrs[k].va))
  }

  lemma {:induction false} NumberedSuccessors(blocks: seq<IrBlock>, ids: set<nat>, b: nat, t: nat)
    requires forall i :: 0 <= i < |blocks| ==> blocks[i].id == i
    ensures Edge(SuccessorMap(blocks, ids), b, t) <==> b < |blocks| && t in blocks[b].succs && t in ids
  {
    if blocks != [] {
      NumberedSuccessors(blocks[..|blocks| - 1], ids, b, t);
    }
  }

  /** No edge of a built graph is lost or doubled on the way, so joins and loops are what they are in the IR itself. */
  lemma BuiltGraphsAreReadBackWhole(ir: seq<Block>)
    requires WellShaped(ir)
    ensures var g := SuccessorMap(Emitted(ir), Ids(Emitted(ir)));
            && NoParallelEdges(g)
            && (0 in Ids(Emitted(ir)) <==> ir != [])
            && (forall b: nat, t: nat :: Edge(g, b, t) <==> b < |ir| && t in ir[b].succs)
            && (forall b: nat, t: nat :: Edge(g, b, t) <==> t < |ir| && b in ir[t].preds)
  {
    var blocks := Emitted(ir);
    forall i | 0 <= i < |blocks| ensures NoRepeats(blocks[i].succs) {
      assert StrictlyAscending(ir[i].succs);
    }
    forall b: nat, t: nat ensures Edge(SuccessorMap(blocks, Ids(blocks)), b, t) <==> b < |ir| && t in ir[b].succs {
      NumberedSuccessors(blocks, Ids(blocks), b, t);
      if t < |ir| { assert blocks[t].id == t; }
    }
    assert ir != [] ==> blocks[0].id == 0;
  }
}
