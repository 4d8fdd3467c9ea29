/** What the elision drops, in terms of the linear code: the instructions only a guard leads to. */
module Elision {
  import opened Collections
  import opened Graphs
  import opened Lift
  import opened LinearCode
  import opened Blocks
  import opened Cfg
  import opened Pruning
  import opened MeaningPreservation

  /** A guard at `i` can be taken to the block opening at `j`. */
  ghost predicate GuardStep(code: seq<Instr>, i: nat, j: nat)
    requires i < |code| && j < |code|
  {
    code[i].op.RuntimeCheck? && code[i].target == Some(code[j].va) && IsLeader(code, j)
  }

  /** One step of control, with the guards' taken edges or without. */
  ghost predicate Move(code: seq<Instr>, guards: bool, i: nat, j: nat)
    requires i < |code| && j < |code|
  {
    Step(code, i, j) || (guards && GuardStep(code, i, j))
  }

  ghost predicate Route(code: seq<Instr>, guards: bool, p: seq<nat>) {
    |p| > 0 && p[0] == 0 && InRange(code, p) && forall k :: 0 <= k < |p| - 1 ==> Move(code, guards, p[k], p[k + 1])
  }

  /** Control can get from the entry to instruction `i`. */
  ghost predicate Visits(code: seq<Instr>, guards: bool, i: nat) {
    exists p :: Route(code, guards, p) && p[|p| - 1] == i
  }

  /** Control can get to instruction `i`, but only through some guard's taken edge. */
  ghost predicate GuardOnly(code: seq<Instr>, i: nat) {
    Visits(code, true, i) && !Visits(code, false, i)
  }

  lemma VisitsStep(code: seq<Instr>, guards: bool, i: nat, j: nat)
    requires i < |code| && j < |code| && Visits(code, guards, i) && Move(code, guards, i, j)
    ensures Visits(code, guards, j)
  {
    var p :| Route(code, guards, p) && p[|p| - 1] == i;
    assert Route(code, guards, p + [j]);
  }

  lemma SliceBounds(code: seq<Instr>, cuts: seq<nat>, blocks: seq<Block>, b: nat)
    requires Resolved(code, cuts, blocks) && b < |blocks|
    ensures cuts[b] < cuts[b + 1] <= |code| && blocks[b].instrs == code[cuts[b]..cuts[b + 1]]
    ensures blocks[b].startVa == code[cuts[b]].va
  {
    BlockSpan(code, cuts, blocks, b);
    assert IsSlice(code, cuts, blocks, b);
  }

  lemma GuardEdgeIsGuardStep(code: seq<Instr>, cuts: seq<nat>, blocks: seq<Block>, byStart: map<nat, nat>, x: nat,
                             c: nat)
    requires Resolved(code, cuts, blocks) && IndexesStarts(blocks, byStart) && x < |code| && c < |blocks|
    ensures cuts[c] < |code|
    ensures IsGuardEdge(byStart, code[x], c) <==> GuardStep(code, x, cuts[c])
  {
    SliceBounds(code, cuts, blocks, c);
    assert cuts[c] in cuts && IsLeader(code, cuts[c]);
  }

  /** The guards of a block lead where the code's guards lead. */
  lemma GuardsLeadThere(code: seq<Instr>, cuts: seq<nat>, blocks: seq<Block>, byStart: map<nat, nat>, b: nat, c: nat)
    requires Resolved(code, cuts, blocks) && IndexesStarts(blocks, byStart) && b < |blocks| && c < |blocks|
    ensures cuts[b] < cuts[b + 1] <= |code| && cuts[c] < |code|
    ensures c in GuardTargets(byStart, blocks[b].instrs) <==>
            exists x :: cuts[b] <= x < cuts[b + 1] && GuardStep(code, x, cuts[c])
  {
    SliceBounds(code, cuts, blocks, b);
    SliceBounds(code, cuts, blocks, c);
    var instrs := blocks[b].instrs;
    forall k | 0 <= k < |instrs| ensures IsGuardEdge(byStart, instrs[k], c) <==> GuardStep(code, cuts[b] + k, cuts[c]) {
      GuardEdgeIsGuardStep(code, cuts, blocks, byStart, cuts[b] + k, c);
    }
    if x :| cuts[b] <= x < cuts[b + 1] && GuardStep(code, x, cuts[c]) {
      assert IsGuardEdge(byStart, instrs[x - cuts[b]], c);
    }
  }

  /** The edges of the walked graph, read off the code. */
  lemma EdgeIsAMove(code: seq<Instr>, cuts: seq<nat>, blocks: seq<Block>, byStart: map<nat, nat>,
                    guards: bool, b: nat, c: nat)
    requires Resolved(code, cuts, blocks) && IndexesStarts(blocks, byStart) && b < |blocks| && c < |blocks|
    ensures cuts[b] < cuts[b + 1] <= |code| && cuts[c] < |code|
    ensures Edge(FlowGraph(blocks, byStart, guards), b, c) <==>
            || Step(code, cuts[b + 1] - 1, cuts[c])
            || (guards && exists x :: cuts[b] <= x < cuts[b + 1] && GuardStep(code, x, cuts[c]))
  {
    GuardsLeadThere(code, cuts, blocks, byStart, b, c);
    LeavingABlock(code, cuts, blocks, b, cuts[c]);
    assert forall d :: 0 <= d < |blocks| && cuts[d] == cuts[c] ==> d == c;
  }

  /** Falling through a block from its start reaches all of it. */
  lemma {:induction false} FallsThrough(code: seq<Instr>, cuts: seq<nat>, blocks: seq<Block>, guards: bool, b: nat,
                                        x: nat)
    requires Resolved(code, cuts, blocks) && b < |blocks| && cuts[b] <= x < cuts[b + 1]
    requires cuts[b] < |code| && Visits(code, guards, cuts[b])
    ensures Visits(code, guards, x)
    decreases x
  {
    BlockSpan(code, cuts, blocks, b);
    if x > cuts[b] {
      FallsThrough(code, cuts, blocks, guards, b, x - 1);
      InsideABlock(code, cuts, blocks, b, x - 1, x);
      VisitsStep(code, guards, x - 1, x);
    }
  }

  lemma {:induction false} ReachedBlockIsVisited(code: seq<Instr>, cuts: seq<nat>, blocks: seq<Block>,
                                                 byStart: map<nat, nat>, guards: bool, p: seq<nat>, b: nat)
    requires Resolved(code, cuts, blocks) && IndexesStarts(blocks, byStart) && EdgesInside(blocks, byStart)
    requires |blocks| > 0 && PathBetween(FlowGraph(blocks, byStart, guards), 0, p, b)
    ensures b < |blocks| && Visits(code, guards, cuts[b])
    decreases |p|
  {
    var g := FlowGraph(blocks, byStart, guards);
    BlockSpan(code, cuts, blocks, 0);
    if |p| == 1 {
      assert Route(code, guards, [0]);
    } else {
      var a := p[|p| - 2];
      PathShrinks(g, 0, p, b);
      ReachedBlockIsVisited(code, cuts, blocks, byStart, guards, p[..|p| - 1], a);
      EdgeIsAMove(code, cuts, blocks, byStart, guards, a, b);
      var last := cuts[a + 1] - 1;
      if Step(code, last, cuts[b]) {
        FallsThrough(code, cuts, blocks, guards, a, last);
        VisitsStep(code, guards, last, cuts[b]);
      } else {
        var x :| cuts[a] <= x < cuts[a + 1] && GuardStep(code, x, cuts[b]);
        FallsThrough(code, cuts, blocks, guards, a, x);
        VisitsStep(code, guards, x, cuts[b]);
      }
    }
  }

  lemma {:induction false} VisitedBlockIsReached(code: seq<Instr>, cuts: seq<nat>, blocks: seq<Block>,
                                                 byStart: map<nat, nat>, guards: bool, p: seq<nat>, b: nat)
    requires Resolved(code, cuts, blocks) && IndexesStarts(blocks, byStart)
    requires Route(code, guards, p) && b < |blocks| && cuts[b] <= p[|p| - 1] < cuts[b + 1]
    ensures Reaches(FlowGraph(blocks, byStart, guards), 0, b)
    decreases |p|
  {
    var g := FlowGraph(blocks, byStart, guards);
    var y := p[|p| - 1];
    if |p| == 1 {
      assert b == 0;
      ReachesSelf(g, 0);
    } else {
      var x, r := p[|p| - 2], p[..|p| - 1];
      assert Route(code, guards, r);
      assert Move(code, guards, x, y);
      var a := BlockOf(code, cuts, blocks, x);
      VisitedBlockIsReached(code, cuts, blocks, byStart, guards, r, a);
      EnteringABlock(code, cuts, blocks, guards, a, x, b, y);
      if a != b || cuts[b] == y {
        EdgeIsAMove(code, cuts, blocks, byStart, guards, a, b);
        ReachesStep(g, 0, a, b);
      }
    }
  }

  /** A move either falls through inside one block or enters a block at its start. */
  lemma EnteringABlock(code: seq<Instr>, cuts: seq<nat>, blocks: seq<Block>, guards: bool, a: nat, x: nat, b: nat,
                       y: nat)
    requires Resolved(code, cuts, blocks) && a < |blocks| && b < |blocks|
    requires cuts[a] <= x < cuts[a + 1] <= |code| && cuts[b] <= y < cuts[b + 1] <= |code| && Move(code, guards, x, y)
    ensures if y == cuts[b] then Step(code, cuts[a + 1] - 1, y) || (guards && GuardStep(code, x, y))
            else a == b && y == x + 1
  {
    assert forall d, e :: 0 <= d < e < |cuts| ==> cuts[d] < cuts[e];
    if y in cuts {
      assert y == cuts[b];
    }
    if Step(code, x, y) {
      if x + 1 < cuts[a + 1] {
        InsideABlock(code, cuts, blocks, a, x, y);
      } else {
        StepsLandOnCuts(code, cuts, blocks, a, y);
      }
    } else {
      assert y in cuts;
    }
  }

  /** The block an instruction lies in. */
  lemma BlockOf(code: seq<Instr>, cuts: seq<nat>, blocks: seq<Block>, x: nat) returns (b: nat)
    requires Resolved(code, cuts, blocks) && x < |code|
    ensures b < |blocks| && cuts[b] <= x < cuts[b + 1] <= |code|
  {
    b := 0;
    while cuts[b + 1] <= x
      invariant b < |blocks| && cuts[b] <= x
      decreases |blocks| - b
    {
      b := b + 1;
    }
    BlockSpan(code, cuts, blocks, b);
  }

  /** Block-level reachability is instruction-level reachability, with the guard edges and without. */
  lemma ReachabilityAgrees(code: seq<Instr>, cuts: seq<nat>, blocks: seq<Block>, byStart: map<nat, nat>,
                           guards: bool, b: nat, x: nat)
    requires Resolved(code, cuts, blocks) && IndexesStarts(blocks, byStart) && EdgesInside(blocks, byStart)
    requires b < |blocks| && cuts[b] <= x < cuts[b + 1]
    ensures Reaches(FlowGraph(blocks, byStart, guards), 0, b) <==> Visits(code, guards, x)
  {
    var g := FlowGraph(blocks, byStart, guards);
    BlockSpan(code, cuts, blocks, b);
    if Reaches(g, 0, b) {
      var p :| PathBetween(g, 0, p, b);
      ReachedBlockIsVisited(code, cuts, blocks, byStart, guards, p, b);
      FallsThrough(code, cuts, blocks, guards, b, x);
    }
    if Visits(code, guards, x) {
      var p :| Route(code, guards, p) && p[|p| - 1] == x;
      VisitedBlockIsReached(code, cuts, blocks, byStart, guards, p, b);
    }
  }

  /** Instruction `ins` is in some block of the graph. */
  ghost predicate Survives(ir: seq<Block>, ins: Instr) {
    exists b :: 0 <= b < |ir| && ins in ir[b].instrs
  }

  /** The pruned graph holds exactly the instructions that are not reached through guards alone. */
  lemma ExactlyTheGuardOnlyCodeIsDropped(code: seq<Instr>, cuts: seq<nat>, blocks: seq<Block>, byStart: map<nat, nat>,
                                         after: seq<Block>, origin: seq<nat>, i: nat)
    requires Resolved(code, cuts, blocks) && IndexesStarts(blocks, byStart) && EdgesInside(blocks, byStart)
    requires Renumbers(blocks, after, origin) && i < |code|
    requires forall b: nat :: b in origin <==> b < |blocks| && !Stranded(blocks, byStart, b)
    ensures Survives(after, code[i]) <==> !GuardOnly(code, i)
  {
    var b := BlockOf(code, cuts, blocks, i);
    ReachabilityAgrees(code, cuts, blocks, byStart, true, b, i);
    ReachabilityAgrees(code, cuts, blocks, byStart, false, b, i);
    assert Stranded(blocks, byStart, b) == GuardOnly(code, i);
    assert IsSlice(code, cuts, blocks, b);
    assert code[i] == blocks[b].instrs[i - cuts[b]];
    if !GuardOnly(code, i) {
      var k :| 0 <= k < |origin| && origin[k] == b;
      assert Carries(blocks, after, origin, k);
    }
    if Survives(after, code[i]) {
      var k :| 0 <= k < |after| && code[i] in after[k].instrs;
      assert Carries(blocks, after, origin, k);
      InstructionNamesItsBlock(code, cuts, blocks, i, b, origin[k]);
    }
  }

  lemma InstructionNamesItsBlock(code: seq<Instr>, cuts: seq<nat>, blocks: seq<Block>, i: nat, b: nat, c: nat)
    requires Resolved(code, cuts, blocks) && i < |code| && b < |blocks| && c < |blocks|
    requires cuts[b] <= i < cuts[b + 1] && code[i] in blocks[c].instrs
    ensures b == c
  {
    assert IsSlice(code, cuts, blocks, c);
    var k :| 0 <= k < |blocks[c].instrs| && blocks[c].instrs[k] == code[i];
    assert blocks[c].instrs[k] == code[cuts[c] + k];
    assert cuts[c] + k == i;
  }
}
