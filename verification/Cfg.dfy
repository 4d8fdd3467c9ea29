/** Successors, and reachability with and without the guards' taken edges. */
module Cfg {
  import opened Collections
  import opened Graphs
  import opened Lift
  import opened Blocks

  // ---- Successors ------------------------------------------------------------------------------

  /** Start addresses are pairwise different, so each names one block. */
  ghost predicate DistinctStarts(blocks: seq<Block>) {
    forall a, b :: 0 <= a < b < |blocks| ==> blocks[a].startVa != blocks[b].startVa
  }

  /** `byStart` takes a start address to the block that opens there. */
  ghost predicate IndexesStarts(blocks: seq<Block>, byStart: map<nat, nat>) {
    && (forall b :: 0 <= b < |blocks| ==> blocks[b].startVa in byStart && byStart[blocks[b].startVa] == b)
    && (forall t :: t in byStart ==> byStart[t] < |blocks| && blocks[byStart[t]].startVa == t)
  }

  function LastOf(b: Block): Instr
    requires |b.instrs| > 0
  {
    b.instrs[|b.instrs| - 1]
  }

  /** Control can pass from the end of block `i` to the start of block `j`. */
  ghost predicate Follows(blocks: seq<Block>, i: nat, j: nat)
    requires Numbered(blocks) && i < |blocks| && j < |blocks|
  {
    var last := LastOf(blocks[i]);
    match last.op
    case Branch => last.target == Some(blocks[j].startVa) || j == i + 1
    case Jump => last.target == Some(blocks[j].startVa)
    case Return => false
    case _ => j == i + 1
  }

  /** The raw successors of block `i`, read off its last instruction. */
  method SuccessorsOf(blocks: seq<Block>, byStart: map<nat, nat>, i: nat) returns (succs: seq<nat>)
    requires Numbered(blocks) && IndexesStarts(blocks, byStart) && i < |blocks|
    ensures forall j :: j in succs ==> j < |blocks|
    ensures forall j :: 0 <= j < |blocks| ==> (j in succs <==> Follows(blocks, i, j))
  {
    var last := LastOf(blocks[i]);
    succs := [];
    match last.op {
      case Branch =>
        if last.target.Some? && last.target.value in byStart {
          succs := succs + [byStart[last.target.value]];
        }
        if i + 1 < |blocks| {
          succs := succs + [blocks[i + 1].id];
        }
      case Jump =>
        if last.target.Some? && last.target.value in byStart {
          succs := succs + [byStart[last.target.value]];
        }
      case Return =>
      case _ =>
        if i + 1 < |blocks| {
          succs := succs + [blocks[i + 1].id];
        }
    }
  }

  /** Two block lists that differ at most in their edges. */
  ghost predicate SameBodies(a: seq<Block>, b: seq<Block>) {
    |a| == |b| && forall i :: 0 <= i < |a| ==>
      a[i].id == b[i].id && a[i].startVa == b[i].startVa && a[i].instrs == b[i].instrs
  }

  method IndexStarts(blocks: seq<Block>) returns (byStart: map<nat, nat>)
    requires Numbered(blocks) && DistinctStarts(blocks)
    ensures IndexesStarts(blocks, byStart)
  {
    byStart := map[];
    for i := 0 to |blocks|
      invariant forall b :: 0 <= b < i ==> blocks[b].startVa in byStart && byStart[blocks[b].startVa] == b
      invariant forall t :: t in byStart ==> byStart[t] < i && blocks[byStart[t]].startVa == t
    {
      byStart := byStart[blocks[i].startVa := blocks[i].id];
    }
  }

  method ResolveSuccessors(input: seq<Block>, byStart: map<nat, nat>) returns (blocks: seq<Block>)
    requires Numbered(input) && IndexesStarts(input, byStart)
    requires forall b :: 0 <= b < |input| ==> input[b].preds == []
    ensures SameBodies(input, blocks) && Numbered(blocks)
    ensures forall i :: 0 <= i < |blocks| ==> StrictlyAscending(blocks[i].succs) && blocks[i].preds == []
    ensures forall i, j :: 0 <= i < |blocks| && j in blocks[i].succs ==> j < |blocks|
    ensures forall i, j :: 0 <= i < |blocks| && 0 <= j < |blocks| ==> (j in blocks[i].succs <==> Follows(input, i, j))
  {
    blocks := input;
    for i := 0 to |blocks|
      invariant SameBodies(input, blocks)
      invariant forall k :: 0 <= k < |blocks| ==> blocks[k].preds == []
      invariant forall k :: 0 <= k < i ==> StrictlyAscending(blocks[k].succs)
      invariant forall k, j :: 0 <= k < i && j in blocks[k].succs ==> j < |blocks|
      invariant forall k, j :: 0 <= k < i && 0 <= j < |blocks| ==> (j in blocks[k].succs <==> Follows(input, k, j))
    {
      var succs := SuccessorsOf(input, byStart, i);
      succs := SortDedup(succs);
      blocks := blocks[i := blocks[i].(succs := succs)];
    }
  }

  // ---- Reachability, with and without the guard edges ------------------------------------------

  /** The blocks a list of instructions could reach through its guards' taken edges. */
  function GuardTargets(byStart: map<nat, nat>, instrs: seq<Instr>): (r: seq<nat>)
    ensures forall t :: t in r <==> exists k :: 0 <= k < |instrs| && IsGuardEdge(byStart, instrs[k], t)
  {
    if instrs == [] then []
    else
      var last := instrs[|instrs| - 1];
      var before := GuardTargets(byStart, instrs[..|instrs| - 1]);
      assert instrs == instrs[..|instrs| - 1] + [last];
      if last.op.RuntimeCheck? && last.target.Some? && last.target.value in byStart
      then before + [byStart[last.target.value]]
      else before
  }

  predicate IsGuardEdge(byStart: map<nat, nat>, ins: Instr, t: nat) {
    ins.op.RuntimeCheck? && ins.target.Some? && ins.target.value in byStart && byStart[ins.target.value] == t
  }

  /** The successors a reachability pass follows out of one block. */
  function FlowTargets(b: Block, byStart: map<nat, nat>, guards: bool): seq<nat> {
    b.succs + if guards then GuardTargets(byStart, b.instrs) else []
  }

  /** The graph a reachability pass walks. */
  function FlowGraph(blocks: seq<Block>, byStart: map<nat, nat>, guards: bool): Graph {
    map b: nat | b < |blocks| :: FlowTargets(blocks[b], byStart, guards)
  }

  /** Every edge the passes follow stays inside the block list. */
  ghost predicate EdgesInside(blocks: seq<Block>, byStart: map<nat, nat>) {
    && (forall t :: t in byStart ==> byStart[t] < |blocks|)
    && (forall i, j :: 0 <= i < |blocks| && j in blocks[i].succs ==> j < |blocks|)
  }

  /** `position(|b| b.id == s)`. */
  function PositionOf(blocks: seq<Block>, s: nat): (r: Option<nat>)
    requires Numbered(blocks)
    ensures r == if s < |blocks| then Some(s) else None
  {
    PositionFrom(blocks, s, 0)
  }

  function PositionFrom(blocks: seq<Block>, s: nat, k: nat): (r: Option<nat>)
    requires Numbered(blocks) && k <= |blocks|
    ensures r == if k <= s < |blocks| then Some(s) else None
    decreases |blocks| - k
  {
    if k == |blocks| then None
    else if blocks[k].id == s then Some(k)
    else PositionFrom(blocks, s, k + 1)
  }

  function CountFalse(seen: seq<bool>): (n: nat)
    ensures n <= |seen|
  {
    if seen == [] then 0 else (if seen[0] then 0 else 1) + CountFalse(seen[1..])
  }

  lemma {:induction false} MarkingLowersTheCount(seen: seq<bool>, i: nat)
    requires i < |seen| && !seen[i]
    ensures CountFalse(seen[i := true]) == CountFalse(seen) - 1
  {
    if i > 0 {
      MarkingLowersTheCount(seen[1..], i - 1);
      assert seen[i := true][1..] == seen[1..][i - 1 := true];
    } else {
      assert seen[0 := true][1..] == seen[1..];
    }
  }

  /** Every edge out of `u` leads to a marked block. */
  ghost predicate AllMarked(g: Graph, seen: seq<bool>, u: nat) {
    forall v: nat :: Edge(g, u, v) ==> v < |seen| && seen[v]
  }

  /**
    * The state of the depth-first walk: what is marked is reached, and is done with, on the stack or being worked
    * on.
    */
  ghost predicate Marking(g: Graph, seen: seq<bool>, stack: seq<nat>, busy: set<nat>) {
    && |seen| > 0 && seen[0]
    && (forall v :: v in stack ==> v < |seen| && seen[v])
    && (forall v: nat :: v < |seen| && seen[v] ==> Reaches(g, 0, v))
    && (forall u: nat {:trigger AllMarked(g, seen, u)} ::
          u < |seen| && seen[u] && u !in stack && u !in busy ==> AllMarked(g, seen, u))
  }

  lemma MarkingPops(g: Graph, seen: seq<bool>, stack: seq<nat>)
    requires stack != [] && Marking(g, seen, stack, {})
    ensures Marking(g, seen, stack[..|stack| - 1], {stack[|stack| - 1]})
    ensures stack[|stack| - 1] < |seen| && seen[stack[|stack| - 1]]
  {
    var rest, top := stack[..|stack| - 1], stack[|stack| - 1];
    assert stack == rest + [top] && top in stack;
    assert forall v :: v in rest ==> v in stack;
    forall u: nat | u < |seen| && seen[u] && u !in rest && u != top ensures AllMarked(g, seen, u) {
      assert u !in stack;
    }
  }

  lemma MarkingMarks(g: Graph, seen: seq<bool>, stack: seq<nat>, busy: set<nat>, u: nat, v: nat)
    requires Marking(g, seen, stack, busy) && u < |seen| && seen[u] && Edge(g, u, v) && v < |seen|
    ensures Marking(g, seen[v := true], stack + [v], busy)
  {
    ReachesStep(g, 0, u, v);
    forall w: nat | w < |seen| && seen[v := true][w] && w !in stack + [v] && w !in busy
      ensures AllMarked(g, seen[v := true], w) {
      assert (stack + [v])[|stack|] == v;
      assert seen[w] && w !in stack;
      assert AllMarked(g, seen, w);
    }
  }

  lemma MarkingSettles(g: Graph, seen: seq<bool>, stack: seq<nat>, block: nat)
    requires Marking(g, seen, stack, {block}) && AllMarked(g, seen, block)
    ensures Marking(g, seen, stack, {})
  {
  }

  lemma MarkingEnds(g: Graph, seen: seq<bool>)
    requires Marking(g, seen, [], {})
    ensures forall b :: 0 <= b < |seen| ==> (seen[b] <==> Reaches(g, 0, b))
  {
    var closed := set v: nat | v < |seen| && seen[v];
    forall u, v | u in closed && Edge(g, u, v) ensures v in closed {
      assert AllMarked(g, seen, u);
    }
    ClosedHoldsReachable(g, closed, 0);
  }

  lemma MarkingStarts(g: Graph, n: nat)
    requires n > 0
    ensures Marking(g, seq(n, i => false)[0 := true], [0], {})
  {
    ReachesSelf(g, 0);
  }

  /**
    * Block `i` is being worked on, and its first `k` targets are marked; `rest` and `before` were there when it
    * came.
    */
  ghost predicate Visiting(g: Graph, seen: seq<bool>, stack: seq<nat>, i: nat, targets: seq<nat>, k: nat,
                           rest: seq<nat>, before: nat) {
    && k <= |targets| && Marking(g, seen, stack, {i}) && i < |seen| && seen[i]
    && (forall j :: 0 <= j < k ==> targets[j] < |seen| && seen[targets[j]])
    && (CountFalse(seen) < before || (CountFalse(seen) == before && stack == rest))
  }

  lemma VisitMarks(g: Graph, seen: seq<bool>, stack: seq<nat>, i: nat, targets: seq<nat>, k: nat, rest: seq<nat>,
                   before: nat)
    requires Visiting(g, seen, stack, i, targets, k, rest, before) && k < |targets| && targets == Succs(g, i)
    requires targets[k] < |seen| && !seen[targets[k]]
    ensures Visiting(g, seen[targets[k] := true], stack + [targets[k]], i, targets, k + 1, rest, before)
  {
    assert Edge(g, i, targets[k]);
    MarkingMarks(g, seen, stack, {i}, i, targets[k]);
    MarkingLowersTheCount(seen, targets[k]);
  }

  lemma VisitEnds(g: Graph, seen: seq<bool>, stack: seq<nat>, i: nat, rest: seq<nat>, before: nat)
    requires Visiting(g, seen, stack, i, Succs(g, i), |Succs(g, i)|, rest, before)
    ensures Marking(g, seen, stack, {})
  {
    assert AllMarked(g, seen, i);
    MarkingSettles(g, seen, stack, i);
  }

  /** Every block a pass can reach, with or without the guards' taken edges. */
  method Reach(blocks: seq<Block>, byStart: map<nat, nat>, guards: bool) returns (seen: seq<bool>)
    requires Numbered(blocks) && EdgesInside(blocks, byStart)
    ensures |seen| == |blocks|
    ensures forall b :: 0 <= b < |blocks| ==> (seen[b] <==> Reaches(FlowGraph(blocks, byStart, guards), 0, b))
  {
    ghost var g := FlowGraph(blocks, byStart, guards);
    seen := seq(|blocks|, i => false);
    if |blocks| == 0 {
      return;
    }
    MarkingStarts(g, |blocks|);
    seen := seen[0 := true];
    var stack: seq<nat> := [0];
    while stack != []
      invariant |seen| == |blocks| && Marking(g, seen, stack, {})
      decreases CountFalse(seen), |stack|
    {
      MarkingPops(g, seen, stack);
      var i := stack[|stack| - 1];
      stack := stack[..|stack| - 1];
      ghost var rest, before := stack, CountFalse(seen);
      var targets := FlowTargets(blocks[i], byStart, guards);
      assert targets == Succs(g, i);
      for k := 0 to |targets|
        invariant |seen| == |blocks| && Visiting(g, seen, stack, i, targets, k, rest, before)
      {
        FlowEdgesStayInside(blocks, byStart, guards, i, k);
        var next := PositionOf(blocks, targets[k]);
        if next.Some? && !seen[next.value] {
          VisitMarks(g, seen, stack, i, targets, k, rest, before);
          seen := seen[next.value := true];
          stack := stack + [next.value];
        }
      }
      VisitEnds(g, seen, stack, i, rest, before);
    }
    MarkingEnds(g, seen);
  }

  lemma FlowEdgesStayInside(blocks: seq<Block>, byStart: map<nat, nat>, guards: bool, i: nat, k: nat)
    requires EdgesInside(blocks, byStart) && i < |blocks| && k < |FlowTargets(blocks[i], byStart, guards)|
    ensures var t := FlowTargets(blocks[i], byStart, guards)[k];
            t < |blocks| && Edge(FlowGraph(blocks, byStart, guards), i, t)
  {
    var t := FlowTargets(blocks[i], byStart, guards)[k];
    assert t in FlowTargets(blocks[i], byStart, guards);
    if t !in blocks[i].succs {
      assert t in GuardTargets(byStart, blocks[i].instrs);
    }
  }
}
