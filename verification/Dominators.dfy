/** Path-based dominance, the round-robin iteration that computes it, and natural loop headers. */
module Dominators {
  import opened Collections
  import opened Graphs

  /** Every path from block 0 to `b` goes through `d`. */
  ghost predicate Dominates(g: Graph, d: nat, b: nat) {
    forall p :: PathBetween(g, 0, p, b) ==> d in p
  }

  /** `t` is the target of an edge whose source it dominates. */
  ghost predicate IsLoopHeader(g: Graph, t: nat) {
    exists b :: Reaches(g, 0, b) && Edge(g, b, t) && Dominates(g, t, b)
  }

  ghost predicate IsReachSet(g: Graph, start: nat, s: set<nat>) {
    forall v: nat :: v in s <==> Reaches(g, start, v)
  }

  // ---- The two reachability walks --------------------------------------------------------------

  lemma EdgeTargetsAreNodes(g: Graph, u: nat, v: nat)
    requires Edge(g, u, v)
    ensures v in Nodes(g)
  {
  }

  lemma StrictSubsetIsSmaller(a: set<nat>, b: set<nat>)
    requires a < b
    ensures |a| < |b|
  {
    assert b == a + (b - a) && |b| == |a| + |b - a|;
    assert b - a != {};
  }

  /** Nothing more is to be found behind `u`. */
  ghost predicate Expanded(g: Graph, seen: set<nat>, u: nat) {
    forall v :: Edge(g, u, v) ==> v in seen
  }

  /** A walk in progress: what is seen is reached, and is expanded, on the stack or being worked on. */
  ghost predicate Walking(g: Graph, start: nat, seen: set<nat>, stack: seq<nat>, busy: set<nat>) {
    && start in seen && (forall v :: v in stack ==> v in seen)
    && (forall v :: v in seen ==> Reaches(g, start, v))
    && (forall u {:trigger Expanded(g, seen, u)} :: u in seen && u !in stack && u !in busy ==> Expanded(g, seen, u))
  }

  lemma WalkingPops(g: Graph, start: nat, seen: set<nat>, stack: seq<nat>)
    requires stack != [] && Walking(g, start, seen, stack, {})
    ensures Walking(g, start, seen, stack[..|stack| - 1], {stack[|stack| - 1]})
  {
    assert stack == stack[..|stack| - 1] + [stack[|stack| - 1]];
  }

  lemma WalkingSees(g: Graph, start: nat, seen: set<nat>, stack: seq<nat>, busy: set<nat>, u: nat, v: nat)
    requires Walking(g, start, seen, stack, busy) && u in seen && Edge(g, u, v)
    ensures Walking(g, start, seen + {v}, stack + [v], busy)
  {
    ReachesStep(g, start, u, v);
    forall w | w in seen + {v} && w !in stack + [v] && w !in busy ensures Expanded(g, seen + {v}, w) {
      assert w in seen && w !in stack;
      assert Expanded(g, seen, w);
    }
  }

  lemma WalkingSettles(g: Graph, start: nat, seen: set<nat>, stack: seq<nat>, block: nat)
    requires Walking(g, start, seen, stack, {block}) && Expanded(g, seen, block)
    ensures Walking(g, start, seen, stack, {})
  {
  }

  lemma WalkingEnds(g: Graph, start: nat, seen: set<nat>)
    requires Walking(g, start, seen, [], {})
    ensures IsReachSet(g, start, seen)
  {
    forall u, v | u in seen && Edge(g, u, v) ensures v in seen {
      assert Expanded(g, seen, u);
    }
    ClosedHoldsReachable(g, seen, start);
  }

  /** `block` is being worked on and its first `k` targets are seen; `rest` and `before` were there when it came. */
  ghost predicate WalkingAt(g: Graph, start: nat, seen: set<nat>, stack: seq<nat>, block: nat, k: nat, rest: seq<nat>,
                            before: set<nat>) {
    && k <= |Succs(g, block)| && Walking(g, start, seen, stack, {block}) && block in seen
    && before <= seen <= Nodes(g) + {start} && (seen == before ==> stack == rest)
    && forall j :: 0 <= j < k ==> Succs(g, block)[j] in seen
  }

  lemma WalkingAtSees(g: Graph, start: nat, seen: set<nat>, stack: seq<nat>, block: nat, k: nat, rest: seq<nat>,
                      before: set<nat>)
    requires WalkingAt(g, start, seen, stack, block, k, rest, before) && k < |Succs(g, block)|
    ensures var v := Succs(g, block)[k];
            if v in seen then WalkingAt(g, start, seen, stack, block, k + 1, rest, before)
            else WalkingAt(g, start, seen + {v}, stack + [v], block, k + 1, rest, before)
  {
    var v := Succs(g, block)[k];
    assert Edge(g, block, v);
    EdgeTargetsAreNodes(g, block, v);
    if v !in seen {
      WalkingSees(g, start, seen, stack, {block}, block, v);
    }
  }

  /** Everything `start` reaches, `start` included. */
  method ReachableFrom(g: Graph, start: nat) returns (seen: set<nat>)
    ensures IsReachSet(g, start, seen)
  {
    seen := {start};
    var stack: seq<nat> := [start];
    ReachesSelf(g, start);
    while stack != []
      invariant Walking(g, start, seen, stack, {}) && seen <= Nodes(g) + {start}
      decreases Nodes(g) + {start} - seen, |stack|
    {
      WalkingPops(g, start, seen, stack);
      var block := stack[|stack| - 1];
      stack := stack[..|stack| - 1];
      ghost var rest, before := stack, seen;
      var targets := Succs(g, block);
      for k := 0 to |targets|
        invariant WalkingAt(g, start, seen, stack, block, k, rest, before)
      {
        WalkingAtSees(g, start, seen, stack, block, k, rest, before);
        if targets[k] !in seen {
          seen := seen + {targets[k]};
          stack := stack + [targets[k]];
        }
      }
      WalkingSettles(g, start, seen, stack, block);
    }
    WalkingEnds(g, start, seen);
  }

  /** What can be reached from `start` in one step or more. */
  ghost predicate ReachesAfter(g: Graph, start: nat, v: nat) {
    exists u :: Reaches(g, start, u) && Edge(g, u, v)
  }

  ghost predicate AllReachedAfter(g: Graph, start: nat, seen: set<nat>) {
    forall v :: v in seen ==> ReachesAfter(g, start, v)
  }

  lemma OneMoreReachedAfter(g: Graph, start: nat, seen: set<nat>, u: nat, v: nat)
    requires AllReachedAfter(g, start, seen) && Reaches(g, start, u) && Edge(g, u, v)
    ensures AllReachedAfter(g, start, seen + {v}) && Reaches(g, start, v)
  {
    ReachesStep(g, start, u, v);
  }

  /** Whatever is seen, and the start, is expanded or waits on the stack. */
  ghost predicate Pending(g: Graph, start: nat, seen: set<nat>, stack: seq<nat>) {
    forall u :: u in seen + {start} && u !in stack ==> Expanded(g, seen, u)
  }

  /** What the walk keeps. */
  ghost predicate WalkingAfter(g: Graph, start: nat, seen: set<nat>, stack: seq<nat>) {
    && seen <= Nodes(g) && AllReachedAfter(g, start, seen) && Pending(g, start, seen, stack)
    && forall v :: v in stack ==> Reaches(g, start, v)
  }

  /** `block` is off the stack, and its first `k` targets are seen. */
  ghost predicate ExpandingAt(g: Graph, start: nat, block: nat, seen: set<nat>, stack: seq<nat>, k: nat) {
    && k <= |Succs(g, block)| && seen <= Nodes(g) && AllReachedAfter(g, start, seen)
    && Reaches(g, start, block) && (forall v :: v in stack ==> Reaches(g, start, v))
    && (forall j :: 0 <= j < k ==> Succs(g, block)[j] in seen)
    && (forall u :: u in seen + {start} && u !in stack && u != block ==> Expanded(g, seen, u))
  }

  lemma ExpandingStarts(g: Graph, start: nat, block: nat, seen: set<nat>, stack: seq<nat>)
    requires WalkingAfter(g, start, seen, stack + [block])
    ensures ExpandingAt(g, start, block, seen, stack, 0)
  {
    assert block in stack + [block] && forall v :: v in stack ==> v in stack + [block];
  }

  lemma ExpandingSees(g: Graph, start: nat, block: nat, seen: set<nat>, stack: seq<nat>, k: nat)
    requires ExpandingAt(g, start, block, seen, stack, k) && k < |Succs(g, block)|
    ensures var v := Succs(g, block)[k];
            if v in seen then ExpandingAt(g, start, block, seen, stack, k + 1)
            else ExpandingAt(g, start, block, seen + {v}, stack + [v], k + 1)
  {
    var v := Succs(g, block)[k];
    assert Edge(g, block, v);
    if v !in seen {
      OneMoreReachedAfter(g, start, seen, block, v);
      EdgeTargetsAreNodes(g, block, v);
      forall u | u in seen + {v} + {start} && u !in stack + [v] && u != block ensures Expanded(g, seen + {v}, u) {
        assert (stack + [v])[|stack|] == v;
        assert Expanded(g, seen, u);
      }
    }
  }

  lemma ExpandingEnds(g: Graph, start: nat, block: nat, seen: set<nat>, stack: seq<nat>)
    requires ExpandingAt(g, start, block, seen, stack, |Succs(g, block)|)
    ensures WalkingAfter(g, start, seen, stack)
  {
    assert Expanded(g, seen, block);
  }

  /** One node taken off the stack and expanded. */
  method Expand(g: Graph, start: nat, block: nat, seen: set<nat>, stack: seq<nat>)
    returns (seen': set<nat>, stack': seq<nat>)
    requires WalkingAfter(g, start, seen, stack + [block])
    ensures WalkingAfter(g, start, seen', stack') && seen <= seen' && (seen' == seen ==> stack' == stack)
  {
    seen', stack' := seen, stack;
    var targets := Succs(g, block);
    ExpandingStarts(g, start, block, seen, stack);
    for k := 0 to |targets|
      invariant ExpandingAt(g, start, block, seen', stack', k)
      invariant seen <= seen' && (seen' == seen ==> stack' == stack)
    {
      ExpandingSees(g, start, block, seen', stack', k);
      if targets[k] !in seen' {
        seen' := seen' + {targets[k]};
        stack' := stack' + [targets[k]];
      }
    }
    ExpandingEnds(g, start, block, seen', stack');
  }

  /** The other walk: it does not count `start` as seen until an edge leads back to it. */
  method ReachableAfter(g: Graph, start: nat) returns (seen: set<nat>)
    ensures forall v: nat :: v in seen <==> ReachesAfter(g, start, v)
  {
    seen := {};
    var stack: seq<nat> := [start];
    ReachesSelf(g, start);
    while stack != []
      invariant WalkingAfter(g, start, seen, stack)
      decreases Nodes(g) - seen, |stack|
    {
      var block, rest := stack[|stack| - 1], stack[..|stack| - 1];
      assert stack == rest + [block];
      seen, stack := Expand(g, start, block, seen, rest);
    }
    WalkIsOver(g, start, seen);
  }

  lemma WalkIsOver(g: Graph, start: nat, seen: set<nat>)
    requires AllReachedAfter(g, start, seen) && Pending(g, start, seen, [])
    ensures forall v: nat :: v in seen <==> ReachesAfter(g, start, v)
  {
    forall u, v | u in seen + {start} && Edge(g, u, v) ensures v in seen + {start} {
      assert Expanded(g, seen, u);
    }
    ClosedHoldsReachable(g, seen + {start}, start);
    forall v: nat | ReachesAfter(g, start, v) ensures v in seen {
      var u :| Reaches(g, start, u) && Edge(g, u, v);
      assert Expanded(g, seen, u);
    }
  }

  lemma OneMoreEdge(preds: Graph, target: nat, block: nat, t: nat, b: nat)
    ensures Edge(preds[target := Succs(preds, target) + [block]], t, b) <==>
            Edge(preds, t, b) || (t == target && b == block)
  {
  }

  /** Predecessor lists of the whole graph, in whatever order its keys come. */
  method CollectPreds(g: Graph) returns (preds: Graph)
    ensures forall b: nat, t: nat :: Edge(preds, t, b) <==> Edge(g, b, t)
  {
    preds := map[];
    var todo := g.Keys;
    while todo != {}
      invariant todo <= g.Keys
      invariant forall b: nat, t: nat :: Edge(preds, t, b) <==> b !in todo && Edge(g, b, t)
    {
      var block :| block in todo;
      todo := todo - {block};
      var targets := g[block];
      ghost var before := preds;
      for k := 0 to |targets|
        invariant forall b: nat, t: nat :: Edge(preds, t, b) <==>
                  Edge(before, t, b) || (b == block && t in targets[..k])
      {
        assert targets[..k + 1] == targets[..k] + [targets[k]];
        var next := preds[targets[k] := Succs(preds, targets[k]) + [block]];
        forall b: nat, t: nat
          ensures Edge(next, t, b) <==> Edge(before, t, b) || (b == block && t in targets[..k + 1])
        {
          OneMoreEdge(preds, targets[k], block, t, b);
        }
        preds := next;
      }
      assert targets[..|targets|] == targets;
    }
  }

  // ---- The iteration ---------------------------------------------------------------------------

  type DomSets = map<nat, set<nat>>

  /** `d` is in what the transfer step gives block `b`: `b` itself, and what its live predecessors share. */
  ghost predicate InTransfer(g: Graph, live: set<nat>, dom: DomSets, b: nat, d: nat)
    requires live <= dom.Keys
  {
    d == b || ((exists p :: p in live && Edge(g, p, b)) && forall p :: p in live && Edge(g, p, b) ==> d in dom[p])
  }

  method Transfer(g: Graph, preds: Graph, live: set<nat>, dom: DomSets, block: nat) returns (r: set<nat>)
    requires live <= dom.Keys
    requires forall b: nat, t: nat :: Edge(preds, t, b) <==> Edge(g, b, t)
    ensures forall d: nat :: d in r <==> InTransfer(g, live, dom, block, d)
  {
    var meet: Option<set<nat>> := None;
    var incoming := Succs(preds, block);
    assert forall p :: p in incoming <==> Edge(g, p, block);
    for k := 0 to |incoming|
      invariant meet.None? <==> forall j :: 0 <= j < k ==> incoming[j] !in live
      invariant meet.Some? ==>
                  forall d: nat :: d in meet.value <==> forall j :: 0 <= j < k && incoming[j] in live ==>
                    d in dom[incoming[j]]
    {
      var pred := incoming[k];
      if pred in live {
        meet := Some(if meet.None? then dom[pred] else meet.value * dom[pred]);
      }
    }
    r := (if meet.Some? then meet.value else {}) + {block};
    forall d: nat ensures d in r <==> InTransfer(g, live, dom, block, d) {
      if meet.Some? {
        assert forall p :: p in live && Edge(g, p, block) <==> p in live && p in incoming;
      }
    }
  }

  /** What every step of the iteration keeps. */
  ghost predicate Sound(g: Graph, live: set<nat>, dom: DomSets) {
    && dom.Keys == live && 0 in live && dom[0] == {0}
    && (forall b :: b in live ==> dom[b] <= live)
    && (forall b, d :: b in live && Dominates(g, d, b) ==> d in dom[b])
    && (forall b, d :: b in live && b != 0 && InTransfer(g, live, dom, b, d) ==> d in dom[b])
  }

  /** Block `b`'s set is what the transfer step gives it. */
  ghost predicate Stable(g: Graph, live: set<nat>, dom: DomSets, b: nat)
    requires live <= dom.Keys && b in dom
  {
    forall d: nat :: d in dom[b] ==> InTransfer(g, live, dom, b, d)
  }

  lemma StartIsSound(g: Graph, live: set<nat>, dom: DomSets)
    requires IsReachSet(g, 0, live) && dom.Keys == live
    requires forall b :: b in live ==> dom[b] == if b == 0 then {0} else live
    ensures Sound(g, live, dom)
  {
    ReachesSelf(g, 0);
    forall b, d | b in live && Dominates(g, d, b) ensures d in dom[b] {
      DominatorsAreLive(g, live, d, b);
      if b == 0 {
        assert PathBetween(g, 0, [0], 0);
        assert d in [0];
      }
    }
    forall b, d | b in live && b != 0 && InTransfer(g, live, dom, b, d) ensures d in dom[b] {
      if d != b {
        var p :| p in live && Edge(g, p, b);
        assert d in dom[p];
      }
    }
  }

  lemma DominatorsAreLive(g: Graph, live: set<nat>, d: nat, b: nat)
    requires IsReachSet(g, 0, live) && b in live && Dominates(g, d, b)
    ensures d in live
  {
    var p :| PathBetween(g, 0, p, b);
    var i :| 0 <= i < |p| && p[i] == d;
    EveryNodeOfAPathIsReached(g, 0, p, b, i);
  }

  /** A dominator of `b` other than `b` dominates every live predecessor of `b`. */
  lemma DominatorsPassTheTransfer(g: Graph, live: set<nat>, dom: DomSets, b: nat, d: nat)
    requires IsReachSet(g, 0, live) && Sound(g, live, dom)
    requires b in live && b != 0 && Dominates(g, d, b)
    ensures InTransfer(g, live, dom, b, d)
  {
    if d != b {
      var q :| PathBetween(g, 0, q, b);
      PathShrinks(g, 0, q, b);
      EveryNodeOfAPathIsReached(g, 0, q, b, |q| - 2);
      forall p | p in live && Edge(g, p, b) ensures d in dom[p] {
        forall r | PathBetween(g, 0, r, p) ensures d in r {
          PathExtends(g, 0, r, p, b);
          assert d in r + [b];
        }
      }
    }
  }

  /** One update keeps the invariant, and only ever removes members. */
  lemma UpdateIsSound(g: Graph, live: set<nat>, dom: DomSets, b: nat, r: set<nat>)
    requires IsReachSet(g, 0, live) && Sound(g, live, dom) && b in live && b != 0
    requires forall d: nat :: d in r <==> InTransfer(g, live, dom, b, d)
    ensures r <= dom[b] && Sound(g, live, dom[b := r])
  {
    var dom' := dom[b := r];
    forall c, d | c in live && Dominates(g, d, c) ensures d in dom'[c] {
      if c == b { DominatorsPassTheTransfer(g, live, dom, b, d); }
    }
    forall c, d | c in live && c != 0 && InTransfer(g, live, dom', c, d) ensures d in dom'[c] {
      assert forall p :: p in live && d in dom'[p] ==> d in dom[p];
      assert InTransfer(g, live, dom, c, d);
    }
  }

  function Total(dom: DomSets, order: seq<nat>): (n: nat) {
    if order == [] then 0
    else (if order[0] in dom then |dom[order[0]]| else 0) + Total(dom, order[1..])
  }

  lemma {:induction false} ShrinkingLowersTheTotal(dom: DomSets, order: seq<nat>, b: nat, r: set<nat>)
    requires b in dom && r < dom[b]
    ensures Total(dom[b := r], order) <= Total(dom, order)
    ensures b in order ==> Total(dom[b := r], order) < Total(dom, order)
    decreases |order|
  {
    StrictSubsetIsSmaller(r, dom[b]);
    if order != [] {
      ShrinkingLowersTheTotal(dom, order[1..], b, r);
      assert b in order <==> b == order[0] || b in order[1..];
    }
  }

  /** At a fixpoint, what a block's set holds lies on every path to it. */
  lemma {:induction false} FixpointHoldsOnlyDominators(g: Graph, live: set<nat>, dom: DomSets, order: seq<nat>,
                                                       p: seq<nat>, b: nat, d: nat)
    requires IsReachSet(g, 0, live) && Sound(g, live, dom)
    requires forall c :: c in live && c in g ==> c in order
    requires forall c :: c in order && c in live && c != 0 ==> Stable(g, live, dom, c)
    requires b in live && (b == 0 || b in order) && PathBetween(g, 0, p, b) && d in dom[b]
    ensures d in p
    decreases |p|
  {
    if b == 0 || d == b {
      assert p[|p| - 1] in p;
    } else {
      PathShrinks(g, 0, p, b);
      var c := p[|p| - 2];
      EveryNodeOfAPathIsReached(g, 0, p, b, |p| - 2);
      assert InTransfer(g, live, dom, b, d);
      FixpointHoldsOnlyDominators(g, live, dom, order, p[..|p| - 1], c, d);
    }
  }

  /** Where a pass over `order` stands after its first `k` blocks. */
  ghost predicate Passing(g: Graph, live: set<nat>, order: seq<nat>, start: DomSets, dom: DomSets, changed: bool,
                          k: nat) {
    && k <= |order| && Sound(g, live, dom)
    && if changed then Total(dom, order) < Total(start, order)
       else dom == start && AllStable(g, live, dom, order[..k])
  }

  ghost predicate AllStable(g: Graph, live: set<nat>, dom: DomSets, blocks: seq<nat>)
    requires dom.Keys == live
  {
    forall c :: c in blocks && c in live && c != 0 ==> Stable(g, live, dom, c)
  }

  lemma PassingOn(g: Graph, live: set<nat>, order: seq<nat>, start: DomSets, dom: DomSets, changed: bool, k: nat)
    requires Passing(g, live, order, start, dom, changed, k) && k < |order|
    requires order[k] in live && order[k] != 0 && !changed ==> Stable(g, live, dom, order[k])
    ensures Passing(g, live, order, start, dom, changed, k + 1)
  {
    assert order[..k + 1] == order[..k] + [order[k]];
  }

  lemma PassingChanges(g: Graph, live: set<nat>, order: seq<nat>, start: DomSets, dom: DomSets, changed: bool, k: nat,
                       r: set<nat>)
    requires Passing(g, live, order, start, dom, changed, k) && k < |order|
    requires order[k] in dom && r < dom[order[k]] && Sound(g, live, dom[order[k] := r])
    ensures Passing(g, live, order, start, dom[order[k] := r], true, k + 1)
  {
    ShrinkingLowersTheTotal(dom, order, order[k], r);
  }

  /** One pass over `order`, updating the sets as it goes and skipping block 0 and dead blocks. */
  method Pass(g: Graph, preds: Graph, live: set<nat>, order: seq<nat>, start: DomSets)
    returns (dom: DomSets, changed: bool)
    requires IsReachSet(g, 0, live) && Sound(g, live, start)
    requires forall b: nat, t: nat :: Edge(preds, t, b) <==> Edge(g, b, t)
    ensures Sound(g, live, dom)
    ensures changed ==> Total(dom, order) < Total(start, order)
    ensures !changed ==> dom == start && forall c :: c in order && c in live && c != 0 ==> Stable(g, live, dom, c)
  {
    dom, changed := start, false;
    for k := 0 to |order|
      invariant Passing(g, live, order, start, dom, changed, k)
    {
      var block := order[k];
      if block == 0 || block !in live {
        PassingOn(g, live, order, start, dom, changed, k);
        continue;
      }
      var r := Transfer(g, preds, live, dom, block);
      UpdateIsSound(g, live, dom, block, r);
      if r != dom[block] {
        PassingChanges(g, live, order, start, dom, changed, k, r);
        dom := dom[block := r];
        changed := true;
      } else {
        PassingOn(g, live, order, start, dom, changed, k);
      }
    }
    assert order[..|order|] == order;
  }

  /**
    * The round-robin iteration. It visits `order` over and over and stops when a pass changes
    * nothing; every pass that does change something lowers the total size of the sets.
    */
  method IterateDominators(g: Graph, preds: Graph, live: set<nat>, order: seq<nat>) returns (dom: DomSets)
    requires IsReachSet(g, 0, live)
    requires forall b: nat, t: nat :: Edge(preds, t, b) <==> Edge(g, b, t)
    requires forall c :: c in live && c in g ==> c in order
    ensures dom.Keys == live
    ensures forall b, d: nat :: b in live && (b == 0 || b in order) ==> (d in dom[b] <==> Dominates(g, d, b))
  {
    dom := map b | b in live :: if b == 0 then {0} else live;
    StartIsSound(g, live, dom);
    var changed := true;
    while changed
      invariant Sound(g, live, dom)
      invariant !changed ==> forall c :: c in order && c in live && c != 0 ==> Stable(g, live, dom, c)
      decreases Total(dom, order), if changed then 1 else 0
    {
      dom, changed := Pass(g, preds, live, order, dom);
    }
    forall b, d: nat | b in live && (b == 0 || b in order) && d in dom[b] ensures Dominates(g, d, b) {
      forall p | PathBetween(g, 0, p, b) ensures d in p {
        FixpointHoldsOnlyDominators(g, live, dom, order, p, b, d);
      }
    }
  }

  method CollectHeaders(g: Graph, live: set<nat>, dom: DomSets) returns (headers: set<nat>)
    requires IsReachSet(g, 0, live) && dom.Keys == live
    requires forall b, d: nat :: b in live && b in g ==> (d in dom[b] <==> Dominates(g, d, b))
    ensures forall t: nat :: t in headers <==> IsLoopHeader(g, t)
  {
    headers := {};
    var todo := live;
    while todo != {}
      invariant todo <= live
      invariant forall t: nat :: t in headers <==>
                  exists b :: b in live && b !in todo && Edge(g, b, t) && Dominates(g, t, b)
    {
      var block :| block in todo;
      todo := todo - {block};
      var targets := Succs(g, block);
      ghost var before := headers;
      for k := 0 to |targets|
        invariant forall t: nat :: t in headers <==> t in before || (t in targets[..k] && Dominates(g, t, block))
      {
        assert targets[..k + 1] == targets[..k] + [targets[k]];
        assert Edge(g, block, targets[k]);
        ReachesStep(g, 0, block, targets[k]);
        if targets[k] in live && targets[k] in dom[block] {
          headers := headers + {targets[k]};
        }
      }
      assert targets[..|targets|] == targets;
    }
  }

  /** The reconciler's version: the caller supplies what is reachable, or nothing at all. */
  method NaturalLoopHeadersOf(g: Graph, reachable: set<nat>) returns (headers: set<nat>)
    requires reachable == {} || IsReachSet(g, 0, reachable)
    ensures reachable == {} ==> headers == {}
    ensures reachable != {} ==> forall t: nat :: t in headers <==> IsLoopHeader(g, t)
  {
    if reachable == {} {
      return {};
    }
    var preds := CollectPreds(g);
    var order := Sorted(reachable);
    var dom := IterateDominators(g, preds, reachable, order);
    headers := CollectHeaders(g, reachable, dom);
  }

  /** The provenance checker's version: it walks the graph itself and visits the graph's own keys. */
  method NaturalLoopHeaders(g: Graph) returns (headers: set<nat>)
    ensures forall t: nat :: t in headers <==> IsLoopHeader(g, t)
  {
    var nodes := Sorted(g.Keys);
    var preds := CollectPreds(g);
    var after := ReachableAfter(g, 0);
    var live := after + {0};
    LiveIsReachable(g, after);
    var dom := IterateDominators(g, preds, live, nodes);
    headers := CollectHeaders(g, live, dom);
  }

  lemma LiveIsReachable(g: Graph, after: set<nat>)
    requires forall v: nat :: v in after <==> ReachesAfter(g, 0, v)
    ensures IsReachSet(g, 0, after + {0})
  {
    ReachesSelf(g, 0);
    forall v: nat ensures v in after + {0} <==> Reaches(g, 0, v) {
      if v in after {
        var u :| Reaches(g, 0, u) && Edge(g, u, v);
        ReachesStep(g, 0, u, v);
      }
      if Reaches(g, 0, v) && v != 0 {
        var p :| PathBetween(g, 0, p, v);
        PathShrinks(g, 0, p, v);
        EveryNodeOfAPathIsReached(g, 0, p, v, |p| - 2);
      }
    }
  }
}
