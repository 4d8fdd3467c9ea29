/** Dropping the stranded slow path, renumbering what is left, and rebuilding predecessors. */
module Pruning {
  import opened Collections
  import opened Graphs
  import opened Blocks
  import opened Cfg

  /** Block `b` was only reachable through a guard's taken edge. */
  ghost predicate Stranded(blocks: seq<Block>, byStart: map<nat, nat>, b: nat) {
    Reaches(FlowGraph(blocks, byStart, true), 0, b) && !Reaches(FlowGraph(blocks, byStart, false), 0, b)
  }

  /** Position `k` of `after` carries block `origin[k]` of `before`, its edges renumbered. */
  ghost predicate Carries(before: seq<Block>, after: seq<Block>, origin: seq<nat>, k: nat)
    requires |after| == |origin| && k < |after| && forall i :: 0 <= i < |origin| ==> origin[i] < |before|
  {
    && after[k].id == k
    && after[k].startVa == before[origin[k]].startVa
    && after[k].instrs == before[origin[k]].instrs
    && StrictlyAscending(after[k].succs)
    && forall j: nat :: j in after[k].succs <==> j < |origin| && origin[j] in before[origin[k]].succs
  }

  /** `after` is `before` restricted to `origin`, in order and renumbered. */
  ghost predicate Renumbers(before: seq<Block>, after: seq<Block>, origin: seq<nat>) {
    && StrictlyAscending(origin) && |after| == |origin|
    && (forall i :: 0 <= i < |origin| ==> origin[i] < |before|)
    && (forall k :: 0 <= k < |after| ==> Carries(before, after, origin, k))
  }

  /** `remap` takes each kept block to its new number. */
  ghost predicate IsRemap(origin: seq<nat>, remap: map<nat, nat>) {
    && (forall k :: 0 <= k < |origin| ==> origin[k] in remap && remap[origin[k]] == k)
    && (forall b :: b in remap ==> remap[b] < |origin| && origin[remap[b]] == b)
  }

  /** Ascending old numbers have ascending new ones. */
  lemma AppendAbove(succs: seq<nat>, i: nat, k: nat, r: seq<nat>, origin: seq<nat>)
    requires StrictlyAscending(succs) && StrictlyAscending(origin) && StrictlyAscending(r) && i < |succs|
    requires k < |origin| && origin[k] == succs[i]
    requires forall j: nat :: j in r <==> j < |origin| && origin[j] in succs[..i]
    ensures StrictlyAscending(r + [k])
    ensures forall j: nat :: j in r + [k] <==> j < |origin| && origin[j] in succs[..i] + [succs[i]]
  {
    forall m | 0 <= m < |r| ensures r[m] < k {
      assert r[m] in r;
      var x :| 0 <= x < i && succs[x] == origin[r[m]];
    }
  }

  /** `filter_map(|s| remap.get(s))`. */
  method RemapSuccessors(succs: seq<nat>, remap: map<nat, nat>, ghost origin: seq<nat>) returns (r: seq<nat>)
    requires StrictlyAscending(succs) && StrictlyAscending(origin) && IsRemap(origin, remap)
    ensures StrictlyAscending(r)
    ensures forall j: nat :: j in r <==> j < |origin| && origin[j] in succs
  {
    r := [];
    for i := 0 to |succs|
      invariant StrictlyAscending(r)
      invariant forall j: nat :: j in r <==> j < |origin| && origin[j] in succs[..i]
    {
      assert succs[..i + 1] == succs[..i] + [succs[i]];
      if succs[i] in remap {
        AppendAbove(succs, i, remap[succs[i]], r, origin);
        r := r + [remap[succs[i]]];
      }
    }
    assert succs[..|succs|] == succs;
  }

  /** The blocks below `n` that are not dropped, under their old numbers. */
  ghost predicate Keeping(blocks: seq<Block>, dropped: seq<bool>, n: nat, kept: seq<Block>, remap: map<nat, nat>,
                          origin: seq<nat>) {
    && n <= |blocks| == |dropped| && |kept| == |origin| && StrictlyAscending(origin) && IsRemap(origin, remap)
    && (forall b: nat :: b in origin <==> b < n && !dropped[b])
    && (forall k :: 0 <= k < |origin| ==> origin[k] < n && kept[k] == blocks[origin[k]])
  }

  lemma KeepingOne(blocks: seq<Block>, dropped: seq<bool>, n: nat, kept: seq<Block>, remap: map<nat, nat>,
                   origin: seq<nat>)
    requires Keeping(blocks, dropped, n, kept, remap, origin) && n < |blocks| && !dropped[n]
    ensures Keeping(blocks, dropped, n + 1, kept + [blocks[n]], remap[n := |kept|], origin + [n])
  {
  }

  /** The blocks that survive, still under their old numbers. */
  method KeepBlocks(blocks: seq<Block>, byStart: map<nat, nat>)
    returns (kept: seq<Block>, remap: map<nat, nat>, ghost origin: seq<nat>)
    requires Numbered(blocks) && EdgesInside(blocks, byStart)
    ensures StrictlyAscending(origin) && IsRemap(origin, remap) && |kept| == |origin|
    ensures forall b: nat :: b in origin <==> b < |blocks| && !Stranded(blocks, byStart, b)
    ensures forall k :: 0 <= k < |origin| ==> origin[k] < |blocks| && kept[k] == blocks[origin[k]]
  {
    var withGuard := Reach(blocks, byStart, true);
    var withoutGuard := Reach(blocks, byStart, false);
    ghost var dropped := seq(|blocks|, i requires 0 <= i < |blocks| => withGuard[i] && !withoutGuard[i]);
    remap, kept, origin := map[], [], [];
    for i := 0 to |blocks|
      invariant Keeping(blocks, dropped, i, kept, remap, origin)
    {
      if withGuard[i] && !withoutGuard[i] {
        continue;
      }
      KeepingOne(blocks, dropped, i, kept, remap, origin);
      remap := remap[blocks[i].id := |kept|];
      kept := kept + [blocks[i]];
      origin := origin + [i];
    }
    forall b: nat ensures b in origin <==> b < |blocks| && !Stranded(blocks, byStart, b) {
      if b < |blocks| { assert Stranded(blocks, byStart, b) == dropped[b]; }
    }
  }

  method Prune(blocks: seq<Block>, byStart: map<nat, nat>) returns (after: seq<Block>, ghost origin: seq<nat>)
    requires Numbered(blocks) && EdgesInside(blocks, byStart)
    requires forall b :: 0 <= b < |blocks| ==> StrictlyAscending(blocks[b].succs) && blocks[b].preds == []
    ensures Renumbers(blocks, after, origin)
    ensures forall b: nat :: b in origin <==> b < |blocks| && !Stranded(blocks, byStart, b)
    ensures forall k :: 0 <= k < |after| ==> after[k].preds == []
  {
    var kept, remap;
    kept, remap, origin := KeepBlocks(blocks, byStart);
    after := kept;
    for i := 0 to |after|
      invariant |after| == |origin|
      invariant forall k :: 0 <= k < i ==> Carries(blocks, after, origin, k)
      invariant forall k :: i <= k < |after| ==> after[k] == kept[k]
      invariant forall k :: 0 <= k < |after| ==> after[k].preds == []
    {
      assert after[i] == blocks[origin[i]];
      var succs := RemapSuccessors(after[i].succs, remap, origin);
      ghost var previous := after;
      after := after[i := after[i].(id := i, succs := succs)];
      forall k | 0 <= k <= i ensures Carries(blocks, after, origin, k) {
        if k < i { assert Carries(blocks, previous, origin, k); }
      }
    }
  }

  /** Predecessors are the successors read backwards, in order and without repetition. */
  ghost predicate PredsMatch(blocks: seq<Block>) {
    forall b :: 0 <= b < |blocks| ==>
      && StrictlyAscending(blocks[b].preds)
      && forall p: nat :: p in blocks[b].preds <==> p < |blocks| && b in blocks[p].succs
  }

  /** Only the predecessor lists differ. */
  ghost predicate SameButPreds(a: seq<Block>, b: seq<Block>) {
    |a| == |b| && forall i :: 0 <= i < |a| ==> a[i].(preds := []) == b[i].(preds := [])
  }

  /** `preds` are the blocks below `n` with an edge to `b`. */
  ghost predicate PredsBelow(blocks: seq<Block>, n: nat, preds: seq<nat>, b: nat)
    requires n <= |blocks|
  {
    forall p: nat :: p in preds <==> p < n && b in blocks[p].succs
  }

  /** Block `i` has been added to the predecessors of the blocks in `done`. */
  ghost predicate Linked(before: seq<Block>, blocks: seq<Block>, i: nat, done: seq<nat>) {
    && |before| == |blocks|
    && forall b: nat, p: nat :: b < |blocks| ==>
         (p in blocks[b].preds <==> p in before[b].preds || (p == i && b in done))
  }

  lemma OneMoreLink(input: seq<Block>, before: seq<Block>, blocks: seq<Block>, i: nat, done: seq<nat>, t: nat)
    requires SameButPreds(input, blocks) && Linked(before, blocks, i, done) && t < |blocks|
    ensures var next := blocks[t := blocks[t].(preds := blocks[t].preds + [i])];
            SameButPreds(input, next) && Linked(before, next, i, done + [t])
  {
  }

  lemma AllLinked(input: seq<Block>, before: seq<Block>, blocks: seq<Block>, i: nat)
    requires i < |input| == |blocks| && Linked(before, blocks, i, input[i].succs)
    requires forall b :: 0 <= b < |before| ==> PredsBelow(input, i, before[b].preds, b)
    ensures forall b :: 0 <= b < |blocks| ==> PredsBelow(input, i + 1, blocks[b].preds, b)
  {
    forall b | 0 <= b < |blocks| ensures PredsBelow(input, i + 1, blocks[b].preds, b) {
      assert PredsBelow(input, i, before[b].preds, b);
    }
  }

  /** Every list holds the right blocks, and the first `n` are in order. */
  ghost predicate Sorting(input: seq<Block>, blocks: seq<Block>, n: nat) {
    && SameButPreds(input, blocks)
    && (forall k :: 0 <= k < |blocks| ==> PredsBelow(input, |input|, blocks[k].preds, k))
    && (forall k :: 0 <= k < |blocks| && k < n ==> StrictlyAscending(blocks[k].preds))
  }

  lemma OneMoreSorted(input: seq<Block>, blocks: seq<Block>, b: nat)
    requires Sorting(input, blocks, b) && b < |blocks|
    ensures Sorting(input, blocks[b := blocks[b].(preds := SortDedup(blocks[b].preds))], b + 1)
  {
    assert PredsBelow(input, |input|, blocks[b].preds, b);
  }

  lemma SortedPredsMatch(input: seq<Block>, blocks: seq<Block>)
    requires Sorting(input, blocks, |blocks|)
    ensures PredsMatch(blocks)
  {
    forall b | 0 <= b < |blocks|
      ensures forall p: nat :: p in blocks[b].preds <==> p < |blocks| && b in blocks[p].succs
    {
      assert PredsBelow(input, |input|, blocks[b].preds, b);
    }
  }

  method LinkPredecessors(input: seq<Block>) returns (blocks: seq<Block>)
    requires Numbered(input) && forall b :: 0 <= b < |input| ==> input[b].preds == []
    requires forall i, j :: 0 <= i < |input| && j in input[i].succs ==> j < |input|
    ensures SameButPreds(input, blocks) && PredsMatch(blocks)
  {
    blocks := input;
    for i := 0 to |input|
      invariant SameButPreds(input, blocks)
      invariant forall b :: 0 <= b < |blocks| ==> PredsBelow(input, i, blocks[b].preds, b)
    {
      var succs := blocks[i].succs;
      var predId := blocks[i].id;
      ghost var before := blocks;
      for k := 0 to |succs|
        invariant SameButPreds(input, blocks) && Linked(before, blocks, i, succs[..k])
      {
        assert succs[..k + 1] == succs[..k] + [succs[k]];
        var target := PositionOf(blocks, succs[k]);
        if target.Some? {
          OneMoreLink(input, before, blocks, i, succs[..k], target.value);
          blocks := blocks[target.value := blocks[target.value].(preds := blocks[target.value].preds + [predId])];
        }
      }
      assert succs[..|succs|] == succs;
      AllLinked(input, before, blocks, i);
    }
    for b := 0 to |blocks|
      invariant Sorting(input, blocks, b)
    {
      OneMoreSorted(input, blocks, b);
      blocks := blocks[b := blocks[b].(preds := SortDedup(blocks[b].preds))];
    }
    SortedPredsMatch(input, blocks);
  }
}
