/** The control-flow facts a provenance key is resolved against, and the resolution itself. */
module SiteKeys {
  import opened Collections
  import opened Graphs
  import opened Dominators
  import opened EntryPaths

  /** One block of the emitted IR: its id, its raw successor list, its call addresses. */
  datatype IrBlock = IrBlock(id: nat, succs: seq<nat>, calls: set<nat>)

  datatype Kind = NoKind | LoopKind | JoinKind

  datatype KeyError =
    | NotReachable
    | TooFewPredecessors
    | HeaderNotJoin
    | NotALoopHeader
    | NotACall
    | UndeclaredSite

  datatype PathError = UndeclaredPath | NotTheClobberingCall | NotABlockPath | NotAnIncomingPath

  ghost predicate NoRepeats(s: seq<nat>) {
    forall i, j :: 0 <= i < j < |s| ==> s[i] != s[j]
  }

  /** No block lists a successor twice: what the IR builder's sort-and-dedup guarantees. */
  ghost predicate NoParallelEdges(g: Graph) {
    forall b :: b in g ==> NoRepeats(g[b])
  }

  /** How often `u` lists `v`. */
  function Times(g: Graph, u: nat, v: nat): (n: nat)
    ensures n > 0 <==> Edge(g, u, v)
  {
    multiset(Succs(g, u))[v]
  }

  predicate WeaklyAscending(s: seq<nat>) {
    forall i, j :: 0 <= i < j < |s| ==> s[i] <= s[j]
  }

  function Ids(blocks: seq<IrBlock>): set<nat> {
    set i | 0 <= i < |blocks| :: blocks[i].id
  }

  function Known(targets: seq<nat>, ids: set<nat>): (r: seq<nat>)
    ensures forall t :: t in r <==> t in targets && t in ids
    ensures NoRepeats(targets) ==> NoRepeats(r)
  {
    if targets == [] then []
    else
      var rest := Known(targets[1..], ids);
      assert forall t :: t in targets <==> t == targets[0] || t in targets[1..];
      if targets[0] in ids then
        assert NoRepeats(targets) ==> targets[0] !in targets[1..];
        [targets[0]] + rest
      else rest
  }

  /** Successor lists restricted to declared ids; of two blocks with one id the later counts. */
  function SuccessorMap(blocks: seq<IrBlock>, ids: set<nat>): (g: Graph)
    ensures g.Keys == Ids(blocks)
    ensures (forall i :: 0 <= i < |blocks| ==> NoRepeats(blocks[i].succs)) ==> NoParallelEdges(g)
  {
    if blocks == [] then map[]
    else
      var last := blocks[|blocks| - 1];
      assert blocks == blocks[..|blocks| - 1] + [last];
      SuccessorMap(blocks[..|blocks| - 1], ids)[last.id := Known(last.succs, ids)]
  }

  function CallsOf(blocks: seq<IrBlock>): set<nat> {
    set i, va | 0 <= i < |blocks| && va in blocks[i].calls :: va
  }

  class Ir {
    var succs: Graph
    var reachable: set<nat>
    var preds: Graph
    var headers: set<nat>
    var calls: set<nat>

    /** Every field says about the graph what it is meant to say. */
    ghost predicate Valid()
      reads this
    {
      && (reachable == {} || IsReachSet(succs, 0, reachable))
      && (forall b: nat, t: nat :: Times(preds, t, b) == if b in reachable then Times(succs, b, t) else 0)
      && (forall t: nat :: WeaklyAscending(Succs(preds, t)))
      && (forall t: nat :: t in headers <==> reachable != {} && IsLoopHeader(succs, t))
    }

    constructor (blocks: seq<IrBlock>)
      ensures Valid()
      ensures succs == SuccessorMap(blocks, Ids(blocks)) && calls == CallsOf(blocks)
      ensures reachable == {} <==> 0 !in Ids(blocks)
      ensures forall va :: va in calls <==> exists i :: 0 <= i < |blocks| && va in blocks[i].calls
    {
      var g := SuccessorMap(blocks, Ids(blocks));
      var seen: set<nat> := {};
      if 0 in Ids(blocks) {
        seen := ReachableFrom(g, 0);
        ReachesSelf(g, 0);
      }
      var order := Sorted(seen);
      var incoming := LiveIncoming(g, order);
      var found := NaturalLoopHeadersOf(g, seen);
      succs := g;
      reachable := seen;
      preds := incoming;
      headers := found;
      calls := CallsOf(blocks);
    }

    predicate IsJoin(block: nat)
      reads this
    {
      |Succs(preds, block)| > 1
    }

    predicate IsHeader(block: nat)
      reads this
    {
      block in headers
    }

    function KindOfBlock(block: nat): Kind
      reads this
    {
      if block !in reachable then NoKind
      else if IsHeader(block) then LoopKind
      else if IsJoin(block) then JoinKind
      else NoKind
    }

    /** What is wrong with a site key, if anything. */
    function ResolveKey(site: SiteKey): Option<KeyError>
      reads this
    {
      if site.tag == "join" then
        if site.value !in reachable then Some(NotReachable)
        else if !IsJoin(site.value) then Some(TooFewPredecessors)
        else if IsHeader(site.value) then Some(HeaderNotJoin)
        else None
      else if site.tag == "loop" then
        if site.value !in reachable then Some(NotReachable)
        else if !IsHeader(site.value) then Some(NotALoopHeader)
        else None
      else if site.tag == "call" then
        if site.value !in calls then Some(NotACall) else None
      else Some(UndeclaredSite)
    }

    function ResolvePath(site: SiteKey, path: SiteKey): Option<PathError>
      reads this
    {
      if path.tag != "block" && path.tag != "call" then Some(UndeclaredPath)
      else if site.tag == "call" then
        if path != site then Some(NotTheClobberingCall) else None
      else if path.tag != "block" then Some(NotABlockPath)
      else if path.value !in Succs(preds, site.value) then Some(NotAnIncomingPath)
      else None
    }
  }

  /**
    * Predecessor lists counting only the blocks of `order`, in ascending order, each as often as it lists the
    * successor.
    */
  method LiveIncoming(g: Graph, order: seq<nat>) returns (preds: Graph)
    requires StrictlyAscending(order)
    ensures forall b: nat, t: nat :: Times(preds, t, b) == if b in order then Times(g, b, t) else 0
    ensures forall t: nat :: WeaklyAscending(Succs(preds, t))
  {
    preds := map[];
    for i := 0 to |order|
      invariant forall b: nat, t: nat :: Times(preds, t, b) == if b in order[..i] then Times(g, b, t) else 0
      invariant forall t: nat :: WeaklyAscending(Succs(preds, t))
    {
      assert order[..i + 1] == order[..i] + [order[i]];
      assert ListsUpTo(preds, order[i]) by {
        forall t: nat, x | x in Succs(preds, t) ensures x <= order[i] {
          assert Times(preds, t, x) > 0;
        }
      }
      preds := AddTargets(g, order[i], preds);
      assert forall t: nat :: WeaklyAscending(Succs(preds, t));
    }
    assert order[..|order|] == order;
  }

  /** Every list is ascending and names blocks up to `block`. */
  ghost predicate ListsUpTo(preds: Graph, block: nat) {
    forall t: nat :: WeaklyAscending(Succs(preds, t)) && forall x :: x in Succs(preds, t) ==> x <= block
  }

  lemma ListedOnceMore(list: seq<nat>, block: nat)
    requires WeaklyAscending(list) && forall x :: x in list ==> x <= block
    ensures WeaklyAscending(list + [block]) && forall x :: x in list + [block] ==> x <= block
    ensures forall b: nat :: multiset(list + [block])[b] == multiset(list)[b] + if b == block then 1 else 0
  {
    assert forall k :: 0 <= k < |list| ==> list[k] in list;
  }

  lemma OneMorePredecessor(preds: Graph, block: nat, target: nat)
    requires ListsUpTo(preds, block)
    ensures var after := preds[target := Succs(preds, target) + [block]];
            && ListsUpTo(after, block)
            && (forall b: nat, t: nat ::
                  Times(after, t, b) == Times(preds, t, b) + if b == block && t == target then 1 else 0)
  {
    var after := preds[target := Succs(preds, target) + [block]];
    ListedOnceMore(Succs(preds, target), block);
    forall t: nat ensures Succs(after, t) == if t == target then Succs(preds, target) + [block] else Succs(preds, t) {
    }
  }

  method AddTargets(g: Graph, block: nat, start: Graph) returns (preds: Graph)
    requires ListsUpTo(start, block)
    ensures forall b: nat, t: nat ::
              Times(preds, t, b) == Times(start, t, b) + if b == block then Times(g, block, t) else 0
    ensures ListsUpTo(preds, block)
  {
    preds := start;
    var targets := Succs(g, block);
    for k := 0 to |targets|
      invariant forall b: nat, t: nat ::
                  Times(preds, t, b) == Times(start, t, b) + if b == block then multiset(targets[..k])[t] else 0
      invariant ListsUpTo(preds, block)
    {
      assert targets[..k + 1] == targets[..k] + [targets[k]];
      OneMorePredecessor(preds, block, targets[k]);
      preds := preds[targets[k] := Succs(preds, targets[k]) + [block]];
    }
    assert targets[..|targets|] == targets;
  }

  /** A merge key resolves exactly when the block earns that kind, so no block resolves under two tags. */
  lemma KeysResolveToTheBlocksOwnKind(ir: Ir, block: nat)
    ensures ir.ResolveKey(SiteKey("loop", block)) == None <==> ir.KindOfBlock(block) == LoopKind
    ensures ir.ResolveKey(SiteKey("join", block)) == None <==> ir.KindOfBlock(block) == JoinKind
  {
    assert "loop"[0] == 'l' && "join"[0] == 'j';
  }

  /** A call key resolves exactly when its value is the address of a call; no undeclared tag resolves. */
  lemma CallKeysResolve(ir: Ir, site: SiteKey)
    ensures site.tag == "call" ==> (ir.ResolveKey(site) == None <==> site.value in ir.calls)
    ensures site.tag !in {"join", "loop", "call"} ==> ir.ResolveKey(site) == Some(UndeclaredSite)
  {
    assert "loop"[0] == 'l' && "join"[0] == 'j' && "call"[0] == 'c';
  }

  /** The only path of a call site is the call itself; no undeclared path resolves. */
  lemma CallPathsAreTheCall(ir: Ir, site: SiteKey, path: SiteKey)
    requires site.tag == "call"
    ensures ir.ResolvePath(site, path) == None <==> path == site
    ensures path.tag !in {"block", "call"} ==> ir.ResolvePath(site, path) == Some(UndeclaredPath)
  {
  }

  /** Of the blocks with one id the last counts: its successor list, restricted to declared ids, nothing reordered. */
  lemma {:induction false} EdgesAreTheBlocks(blocks: seq<IrBlock>, ids: set<nat>, i: nat, t: nat)
    requires i < |blocks| && forall j :: i < j < |blocks| ==> blocks[j].id != blocks[i].id
    ensures Times(SuccessorMap(blocks, ids), blocks[i].id, t) == if t in ids then multiset(blocks[i].succs)[t] else 0
  {
    var last := blocks[|blocks| - 1];
    if i == |blocks| - 1 {
      KnownCounts(last.succs, ids, t);
    } else {
      EdgesAreTheBlocks(blocks[..|blocks| - 1], ids, i, t);
    }
  }

  lemma {:induction false} KnownCounts(targets: seq<nat>, ids: set<nat>, t: nat)
    ensures multiset(Known(targets, ids))[t] == if t in ids then multiset(targets)[t] else 0
  {
    if targets != [] {
      KnownCounts(targets[1..], ids, t);
      assert targets == [targets[0]] + targets[1..];
    }
  }

  /** Two different reachable blocks have an edge to `block`. */
  ghost predicate TwoLivePredecessors(g: Graph, block: nat) {
    exists a, b :: a != b && Reaches(g, 0, a) && Reaches(g, 0, b) && Edge(g, a, block) && Edge(g, b, block)
  }

  /** A reachable block lists `block` more than once. */
  ghost predicate DoubledLivePredecessor(g: Graph, block: nat) {
    exists b :: Reaches(g, 0, b) && Times(g, b, block) >= 2
  }

  lemma PredecessorsAreLiveEdges(ir: Ir, block: nat, b: nat)
    requires ir.Valid() && ir.reachable != {}
    ensures b in Succs(ir.preds, block) <==> Reaches(ir.succs, 0, b) && Edge(ir.succs, b, block)
  {
    assert Times(ir.preds, block, b) > 0 <==> b in Succs(ir.preds, block);
  }

  /** What counts as a join, exactly: two live predecessors, or one that lists the block twice. */
  lemma JoinsAreTwoPredecessorsOrADoubledOne(ir: Ir, block: nat)
    requires ir.Valid() && ir.reachable != {}
    ensures ir.IsJoin(block) <==> TwoLivePredecessors(ir.succs, block) || DoubledLivePredecessor(ir.succs, block)
  {
    var list := Succs(ir.preds, block);
    if |list| > 1 {
      PredecessorsAreLiveEdges(ir, block, list[0]);
      PredecessorsAreLiveEdges(ir, block, list[1]);
      if list[0] == list[1] {
        TwiceInASequence(list, 0, 1);
        assert Times(ir.preds, block, list[0]) >= 2;
      }
    }
    if TwoLivePredecessors(ir.succs, block) {
      var a, b :| a != b && Reaches(ir.succs, 0, a) && Reaches(ir.succs, 0, b) && Edge(ir.succs, a, block) &&
        Edge(ir.succs, b, block);
      PredecessorsAreLiveEdges(ir, block, a);
      PredecessorsAreLiveEdges(ir, block, b);
    }
    if DoubledLivePredecessor(ir.succs, block) {
      var b :| Reaches(ir.succs, 0, b) && Times(ir.succs, b, block) >= 2;
      assert multiset(list)[b] >= 2;
      assert |multiset(list)| >= multiset(list)[b];
    }
  }

  lemma WithoutParallelEdgesNoneIsDoubled(g: Graph, block: nat)
    requires NoParallelEdges(g)
    ensures !DoubledLivePredecessor(g, block)
  {
    forall b ensures Times(g, b, block) < 2 {
      NoRepeatsCountOnce(Succs(g, b), block);
    }
  }

  lemma {:induction false} NoRepeatsCountOnce(s: seq<nat>, x: nat)
    requires NoRepeats(s)
    ensures multiset(s)[x] <= 1
  {
    if s != [] {
      NoRepeatsCountOnce(s[1..], x);
      assert s == [s[0]] + s[1..];
      assert s[0] !in s[1..];
    }
  }

  /** What the kinds mean in the graph. */
  lemma KindsMeanWhatTheGraphSays(ir: Ir, block: nat)
    requires ir.Valid() && ir.reachable != {}
    ensures ir.KindOfBlock(block) == LoopKind <==> IsLoopHeader(ir.succs, block)
    ensures ir.KindOfBlock(block) == JoinKind <==>
            && Reaches(ir.succs, 0, block) && !IsLoopHeader(ir.succs, block)
            && (TwoLivePredecessors(ir.succs, block) || DoubledLivePredecessor(ir.succs, block))
    ensures NoParallelEdges(ir.succs) ==> !DoubledLivePredecessor(ir.succs, block)
  {
    if IsLoopHeader(ir.succs, block) {
      var b :| Reaches(ir.succs, 0, b) && Edge(ir.succs, b, block) && Dominates(ir.succs, block, b);
      ReachesStep(ir.succs, 0, b, block);
    }
    JoinsAreTwoPredecessorsOrADoubledOne(ir, block);
    if NoParallelEdges(ir.succs) {
      WithoutParallelEdgesNoneIsDoubled(ir.succs, block);
    }
  }

  /** With a successor listed twice, a block with a single predecessor is counted as a join, and its key resolves. */
  method ParallelEdgesFakeAJoin() returns (ir: Ir)
    ensures ir.succs == map[0 := [1, 1], 1 := []]
    ensures ir.IsJoin(1) && ir.ResolveKey(SiteKey("join", 1)) == None && !TwoLivePredecessors(ir.succs, 1)
  {
    var blocks := [IrBlock(0, [1, 1], {}), IrBlock(1, [], {})];
    ir := new Ir(blocks);
    DoubledGraph(blocks);
    DoubledGraphFacts(ir.succs);
    JoinsAreTwoPredecessorsOrADoubledOne(ir, 1);
    KindsMeanWhatTheGraphSays(ir, 1);
    KeysResolveToTheBlocksOwnKind(ir, 1);
  }

  lemma DoubledGraph(blocks: seq<IrBlock>)
    requires blocks == [IrBlock(0, [1, 1], {}), IrBlock(1, [], {})]
    ensures 0 in Ids(blocks) && SuccessorMap(blocks, Ids(blocks)) == map[0 := [1, 1], 1 := []]
  {
    var ids := Ids(blocks);
    assert blocks[0].id == 0 && blocks[1].id == 1;
    assert Known([1, 1], ids) == [1, 1] by {
      assert [1, 1][1..] == [1] && [1][1..] == [];
      assert Known([1], ids) == [1];
    }
    var front := blocks[..1];
    assert front == [blocks[0]] && front[..0] == [];
    assert SuccessorMap(front, ids) == SuccessorMap([], ids)[0 := [1, 1]];
    assert Known([], ids) == [];
  }

  lemma DoubledGraphFacts(g: Graph)
    requires g == map[0 := [1, 1], 1 := []]
    ensures Reaches(g, 0, 1) && !IsLoopHeader(g, 1) && DoubledLivePredecessor(g, 1) && !TwoLivePredecessors(g, 1)
  {
    ReachesSelf(g, 0);
    assert Edge(g, 0, 1);
    ReachesStep(g, 0, 0, 1);
    assert Times(g, 0, 1) == 2;
    assert PathBetween(g, 0, [0], 0);
  }

  /**
    * The path keys of an accepted merge site are reachable predecessors; and one that also lies
    * before the loop, as the loop check asks, is never the source of a back edge.
    */
  lemma ResolvedPathsAreLivePredecessors(ir: Ir, site: SiteKey, path: SiteKey)
    requires ir.Valid() && ir.reachable != {} && (site.tag == "loop" || site.tag == "join")
    ensures ir.ResolvePath(site, path) == None <==>
            path.tag == "block" && Reaches(ir.succs, 0, path.value) && Edge(ir.succs, path.value, site.value)
    ensures ir.ResolvePath(site, path) == None && EntryPath(ir.succs, site.value, path.value) && site.value != 0 ==>
            !Dominates(ir.succs, site.value, path.value)
  {
    if site.value != 0 {
      EntryPathIffNotDominated(ir.succs, site.value, path.value);
    }
    assert "loop"[0] == 'l' && "join"[0] == 'j' && "call"[0] == 'c';
    PredecessorsAreLiveEdges(ir, site.value, path.value);
  }
}
