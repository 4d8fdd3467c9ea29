/** The entry-point frontier: functions scored by how few calls separate them from an entry seed. */
module Frontier {
  import opened Graphs

  const DEPTH_LIMIT: nat := 3

  function DepthScore(depth: nat): int {
    match depth
    case 0 => 2200
    case 1 => 1300
    case 2 => 760
    case 3 => 420
    case _ => 0
  }

  /** `d` successive calls lead from some seed to `v`. */
  ghost predicate CallChain(calls: Graph, seeds: set<nat>, v: nat, d: nat)
    decreases d
  {
    if d == 0 then v in seeds else exists u: nat :: CallChain(calls, seeds, u, d - 1) && Edge(calls, u, v)
  }

  /** `d` is the call distance of `v` from the seed set. */
  ghost predicate Distance(calls: Graph, seeds: set<nat>, v: nat, d: nat) {
    CallChain(calls, seeds, v, d) && forall e: nat :: e < d ==> !CallChain(calls, seeds, v, e)
  }

  /** `v` is at most three calls away from a seed. */
  ghost predicate Near(calls: Graph, seeds: set<nat>, v: nat) {
    exists d: nat :: d <= DEPTH_LIMIT && Distance(calls, seeds, v, d)
  }

  /** A chain of `d` calls is a path of `d` edges from a seed. */
  lemma {:induction false} ChainsArePaths(calls: Graph, seeds: set<nat>, v: nat, d: nat) returns (p: seq<nat>)
    requires CallChain(calls, seeds, v, d)
    ensures |p| == d + 1 && p[0] in seeds && PathBetween(calls, p[0], p, v)
    decreases d
  {
    if d == 0 {
      p := [v];
    } else {
      var u: nat :| CallChain(calls, seeds, u, d - 1) && Edge(calls, u, v);
      var q := ChainsArePaths(calls, seeds, u, d - 1);
      PathExtends(calls, q[0], q, u, v);
      p := q + [v];
    }
  }

  /** A path of `d` edges from a seed is a chain of `d` calls. */
  lemma {:induction false} PathsAreChains(calls: Graph, seeds: set<nat>, p: seq<nat>, v: nat)
    requires |p| > 0 && p[0] in seeds && PathBetween(calls, p[0], p, v)
    ensures CallChain(calls, seeds, v, |p| - 1)
    decreases |p|
  {
    if |p| > 1 {
      PathShrinks(calls, p[0], p, v);
      PathsAreChains(calls, seeds, p[..|p| - 1], p[|p| - 2]);
    }
  }

  /** Every chain has a shortest one among those no longer than it. */
  lemma {:induction false} ShortestExists(calls: Graph, seeds: set<nat>, v: nat, d: nat) returns (e: nat)
    requires CallChain(calls, seeds, v, d)
    ensures e <= d && Distance(calls, seeds, v, e)
  {
    if k: nat :| k < d && CallChain(calls, seeds, v, k) {
      e := ShortestExists(calls, seeds, v, k);
    } else {
      e := d;
    }
  }

  /** A queue entry: a function and the depth it was reached at. */
  datatype Visit = Visit(va: nat, depth: nat)

  type Queue = seq<Visit>

  /** The score is that of some chain of at most three calls to `v`. */
  ghost predicate ScoreOfAChain(calls: Graph, seeds: set<nat>, v: nat, score: int) {
    exists d: nat :: d <= DEPTH_LIMIT && CallChain(calls, seeds, v, d) && score == DepthScore(d)
  }

  /** Everything recorded so far stands for a real chain of at most three calls. */
  ghost predicate Sound(calls: Graph, seeds: set<nat>, visited: map<nat, nat>, queue: Queue, scores: map<nat, int>) {
    && (forall v: nat :: v in visited ==> visited[v] <= DEPTH_LIMIT && CallChain(calls, seeds, v, visited[v]))
    && (forall i :: 0 <= i < |queue| ==>
        queue[i].depth <= DEPTH_LIMIT && CallChain(calls, seeds, queue[i].va, queue[i].depth))
    && (forall v: nat :: v in scores ==> ScoreOfAChain(calls, seeds, v, scores[v]))
  }

  /** Every queued function is visited at a depth no greater than its queued one. */
  ghost predicate Queued(visited: map<nat, nat>, queue: Queue) {
    forall i :: 0 <= i < |queue| ==> queue[i].va in visited && visited[queue[i].va] <= queue[i].depth
  }

  ghost predicate SeedsRecorded(seeds: set<nat>, visited: map<nat, nat>) {
    forall s: nat :: s in seeds ==> s in visited && visited[s] == 0
  }

  /** The first `n` callees of `v` are visited no deeper than one call below `v`. */
  ghost predicate Relaxed(calls: Graph, visited: map<nat, nat>, v: nat, n: nat)
    requires v in visited && n <= |Succs(calls, v)|
  {
    forall i :: 0 <= i < n ==> Succs(calls, v)[i] in visited && visited[Succs(calls, v)[i]] <= visited[v] + 1
  }

  /** `v` has been scored at its recorded depth and its callees have been relaxed. */
  ghost predicate Settled(calls: Graph, visited: map<nat, nat>, scores: map<nat, int>, v: nat)
    requires v in visited
  {
    && v in scores && scores[v] >= DepthScore(visited[v])
    && (visited[v] < DEPTH_LIMIT ==> Relaxed(calls, visited, v, |Succs(calls, v)|))
  }

  /** `v` waits in the queue at its recorded depth, or is settled. */
  ghost predicate Handled(calls: Graph, visited: map<nat, nat>, queue: Queue, scores: map<nat, int>, v: nat)
    requires v in visited
  {
    Visit(v, visited[v]) in queue || Settled(calls, visited, scores, v)
  }

  /** Every visited function other than `busy` waits in the queue at its recorded depth or is settled. */
  ghost predicate Progressing(calls: Graph, visited: map<nat, nat>, queue: Queue, scores: map<nat, int>,
                              busy: set<nat>) {
    forall v: nat {:trigger Handled(calls, visited, queue, scores, v)} :: v in visited && v !in busy ==>
      Handled(calls, visited, queue, scores, v)
  }

  /** What the search keeps while it works on `busy`, and between two pops when that is empty. */
  ghost predicate Searching(calls: Graph, seeds: set<nat>, visited: map<nat, nat>, queue: Queue, scores: map<nat, int>,
                            busy: set<nat>) {
    && Sound(calls, seeds, visited, queue, scores) && Queued(visited, queue) && SeedsRecorded(seeds, visited)
    && Progressing(calls, visited, queue, scores, busy)
  }

  /** The (function, depth) pairs that some later visit could still record. */
  ghost function Unrecorded(universe: set<nat>, visited: map<nat, nat>): set<Visit> {
    set v, k: nat | v in universe && 0 <= k < 4 && (v !in visited || k < visited[v]) :: Visit(v, k)
  }

  /** When nothing waits, no function is recorded deeper than any chain that reaches it. */
  lemma {:induction false} RecordedDepthIsLeast(calls: Graph, seeds: set<nat>, visited: map<nat, nat>,
                                                scores: map<nat, int>, v: nat, d: nat)
    requires Progressing(calls, visited, [], scores, {}) && SeedsRecorded(seeds, visited)
    requires d <= DEPTH_LIMIT && CallChain(calls, seeds, v, d)
    ensures v in visited && visited[v] <= d
    decreases d
  {
    if d > 0 {
      var u: nat :| CallChain(calls, seeds, u, d - 1) && Edge(calls, u, v);
      RecordedDepthIsLeast(calls, seeds, visited, scores, u, d - 1);
      assert Handled(calls, visited, [], scores, u);
    }
  }

  /** A shorter chain never scores less, and no score falls below that of the shortest chain it stands for. */
  lemma ChainScoreIsAtMost(calls: Graph, seeds: set<nat>, v: nat, score: int, d: nat)
    requires ScoreOfAChain(calls, seeds, v, score) && Distance(calls, seeds, v, d)
    ensures d <= DEPTH_LIMIT && score <= DepthScore(d)
  {
    var e: nat :| e <= DEPTH_LIMIT && CallChain(calls, seeds, v, e) && score == DepthScore(e);
    assert d <= e;
  }

  lemma ScoresAreExact(calls: Graph, seeds: set<nat>, visited: map<nat, nat>, scores: map<nat, int>, v: nat, d: nat)
    requires Sound(calls, seeds, visited, [], scores) && Progressing(calls, visited, [], scores, {})
    requires SeedsRecorded(seeds, visited)
    requires Distance(calls, seeds, v, d) && d <= DEPTH_LIMIT
    ensures v in scores && scores[v] == DepthScore(d)
  {
    RecordedDepthIsLeast(calls, seeds, visited, scores, v, d);
    assert Handled(calls, visited, [], scores, v);
    ChainScoreIsAtMost(calls, seeds, v, scores[v], d);
    assert DepthScore(visited[v]) >= DepthScore(d);
  }

  /** Recording a better depth keeps everything settled that was. */
  lemma RecordingKeepsProgress(calls: Graph, visited: map<nat, nat>, queue: Queue, scores: map<nat, int>,
                               busy: set<nat>,
                               c: nat, depth: nat)
    requires Progressing(calls, visited, queue, scores, busy) && (c in visited ==> depth < visited[c])
    ensures Progressing(calls, visited[c := depth], queue + [Visit(c, depth)], scores, busy)
  {
    var after, q := visited[c := depth], queue + [Visit(c, depth)];
    forall v: nat | v in after && v !in busy ensures Handled(calls, after, q, scores, v) {
      if v == c {
        assert q[|queue|] == Visit(c, depth);
      } else if Visit(v, visited[v]) in queue {
        var i :| 0 <= i < |queue| && queue[i] == Visit(v, visited[v]);
        assert q[i] == Visit(v, after[v]);
      } else {
        assert Handled(calls, visited, queue, scores, v);
      }
    }
  }

  lemma RecordingShrinks(universe: set<nat>, visited: map<nat, nat>, c: nat, depth: nat)
    requires c in universe && depth < 4 && (c in visited ==> depth < visited[c])
    ensures Unrecorded(universe, visited[c := depth]) < Unrecorded(universe, visited)
  {
    assert Visit(c, depth) in Unrecorded(universe, visited) &&
           Visit(c, depth) !in Unrecorded(universe, visited[c := depth]);
  }

  method EnqueueSeeds(calls: Graph, seeds: set<nat>) returns (visited: map<nat, nat>, queue: Queue)
    ensures Sound(calls, seeds, visited, queue, map[]) && Queued(visited, queue)
    ensures Progressing(calls, visited, queue, map[], {})
    ensures visited.Keys == seeds && forall v :: v in visited ==> visited[v] == 0
    ensures SeedsRecorded(seeds, visited)
    ensures forall v: nat :: v in seeds <==> Visit(v, 0) in queue
    ensures forall i :: 0 <= i < |queue| ==> queue[i].va in seeds && queue[i].depth == 0
    ensures forall i, j :: 0 <= i < j < |queue| ==> queue[i] != queue[j]
  {
    visited, queue := map[], [];
    var todo := seeds;
    while todo != {}
      invariant todo <= seeds
      invariant forall v: nat :: v in visited <==> v in seeds && v !in todo
      invariant forall v: nat :: v in visited ==> visited[v] == 0 && Visit(v, 0) in queue
      invariant forall i :: 0 <= i < |queue| ==> queue[i].va in visited && queue[i].depth == 0
      invariant forall i, j :: 0 <= i < j < |queue| ==> queue[i] != queue[j]
    {
      var seed :| seed in todo;
      todo := todo - {seed};
      visited := visited[seed := 0];
      ghost var before := queue;
      queue := queue + [Visit(seed, 0)];
      assert queue[|before|] == Visit(seed, 0);
      assert forall x :: x in before ==> x in queue;
    }
  }

  lemma RecordingStaysSound(calls: Graph, seeds: set<nat>, visited: map<nat, nat>, queue: Queue, scores: map<nat, int>,
                            c: nat, depth: nat)
    requires Sound(calls, seeds, visited, queue, scores) && depth <= DEPTH_LIMIT && CallChain(calls, seeds, c, depth)
    ensures Sound(calls, seeds, visited[c := depth], queue + [Visit(c, depth)], scores)
  {
  }

  lemma RecordingKeepsQueued(seeds: set<nat>, visited: map<nat, nat>, queue: Queue, c: nat, depth: nat)
    requires Queued(visited, queue) && SeedsRecorded(seeds, visited) && (c in visited ==> depth < visited[c])
    ensures Queued(visited[c := depth], queue + [Visit(c, depth)]) && SeedsRecorded(seeds, visited[c := depth])
  {
  }

  lemma RecordingKeepsSearching(calls: Graph, seeds: set<nat>, visited: map<nat, nat>, queue: Queue,
                                scores: map<nat, int>,
                                busy: set<nat>, c: nat, depth: nat)
    requires Searching(calls, seeds, visited, queue, scores, busy)
    requires depth <= DEPTH_LIMIT && CallChain(calls, seeds, c, depth) && (c in visited ==> depth < visited[c])
    ensures Searching(calls, seeds, visited[c := depth], queue + [Visit(c, depth)], scores, busy)
  {
    RecordingStaysSound(calls, seeds, visited, queue, scores, c, depth);
    RecordingKeepsQueued(seeds, visited, queue, c, depth);
    RecordingKeepsProgress(calls, visited, queue, scores, busy, c, depth);
  }

  /** What one expansion has done after `n` callees; a function popped at a stale depth need not settle. */
  ghost predicate Expanding(calls: Graph, seeds: set<nat>, va: nat, depth: nat, visited: map<nat, nat>, queue: Queue,
                            scores: map<nat, int>, busy: set<nat>, n: nat)
    requires n <= |Succs(calls, va)|
  {
    && va in visited && visited[va] <= depth < DEPTH_LIMIT
    && busy <= {va} && Searching(calls, seeds, visited, queue, scores, busy)
    && (va in busy ==> visited[va] == depth && Relaxed(calls, visited, va, n))
  }

  lemma RelaxedGrows(calls: Graph, visited: map<nat, nat>, va: nat, n: nat)
    requires va in visited && n < |Succs(calls, va)| && Relaxed(calls, visited, va, n)
    requires Succs(calls, va)[n] in visited && visited[Succs(calls, va)[n]] <= visited[va] + 1
    ensures Relaxed(calls, visited, va, n + 1)
  {
  }

  lemma RecordingKeepsRelaxed(calls: Graph, visited: map<nat, nat>, va: nat, n: nat, c: nat, depth: nat)
    requires va in visited && n <= |Succs(calls, va)| && Relaxed(calls, visited, va, n)
    requires c != va && (c in visited ==> depth < visited[c]) && depth <= visited[va] + 1
    ensures Relaxed(calls, visited[c := depth], va, n)
  {
  }

  /** A callee already recorded at least as well is passed over. */
  lemma PassedOver(calls: Graph, seeds: set<nat>, va: nat, depth: nat, visited: map<nat, nat>, queue: Queue,
                   scores: map<nat, int>, busy: set<nat>, n: nat)
    requires n < |Succs(calls, va)| && Expanding(calls, seeds, va, depth, visited, queue, scores, busy, n)
    requires Succs(calls, va)[n] in visited && visited[Succs(calls, va)[n]] <= depth + 1
    ensures Expanding(calls, seeds, va, depth, visited, queue, scores, busy, n + 1)
  {
    if va in busy {
      RelaxedGrows(calls, visited, va, n);
    }
  }

  lemma ExpandingStep(calls: Graph, seeds: set<nat>, va: nat, depth: nat, visited: map<nat, nat>, queue: Queue,
                      scores: map<nat, int>, busy: set<nat>, n: nat)
    requires n < |Succs(calls, va)| && Expanding(calls, seeds, va, depth, visited, queue, scores, busy, n)
    requires CallChain(calls, seeds, va, depth)
    requires var c := Succs(calls, va)[n]; c in visited ==> depth + 1 < visited[c]
    ensures var c := Succs(calls, va)[n];
            Expanding(calls, seeds, va, depth, visited[c := depth + 1], queue + [Visit(c, depth + 1)], scores, busy,
                      n + 1)
  {
    var c := Succs(calls, va)[n];
    assert Edge(calls, va, c);
    RecordingKeepsSearching(calls, seeds, visited, queue, scores, busy, c, depth + 1);
    if va in busy {
      RecordingKeepsRelaxed(calls, visited, va, n, c, depth + 1);
      RelaxedGrows(calls, visited[c := depth + 1], va, n);
    }
  }

  lemma ExpandingDone(calls: Graph, seeds: set<nat>, va: nat, depth: nat, visited: map<nat, nat>, queue: Queue,
                      scores: map<nat, int>, busy: set<nat>)
    requires Expanding(calls, seeds, va, depth, visited, queue, scores, busy, |Succs(calls, va)|)
    requires va in scores && scores[va] >= DepthScore(depth)
    ensures Searching(calls, seeds, visited, queue, scores, {})
  {
    assert va in busy ==> Settled(calls, visited, scores, va);
  }

  /** Either nothing was recorded, or fewer pairs remain to be recorded. */
  ghost predicate Advanced(universe: set<nat>, visited0: map<nat, nat>, queue0: Queue, visited: map<nat, nat>,
                           queue: Queue) {
    Unrecorded(universe, visited) < Unrecorded(universe, visited0) || (visited == visited0 && queue == queue0)
  }

  lemma Advances(calls: Graph, seeds: set<nat>, va: nat, n: nat, visited: map<nat, nat>, queue: Queue, depth: nat)
    requires n < |Succs(calls, va)| && depth <= DEPTH_LIMIT
    requires Succs(calls, va)[n] in visited ==> depth < visited[Succs(calls, va)[n]]
    ensures var c := Succs(calls, va)[n];
            Advanced(Nodes(calls) + seeds, visited, queue, visited[c := depth], queue + [Visit(c, depth)])
  {
    assert va in calls && calls[va][n] in calls[va];
    RecordingShrinks(Nodes(calls) + seeds, visited, Succs(calls, va)[n], depth);
  }

  /** Offer the `n`th callee the next depth; it is queued unless it is already recorded at least as well. */
  method Offer(calls: Graph, ghost seeds: set<nat>, va: nat, depth: nat, n: nat, visited0: map<nat, nat>, queue0: Queue,
               ghost scores: map<nat, int>, ghost busy: set<nat>)
    returns (visited: map<nat, nat>, queue: Queue)
    requires n < |Succs(calls, va)| && Expanding(calls, seeds, va, depth, visited0, queue0, scores, busy, n)
    requires CallChain(calls, seeds, va, depth)
    ensures Expanding(calls, seeds, va, depth, visited, queue, scores, busy, n + 1)
    ensures Advanced(Nodes(calls) + seeds, visited0, queue0, visited, queue)
  {
    var callee, nextDepth := Succs(calls, va)[n], depth + 1;
    if callee in visited0 && visited0[callee] <= nextDepth {
      PassedOver(calls, seeds, va, depth, visited0, queue0, scores, busy, n);
      visited, queue := visited0, queue0;
    } else {
      ExpandingStep(calls, seeds, va, depth, visited0, queue0, scores, busy, n);
      Advances(calls, seeds, va, n, visited0, queue0, nextDepth);
      visited, queue := visited0[callee := nextDepth], queue0 + [Visit(callee, nextDepth)];
    }
  }

  /** Relax the callees of one function popped from the queue. */
  method Expand(calls: Graph, ghost seeds: set<nat>, va: nat, depth: nat, visited0: map<nat, nat>, queue0: Queue,
                ghost scores: map<nat, int>, ghost busy: set<nat>)
    returns (visited: map<nat, nat>, queue: Queue)
    requires Expanding(calls, seeds, va, depth, visited0, queue0, scores, busy, 0) && CallChain(calls, seeds, va, depth)
    requires va in scores && scores[va] >= DepthScore(depth)
    ensures Searching(calls, seeds, visited, queue, scores, {})
    ensures Advanced(Nodes(calls) + seeds, visited0, queue0, visited, queue)
  {
    visited, queue := visited0, queue0;
    for i := 0 to |Succs(calls, va)|
      invariant Expanding(calls, seeds, va, depth, visited, queue, scores, busy, i)
      invariant Advanced(Nodes(calls) + seeds, visited0, queue0, visited, queue)
    {
      visited, queue := Offer(calls, seeds, va, depth, i, visited, queue, scores, busy);
    }
    ExpandingDone(calls, seeds, va, depth, visited, queue, scores, busy);
  }

  /** The popped function, unless it was popped at a depth that has since been improved. */
  ghost function Popped(visited: map<nat, nat>, visit: Visit): set<nat>
    requires visit.va in visited
  {
    if visited[visit.va] == visit.depth then {visit.va} else {}
  }

  function Raised(scores: map<nat, int>, va: nat, score: int): map<nat, int> {
    scores[va := if va in scores && scores[va] >= score then scores[va] else score]
  }

  lemma PoppingKeepsProgress(calls: Graph, visited: map<nat, nat>, queue: Queue, scores: map<nat, int>, score: int)
    requires queue != [] && queue[0].va in visited && Progressing(calls, visited, queue, scores, {})
    ensures var Visit(va, depth) := queue[0];
            Progressing(calls, visited, queue[1..], Raised(scores, va, score), Popped(visited, queue[0]))
  {
    var Visit(va, depth) := queue[0];
    var after := Raised(scores, va, score);
    forall v: nat | v in visited && (v == va ==> visited[va] != depth)
      ensures Handled(calls, visited, queue[1..], after, v)
    {
      if Visit(v, visited[v]) in queue {
        var i :| 0 <= i < |queue| && queue[i] == Visit(v, visited[v]);
        assert i > 0 && queue[1..][i - 1] == queue[i];
      } else {
        assert Handled(calls, visited, queue, scores, v);
      }
    }
  }

  /** One pop: the score counts, and what waited still waits, except perhaps the popped function. */
  lemma PoppingStaysSound(calls: Graph, seeds: set<nat>, visited: map<nat, nat>, queue: Queue, scores: map<nat, int>)
    requires queue != [] && Searching(calls, seeds, visited, queue, scores, {})
    ensures var Visit(va, depth) := queue[0];
            var after := Raised(scores, va, DepthScore(depth));
            && depth <= DEPTH_LIMIT && CallChain(calls, seeds, va, depth) && va in after &&
              after[va] >= DepthScore(depth)
            && (depth < DEPTH_LIMIT ==>
                Expanding(calls, seeds, va, depth, visited, queue[1..], after, Popped(visited, queue[0]), 0))
            && (depth >= DEPTH_LIMIT ==> Searching(calls, seeds, visited, queue[1..], after, {}))
  {
    var Visit(va, depth) := queue[0];
    PoppingKeepsProgress(calls, visited, queue, scores, DepthScore(depth));
    var after := Raised(scores, va, DepthScore(depth));
    assert ScoreOfAChain(calls, seeds, va, DepthScore(depth));
    assert forall v: nat :: v in after ==> ScoreOfAChain(calls, seeds, v, after[v]);
    if depth >= DEPTH_LIMIT {
      assert visited[va] == depth ==> Settled(calls, visited, after, va);
    }
  }

  /** When the queue is empty the scores are exact. */
  lemma SearchEnds(calls: Graph, seeds: set<nat>, visited: map<nat, nat>, scores: map<nat, int>, v: nat)
    requires Searching(calls, seeds, visited, [], scores, {})
    ensures v in scores <==> Near(calls, seeds, v)
    ensures forall d: nat :: d <= DEPTH_LIMIT && Distance(calls, seeds, v, d) ==>
            v in scores && scores[v] == DepthScore(d)
  {
    forall d: nat | d <= DEPTH_LIMIT && Distance(calls, seeds, v, d) ensures v in scores && scores[v] == DepthScore(d) {
      ScoresAreExact(calls, seeds, visited, scores, v, d);
    }
    if v in scores {
      assert ScoreOfAChain(calls, seeds, v, scores[v]);
      var d: nat :| d <= DEPTH_LIMIT && CallChain(calls, seeds, v, d);
      var e := ShortestExists(calls, seeds, v, d);
    }
  }

  lemma {:induction false} NothingWithoutSeeds(calls: Graph, v: nat, d: nat)
    ensures !CallChain(calls, {}, v, d)
    decreases d
  {
    if d > 0 && CallChain(calls, {}, v, d) {
      var u: nat :| CallChain(calls, {}, u, d - 1) && Edge(calls, u, v);
      NothingWithoutSeeds(calls, u, d - 1);
    }
  }

  /**
    * Whatever order the seeds come in, each score is that of the true call distance, and nothing farther than three
    * calls is scored.
    */
  method BuildEntrypointFrontierScores(calls: Graph, seeds: set<nat>) returns (scores: map<nat, int>)
    ensures forall v: nat :: v in scores <==> Near(calls, seeds, v)
    ensures DepthScore(0) == 2200 && DepthScore(1) == 1300 && DepthScore(2) == 760 && DepthScore(3) == 420
    ensures forall v: nat, d: nat :: d <= DEPTH_LIMIT && Distance(calls, seeds, v, d) ==>
            v in scores && scores[v] == DepthScore(d)
  {
    scores := map[];
    if seeds == {} {
      forall v: nat, d: nat ensures !CallChain(calls, {}, v, d) { NothingWithoutSeeds(calls, v, d); }
      return;
    }
    var visited: map<nat, nat>, queue: Queue := EnqueueSeeds(calls, seeds);
    while queue != []
      invariant Searching(calls, seeds, visited, queue, scores, {})
      decreases Unrecorded(Nodes(calls) + seeds, visited), |queue|
    {
      PoppingStaysSound(calls, seeds, visited, queue, scores);
      var Visit(va, depth) := queue[0];
      ghost var busy := Popped(visited, queue[0]);
      queue := queue[1..];
      scores := Raised(scores, va, DepthScore(depth));
      if depth < DEPTH_LIMIT {
        visited, queue := Expand(calls, seeds, va, depth, visited, queue, scores, busy);
      }
    }
    forall v: nat
      ensures v in scores <==> Near(calls, seeds, v)
      ensures forall d: nat :: d <= DEPTH_LIMIT && Distance(calls, seeds, v, d) ==>
              v in scores && scores[v] == DepthScore(d)
    {
      SearchEnds(calls, seeds, visited, scores, v);
    }
  }
}
