/** Entry paths against back edges: the reachability argument and the dominator argument agree. */
module EntryPaths {
  import opened Collections
  import opened Graphs
  import opened Dominators

  /** Control can be at `v` without having come back to `header` since it started. */
  ghost predicate EntryPath(g: Graph, header: nat, v: nat) {
    exists p :: PathBetween(g, 0, p, v) && header !in p[1..]
  }

  function Without(targets: seq<nat>, header: nat): (r: seq<nat>)
    ensures forall t :: t in r <==> t in targets && t != header
  {
    if targets == [] then []
    else (if targets[0] == header then [] else [targets[0]]) + Without(targets[1..], header)
  }

  /** The graph with every edge into `header` taken away. */
  function Cut(g: Graph, header: nat): Graph {
    map b | b in g :: Without(g[b], header)
  }

  lemma CutEdges(g: Graph, header: nat, u: nat, v: nat)
    ensures Edge(Cut(g, header), u, v) <==> Edge(g, u, v) && v != header
  {
  }

  lemma CutPaths(g: Graph, header: nat, p: seq<nat>, v: nat)
    ensures PathBetween(Cut(g, header), 0, p, v) <==> PathBetween(g, 0, p, v) && header !in p[1..]
  {
    forall i | 0 <= i < |p| - 1
      ensures Edge(Cut(g, header), p[i], p[i + 1]) <==> Edge(g, p[i], p[i + 1]) && p[i + 1] != header
    {
      CutEdges(g, header, p[i], p[i + 1]);
    }
    if |p| > 0 {
      var tail := p[1..];
      assert forall i :: 0 <= i < |p| - 1 ==> tail[i] == p[i + 1];
      if PathBetween(Cut(g, header), 0, p, v) {
        forall i | 0 <= i < |tail| ensures tail[i] != header {
          assert Edge(Cut(g, header), p[i], p[i + 1]);
        }
      }
      if PathBetween(g, 0, p, v) && header !in tail {
        forall i | 0 <= i < |p| - 1 ensures Edge(Cut(g, header), p[i], p[i + 1]) {
          assert tail[i] in tail;
        }
      }
    }
  }

  method BeforeLoop(g: Graph, header: nat) returns (before: set<nat>)
    ensures forall v: nat :: v in before <==> EntryPath(g, header, v)
  {
    var after := ReachableAfter(Cut(g, header), 0);
    before := after + {0};
    LiveIsReachable(Cut(g, header), after);
    forall v: nat ensures v in before <==> EntryPath(g, header, v) {
      assert v in before <==> Reaches(Cut(g, header), 0, v);
      if Reaches(Cut(g, header), 0, v) {
        var p :| PathBetween(Cut(g, header), 0, p, v);
        CutPaths(g, header, p, v);
      }
      if EntryPath(g, header, v) {
        var p :| PathBetween(g, 0, p, v) && header !in p[1..];
        CutPaths(g, header, p, v);
      }
    }
  }

  /** Away from block 0, an entry path to `v` is exactly a witness that the header does not dominate `v`. */
  lemma EntryPathIffNotDominated(g: Graph, header: nat, v: nat)
    requires header != 0
    ensures EntryPath(g, header, v) <==> !Dominates(g, header, v)
  {
    forall p | PathBetween(g, 0, p, v) ensures header in p[1..] <==> header in p {
      assert p == [p[0]] + p[1..];
    }
  }

  /** Any path from block 0 can be cut back to one that never returns to it. */
  lemma {:induction false} ShedReturns(g: Graph, p: seq<nat>, v: nat) returns (q: seq<nat>)
    requires PathBetween(g, 0, p, v)
    ensures PathBetween(g, 0, q, v) && 0 !in q[1..]
    decreases |p|
  {
    if 0 in p[1..] {
      var i :| 0 <= i < |p[1..]| && p[1..][i] == 0;
      assert PathBetween(g, 0, p[i + 1..], v);
      q := ShedReturns(g, p[i + 1..], v);
    } else {
      q := p;
    }
  }

  /** At block 0 the walk sees every reachable block as an entry path, although block 0 dominates them all. */
  lemma EntryBlockDominatesItsEntryPaths(g: Graph, v: nat)
    ensures EntryPath(g, 0, v) <==> Reaches(g, 0, v)
    ensures Dominates(g, 0, v)
  {
    if Reaches(g, 0, v) {
      var p :| PathBetween(g, 0, p, v);
      var q := ShedReturns(g, p, v);
    }
    forall p | PathBetween(g, 0, p, v) ensures 0 in p {
      assert p[0] in p;
    }
  }

  /**
    * When the two classifications agree: the walk calls `v` an entry path exactly when the header
    * does not dominate it, unless the header is block 0 itself and `v` is reachable.
    */
  lemma ClassificationsAgreeExactlyAwayFromTheEntry(g: Graph, header: nat, v: nat)
    ensures (EntryPath(g, header, v) <==> !Dominates(g, header, v)) <==> (header != 0 || !Reaches(g, 0, v))
  {
    if header == 0 {
      EntryBlockDominatesItsEntryPaths(g, v);
    } else {
      EntryPathIffNotDominated(g, header, v);
    }
  }

  /** A loop back to block 0: the walk takes the back edge's source for an entry path. */
  lemma LoopAtTheEntryIsMisread()
    ensures var g: Graph := map[0 := [1], 1 := [0]];
            IsLoopHeader(g, 0) && Edge(g, 1, 0) && Dominates(g, 0, 1) && EntryPath(g, 0, 1)
  {
    var g: Graph := map[0 := [1], 1 := [0]];
    assert PathBetween(g, 0, [0, 1], 1);
    EntryBlockDominatesItsEntryPaths(g, 1);
    assert Reaches(g, 0, 1) && Edge(g, 1, 0);
  }

  // ---- The check itself ------------------------------------------------------------------------

  datatype SiteKey = SiteKey(tag: string, value: nat)

  /** A loop-entry annotation record: its header, the register it says was lost, its candidates' paths. */
  datatype LoopRecord = LoopRecord(header: nat, register: string, candidates: seq<Option<SiteKey>>)

  datatype Violation =
    | NotInFunction
    | NotAHeader
    | NeverWritten
    | PathNotABlock(index: nat)
    | NotAPredecessor(index: nat)
    | BackEdgeValue(index: nat)

  /** Some block under the header, or the header itself, writes the register. */
  ghost predicate WrittenUnder(g: Graph, writes: map<nat, set<string>>, header: nat, register: string) {
    exists b :: Reaches(g, header, b) && b in writes && register in writes[b]
  }

  /** A candidate's path is a predecessor of the header that control can be on before the loop. */
  ghost predicate SoundPath(g: Graph, header: nat, path: Option<SiteKey>) {
    path.Some? && path.value.tag == "block" && Edge(g, path.value.value, header) &&
      EntryPath(g, header, path.value.value)
  }

  ghost predicate SoundRecord(g: Graph, writes: map<nat, set<string>>, r: LoopRecord) {
    && r.header in g && IsLoopHeader(g, r.header) && WrittenUnder(g, writes, r.header, r.register)
    && forall i :: 0 <= i < |r.candidates| ==> SoundPath(g, r.header, r.candidates[i])
  }

  method AnyWrites(blocks: set<nat>, writes: map<nat, set<string>>, register: string) returns (found: bool)
    ensures found <==> exists b :: b in blocks && b in writes && register in writes[b]
  {
    found := false;
    var todo := blocks;
    while todo != {}
      invariant todo <= blocks
      invariant found <==> exists b :: b in blocks && b !in todo && b in writes && register in writes[b]
    {
      var b :| b in todo;
      todo := todo - {b};
      if b in writes && register in writes[b] {
        found := true;
      }
    }
  }

  lemma ReachesIsStartOrAfter(g: Graph, a: nat, v: nat)
    ensures Reaches(g, a, v) <==> v == a || ReachesAfter(g, a, v)
  {
    ReachesSelf(g, a);
    if ReachesAfter(g, a, v) {
      var u :| Reaches(g, a, u) && Edge(g, u, v);
      ReachesStep(g, a, u, v);
    }
    if Reaches(g, a, v) && v != a {
      var p :| PathBetween(g, a, p, v);
      PathShrinks(g, a, p, v);
      EveryNodeOfAPathIsReached(g, a, p, v, |p| - 2);
    }
  }

  /** A predecessor of the header that control only reaches through the header. */
  ghost predicate Late(g: Graph, header: nat, path: Option<SiteKey>) {
    path.Some? && path.value.tag == "block" && Edge(g, path.value.value, header) &&
      !EntryPath(g, header, path.value.value)
  }

  method CheckCandidates(g: Graph, header: nat, incoming: seq<nat>, before: set<nat>, candidates: seq<Option<SiteKey>>)
    returns (bad: seq<Violation>)
    requires forall b: nat :: b in incoming <==> Edge(g, b, header)
    requires forall v: nat :: v in before <==> EntryPath(g, header, v)
    ensures bad == [] <==> forall k :: 0 <= k < |candidates| ==> SoundPath(g, header, candidates[k])
    ensures forall k: nat :: BackEdgeValue(k) in bad <==> k < |candidates| && Late(g, header, candidates[k])
  {
    bad := [];
    for i := 0 to |candidates|
      invariant bad == [] <==> forall k :: 0 <= k < i ==> SoundPath(g, header, candidates[k])
      invariant forall k: nat :: BackEdgeValue(k) in bad <==> k < i && Late(g, header, candidates[k])
    {
      var path := candidates[i];
      if path.None? || path.value.tag != "block" {
        bad := bad + [PathNotABlock(i)];
      } else if path.value.value !in incoming {
        bad := bad + [NotAPredecessor(i)];
      } else if path.value.value !in before {
        bad := bad + [BackEdgeValue(i)];
      }
    }
  }

  /** The predecessors of one block, in list order. */
  method IncomingOf(g: Graph, header: nat) returns (incoming: seq<nat>)
    ensures forall b: nat :: b in incoming <==> Edge(g, b, header)
  {
    var preds := CollectPreds(g);
    incoming := Succs(preds, header);
    forall b: nat ensures b in incoming <==> Edge(g, b, header) {
      assert Edge(preds, header, b) <==> Edge(g, b, header);
    }
  }

  /** Whether the register is written in the header or in anything the header reaches. */
  method IsWrittenUnder(g: Graph, writes: map<nat, set<string>>, header: nat, register: string) returns (written: bool)
    ensures written == WrittenUnder(g, writes, header, register)
  {
    var body := ReachableAfter(g, header);
    written := AnyWrites(body + {header}, writes, register);
    forall b: nat ensures b in body + {header} <==> Reaches(g, header, b) {
      ReachesIsStartOrAfter(g, header, b);
    }
  }

  /** The violations of one record. There are none exactly when the record is sound. */
  method CheckLoopRecord(g: Graph, writes: map<nat, set<string>>, r: LoopRecord) returns (bad: seq<Violation>)
    ensures bad == [] <==> SoundRecord(g, writes, r)
    ensures r.header in g ==>
            forall k: nat :: BackEdgeValue(k) in bad <==> k < |r.candidates| && Late(g, r.header, r.candidates[k])
  {
    if r.header !in g {
      return [NotInFunction];
    }
    bad := [];
    var before := BeforeLoop(g, r.header);
    var incoming := IncomingOf(g, r.header);
    var headers := NaturalLoopHeaders(g);
    if r.header !in headers {
      bad := bad + [NotAHeader];
    }
    var written := IsWrittenUnder(g, writes, r.header, r.register);
    if !written {
      bad := bad + [NeverWritten];
    }
    var late := CheckCandidates(g, r.header, incoming, before, r.candidates);
    bad := bad + late;
  }

  /**
    * A record the check accepts names no back edge: none of its paths leaves a block its header
    * dominates, unless the header is the function's entry block.
    */
  lemma AcceptedRecordsNameEntryPaths(g: Graph, writes: map<nat, set<string>>, r: LoopRecord, i: nat)
    requires SoundRecord(g, writes, r) && i < |r.candidates| && r.header != 0
    ensures var v := r.candidates[i].value.value; Reaches(g, 0, v) && Edge(g, v, r.header) && !Dominates(g, r.header, v)
  {
    var v := r.candidates[i].value.value;
    assert SoundPath(g, r.header, r.candidates[i]);
    EntryPathIffNotDominated(g, r.header, v);
  }
}
