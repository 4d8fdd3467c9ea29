/** The graph runs what the linear code runs, before and after stranded blocks are dropped. */
module MeaningPreservation {
  import opened Collections
  import opened Graphs
  import opened Lift
  import opened LinearCode
  import opened Blocks
  import opened Cfg
  import opened Pruning

  /** A path through blocks from block 0, along successor lists. */
  ghost predicate BlockPath(ir: seq<Block>, q: seq<nat>) {
    && |q| > 0 && q[0] == 0 && (forall k :: 0 <= k < |q| ==> q[k] < |ir|)
    && forall k :: 0 <= k < |q| - 1 ==> q[k + 1] in ir[q[k]].succs
  }

  /** The instructions a block path executes. */
  ghost function Spell(ir: seq<Block>, q: seq<nat>): seq<Instr>
    requires forall k :: 0 <= k < |q| ==> q[k] < |ir|
  {
    if q == [] then [] else Spell(ir, q[..|q| - 1]) + ir[q[|q| - 1]].instrs
  }

  /** `w` can be executed from the start of the linear code. */
  ghost predicate LinearRun(code: seq<Instr>, w: seq<Instr>) {
    exists p :: Path(code, p) && Trace(code, p) == w
  }

  /** `w` can be executed from the entry block, stopping anywhere inside the last block. */
  ghost predicate BlockRun(ir: seq<Block>, w: seq<Instr>) {
    w != [] && exists q :: BlockPath(ir, q) && w <= Spell(ir, q)
  }

  // ---- Blocks against linear code --------------------------------------------------------------

  /** Blocks cut from `code` whose edges are exactly the control transfers out of their last instruction. */
  ghost predicate Resolved(code: seq<Instr>, cuts: seq<nat>, blocks: seq<Block>) {
    && WellFormed(code) && Layout(code, cuts, blocks) && Numbered(blocks)
    && (forall i, j :: 0 <= i < |blocks| && j in blocks[i].succs ==> j < |blocks|)
    && (forall i, j :: 0 <= i < |blocks| && 0 <= j < |blocks| ==> (j in blocks[i].succs <==> Follows(blocks, i, j)))
  }

  /** Inside a block control only falls through. */
  lemma InsideABlock(code: seq<Instr>, cuts: seq<nat>, blocks: seq<Block>, b: nat, x: nat, y: nat)
    requires Resolved(code, cuts, blocks) && b < |blocks|
    requires cuts[b] <= x && x + 1 < cuts[b + 1] && y < |code|
    ensures x + 1 < |code| && (Step(code, x, y) <==> y == x + 1)
  {
    assert IsSlice(code, cuts, blocks, b);
    assert x + 1 !in cuts by {
      assert forall k :: 0 <= k < |cuts| ==> cuts[k] <= cuts[b] || cuts[b + 1] <= cuts[k];
    }
    assert !IsLeader(code, x + 1);
  }

  /** Out of a block's last instruction control passes exactly to the starts of its successors. */
  lemma LeavingABlock(code: seq<Instr>, cuts: seq<nat>, blocks: seq<Block>, b: nat, y: nat)
    requires Resolved(code, cuts, blocks) && b < |blocks| && y < |code|
    ensures 0 < cuts[b + 1] <= |code|
    ensures Step(code, cuts[b + 1] - 1, y) <==> exists c :: c in blocks[b].succs && cuts[c] == y
  {
    assert IsSlice(code, cuts, blocks, b);
    var last := cuts[b + 1] - 1;
    assert LastOf(blocks[b]) == code[last];
    forall c: nat | c < |blocks|
      ensures blocks[c].startVa == code[cuts[c]].va && cuts[c] < |code|
      ensures Step(code, last, cuts[c]) <==> c in blocks[b].succs
    {
      assert IsSlice(code, cuts, blocks, c);
      assert cuts[c] == cuts[b + 1] <==> c == b + 1;
    }
    if Step(code, last, y) {
      StepsLandOnCuts(code, cuts, blocks, b, y);
      var c :| 0 <= c < |blocks| && cuts[c] == y;
    }
  }

  lemma StepsLandOnCuts(code: seq<Instr>, cuts: seq<nat>, blocks: seq<Block>, b: nat, y: nat)
    requires Resolved(code, cuts, blocks) && b < |blocks| && y < |code|
    requires 0 < cuts[b + 1] <= |code| && Step(code, cuts[b + 1] - 1, y)
    ensures exists c :: 0 <= c < |blocks| && cuts[c] == y
  {
    var last := cuts[b + 1] - 1;
    if y != last + 1 {
      assert IsLeader(code, y);
      assert y in cuts;
    }
    assert y in cuts;
  }

  // ---- From block paths to linear paths --------------------------------------------------------

  ghost function Span(a: nat, b: nat): (s: seq<nat>)
    requires a <= b
    ensures |s| == b - a && forall k :: 0 <= k < |s| ==> s[k] == a + k
  {
    seq(b - a, k => a + k)
  }

  /** The positions a block path visits. */
  ghost function Positions(cuts: seq<nat>, q: seq<nat>): seq<nat>
    requires StrictlyAscending(cuts) && forall k :: 0 <= k < |q| ==> q[k] + 1 < |cuts|
  {
    if q == [] then [] else Positions(cuts, q[..|q| - 1]) + Span(cuts[q[|q| - 1]], cuts[q[|q| - 1] + 1])
  }

  /** One block, executed from its first instruction to its last. */
  lemma BlockSpan(code: seq<Instr>, cuts: seq<nat>, blocks: seq<Block>, b: nat)
    requires Resolved(code, cuts, blocks) && b < |blocks|
    ensures cuts[b] < cuts[b + 1] <= |code|
    ensures var tail := Span(cuts[b], cuts[b + 1]);
            && InRange(code, tail) && Trace(code, tail) == blocks[b].instrs
            && forall k :: 0 <= k < |tail| - 1 ==> Step(code, tail[k], tail[k + 1])
  {
    assert IsSlice(code, cuts, blocks, b);
    var tail := Span(cuts[b], cuts[b + 1]);
    forall k | 0 <= k < |tail| - 1 ensures Step(code, tail[k], tail[k + 1]) {
      InsideABlock(code, cuts, blocks, b, tail[k], tail[k + 1]);
    }
  }

  lemma JoinPaths(code: seq<Instr>, p: seq<nat>, tail: seq<nat>)
    requires Path(code, p) && InRange(code, tail) && |tail| > 0
    requires forall k :: 0 <= k < |tail| - 1 ==> Step(code, tail[k], tail[k + 1])
    requires Step(code, p[|p| - 1], tail[0])
    ensures Path(code, p + tail) && Trace(code, p + tail) == Trace(code, p) + Trace(code, tail)
  {
    var all := p + tail;
    forall k | 0 <= k < |all| - 1 ensures Step(code, all[k], all[k + 1]) {
      if k >= |p| {
        assert all[k] == tail[k - |p|] && all[k + 1] == tail[k - |p| + 1];
      }
    }
  }

  /** The last block of a path, appended to the linear path of the blocks before it. */
  lemma OneMoreBlock(code: seq<Instr>, cuts: seq<nat>, blocks: seq<Block>, r: seq<nat>, b: nat)
    requires Resolved(code, cuts, blocks) && BlockPath(blocks, r) && b < |blocks| && b in blocks[r[|r| - 1]].succs
    requires var p := Positions(cuts, r);
             Path(code, p) && Trace(code, p) == Spell(blocks, r) && p[|p| - 1] == cuts[r[|r| - 1] + 1] - 1
    ensures var p := Positions(cuts, r) + Span(cuts[b], cuts[b + 1]);
            && Path(code, p) && Trace(code, p) == Spell(blocks, r) + blocks[b].instrs && p[|p| - 1] == cuts[b + 1] - 1
  {
    BlockSpan(code, cuts, blocks, b);
    LeavingABlock(code, cuts, blocks, r[|r| - 1], cuts[b]);
    JoinPaths(code, Positions(cuts, r), Span(cuts[b], cuts[b + 1]));
  }

  lemma {:induction false} BlockPathIsLinear(code: seq<Instr>, cuts: seq<nat>, blocks: seq<Block>, q: seq<nat>)
    requires Resolved(code, cuts, blocks) && BlockPath(blocks, q)
    ensures var p := Positions(cuts, q);
            && Path(code, p) && Trace(code, p) == Spell(blocks, q)
            && p[|p| - 1] == cuts[q[|q| - 1] + 1] - 1
    decreases |q|
  {
    var b, r := q[|q| - 1], q[..|q| - 1];
    if |q| == 1 {
      BlockSpan(code, cuts, blocks, b);
      assert Positions(cuts, q) == Span(cuts[b], cuts[b + 1]);
      assert Spell(blocks, q) == blocks[b].instrs;
    } else {
      assert BlockPath(blocks, r);
      BlockPathIsLinear(code, cuts, blocks, r);
      OneMoreBlock(code, cuts, blocks, r, b);
    }
  }

  // ---- From linear paths to block paths --------------------------------------------------------

  /** `q` covers `p`, whose last position lies in `q`'s last block. */
  ghost predicate Covers(cuts: seq<nat>, q: seq<nat>, p: seq<nat>)
    requires StrictlyAscending(cuts) && forall k :: 0 <= k < |q| ==> q[k] + 1 < |cuts|
  {
    |q| > 0 && p <= Positions(cuts, q) && |Positions(cuts, q[..|q| - 1])| < |p|
  }

  lemma {:induction false} LinearPathIsCovered(code: seq<Instr>, cuts: seq<nat>, blocks: seq<Block>, p: seq<nat>)
    returns (q: seq<nat>)
    requires Resolved(code, cuts, blocks) && Path(code, p)
    ensures BlockPath(blocks, q) && Covers(cuts, q, p)
    decreases |p|
  {
    if |p| == 1 {
      q := [0];
      assert |blocks| > 0;
      assert IsSlice(code, cuts, blocks, 0);
      assert q[..0] == [];
      assert Positions(cuts, q) == Span(cuts[0], cuts[1]);
    } else {
      var p', y := p[..|p| - 1], p[|p| - 1];
      PathPrefix(code, p, |p| - 1);
      var q' := LinearPathIsCovered(code, cuts, blocks, p');
      q := ExtendCover(code, cuts, blocks, p', q', y);
      assert p == p' + [y];
    }
  }

  lemma ExtendCover(code: seq<Instr>, cuts: seq<nat>, blocks: seq<Block>, p: seq<nat>, q: seq<nat>, y: nat)
    returns (q': seq<nat>)
    requires Resolved(code, cuts, blocks) && Path(code, p) && BlockPath(blocks, q) && Covers(cuts, q, p)
    requires y < |code| && Step(code, p[|p| - 1], y)
    ensures BlockPath(blocks, q') && Covers(cuts, q', p + [y])
  {
    var b, x := q[|q| - 1], p[|p| - 1];
    CoverEnd(Positions(cuts, q[..|q| - 1]), cuts[b], cuts[b + 1], p);
    if x + 1 < cuts[b + 1] {
      InsideABlock(code, cuts, blocks, b, x, y);
      q' := q;
    } else {
      q' := EnterNext(code, cuts, blocks, p, q, y);
    }
  }

  /** A covered path that has used up its last block goes on in a successor. */
  lemma EnterNext(code: seq<Instr>, cuts: seq<nat>, blocks: seq<Block>, p: seq<nat>, q: seq<nat>, y: nat)
    returns (q': seq<nat>)
    requires Resolved(code, cuts, blocks) && BlockPath(blocks, q) && p == Positions(cuts, q) && |p| > 0
    requires p[|p| - 1] + 1 == cuts[q[|q| - 1] + 1]
    requires y < |code| && Step(code, p[|p| - 1], y)
    ensures BlockPath(blocks, q') && Covers(cuts, q', p + [y])
  {
    LeavingABlock(code, cuts, blocks, q[|q| - 1], y);
    var c :| c in blocks[q[|q| - 1]].succs && cuts[c] == y;
    q' := q + [c];
    AppendBlock(blocks, q, c);
    BlockSpan(code, cuts, blocks, c);
    CoverNext(cuts, p, q, c);
  }

  lemma AppendBlock(ir: seq<Block>, q: seq<nat>, c: nat)
    requires BlockPath(ir, q) && c < |ir| && c in ir[q[|q| - 1]].succs
    ensures BlockPath(ir, q + [c])
  {
  }

  lemma CoverNext(cuts: seq<nat>, p: seq<nat>, q: seq<nat>, c: nat)
    requires StrictlyAscending(cuts) && c + 1 < |cuts| && cuts[c] < cuts[c + 1]
    requires |q| > 0 && forall k :: 0 <= k < |q| ==> q[k] + 1 < |cuts|
    requires p == Positions(cuts, q)
    ensures Covers(cuts, q + [c], p + [cuts[c]])
  {
    assert (q + [c])[..|q|] == q;
    PrefixOfOneMore(p, Span(cuts[c], cuts[c + 1]), cuts[c]);
  }

  lemma PrefixOfOneMore(p: seq<nat>, tail: seq<nat>, x: nat)
    requires |tail| > 0 && tail[0] == x
    ensures p + [x] <= p + tail
  {
    assert tail == [x] + tail[1..];
  }

  /** Where a prefix stands that ends inside the span behind `before`, and what comes next there. */
  lemma CoverEnd(before: seq<nat>, lo: nat, hi: nat, p: seq<nat>)
    requires lo <= hi && p <= before + Span(lo, hi) && |before| < |p|
    ensures var x := p[|p| - 1];
            && lo <= x < hi
            && (x + 1 == hi ==> p == before + Span(lo, hi))
            && (x + 1 < hi ==> p + [x + 1] <= before + Span(lo, hi))
  {
    var all, at := before + Span(lo, hi), |p| - 1 - |before|;
    assert p[|p| - 1] == all[|p| - 1] == lo + at;
    if at + 1 < hi - lo {
      assert all[|p|] == lo + at + 1;
      assert p + [all[|p|]] == all[..|p| + 1];
    }
  }

  /** The unpruned blocks mean what the linear code means. */
  lemma LinearRunsAreBlockRuns(code: seq<Instr>, cuts: seq<nat>, blocks: seq<Block>, w: seq<Instr>)
    requires Resolved(code, cuts, blocks) && LinearRun(code, w)
    ensures BlockRun(blocks, w)
  {
    var p :| Path(code, p) && Trace(code, p) == w;
    var q := LinearPathIsCovered(code, cuts, blocks, p);
    BlockPathIsLinear(code, cuts, blocks, q);
    assert w <= Trace(code, Positions(cuts, q));
  }

  lemma BlockRunsAreLinearRuns(code: seq<Instr>, cuts: seq<nat>, blocks: seq<Block>, w: seq<Instr>)
    requires Resolved(code, cuts, blocks) && BlockRun(blocks, w)
    ensures LinearRun(code, w)
  {
    var q :| BlockPath(blocks, q) && w <= Spell(blocks, q);
    BlockPathIsLinear(code, cuts, blocks, q);
    var p := Positions(cuts, q);
    PathPrefix(code, p, |w|);
    assert Trace(code, p[..|w|]) == w;
  }

  lemma BlocksMeanTheCode(code: seq<Instr>, cuts: seq<nat>, blocks: seq<Block>, w: seq<Instr>)
    requires Resolved(code, cuts, blocks)
    ensures LinearRun(code, w) <==> BlockRun(blocks, w)
  {
    if LinearRun(code, w) {
      LinearRunsAreBlockRuns(code, cuts, blocks, w);
    }
    if BlockRun(blocks, w) {
      BlockRunsAreLinearRuns(code, cuts, blocks, w);
    }
  }

  // ---- Pruning and renumbering -----------------------------------------------------------------

  ghost function Renamed(origin: seq<nat>, q: seq<nat>): (r: seq<nat>)
    requires forall k :: 0 <= k < |q| ==> q[k] < |origin|
    ensures |r| == |q| && forall k :: 0 <= k < |q| ==> r[k] == origin[q[k]]
  {
    seq(|q|, k requires 0 <= k < |q| => origin[q[k]])
  }

  lemma {:induction false} RenamingKeepsTheSpelling(before: seq<Block>, after: seq<Block>, origin: seq<nat>,
                                                    q: seq<nat>)
    requires Renumbers(before, after, origin) && forall k :: 0 <= k < |q| ==> q[k] < |after|
    ensures Spell(after, q) == Spell(before, Renamed(origin, q))
    decreases |q|
  {
    if |q| > 0 {
      var r, last := q[..|q| - 1], q[|q| - 1];
      RenamingKeepsTheSpelling(before, after, origin, r);
      assert Carries(before, after, origin, last);
      assert Renamed(origin, q)[..|q| - 1] == Renamed(origin, r);
    }
  }

  /** Whatever was dropped, no block an entry path visits was. */
  lemma PruningKeepsEntryPaths(before: seq<Block>, byStart: map<nat, nat>, after: seq<Block>, origin: seq<nat>,
                               w: seq<Instr>)
    requires EdgesInside(before, byStart) && Renumbers(before, after, origin)
    requires forall b: nat :: b in origin <==> b < |before| && !Stranded(before, byStart, b)
    ensures BlockRun(before, w) <==> BlockRun(after, w)
  {
    if |before| == 0 {
    } else {
      ReachesSelf(FlowGraph(before, byStart, false), 0);
      assert 0 in origin;
      assert origin[0] == 0;
      if BlockRun(after, w) {
        var q :| BlockPath(after, q) && w <= Spell(after, q);
        RenamingKeepsTheSpelling(before, after, origin, q);
        forall k | 0 <= k < |q| - 1 ensures origin[q[k + 1]] in before[origin[q[k]]].succs {
          assert Carries(before, after, origin, q[k]);
        }
        assert BlockPath(before, Renamed(origin, q));
      }
      if BlockRun(before, w) {
        var q :| BlockPath(before, q) && w <= Spell(before, q);
        var q' := PathSurvives(before, byStart, after, origin, q);
        RenamingKeepsTheSpelling(before, after, origin, q');
        assert Renamed(origin, q') == q;
      }
    }
  }

  /** No block reachable without guards loses a successor: its list after pruning is its old list, renumbered. */
  lemma EntryBlocksKeepTheirSuccessors(before: seq<Block>, byStart: map<nat, nat>, after: seq<Block>,
                                       origin: seq<nat>, k: nat)
    requires EdgesInside(before, byStart) && Renumbers(before, after, origin)
    requires forall b: nat :: b in origin <==> b < |before| && !Stranded(before, byStart, b)
    requires k < |origin| && Reaches(FlowGraph(before, byStart, false), 0, origin[k])
    requires StrictlyAscending(before[origin[k]].succs)
    ensures forall i :: 0 <= i < |after[k].succs| ==> after[k].succs[i] < |origin|
    ensures Renamed(origin, after[k].succs) == before[origin[k]].succs
  {
    var succs, kept := before[origin[k]].succs, after[k].succs;
    assert Carries(before, after, origin, k);
    forall i | 0 <= i < |kept| ensures kept[i] < |origin| {
      assert kept[i] in kept;
    }
    var renamed := Renamed(origin, kept);
    forall s: nat | s in succs ensures s in renamed {
      ReachesStep(FlowGraph(before, byStart, false), 0, origin[k], s);
      assert s in origin;
      var j: nat :| j < |origin| && origin[j] == s;
      var i :| 0 <= i < |kept| && kept[i] == j;
      assert renamed[i] == s;
    }
    AscendingUnique(renamed, succs);
  }

  lemma PathSurvives(before: seq<Block>, byStart: map<nat, nat>, after: seq<Block>, origin: seq<nat>, q: seq<nat>)
    returns (q': seq<nat>)
    requires EdgesInside(before, byStart) && Renumbers(before, after, origin)
    requires forall b: nat :: b in origin <==> b < |before| && !Stranded(before, byStart, b)
    requires BlockPath(before, q) && |origin| > 0 && origin[0] == 0
    ensures BlockPath(after, q') && Renamed(origin, q') == q
  {
    var g := FlowGraph(before, byStart, false);
    assert PathBetween(g, 0, q, q[|q| - 1]);
    forall k: nat | k < |q| ensures q[k] in origin {
      EveryNodeOfAPathIsReached(g, 0, q, q[|q| - 1], k);
    }
    var index := (k: nat) requires k < |q| => IndexOf(origin, q[k]);
    q' := seq(|q|, index);
    forall k | 0 <= k < |q| - 1 ensures q'[k + 1] in after[q'[k]].succs {
      assert Carries(before, after, origin, q'[k]);
    }
  }

  ghost function IndexOf(s: seq<nat>, x: nat): (i: nat)
    ensures x in s ==> i < |s| && s[i] == x
  {
    if x in s then var i: nat :| i < |s| && s[i] == x; i else 0
  }

  lemma {:induction false} PredsDoNotSpell(a: seq<Block>, b: seq<Block>, q: seq<nat>)
    requires SameButPreds(a, b) && forall k :: 0 <= k < |q| ==> q[k] < |a|
    ensures Spell(a, q) == Spell(b, q)
    decreases |q|
  {
    if |q| > 0 {
      PredsDoNotSpell(a, b, q[..|q| - 1]);
      assert a[q[|q| - 1]].(preds := []) == b[q[|q| - 1]].(preds := []);
    }
  }

  lemma PredecessorsDoNotMatter(a: seq<Block>, b: seq<Block>, w: seq<Instr>)
    requires SameButPreds(a, b)
    ensures BlockRun(a, w) <==> BlockRun(b, w)
  {
    forall q ensures BlockPath(a, q) <==> BlockPath(b, q) {
      assert forall k :: 0 <= k < |q| && q[k] < |a| ==> a[q[k]].(preds := []) == b[q[k]].(preds := []);
    }
    forall q | BlockPath(a, q) ensures Spell(a, q) == Spell(b, q) {
      PredsDoNotSpell(a, b, q);
    }
  }
}
