/** Cutting linear code into basic blocks. */
module Blocks {
  import opened Collections
  import opened Lift
  import opened LinearCode

  datatype Block = Block(id: nat, startVa: nat, instrs: seq<Instr>, succs: seq<nat>, preds: seq<nat>)

  /** Blocks are numbered by position and hold at least one instruction. */
  ghost predicate Numbered(blocks: seq<Block>) {
    forall b :: 0 <= b < |blocks| ==> blocks[b].id == b && |blocks[b].instrs| > 0
  }

  /** Block `b` is the slice of `code` between its cut and the next. */
  ghost predicate IsSlice(code: seq<Instr>, cuts: seq<nat>, blocks: seq<Block>, b: nat)
    requires |cuts| == |blocks| + 1 && b < |blocks|
  {
    && cuts[b] < cuts[b + 1] <= |code|
    && blocks[b].id == b
    && blocks[b].startVa == code[cuts[b]].va
    && blocks[b].instrs == code[cuts[b]..cuts[b + 1]]
  }

  /** `blocks` are the slices of `code` between the first `|blocks| + 1` positions of `cuts`. */
  ghost predicate Slices(code: seq<Instr>, cuts: seq<nat>, blocks: seq<Block>) {
    && |cuts| == |blocks| + 1 && cuts[0] == 0 && StrictlyAscending(cuts) && cuts[|blocks|] <= |code|
    && forall b :: 0 <= b < |blocks| ==> IsSlice(code, cuts, blocks, b)
  }

  /** The blocks partition the code, and a block opens exactly at each leader. */
  ghost predicate Layout(code: seq<Instr>, cuts: seq<nat>, blocks: seq<Block>) {
    && Slices(code, cuts, blocks)
    && cuts[|blocks|] == |code|
    && forall p :: 0 <= p < |code| ==> (IsLeader(code, p) <==> p in cuts)
  }

  method CollectLeaders(code: seq<Instr>) returns (leaders: seq<nat>)
    ensures StrictlyAscending(leaders)
    ensures forall x :: x in leaders <==> LeaderVa(code, |code|, x)
  {
    leaders := [];
    if |code| > 0 {
      leaders := Insert(leaders, code[0].va);
    }
    for idx := 0 to |code|
      invariant StrictlyAscending(leaders)
      invariant forall x :: x in leaders <==> LeaderVa(code, idx, x)
    {
      ghost var before := leaders;
      var ins := code[idx];
      match ins.op {
        case Branch | Jump =>
          if ins.target.Some? {
            leaders := Insert(leaders, ins.target.value);
          }
          if idx + 1 < |code| {
            leaders := Insert(leaders, code[idx + 1].va);
          }
        case Return =>
          if idx + 1 < |code| {
            leaders := Insert(leaders, code[idx + 1].va);
          }
        case _ =>
      }
      forall x ensures x in leaders <==> LeaderVa(code, idx + 1, x) {
        LeaderStep(code, idx, x);
        assert x in before <==> LeaderVa(code, idx, x);
      }
    }
  }

  lemma LeaderStep(code: seq<Instr>, k: nat, x: nat)
    requires k < |code|
    ensures LeaderVa(code, k + 1, x) <==>
            || LeaderVa(code, k, x)
            || (HasTarget(code[k].op) && code[k].target == Some(x))
            || (k + 1 < |code| && Terminator(code[k].op) && code[k + 1].va == x)
  {
  }

  /** The instructions with `start <= va < end`, in order. */
  method Between(code: seq<Instr>, start: nat, end: nat) returns (instrs: seq<Instr>)
    requires Ascending(code) && Below(code, start) <= Below(code, end)
    ensures instrs == code[Below(code, start)..Below(code, end)]
  {
    ghost var lo, hi := Below(code, start), Below(code, end);
    instrs := [];
    for idx := 0 to |code|
      invariant instrs == if idx <= lo then [] else if idx <= hi then code[lo..idx] else code[lo..hi]
    {
      if code[idx].va >= start && code[idx].va < end {
        instrs := instrs + [code[idx]];
      }
    }
  }

  function LeaderEnd(leaders: seq<nat>, i: nat): nat
    requires i < |leaders|
  {
    if i + 1 < |leaders| then leaders[i + 1] else U64_MAX
  }

  /** The position the blocks built from the first `i` leaders end at. */
  ghost function CutSoFar(code: seq<Instr>, leaders: seq<nat>, i: nat): nat
    requires Ascending(code) && i <= |leaders|
  {
    if i < |leaders| then Below(code, leaders[i]) else |code|
  }

  /** The first `i` leaders have been turned into blocks. */
  ghost predicate Progress(code: seq<Instr>, leaders: seq<nat>, i: nat, cuts: seq<nat>, blocks: seq<Block>)
    requires Ascending(code) && i <= |leaders|
  {
    && Slices(code, cuts, blocks)
    && cuts[|blocks|] == CutSoFar(code, leaders, i)
    && (forall b :: 0 <= b < |blocks| ==> blocks[b].startVa in leaders[..i])
    && (forall p :: 0 <= p < |code| && code[p].va in leaders[..i] ==> p in cuts[..|blocks|])
    && (forall b :: 0 <= b < |blocks| ==> blocks[b].succs == [] && blocks[b].preds == [])
  }

  ghost predicate AreLeaders(code: seq<Instr>, leaders: seq<nat>) {
    StrictlyAscending(leaders) && forall x :: x in leaders <==> LeaderVa(code, |code|, x)
  }

  /** What bounds the span of leader `i`: the next leader, or the end of the address space. */
  lemma LeaderSpan(code: seq<Instr>, leaders: seq<nat>, i: nat)
    requires WellFormed(code) && AreLeaders(code, leaders) && i < |leaders|
    ensures var start, end := leaders[i], LeaderEnd(leaders, i);
            && Below(code, start) <= Below(code, end) == CutSoFar(code, leaders, i + 1)
            && (|code| > 0 && start < code[0].va ==> end <= code[0].va)
            && (AddressOfInstruction(code, start) ==> Below(code, start) < Below(code, end))
  {
    var start, end := leaders[i], LeaderEnd(leaders, i);
    if start <= end { BelowMonotone(code, start, end); }
    InstructionIsInItsSpan(code, start, end);
    SpansBeforeTheCode(code, leaders, i);
  }

  lemma SpansBeforeTheCode(code: seq<Instr>, leaders: seq<nat>, i: nat)
    requires AreLeaders(code, leaders) && i < |leaders|
    ensures |code| > 0 && leaders[i] < code[0].va ==> LeaderEnd(leaders, i) <= code[0].va
  {
    if |code| > 0 {
      assert code[0].va in leaders;
      var k :| 0 <= k < |leaders| && leaders[k] == code[0].va;
      assert leaders[i] < leaders[k] ==> i < k;
    }
  }

  lemma InstructionIsInItsSpan(code: seq<Instr>, start: nat, end: nat)
    requires Ascending(code) && (start < end || forall j :: 0 <= j < |code| ==> code[j].va < end)
    ensures AddressOfInstruction(code, start) ==> Below(code, start) < Below(code, end)
  {
    if AddressOfInstruction(code, start) {
      var j :| 0 <= j < |code| && code[j].va == start;
      BelowAt(code, j);
      assert code[j].va < end;
    }
  }

  lemma SkipLeader(code: seq<Instr>, leaders: seq<nat>, i: nat, cuts: seq<nat>, blocks: seq<Block>)
    requires WellFormed(code) && AreLeaders(code, leaders) && i < |leaders|
    requires Progress(code, leaders, i, cuts, blocks)
    requires Below(code, leaders[i]) == Below(code, LeaderEnd(leaders, i))
    ensures Progress(code, leaders, i + 1, cuts, blocks)
  {
    LeaderSpan(code, leaders, i);
    assert leaders[..i + 1] == leaders[..i] + [leaders[i]];
    assert forall p :: 0 <= p < |code| && code[p].va == leaders[i] ==> AddressOfInstruction(code, leaders[i]);
  }

  lemma AppendSlice(code: seq<Instr>, cuts: seq<nat>, blocks: seq<Block>, b: Block, hi: nat)
    requires Slices(code, cuts, blocks) && cuts[|blocks|] < hi <= |code|
    requires b.id == |blocks| && b.startVa == code[cuts[|blocks|]].va && b.instrs == code[cuts[|blocks|]..hi]
    ensures Slices(code, cuts + [hi], blocks + [b])
  {
    var cuts', blocks' := cuts + [hi], blocks + [b];
    forall k | 0 <= k < |blocks'| ensures IsSlice(code, cuts', blocks', k) {
      if k < |blocks| {
        assert IsSlice(code, cuts, blocks, k);
        assert blocks'[k] == blocks[k] && cuts'[k] == cuts[k] && cuts'[k + 1] == cuts[k + 1];
      }
    }
  }

  lemma TakeLeader(code: seq<Instr>, leaders: seq<nat>, i: nat, cuts: seq<nat>, blocks: seq<Block>, b: Block)
    requires WellFormed(code) && AreLeaders(code, leaders) && i < |leaders|
    requires Progress(code, leaders, i, cuts, blocks)
    requires Below(code, leaders[i]) < Below(code, LeaderEnd(leaders, i))
    requires b == Block(|blocks|, leaders[i], code[Below(code, leaders[i])..Below(code, LeaderEnd(leaders, i))], [], [])
    ensures Progress(code, leaders, i + 1, cuts + [Below(code, LeaderEnd(leaders, i))], blocks + [b])
  {
    LeaderSpan(code, leaders, i);
    LeaderLands(code, leaders[i], LeaderEnd(leaders, i));
    var hi := Below(code, LeaderEnd(leaders, i));
    AppendSlice(code, cuts, blocks, b, hi);
    LeadersTaken(code, leaders, i, cuts, blocks, b, hi);
  }

  /** With block `b` the first `i + 1` leaders are accounted for. */
  lemma LeadersTaken(code: seq<Instr>, leaders: seq<nat>, i: nat, cuts: seq<nat>, blocks: seq<Block>, b: Block, hi: nat)
    requires Ascending(code) && i < |leaders| && Progress(code, leaders, i, cuts, blocks) && b.startVa == leaders[i]
    ensures forall k :: 0 <= k < |blocks + [b]| ==> (blocks + [b])[k].startVa in leaders[..i + 1]
    ensures forall p :: 0 <= p < |code| && code[p].va in leaders[..i + 1] ==> p in (cuts + [hi])[..|blocks + [b]|]
  {
    assert leaders[..i + 1] == leaders[..i] + [leaders[i]];
    forall p | 0 <= p < |code| && code[p].va in leaders[..i + 1] ensures p in (cuts + [hi])[..|blocks + [b]|] {
      TakenPosition(code, leaders[..i], leaders[i], cuts, hi, p);
    }
  }

  lemma TakenPosition(code: seq<Instr>, taken: seq<nat>, start: nat, cuts: seq<nat>, hi: nat, p: nat)
    requires Ascending(code) && p < |code| && |cuts| > 0 && cuts[|cuts| - 1] == Below(code, start)
    requires code[p].va in taken + [start]
    requires code[p].va in taken ==> p in cuts[..|cuts| - 1]
    ensures p in (cuts + [hi])[..|cuts|]
  {
    assert (cuts + [hi])[..|cuts|] == cuts == cuts[..|cuts| - 1] + [cuts[|cuts| - 1]];
    if code[p].va == start { BelowAt(code, p); }
  }

  lemma ProgressEnds(code: seq<Instr>, leaders: seq<nat>, cuts: seq<nat>, blocks: seq<Block>)
    requires WellFormed(code) && AreLeaders(code, leaders)
    requires Progress(code, leaders, |leaders|, cuts, blocks)
    ensures Layout(code, cuts, blocks)
  {
    assert leaders[..|leaders|] == leaders;
    forall p | 0 <= p < |code| ensures IsLeader(code, p) <==> p in cuts {
      if p in cuts {
        var b :| 0 <= b < |cuts| && cuts[b] == p;
        assert IsSlice(code, cuts, blocks, b);
      }
    }
  }

  method CutBlocks(code: seq<Instr>, leaders: seq<nat>) returns (blocks: seq<Block>, ghost cuts: seq<nat>)
    requires WellFormed(code) && AreLeaders(code, leaders)
    ensures Layout(code, cuts, blocks)
    ensures forall b :: 0 <= b < |blocks| ==> blocks[b].succs == [] && blocks[b].preds == []
  {
    blocks, cuts := [], [0];
    FirstLeader(code, leaders);
    for i := 0 to |leaders|
      invariant Progress(code, leaders, i, cuts, blocks)
    {
      LeaderSpan(code, leaders, i);
      var instrs := Between(code, leaders[i], LeaderEnd(leaders, i));
      if instrs != [] {
        var b := Block(|blocks|, leaders[i], instrs, [], []);
        TakeLeader(code, leaders, i, cuts, blocks, b);
        blocks := blocks + [b];
        cuts := cuts + [Below(code, LeaderEnd(leaders, i))];
      } else {
        SkipLeader(code, leaders, i, cuts, blocks);
      }
    }
    ProgressEnds(code, leaders, cuts, blocks);
  }

  lemma FirstLeader(code: seq<Instr>, leaders: seq<nat>)
    requires WellFormed(code) && AreLeaders(code, leaders)
    ensures Progress(code, leaders, 0, [0], [])
  {
    if |code| > 0 {
      assert code[0].va in leaders;
      assert leaders[0] <= code[0].va;
    }
  }
}
