/** The linear code blocks are cut from, and the paths through it, which the graph has to preserve. */
module LinearCode {
  import opened Collections
  import opened Lift

  const U64_MAX: nat := 0xFFFF_FFFF_FFFF_FFFF

  predicate HasTarget(op: Op) {
    op.Branch? || op.Jump?
  }

  predicate Terminator(op: Op) {
    HasTarget(op) || op.Return?
  }

  ghost predicate Ascending(code: seq<Instr>) {
    forall i, j :: 0 <= i < j < |code| ==> code[i].va < code[j].va
  }

  ghost predicate AddressOfInstruction(code: seq<Instr>, x: nat) {
    exists j :: 0 <= j < |code| && code[j].va == x
  }

  /** A branch or jump into the function's own span lands on an instruction. */
  ghost predicate TargetsLandOnInstructions(code: seq<Instr>) {
    forall i :: 0 <= i < |code| && HasTarget(code[i].op) && code[i].target.Some? &&
                code[0].va <= code[i].target.value <= code[|code| - 1].va ==>
                  AddressOfInstruction(code, code[i].target.value)
  }

  /** What a disassembly of consecutive 4-byte words with 4-byte-aligned branches always gives. */
  ghost predicate WellFormed(code: seq<Instr>) {
    Ascending(code) && (forall i :: 0 <= i < |code| ==> code[i].va < U64_MAX) && TargetsLandOnInstructions(code)
  }

  /** Control can pass from instruction `i` to instruction `j`, a guard only ever falling through. */
  predicate Step(code: seq<Instr>, i: nat, j: nat)
    requires i < |code| && j < |code|
  {
    match code[i].op
    case Branch => code[i].target == Some(code[j].va) || j == i + 1
    case Jump => code[i].target == Some(code[j].va)
    case Return => false
    case _ => j == i + 1
  }

  ghost predicate InRange(code: seq<Instr>, p: seq<nat>) {
    forall k :: 0 <= k < |p| ==> p[k] < |code|
  }

  /** A path through the linear code from its first instruction. */
  ghost predicate Path(code: seq<Instr>, p: seq<nat>) {
    |p| > 0 && p[0] == 0 && InRange(code, p) && forall k :: 0 <= k < |p| - 1 ==> Step(code, p[k], p[k + 1])
  }

  /** The instructions a path executes. */
  ghost function Trace(code: seq<Instr>, p: seq<nat>): (t: seq<Instr>)
    requires InRange(code, p)
    ensures |t| == |p| && forall k :: 0 <= k < |p| ==> t[k] == code[p[k]]
  {
    seq(|p|, k requires 0 <= k < |p| => code[p[k]])
  }

  lemma PathPrefix(code: seq<Instr>, p: seq<nat>, n: nat)
    requires Path(code, p) && 0 < n <= |p|
    ensures Path(code, p[..n])
  {
  }

  /** The addresses that open a block among the first `k` instructions' contributions. */
  ghost predicate LeaderVa(code: seq<Instr>, k: nat, x: nat)
    requires k <= |code|
  {
    || (|code| > 0 && x == code[0].va)
    || (exists i :: 0 <= i < k && HasTarget(code[i].op) && code[i].target == Some(x))
    || (exists i :: 0 <= i < k && i + 1 < |code| && Terminator(code[i].op) && code[i + 1].va == x)
  }

  ghost predicate IsLeader(code: seq<Instr>, p: nat)
    requires p < |code|
  {
    LeaderVa(code, |code|, code[p].va)
  }

  /** The number of instructions before address `x`. */
  ghost function Below(code: seq<Instr>, x: nat): (n: nat)
    requires Ascending(code)
    ensures n <= |code|
    ensures forall j :: 0 <= j < |code| ==> (code[j].va < x <==> j < n)
  {
    if code == [] then 0
    else if code[|code| - 1].va < x then |code|
    else Below(code[..|code| - 1], x)
  }

  lemma BelowAt(code: seq<Instr>, p: nat)
    requires Ascending(code) && p < |code|
    ensures Below(code, code[p].va) == p
  {
  }

  lemma BelowMonotone(code: seq<Instr>, x: nat, y: nat)
    requires Ascending(code) && x <= y
    ensures Below(code, x) <= Below(code, y)
  {
    var n := Below(code, x);
    assert n > 0 ==> code[n - 1].va < x;
  }

  /** A leader with instructions of its own is an instruction address. */
  lemma LeaderLands(code: seq<Instr>, x: nat, end: nat)
    requires WellFormed(code) && LeaderVa(code, |code|, x)
    requires |code| > 0 && x < code[0].va ==> end <= code[0].va
    requires Below(code, x) < Below(code, end)
    ensures code[Below(code, x)].va == x
  {
    var b := Below(code, x);
    if AddressOfInstruction(code, x) {
      var j :| 0 <= j < |code| && code[j].va == x;
      BelowAt(code, j);
    }
  }
}
