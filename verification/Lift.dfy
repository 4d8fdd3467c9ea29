/** Lifting decoded instructions to low-level IR, with the stack-overflow guard demoted. */
module Lift {
  import opened Collections
  import opened Text

  datatype Op = Call | Branch | Jump | Return | LoadPool | RuntimeCheck | Other

  /** A decoded instruction. `hexTarget` is the address read out of `opStr`, when there is one. */
  datatype AsmInstr = AsmInstr(va: nat, mnemonic: string, opStr: string, annotation: string,
                               hexTarget: Option<nat>)

  /** A lifted instruction. `target` is the address its target text spells, when it spells one. */
  datatype Instr = Instr(va: nat, op: Op, target: Option<nat>)

  /** The scratch register that `cmp x15, <tmp>` compares the Dart stack pointer against. */
  function GuardScratch(cmp: AsmInstr): Option<string> {
    if cmp.mnemonic != "cmp" then None
    else match StripPrefix(cmp.opStr, "x15, ")
      case None => None
      case Some(rest) =>
        var tmp := Trim(rest);
        if tmp == "x16" || tmp == "x17" then Some(tmp) else None
  }

  /** Whether `ldr` loads a field of the thread register x26 into `tmp`. */
  predicate LoadsThreadField(ldr: AsmInstr, tmp: string) {
    ldr.mnemonic == "ldr" &&
    match StripPrefix(ldr.opStr, tmp)
    case None => false
    case Some(afterTmp) =>
      match StripPrefix(afterTmp, ", [x26,")
      case None => false
      case Some(rest) => var r := TrimEnd(rest); r != [] && r[|r| - 1] == ']'
  }

  /** The three indices of the guard whose compare is at `c`, or nothing. */
  function StackOverflowCheckAt(asm: seq<AsmInstr>, c: nat): (group: Option<(nat, nat, nat)>)
    ensures group.Some? ==>
              && 1 <= c && c + 1 < |asm| && group.value == (c - 1, c, c + 1)
              && asm[c - 1].mnemonic == "ldr" && asm[c].mnemonic == "cmp" && asm[c + 1].mnemonic == "b.ls"
  {
    if c >= |asm| then None
    else match GuardScratch(asm[c])
      case None => None
      case Some(tmp) =>
        if c == 0 || !LoadsThreadField(asm[c - 1], tmp) then None
        else if c + 1 >= |asm| || asm[c + 1].mnemonic != "b.ls" then None
        else Some((c - 1, c, c + 1))
  }

  predicate GuardAt(asm: seq<AsmInstr>, c: nat) {
    StackOverflowCheckAt(asm, c).Some?
  }

  /** Instruction `i` belongs to some guard. */
  ghost predicate InGuard(asm: seq<AsmInstr>, i: nat) {
    exists c: nat :: GuardAt(asm, c) && c <= i + 1 && i <= c + 1
  }

  predicate IsConditional(mnemonic: string) {
    "b." <= mnemonic || mnemonic == "cbz" || mnemonic == "cbnz" || mnemonic == "tbz" || mnemonic == "tbnz"
  }

  /** The class an instruction outside every guard lifts to. */
  function PlainOp(ins: AsmInstr): Op {
    if ins.mnemonic == "bl" || ins.mnemonic == "blr" then Call
    else if IsConditional(ins.mnemonic) then Branch
    else if ins.mnemonic == "b" then Jump
    else if ins.mnemonic == "ret" then Return
    else if ins.mnemonic == "ldr" && ("pool[" <= ins.annotation || "poolOff[" <= ins.annotation) then LoadPool
    else Other
  }

  function LiftOne(ins: AsmInstr, runtimeCheck: bool): Instr {
    if runtimeCheck then Instr(ins.va, RuntimeCheck, ins.hexTarget)
    else
      var op := PlainOp(ins);
      Instr(ins.va, op, if op == Call || op == Branch || op == Jump then ins.hexTarget else None)
  }

  // ---- What a guard looks like -----------------------------------------------------------------

  /** The texts of a guard: a field of the thread register loaded into a scratch register, compared with the stack. */
  predicate GuardTexts(ldr: string, cmp: string, tmp: string, field: string, lead: string, trail: string, end: string) {
    && (tmp == "x16" || tmp == "x17") && Blank(lead) && Blank(trail) && Blank(end)
    && ldr == tmp + ", [x26," + field + "]" + end && cmp == "x15, " + lead + tmp + trail
  }

  ghost predicate SpellGuard(ldr: string, cmp: string) {
    exists tmp, field, lead, trail, end :: GuardTexts(ldr, cmp, tmp, field, lead, trail, end)
  }

  /** Three instructions from `i` on spell a guard. */
  ghost predicate GuardSpelled(asm: seq<AsmInstr>, i: nat) {
    && i + 2 < |asm|
    && asm[i].mnemonic == "ldr" && asm[i + 1].mnemonic == "cmp" && asm[i + 2].mnemonic == "b.ls"
    && SpellGuard(asm[i].opStr, asm[i + 1].opStr)
  }

  lemma ScratchIsSpelled(cmp: AsmInstr, tmp: string) returns (lead: string, trail: string)
    requires GuardScratch(cmp) == Some(tmp)
    ensures Blank(lead) && Blank(trail) && cmp.opStr == "x15, " + lead + tmp + trail
  {
    var rest := cmp.opStr[|"x15, "|..];
    lead, trail := TrimParts(rest);
    assert cmp.opStr == "x15, " + rest;
  }

  lemma SpelledScratchIsFound(cmp: AsmInstr, tmp: string, lead: string, trail: string)
    requires cmp.mnemonic == "cmp" && (tmp == "x16" || tmp == "x17") && Blank(lead) && Blank(trail)
    requires cmp.opStr == "x15, " + lead + tmp + trail
    ensures GuardScratch(cmp) == Some(tmp)
  {
    assert cmp.opStr == "x15, " + (lead + tmp + trail);
    assert cmp.opStr[|"x15, "|..] == lead + tmp + trail;
    assert Tight(tmp);
    TrimKeeps(lead, tmp, trail);
  }

  lemma FieldLoadIsSpelled(ldr: AsmInstr, tmp: string) returns (field: string, end: string)
    requires LoadsThreadField(ldr, tmp)
    ensures Blank(end) && ldr.opStr == tmp + ", [x26," + field + "]" + end
  {
    var after := ldr.opStr[|tmp|..];
    var rest := after[|", [x26,"|..];
    var text := TrimEnd(rest);
    end := TrimEndParts(rest);
    field := text[..|text| - 1];
    assert text == field + "]";
    assert ldr.opStr == tmp + after && after == ", [x26," + rest;
  }

  lemma SpelledFieldLoadIsFound(ldr: AsmInstr, tmp: string, field: string, end: string)
    requires ldr.mnemonic == "ldr" && Blank(end) && ldr.opStr == tmp + ", [x26," + field + "]" + end
    ensures LoadsThreadField(ldr, tmp)
  {
    var rest := field + "]" + end;
    assert ldr.opStr == tmp + (", [x26," + rest);
    assert ldr.opStr[|tmp|..] == ", [x26," + rest;
    assert (", [x26," + rest)[|", [x26,"|..] == rest;
    TrimEndKeeps(field + "]", end);
  }

  /** A guard is recognised at a compare exactly when the three instructions around it spell one. */
  lemma GuardsAreWhatIsSpelled(asm: seq<AsmInstr>, c: nat)
    ensures GuardAt(asm, c) <==> c >= 1 && GuardSpelled(asm, c - 1)
  {
    if GuardAt(asm, c) {
      var tmp := GuardScratch(asm[c]).value;
      var lead, trail := ScratchIsSpelled(asm[c], tmp);
      var field, end := FieldLoadIsSpelled(asm[c - 1], tmp);
      assert GuardTexts(asm[c - 1].opStr, asm[c].opStr, tmp, field, lead, trail, end);
    }
    if c >= 1 && GuardSpelled(asm, c - 1) {
      var tmp, field, lead, trail, end :| GuardTexts(asm[c - 1].opStr, asm[c].opStr, tmp, field, lead, trail, end);
      SpelledScratchIsFound(asm[c], tmp, lead, trail);
      SpelledFieldLoadIsFound(asm[c - 1], tmp, field, end);
    }
  }

  /** Instruction `i` is one of three that spell a guard. */
  ghost predicate InSpelledGuard(asm: seq<AsmInstr>, i: nat) {
    exists g: nat :: GuardSpelled(asm, g) && g <= i <= g + 2
  }

  lemma InGuardIsSpelled(asm: seq<AsmInstr>, i: nat)
    ensures InGuard(asm, i) <==> InSpelledGuard(asm, i)
  {
    forall c: nat ensures GuardAt(asm, c) <==> c >= 1 && GuardSpelled(asm, c - 1) {
      GuardsAreWhatIsSpelled(asm, c);
    }
    if InGuard(asm, i) {
      var c: nat :| GuardAt(asm, c) && c <= i + 1 && i <= c + 1;
      assert GuardSpelled(asm, c - 1);
    }
    if InSpelledGuard(asm, i) {
      var g: nat :| GuardSpelled(asm, g) && g <= i <= g + 2;
      assert GuardAt(asm, g + 1);
    }
  }

  /** What an instruction outside every guard is, by its mnemonic. */
  predicate ClassFits(ins: AsmInstr, op: Op) {
    && (op == Call <==> ins.mnemonic == "bl" || ins.mnemonic == "blr")
    && (op == Branch <==> "b." <= ins.mnemonic || ins.mnemonic in {"cbz", "cbnz", "tbz", "tbnz"})
    && (op == Jump <==> ins.mnemonic == "b")
    && (op == Return <==> ins.mnemonic == "ret")
    && (op == LoadPool <==> ins.mnemonic == "ldr" && ("pool[" <= ins.annotation || "poolOff[" <= ins.annotation))
    && op != RuntimeCheck
  }

  lemma PlainClassFits(ins: AsmInstr)
    ensures ClassFits(ins, PlainOp(ins))
  {
    var m := ins.mnemonic;
    assert "b." <= m ==> m[1] == '.';
    assert "bl"[1] == 'l' && "blr"[1] == 'l' && "cbz"[0] == 'c' && "cbnz"[0] == 'c' && "tbz"[0] == 't';
    assert "tbnz"[0] == 't' && "ret"[0] == 'r' && "ldr"[0] == 'l' && "b"[0] == 'b';
  }

  /** In a guard a runtime check, elsewhere by its mnemonic; checks, calls, branches and jumps have their targets. */
  predicate LiftsAs(ins: AsmInstr, inGuard: bool, r: Instr) {
    && r.va == ins.va
    && (if inGuard then r.op == RuntimeCheck else ClassFits(ins, r.op))
    && r.target == if r.op in {RuntimeCheck, Call, Branch, Jump} then ins.hexTarget else None
  }

  lemma LiftOneFits(ins: AsmInstr, inGuard: bool)
    ensures LiftsAs(ins, inGuard, LiftOne(ins, inGuard))
  {
    PlainClassFits(ins);
  }

  /**
    * An instruction lifts to a runtime check, with its target kept, exactly when it is one of three that spell a
    * guard; every other lifts by its mnemonic.
    */
  lemma LiftedByText(asm: seq<AsmInstr>, i: nat)
    requires i < |asm|
    ensures LiftsAs(asm[i], InSpelledGuard(asm, i), LiftOne(asm[i], InGuard(asm, i)))
  {
    InGuardIsSpelled(asm, i);
    LiftOneFits(asm[i], InGuard(asm, i));
  }

  /** Two different guards never share an instruction. */
  lemma GuardsAreDisjoint(asm: seq<AsmInstr>, c: nat, d: nat)
    requires GuardAt(asm, c) && GuardAt(asm, d) && c < d
    ensures c + 3 <= d
  {
    assert "ldr"[0] == 'l' && "cmp"[0] == 'c' && "b.ls"[0] == 'b';
  }

  predicate IsTransfer(op: Op) {
    op.Branch? || op.Jump? || op.Call? || op.Return?
  }

  /** Of a guard's three instructions only the last would otherwise transfer control. */
  lemma GuardBodyTransfersNothing(asm: seq<AsmInstr>, c: nat)
    requires GuardAt(asm, c)
    ensures !IsTransfer(PlainOp(asm[c - 1])) && !IsTransfer(PlainOp(asm[c])) && PlainOp(asm[c + 1]) == Branch
  {
    assert asm[c - 1].mnemonic[0] == 'l';
    assert asm[c].mnemonic[0] == 'c' && asm[c].mnemonic[1] == 'm';
    assert asm[c + 1].mnemonic[..2] == "b.";
  }

  lemma OnlyTheBranchTransfers(asm: seq<AsmInstr>, i: nat, c: nat)
    requires i < |asm| && IsTransfer(PlainOp(asm[i]))
    requires GuardAt(asm, c) && c <= i + 1 && i <= c + 1
    ensures i == c + 1
  {
    GuardBodyTransfersNothing(asm, c);
  }

  /**
    * The only control transfer the lift ever demotes is the `b.ls` that closes a guard; every
    * other branch, jump, call and return keeps its class.
    */
  lemma OnlyTheGuardBranchIsDemoted(asm: seq<AsmInstr>, i: nat)
    requires i < |asm| && IsTransfer(PlainOp(asm[i]))
    ensures var op := LiftOne(asm[i], InGuard(asm, i)).op;
            if i >= 1 && GuardAt(asm, i - 1) then op == RuntimeCheck && asm[i].mnemonic == "b.ls"
            else op == PlainOp(asm[i])
  {
    if i >= 1 && GuardAt(asm, i - 1) {
      assert InGuard(asm, i);
    } else {
      forall c: nat | GuardAt(asm, c) && c <= i + 1 && i <= c + 1 ensures false {
        OnlyTheBranchTransfers(asm, i, c);
      }
    }
  }

  /** Whether a set of compare indices puts instruction `i` in a guard. */
  predicate InGroup(compares: set<nat>, i: nat) {
    exists c :: c in compares && c <= i + 1 && i <= c + 1
  }

  function GuardsBelow(asm: seq<AsmInstr>, k: nat): set<nat> {
    set c: nat | c < k && GuardAt(asm, c)
  }

  lemma GuardsStep(asm: seq<AsmInstr>, k: nat)
    ensures GuardsBelow(asm, k + 1) == GuardsBelow(asm, k) + (if GuardAt(asm, k) then {k} else {})
  {
  }

  lemma InGroupIsInGuard(asm: seq<AsmInstr>)
    ensures forall i :: InGroup(GuardsBelow(asm, |asm|), i) == InGuard(asm, i)
  {
    forall i: nat ensures InGroup(GuardsBelow(asm, |asm|), i) == InGuard(asm, i) {
      if InGuard(asm, i) {
        var c: nat :| GuardAt(asm, c) && c <= i + 1 && i <= c + 1;
        assert c in GuardsBelow(asm, |asm|);
      }
    }
  }

  /** One group of three is marked. */
  method MarkGroup(marks: seq<bool>, group: (nat, nat, nat), ghost compares: set<nat>) returns (r: seq<bool>)
    requires 1 <= group.1 && group == (group.1 - 1, group.1, group.1 + 1) && group.2 < |marks|
    requires forall i :: 0 <= i < |marks| ==> marks[i] == InGroup(compares, i)
    ensures |r| == |marks|
    ensures forall i :: 0 <= i < |r| ==> r[i] == InGroup(compares + {group.1}, i)
  {
    r := marks[group.0 := true][group.1 := true][group.2 := true];
    assert group.1 in compares + {group.1};
    forall i | 0 <= i < |r| ensures r[i] == InGroup(compares + {group.1}, i) {
      assert InGroup(compares, i) ==> InGroup(compares + {group.1}, i);
    }
  }

  lemma LiftedByTexts(asm: seq<AsmInstr>, llir: seq<Instr>)
    requires |llir| == |asm| && forall i :: 0 <= i < |asm| ==> llir[i] == LiftOne(asm[i], InGuard(asm, i))
    ensures forall i :: 0 <= i < |asm| ==> LiftsAs(asm[i], InSpelledGuard(asm, i), llir[i])
  {
    forall i | 0 <= i < |asm| ensures LiftsAs(asm[i], InSpelledGuard(asm, i), llir[i]) {
      LiftedByText(asm, i);
    }
  }

  /** The marks say which instructions the guards below `k` take in. */
  ghost predicate Marked(asm: seq<AsmInstr>, k: nat, marks: seq<bool>) {
    |marks| == |asm| && forall i :: 0 <= i < |asm| ==> marks[i] == InGroup(GuardsBelow(asm, k), i)
  }

  lemma MarkedFurther(asm: seq<AsmInstr>, k: nat, marks: seq<bool>)
    requires Marked(asm, k, marks) && !GuardAt(asm, k)
    ensures Marked(asm, k + 1, marks)
  {
    GuardsStep(asm, k);
  }

  lemma MarkedInTheEnd(asm: seq<AsmInstr>, marks: seq<bool>)
    requires Marked(asm, |asm|, marks)
    ensures forall i :: 0 <= i < |asm| ==> marks[i] == InGuard(asm, i)
  {
    InGroupIsInGuard(asm);
  }

  method LlirFromDisasm(asm: seq<AsmInstr>) returns (llir: seq<Instr>)
    ensures |llir| == |asm|
    ensures forall i :: 0 <= i < |asm| ==> llir[i] == LiftOne(asm[i], InGuard(asm, i))
    ensures forall i :: 0 <= i < |asm| ==> LiftsAs(asm[i], InSpelledGuard(asm, i), llir[i])
  {
    var runtimeCheck := seq(|asm|, i => false);
    for idx := 0 to |asm|
      invariant Marked(asm, idx, runtimeCheck)
    {
      var found := StackOverflowCheckAt(asm, idx);
      if found.Some? {
        GuardsStep(asm, idx);
        runtimeCheck := MarkGroup(runtimeCheck, found.value, GuardsBelow(asm, idx));
      } else {
        MarkedFurther(asm, idx, runtimeCheck);
      }
    }
    MarkedInTheEnd(asm, runtimeCheck);
    llir := [];
    for idx := 0 to |asm|
      invariant |llir| == idx
      invariant forall i :: 0 <= i < idx ==> llir[i] == LiftOne(asm[i], runtimeCheck[i])
    {
      llir := llir + [LiftOne(asm[idx], runtimeCheck[idx])];
    }
    LiftedByTexts(asm, llir);
  }
}
