/** The pool-reference resolver, sound for ADD (immediate), LDR and LDP of Arm DDI 0487, section C6.2. */
module PoolResolver {
  import opened Collections

  const U64: nat := 0x1_0000_0000_0000_0000

  /** The object-pool pointer. */
  const PP: nat := 27

  // ---- Pool geometry ---------------------------------------------------------------------------

  datatype Geometry = Geometry(entriesOffset: nat, wordSize: nat)

  function IndexForDisplacement(g: Geometry, d: nat): Option<nat> {
    if g.wordSize == 0 || d < g.entriesOffset then None
    else if (d - g.entriesOffset) % g.wordSize != 0 then None
    else Some((d - g.entriesOffset) / g.wordSize)
  }

  function DisplacementForIndex(g: Geometry, index: nat): Option<nat> {
    if index * g.wordSize >= U64 then None
    else if index * g.wordSize + g.entriesOffset >= U64 then None
    else Some(index * g.wordSize + g.entriesOffset)
  }

  /**
    * A displacement resolves to an index exactly when the stride is positive and the index resolves to the
    * displacement.
    */
  lemma GeometryRoundTrip(g: Geometry, d: nat, index: nat)
    requires d < U64
    ensures IndexForDisplacement(g, d) == Some(index) <==> g.wordSize > 0 && DisplacementForIndex(g, index) == Some(d)
  {
    if g.wordSize > 0 && DisplacementForIndex(g, index) == Some(d) {
      ExactQuotient(index, g.wordSize);
    }
  }

  lemma ExactQuotient(i: nat, w: nat)
    requires w > 0
    ensures (i * w) % w == 0 && (i * w) / w == i
  {
    QuotientIsUnique(i * w, w, i, 0);
  }

  lemma QuotientIsUnique(x: nat, w: nat, q: nat, r: nat)
    requires w > 0 && x == q * w + r && r < w
    ensures x / w == q && x % w == r
  {
    var k := x / w - q;
    DistributesOverDifference(x / w, q, w);
    assert k * w == r - x % w;
    SmallMultipleIsZero(k, w);
  }

  lemma DistributesOverDifference(a: int, b: int, w: int)
    ensures (a - b) * w == a * w - b * w
  {
  }

  lemma SmallMultipleIsZero(k: int, w: nat)
    requires w > 0 && k * w < w && 0 < k * w + w
    ensures k == 0
  {
    if k >= 1 {
      DistributesOverDifference(k, 1, w);
    } else if k <= -1 {
      DistributesOverDifference(-k, 1, w);
    }
  }

  // ---- Instructions ----------------------------------------------------------------------------

  /**
    * Decoded instructions, as the resolver's patterns tell them apart. `first` and `second` are the
    * leading register operands the resolver reads; `writes` is what the machine really writes.
    */
  datatype Ins =
    | AddPage(dst: nat, imm: nat, shift: nat)
    | Load(dst: nat, base: nat, off: nat)
    | Plain(first: Option<nat>, second: Option<nat>, writes: set<nat>)
    | Transfer

  datatype Annotation = PoolIndex(index: nat) | PoolOffset(displacement: nat)

  type Bases = map<nat, nat>

  function Pow2(n: nat): (p: nat)
    ensures p > 0
  {
    if n == 0 then 1 else 2 * Pow2(n - 1)
  }

  /** `u64::checked_shl`: nothing for a shift of 64 or more, otherwise the low 64 bits. */
  function CheckedShl(x: nat, shift: nat): Option<nat> {
    if shift >= 64 then None else Some((x * Pow2(shift)) % U64)
  }

  function CheckedAdd(x: nat, y: nat): Option<nat> {
    if x + y < U64 then Some(x + y) else None
  }

  /** The instruction's text leads with register `x`: its one destination, or one of its first two operands. */
  predicate LeadsWith(ins: Ins, x: nat) {
    match ins
    case AddPage(dst, _, _) => x == dst
    case Load(dst, _, _) => x == dst
    case Plain(first, second, _) => first == Some(x) || second == Some(x)
    case Transfer => false
  }

  /** The register operands an instruction's text leads with. */
  function Leading(ins: Ins): (r: set<nat>)
    ensures forall x :: x in r <==> LeadsWith(ins, x)
  {
    match ins
    case AddPage(dst, _, _) => {dst}
    case Load(dst, _, _) => {dst}
    case Plain(first, second, _) =>
      (if first.Some? then {first.value} else {}) + (if second.Some? then {second.value} else {})
    case Transfer => {}
  }

  /** The displacement from the pool pointer a load is believed to read at. */
  function Displacement(bases: Bases, ins: Ins): Option<nat> {
    if !ins.Load? then None
    else if ins.base == PP then Some(ins.off)
    else if ins.base in bases then CheckedAdd(bases[ins.base], ins.off)
    else None
  }

  function Render(geometry: Option<Geometry>, d: nat): Annotation {
    var index := if geometry.Some? then IndexForDisplacement(geometry.value, d) else None;
    if index.Some? then PoolIndex(index.value) else PoolOffset(d)
  }

  function Annotate(geometry: Option<Geometry>, bases: Bases, ins: Ins): Option<Annotation> {
    var d := Displacement(bases, ins);
    if d.Some? then Some(Render(geometry, d.value)) else None
  }

  /** The resolver's state after one instruction. */
  function Track(bases: Bases, ins: Ins): Bases {
    match ins
    case Transfer => map[]
    case AddPage(dst, imm, shift) =>
      var base := CheckedShl(imm, shift);
      if base.Some? then bases[dst := base.value] else bases - {dst}
    case _ => bases - Leading(ins)
  }

  /** The resolver's state before instruction `i` of a function. */
  function TrackAll(code: seq<Ins>, i: nat): Bases
    requires i <= |code|
  {
    if i == 0 then map[] else Track(TrackAll(code, i - 1), code[i - 1])
  }

  class PoolRefResolver {
    const geometry: Option<Geometry>
    var bases: Bases

    constructor (geometry: Option<Geometry>)
      ensures this.geometry == geometry && bases == map[]
    {
      this.geometry := geometry;
      bases := map[];
    }

    /** Drops the bases of the registers an instruction's text leads with. */
    method InvalidateWrittenRegisters(first: Option<nat>, second: Option<nat>)
      modifies this
      ensures bases == old(bases) - Leading(Plain(first, second, {}))
      ensures forall x :: x in bases <==> x in old(bases) && first != Some(x) && second != Some(x)
      ensures forall x :: x in bases ==> bases[x] == old(bases)[x]
    {
      if first.Some? {
        bases := bases - {first.value};
      }
      if second.Some? {
        bases := bases - {second.value};
      }
    }

    /** One instruction; the base is read before the destination is invalidated. */
    method AnnotationFor(ins: Ins) returns (annotation: Option<Annotation>)
      modifies this
      ensures annotation == Annotate(geometry, old(bases), ins)
      ensures bases == Track(old(bases), ins)
    {
      annotation := None;
      match ins
      case Transfer =>
        bases := map[];
      case AddPage(dst, imm, shift) =>
        var base := CheckedShl(imm, shift);
        if base.Some? {
          bases := bases[dst := base.value];
        } else {
          bases := bases - {dst};
        }
      case Load(dst, base, off) =>
        var displacement: Option<nat> := None;
        if base == PP {
          displacement := Some(off);
        } else if base in bases {
          displacement := CheckedAdd(bases[base], off);
        }
        InvalidateWrittenRegisters(Some(dst), None);
        if displacement.Some? {
          annotation := Some(Render(geometry, displacement.value));
        }
      case Plain(first, second, _) =>
        InvalidateWrittenRegisters(first, second);
    }
  }

  /** The annotations of a whole function, instruction by instruction. */
  function Annotations(geometry: Option<Geometry>, code: seq<Ins>, n: nat): (a: seq<Option<Annotation>>)
    requires n <= |code|
    ensures |a| == n
  {
    if n == 0 then []
    else Annotations(geometry, code, n - 1) + [Annotate(geometry, TrackAll(code, n - 1), code[n - 1])]
  }

  lemma {:induction false} AnnotationAt(geometry: Option<Geometry>, code: seq<Ins>, n: nat, i: nat)
    requires i < n <= |code|
    ensures Annotations(geometry, code, n)[i] == Annotate(geometry, TrackAll(code, i), code[i])
  {
    if i < n - 1 { AnnotationAt(geometry, code, n - 1, i); }
  }

  // ---- Which loads are annotated, and with what ------------------------------------------------

  /** Nothing between the two positions ends the block or leads with `x`. */
  predicate Undisturbed(code: seq<Ins>, from: nat, to: nat, x: nat) {
    to <= |code| && forall k :: from <= k < to ==> !code[k].Transfer? && !LeadsWith(code[k], x)
  }

  /** Instruction `j` is the page add that says what `x` holds before instruction `i`. */
  predicate SetsBase(code: seq<Ins>, j: nat, i: nat, x: nat) {
    && j < i <= |code| && code[j].AddPage? && code[j].dst == x && code[j].shift < 64
    && Undisturbed(code, j + 1, i, x)
  }

  lemma {:induction false} SetBasesAreTracked(code: seq<Ins>, j: nat, i: nat, x: nat)
    requires SetsBase(code, j, i, x)
    ensures x in TrackAll(code, i) && TrackAll(code, i)[x] == (code[j].imm * Pow2(code[j].shift)) % U64
    decreases i
  {
    if j < i - 1 {
      SetBasesAreTracked(code, j, i - 1, x);
      assert !code[i - 1].Transfer? && x !in Leading(code[i - 1]);
    }
  }

  /** A tracked register is tracked because such a page add stands before. */
  lemma {:induction false} TrackedBasesWereSet(code: seq<Ins>, i: nat, x: nat) returns (j: nat)
    requires i <= |code| && x in TrackAll(code, i)
    ensures SetsBase(code, j, i, x)
    decreases i
  {
    var last := code[i - 1];
    if last.AddPage? && last.dst == x {
      j := i - 1;
    } else {
      assert x !in Leading(last);
      j := TrackedBasesWereSet(code, i - 1, x);
    }
  }

  /** The annotation of displacement `d`: the index the geometry puts there, or else the displacement itself. */
  ghost predicate Spells(geometry: Option<Geometry>, d: nat, annotation: Annotation) {
    match annotation
    case PoolIndex(i) => HasIndex(geometry, d, i)
    case PoolOffset(x) => x == d && forall i: nat :: !HasIndex(geometry, d, i)
  }

  /** The geometry has entries, and puts entry `i` at `d`. */
  predicate HasIndex(geometry: Option<Geometry>, d: nat, i: nat) {
    geometry.Some? && geometry.value.wordSize > 0 && DisplacementForIndex(geometry.value, i) == Some(d)
  }

  lemma RenderSpells(geometry: Option<Geometry>, d: nat)
    requires d < U64
    ensures Spells(geometry, d, Render(geometry, d))
  {
    if geometry.Some? {
      forall i: nat ensures IndexForDisplacement(geometry.value, d) == Some(i) <==> HasIndex(geometry, d, i) {
        GeometryRoundTrip(geometry.value, d, i);
      }
    }
  }

  /** The load reads the pool at displacement `d`, as far as the code before it shows. */
  ghost predicate ReadsPoolAt(code: seq<Ins>, i: nat, d: nat) {
    && i < |code| && code[i].Load? && d < U64
    && if code[i].base == PP then d == code[i].off else exists j: nat :: ReadsBehind(code, j, i, d)
  }

  /** Page add `j` and the load's own offset add up to `d`. */
  predicate ReadsBehind(code: seq<Ins>, j: nat, i: nat, d: nat) {
    && i < |code| && code[i].Load? && SetsBase(code, j, i, code[i].base)
    && d == (code[j].imm * Pow2(code[j].shift)) % U64 + code[i].off
  }

  /** What a function's annotations are, of its code alone. */
  ghost predicate AnnotatedAsRead(geometry: Option<Geometry>, code: seq<Ins>, i: nat, a: Option<Annotation>) {
    && (a.Some? <==> exists d: nat :: ReadsPoolAt(code, i, d))
    && (a.Some? ==> forall d: nat :: ReadsPoolAt(code, i, d) ==> Spells(geometry, d, a.value))
  }

  lemma DisplacementIsRead(code: seq<Ins>, i: nat, d: nat)
    requires i < |code| && (code[i].Load? ==> code[i].off < U64)
    ensures ReadsPoolAt(code, i, d) <==> Displacement(TrackAll(code, i), code[i]) == Some(d)
  {
    if code[i].Load? && code[i].base != PP {
      var x := code[i].base;
      if j: nat :| ReadsBehind(code, j, i, d) {
        SetBasesAreTracked(code, j, i, x);
      }
      if x in TrackAll(code, i) {
        var j := TrackedBasesWereSet(code, i, x);
        SetBasesAreTracked(code, j, i, x);
        assert ReadsBehind(code, j, i, TrackAll(code, i)[x] + code[i].off);
      }
    }
  }

  /**
    * An instruction is annotated exactly when it is a load through the pool pointer, or through a register that the
    * last page add set and nothing since has touched; and it is annotated with the index its displacement has, or with
    * the displacement when it has none.
    */
  lemma AnnotationsAreComplete(geometry: Option<Geometry>, code: seq<Ins>, i: nat)
    requires i < |code| && (code[i].Load? ==> code[i].off < U64)
    ensures AnnotatedAsRead(geometry, code, i, Annotations(geometry, code, |code|)[i])
  {
    AnnotationAt(geometry, code, |code|, i);
    forall d: nat ensures ReadsPoolAt(code, i, d) <==> Displacement(TrackAll(code, i), code[i]) == Some(d) {
      DisplacementIsRead(code, i, d);
    }
    var found := Displacement(TrackAll(code, i), code[i]);
    if found.Some? {
      assert ReadsPoolAt(code, i, found.value);
      RenderSpells(geometry, found.value);
    }
  }

  /** Annotating one function's instructions in order. */
  method AnnotateFunction(geometry: Option<Geometry>, code: seq<Ins>) returns (annotations: seq<Option<Annotation>>)
    ensures annotations == Annotations(geometry, code, |code|)
    ensures forall i :: 0 <= i < |code| && (code[i].Load? ==> code[i].off < U64) ==>
              AnnotatedAsRead(geometry, code, i, annotations[i])
  {
    var resolver := new PoolRefResolver(geometry);
    annotations := [];
    for i := 0 to |code|
      invariant resolver.bases == TrackAll(code, i) && resolver.geometry == geometry
      invariant annotations == Annotations(geometry, code, i)
    {
      var annotation := resolver.AnnotationFor(code[i]);
      annotations := annotations + [annotation];
    }
    forall i | 0 <= i < |code| && (code[i].Load? ==> code[i].off < U64)
      ensures AnnotatedAsRead(geometry, code, i, annotations[i])
    {
      AnnotationsAreComplete(geometry, code, i);
    }
  }

  // ---- The machine -----------------------------------------------------------------------------

  type Registers = nat -> nat

  /** The address a load reads. */
  function Address(r: Registers, base: nat, off: nat): nat {
    (r(base) + off) % U64
  }

  /**
    * One instruction's effect on the registers; what a load or another instruction writes is arbitrary, and so
    * is every register but the pool pointer behind a call.
    */
  ghost predicate Executes(ins: Ins, r: Registers, r': Registers) {
    match ins
    case AddPage(dst, imm, shift) =>
      r'(dst) == (r(PP) + imm * Pow2(shift)) % U64 && forall x :: x != dst ==> r'(x) == r(x)
    case Load(dst, _, _) => forall x :: x != dst ==> r'(x) == r(x)
    case Plain(_, _, writes) => forall x :: x !in writes ==> r'(x) == r(x)
    case Transfer => r'(PP) == r(PP)
  }

  /** Every tracked register holds the pool pointer plus its base. */
  ghost predicate Means(bases: Bases, pp: nat, r: Registers) {
    r(PP) == pp && forall x :: x in bases ==> r(x) == (pp + bases[x]) % U64
  }

  /** The pool pointer is left alone. */
  predicate KeepsPP(ins: Ins) {
    match ins
    case AddPage(dst, _, _) => dst != PP
    case Load(dst, _, _) => dst != PP
    case Plain(_, _, writes) => PP !in writes
    case Transfer => true
  }

  /**
    * The step leaves the pool pointer alone and writes no tracked register its text does not lead with. Writeback of
    * a register that holds no base, as in a prologue's store to the stack, is quiet.
    */
  predicate Quiet(bases: Bases, ins: Ins) {
    KeepsPP(ins) && (ins.Plain? ==> forall x :: x in bases && x in ins.writes ==> x in Leading(ins))
  }

  lemma Divides(x: nat, m: nat)
    requires m > 0
    ensures x == x / m * m + x % m && x % m < m
  {
  }

  lemma QuotientsAdd(x: nat, y: nat, m: nat, q: nat, r: nat, q2: nat, r2: nat)
    requires y == q * m + r && x + r == q2 * m + r2
    ensures x + y == (q + q2) * m + r2
  {
    DistributesOverDifference(q + q2, q, m);
  }

  lemma AddModulo(x: nat, y: nat, m: nat)
    requires m > 0
    ensures (x + y % m) % m == (x + y) % m
  {
    var q, r := y / m, y % m;
    var q2, r2 := (x + r) / m, (x + r) % m;
    Divides(y, m);
    Divides(x + r, m);
    QuotientsAdd(x, y, m, q, r, q2, r2);
    QuotientIsUnique(x + y, m, q + q2, r2);
  }

  /** One step of the resolver follows one step of the machine. */
  lemma TrackingIsSound(bases: Bases, pp: nat, ins: Ins, r: Registers, r': Registers)
    requires Means(bases, pp, r) && Executes(ins, r, r') && Quiet(bases, ins)
    ensures Means(Track(bases, ins), pp, r')
  {
    if ins.AddPage? && ins.shift < 64 {
      AddModulo(pp, ins.imm * Pow2(ins.shift), U64);
    }
  }

  /** An annotation names the slot the load reads. */
  ghost predicate NamesTheSlot(geometry: Option<Geometry>, pp: nat, annotation: Annotation, address: nat) {
    match annotation
    case PoolOffset(d) => address == (pp + d) % U64
    case PoolIndex(i) =>
      geometry.Some? && address == (pp + geometry.value.entriesOffset + i * geometry.value.wordSize) % U64
  }

  lemma RenderNamesTheDisplacement(geometry: Option<Geometry>, pp: nat, d: nat)
    ensures NamesTheSlot(geometry, pp, Render(geometry, d), (pp + d) % U64)
  {
    if geometry.Some? && IndexForDisplacement(geometry.value, d).Some? {
      var g, i := geometry.value, IndexForDisplacement(geometry.value, d).value;
      assert d - g.entriesOffset == i * g.wordSize;
    }
  }

  /** A load reads at the displacement it is believed to. */
  lemma AddressIsDisplaced(bases: Bases, pp: nat, ins: Ins, r: Registers)
    requires Means(bases, pp, r) && Displacement(bases, ins).Some?
    ensures Address(r, ins.base, ins.off) == (pp + Displacement(bases, ins).value) % U64
  {
    if ins.base != PP {
      AddModulo(ins.off, pp + bases[ins.base], U64);
    }
  }

  lemma AnnotationsAreSound(geometry: Option<Geometry>, bases: Bases, pp: nat, ins: Ins, r: Registers)
    requires Means(bases, pp, r) && Annotate(geometry, bases, ins).Some?
    ensures NamesTheSlot(geometry, pp, Annotate(geometry, bases, ins).value, Address(r, ins.base, ins.off))
  {
    RenderNamesTheDisplacement(geometry, pp, Displacement(bases, ins).value);
    AddressIsDisplaced(bases, pp, ins, r);
  }

  /** Instruction `i` executes, and is quiet for the bases tracked when it does. */
  ghost predicate QuietStep(code: seq<Ins>, i: nat, r: Registers, r': Registers) {
    i < |code| && Executes(code[i], r, r') && Quiet(TrackAll(code, i), code[i])
  }

  /**
    * A fall-through run of `n` quiet instructions from `start`: the register files before each and after the last.
    * Nothing is asked of the rest of the function.
    */
  ghost predicate QuietRun(code: seq<Ins>, start: nat, n: nat, pp: nat, states: seq<Registers>) {
    && start + n <= |code| && |states| == n + 1 && states[0](PP) == pp
    && forall k: nat :: k < n ==> QuietStep(code, start + k, states[k], states[k + 1])
  }

  lemma {:induction false} BasesMeanWhatTheySay(code: seq<Ins>, start: nat, n: nat, pp: nat, states: seq<Registers>,
                                                k: nat)
    requires QuietRun(code, start, n, pp, states) && TrackAll(code, start) == map[] && k <= n
    ensures Means(TrackAll(code, start + k), pp, states[k])
    decreases k
  {
    if k > 0 {
      var i := k - 1;
      BasesMeanWhatTheySay(code, start, n, pp, states, i);
      assert QuietStep(code, start + i, states[i], states[i + 1]);
      TrackingIsSound(TrackAll(code, start + i), pp, code[start + i], states[i], states[k]);
    }
  }

  /**
    * Along any quiet fall-through run that starts where nothing is tracked - a function's entry, or right behind a
    * control transfer - the annotation the function gets for the next instruction names the slot its load really
    * reads, whatever the registers and memory hold and whatever the rest of the function does.
    */
  lemma EveryAnnotationNamesItsSlot(geometry: Option<Geometry>, code: seq<Ins>, start: nat, n: nat, pp: nat,
                                    states: seq<Registers>)
    requires QuietRun(code, start, n, pp, states) && start + n < |code|
    requires start == 0 || code[start - 1].Transfer?
    ensures var annotation := Annotations(geometry, code, |code|)[start + n];
            annotation.Some? ==>
              code[start + n].Load? &&
              NamesTheSlot(geometry, pp, annotation.value,
                           Address(states[n], code[start + n].base, code[start + n].off))
  {
    BasesMeanWhatTheySay(code, start, n, pp, states, n);
    AnnotationAt(geometry, code, |code|, start + n);
    var bases := TrackAll(code, start + n);
    if Annotate(geometry, bases, code[start + n]).Some? {
      AnnotationsAreSound(geometry, bases, pp, code[start + n], states[n]);
    }
  }

  // ---- Exactly how far the soundness goes ------------------------------------------------------

  /** The registers a state describes, every untracked one zero. */
  function Described(bases: Bases, pp: nat): Registers {
    x => if x == PP then pp else if x in bases then (pp + bases[x]) % U64 else 0
  }

  function Bumped(r: Registers, x: nat): Registers {
    y => if y == x then r(x) + 1 else r(y)
  }

  /** The resolver's step is right for every register file the state describes. */
  ghost predicate SoundFor(bases: Bases, pp: nat, ins: Ins) {
    forall r: Registers, r': Registers {:trigger Executes(ins, r, r')} ::
      Means(bases, pp, r) && Executes(ins, r, r') ==> Means(Track(bases, ins), pp, r')
  }

  lemma HiddenWritesAreUnsound(bases: Bases, pp: nat, ins: Ins)
    requires PP !in bases && SoundFor(bases, pp, ins)
    ensures KeepsPP(ins) || ins.AddPage?
    ensures ins.Plain? ==> forall x :: x in bases && x in ins.writes ==> x in Leading(ins)
  {
    var r := Described(bases, pp);
    assert Means(bases, pp, r);
    if !KeepsPP(ins) && !ins.AddPage? {
      assert Executes(ins, r, Bumped(r, PP));
    }
    if ins.Plain? {
      forall x | x in bases && x in ins.writes ensures x in Leading(ins) {
        assert Executes(ins, r, Bumped(r, x));
        assert Means(Track(bases, ins), pp, Bumped(r, x));
        assert x in Track(bases, ins) ==> Bumped(r, x)(x) == r(x);
      }
    }
  }

  lemma QuietStepsAreSound(bases: Bases, pp: nat, ins: Ins)
    requires Quiet(bases, ins)
    ensures SoundFor(bases, pp, ins)
  {
    forall r: Registers, r': Registers {:trigger Executes(ins, r, r')} | Means(bases, pp, r) && Executes(ins, r, r')
      ensures Means(Track(bases, ins), pp, r')
    {
      TrackingIsSound(bases, pp, ins, r, r');
    }
  }

  /**
    * For every instruction but a page add, the step is sound exactly when it is quiet: the pool pointer is left alone
    * and no tracked register is written behind the resolver's back. Writeback addressing is the case that fails.
    */
  lemma SoundExactlyWithoutHiddenWrites(bases: Bases, pp: nat, ins: Ins)
    requires !ins.AddPage? && PP !in bases
    ensures SoundFor(bases, pp, ins) <==> Quiet(bases, ins)
  {
    if SoundFor(bases, pp, ins) {
      HiddenWritesAreUnsound(bases, pp, ins);
    }
    if Quiet(bases, ins) {
      QuietStepsAreSound(bases, pp, ins);
    }
  }

  /** `add x1, x27, #1, lsl #12`, then `ldr x0, [x1, #8]!`, then `ldr x2, [x1]`. */
  const WRITEBACK_CODE: seq<Ins> := [AddPage(1, 1, 12), Plain(Some(0), None, {0, 1}), Load(2, 1, 0)]

  /** The writeback's step is not sound, and the base tracked before it is still tracked behind it. */
  lemma WritebackLeavesAStaleBase()
    ensures !SoundFor(TrackAll(WRITEBACK_CODE, 1), 0, WRITEBACK_CODE[1])
    ensures TrackAll(WRITEBACK_CODE, 1) == TrackAll(WRITEBACK_CODE, 2) == map[1 := 0x1000]
  {
    assert Pow2(12) == 0x1000;
    assert TrackAll(WRITEBACK_CODE, 0) == map[];
    var bases, ins := TrackAll(WRITEBACK_CODE, 1), WRITEBACK_CODE[1];
    assert bases == map[1 := 0x1000];
    SoundExactlyWithoutHiddenWrites(bases, 0, ins);
    assert 1 in bases && 1 in ins.writes && 1 !in Leading(ins);
  }

  lemma LoadBehindTheWriteback(geometry: Option<Geometry>)
    ensures Annotations(geometry, WRITEBACK_CODE, 3)[2] == Some(Render(geometry, 0x1000))
  {
    WritebackLeavesAStaleBase();
    AnnotationAt(geometry, WRITEBACK_CODE, 3, 2);
  }

  lemma NoOtherSlotIsNamed(geometry: Option<Geometry>, pp: nat, annotation: Annotation, x: nat, y: nat)
    requires NamesTheSlot(geometry, pp, annotation, x) && x != y
    ensures !NamesTheSlot(geometry, pp, annotation, y)
  {
  }

  lemma WritebackRun() returns (states: seq<Registers>)
    ensures |states| == 3 && states[0](PP) == 0
    ensures Executes(WRITEBACK_CODE[0], states[0], states[1]) && Executes(WRITEBACK_CODE[1], states[1], states[2])
    ensures Address(states[2], 1, 0) == 0x1008
  {
    var r: Registers := x => 0;
    var based: Registers := x => if x == 1 then 0x1000 else 0;
    var written: Registers := x => if x == 1 then 0x1008 else 0;
    assert Pow2(12) == 0x1000;
    states := [r, based, written];
  }

  /**
    * On that code the last load is annotated with the slot at 0x1000, and a run of the machine has it read at 0x1008:
    * the tracked base outlives the register's value.
    */
  lemma WritebackMisleadsAnAnnotation(geometry: Option<Geometry>) returns (states: seq<Registers>)
    ensures |states| == 3 && states[0](PP) == 0
    ensures Executes(WRITEBACK_CODE[0], states[0], states[1]) && Executes(WRITEBACK_CODE[1], states[1], states[2])
    ensures var annotation := Annotations(geometry, WRITEBACK_CODE, 3)[2];
            annotation.Some? && !NamesTheSlot(geometry, 0, annotation.value, Address(states[2], 1, 0))
  {
    states := WritebackRun();
    LoadBehindTheWriteback(geometry);
    RenderNamesTheDisplacement(geometry, 0, 0x1000);
    NoOtherSlotIsNamed(geometry, 0, Render(geometry, 0x1000), 0x1000, 0x1008);
  }

  /**
    * Control that enters in the middle brings its own registers. An annotation is right for every
    * such entry exactly when its load goes through the pool pointer itself.
    */
  lemma OnlyDirectLoadsSurviveAnyEntry(bases: Bases, pp: nat, ins: Ins)
    requires Displacement(bases, ins).Some? && pp < U64
    ensures (forall r: Registers {:trigger Address(r, ins.base, ins.off)} ::
               r(PP) == pp ==> Address(r, ins.base, ins.off) == (pp + Displacement(bases, ins).value) % U64)
            <==> ins.base == PP
  {
    var d := Displacement(bases, ins).value;
    if ins.base != PP {
      var r0: Registers := x => if x == PP then pp else 0;
      var r1: Registers := x => if x == PP then pp else 1;
      OneApart(ins.off);
      assert Address(r0, ins.base, ins.off) != Address(r1, ins.base, ins.off);
    }
  }

  lemma OneApart(x: nat)
    ensures (0 + x) % U64 != (1 + x) % U64
  {
  }
}
