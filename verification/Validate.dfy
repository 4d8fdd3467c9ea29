/** The host's validator: every pass, in order, and the first invariant a model breaks. */
module Validate {
  import opened Collections
  import opened Compatibility
  import opened PoolResolver
  import opened ProgramModel
  import opened SuperClasses

  datatype ValidationError =
    | UnsupportedModelVersion
    | DuplicateRegion(region: RegionName)
    | RegionExecutabilityMismatch(region: RegionName)
    | RegionAddressMismatch(region: RegionName)
    | RegionOverflows(region: RegionName)
    | NoncanonicalOrder(collection: string)
    | HostFactMismatch
    | MissingRegion(region: RegionName)
    | RegionMismatch(region: RegionName)
    | UnexpectedRegion(region: RegionName)
    | EmptyField
    | PlaceholderName
    | ConfidenceWithoutHeuristicProvenance
    | ConfidenceOutOfRange
    | DuplicateId(collection: string, id: nat)
    | MissingLibraryReference(class_: nat)
    | MissingSuperClassReference(class_: nat)
    | MissingOwnerReference(function_: nat)
    | SuperClassCycle(class_: nat)
    | CapabilityContradiction(domain: Domain)
    | UnavailableDomainWithoutDiagnostic(domain: Domain)
    | BadPoolGeometry
    | PoolIndexOutOfBounds(index: nat)
    | EmptyCodeRange(function_: nat)
    | AddressOverflow(function_: nat)
    | CodeRangeOutsideExecutableRegions(function_: nat)
    | CodeSectionMismatch(function_: nat)
    | PoolEntryShape(index: nat)
    | PoolTargetOutsideExecutableRegions(index: nat)

  type Check = Option<ValidationError>

  // ---- Regions and host facts ------------------------------------------------------------------

  method CheckRegions(m: Model) returns (e: Check)
    ensures e.None? <==> RegionsValid(m)
  {
    var seen: set<RegionName> := {};
    for i := 0 to |m.regions|
      invariant forall n :: n in seen <==> exists k :: 0 <= k < i && m.regions[k].name == n
      invariant forall j, k :: 0 <= j < k < i ==> m.regions[j].name != m.regions[k].name
      invariant forall k :: 0 <= k < i ==> RegionSound(m.regions[k])
    {
      var r := m.regions[i];
      if r.name in seen {
        return Some(DuplicateRegion(r.name));
      }
      seen := seen + {r.name};
      if r.executable != HoldsCode(r.name) {
        return Some(RegionExecutabilityMismatch(r.name));
      }
      if r.executable != r.virtualAddress.Some? {
        return Some(RegionAddressMismatch(r.name));
      }
      if r.executable && RegionEnd(r).None? {
        return Some(RegionOverflows(r.name));
      }
    }
    var i := 1;
    while i < |m.regions|
      invariant 1 <= i
      invariant forall j, k :: 0 <= j < k < i && k < |m.regions| ==>
                  RegionRank(m.regions[j].name) < RegionRank(m.regions[k].name)
    {
      if RegionRank(m.regions[i - 1].name) >= RegionRank(m.regions[i].name) {
        return Some(NoncanonicalOrder("input regions"));
      }
      i := i + 1;
    }
    return None;
  }

  method CheckExpectedRegions(m: Model, h: HostContext) returns (e: Check)
    requires RegionsValid(m)
    ensures e.None? <==> forall r :: r in h.regions ==> exists o :: o in m.regions && SameRegion(o, r)
  {
    for i := 0 to |h.regions|
      invariant forall k :: 0 <= k < i ==> exists o :: o in m.regions && SameRegion(o, h.regions[k])
    {
      var expected := h.regions[i];
      var observed := FindRegion(m.regions, expected.name);
      assert expected in h.regions;
      if observed.None? {
        return Some(MissingRegion(expected.name));
      }
      if !SameRegion(observed.value, expected) {
        assert forall o :: o in m.regions && o.name == expected.name ==> o == observed.value;
        return Some(RegionMismatch(expected.name));
      }
    }
    return None;
  }

  method CheckUnexpectedRegions(m: Model, h: HostContext) returns (e: Check)
    ensures e.None? <==> forall o :: o in m.regions ==> exists r :: r in h.regions && r.name == o.name
  {
    for i := 0 to |m.regions|
      invariant forall k :: 0 <= k < i ==> exists r :: r in h.regions && r.name == m.regions[k].name
    {
      var known := FindRegion(h.regions, m.regions[i].name);
      if known.None? {
        assert m.regions[i] in m.regions;
        return Some(UnexpectedRegion(m.regions[i].name));
      }
    }
    return None;
  }

  method CheckHostFacts(m: Model, h: HostContext) returns (e: Check)
    requires RegionsValid(m)
    ensures e.None? <==> HostFactsValid(m, h)
  {
    if m.identity != h.identity || m.producer != h.producer || m.compatibility != h.compatibility {
      return Some(HostFactMismatch);
    }
    e := CheckExpectedRegions(m, h);
    if e.None? {
      e := CheckUnexpectedRegions(m, h);
    }
  }

  // ---- Text and scores -------------------------------------------------------------------------

  function NonEmpty(text: string): Check {
    if IsBlank(text) then Some(EmptyField) else None
  }

  /** The empty string is itself a placeholder, so this is the stronger of the two rules. */
  function NotPlaceholder(text: string): (e: Check)
    ensures e.None? <==> !IsPlaceholder(text)
  {
    BlankIsPlaceholder(text);
    if NonEmpty(text).Some? then NonEmpty(text)
    else if IsPlaceholder(text) then Some(PlaceholderName)
    else None
  }

  lemma BlankIsPlaceholder(text: string)
    ensures IsBlank(text) ==> IsPlaceholder(text)
  {
    assert ANY_CASE_PLACEHOLDERS[0] == "";
  }

  method CheckStrings(m: Model) returns (e: Check)
    ensures e.None? <==> StringsValid(m)
  {
    if NonEmpty(m.producer.id).Some? {
      return NonEmpty(m.producer.id);
    }
    if NonEmpty(m.producer.version).Some? {
      return NonEmpty(m.producer.version);
    }
    if m.compatibility.Some? {
      if NonEmpty(m.compatibility.value.parserFamilyId).Some? {
        return NonEmpty(m.compatibility.value.parserFamilyId);
      }
      if NonEmpty(m.compatibility.value.profileId).Some? {
        return NonEmpty(m.compatibility.value.profileId);
      }
    }
    e := CheckNames(m);
  }

  method CheckNames(m: Model) returns (e: Check)
    ensures e.None? <==>
            && (forall l :: l in m.libraries ==>
                !IsPlaceholder(l.uri) && (l.displayName.Some? ==> !IsPlaceholder(l.displayName.value)))
            && (forall c :: c in m.classes ==> !IsPlaceholder(c.name))
            && (forall f :: f in m.functions && f.name.Some? ==> !IsPlaceholder(f.name.value.text))
            && (forall x :: x in m.pool.entries && x.value.Some? ==> !IsPlaceholder(x.value.value))
  {
    for i := 0 to |m.libraries|
      invariant forall k :: 0 <= k < i ==>
                  var l := m.libraries[k];
                  !IsPlaceholder(l.uri) && (l.displayName.Some? ==> !IsPlaceholder(l.displayName.value))
    {
      var l := m.libraries[i];
      if NotPlaceholder(l.uri).Some? {
        return NotPlaceholder(l.uri);
      }
      if l.displayName.Some? && NotPlaceholder(l.displayName.value).Some? {
        return NotPlaceholder(l.displayName.value);
      }
    }
    for i := 0 to |m.classes|
      invariant forall k :: 0 <= k < i ==> !IsPlaceholder(m.classes[k].name)
    {
      if NotPlaceholder(m.classes[i].name).Some? {
        return NotPlaceholder(m.classes[i].name);
      }
    }
    for i := 0 to |m.functions|
      invariant forall k :: 0 <= k < i && m.functions[k].name.Some? ==> !IsPlaceholder(m.functions[k].name.value.text)
    {
      var name := m.functions[i].name;
      if name.Some? && NotPlaceholder(name.value.text).Some? {
        return NotPlaceholder(name.value.text);
      }
    }
    for i := 0 to |m.pool.entries|
      invariant forall k :: 0 <= k < i && m.pool.entries[k].value.Some? ==>
                !IsPlaceholder(m.pool.entries[k].value.value)
    {
      var value := m.pool.entries[i].value;
      if value.Some? && NotPlaceholder(value.value).Some? {
        return NotPlaceholder(value.value);
      }
    }
    return None;
  }

  function CheckOneConfidence(c: Option<Confidence>, p: Provenance): (e: Check)
    ensures e.None? <==> ScoreValid(c, p)
  {
    if c.None? then None
    else if !p.Heuristic? then Some(ConfidenceWithoutHeuristicProvenance)
    else if c.value.NotFinite? || !(0.0 <= c.value.value <= 1.0) then Some(ConfidenceOutOfRange)
    else None
  }

  method CheckConfidence(m: Model) returns (e: Check)
    ensures e.None? <==> ConfidenceValid(m)
  {
    for i := 0 to |m.functions|
      invariant forall k :: 0 <= k < i && m.functions[k].name.Some? ==>
                  ScoreValid(m.functions[k].name.value.confidence, m.functions[k].name.value.provenance)
    {
      var name := m.functions[i].name;
      if name.Some? && CheckOneConfidence(name.value.confidence, name.value.provenance).Some? {
        return CheckOneConfidence(name.value.confidence, name.value.provenance);
      }
    }
    for i := 0 to |m.pool.entries|
      invariant forall k :: 0 <= k < i ==> ScoreValid(m.pool.entries[k].confidence, m.pool.entries[k].provenance)
    {
      var x := m.pool.entries[i];
      if CheckOneConfidence(x.confidence, x.provenance).Some? {
        return CheckOneConfidence(x.confidence, x.provenance);
      }
    }
    return None;
  }

  // ---- Identity and order ----------------------------------------------------------------------

  /** The first id that was seen before. */
  method FirstDuplicate(ids: seq<nat>) returns (id: Option<nat>)
    ensures id.None? <==> forall i, j :: 0 <= i < j < |ids| ==> ids[i] != ids[j]
  {
    var seen: set<nat> := {};
    for i := 0 to |ids|
      invariant forall x :: x in seen <==> x in ids[..i]
      invariant forall j, k :: 0 <= j < k < i ==> ids[j] != ids[k]
    {
      if ids[i] in seen {
        return Some(ids[i]);
      }
      assert forall j :: 0 <= j < i ==> ids[j] in ids[..i];
      assert ids[..i + 1] == ids[..i] + [ids[i]];
      seen := seen + {ids[i]};
    }
    return None;
  }

  /** Some neighbours are the wrong way round. */
  method OutOfOrder(ids: seq<nat>) returns (bad: bool)
    ensures !bad <==> forall i, j :: 0 <= i < j < |ids| ==> ids[i] <= ids[j]
  {
    var i := 1;
    while i < |ids|
      invariant 1 <= i
      invariant forall j, k :: 0 <= j < k < i && k < |ids| ==> ids[j] <= ids[k]
    {
      if ids[i - 1] > ids[i] {
        return true;
      }
      i := i + 1;
    }
    return false;
  }

  /** Duplicates are looked for in every collection before order is looked at in any. */
  method CheckIdentityAndOrder(m: Model) returns (e: Check)
    ensures e.None? <==> OrderValid(m)
  {
    var l, c, f, x := LibraryIds(m.libraries), ClassIds(m.classes), FunctionIds(m.functions),
      EntryIndexes(m.pool.entries);
    var dl := FirstDuplicate(l);
    if dl.Some? { return Some(DuplicateId("libraries", dl.value)); }
    var dc := FirstDuplicate(c);
    if dc.Some? { return Some(DuplicateId("classes", dc.value)); }
    var df := FirstDuplicate(f);
    if df.Some? { return Some(DuplicateId("functions", df.value)); }
    var dx := FirstDuplicate(x);
    if dx.Some? { return Some(DuplicateId("object pool entries", dx.value)); }
    var bl := OutOfOrder(l);
    if bl { return Some(NoncanonicalOrder("libraries")); }
    var bc := OutOfOrder(c);
    if bc { return Some(NoncanonicalOrder("classes")); }
    var bf := OutOfOrder(f);
    if bf { return Some(NoncanonicalOrder("functions")); }
    var bx := OutOfOrder(x);
    if bx { return Some(NoncanonicalOrder("object pool entries")); }
    return None;
  }

  // ---- References ------------------------------------------------------------------------------

  method CheckResolution(m: Model) returns (e: Check)
    ensures e.None? <==> ReferencesResolve(m)
  {
    var libraries, classes := LibraryIds(m.libraries), ClassIds(m.classes);
    for i := 0 to |m.classes|
      invariant forall k :: 0 <= k < i && m.classes[k].library.Some? ==> m.classes[k].library.value in libraries
      invariant forall k :: 0 <= k < i && m.classes[k].superClass.Some? ==> m.classes[k].superClass.value in classes
    {
      var c := m.classes[i];
      assert c in m.classes;
      if c.library.Some? && c.library.value !in libraries {
        return Some(MissingLibraryReference(c.id));
      }
      if c.superClass.Some? && FindClass(m.classes, c.superClass.value).None? {
        return Some(MissingSuperClassReference(c.id));
      }
    }
    for i := 0 to |m.functions|
      invariant forall k :: 0 <= k < i && m.functions[k].owner.Some? ==> m.functions[k].owner.value in classes
    {
      var f := m.functions[i];
      assert f in m.functions;
      if f.owner.Some? && FindClass(m.classes, f.owner.value).None? {
        return Some(MissingOwnerReference(f.id));
      }
    }
    return None;
  }

  method CheckReferences(m: Model) returns (e: Check)
    requires OrderValid(m)
    ensures e.None? <==> ReferencesValid(m)
  {
    e := CheckResolution(m);
    if e.None? {
      var cycle := FindCycle(m.classes);
      e := if cycle.Some? then Some(SuperClassCycle(cycle.value)) else None;
    }
  }

  // ---- Capabilities ----------------------------------------------------------------------------

  predicate AnyHeuristicLibrary(s: seq<Library>) { exists x :: x in s && x.provenance.Heuristic? }
  predicate AnyHeuristicClass(s: seq<Class>) { exists x :: x in s && x.provenance.Heuristic? }
  predicate AnyHeuristicFunction(s: seq<Function>) { exists x :: x in s && x.provenance.Heuristic? }
  predicate AnySuperClass(s: seq<Class>) { exists x :: x in s && x.superClass.Some? }
  predicate AnyNamed(s: seq<Function>) { exists x :: x in s && x.name.Some? }
  predicate AnyUnnamed(s: seq<Function>) { exists x :: x in s && x.name.None? }
  predicate AnyHeuristicName(s: seq<Function>) {
    exists x :: x in s && x.name.Some? && x.name.value.provenance.Heuristic?
  }
  predicate AnyHeuristicEntry(s: seq<PoolEntry>) { exists x :: x in s && x.provenance.Heuristic? }
  predicate AnyUndecoded(s: seq<PoolEntry>) { exists x :: x in s && x.kind.Undecoded? }

  /** The first domain whose level the model's own contents contradict. */
  function ContradictedDomain(m: Model): Option<Domain> {
    var c := m.capabilities;
    if c.libraries == Unavailable && m.libraries != [] then Some(Libraries)
    else if c.libraries == Complete && AnyHeuristicLibrary(m.libraries) then Some(Libraries)
    else if c.classes == Unavailable && m.classes != [] then Some(Classes)
    else if c.classes == Complete && AnyHeuristicClass(m.classes) then Some(Classes)
    else if c.classes == Unavailable && c.classRelationships != Unavailable then Some(ClassRelationships)
    else if c.classRelationships == Unavailable && AnySuperClass(m.classes) then Some(ClassRelationships)
    else if c.functions == Unavailable && m.functions != [] then Some(Functions)
    else if c.functions == Complete && AnyHeuristicFunction(m.functions) then Some(Functions)
    else if c.functions == Unavailable && c.functionNames != Unavailable then Some(FunctionNames)
    else if c.functionNames == Unavailable && AnyNamed(m.functions) then Some(FunctionNames)
    else if c.functionNames == Complete && AnyUnnamed(m.functions) then Some(FunctionNames)
    else if c.functionNames == Complete && AnyHeuristicName(m.functions) then Some(FunctionNames)
    else if c.objectPool == Unavailable && m.pool.entries != [] then Some(ObjectPool)
    else if c.objectPool == Complete && AnyHeuristicEntry(m.pool.entries) then Some(ObjectPool)
    else if c.objectPool == Complete && AnyUndecoded(m.pool.entries) then Some(ObjectPool)
    else if c.objectPool == Unavailable && c.poolIndexSpace != Unavailable then Some(PoolIndexSpace)
    else match m.pool.indexSpace
      case Hardware =>
        if m.pool.geometry.None? || c.poolIndexSpace == Unavailable then Some(PoolIndexSpace) else None
      case Ordinal =>
        if m.pool.geometry.Some? || c.poolIndexSpace != Unavailable then Some(PoolIndexSpace) else None
  }

  method CheckCapabilities(m: Model) returns (e: Check)
    ensures e.None? <==> CapabilitiesValid(m)
  {
    var domain := ContradictedDomain(m);
    if domain.Some? {
      return Some(CapabilityContradiction(domain.value));
    }
    for i := 0 to |DOMAINS|
      invariant forall k :: 0 <= k < i && LevelOf(m.capabilities, DOMAINS[k]) == Unavailable ==>
                Explained(m, DOMAINS[k])
    {
      assert DOMAINS[i] in DOMAINS;
      if LevelOf(m.capabilities, DOMAINS[i]) == Unavailable &&
         !(exists d :: d in m.diagnostics && d.subject == Some(DomainName(DOMAINS[i]))) {
        return Some(UnavailableDomainWithoutDiagnostic(DOMAINS[i]));
      }
    }
    return None;
  }

  // ---- Geometry and addresses ------------------------------------------------------------------

  /** `is_power_of_two`, for the widths that get that far. */
  predicate PowerOfTwo(w: nat) {
    w == 1 || w == 2 || w == 4 || w == 8
  }

  method CheckGeometry(m: Model) returns (e: Check)
    ensures e.None? <==> GeometryValid(m)
  {
    if m.pool.geometry.None? {
      return None;
    }
    var g := m.pool.geometry.value;
    if g.wordSize == 0 || g.wordSize > 8 || !PowerOfTwo(g.wordSize) {
      return Some(BadPoolGeometry);
    }
    if g.entriesOffset % g.wordSize != 0 {
      return Some(BadPoolGeometry);
    }
    for i := 0 to |m.pool.entries|
      invariant forall k :: 0 <= k < i ==> DisplacementForIndex(g, m.pool.entries[k].index).Some?
    {
      if DisplacementForIndex(g, m.pool.entries[i].index).None? {
        assert m.pool.entries[i] in m.pool.entries;
        return Some(PoolIndexOutOfBounds(m.pool.entries[i].index));
      }
    }
    return None;
  }

  function CheckFunction(m: Model, f: Function): (e: Check)
    ensures e.None? <==> CodeAddressed(m, f)
  {
    if f.size == 0 then Some(EmptyCodeRange(f.id))
    else if CheckedAdd(f.startVa, f.size).None? then Some(AddressOverflow(f.id))
    else if !(exists r :: r in m.regions && r.executable && ContainsRange(r, f.startVa, f.size))
    then Some(CodeRangeOutsideExecutableRegions(f.id))
    else if !(exists r :: r in m.regions && r.executable && r.virtualAddress == Some(f.codeSectionVa)
                          && ContainsRange(r, f.startVa, f.size))
    then Some(CodeSectionMismatch(f.id))
    else None
  }

  function CheckEntry(m: Model, x: PoolEntry): (e: Check)
    ensures e.None? <==> ShapeValid(x) && (x.targetVa.Some? ==> InCode(m, x.targetVa.value))
  {
    if x.kind.CodeKind? && x.targetVa.None? then Some(PoolEntryShape(x.index))
    else if x.kind.Undecoded? && x.value.Some? then Some(PoolEntryShape(x.index))
    else if x.targetVa.Some? && !x.kind.CodeKind? && !x.kind.SelectorKind? then Some(PoolEntryShape(x.index))
    else if x.value.None? && !x.kind.Undecoded? then Some(PoolEntryShape(x.index))
    else if x.targetVa.Some? && !(exists r :: r in m.regions && r.executable && ContainsRange(r, x.targetVa.value, 1))
    then Some(PoolTargetOutsideExecutableRegions(x.index))
    else None
  }

  method CheckAddresses(m: Model) returns (e: Check)
    ensures e.None? <==> AddressesValid(m)
  {
    for i := 0 to |m.functions|
      invariant forall k :: 0 <= k < i ==> CodeAddressed(m, m.functions[k])
    {
      e := CheckFunction(m, m.functions[i]);
      if e.Some? {
        assert m.functions[i] in m.functions;
        return;
      }
    }
    for i := 0 to |m.pool.entries|
      invariant forall k :: 0 <= k < i ==>
                  var x := m.pool.entries[k]; ShapeValid(x) && (x.targetVa.Some? ==> InCode(m, x.targetVa.value))
    {
      e := CheckEntry(m, m.pool.entries[i]);
      if e.Some? {
        assert m.pool.entries[i] in m.pool.entries;
        return;
      }
    }
    return None;
  }

  /** Accepts exactly the acceptable models; otherwise names the first pass that fails. */
  method Validate(m: Model, h: HostContext) returns (e: Check)
    ensures e.None? <==> Acceptable(m, h)
  {
    if m.version != MODEL_VERSION {
      return Some(UnsupportedModelVersion);
    }
    e := CheckRegions(m);
    if e.Some? { return; }
    e := CheckHostFacts(m, h);
    if e.Some? { return; }
    e := CheckStrings(m);
    if e.Some? { return; }
    e := CheckConfidence(m);
    if e.Some? { return; }
    e := CheckIdentityAndOrder(m);
    if e.Some? { return; }
    e := CheckReferences(m);
    if e.Some? { return; }
    e := CheckCapabilities(m);
    if e.Some? { return; }
    e := CheckGeometry(m);
    if e.Some? { return; }
    e := CheckAddresses(m);
  }
}
