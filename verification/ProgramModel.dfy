/** ProgramModel v4, and what it means for a model to be acceptable to the host. */
module ProgramModel {
  import opened Collections
  import opened Compatibility
  import opened Text
  import opened PoolResolver

  datatype Provenance = Exact | Derived | Heuristic

  datatype Level = Complete | Partial | Unavailable

  datatype Domain = Libraries | Classes | ClassRelationships | Functions | FunctionNames | ObjectPool | PoolIndexSpace

  const DOMAINS: seq<Domain> :=
    [Libraries, Classes, ClassRelationships, Functions, FunctionNames, ObjectPool, PoolIndexSpace]

  function DomainName(d: Domain): string {
    match d
    case Libraries => "libraries"
    case Classes => "classes"
    case ClassRelationships => "class_relationships"
    case Functions => "functions"
    case FunctionNames => "function_names"
    case ObjectPool => "object_pool"
    case PoolIndexSpace => "pool_index_space"
  }

  datatype Capabilities = Capabilities(
    libraries: Level, classes: Level, classRelationships: Level, functions: Level,
    functionNames: Level, objectPool: Level, poolIndexSpace: Level)

  function LevelOf(c: Capabilities, d: Domain): Level {
    match d
    case Libraries => c.libraries
    case Classes => c.classes
    case ClassRelationships => c.classRelationships
    case Functions => c.functions
    case FunctionNames => c.functionNames
    case ObjectPool => c.objectPool
    case PoolIndexSpace => c.poolIndexSpace
  }

  datatype Diagnostic = Diagnostic(code: string, subject: Option<string>)

  datatype RegionName = VmData | IsolateData | VmInstructions | IsolateInstructions

  function RegionRank(n: RegionName): nat {
    match n
    case VmData => 0
    case IsolateData => 1
    case VmInstructions => 2
    case IsolateInstructions => 3
  }

  predicate HoldsCode(n: RegionName) {
    n.VmInstructions? || n.IsolateInstructions?
  }

  datatype Region = Region(name: RegionName, size: nat, sha256: string, virtualAddress: Option<nat>, executable: bool)

  /** One past the region's last byte, when that is still an address. */
  function RegionEnd(r: Region): Option<nat> {
    if r.virtualAddress.None? then None else CheckedAdd(r.virtualAddress.value, r.size)
  }

  predicate ContainsRange(r: Region, start: nat, size: nat) {
    r.virtualAddress.Some? && RegionEnd(r).Some? && CheckedAdd(start, size).Some?
    && r.virtualAddress.value <= start && start + size <= RegionEnd(r).value
  }

  datatype HashSource = Header | Scan | NoHash
  datatype Trust = Registered | Local | Untrusted

  datatype Identity = Identity(
    hash: Option<string>, hashSource: HashSource, kind: Option<SnapshotKind>, targetArch: TargetArch,
    rawFeatures: Option<string>, normalizedFeatures: seq<string>, pointerCompression: PointerCompression)

  datatype Producer = Producer(id: string, version: string, artifactSha256: string, trust: Trust)

  datatype Binding = Binding(recordSha256: string, parserFamilyId: string, profileId: string, profileSha256: string)

  /** A confidence score as it arrives: a number, or one of the values that are not numbers. */
  datatype Confidence = Finite(value: real) | NotFinite

  datatype Name = Name(text: string, provenance: Provenance, confidence: Option<Confidence>)

  datatype Library = Library(id: nat, uri: string, displayName: Option<string>, provenance: Provenance)

  datatype Class = Class(id: nat, name: string, library: Option<nat>, superClass: Option<nat>, provenance: Provenance)

  datatype Function = Function(
    id: nat, name: Option<Name>, owner: Option<nat>, startVa: nat, size: nat, codeSectionVa: nat,
      provenance: Provenance)

  datatype PoolKind = StringKind | Immediate | CodeKind | FieldKind | ClassKind | SelectorKind | Undecoded

  datatype PoolEntry = PoolEntry(
    index: nat, kind: PoolKind, value: Option<string>, targetVa: Option<nat>, provenance: Provenance,
    confidence: Option<Confidence>)

  datatype IndexSpace = Hardware | Ordinal

  datatype Pool = Pool(indexSpace: IndexSpace, geometry: Option<Geometry>, entries: seq<PoolEntry>)

  datatype Model = Model(
    version: nat, producer: Producer, identity: Identity, regions: seq<Region>, compatibility: Option<Binding>,
    capabilities: Capabilities, libraries: seq<Library>, classes: seq<Class>, functions: seq<Function>, pool: Pool,
    diagnostics: seq<Diagnostic>)

  datatype HostContext = HostContext(
    identity: Identity, producer: Producer, compatibility: Option<Binding>, regions: seq<Region>)

  // ---- Text rules ------------------------------------------------------------------------------

  const ANY_CASE_PLACEHOLDERS: seq<string> :=
    ["", "-", "?", "??", "???", "n/a", "na", "todo", "tbd", "unknown", "<unknown>", "unnamed", "anonymous",
     "placeholder", "undefined"]

  const LOWER_CASE_PLACEHOLDERS: seq<string> := ["none", "null", "nil"]

  /** An admission that nothing was recovered, written where a value should be. */
  predicate IsPlaceholder(text: string) {
    Trim(text) in LOWER_CASE_PLACEHOLDERS || Lower(Trim(text)) in ANY_CASE_PLACEHOLDERS
  }

  predicate IsBlank(text: string) {
    Trim(text) == ""
  }

  // ---- The declarative contract ----------------------------------------------------------------

  ghost predicate RegionSound(r: Region) {
    r.executable == HoldsCode(r.name) && r.executable == r.virtualAddress.Some? && (r.executable ==> RegionEnd(r).Some?)
  }

  /** The region table is in canonical order and each region is what its name says. */
  ghost predicate RegionsValid(m: Model) {
    && (forall i, j :: 0 <= i < j < |m.regions| ==> RegionRank(m.regions[i].name) < RegionRank(m.regions[j].name))
    && (forall i :: 0 <= i < |m.regions| ==> RegionSound(m.regions[i]))
  }

  /** Two regions agree on what the host compares. */
  predicate SameRegion(a: Region, b: Region) {
    a.name == b.name && a.size == b.size && a.sha256 == b.sha256 && a.virtualAddress == b.virtualAddress
  }

  /** The model is about what the host selected, no more and no less. */
  ghost predicate HostFactsValid(m: Model, h: HostContext) {
    && m.identity == h.identity && m.producer == h.producer && m.compatibility == h.compatibility
    && (forall r :: r in h.regions ==> exists o :: o in m.regions && SameRegion(o, r))
    && (forall o :: o in m.regions ==> exists r :: r in h.regions && r.name == o.name)
  }

  ghost predicate StringsValid(m: Model) {
    && !IsBlank(m.producer.id) && !IsBlank(m.producer.version)
    && (m.compatibility.Some? ==>
        !IsBlank(m.compatibility.value.parserFamilyId) && !IsBlank(m.compatibility.value.profileId))
    && (forall l :: l in m.libraries ==>
        !IsPlaceholder(l.uri) && (l.displayName.Some? ==> !IsPlaceholder(l.displayName.value)))
    && (forall c :: c in m.classes ==> !IsPlaceholder(c.name))
    && (forall f :: f in m.functions && f.name.Some? ==> !IsPlaceholder(f.name.value.text))
    && (forall e :: e in m.pool.entries && e.value.Some? ==> !IsPlaceholder(e.value.value))
  }

  /** Only guesses carry a score, and a score is a number between 0 and 1. */
  predicate ScoreValid(c: Option<Confidence>, p: Provenance) {
    c.None? || (p.Heuristic? && c.value.Finite? && 0.0 <= c.value.value <= 1.0)
  }

  ghost predicate ConfidenceValid(m: Model) {
    && (forall f :: f in m.functions && f.name.Some? ==> ScoreValid(f.name.value.confidence, f.name.value.provenance))
    && (forall e :: e in m.pool.entries ==> ScoreValid(e.confidence, e.provenance))
  }

  function LibraryIds(s: seq<Library>): seq<nat> { seq(|s|, i requires 0 <= i < |s| => s[i].id) }
  function ClassIds(s: seq<Class>): seq<nat> { seq(|s|, i requires 0 <= i < |s| => s[i].id) }
  function FunctionIds(s: seq<Function>): seq<nat> { seq(|s|, i requires 0 <= i < |s| => s[i].id) }
  function EntryIndexes(s: seq<PoolEntry>): seq<nat> { seq(|s|, i requires 0 <= i < |s| => s[i].index) }

  ghost predicate OrderValid(m: Model) {
    && StrictlyAscending(LibraryIds(m.libraries)) && StrictlyAscending(ClassIds(m.classes))
    && StrictlyAscending(FunctionIds(m.functions)) && StrictlyAscending(EntryIndexes(m.pool.entries))
  }

  /** A rank falls along every superclass edge: the relation has no cycle. */
  ghost predicate Ranks(classes: seq<Class>, rank: map<nat, nat>) {
    forall c :: c in classes && c.superClass.Some? ==>
      c.id in rank && c.superClass.value in rank && rank[c.superClass.value] < rank[c.id]
  }

  ghost predicate Acyclic(classes: seq<Class>) {
    exists rank :: Ranks(classes, rank)
  }

  ghost predicate ReferencesResolve(m: Model) {
    && (forall c :: c in m.classes && c.library.Some? ==> c.library.value in LibraryIds(m.libraries))
    && (forall c :: c in m.classes && c.superClass.Some? ==> c.superClass.value in ClassIds(m.classes))
    && (forall f :: f in m.functions && f.owner.Some? ==> f.owner.value in ClassIds(m.classes))
  }

  ghost predicate ReferencesValid(m: Model) {
    ReferencesResolve(m) && Acyclic(m.classes)
  }

  ghost predicate Explained(m: Model, d: Domain) {
    exists x :: x in m.diagnostics && x.subject == Some(DomainName(d))
  }

  /** No domain's level contradicts what the model holds, and every unavailable domain says why. */
  ghost predicate CapabilitiesValid(m: Model) {
    var c := m.capabilities;
    && (c.libraries == Unavailable ==> m.libraries == [])
    && (c.libraries == Complete ==> forall l :: l in m.libraries ==> !l.provenance.Heuristic?)
    && (c.classes == Unavailable ==> m.classes == [] && c.classRelationships == Unavailable)
    && (c.classes == Complete ==> forall x :: x in m.classes ==> !x.provenance.Heuristic?)
    && (c.classRelationships == Unavailable ==> forall x :: x in m.classes ==> x.superClass.None?)
    && (c.functions == Unavailable ==> m.functions == [] && c.functionNames == Unavailable)
    && (c.functions == Complete ==> forall f :: f in m.functions ==> !f.provenance.Heuristic?)
    && (c.functionNames == Unavailable ==> forall f :: f in m.functions ==> f.name.None?)
    && (c.functionNames == Complete ==> forall f :: f in m.functions ==>
        f.name.Some? && !f.name.value.provenance.Heuristic?)
    && (c.objectPool == Unavailable ==> m.pool.entries == [] && c.poolIndexSpace == Unavailable)
    && (c.objectPool == Complete ==>
          forall e :: e in m.pool.entries ==> !e.provenance.Heuristic? && !e.kind.Undecoded?)
    && (m.pool.indexSpace.Hardware? <==> m.pool.geometry.Some?)
    && (m.pool.indexSpace.Hardware? <==> c.poolIndexSpace != Unavailable)
    && (forall d :: d in DOMAINS && LevelOf(c, d) == Unavailable ==> Explained(m, d))
  }

  /** The layout can describe an object pool, and every index has a displacement in it. */
  ghost predicate GeometryValid(m: Model) {
    m.pool.geometry.Some? ==>
      var g := m.pool.geometry.value;
      && g.wordSize in {1, 2, 4, 8} && g.entriesOffset % g.wordSize == 0
      && forall e :: e in m.pool.entries ==> DisplacementForIndex(g, e.index).Some?
  }

  ghost predicate CodeAddressed(m: Model, f: Function) {
    f.size > 0 && exists r :: r in m.regions && r.executable && r.virtualAddress == Some(f.codeSectionVa)
                           && ContainsRange(r, f.startVa, f.size)
  }

  /** A pool entry's kind decides what else it carries. */
  predicate ShapeValid(e: PoolEntry) {
    && (e.kind.CodeKind? ==> e.targetVa.Some?)
    && (e.kind.Undecoded? <==> e.value.None?)
    && (e.targetVa.Some? ==> e.kind.CodeKind? || e.kind.SelectorKind?)
  }

  ghost predicate InCode(m: Model, address: nat) {
    exists r :: r in m.regions && r.executable && ContainsRange(r, address, 1)
  }

  ghost predicate AddressesValid(m: Model) {
    && (forall f :: f in m.functions ==> CodeAddressed(m, f))
    && (forall e :: e in m.pool.entries ==> ShapeValid(e) && (e.targetVa.Some? ==> InCode(m, e.targetVa.value)))
  }

  /** Everything the host asks of a model. */
  ghost predicate Acceptable(m: Model, h: HostContext) {
    && m.version == MODEL_VERSION
    && RegionsValid(m) && HostFactsValid(m, h) && StringsValid(m) && ConfidenceValid(m) && OrderValid(m)
    && ReferencesValid(m) && CapabilitiesValid(m) && GeometryValid(m) && AddressesValid(m)
  }

  /**
    * In an acceptable model with a hardware pool, every entry sits at its own displacement, and a
    * reference to that displacement resolves back to that entry's index and no other.
    */
  lemma AcceptedEntriesAreAddressable(m: Model, h: HostContext, e: PoolEntry, f: PoolEntry)
    requires Acceptable(m, h) && m.pool.geometry.Some? && e in m.pool.entries && f in m.pool.entries
    ensures var g := m.pool.geometry.value;
            var d := DisplacementForIndex(g, e.index);
            d.Some? && IndexForDisplacement(g, d.value) == Some(e.index)
            && (DisplacementForIndex(g, f.index) == d ==> f == e)
  {
    var g := m.pool.geometry.value;
    var d := DisplacementForIndex(g, e.index).value;
    GeometryRoundTrip(g, d, e.index);
    GeometryRoundTrip(g, d, f.index);
    var i :| 0 <= i < |m.pool.entries| && m.pool.entries[i] == e;
    var j :| 0 <= j < |m.pool.entries| && m.pool.entries[j] == f;
    assert EntryIndexes(m.pool.entries)[i] == e.index && EntryIndexes(m.pool.entries)[j] == f.index;
  }

  /** The first region of that name. */
  function FindRegion(regions: seq<Region>, name: RegionName): (r: Option<Region>)
    ensures r.Some? ==> r.value in regions && r.value.name == name
    ensures r.None? ==> forall x :: x in regions ==> x.name != name
  {
    if regions == [] then None
    else if regions[0].name == name then Some(regions[0])
    else FindRegion(regions[1..], name)
  }
}
