/** The checked-in producer's internal backend, and why the host accepts whatever it builds. */
module InternalProducer {
  import opened Collections
  import opened Compatibility
  import opened ProgramModel
  import opened Carving
  import opened CodeRanges

  /** What the host asks for: its own facts, to be reported back, and the regions it hands over. */
  datatype Request = Request(identity: Identity, compatibility: Binding, producer: Producer, inputs: seq<Region>)

  datatype ReadError = NoHandle | NotReadable | WrongSize | WrongDigest

  /** A region's bytes, checked against the handle the host declared for them. */
  function ReadRegion(digest: string -> string, files: map<RegionName, string>, request: Request, name: RegionName)
    : (r: Result<string, ReadError>)
    ensures r.Ok? <==> && name in files && FindRegion(request.inputs, name).Some?
                       && |files[name]| == FindRegion(request.inputs, name).value.size
                       && digest(files[name]) == FindRegion(request.inputs, name).value.sha256
    ensures r.Ok? ==> r.value == files[name]
  {
    match FindRegion(request.inputs, name)
    case None => Err(NoHandle)
    case Some(handle) =>
      if name !in files then Err(NotReadable)
      else if |files[name]| != handle.size then Err(WrongSize)
      else if digest(files[name]) != handle.sha256 then Err(WrongDigest)
      else Ok(files[name])
  }

  function RegionVa(request: Request, name: RegionName): nat {
    var handle := FindRegion(request.inputs, name);
    if handle.Some? && handle.value.virtualAddress.Some? then handle.value.virtualAddress.value else 0
  }

  /** A request the host would send: every region once, in order, consistent, and nothing blank. */
  ghost predicate WellFormedRequest(r: Request) {
    && (forall i, j :: 0 <= i < j < |r.inputs| ==> RegionRank(r.inputs[i].name) < RegionRank(r.inputs[j].name))
    && (forall i :: 0 <= i < |r.inputs| ==> RegionSound(r.inputs[i]))
    && (forall n :: FindRegion(r.inputs, n).Some?)
    && !IsBlank(r.producer.id) && !IsBlank(r.producer.version)
    && !IsBlank(r.compatibility.parserFamilyId) && !IsBlank(r.compatibility.profileId)
  }

  /** What the host will hold the answer against. */
  function HostFor(r: Request): HostContext {
    HostContext(r.identity, r.producer, Some(r.compatibility), r.inputs)
  }

  /** Adds the diagnostic every unavailable domain owes that does not have one yet. */
  method ExplainUnavailable(c: Capabilities, diagnostics: seq<Diagnostic>) returns (all: seq<Diagnostic>)
    ensures diagnostics <= all
    ensures forall d :: d in DOMAINS && LevelOf(c, d) == Unavailable ==>
              exists x :: x in all && x.subject == Some(DomainName(d))
  {
    var explained := set i | 0 <= i < |diagnostics| :: diagnostics[i].subject;
    all := diagnostics;
    for i := 0 to |DOMAINS|
      invariant diagnostics <= all
      invariant forall k :: 0 <= k < i && LevelOf(c, DOMAINS[k]) == Unavailable ==>
                  exists x :: x in all && x.subject == Some(DomainName(DOMAINS[k]))
    {
      var d := DOMAINS[i];
      if LevelOf(c, d) == Unavailable {
        if Some(DomainName(d)) !in explained {
          all := all + [Diagnostic("domain_not_recovered", Some(DomainName(d)))];
          assert all[|all| - 1].subject == Some(DomainName(d));
        } else {
          var k :| 0 <= k < |diagnostics| && diagnostics[k].subject == Some(DomainName(d));
          assert diagnostics[k] == all[k] && all[k] in all;
        }
      }
    }
  }

  function LibraryId(l: Library): nat { l.id }
  function ClassId(c: Class): nat { c.id }
  function FunctionId(f: Function): nat { f.id }

  method BuildModel(request: Request, c: Capabilities, libraries: seq<Library>, classes: seq<Class>,
                    functions: seq<Function>, pool: Pool, diagnostics: seq<Diagnostic>) returns (m: Model)
    ensures m == Model(MODEL_VERSION, request.producer, request.identity, request.inputs, Some(request.compatibility),
                       c, SortBy(libraries, LibraryId), SortBy(classes, ClassId), SortBy(functions, FunctionId), pool,
                       m.diagnostics)
    ensures forall d :: d in DOMAINS && LevelOf(c, d) == Unavailable ==> Explained(m, d)
  {
    var all := ExplainUnavailable(c, diagnostics);
    m := Model(MODEL_VERSION, request.producer, request.identity, request.inputs, Some(request.compatibility), c,
               SortBy(libraries, LibraryId), SortBy(classes, ClassId), SortBy(functions, FunctionId), pool, all);
  }

  /** The model's pool: carved strings in carve order, claiming no hardware meaning. */
  function StringPool(strings: seq<string>): Pool {
    Pool(Ordinal, None,
         seq(|strings|, i requires 0 <= i < |strings| =>
           PoolEntry(i, StringKind, Some(strings[i]), None, Heuristic, None)))
  }

  function LibrariesOf(uris: seq<string>): seq<Library> {
    seq(|uris|, i requires 0 <= i < |uris| => Library(i, uris[i], None, Heuristic))
  }

  function InternalCapabilities(uris: seq<string>, functions: seq<Function>, strings: seq<string>): Capabilities {
    Capabilities(
      if uris != [] then Partial else Unavailable,
      Unavailable, Unavailable,
      if functions != [] then Partial else Unavailable,
      Unavailable,
      if strings != [] then Partial else Unavailable,
      Unavailable)
  }

  function InternalDiagnostics(functions: seq<Function>): seq<Diagnostic> {
    (if functions != [] then [Diagnostic("domain_heuristic_only", Some(DomainName(Functions)))] else [])
    + [Diagnostic("domain_not_recovered", Some(DomainName(Classes))),
       Diagnostic("domain_not_recovered", Some(DomainName(FunctionNames))),
       Diagnostic("domain_not_recovered", Some(DomainName(PoolIndexSpace)))]
  }

  /** The parts the internal backend recovered, as far as the host's rules depend on them. */
  ghost predicate Recovered(request: Request, strings: seq<string>, uris: seq<string>, functions: seq<Function>,
                            m: Model)
    requires WellFormedRequest(request)
  {
    var base := RegionVa(request, IsolateInstructions);
    && (forall s :: s in strings ==> Usable(s)) && (forall u :: u in uris ==> u in strings)
    && RangesFit(functions, base, base + FindRegion(request.inputs, IsolateInstructions).value.size)
    && m == Model(MODEL_VERSION, request.producer, request.identity, request.inputs, Some(request.compatibility),
                  InternalCapabilities(uris, functions, strings), LibrariesOf(uris), [], functions,
                    StringPool(strings), m.diagnostics)
    && (forall d :: d in DOMAINS && LevelOf(m.capabilities, d) == Unavailable ==> Explained(m, d))
  }

  /** What every recovered range is, as a member of the list. */
  lemma RangesAreUnnamedGuesses(functions: seq<Function>, base: nat, hi: nat)
    requires RangesFit(functions, base, hi)
    ensures forall f :: f in functions ==> f.name.None? && f.owner.None? && f.provenance == Heuristic
    ensures StrictlyAscending(FunctionIds(functions)) && SortedBy(functions, FunctionId)
  {
    forall i | 0 <= i < |functions|
      ensures functions[i].id == i && functions[i].name.None? && functions[i].owner.None? &&
              functions[i].provenance == Heuristic
    {
      assert RangeFits(functions, base, hi, i);
    }
  }

  lemma IdsAreSorted(uris: seq<string>, functions: seq<Function>, base: nat, hi: nat)
    requires RangesFit(functions, base, hi)
    ensures SortBy(LibrariesOf(uris), LibraryId) == LibrariesOf(uris)
    ensures SortBy(functions, FunctionId) == functions
    ensures SortBy<Class>([], ClassId) == []
  {
    RangesAreUnnamedGuesses(functions, base, hi);
    SortingSortedIsIdentity(LibrariesOf(uris), LibraryId);
    SortingSortedIsIdentity(functions, FunctionId);
  }

  /** A model that repeats what the request said meets the host's facts. */
  lemma EchoedHostFacts(request: Request, m: Model)
    requires WellFormedRequest(request) && m.regions == request.inputs
    requires m.identity == request.identity && m.producer == request.producer
    requires m.compatibility == Some(request.compatibility)
    ensures RegionsValid(m) && HostFactsValid(m, HostFor(request))
  {
    forall r | r in request.inputs ensures exists o :: o in m.regions && SameRegion(o, r) {
      assert SameRegion(r, r);
    }
  }

  lemma RecoveredHostFacts(request: Request, strings: seq<string>, uris: seq<string>, functions: seq<Function>,
                           m: Model)
    requires WellFormedRequest(request) && Recovered(request, strings, uris, functions, m)
    ensures RegionsValid(m) && HostFactsValid(m, HostFor(request))
  {
    EchoedHostFacts(request, m);
  }

  lemma RecoveredStrings(request: Request, strings: seq<string>, uris: seq<string>, functions: seq<Function>, m: Model)
    requires WellFormedRequest(request) && Recovered(request, strings, uris, functions, m)
    ensures StringsValid(m)
  {
    var base := RegionVa(request, IsolateInstructions);
    RangesAreUnnamedGuesses(functions, base, base + FindRegion(request.inputs, IsolateInstructions).value.size);
    forall l | l in m.libraries ensures !IsPlaceholder(l.uri) && l.displayName.None? {
      var i :| 0 <= i < |m.libraries| && m.libraries[i] == l;
      assert uris[i] in uris;
    }
    forall e | e in m.pool.entries ensures e.value.Some? && !IsPlaceholder(e.value.value) {
      var i :| 0 <= i < |m.pool.entries| && m.pool.entries[i] == e;
      assert strings[i] in strings;
    }
  }

  lemma RecoveredScoresAndOrder(request: Request, strings: seq<string>, uris: seq<string>, functions: seq<Function>,
                                m: Model)
    requires WellFormedRequest(request) && Recovered(request, strings, uris, functions, m)
    ensures ConfidenceValid(m) && OrderValid(m) && GeometryValid(m)
  {
    var base := RegionVa(request, IsolateInstructions);
    RangesAreUnnamedGuesses(functions, base, base + FindRegion(request.inputs, IsolateInstructions).value.size);
  }

  lemma RecoveredContents(request: Request, strings: seq<string>, uris: seq<string>, functions: seq<Function>, m: Model)
    requires WellFormedRequest(request) && Recovered(request, strings, uris, functions, m)
    ensures ReferencesValid(m) && CapabilitiesValid(m)
  {
    var base := RegionVa(request, IsolateInstructions);
    RangesAreUnnamedGuesses(functions, base, base + FindRegion(request.inputs, IsolateInstructions).value.size);
    assert Ranks([], map[]);
    assert m.classes == [];
  }

  lemma RecoveredAddresses(request: Request, strings: seq<string>, uris: seq<string>, functions: seq<Function>,
                           m: Model)
    requires WellFormedRequest(request) && Recovered(request, strings, uris, functions, m)
    ensures AddressesValid(m)
  {
    var region := FindRegion(request.inputs, IsolateInstructions).value;
    assert RegionSound(region) by {
      var i :| 0 <= i < |request.inputs| && request.inputs[i] == region;
      assert RegionSound(request.inputs[i]);
    }
    var base := region.virtualAddress.value;
    forall f | f in functions ensures CodeAddressed(m, f) {
      var i :| 0 <= i < |functions| && functions[i] == f;
      assert RangeFits(functions, base, base + region.size, i);
      RangesStayBelow(functions, base, base + region.size, i);
      assert region in m.regions && ContainsRange(region, f.startVa, f.size);
    }
  }

  lemma RecoveredModelsAreAcceptable(request: Request, strings: seq<string>, uris: seq<string>,
                                     functions: seq<Function>, m: Model)
    requires WellFormedRequest(request) && Recovered(request, strings, uris, functions, m)
    ensures Acceptable(m, HostFor(request))
  {
    RecoveredHostFacts(request, strings, uris, functions, m);
    RecoveredStrings(request, strings, uris, functions, m);
    RecoveredScoresAndOrder(request, strings, uris, functions, m);
    RecoveredContents(request, strings, uris, functions, m);
    RecoveredAddresses(request, strings, uris, functions, m);
  }

  function UrisOf(data: string): seq<string> {
    FirstOf(Unique(Filter(CarvedStrings(data), IsLibraryUri)), 512)
  }

  /**
    * The model says what the bytes hold: every carved string, the library URIs among them, every guessed start,
    * nothing else.
    */
  ghost predicate RecoveredFrom(m: Model, data: string, code: string, base: nat) {
    && m.classes == [] && m.pool == StringPool(CarvedStrings(data))
    && m.libraries == LibrariesOf(UrisOf(data))
    && m.pool.indexSpace == Ordinal && m.pool.geometry.None? && |m.pool.entries| == |CarvedStrings(data)|
    && (forall i :: 0 <= i < |m.pool.entries| ==>
          m.pool.entries[i] == PoolEntry(i, StringKind, Some(CarvedStrings(data)[i]), None, Heuristic, None))
    && |m.libraries| == |UrisOf(data)|
    && (forall i :: 0 <= i < |m.libraries| ==> m.libraries[i] == Library(i, UrisOf(data)[i], None, Heuristic))
    && Guessed(m.functions, code, base)
  }

  /** The parts come in id order, so sorting them changes nothing. */
  lemma SortedPartsAreRecovered(request: Request, strings: seq<string>, uris: seq<string>, functions: seq<Function>,
                                base: nat, hi: nat, m: Model)
    requires WellFormedRequest(request) && base == RegionVa(request, IsolateInstructions)
    requires hi == base + FindRegion(request.inputs, IsolateInstructions).value.size && RangesFit(functions, base, hi)
    requires (forall s :: s in strings ==> Usable(s)) && forall u :: u in uris ==> u in strings
    requires m == Model(MODEL_VERSION, request.producer, request.identity, request.inputs, Some(request.compatibility),
                        InternalCapabilities(uris, functions, strings), SortBy(LibrariesOf(uris), LibraryId),
                        SortBy([], ClassId), SortBy(functions, FunctionId), StringPool(strings), m.diagnostics)
    requires forall d :: d in DOMAINS && LevelOf(m.capabilities, d) == Unavailable ==> Explained(m, d)
    ensures Recovered(request, strings, uris, functions, m)
  {
    IdsAreSorted(uris, functions, base, hi);
    UnsortedPartsAreRecovered(request, strings, uris, functions, m);
  }

  lemma UnsortedPartsAreRecovered(request: Request, strings: seq<string>, uris: seq<string>, functions: seq<Function>,
                                  m: Model)
    requires WellFormedRequest(request)
    requires (forall s :: s in strings ==> Usable(s)) && forall u :: u in uris ==> u in strings
    requires var base := RegionVa(request, IsolateInstructions);
             RangesFit(functions, base, base + FindRegion(request.inputs, IsolateInstructions).value.size)
    requires m == Model(MODEL_VERSION, request.producer, request.identity, request.inputs, Some(request.compatibility),
                        InternalCapabilities(uris, functions, strings), LibrariesOf(uris), [], functions,
                        StringPool(strings), m.diagnostics)
    requires forall d :: d in DOMAINS && LevelOf(m.capabilities, d) == Unavailable ==> Explained(m, d)
    ensures Recovered(request, strings, uris, functions, m)
  {
  }

  /** The model put together from what was recovered, which it holds unchanged. */
  method Assemble(request: Request, strings: seq<string>, uris: seq<string>, functions: seq<Function>, base: nat,
                  hi: nat) returns (m: Model)
    requires WellFormedRequest(request) && base == RegionVa(request, IsolateInstructions)
    requires hi == base + FindRegion(request.inputs, IsolateInstructions).value.size && RangesFit(functions, base, hi)
    requires (forall s :: s in strings ==> Usable(s)) && forall u :: u in uris ==> u in strings
    ensures Acceptable(m, HostFor(request))
    ensures m.classes == [] && m.pool == StringPool(strings) && m.libraries == LibrariesOf(uris) &&
            m.functions == functions
  {
    m := BuildModel(request, InternalCapabilities(uris, functions, strings), LibrariesOf(uris), [], functions,
                    StringPool(strings), InternalDiagnostics(functions));
    SortedPartsAreRecovered(request, strings, uris, functions, base, hi, m);
    RecoveredModelsAreAcceptable(request, strings, uris, functions, m);
  }

  /** Everything carved from the data image. */
  method CarveImage(data: string) returns (strings: seq<string>, uris: seq<string>)
    ensures strings == CarvedStrings(data) && uris == UrisOf(data)
    ensures (forall s :: s in strings ==> Usable(s)) && forall u :: u in uris ==> u in strings
  {
    strings := ExtractStrings(data);
    forall s | s in strings ensures Usable(s) {
      assert Carved(data, s);
    }
    uris := LibraryUris(strings);
  }

  /** The code ranges guessed from the instruction bytes, and nothing but those. */
  ghost predicate Guessed(functions: seq<Function>, code: string, base: nat) {
    && RangesFit(functions, base, base + |code|)
    && (forall a: nat :: (exists i :: 0 <= i < |functions| && functions[i].startVa == a) <==> IsStart(code, base, a))
    && (IsBytes(code) ==> forall a: nat :: IsStart(code, base, a) <==> SpelledStart(code, base, a))
  }

  method GuessRanges(code: string, base: nat) returns (functions: seq<Function>)
    ensures Guessed(functions, code, base) && RangesFit(functions, base, base + |code|)
  {
    functions := RecoverCodeRanges(code, base);
  }

  /** The model recovered from the bytes of the three regions. */
  method ModelOf(request: Request, data: string, code: string) returns (m: Model)
    requires WellFormedRequest(request) && |code| == FindRegion(request.inputs, IsolateInstructions).value.size
    ensures Acceptable(m, HostFor(request)) && RecoveredFrom(m, data, code, RegionVa(request, IsolateInstructions))
  {
    var base := RegionVa(request, IsolateInstructions);
    var strings, uris := CarveImage(data);
    var functions := GuessRanges(code, base);
    m := Assemble(request, strings, uris, functions, base, base + |code|);
    PartsAreAllThere(m, data, code, base);
  }

  lemma PartsAreAllThere(m: Model, data: string, code: string, base: nat)
    requires m.classes == [] && m.pool == StringPool(CarvedStrings(data)) && m.libraries == LibrariesOf(UrisOf(data))
    requires Guessed(m.functions, code, base)
    ensures RecoveredFrom(m, data, code, base)
  {
  }

  /**
    * The internal backend. For every request the host would send, whatever the regions hold, the
    * model it builds is one the host's validator accepts.
    */
  method BuildInternalModel(digest: string -> string, files: map<RegionName, string>, request: Request)
    returns (r: Result<Model, ReadError>)
    requires WellFormedRequest(request)
    ensures r.Ok? <==> && ReadRegion(digest, files, request, VmData).Ok?
                       && ReadRegion(digest, files, request, IsolateData).Ok?
                       && ReadRegion(digest, files, request, IsolateInstructions).Ok?
    ensures r.Ok? ==> Acceptable(r.value, HostFor(request))
    ensures r.Ok? ==>
              var data := ReadRegion(digest, files, request, VmData).value +
                ReadRegion(digest, files, request, IsolateData).value;
              var code := ReadRegion(digest, files, request, IsolateInstructions).value;
              RecoveredFrom(r.value, data, code, RegionVa(request, IsolateInstructions))
  {
    var vmData := ReadRegion(digest, files, request, VmData);
    if vmData.Err? { return Err(vmData.error); }
    var isoData := ReadRegion(digest, files, request, IsolateData);
    if isoData.Err? { return Err(isoData.error); }
    var isoInstr := ReadRegion(digest, files, request, IsolateInstructions);
    if isoInstr.Err? { return Err(isoInstr.error); }
    var m := ModelOf(request, vmData.value + isoData.value, isoInstr.value);
    r := Ok(m);
  }
}
