/** Authorizing an install from the registry, and reporting what the store holds. */
module StoreReport {
  import opened Collections
  import opened Compatibility
  import opened Ordering
  import opened StoreState

  datatype Host = Host(os: string, arch: string)

  datatype EntryState = Verified | Missing | Corrupt | Incompatible | Unavailable

  datatype InstallError =
    | InvalidInput
    | NoRecord
    | AmbiguousRecord
    | IncompatibleRecord
    | ProfileRejected
    | DigestMismatch

  function VariantForHost(variants: seq<Variant>, host: Host): (r: Option<Variant>)
    ensures r.Some? ==> r.value in variants && r.value.hostOs == host.os && r.value.hostArch == host.arch
    ensures r.None? <==> forall v :: v in variants ==> v.hostOs != host.os || v.hostArch != host.arch
  {
    if variants == [] then None
    else if variants[0].hostOs == host.os && variants[0].hostArch == host.arch then Some(variants[0])
    else VariantForHost(variants[1..], host)
  }

  /** The records of one snapshot hash, and of one target when one is asked for. */
  function Candidates(registry: seq<Record>, hash: string, target: Option<string>): (r: seq<Record>)
    ensures forall x :: x in r <==>
            x in registry && x.snapshotHash == hash && (target.None? || ArchText(x.targetArch) == target.value)
  {
    if registry == [] then []
    else
      var rest := Candidates(registry[1..], hash, target);
      assert forall x :: x in registry <==> x == registry[0] || x in registry[1..];
      if registry[0].snapshotHash == hash && (target.None? || ArchText(registry[0].targetArch) == target.value)
      then [registry[0]] + rest else rest
  }

  function SelectRecord(registry: seq<Record>, hash: string, target: Option<string>): (r: Result<Record, InstallError>)
    ensures r.Ok? ==> Candidates(registry, hash, target) == [r.value]
    ensures r.Ok? <==> |Candidates(registry, hash, target)| == 1
    ensures r == Err(NoRecord) <==> forall x :: x in registry ==> x.snapshotHash != hash
    ensures r == Err(AmbiguousRecord) <==> |Candidates(registry, hash, target)| > 1
  {
    assert Candidates(registry, hash, target) != [] ==>
           Candidates(registry, hash, target)[0] in Candidates(registry, hash, target);
    assert Candidates(registry, hash, None) != [] ==>
           Candidates(registry, hash, None)[0] in Candidates(registry, hash, None);
    if Candidates(registry, hash, None) == [] then Err(NoRecord)
    else
      var candidates := Candidates(registry, hash, target);
      if candidates == [] then Err(IncompatibleRecord)
      else if |candidates| > 1 then Err(AmbiguousRecord)
      else Ok(candidates[0])
  }

  predicate ValidSnapshotHash(hash: string) {
    |hash| == 32 && forall i :: 0 <= i < |hash| ==> '0' <= hash[i] <= '9' || 'a' <= hash[i] <= 'f'
  }

  /** The ledger entry an install of `record` writes. */
  function EntryFor(record: Record, variant: Variant, recordDigest: string, host: Host, source: string): Entry {
    Entry(record.snapshotHash, ArchText(record.targetArch), host.os, host.arch, record.artifactId, variant.path,
          variant.size, variant.sha256, record.parserFamilyId, record.profileId, record.profileSha256, recordDigest,
          record.protocolMajor, record.modelMajor, source)
  }

  /** Field by field, the entry says what record, variant and host say. */
  predicate Declared(e: Entry, record: Record, variant: Variant, recordDigest: string, host: Host, source: string) {
    && e.snapshotHash == record.snapshotHash && e.targetArch == ArchText(record.targetArch)
    && e.hostOs == host.os && e.hostArch == host.arch && e.artifactId == record.artifactId
    && e.artifactPath == variant.path && e.size == variant.size && e.sha256 == variant.sha256
    && e.parserFamilyId == record.parserFamilyId && e.profileId == record.profileId
    && e.profileSha256 == record.profileSha256 && e.recordSha256 == recordDigest
    && e.protocolMajor == record.protocolMajor && e.modelMajor == record.modelMajor && e.source == source
  }

  /** The checks an install makes before it touches the store. `profileOk` is the profile artifact's own check. */
  function Prepare(digest: Digest, recordDigest: Record -> string, registry: seq<Record>, hash: string,
                   target: Option<string>, host: Host, profileOk: Record -> bool, bytes: Bytes, source: string)
    : Result<Request, InstallError>
  {
    if !ValidSnapshotHash(hash) then Err(InvalidInput)
    else match SelectRecord(registry, hash, target)
      case Err(e) => Err(e)
      case Ok(record) =>
        if !SupportedMajors(record) then Err(IncompatibleRecord)
        else match VariantForHost(record.variants, host)
          case None => Err(IncompatibleRecord)
          case Some(variant) =>
            if !profileOk(record) then Err(ProfileRejected)
            else if digest(bytes) != variant.sha256 || |bytes| != variant.size then Err(DigestMismatch)
            else Ok(Request(EntryFor(record, variant, recordDigest(record), host, source), bytes))
  }

  /** A request only ever carries bytes the one record for that hash and target declares for this host. */
  lemma PreparedRequestsAreAuthorized(digest: Digest, recordDigest: Record -> string, registry: seq<Record>,
                                      hash: string,
                                      target: Option<string>, host: Host, profileOk: Record -> bool, bytes: Bytes,
                                        source: string)
    requires Prepare(digest, recordDigest, registry, hash, target, host, profileOk, bytes, source).Ok?
    ensures var req := Prepare(digest, recordDigest, registry, hash, target, host, profileOk, bytes, source).value;
            && Authorized(digest, req) && req.bytes == bytes && KeyOf(req.entry) == Key(hash, host.os, host.arch)
            && exists record, variant ::
                 && Candidates(registry, hash, target) == [record] && SupportedMajors(record)
                 && VariantForHost(record.variants, host) == Some(variant)
                 && req.entry == EntryFor(record, variant, recordDigest(record), host, source)
                 && Declared(req.entry, record, variant, recordDigest(record), host, source)
  {
    var record := SelectRecord(registry, hash, target).value;
    assert record in Candidates(registry, hash, target);
    var variant := VariantForHost(record.variants, host).value;
    var req := Prepare(digest, recordDigest, registry, hash, target, host, profileOk, bytes, source).value;
    assert req.entry == EntryFor(record, variant, recordDigest(record), host, source);
  }

  /**
    * An install is let through exactly when hash, record, majors, variant, profile and content are all right; what is
    * wrong first says why not.
    */
  lemma PreparationIsExact(digest: Digest, recordDigest: Record -> string, registry: seq<Record>, hash: string,
                           target: Option<string>, host: Host, profileOk: Record -> bool, bytes: Bytes, source: string,
                           record: Record, variant: Variant)
    requires Candidates(registry, hash, target) == [record] && VariantForHost(record.variants, host) == Some(variant)
    ensures var r := Prepare(digest, recordDigest, registry, hash, target, host, profileOk, bytes, source);
            && (r.Ok? <==> && ValidSnapshotHash(hash) && SupportedMajors(record) && profileOk(record)
                           && digest(bytes) == variant.sha256 && |bytes| == variant.size)
            && (r == Err(InvalidInput) <==> !ValidSnapshotHash(hash))
            && (r == Err(IncompatibleRecord) <==> ValidSnapshotHash(hash) && !SupportedMajors(record))
            && (r == Err(ProfileRejected) <==> ValidSnapshotHash(hash) && SupportedMajors(record) && !profileOk(record))
  {
    assert record in Candidates(registry, hash, target);
  }

  /** Without exactly one such record, or without a variant of it for this host, nothing is prepared. */
  lemma OtherwiseNothingIsPrepared(digest: Digest, recordDigest: Record -> string, registry: seq<Record>, hash: string,
                                   target: Option<string>, host: Host, profileOk: Record -> bool, bytes: Bytes,
                                   source: string)
    requires forall record :: Candidates(registry, hash, target) == [record] ==>
               forall v :: v in record.variants ==> v.hostOs != host.os || v.hostArch != host.arch
    ensures Prepare(digest, recordDigest, registry, hash, target, host, profileOk, bytes, source).Err?
  {
  }

  // ---- Reading back ----------------------------------------------------------------------------

  /** What the ledger claims about a record on this host. */
  function LedgerClaim(entries: seq<Entry>, record: Record, variant: Variant, host: Host): Result<Entry, EntryState> {
    match Position(entries, Key(record.snapshotHash, host.os, host.arch))
    case None => Err(Unavailable)
    case Some(i) =>
      var e := entries[i];
      if e.sha256 != variant.sha256 || e.size != variant.size || e.artifactPath != variant.path then Err(Corrupt)
      else Ok(e)
  }

  function InstalledFor(ledger: Ledger, record: Record, host: Host): Result<Entry, EntryState> {
    match LoadState(ledger)
    case None => Err(Corrupt)
    case Some(entries) =>
      match VariantForHost(record.variants, host)
      case None => Err(Incompatible)
      case Some(variant) => LedgerClaim(entries, record, variant, host)
  }

  /** Comparing a file against what the ledger claims about it. */
  function CheckArtifact(digest: Digest, files: map<string, Bytes>, e: Entry): Option<EntryState> {
    if e.artifactPath !in files then Some(Missing)
    else if |files[e.artifactPath]| != e.size then Some(Corrupt)
    else if digest(files[e.artifactPath]) != e.sha256 then Some(Corrupt)
    else None
  }

  datatype Row = Row(key: Key, state: EntryState, artifactPath: Option<string>)

  function RowKey(r: Row): Key { r.key }

  /** The row of one record. */
  function RecordRow(digest: Digest, files: map<string, Bytes>, entries: seq<Entry>, record: Record, host: Host): Row {
    var key := Key(record.snapshotHash, host.os, host.arch);
    if !SupportedMajors(record) then Row(key, Incompatible, None)
    else match VariantForHost(record.variants, host)
      case None => Row(key, Incompatible, None)
      case Some(variant) =>
        match LedgerClaim(entries, record, variant, host)
        case Err(state) => Row(key, state, Some(variant.path))
        case Ok(e) =>
          match CheckArtifact(digest, files, e)
          case None => Row(key, Verified, Some(variant.path))
          case Some(state) => Row(key, state, Some(variant.path))
  }

  predicate NamedByRegistry(registry: seq<Record>, hash: string) {
    exists r :: r in registry && r.snapshotHash == hash
  }

  function OrphanRow(e: Entry): Row {
    Row(KeyOf(e), Incompatible, Some(e.artifactPath))
  }

  function RecordRows(digest: Digest, files: map<string, Bytes>, entries: seq<Entry>, registry: seq<Record>,
                      host: Host): seq<Row> {
    seq(|registry|, i requires 0 <= i < |registry| => RecordRow(digest, files, entries, registry[i], host))
  }

  /** Entries whose snapshot hash no record carries. */
  function Orphans(registry: seq<Record>, entries: seq<Entry>): seq<Entry> {
    if entries == [] then []
    else
      var last := entries[|entries| - 1];
      Orphans(registry, entries[..|entries| - 1]) + if NamedByRegistry(registry, last.snapshotHash) then [] else [last]
  }

  function OrphanRows(orphans: seq<Entry>): seq<Row> {
    seq(|orphans|, i requires 0 <= i < |orphans| => OrphanRow(orphans[i]))
  }

  /** The keys of this host's entries that some record accounts for. */
  function Claimed(registry: seq<Record>, entries: seq<Entry>, host: Host): set<Key> {
    set e | e in entries && e.hostOs == host.os && e.hostArch == host.arch &&
      NamedByRegistry(registry, e.snapshotHash) :: KeyOf(e)
  }

  lemma SkippedExactlyWhenNamed(registry: seq<Record>, entries: seq<Entry>, host: Host, e: Entry)
    requires e in entries
    ensures KeyOf(e) in Claimed(registry, entries, host)
            || (NamedByRegistry(registry, e.snapshotHash) && (e.hostOs != host.os || e.hostArch != host.arch))
            <==> NamedByRegistry(registry, e.snapshotHash)
  {
  }

  lemma OrphansStep(registry: seq<Record>, entries: seq<Entry>, i: nat)
    requires i < |entries|
    ensures OrphanRows(Orphans(registry, entries[..i + 1])) ==
            OrphanRows(Orphans(registry, entries[..i]))
            + if NamedByRegistry(registry, entries[i].snapshotHash) then [] else [OrphanRow(entries[i])]
  {
    assert entries[..i + 1][..i] == entries[..i];
    var before := Orphans(registry, entries[..i]);
    assert OrphanRows(before + [entries[i]]) == OrphanRows(before) + [OrphanRow(entries[i])];
  }

  method CollectOrphans(registry: seq<Record>, entries: seq<Entry>, host: Host) returns (rows: seq<Row>)
    ensures rows == OrphanRows(Orphans(registry, entries))
  {
    var claimed := Claimed(registry, entries, host);
    rows := [];
    for i := 0 to |entries|
      invariant rows == OrphanRows(Orphans(registry, entries[..i]))
    {
      var e := entries[i];
      OrphansStep(registry, entries, i);
      SkippedExactlyWhenNamed(registry, entries, host, e);
      if KeyOf(e) in claimed {
        continue;
      }
      if NamedByRegistry(registry, e.snapshotHash) && (e.hostOs != host.os || e.hostArch != host.arch) {
        continue;
      }
      rows := rows + [OrphanRow(e)];
    }
    assert entries[..|entries|] == entries;
  }

  method CollectRecordRows(digest: Digest, files: map<string, Bytes>, entries: seq<Entry>, registry: seq<Record>,
                           host: Host)
    returns (rows: seq<Row>)
    ensures rows == RecordRows(digest, files, entries, registry, host)
  {
    rows := [];
    for i := 0 to |registry|
      invariant |rows| == i
      invariant forall k :: 0 <= k < i ==> rows[k] == RecordRow(digest, files, entries, registry[k], host)
    {
      rows := rows + [RecordRow(digest, files, entries, registry[i], host)];
    }
  }

  /**
    * The report: one row for every record and one for every ledger entry no record accounts for,
    * sorted by key. An unusable ledger is an error, not an empty report.
    */
  method Inspect(digest: Digest, disk: Disk, registry: seq<Record>, host: Host) returns (report: Option<seq<Row>>)
    ensures report.None? <==> LoadState(disk.ledger).None?
    ensures report.Some? ==>
              var entries := LoadState(disk.ledger).value;
              var orphans := Orphans(registry, entries);
              && multiset(report.value) ==
                multiset(RecordRows(digest, disk.files, entries, registry, host) + OrphanRows(orphans))
              && |report.value| == |registry| + |orphans|
              && SortedByKey(report.value, RowKey)
  {
    var state := LoadState(disk.ledger);
    if state.None? {
      return None;
    }
    var recordRows := CollectRecordRows(digest, disk.files, state.value, registry, host);
    var orphanRows := CollectOrphans(registry, state.value, host);
    var rows := recordRows + orphanRows;
    report := Some(SortByKey(rows, RowKey));
    SameMembers(report.value, rows);
  }

  /** A row says verified exactly when the majors are spoken, the ledger claims the record, and the bytes are right. */
  lemma VerifiedMeansInstalledAndIntact(digest: Digest, disk: Disk, record: Record, host: Host)
    requires LoadState(disk.ledger).Some?
    ensures RecordRow(digest, disk.files, LoadState(disk.ledger).value, record, host).state == Verified <==>
            && SupportedMajors(record)
            && InstalledFor(disk.ledger, record, host).Ok?
            && ArtifactMatches(digest, disk.files, InstalledFor(disk.ledger, record, host).value)
  {
  }

  /** The ledger's entry for a record on this host, the first of its key. */
  ghost predicate ClaimedBy(entries: seq<Entry>, record: Record, host: Host, i: nat) {
    && i < |entries| && KeyOf(entries[i]) == Key(record.snapshotHash, host.os, host.arch)
    && forall j :: 0 <= j < i ==> KeyOf(entries[j]) != KeyOf(entries[i])
  }

  predicate Declares(e: Entry, v: Variant) {
    e.sha256 == v.sha256 && e.size == v.size && e.artifactPath == v.path
  }

  /** The file is there, and is not what the entry says. */
  predicate Tampered(digest: Digest, files: map<string, Bytes>, e: Entry) {
    e.artifactPath in files && !ArtifactMatches(digest, files, e)
  }

  /** Every state a record's row can have, by what is in the registry, the ledger and the store. */
  lemma RowStatesMean(digest: Digest, files: map<string, Bytes>, entries: seq<Entry>, record: Record, host: Host,
                      variant: Variant)
    requires SupportedMajors(record) && VariantForHost(record.variants, host) == Some(variant)
    ensures var row := RecordRow(digest, files, entries, record, host);
            && row.key == Key(record.snapshotHash, host.os, host.arch) && row.artifactPath == Some(variant.path)
            && row.state != Incompatible
            && (row.state == Unavailable <==> forall i: nat :: !ClaimedBy(entries, record, host, i))
            && (forall i: nat :: ClaimedBy(entries, record, host, i) ==>
                  var e := entries[i];
                  && (row.state == Missing <==> Declares(e, variant) && e.artifactPath !in files)
                  && (row.state == Corrupt <==> !Declares(e, variant) || Tampered(digest, files, e)))
  {
    var key := Key(record.snapshotHash, host.os, host.arch);
    var found := Position(entries, key);
    if found.Some? {
      assert ClaimedBy(entries, record, host, found.value);
    }
    forall i: nat | ClaimedBy(entries, record, host, i) ensures found == Some(i) {
    }
  }

  lemma UnusableRecordsAreIncompatible(digest: Digest, files: map<string, Bytes>, entries: seq<Entry>, record: Record,
                                       host: Host)
    ensures RecordRow(digest, files, entries, record, host).state == Incompatible <==>
            !SupportedMajors(record) || forall v :: v in record.variants ==>
              v.hostOs != host.os || v.hostArch != host.arch
  {
  }

  /** The orphans are the entries no record names, and their rows say incompatible. */
  lemma {:induction false} OrphansAreUnnamed(registry: seq<Record>, entries: seq<Entry>, e: Entry)
    ensures e in Orphans(registry, entries) <==> e in entries && !NamedByRegistry(registry, e.snapshotHash)
    ensures OrphanRow(e).state == Incompatible && OrphanRow(e).key == KeyOf(e)
  {
    if entries != [] {
      OrphansAreUnnamed(registry, entries[..|entries| - 1], e);
      assert entries == entries[..|entries| - 1] + [entries[|entries| - 1]];
    }
  }

  /** An install that succeeds makes its own record's row say verified. */
  lemma SuccessfulInstallsAreVerified(digest: Digest, recordDigest: Record -> string, disk: Disk, record: Record,
                                      variant: Variant, host: Host, bytes: Bytes, source: string, outcome: Outcome)
    requires Good(digest, disk) && SupportedMajors(record) && VariantForHost(record.variants, host) == Some(variant)
    requires var req := Request(EntryFor(record, variant, recordDigest(record), host, source), bytes);
             Authorized(digest, req) && Allowed(digest, disk, req, outcome) && (outcome.Fresh? || outcome.Idempotent?)
    ensures var req := Request(EntryFor(record, variant, recordDigest(record), host, source), bytes);
            var left := After(disk, req, outcome);
            LoadState(left.ledger).Some? &&
            RecordRow(digest, left.files, LoadState(left.ledger).value, record, host).state == Verified
  {
    var req := Request(EntryFor(record, variant, recordDigest(record), host, source), bytes);
    SuccessfulSessionsInstall(digest, disk, req, outcome);
  }
}
