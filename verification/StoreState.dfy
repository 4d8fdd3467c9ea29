/** The adapter store's disk, its ledger, and what one install session may do to them. */
module StoreState {
  import opened Collections
  import opened Ordering

  type Bytes = seq<bv8>

  /** The content address of some bytes: SHA-256, of which nothing but being a function is used. */
  type Digest = Bytes -> string

  /** One installed adapter, as the ledger claims it. */
  datatype Entry = Entry(
    snapshotHash: string, targetArch: string, hostOs: string, hostArch: string,
    artifactId: string, artifactPath: string, size: nat, sha256: string,
    parserFamilyId: string, profileId: string, profileSha256: string, recordSha256: string,
    protocolMajor: nat, modelMajor: nat, source: string)

  function KeyOf(e: Entry): Key {
    Key(e.snapshotHash, e.hostOs, e.hostArch)
  }

  /** The state file: not there, not usable, or a list of entries. */
  datatype Ledger = Absent | Unusable | Present(entries: seq<Entry>)

  /** What a later reader sees: published artifacts by store-relative path, and the state file. */
  datatype Disk = Disk(files: map<string, Bytes>, ledger: Ledger)

  /** Reading the state file; an absent store is an empty one. */
  function LoadState(l: Ledger): Option<seq<Entry>> {
    match l
    case Absent => Some([])
    case Unusable => None
    case Present(entries) => Some(entries)
  }

  /** An install after its up-front checks: the entry it will record and the bytes it will publish. */
  datatype Request = Request(entry: Entry, bytes: Bytes)

  /** The up-front content check: the bytes are the ones the registry declares. */
  predicate Authorized(digest: Digest, req: Request) {
    digest(req.bytes) == req.entry.sha256 && |req.bytes| == req.entry.size
  }

  predicate ArtifactMatches(digest: Digest, files: map<string, Bytes>, e: Entry) {
    e.artifactPath in files && |files[e.artifactPath]| == e.size && digest(files[e.artifactPath]) == e.sha256
  }

  /** The first entry with the given key. */
  function Position(entries: seq<Entry>, key: Key): (r: Option<nat>)
    ensures r.Some? ==> r.value < |entries| && KeyOf(entries[r.value]) == key
    ensures r.Some? ==> forall j :: 0 <= j < r.value ==> KeyOf(entries[j]) != key
    ensures r.None? ==> forall j :: 0 <= j < |entries| ==> KeyOf(entries[j]) != key
  {
    if entries == [] then None
    else if KeyOf(entries[0]) == key then Some(0)
    else match Position(entries[1..], key)
      case None => None
      case Some(i) => Some(i + 1)
  }

  /** Already installed: the ledger holds exactly this entry and the bytes on disk are its bytes. */
  predicate IsInstalled(digest: Digest, files: map<string, Bytes>, entries: seq<Entry>, e: Entry) {
    var i := Position(entries, KeyOf(e));
    i.Some? && entries[i.value] == e && ArtifactMatches(digest, files, e)
  }

  /** The ledger with `e` in the place of its key's first entry, or at the end. */
  function Placed(entries: seq<Entry>, e: Entry): seq<Entry> {
    var i := Position(entries, KeyOf(e));
    if i.Some? then entries[i.value := e] else entries + [e]
  }

  /** The ledger an install writes. */
  function Recorded(entries: seq<Entry>, e: Entry): seq<Entry> {
    SortByKey(Placed(entries, e), KeyOf)
  }

  /** How one session left the disk. */
  datatype Outcome =
    | Fresh                // artifact and ledger published
    | Idempotent           // already installed; nothing written
    | Failed               // an error, with the disk put back
    | Dirty                // an error whose rollback failed too
    | CrashedClean         // the process died with the disk untouched or restored
    | CrashedLive          // the process died between the two renames

  /** The artifact has been renamed into place and the ledger has not. */
  function ArtifactLive(disk: Disk, req: Request): Disk {
    disk.(files := disk.files[req.entry.artifactPath := req.bytes])
  }

  function Published(disk: Disk, req: Request, entries: seq<Entry>): Disk {
    ArtifactLive(disk, req).(ledger := Present(Recorded(entries, req.entry)))
  }

  /** Whether a session on `disk` can end this way. */
  predicate Allowed(digest: Digest, disk: Disk, req: Request, outcome: Outcome) {
    var entries := LoadState(disk.ledger);
    match outcome
    case Idempotent => entries.Some? && IsInstalled(digest, disk.files, entries.value, req.entry)
    case Fresh | Dirty | CrashedLive => entries.Some? && !IsInstalled(digest, disk.files, entries.value, req.entry)
    case Failed | CrashedClean => true
  }

  /** The disk a session leaves. */
  function After(disk: Disk, req: Request, outcome: Outcome): Disk {
    match outcome
    case Fresh => if disk.ledger.Unusable? then disk else Published(disk, req, LoadState(disk.ledger).value)
    case Dirty | CrashedLive => ArtifactLive(disk, req)
    case Idempotent | Failed | CrashedClean => disk
  }

  // ---- The ledger invariant --------------------------------------------------------------------

  /** Keys strictly ascending, hence each host and snapshot at most once. */
  ghost predicate KeysAscend(entries: seq<Entry>) {
    forall i, j :: 0 <= i < j < |entries| ==> KeyLess(KeyOf(entries[i]), KeyOf(entries[j]))
  }

  /** Every ledger entry names an artifact whose bytes are the declared bytes. */
  ghost predicate Backed(digest: Digest, files: map<string, Bytes>, entries: seq<Entry>) {
    forall e :: e in entries ==> ArtifactMatches(digest, files, e)
  }

  ghost predicate Good(digest: Digest, disk: Disk) {
    var entries := LoadState(disk.ledger);
    entries.Some? && KeysAscend(entries.value) && Backed(digest, disk.files, entries.value)
  }

  /** Entries that share an artifact path declare the same content for it. */
  predicate Agree(a: Entry, b: Entry) {
    a.artifactPath == b.artifactPath ==> a.sha256 == b.sha256 && a.size == b.size
  }

  lemma PositionIsUnique(entries: seq<Entry>, i: nat)
    requires KeysAscend(entries) && i < |entries|
    ensures Position(entries, KeyOf(entries[i])) == Some(i)
  {
    forall j | 0 <= j < |entries| && j != i ensures KeyOf(entries[j]) != KeyOf(entries[i]) {
      KeyOrder(KeyOf(entries[i]), KeyOf(entries[i]), KeyOf(entries[i]));
    }
  }

  lemma PlacedKeysAreDistinct(entries: seq<Entry>, e: Entry)
    requires KeysAscend(entries)
    ensures var p := Placed(entries, e); forall i, j :: 0 <= i < j < |p| ==> KeyOf(p[i]) != KeyOf(p[j])
    ensures forall x :: x in Placed(entries, e) <==> x == e || (x in entries && KeyOf(x) != KeyOf(e))
  {
    var p := Placed(entries, e);
    var at := Position(entries, KeyOf(e));
    forall i, j | 0 <= i < j < |entries| ensures KeyOf(entries[i]) != KeyOf(entries[j]) {
      KeyOrder(KeyOf(entries[i]), KeyOf(entries[j]), KeyOf(entries[i]));
    }
    if at.Some? {
      assert p[at.value] == e;
      forall x | x in entries && KeyOf(x) != KeyOf(e) ensures x in p {
        var k :| 0 <= k < |entries| && entries[k] == x;
        assert p[k] == x;
      }
    }
  }

  /** Recording keeps the keys strictly ascending, replaces this key's entry, and touches no other. */
  lemma RecordingKeepsTheLedgerInOrder(entries: seq<Entry>, e: Entry)
    requires KeysAscend(entries)
    ensures KeysAscend(Recorded(entries, e))
    ensures forall x :: x in Recorded(entries, e) <==> x == e || (x in entries && KeyOf(x) != KeyOf(e))
  {
    var p, r := Placed(entries, e), Recorded(entries, e);
    PlacedKeysAreDistinct(entries, e);
    SameMembers(p, r);
    DistinctKeysSurviveSorting(p, r);
    forall i, j | 0 <= i < j < |r| ensures KeyLess(KeyOf(r[i]), KeyOf(r[j])) {
      KeyOrder(KeyOf(r[i]), KeyOf(r[j]), KeyOf(r[i]));
    }
  }

  lemma RecordedIsFound(entries: seq<Entry>, e: Entry)
    requires KeysAscend(entries) && e in entries
    ensures Position(entries, KeyOf(e)).Some? && entries[Position(entries, KeyOf(e)).value] == e
  {
    var k :| 0 <= k < |entries| && entries[k] == e;
    PositionIsUnique(entries, k);
  }

  lemma DistinctKeysSurviveSorting(p: seq<Entry>, r: seq<Entry>)
    requires multiset(p) == multiset(r)
    requires forall i, j :: 0 <= i < j < |p| ==> KeyOf(p[i]) != KeyOf(p[j])
    ensures forall i, j :: 0 <= i < j < |r| ==> KeyOf(r[i]) != KeyOf(r[j])
  {
    forall i, j | 0 <= i < j < |r| ensures KeyOf(r[i]) != KeyOf(r[j]) {
      SameMembers(p, r);
      assert r[i] in p && r[j] in p;
      if r[i] == r[j] {
        TwiceInASequence(r, i, j);
        OnceInASequence(p, r[i]);
      }
    }
  }

  lemma {:induction false} OnceInASequence(s: seq<Entry>, x: Entry)
    requires forall i, j :: 0 <= i < j < |s| ==> KeyOf(s[i]) != KeyOf(s[j])
    ensures multiset(s)[x] <= 1
  {
    if s != [] {
      assert s == [s[0]] + s[1..];
      OnceInASequence(s[1..], x);
      if s[0] == x {
        assert x !in s[1..];
        assert x !in multiset(s[1..]);
      }
    }
  }

  /**
    * The crash window, exactly: with the artifact live and the ledger still old, the store is sound
    * if and only if no other declaration of that path asks for different content.
    */
  lemma CrashWindowIsSoundExactlyWhenPathsAgree(digest: Digest, disk: Disk, req: Request)
    requires Good(digest, disk) && Authorized(digest, req)
    ensures Good(digest, ArtifactLive(disk, req)) <==>
            forall e :: e in LoadState(disk.ledger).value ==> Agree(e, req.entry)
  {
    var entries := LoadState(disk.ledger).value;
    forall e | e in entries
      ensures ArtifactMatches(digest, ArtifactLive(disk, req).files, e) <==> Agree(e, req.entry)
    {
      assert ArtifactMatches(digest, disk.files, e);
    }
  }

  lemma BackedExactlyWhenKeptEntriesAgree(digest: Digest, files: map<string, Bytes>, req: Request,
                                          entries: seq<Entry>, recorded: seq<Entry>)
    requires Backed(digest, files, entries) && Authorized(digest, req)
    requires forall x :: x in recorded <==> x == req.entry || (x in entries && KeyOf(x) != KeyOf(req.entry))
    ensures Backed(digest, files[req.entry.artifactPath := req.bytes], recorded) <==>
            forall e :: e in entries && KeyOf(e) != KeyOf(req.entry) ==> Agree(e, req.entry)
  {
    var live := files[req.entry.artifactPath := req.bytes];
    assert ArtifactMatches(digest, live, req.entry);
    forall e | e in entries ensures ArtifactMatches(digest, live, e) <==> Agree(e, req.entry) {
      assert ArtifactMatches(digest, files, e);
    }
  }

  lemma FreshLeaves(disk: Disk, req: Request)
    requires LoadState(disk.ledger).Some?
    ensures var left := After(disk, req, Fresh);
            && LoadState(left.ledger) == Some(Recorded(LoadState(disk.ledger).value, req.entry))
            && left.files == disk.files[req.entry.artifactPath := req.bytes]
  {
  }

  lemma GoodIs(digest: Digest, disk: Disk, entries: seq<Entry>)
    requires LoadState(disk.ledger) == Some(entries)
    ensures Good(digest, disk) <==> KeysAscend(entries) && Backed(digest, disk.files, entries)
  {
  }

  /** A finished install is sound if and only if every entry kept beside it agrees about its path. */
  lemma PublishingIsSoundExactlyWhenKeptPathsAgree(digest: Digest, disk: Disk, req: Request)
    requires Good(digest, disk) && Authorized(digest, req)
    ensures Good(digest, After(disk, req, Fresh)) <==>
            forall e :: e in LoadState(disk.ledger).value && KeyOf(e) != KeyOf(req.entry) ==> Agree(e, req.entry)
  {
    var entries := LoadState(disk.ledger).value;
    var recorded := Recorded(entries, req.entry);
    FreshLeaves(disk, req);
    GoodIs(digest, After(disk, req, Fresh), recorded);
    RecordingKeepsTheLedgerInOrder(entries, req.entry);
    BackedExactlyWhenKeptEntriesAgree(digest, disk.files, req, entries, recorded);
  }

  /** However a session ends, it leaves a sound store sound, provided the declarations agree. */
  lemma SessionsKeepTheStoreGood(digest: Digest, disk: Disk, req: Request, outcome: Outcome)
    requires Good(digest, disk) && Authorized(digest, req)
    requires forall e :: e in LoadState(disk.ledger).value ==> Agree(e, req.entry)
    ensures Good(digest, After(disk, req, outcome))
  {
    CrashWindowIsSoundExactlyWhenPathsAgree(digest, disk, req);
    PublishingIsSoundExactlyWhenKeptPathsAgree(digest, disk, req);
  }

  /** A session adds no entry but its own. */
  lemma SessionsRecordOnlyTheirOwn(disk: Disk, req: Request, outcome: Outcome)
    requires LoadState(disk.ledger).Some? && KeysAscend(LoadState(disk.ledger).value)
    ensures var left := LoadState(After(disk, req, outcome).ledger);
            left.Some? && forall e :: e in left.value ==> e == req.entry || e in LoadState(disk.ledger).value
  {
    var entries := LoadState(disk.ledger).value;
    if outcome.Fresh? {
      RecordingKeepsTheLedgerInOrder(entries, req.entry);
      assert LoadState(After(disk, req, outcome).ledger) == Some(Recorded(entries, req.entry));
    } else {
      assert After(disk, req, outcome).ledger == disk.ledger;
    }
  }

  lemma PublishedIsInstalled(digest: Digest, disk: Disk, req: Request)
    requires Good(digest, disk) && Authorized(digest, req)
    ensures var entries := Recorded(LoadState(disk.ledger).value, req.entry);
            IsInstalled(digest, disk.files[req.entry.artifactPath := req.bytes], entries, req.entry)
  {
    var entries := LoadState(disk.ledger).value;
    RecordingKeepsTheLedgerInOrder(entries, req.entry);
    RecordedIsFound(Recorded(entries, req.entry), req.entry);
    assert ArtifactMatches(digest, disk.files[req.entry.artifactPath := req.bytes], req.entry);
  }

  /** After a fresh or idempotent session the request is installed. */
  lemma SuccessfulSessionsInstall(digest: Digest, disk: Disk, req: Request, outcome: Outcome)
    requires Good(digest, disk) && Authorized(digest, req) && Allowed(digest, disk, req, outcome)
    requires outcome.Fresh? || outcome.Idempotent?
    ensures var left := After(disk, req, outcome);
            LoadState(left.ledger).Some? && IsInstalled(digest, left.files, LoadState(left.ledger).value, req.entry)
  {
    if outcome.Fresh? {
      FreshLeaves(disk, req);
      PublishedIsInstalled(digest, disk, req);
    }
  }
}
