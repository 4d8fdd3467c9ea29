/** One install, run to its end: the store object, its staged files, and the rollback. */
module Installer {
  import opened Collections
  import opened Ordering
  import opened StoreState

  /** The operations of an install that can fail, by injection or by I/O error. */
  datatype FaultPoint =
    | BeforeLock
    | BeforeStage
    | ReadingPrevious
    | WritingArtifact
    | WritingLedger
    | BeforePublishArtifact
    | RenamingArtifact
    | BeforePublishState
    | RenamingLedger
    | Restoring
    | RenamingRestore
    | RemovingArtifactTemp
    | RemovingLedgerTemp
    | RemovingRestoreTemp

  /** A fault that stops the rollback: removing what was not there before, or bringing back the bytes that were. */
  predicate RestoreFails(faults: set<FaultPoint>, replaced: bool) {
    Restoring in faults || (replaced && RenamingRestore in faults)
  }

  /** A destructor that does not get its staged file removed, which no one hears of. */
  predicate RemovalFails(faults: set<FaultPoint>) {
    RemovingArtifactTemp in faults || RemovingLedgerTemp in faults || RemovingRestoreTemp in faults
  }

  /** A fault that stops an install before its artifact is live. */
  predicate StopsEarly(faults: set<FaultPoint>) {
    BeforeStage in faults || ReadingPrevious in faults || WritingArtifact in faults || WritingLedger in faults
    || BeforePublishArtifact in faults || RenamingArtifact in faults
  }

  /** A fault that stops an install between its two renames. */
  predicate StopsLate(faults: set<FaultPoint>) {
    BeforePublishState in faults || RenamingLedger in faults
  }

  /** How writing ends once the artifact is live. */
  function LateEnding(faults: set<FaultPoint>, replaced: bool): Outcome {
    if !StopsLate(faults) then Fresh else if RestoreFails(faults, replaced) then Dirty else Failed
  }

  /** How writing ends, over an artifact or where there was none. */
  function WriteEnding(faults: set<FaultPoint>, replaced: bool): Outcome {
    if StopsEarly(faults) then Failed else LateEnding(faults, replaced)
  }

  /** The disk writing leaves. */
  function Written(disk: Disk, req: Request, recorded: seq<Entry>, outcome: Outcome): Disk {
    match outcome
    case Fresh => ArtifactLive(disk, req).(ledger := Present(recorded))
    case Dirty => ArtifactLive(disk, req)
    case _ => disk
  }

  /** How an install ends that nothing kills. */
  function Ending(digest: Digest, disk: Disk, req: Request, faults: set<FaultPoint>): Outcome {
    var entries := LoadState(disk.ledger);
    if BeforeLock in faults || entries.None? then Failed
    else if IsInstalled(digest, disk.files, entries.value, req.entry) then Idempotent
    else WriteEnding(faults, req.entry.artifactPath in disk.files)
  }

  datatype Content = ArtifactContent(bytes: Bytes) | LedgerContent(entries: seq<Entry>) | Torn

  /**
    * `after` is `before` without the temporaries `ids`; if `leaks`, some of these and some from `first` on may be
    * there.
    */
  predicate Leaves(before: map<nat, Content>, ids: set<nat>, first: nat, after: map<nat, Content>, leaks: bool) {
    && (forall t :: t in before && t !in ids ==> t in after && after[t] == before[t])
    && (forall t :: t in after && t !in before - ids ==> leaks && (t in ids || t >= first))
  }

  lemma NothingLeaks(before: map<nat, Content>, ids: set<nat>, first: nat, after: map<nat, Content>)
    requires Leaves(before, ids, first, after, false)
    ensures after == before - ids
  {
  }

  /** All temporaries are named below `first`. */
  predicate Below(temps: map<nat, Content>, first: nat) {
    forall t :: t in temps ==> t < first
  }

  /** Two temporaries were staged, and what left of those leaves the temporaries before them. */
  lemma StagedAndLeft(before: map<nat, Content>, first: nat, a: Content, l: Content, after: map<nat, Content>,
                      leaks: bool)
    requires Below(before, first) &&
             Leaves(before[first := a][first + 1 := l], {first, first + 1}, first + 2, after, leaks)
    ensures Leaves(before, {}, first, after, leaks)
    ensures before[first := a][first + 1 := l] - {first, first + 1} == before
  {
  }

  class AdapterStore {
    const digest: Digest
    var disk: Disk
    var temps: map<nat, Content>
    var counter: nat

    ghost predicate Valid()
      reads this
    {
      Below(temps, counter)
    }

    constructor (digest: Digest)
      ensures Valid() && this.digest == digest && disk == Disk(map[], Absent) && temps == map[]
    {
      this.digest := digest;
      disk := Disk(map[], Absent);
      temps := map[];
      counter := 0;
    }

    /** Writes a temporary beside its destination; a write that fails takes it away again, if it can. */
    method Stage(c: Content, fails: bool, keeps: bool) returns (id: Option<nat>)
      requires Valid()
      modifies this`temps, this`counter
      ensures Valid() && counter == old(counter) + 1
      ensures fails ==> id == None && temps == if keeps then old(temps)[old(counter) := Torn] else old(temps)
      ensures !fails ==> id == Some(old(counter)) && temps == old(temps)[old(counter) := c]
    {
      var name := counter;
      counter := counter + 1;
      if fails {
        if keeps {
          temps := temps[name := Torn];
        }
        return None;
      }
      temps := temps[name := c];
      id := Some(name);
    }

    /** A staged file that was not published removes itself, if it can. */
    method Discard(id: nat, keeps: bool)
      requires Valid()
      modifies this`temps
      ensures Valid() && temps == if keeps then old(temps) else old(temps) - {id}
    {
      if !keeps {
        temps := temps - {id};
      }
    }

    /** Renames a staged artifact over `dest`, or discards it when the rename fails. */
    method PublishArtifact(id: nat, dest: string, fails: bool, keeps: bool)
      requires Valid() && id in temps && temps[id].ArtifactContent?
      modifies this`disk, this`temps
      ensures Valid() && temps == if fails && keeps then old(temps) else old(temps) - {id}
      ensures disk == if fails then old(disk) else old(disk.(files := disk.files[dest := temps[id].bytes]))
    {
      if fails {
        Discard(id, keeps);
      } else {
        disk := disk.(files := disk.files[dest := temps[id].bytes]);
        temps := temps - {id};
      }
    }

    method PublishLedger(id: nat, fails: bool, keeps: bool)
      requires Valid() && id in temps && temps[id].LedgerContent?
      modifies this`disk, this`temps
      ensures Valid() && temps == if fails && keeps then old(temps) else old(temps) - {id}
      ensures disk == if fails then old(disk) else old(disk.(ledger := Present(temps[id].entries)))
    {
      if fails {
        Discard(id, keeps);
      } else {
        disk := disk.(ledger := Present(temps[id].entries));
        temps := temps - {id};
      }
    }

    /** Puts the artifact back to absent or to its previous bytes. */
    method RestoreArtifact(dest: string, previous: Option<Bytes>, faults: set<FaultPoint>) returns (ok: bool)
      requires Valid()
      modifies this
      ensures Valid() && ok == !RestoreFails(faults, previous.Some?)
      ensures Leaves(old(temps), {}, old(counter), temps, RemovingRestoreTemp in faults)
      ensures disk == if !ok then old(disk) else old(disk).(
                files := if previous.Some? then old(disk).files[dest := previous.value] else old(disk).files - {dest})
    {
      match previous
      case None =>
        if Restoring !in faults {
          disk := disk.(files := disk.files - {dest});
        }
        ok := Restoring !in faults;
      case Some(bytes) =>
        var id := Stage(ArtifactContent(bytes), Restoring in faults, RemovingRestoreTemp in faults);
        if id.None? {
          return false;
        }
        PublishArtifact(id.value, dest, RenamingRestore in faults, RemovingRestoreTemp in faults);
        ok := RenamingRestore !in faults;
    }

    /**
      * Everything after the up-front checks. The result is decided by the disk and the faults alone, the disk ends as
      * that result says, and no temporary is left behind unless removing one failed.
      */
    method Install(req: Request, faults: set<FaultPoint>) returns (outcome: Outcome)
      requires Valid()
      modifies this
      ensures Valid() && Leaves(old(temps), {}, old(counter), temps, RemovalFails(faults))
      ensures !RemovalFails(faults) || outcome.Fresh? || outcome.Idempotent? ==> temps == old(temps)
      ensures outcome == Ending(digest, old(disk), req, faults)
      ensures faults == {} && LoadState(old(disk).ledger).Some? ==>
                outcome == if IsInstalled(digest, old(disk).files, LoadState(old(disk).ledger).value, req.entry)
                           then Idempotent else Fresh
      ensures disk == After(old(disk), req, outcome)
    {
      if BeforeLock in faults {
        return Failed;
      }
      var state := LoadState(disk.ledger);
      if state.None? {
        return Failed;
      }
      var entries := state.value;
      var existing := Position(entries, KeyOf(req.entry));
      if existing.Some? && entries[existing.value] == req.entry && ArtifactMatches(digest, disk.files, req.entry) {
        return Idempotent;
      }
      outcome := Write(req, SortByKey(Placed(entries, req.entry), KeyOf), faults);
      if !RemovalFails(faults) {
        NothingLeaks(old(temps), {}, old(counter), temps);
      }
    }

    /** Stages the artifact and the ledger, or neither. */
    method StageBoth(artifact: Content, ledger: Content, faults: set<FaultPoint>) returns (ok: bool)
      requires Valid()
      modifies this`temps, this`counter
      ensures Valid() && ok == (WritingArtifact !in faults && WritingLedger !in faults)
      ensures ok ==> temps == old(temps)[old(counter) := artifact][old(counter) + 1 := ledger]
      ensures ok ==> counter == old(counter) + 2
      ensures !ok ==> Leaves(old(temps), {}, old(counter), temps, RemovalFails(faults))
    {
      var stagedArtifact := Stage(artifact, WritingArtifact in faults, RemovingArtifactTemp in faults);
      if stagedArtifact.None? {
        return false;
      }
      var stagedLedger := Stage(ledger, WritingLedger in faults, RemovingLedgerTemp in faults);
      if stagedLedger.None? {
        Discard(stagedArtifact.value, RemovingArtifactTemp in faults);
        return false;
      }
      ok := true;
    }

    /** Stages the artifact and the sorted ledger, then publishes both. */
    method Write(req: Request, recorded: seq<Entry>, faults: set<FaultPoint>) returns (outcome: Outcome)
      requires Valid()
      modifies this
      ensures Valid() && Leaves(old(temps), {}, old(counter), temps, RemovalFails(faults))
      ensures outcome.Fresh? ==> temps == old(temps)
      ensures outcome == WriteEnding(faults, req.entry.artifactPath in old(disk).files)
      ensures disk == Written(old(disk), req, recorded, outcome)
    {
      var dest := req.entry.artifactPath;
      if BeforeStage in faults || ReadingPrevious in faults {
        return Failed;
      }
      var previous := if dest in disk.files then Some(disk.files[dest]) else None;
      var first := counter;
      var ok := StageBoth(ArtifactContent(req.bytes), LedgerContent(recorded), faults);
      if !ok {
        return Failed;
      }
      outcome := Publish(req, previous, first, first + 1, faults);
      StagedAndLeft(old(temps), first, ArtifactContent(req.bytes), LedgerContent(recorded), temps,
                    RemovalFails(faults));
    }

    /** The two renames; when the second does not happen, the first is taken back. */
    method Publish(req: Request, previous: Option<Bytes>, artifact: nat, ledger: nat, faults: set<FaultPoint>)
      returns (outcome: Outcome)
      requires Valid() && artifact in temps && ledger in temps && artifact != ledger
      requires temps[artifact] == ArtifactContent(req.bytes) && temps[ledger].LedgerContent?
      requires var dest := req.entry.artifactPath;
               previous == if dest in disk.files then Some(disk.files[dest]) else None
      modifies this
      ensures Valid() && Leaves(old(temps), {artifact, ledger}, old(counter), temps, RemovalFails(faults))
      ensures outcome.Fresh? ==> temps == old(temps) - {artifact, ledger}
      ensures outcome == if BeforePublishArtifact in faults || RenamingArtifact in faults then Failed
                         else LateEnding(faults, previous.Some?)
      ensures disk == Written(old(disk), req, old(temps)[ledger].entries, outcome)
    {
      var dest := req.entry.artifactPath;
      if BeforePublishArtifact in faults {
        Discard(artifact, RemovingArtifactTemp in faults);
        Discard(ledger, RemovingLedgerTemp in faults);
        return Failed;
      }
      PublishArtifact(artifact, dest, RenamingArtifact in faults, RemovingArtifactTemp in faults);
      if RenamingArtifact in faults {
        Discard(ledger, RemovingLedgerTemp in faults);
        return Failed;
      }
      assert previous.Some? ==> old(disk).files[dest := req.bytes][dest := previous.value] == old(disk).files;
      assert previous.None? ==> old(disk).files[dest := req.bytes] - {dest} == old(disk).files;
      outcome := PublishState(dest, previous, ledger, faults);
    }

    /** The second rename, and the rollback of the first when it does not happen. */
    method PublishState(dest: string, previous: Option<Bytes>, ledger: nat, faults: set<FaultPoint>)
      returns (outcome: Outcome)
      requires Valid() && ledger in temps && temps[ledger].LedgerContent?
      modifies this
      ensures Valid() && Leaves(old(temps), {ledger}, old(counter), temps, RemovalFails(faults))
      ensures outcome.Fresh? ==> temps == old(temps) - {ledger}
      ensures outcome == LateEnding(faults, previous.Some?)
      ensures outcome.Fresh? ==> disk == old(disk.(ledger := Present(temps[ledger].entries)))
      ensures outcome.Dirty? ==> disk == old(disk)
      ensures outcome.Failed? ==> disk == old(disk).(
                files := if previous.Some? then old(disk).files[dest := previous.value] else old(disk).files - {dest})
    {
      if BeforePublishState in faults {
        Discard(ledger, RemovingLedgerTemp in faults);
      } else {
        PublishLedger(ledger, RenamingLedger in faults, RemovingLedgerTemp in faults);
      }
      if StopsLate(faults) {
        var restored := RestoreArtifact(dest, previous, faults);
        return if restored then Failed else Dirty;
      }
      outcome := Fresh;
    }
  }

  /** Running an install to its end is one of the endings a serialized session may have. */
  lemma EndingsAreAllowed(digest: Digest, disk: Disk, req: Request, faults: set<FaultPoint>)
    ensures Allowed(digest, disk, req, Ending(digest, disk, req, faults))
  {
  }

  /**
    * On a store that does not have the request yet, any one fault in reading, writing, publishing or before the lock
    * fails the install, a rollback that fails too leaves it dirty, and a removal that fails changes nothing.
    */
  lemma EachFaultShows(digest: Digest, disk: Disk, req: Request, f: FaultPoint)
    requires LoadState(disk.ledger).Some?
    requires !IsInstalled(digest, disk.files, LoadState(disk.ledger).value, req.entry)
    ensures var removals := {RemovingArtifactTemp, RemovingLedgerTemp, RemovingRestoreTemp};
            var rollback := {Restoring, RenamingRestore};
            && Ending(digest, disk, req, {f}) == (if f in removals + rollback then Fresh else Failed)
            && (f in {BeforePublishState, RenamingLedger} ==> Ending(digest, disk, req, {f, Restoring}) == Dirty)
            && (f in {BeforePublishState, RenamingLedger} ==>
                  Ending(digest, disk, req, {f, RenamingRestore}) ==
                  if req.entry.artifactPath in disk.files then Dirty else Failed)
  {
  }

  /** Every ending a serialized session may have, short of a crash, is one some faults bring about. */
  lemma AllowedEndingsHappen(digest: Digest, disk: Disk, req: Request, outcome: Outcome)
    requires Allowed(digest, disk, req, outcome) && !outcome.CrashedClean? && !outcome.CrashedLive?
    ensures exists faults :: Ending(digest, disk, req, faults) == outcome
  {
    var faults: set<FaultPoint> := match outcome
      case Failed => {BeforeLock}
      case Dirty => {BeforePublishState, Restoring}
      case _ => {};
    assert Ending(digest, disk, req, faults) == outcome;
  }
}
