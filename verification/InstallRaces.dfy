/** What racing installs guarantee, over every schedule. */
module InstallRaces {
  import opened Collections
  import opened StoreState
  import opened Interleaving

  /** All declarations of one path agree, requested or in the ledger. */
  ghost predicate DeclarationsAgree(s0: System)
    requires LoadState(s0.disk.ledger).Some?
  {
    && (forall p, q :: p in s0.procs && q in s0.procs ==> Agree(s0.procs[p].req.entry, s0.procs[q].req.entry))
    && (forall e, p :: e in LoadState(s0.disk.ledger).value && p in s0.procs ==> Agree(e, s0.procs[p].req.entry))
  }

  /** A sound store to start on, every request past its content check, and all declarations in agreement. */
  ghost predicate Consistent(digest: Digest, s0: System) {
    && Init(s0) && Good(digest, s0.disk) && DeclarationsAgree(s0)
    && (forall p :: p in s0.procs ==> Authorized(digest, s0.procs[p].req))
  }

  /** No step changes what any process asked for. */
  lemma {:induction false} RequestsNeverChange(digest: Digest, s0: System, steps: seq<(Pid, Action)>)
    requires Exec(digest, s0, steps).Some?
    ensures var s := Exec(digest, s0, steps).value;
            s.procs.Keys == s0.procs.Keys && forall p :: p in s.procs ==> s.procs[p].req == s0.procs[p].req
    decreases |steps|
  {
    if steps != [] {
      var before, step := steps[..|steps| - 1], steps[|steps| - 1];
      RequestsNeverChange(digest, s0, before);
      var v := StepIsApplied(digest, Exec(digest, s0, before).value, step.0, step.1);
    }
  }

  /** Each logged session came from one of the system's requests. */
  ghost predicate LogFrom(s0: System, log: seq<Event>) {
    forall i :: 0 <= i < |log| ==> log[i].pid in s0.procs && log[i].req == s0.procs[log[i].pid].req
  }

  /** Whatever the sessions did, the replayed disk is sound and its ledger agrees with every request. */
  lemma {:induction false} ReplayIsGood(digest: Digest, s0: System, log: seq<Event>)
    requires Consistent(digest, s0) && LogFrom(s0, log)
    ensures var disk := Replay(s0.disk, log);
            && Good(digest, disk)
            && forall e, p :: e in LoadState(disk.ledger).value && p in s0.procs ==> Agree(e, s0.procs[p].req.entry)
    decreases |log|
  {
    if log != [] {
      var before, last := log[..|log| - 1], log[|log| - 1];
      assert LogFrom(s0, before) by { assert forall i :: 0 <= i < |before| ==> before[i] == log[i]; }
      ReplayIsGood(digest, s0, before);
      var disk := Replay(s0.disk, before);
      SessionsKeepTheStoreGood(digest, disk, last.req, last.outcome);
      SessionsRecordOnlyTheirOwn(disk, last.req, last.outcome);
    }
  }

  /**
    * At every instant of every schedule, whatever failed and whoever died, the ledger's keys ascend
    * and each of its entries names an artifact with the declared bytes.
    */
  lemma LedgerIsAlwaysSound(digest: Digest, s0: System, steps: seq<(Pid, Action)>)
    requires Consistent(digest, s0) && Exec(digest, s0, steps).Some?
    ensures Good(digest, Exec(digest, s0, steps).value.disk)
  {
    var s := Exec(digest, s0, steps).value;
    EveryScheduleKeepsInv(digest, s0, steps);
    RequestsNeverChange(digest, s0, steps);
    assert LogFrom(s0, s.log);
    ReplayIsGood(digest, s0, s.log);
    if s.lock.Some? {
      var base, req := Replay(s0.disk, s.log), s.procs[s.lock.value].req;
      assert Session(digest, base, View(s.disk, s.procs[s.lock.value]));
      CrashWindowIsSoundExactlyWhenPathsAgree(digest, base, req);
    }
  }

  /**
    * The sessions are serialized: whenever the lock is free the disk is what running them in lock
    * order leaves, and each could have ended as it did in that order.
    */
  lemma SessionsAreSerialized(digest: Digest, s0: System, steps: seq<(Pid, Action)>)
    requires Init(s0) && Exec(digest, s0, steps).Some?
    ensures var s := Exec(digest, s0, steps).value;
            && (s.lock.None? ==> s.disk == Replay(s0.disk, s.log))
            && LogFits(digest, s0.disk, s.log) && LogMatches(s)
  {
    EveryScheduleKeepsInv(digest, s0, steps);
  }

  /** `p` holds the lock it took on `found`, or is done. */
  ghost predicate HoldsOrEnded(s: System, p: Pid, found: Disk) {
    && p in s.procs && !s.procs[p].phase.Waiting?
    && if s.lock == Some(p) then s.acquired == found else s.procs[p].phase.Ended?
  }

  lemma StepKeepsHolding(digest: Digest, s: System, p: Pid, found: Disk, q: Pid, a: Action)
    requires HoldsOrEnded(s, p, found) && Perform(digest, s, q, a).Some?
    ensures HoldsOrEnded(Perform(digest, s, q, a).value, p, found)
  {
    var v := StepIsApplied(digest, s, q, a);
  }

  lemma {:induction false} ScheduleKeepsHolding(digest: Digest, s: System, p: Pid, found: Disk,
                                                later: seq<(Pid, Action)>)
    requires HoldsOrEnded(s, p, found) && Exec(digest, s, later).Some?
    ensures HoldsOrEnded(Exec(digest, s, later).value, p, found)
    decreases |later|
  {
    if later != [] {
      var rest, last := later[..|later| - 1], later[|later| - 1];
      ScheduleKeepsHolding(digest, s, p, found, rest);
      StepKeepsHolding(digest, Exec(digest, s, rest).value, p, found, last.0, last.1);
    }
  }

  /** How a process stands, one that is not in the system never having started. */
  function PhaseOf(s: System, p: Pid): Phase {
    if p in s.procs then s.procs[p].phase else Waiting
  }

  // ---- What is left behind ---------------------------------------------------------------------

  /** The staged files of `p` whose removal failed along a schedule. */
  function KeptBy(steps: seq<(Pid, Action)>, p: Pid): set<TempKind> {
    if steps == [] then {}
    else
      var last := steps[|steps| - 1];
      KeptBy(steps[..|steps| - 1], p) + if last.0 == p then Kept(last.1) else {}
  }

  lemma {:induction false} StuckIsWhatWasKept(digest: Digest, s: System, steps: seq<(Pid, Action)>, p: Pid)
    requires Exec(digest, s, steps).Some? && p in s.procs
    ensures var s' := Exec(digest, s, steps).value;
            p in s'.procs && s'.procs[p].stuck == s.procs[p].stuck + KeptBy(steps, p)
    decreases |steps|
  {
    if steps != [] {
      var before, step := steps[..|steps| - 1], steps[|steps| - 1];
      StuckIsWhatWasKept(digest, s, before, p);
      var v := StepIsApplied(digest, Exec(digest, s, before).value, step.0, step.1);
    }
  }

  /** However an install ends that nothing kills, the staged files it leaves are those it failed to remove. */
  lemma LeftoversAreFailedRemovals(digest: Digest, s0: System, steps: seq<(Pid, Action)>, p: Pid)
    requires Init(s0) && Exec(digest, s0, steps).Some? && p in s0.procs
    requires var phase := PhaseOf(Exec(digest, s0, steps).value, p); phase.Ended? && !IsCrash(phase.outcome)
    ensures Exec(digest, s0, steps).value.procs[p].temps.Keys == KeptBy(steps, p)
  {
    EveryScheduleKeepsInv(digest, s0, steps);
    StuckIsWhatWasKept(digest, s0, steps, p);
    EndedOwnsWhatIsStuck(Exec(digest, s0, steps).value.procs[p]);
    assert s0.procs[p].stuck == {};
  }

  lemma EndedOwnsWhatIsStuck(proc: Proc)
    requires Accounted(proc) && proc.phase.Ended? && !IsCrash(proc.phase.outcome)
    ensures proc.temps.Keys == proc.stuck
  {
    assert OwnedKinds(proc.phase) + proc.stuck == proc.stuck;
  }

  /**
    * An install that took the lock and then returned an error left the ledger and every artifact exactly as it found
    * them, and of its own staged files those it failed to remove; only a failed rollback is excepted.
    */
  lemma FailedInstallsRestoreTheDisk(digest: Digest, s0: System, before: seq<(Pid, Action)>, found: System, p: Pid,
                                     locked: System, later: seq<(Pid, Action)>, last: System, a: Action, left: System)
    requires Init(s0) && Exec(digest, s0, before) == Some(found)
    requires Perform(digest, found, p, Acquire) == Some(locked)
    requires Exec(digest, locked, later) == Some(last)
    requires Perform(digest, last, p, a) == Some(left) && PhaseOf(left, p) == Ended(Failed)
    ensures left.disk == found.disk && left.procs[p].temps.Keys == KeptBy(later, p) + Kept(a)
  {
    EveryScheduleKeepsInv(digest, s0, before);
    AcquiringHolds(digest, s0.disk, found, p);
    HoldersThatFailRestore(digest, s0.disk, found.disk, p, locked, later, last, a);
  }

  lemma HoldersThatFailRestore(digest: Digest, start: Disk, found: Disk, p: Pid, locked: System,
                               later: seq<(Pid, Action)>, last: System, a: Action)
    requires Inv(digest, start, locked) && HoldsOrEnded(locked, p, found) && locked.procs[p].stuck == {}
    requires Exec(digest, locked, later) == Some(last)
    requires Perform(digest, last, p, a).Some? && PhaseOf(Perform(digest, last, p, a).value, p) == Ended(Failed)
    ensures var left := Perform(digest, last, p, a).value;
            left.disk == found && left.procs[p].temps.Keys == KeptBy(later, p) + Kept(a)
  {
    ScheduleKeepsInv(digest, start, locked, later);
    ScheduleKeepsHolding(digest, locked, p, found, later);
    StuckIsWhatWasKept(digest, locked, later, p);
    EndingInFailureRestores(digest, start, last, p, a);
  }

  lemma AcquiringHolds(digest: Digest, start: Disk, s: System, p: Pid)
    requires Inv(digest, start, s) && Perform(digest, s, p, Acquire).Some?
    ensures var s' := Perform(digest, s, p, Acquire).value;
            && Inv(digest, start, s') && HoldsOrEnded(s', p, s.disk) && s'.procs[p].stuck == {}
  {
    StepKeepsInv(digest, start, s, p, Acquire);
    var v := StepIsApplied(digest, s, p, Acquire);
    assert Accounted(s.procs[p]);
  }

  lemma EndingInFailureRestores(digest: Digest, start: Disk, s: System, p: Pid, a: Action)
    requires Inv(digest, start, s) && p in s.procs && (s.lock == Some(p) || s.procs[p].phase.Ended?)
    requires Perform(digest, s, p, a).Some? && PhaseOf(Perform(digest, s, p, a).value, p) == Ended(Failed)
    ensures var s' := Perform(digest, s, p, a).value;
            s.lock == Some(p) && s'.disk == s.acquired && s'.procs[p].temps.Keys == s.procs[p].stuck + Kept(a)
  {
    var v := StepIsApplied(digest, s, p, a);
    SessionEnds(digest, Replay(start, s.log), s, p, a);
    ActKeepsAccounts(digest, View(s.disk, s.procs[p]), a);
    EndedOwnsWhatIsStuck(v.proc);
  }

  // ---- Many installs of one record -------------------------------------------------------------

  /** Once the request is installed, a later session that succeeds can only find it installed. */
  ghost predicate SameRequest(log: seq<Event>, req: Request) {
    forall i :: 0 <= i < |log| ==> log[i].req == req && (log[i].outcome.Fresh? || log[i].outcome.Idempotent?)
  }

  /** A sound store whose ledger agrees with the request, which is installed or not. */
  ghost predicate Ready(digest: Digest, disk: Disk, req: Request, installed: bool) {
    && Good(digest, disk) && Authorized(digest, req)
    && (forall e :: e in LoadState(disk.ledger).value ==> Agree(e, req.entry))
    && IsInstalled(digest, disk.files, LoadState(disk.ledger).value, req.entry) == installed
  }

  lemma SuccessInstallsOnce(digest: Digest, disk: Disk, req: Request, installed: bool, outcome: Outcome)
    requires Ready(digest, disk, req, installed) && Allowed(digest, disk, req, outcome)
    requires outcome.Fresh? || outcome.Idempotent?
    ensures outcome.Idempotent? <==> installed
    ensures Ready(digest, After(disk, req, outcome), req, true)
  {
    SessionsKeepTheStoreGood(digest, disk, req, outcome);
    SessionsRecordOnlyTheirOwn(disk, req, outcome);
    SuccessfulSessionsInstall(digest, disk, req, outcome);
  }

  lemma OneMoreSuccess(digest: Digest, start: Disk, log: seq<Event>, req: Request)
    requires log != [] && SameRequest(log, req) && LogFits(digest, start, log)
    requires Ready(digest, Replay(start, log[..|log| - 1]), req, |log| > 1)
    ensures log[|log| - 1].outcome.Fresh? <==> |log| == 1
    ensures Ready(digest, Replay(start, log), req, true)
  {
    SuccessInstallsOnce(digest, Replay(start, log[..|log| - 1]), req, |log| > 1, log[|log| - 1].outcome);
  }

  lemma SameRequestBefore(log: seq<Event>, req: Request)
    requires log != [] && SameRequest(log, req)
    ensures SameRequest(log[..|log| - 1], req)
  {
  }

  /** Only the first of them writes. */
  ghost predicate FirstWrites(log: seq<Event>) {
    forall i :: 0 <= i < |log| ==> (log[i].outcome.Fresh? <==> i == 0)
  }

  lemma OneMoreFindsIt(log: seq<Event>)
    requires log != [] && FirstWrites(log[..|log| - 1])
    requires log[|log| - 1].outcome.Fresh? <==> |log| == 1
    ensures FirstWrites(log)
  {
    forall i | 0 <= i < |log| - 1 ensures log[i].outcome.Fresh? <==> i == 0 {
      assert log[..|log| - 1][i] == log[i];
    }
  }

  lemma {:induction false} FirstWritesOthersFindIt(digest: Digest, start: Disk, log: seq<Event>, req: Request)
    requires Ready(digest, start, req, false) && SameRequest(log, req) && LogFits(digest, start, log)
    ensures FirstWrites(log) && Ready(digest, Replay(start, log), req, |log| > 0)
    decreases |log|
  {
    if log != [] {
      SameRequestBefore(log, req);
      FirstWritesOthersFindIt(digest, start, log[..|log| - 1], req);
      OneMoreSuccess(digest, start, log, req);
      OneMoreFindsIt(log);
    }
  }

  /** All of these installs succeeded. */
  ghost predicate AllSucceeded(s0: System, s: System) {
    forall p :: p in s0.procs ==> PhaseOf(s, p) in {Ended(Fresh), Ended(Idempotent)}
  }

  /** Exactly one of these installs wrote, and all the others found it installed. */
  ghost predicate OneWrote(s0: System, s: System) {
    exists w :: w in s0.procs && PhaseOf(s, w) == Ended(Fresh)
      && forall p :: p in s0.procs && p != w ==> PhaseOf(s, p) == Ended(Idempotent)
  }

  lemma ConsistentIsReady(digest: Digest, s0: System, p: Pid)
    requires Consistent(digest, s0) && p in s0.procs
    requires !IsInstalled(digest, s0.disk.files, LoadState(s0.disk.ledger).value, s0.procs[p].req.entry)
    ensures Ready(digest, s0.disk, s0.procs[p].req, false)
  {
  }

  /**
    * Any number of installs of one record from one source, none of which fails or dies: whatever the
    * schedule, exactly one writes and all the others report it already installed.
    */
  lemma ManyInstallsOneWrite(digest: Digest, s0: System, steps: seq<(Pid, Action)>, req: Request)
    requires Consistent(digest, s0) && s0.procs != map[]
    requires forall p :: p in s0.procs ==> s0.procs[p].req == req
    requires !IsInstalled(digest, s0.disk.files, LoadState(s0.disk.ledger).value, req.entry)
    requires Exec(digest, s0, steps).Some? && AllSucceeded(s0, Exec(digest, s0, steps).value)
    ensures OneWrote(s0, Exec(digest, s0, steps).value)
  {
    var s := Exec(digest, s0, steps).value;
    SessionsAreSerialized(digest, s0, steps);
    RequestsNeverChange(digest, s0, steps);
    var p0 :| p0 in s0.procs;
    ConsistentIsReady(digest, s0, p0);
    OneEventEach(s, req);
    FirstWritesOthersFindIt(digest, s0.disk, s.log, req);
    FirstIsTheOnlyWriter(s0, s, p0);
  }

  lemma OneEventEach(s: System, req: Request)
    requires LogMatches(s)
    requires AllSucceeded(s, s) && forall p :: p in s.procs ==> s.procs[p].req == req
    ensures SameRequest(s.log, req)
  {
    forall i | 0 <= i < |s.log|
      ensures s.log[i].req == req && (s.log[i].outcome.Fresh? || s.log[i].outcome.Idempotent?) {
      assert IsLogged(s, s.log[i]);
    }
  }

  lemma FirstIsTheOnlyWriter(s0: System, s: System, p0: Pid)
    requires LogMatches(s) && p0 in s.procs && s.procs.Keys == s0.procs.Keys
    requires AllSucceeded(s, s)
    requires FirstWrites(s.log)
    ensures OneWrote(s0, s)
  {
    assert s.procs[p0].phase.Ended?;
    assert IsLogged(s, s.log[0]);
    forall p | p in s.procs && p != s.log[0].pid ensures PhaseOf(s, p) == Ended(Idempotent) {
      assert s.procs[p].phase.Ended?;
      var i :| 0 <= i < |s.log| && s.log[i].pid == p;
      assert IsLogged(s, s.log[i]);
    }
  }

  // ---- Why the declarations have to agree ------------------------------------------------------

  /** Some schedule leads from `s0` to `s`. */
  ghost predicate CanReach(digest: Digest, s0: System, s: System) {
    exists steps :: Exec(digest, s0, steps) == Some(s)
  }

  /** Only `p` has moved. */
  predicate OthersUntouched(before: System, after: System, p: Pid) {
    && after.procs.Keys == before.procs.Keys && p in before.procs
    && forall q :: q in before.procs && q != p ==> after.procs[q] == before.procs[q]
  }

  /** What `p` sees. */
  function ViewOf(s: System, p: Pid): View
    requires p in s.procs
  {
    View(s.disk, s.procs[p])
  }

  lemma OneMoreStep(digest: Digest, s0: System, s: System, p: Pid, a: Action, v: View) returns (s': System)
    requires CanReach(digest, s0, s) && p in s.procs && Act(digest, ViewOf(s, p), a) == Some(v)
    requires s.lock == if a.Acquire? then None else Some(p)
    ensures CanReach(digest, s0, s') && OthersUntouched(s, s', p) && ViewOf(s', p) == v
    ensures s'.lock == if v.proc.phase.Ended? then None else Some(p)
  {
    ActShape(digest, ViewOf(s, p), a);
    s' := Applied(s, p, v, a.Acquire?);
    StepCanBeTaken(digest, s, p, a, v);
    ReachingOneMore(digest, s0, s, p, a, s');
  }

  lemma StepCanBeTaken(digest: Digest, s: System, p: Pid, a: Action, v: View)
    requires p in s.procs && Act(digest, ViewOf(s, p), a) == Some(v) && (a.Acquire? ==> s.lock.None?)
    ensures Perform(digest, s, p, a) == Some(Applied(s, p, v, a.Acquire?))
  {
  }

  lemma ReachingOneMore(digest: Digest, s0: System, s: System, p: Pid, a: Action, s': System)
    requires CanReach(digest, s0, s) && Perform(digest, s, p, a) == Some(s')
    ensures CanReach(digest, s0, s')
  {
    var steps :| Exec(digest, s0, steps) == Some(s);
    assert (steps + [(p, a)])[..|steps|] == steps;
    assert Exec(digest, s0, steps + [(p, a)]) == Some(s');
  }

  /** No one holds the lock, and `p` has not started on what is not installed. */
  predicate CanInstall(digest: Digest, s: System, p: Pid) {
    && s.lock.None? && p in s.procs && s.procs[p].phase.Waiting? && LoadState(s.disk.ledger).Some?
    && !IsInstalled(digest, s.disk.files, LoadState(s.disk.ledger).value, s.procs[p].req.entry)
  }

  lemma DecisionSteps(digest: Digest, v: View)
    requires v.proc.phase.Waiting? && LoadState(v.disk.ledger).Some?
    ensures Act(digest, v, Acquire) == Some(v.To(Holding))
    ensures Act(digest, v.To(Holding), ReadLedger) == Some(v.To(Decided(LoadState(v.disk.ledger).value)))
  {
  }

  lemma ReachTheDecision(digest: Digest, s0: System, s: System, p: Pid) returns (d: System)
    requires CanReach(digest, s0, s) && CanInstall(digest, s, p)
    ensures CanReach(digest, s0, d) && OthersUntouched(s, d, p) && d.lock == Some(p)
    ensures ViewOf(d, p) == ViewOf(s, p).To(Decided(LoadState(s.disk.ledger).value))
  {
    var v := ViewOf(s, p);
    DecisionSteps(digest, v);
    var h := OneMoreStep(digest, s0, s, p, Acquire, v.To(Holding));
    d := OneMoreStep(digest, s0, h, p, ReadLedger, v.To(Decided(LoadState(s.disk.ledger).value)));
  }

  /** Both files staged, nothing published. */
  predicate Staged(v: View, entries: seq<Entry>) {
    && v.proc.phase.BothStaged? && StagedBytes(v.proc.temps, ArtifactTemp) == Some(v.proc.req.bytes)
    && StagedLedger(v.proc.temps) == Some(Recorded(entries, v.proc.req.entry))
  }

  lemma CaptureStep(digest: Digest, v: View) returns (c: View)
    requires v.proc.phase.Decided? && !IsInstalled(digest, v.disk.files, v.proc.phase.entries, v.proc.req.entry)
    ensures Act(digest, v, CapturePrevious) == Some(c) && c.proc.phase.Captured?
    ensures c.proc.phase.entries == v.proc.phase.entries && c.disk == v.disk && c.proc.req == v.proc.req
  {
    c := v.To(Captured(v.proc.phase.entries, Lookup(v.disk.files, v.proc.req.entry.artifactPath)));
  }

  lemma StageArtifactStep(digest: Digest, v: View) returns (a: View)
    requires v.proc.phase.Captured?
    ensures Act(digest, v, StageArtifact) == Some(a) && a.proc.phase.ArtifactStaged?
    ensures a.proc.phase.entries == v.proc.phase.entries && a.disk == v.disk && a.proc.req == v.proc.req
    ensures StagedBytes(a.proc.temps, ArtifactTemp) == Some(v.proc.req.bytes)
  {
    a := Prepare(v, StageArtifact).value;
  }

  lemma StageLedgerStep(digest: Digest, v: View) returns (b: View)
    requires v.proc.phase.ArtifactStaged? && StagedBytes(v.proc.temps, ArtifactTemp) == Some(v.proc.req.bytes)
    ensures Act(digest, v, StageLedger) == Some(b) && Staged(b, v.proc.phase.entries)
    ensures b.disk == v.disk && b.proc.req == v.proc.req
  {
    b := Prepare(v, StageLedger).value;
    StagingBeside(v.proc.temps, Recorded(v.proc.phase.entries, v.proc.req.entry));
  }

  lemma ReachTheStaging(digest: Digest, s0: System, d: System, p: Pid) returns (s: System)
    requires CanReach(digest, s0, d) && p in d.procs && d.lock == Some(p) && d.procs[p].phase.Decided?
    requires !IsInstalled(digest, d.disk.files, d.procs[p].phase.entries, d.procs[p].req.entry)
    ensures CanReach(digest, s0, s) && OthersUntouched(d, s, p) && s.lock == Some(p)
    ensures s.disk == d.disk && s.procs[p].req == d.procs[p].req && Staged(ViewOf(s, p), d.procs[p].phase.entries)
  {
    var v := CaptureStep(digest, ViewOf(d, p));
    var c := OneMoreStep(digest, s0, d, p, CapturePrevious, v);
    var w := StageArtifactStep(digest, v);
    var a := OneMoreStep(digest, s0, c, p, StageArtifact, w);
    var x := StageLedgerStep(digest, w);
    s := OneMoreStep(digest, s0, a, p, StageLedger, x);
  }

  /** The artifact is in place, the ledger staged. */
  predicate InTheWindow(v: View, entries: seq<Entry>) {
    v.proc.phase.ArtifactPublished? && StagedLedger(v.proc.temps) == Some(Recorded(entries, v.proc.req.entry))
  }

  lemma RenameArtifactStep(digest: Digest, v: View, entries: seq<Entry>) returns (w: View)
    requires Staged(v, entries)
    ensures Act(digest, v, RenameArtifact) == Some(w) && InTheWindow(w, entries)
    ensures w.disk == ArtifactLive(v.disk, v.proc.req) && w.proc.req == v.proc.req
  {
    w := Publish(v, RenameArtifact).value;
    assert StagedLedger(w.proc.temps) == StagedLedger(v.proc.temps);
  }

  lemma RenameLedgerStep(digest: Digest, v: View, entries: seq<Entry>) returns (f: View)
    requires InTheWindow(v, entries)
    ensures Act(digest, v, RenameLedger) == Some(f) && f.proc.phase.Ended?
    ensures f.disk == v.disk.(ledger := Present(Recorded(entries, v.proc.req.entry)))
  {
    f := Publish(v, RenameLedger).value;
  }

  /** From a free lock, a request that is not installed gets to where its artifact is live and its ledger is not. */
  lemma ReachTheCrashWindow(digest: Digest, s0: System, s: System, p: Pid) returns (w: System)
    requires CanReach(digest, s0, s) && CanInstall(digest, s, p)
    ensures CanReach(digest, s0, w) && OthersUntouched(s, w, p) && w.lock == Some(p)
    ensures w.disk == ArtifactLive(s.disk, s.procs[p].req) && w.procs[p].req == s.procs[p].req
    ensures InTheWindow(ViewOf(w, p), LoadState(s.disk.ledger).value)
  {
    var d := ReachTheDecision(digest, s0, s, p);
    var b := ReachTheStaging(digest, s0, d, p);
    var v := RenameArtifactStep(digest, ViewOf(b, p), LoadState(s.disk.ledger).value);
    w := OneMoreStep(digest, s0, b, p, RenameArtifact, v);
  }

  /** And from there to having installed it. */
  lemma ReachTheInstall(digest: Digest, s0: System, s: System, p: Pid) returns (f: System)
    requires CanReach(digest, s0, s) && CanInstall(digest, s, p)
    ensures CanReach(digest, s0, f) && OthersUntouched(s, f, p) && f.lock.None?
    ensures f.disk == After(s.disk, s.procs[p].req, Fresh)
  {
    var w := ReachTheCrashWindow(digest, s0, s, p);
    var v := RenameLedgerStep(digest, ViewOf(w, p), LoadState(s.disk.ledger).value);
    f := OneMoreStep(digest, s0, w, p, RenameLedger, v);
  }

  /** A path's content cannot be what two disagreeing declarations ask for at once. */
  lemma DisagreeingRequestIsNotInstalled(digest: Digest, disk: Disk, req: Request, e: Entry)
    requires Good(digest, disk) && e in LoadState(disk.ledger).value && !Agree(e, req.entry)
    ensures !IsInstalled(digest, disk.files, LoadState(disk.ledger).value, req.entry)
  {
    assert ArtifactMatches(digest, disk.files, e);
  }

  /**
    * One declaration that disagrees with the ledger about a path is enough, as long as the lock is free: between the
    * two renames, and for good if the process dies there, a ledger entry's artifact is not the declared one.
    */
  lemma DisagreementBreaksTheLedgerInTheWindow(digest: Digest, s0: System, s: System, p: Pid, e: Entry)
    requires CanReach(digest, s0, s) && s.lock.None? && p in s.procs && s.procs[p].phase.Waiting?
    requires Good(digest, s.disk) && Authorized(digest, s.procs[p].req)
    requires e in LoadState(s.disk.ledger).value && !Agree(e, s.procs[p].req.entry)
    ensures exists w :: CanReach(digest, s0, w) && !Good(digest, w.disk)
  {
    DisagreeingRequestIsNotInstalled(digest, s.disk, s.procs[p].req, e);
    var w := ReachTheCrashWindow(digest, s0, s, p);
    CrashWindowIsSoundExactlyWhenPathsAgree(digest, s.disk, s.procs[p].req);
  }

  /** Installing the first of two requests that disagree brings the disagreement into the ledger. */
  lemma DisagreeingRequestsBreakTheLedger(digest: Digest, s0: System, p: Pid, q: Pid)
    requires Init(s0) && Good(digest, s0.disk) && p in s0.procs && q in s0.procs
    requires Authorized(digest, s0.procs[p].req) && Authorized(digest, s0.procs[q].req)
    requires !Agree(s0.procs[p].req.entry, s0.procs[q].req.entry)
    ensures exists w :: CanReach(digest, s0, w) && !Good(digest, w.disk)
  {
    var req, entries := s0.procs[p].req, LoadState(s0.disk.ledger).value;
    assert Exec(digest, s0, []) == Some(s0);
    if IsInstalled(digest, s0.disk.files, entries, req.entry) {
      assert req.entry in entries;
      DisagreementBreaksTheLedgerInTheWindow(digest, s0, s0, q, req.entry);
    } else {
      var f := ReachTheInstall(digest, s0, s0, p);
      if Good(digest, f.disk) {
        FreshLeaves(s0.disk, req);
        RecordingKeepsTheLedgerInOrder(entries, req.entry);
        DisagreementBreaksTheLedgerInTheWindow(digest, s0, f, q, req.entry);
      }
    }
  }

  /**
    * Started on a sound store with authorized requests, a system keeps its ledger sound at every instant of every
    * schedule if and only if all declarations of one path agree, those in the ledger and those requested.
    */
  lemma LedgerIsSoundExactlyWhenDeclarationsAgree(digest: Digest, s0: System)
    requires Init(s0) && Good(digest, s0.disk) && forall p :: p in s0.procs ==> Authorized(digest, s0.procs[p].req)
    ensures (forall s :: CanReach(digest, s0, s) ==> Good(digest, s.disk)) <==> DeclarationsAgree(s0)
  {
    if DeclarationsAgree(s0) {
      forall s | CanReach(digest, s0, s) ensures Good(digest, s.disk) {
        var steps :| Exec(digest, s0, steps) == Some(s);
        LedgerIsAlwaysSound(digest, s0, steps);
      }
    } else if p, q :| p in s0.procs && q in s0.procs && !Agree(s0.procs[p].req.entry, s0.procs[q].req.entry) {
      DisagreeingRequestsBreakTheLedger(digest, s0, p, q);
    } else {
      var e, p :| e in LoadState(s0.disk.ledger).value && p in s0.procs && !Agree(e, s0.procs[p].req.entry);
      assert Exec(digest, s0, []) == Some(s0);
      DisagreementBreaksTheLedgerInTheWindow(digest, s0, s0, p, e);
    }
  }
}
