/** What racing installs can always go on to do: nothing a step needs is ever missing. */
module InstallProgress {
  import opened Collections
  import opened StoreState
  import opened Interleaving
  import opened InstallRaces

  /** Neither a failure nor a death. */
  predicate IsProgress(a: Action) {
    !IsStop(a) && !a.FailUnlocked?
  }

  ghost predicate FailureFree(steps: seq<(Pid, Action)>) {
    forall i :: 0 <= i < |steps| ==> IsProgress(steps[i].1)
  }

  /** `p` alone takes these steps, none of them a failure, and leads from `s` to `f`. */
  ghost predicate RunsAlone(digest: Digest, s: System, steps: seq<(Pid, Action)>, p: Pid, f: System) {
    Exec(digest, s, steps) == Some(f) && FailureFree(steps) && forall i :: 0 <= i < |steps| ==> steps[i].0 == p
  }

  lemma {:induction false} ExecAppend(digest: Digest, s: System, a: seq<(Pid, Action)>, m: System,
                                      b: seq<(Pid, Action)>)
    requires Exec(digest, s, a) == Some(m)
    ensures Exec(digest, s, a + b) == Exec(digest, m, b)
    decreases |b|
  {
    if b == [] {
      assert a + b == a;
    } else {
      var front, last := b[..|b| - 1], b[|b| - 1];
      ExecAppend(digest, s, a, m, front);
      assert (a + b)[..|a + b| - 1] == a + front && (a + b)[|a + b| - 1] == last;
    }
  }

  lemma RunsJoin(digest: Digest, s: System, a: seq<(Pid, Action)>, p: Pid, m: System, b: seq<(Pid, Action)>, f: System)
    requires RunsAlone(digest, s, a, p, m) && RunsAlone(digest, m, b, p, f)
    ensures RunsAlone(digest, s, a + b, p, f)
  {
    ExecAppend(digest, s, a, m, b);
  }

  lemma OneStepRun(digest: Digest, s: System, p: Pid, a: Action)
    requires Perform(digest, s, p, a).Some? && IsProgress(a)
    ensures RunsAlone(digest, s, [(p, a)], p, Perform(digest, s, p, a).value)
  {
    assert [(p, a)][..0] == [];
    assert Exec(digest, s, []) == Some(s);
  }

  // ---- The lock holder can always finish -------------------------------------------------------

  /** The step a lock holder takes when nothing fails. */
  function Next(digest: Digest, base: Disk, proc: Proc): Action {
    match proc.phase
    case Holding => ReadLedger
    case Decided(entries) =>
      if IsInstalled(digest, base.files, entries, proc.req.entry) then ReportInstalled else CapturePrevious
    case Captured(_, _) => StageArtifact
    case ArtifactStaged(_, _) => StageLedger
    case BothStaged(_) => RenameArtifact
    case ArtifactPublished(_) => RenameLedger
    case RollingBack(previous) => if previous.None? then RemoveArtifact else StageRestore
    case _ => RenameRestore
  }

  /** How many steps are left at most. */
  function Remaining(phase: Phase): nat {
    match phase
    case Holding => 7
    case Decided(_) => 6
    case Captured(_, _) => 5
    case ArtifactStaged(_, _) => 4
    case BothStaged(_) => 3
    case ArtifactPublished(_) => 2
    case RollingBack(_) => 2
    case _ => 1
  }

  /** What the store calls for: a rollback fails the install; otherwise it installs what is not installed. */
  function Due(digest: Digest, base: Disk, proc: Proc): Outcome
    requires LoadState(base.ledger).Some?
  {
    if proc.phase.RollingBack? || proc.phase.RestoreStaged? then Failed
    else if IsInstalled(digest, base.files, LoadState(base.ledger).value, proc.req.entry) then Idempotent
    else Fresh
  }

  /** The next step leads on to what is due, or is that end. */
  ghost predicate LeadsOn(digest: Digest, base: Disk, before: Proc, after: Proc)
    requires LoadState(base.ledger).Some?
  {
    if after.phase.Ended? then after.phase.outcome == Due(digest, base, before)
    else
      && Critical(after.phase) && Remaining(after.phase) < Remaining(before.phase)
      && Due(digest, base, after) == Due(digest, base, before)
  }

  lemma DecidingGoesOn(digest: Digest, base: Disk, v: View)
    requires Session(digest, base, v) && LoadState(base.ledger).Some? &&
             (v.proc.phase.Holding? || v.proc.phase.Decided?)
    ensures var a := Next(digest, base, v.proc);
            && IsProgress(a) && !a.Acquire? && Act(digest, v, a).Some?
            && LeadsOn(digest, base, v.proc, Act(digest, v, a).value.proc)
  {
    var a := Next(digest, base, v.proc);
    assert Act(digest, v, a) == Decide(digest, v, a);
  }

  lemma StagingTheArtifactGoesOn(digest: Digest, base: Disk, v: View)
    requires Session(digest, base, v) && LoadState(base.ledger).Some? && v.proc.phase.Captured?
    ensures Act(digest, v, StageArtifact).Some?
    ensures LeadsOn(digest, base, v.proc, Act(digest, v, StageArtifact).value.proc)
  {
    assert Act(digest, v, StageArtifact) == Prepare(v, StageArtifact);
  }

  lemma StagingTheLedgerGoesOn(digest: Digest, base: Disk, v: View)
    requires Session(digest, base, v) && LoadState(base.ledger).Some? && v.proc.phase.ArtifactStaged?
    ensures Act(digest, v, StageLedger).Some?
    ensures LeadsOn(digest, base, v.proc, Act(digest, v, StageLedger).value.proc)
  {
    assert Act(digest, v, StageLedger) == Prepare(v, StageLedger);
  }

  lemma RenamingTheArtifactGoesOn(digest: Digest, base: Disk, v: View)
    requires Session(digest, base, v) && LoadState(base.ledger).Some? && v.proc.phase.BothStaged?
    ensures Act(digest, v, RenameArtifact).Some?
    ensures LeadsOn(digest, base, v.proc, Act(digest, v, RenameArtifact).value.proc)
  {
    assert Act(digest, v, RenameArtifact) == Publish(v, RenameArtifact);
  }

  lemma RenamingTheLedgerGoesOn(digest: Digest, base: Disk, v: View)
    requires Session(digest, base, v) && LoadState(base.ledger).Some? && v.proc.phase.ArtifactPublished?
    ensures Act(digest, v, RenameLedger).Some?
    ensures LeadsOn(digest, base, v.proc, Act(digest, v, RenameLedger).value.proc)
  {
    assert Act(digest, v, RenameLedger) == Publish(v, RenameLedger);
  }

  lemma RollingBackGoesOn(digest: Digest, base: Disk, v: View)
    requires Session(digest, base, v) && LoadState(base.ledger).Some?
    requires v.proc.phase.RollingBack? || v.proc.phase.RestoreStaged?
    ensures var a := Next(digest, base, v.proc);
            && IsProgress(a) && !a.Acquire? && Act(digest, v, a).Some?
            && LeadsOn(digest, base, v.proc, Act(digest, v, a).value.proc)
  {
    var a := Next(digest, base, v.proc);
    assert Act(digest, v, a) == RollBack(v, a);
  }

  /** In every phase under the lock the next step is there to be taken, and it leads on. */
  lemma HoldersGoOn(digest: Digest, base: Disk, v: View)
    requires Session(digest, base, v) && Critical(v.proc.phase) && LoadState(base.ledger).Some?
    ensures var a := Next(digest, base, v.proc);
            && IsProgress(a) && !a.Acquire? && Act(digest, v, a).Some?
            && LeadsOn(digest, base, v.proc, Act(digest, v, a).value.proc)
  {
    match v.proc.phase
    case Holding => DecidingGoesOn(digest, base, v);
    case Decided(_) => DecidingGoesOn(digest, base, v);
    case Captured(_, _) => StagingTheArtifactGoesOn(digest, base, v);
    case ArtifactStaged(_, _) => StagingTheLedgerGoesOn(digest, base, v);
    case BothStaged(_) => RenamingTheArtifactGoesOn(digest, base, v);
    case ArtifactPublished(_) => RenamingTheLedgerGoesOn(digest, base, v);
    case RollingBack(_) => RollingBackGoesOn(digest, base, v);
    case RestoreStaged => RollingBackGoesOn(digest, base, v);
  }

  /** `p` is done as was due, the lock is free, and no one else has moved. */
  ghost predicate Done(s: System, p: Pid, f: System, outcome: Outcome) {
    && f.lock.None? && OthersUntouched(s, f, p) && f.procs[p].phase == Ended(outcome)
    && f.procs[p].req == s.procs[p].req
  }

  /** One step of a lock holder, as the system takes it. */
  lemma HolderSteps(digest: Digest, base: Disk, s: System, p: Pid) returns (a: Action, m: System)
    requires InSession(digest, base, s, p) && LoadState(base.ledger).Some?
    ensures IsProgress(a) && Perform(digest, s, p, a) == Some(m) && OthersUntouched(s, m, p)
    ensures m.procs[p].req == s.procs[p].req && LeadsOn(digest, base, s.procs[p], m.procs[p])
    ensures if m.procs[p].phase.Ended?
            then m.lock.None? && m.disk == After(base, s.procs[p].req, m.procs[p].phase.outcome)
            else InSession(digest, base, m, p)
  {
    var v := ViewOf(s, p);
    HoldersGoOn(digest, base, v);
    a := Next(digest, base, v.proc);
    StepCanBeTaken(digest, s, p, a, Act(digest, v, a).value);
    m := Perform(digest, s, p, a).value;
    var w := StepIsApplied(digest, s, p, a);
    if m.procs[p].phase.Ended? {
      SessionEnds(digest, base, s, p, a);
    } else {
      SessionAdvances(digest, base, s, p, a);
    }
  }

  /**
    * Whatever phase a lock holder is in, it can end as is due without failing and without anyone else moving: `Fresh`
    * or `Idempotent` when it is installing, `Failed` with the disk put back when it is rolling back.
    */
  lemma {:induction false} HoldersCanFinish(digest: Digest, base: Disk, s: System, p: Pid)
    returns (steps: seq<(Pid, Action)>, f: System)
    requires InSession(digest, base, s, p) && LoadState(base.ledger).Some?
    ensures var outcome := Due(digest, base, s.procs[p]);
            RunsAlone(digest, s, steps, p, f) && Done(s, p, f, outcome) &&
              f.disk == After(base, s.procs[p].req, outcome)
    decreases Remaining(s.procs[p].phase)
  {
    var a, m := HolderSteps(digest, base, s, p);
    OneStepRun(digest, s, p, a);
    if m.procs[p].phase.Ended? {
      steps, f := [(p, a)], m;
    } else {
      var rest;
      rest, f := HoldersCanFinish(digest, base, m, p);
      steps := [(p, a)] + rest;
      RunsJoin(digest, s, [(p, a)], p, m, rest, f);
    }
  }

  /** A holder that cannot read the ledger has only failing left. */
  lemma UnreadableLedgersOnlyFail(digest: Digest, v: View, a: Action)
    requires v.proc.phase.Holding? && LoadState(v.disk.ledger).None?
    ensures IsProgress(a) ==> Act(digest, v, a).None?
    ensures Act(digest, v, Fail({})).Some? && Act(digest, v, Fail({})).value.proc.phase == Ended(Failed)
  {
  }

  /** Whoever holds the lock, after whatever schedule, can finish and let go of it. */
  lemma TheLockIsNeverStuck(digest: Digest, s0: System, before: seq<(Pid, Action)>, s: System, p: Pid)
    returns (steps: seq<(Pid, Action)>, f: System)
    requires Init(s0) && Exec(digest, s0, before) == Some(s) && s.lock == Some(p)
    requires LoadState(s.acquired.ledger).Some?
    ensures p in s.procs && Done(s, p, f, Due(digest, s.acquired, s.procs[p])) && RunsAlone(digest, s, steps, p, f)
  {
    EveryScheduleKeepsInv(digest, s0, before);
    steps, f := HoldersCanFinish(digest, s.acquired, s, p);
  }

  /** And anything can go wrong anywhere: each failure, any removal failing, and death are there to happen. */
  lemma FailuresCanStrikeAnywhere(digest: Digest, v: View, kept: set<TempKind>, torn: set<TempKind>)
    requires !v.proc.phase.Ended? && Removable(v.proc.phase, kept) && torn <= BeingWritten(v.proc.phase)
    ensures var phase := v.proc.phase;
            && (phase.Waiting? ==> Act(digest, v, FailUnlocked) == Some(v.To(Ended(Failed))))
            && (Critical(phase) && !IsLive(phase) ==> EndsAs(Act(digest, v, Fail(kept)), v, Ended(Failed)))
            && (phase.ArtifactPublished? ==>
                  EndsAs(Act(digest, v, FailAfterArtifact(kept)), v, RollingBack(phase.previous)))
            && (phase.RollingBack? || phase.RestoreStaged? ==>
                  EndsAs(Act(digest, v, RollbackFails(kept)), v, Ended(Dirty)))
            && EndsAs(Act(digest, v, Crash(torn)), v, Ended(if IsLive(phase) then CrashedLive else CrashedClean))
  {
  }

  /** The step can be taken, leaves the disk alone, and leads to that phase. */
  predicate EndsAs(after: Option<View>, before: View, phase: Phase) {
    after.Some? && after.value.disk == before.disk && after.value.proc.phase == phase
  }

  // ---- A waiting process can always install ----------------------------------------------------

  lemma AcquiringStartsASession(digest: Digest, s: System, p: Pid) returns (m: System)
    requires s.lock.None? && p in s.procs && s.procs[p].phase.Waiting?
    ensures Perform(digest, s, p, Acquire) == Some(m) && OthersUntouched(s, m, p)
    ensures InSession(digest, s.disk, m, p) && m.procs[p] == s.procs[p].(phase := Holding)
  {
    DecisionTaken(digest, ViewOf(s, p));
    StepCanBeTaken(digest, s, p, Acquire, ViewOf(s, p).To(Holding));
    m := Applied(s, p, ViewOf(s, p).To(Holding), true);
  }

  lemma DecisionTaken(digest: Digest, v: View)
    requires v.proc.phase.Waiting?
    ensures Act(digest, v, Acquire) == Some(v.To(Holding))
  {
  }

  /**
    * With the lock free and the ledger readable, a waiting process can install by itself and without failing: it ends
    * `Idempotent` when its request is installed, and otherwise `Fresh`, with its request published.
    */
  lemma WaitingInstallsCanFinish(digest: Digest, s: System, p: Pid) returns (steps: seq<(Pid, Action)>, f: System)
    requires s.lock.None? && p in s.procs && s.procs[p].phase.Waiting? && LoadState(s.disk.ledger).Some?
    ensures var req := s.procs[p].req;
            var outcome := if IsInstalled(digest, s.disk.files, LoadState(s.disk.ledger).value, req.entry)
                           then Idempotent else Fresh;
            RunsAlone(digest, s, steps, p, f) && Done(s, p, f, outcome) && f.disk == After(s.disk, req, outcome)
  {
    var m := AcquiringStartsASession(digest, s, p);
    OneStepRun(digest, s, p, Acquire);
    var rest;
    rest, f := HoldersCanFinish(digest, s.disk, m, p);
    steps := [(p, Acquire)] + rest;
    RunsJoin(digest, s, [(p, Acquire)], p, m, rest, f);
  }

  // ---- All of them can ------------------------------------------------------------------------

  /** After a failure-free schedule from the start, with the lock free, only these processes have not succeeded. */
  ghost predicate LeftToDo(digest: Digest, s0: System, steps: seq<(Pid, Action)>, s: System, waiting: set<Pid>) {
    && Exec(digest, s0, steps) == Some(s) && FailureFree(steps) && s.lock.None?
    && s.procs.Keys == s0.procs.Keys && waiting <= s.procs.Keys
    && (forall p :: p in s.procs ==>
          if p in waiting then s.procs[p].phase.Waiting? else s.procs[p].phase in {Ended(Fresh), Ended(Idempotent)})
  }

  lemma OneFewerToDo(digest: Digest, s0: System, steps: seq<(Pid, Action)>, s: System, waiting: set<Pid>, p: Pid)
    returns (more: seq<(Pid, Action)>, f: System)
    requires Consistent(digest, s0) && LeftToDo(digest, s0, steps, s, waiting) && p in waiting
    ensures LeftToDo(digest, s0, steps + more, f, waiting - {p})
  {
    LedgerIsAlwaysSound(digest, s0, steps);
    more, f := WaitingInstallsCanFinish(digest, s, p);
    ExecAppend(digest, s0, steps, s, more);
  }

  lemma {:induction false} TheRestCanSucceed(digest: Digest, s0: System, steps: seq<(Pid, Action)>, s: System,
                                             waiting: set<Pid>)
    returns (all: seq<(Pid, Action)>, f: System)
    requires Consistent(digest, s0) && LeftToDo(digest, s0, steps, s, waiting)
    ensures LeftToDo(digest, s0, all, f, {})
    decreases waiting
  {
    if waiting == {} {
      all, f := steps, s;
    } else {
      var p :| p in waiting;
      var more, m := OneFewerToDo(digest, s0, steps, s, waiting, p);
      all, f := TheRestCanSucceed(digest, s0, steps + more, m, waiting - {p});
    }
  }

  /** However many installs there are, when declarations agree some failure-free schedule has all of them succeed. */
  lemma AllInstallsCanSucceed(digest: Digest, s0: System) returns (steps: seq<(Pid, Action)>)
    requires Consistent(digest, s0)
    ensures FailureFree(steps) && Exec(digest, s0, steps).Some? && AllSucceeded(s0, Exec(digest, s0, steps).value)
  {
    var f;
    steps, f := TheRestCanSucceed(digest, s0, [], s0, s0.procs.Keys);
  }

  /** So any number of installs of one record can all succeed, and then exactly one of them wrote. */
  lemma ManyInstallsCanSucceed(digest: Digest, s0: System, req: Request) returns (steps: seq<(Pid, Action)>)
    requires Consistent(digest, s0) && s0.procs != map[]
    requires forall p :: p in s0.procs ==> s0.procs[p].req == req
    requires !IsInstalled(digest, s0.disk.files, LoadState(s0.disk.ledger).value, req.entry)
    ensures FailureFree(steps) && Exec(digest, s0, steps).Some? && OneWrote(s0, Exec(digest, s0, steps).value)
  {
    steps := AllInstallsCanSucceed(digest, s0);
    ManyInstallsOneWrite(digest, s0, steps, req);
  }
}
