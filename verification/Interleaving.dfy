/** Any number of installs racing on one store, failing and crashing anywhere; the lock serializes them. */
module Interleaving {
  import opened Collections
  import opened StoreState

  type Pid = nat

  datatype TempKind = ArtifactTemp | LedgerTemp | RestoreTemp

  /** What a staged file holds; one whose write did not finish is torn. */
  datatype Content = ArtifactBytes(bytes: Bytes) | LedgerEntries(entries: seq<Entry>) | Torn

  /** Where one install stands. From `Holding` to `RestoreStaged` it holds the store lock. */
  datatype Phase =
    | Waiting
    | Holding
    | Decided(entries: seq<Entry>)
    | Captured(entries: seq<Entry>, previous: Option<Bytes>)
    | ArtifactStaged(entries: seq<Entry>, previous: Option<Bytes>)
    | BothStaged(previous: Option<Bytes>)
    | ArtifactPublished(previous: Option<Bytes>)
    | RollingBack(previous: Option<Bytes>)
    | RestoreStaged
    | Ended(outcome: Outcome)

  /**
    * One install: its staged files by kind, whose names carry the process, so no two processes share one, and which of
    * them it failed to remove.
    */
  datatype Proc = Proc(req: Request, phase: Phase, temps: map<TempKind, Content>, stuck: set<TempKind>)

  /** A session that is over. */
  datatype Event = Event(pid: Pid, req: Request, outcome: Outcome)

  /**
    * The whole system. `acquired` and `log` are history: the disk as the current lock holder found
    * it, and the sessions that are over, in the order they ended.
    */
  datatype System = System(disk: Disk, lock: Option<Pid>, procs: map<Pid, Proc>, acquired: Disk, log: seq<Event>)

  /** `kept` are the staged files whose removal fails, `torn` those a dying process leaves half written. */
  datatype Action =
    | FailUnlocked
    | Acquire
    | ReadLedger
    | ReportInstalled
    | CapturePrevious
    | StageArtifact
    | StageLedger
    | RenameArtifact
    | RenameLedger
    | Fail(kept: set<TempKind>)
    | FailAfterArtifact(kept: set<TempKind>)
    | RemoveArtifact
    | StageRestore
    | RenameRestore
    | RollbackFails(kept: set<TempKind>)
    | Crash(torn: set<TempKind>)

  predicate Critical(phase: Phase) {
    !phase.Waiting? && !phase.Ended?
  }

  /** The artifact has been renamed into place and not yet put back. */
  predicate IsLive(phase: Phase) {
    phase.ArtifactPublished? || phase.RollingBack? || phase.RestoreStaged?
  }

  /** The staged files a process has in each phase. */
  function OwnedKinds(phase: Phase): set<TempKind> {
    match phase
    case ArtifactStaged(_, _) => {ArtifactTemp}
    case BothStaged(_) => {ArtifactTemp, LedgerTemp}
    case ArtifactPublished(_) => {LedgerTemp}
    case RestoreStaged => {RestoreTemp}
    case _ => {}
  }

  /** The staged file whose write is next, and may be half done. */
  function BeingWritten(phase: Phase): set<TempKind> {
    match phase
    case Captured(_, _) => {ArtifactTemp}
    case ArtifactStaged(_, _) => {LedgerTemp}
    case RollingBack(Some(_)) => {RestoreTemp}
    case _ => {}
  }

  function Lookup(files: map<string, Bytes>, path: string): Option<Bytes> {
    if path in files then Some(files[path]) else None
  }

  function WithFile(disk: Disk, path: string, bytes: Bytes): Disk {
    disk.(files := disk.files[path := bytes])
  }

  function WithoutFile(disk: Disk, path: string): Disk {
    disk.(files := disk.files - {path})
  }

  function PutTemp(proc: Proc, kind: TempKind, c: Content): Proc {
    proc.(temps := proc.temps[kind := c])
  }

  /** A rename takes the staged file's name away. */
  function DropTemp(proc: Proc, kind: TempKind): Proc {
    proc.(temps := proc.temps - {kind})
  }

  function WithTorn(proc: Proc, kinds: set<TempKind>): Proc {
    proc.(temps := map k | k in proc.temps.Keys + kinds :: if k in kinds then Torn else proc.temps[k])
  }

  /** Staged files are removed by their destructors unless they were published, or removing them fails. */
  function Unstage(proc: Proc, kept: set<TempKind>): Proc {
    var torn := WithTorn(proc, kept * BeingWritten(proc.phase));
    var stuck := proc.stuck + kept;
    proc.(temps := map k | k in torn.temps && k in stuck :: torn.temps[k], stuck := stuck)
  }

  /** Removing can fail of what is staged or being written. */
  predicate Removable(phase: Phase, kept: set<TempKind>) {
    kept <= OwnedKinds(phase) + BeingWritten(phase)
  }

  /** The bytes a staged artifact holds. */
  function StagedBytes(temps: map<TempKind, Content>, kind: TempKind): Option<Bytes> {
    if kind in temps && temps[kind].ArtifactBytes? then Some(temps[kind].bytes) else None
  }

  function StagedLedger(temps: map<TempKind, Content>): Option<seq<Entry>> {
    if LedgerTemp in temps && temps[LedgerTemp].LedgerEntries? then Some(temps[LedgerTemp].entries) else None
  }

  /** What a process sees and changes: the disk and itself. */
  datatype View = View(disk: Disk, proc: Proc)
  {
    function To(phase: Phase): View {
      this.(proc := proc.(phase := phase))
    }
  }

  /** The steps that lead to a decision. */
  function Decide(digest: Digest, v: View, a: Action): Option<View> {
    var disk, req, phase := v.disk, v.proc.req, v.proc.phase;
    match a
    case FailUnlocked =>
      if phase.Waiting? then Some(v.To(Ended(Failed))) else None
    case Acquire =>
      if phase.Waiting? then Some(v.To(Holding)) else None
    case ReadLedger =>
      if phase.Holding? && LoadState(disk.ledger).Some? then Some(v.To(Decided(LoadState(disk.ledger).value))) else None
    case ReportInstalled =>
      if phase.Decided? && IsInstalled(digest, disk.files, phase.entries, req.entry)
      then Some(v.To(Ended(Idempotent))) else None
    case CapturePrevious =>
      if phase.Decided? && !IsInstalled(digest, disk.files, phase.entries, req.entry)
      then Some(v.To(Captured(phase.entries, Lookup(disk.files, req.entry.artifactPath)))) else None
    case _ => None
  }

  /** Staging both files beside their destinations. */
  function Prepare(v: View, a: Action): Option<View> {
    var disk, proc, req, phase := v.disk, v.proc, v.proc.req, v.proc.phase;
    match a
    case StageArtifact =>
      if phase.Captured?
      then Some(View(disk, PutTemp(proc, ArtifactTemp, ArtifactBytes(req.bytes)))
                  .To(ArtifactStaged(phase.entries, phase.previous)))
      else None
    case StageLedger =>
      if phase.ArtifactStaged?
      then Some(View(disk, PutTemp(proc, LedgerTemp, LedgerEntries(Recorded(phase.entries, req.entry))))
                  .To(BothStaged(phase.previous)))
      else None
    case _ => None
  }

  /** The two renames. */
  function Publish(v: View, a: Action): Option<View> {
    var disk, proc, phase, dest := v.disk, v.proc, v.proc.phase, v.proc.req.entry.artifactPath;
    match a
    case RenameArtifact =>
      var bytes := StagedBytes(proc.temps, ArtifactTemp);
      if phase.BothStaged? && bytes.Some?
      then Some(View(WithFile(disk, dest, bytes.value), DropTemp(proc, ArtifactTemp))
                  .To(ArtifactPublished(phase.previous)))
      else None
    case RenameLedger =>
      var entries := StagedLedger(proc.temps);
      if phase.ArtifactPublished? && entries.Some?
      then Some(View(disk.(ledger := Present(entries.value)), DropTemp(proc, LedgerTemp)).To(Ended(Fresh)))
      else None
    case _ => None
  }

  /** Putting the first one back. */
  function RollBack(v: View, a: Action): Option<View> {
    var disk, proc, phase, dest := v.disk, v.proc, v.proc.phase, v.proc.req.entry.artifactPath;
    match a
    case RemoveArtifact =>
      if phase.RollingBack? && phase.previous.None?
      then Some(View(WithoutFile(disk, dest), proc).To(Ended(Failed))) else None
    case StageRestore =>
      if phase.RollingBack? && phase.previous.Some?
      then Some(View(disk, PutTemp(proc, RestoreTemp, ArtifactBytes(phase.previous.value))).To(RestoreStaged))
      else None
    case RenameRestore =>
      var bytes := StagedBytes(proc.temps, RestoreTemp);
      if phase.RestoreStaged? && bytes.Some?
      then Some(View(WithFile(disk, dest, bytes.value), DropTemp(proc, RestoreTemp)).To(Ended(Failed)))
      else None
    case _ => None
  }

  /** Failing, and dying. */
  function Stop(v: View, a: Action): Option<View> {
    var disk, proc, phase := v.disk, v.proc, v.proc.phase;
    match a
    case Fail(kept) =>
      if Critical(phase) && !IsLive(phase) && Removable(phase, kept)
      then Some(View(disk, Unstage(proc, kept)).To(Ended(Failed))) else None
    case FailAfterArtifact(kept) =>
      if phase.ArtifactPublished? && Removable(phase, kept)
      then Some(View(disk, Unstage(proc, kept)).To(RollingBack(phase.previous))) else None
    case RollbackFails(kept) =>
      if (phase.RollingBack? || phase.RestoreStaged?) && Removable(phase, kept)
      then Some(View(disk, Unstage(proc, kept)).To(Ended(Dirty))) else None
    case Crash(torn) =>
      if !phase.Ended? && torn <= BeingWritten(phase)
      then Some(View(disk, WithTorn(proc, torn)).To(Ended(if IsLive(phase) then CrashedLive else CrashedClean)))
      else None
    case _ => None
  }

  predicate IsStop(a: Action) {
    a.Fail? || a.FailAfterArtifact? || a.RollbackFails? || a.Crash?
  }

  /** The staged files whose removal fails in a step. */
  function Kept(a: Action): set<TempKind> {
    if a.Fail? || a.FailAfterArtifact? || a.RollbackFails? then a.kept else {}
  }

  /** What a step does to the disk and to its process, or nothing when the process cannot take it. */
  function Act(digest: Digest, v: View, a: Action): Option<View> {
    if IsStop(a) then Stop(v, a)
    else if a.StageArtifact? || a.StageLedger? then Prepare(v, a)
    else if a.RenameArtifact? || a.RenameLedger? then Publish(v, a)
    else if a.RemoveArtifact? || a.StageRestore? || a.RenameRestore? then RollBack(v, a)
    else Decide(digest, v, a)
  }

  /** The system after a step of `p`: who ends gives the lock back, and its session is logged. */
  function Applied(s: System, p: Pid, v: View, acquires: bool): System {
    var ended := v.proc.phase.Ended?;
    System(v.disk,
           if acquires then Some(p) else if ended && s.lock == Some(p) then None else s.lock,
           s.procs[p := v.proc],
           if acquires then s.disk else s.acquired,
           if ended then s.log + [Event(p, v.proc.req, v.proc.phase.outcome)] else s.log)
  }

  /** One step of one process; only taking the lock can have to wait for another. */
  function Perform(digest: Digest, s: System, p: Pid, a: Action): Option<System> {
    if p !in s.procs || (a.Acquire? && s.lock.Some?) then None
    else
      match Act(digest, View(s.disk, s.procs[p]), a)
      case None => None
      case Some(v) => Some(Applied(s, p, v, a.Acquire?))
  }

  /** Running a schedule. */
  function Exec(digest: Digest, s: System, steps: seq<(Pid, Action)>): Option<System> {
    if steps == [] then Some(s)
    else
      match Exec(digest, s, steps[..|steps| - 1])
      case None => None
      case Some(mid) => Perform(digest, mid, steps[|steps| - 1].0, steps[|steps| - 1].1)
  }

  ghost predicate Init(s: System) {
    && s.lock.None? && s.log == []
    && forall p :: p in s.procs ==> s.procs[p] == Proc(s.procs[p].req, Waiting, map[], {})
  }

  /** The disk after the logged sessions ran one after the other. */
  function Replay(start: Disk, log: seq<Event>): Disk {
    if log == [] then start
    else After(Replay(start, log[..|log| - 1]), log[|log| - 1].req, log[|log| - 1].outcome)
  }

  // ---- One process -----------------------------------------------------------------------------

  /** The session decided to write: the ledger was readable and did not already hold this install. */
  ghost predicate Writing(digest: Digest, base: Disk, req: Request) {
    var entries := LoadState(base.ledger);
    entries.Some? && !IsInstalled(digest, base.files, entries.value, req.entry)
  }

  /** What the lock holder knows and has done, against the disk it found. */
  ghost predicate Session(digest: Digest, base: Disk, v: View) {
    var req, phase := v.proc.req, v.proc.phase;
    var previous := Lookup(base.files, req.entry.artifactPath);
    && v.disk == (if IsLive(phase) then ArtifactLive(base, req) else base)
    && match phase
       case Decided(entries) => LoadState(base.ledger) == Some(entries)
       case Captured(entries, prev) =>
         LoadState(base.ledger) == Some(entries) && Writing(digest, base, req) && prev == previous
       case ArtifactStaged(entries, prev) =>
         && LoadState(base.ledger) == Some(entries) && Writing(digest, base, req) && prev == previous
         && StagedBytes(v.proc.temps, ArtifactTemp) == Some(req.bytes)
       case BothStaged(prev) =>
         && Writing(digest, base, req) && prev == previous
         && StagedBytes(v.proc.temps, ArtifactTemp) == Some(req.bytes)
         && StagedLedger(v.proc.temps) == Some(Recorded(LoadState(base.ledger).value, req.entry))
       case ArtifactPublished(prev) =>
         && Writing(digest, base, req) && prev == previous
         && StagedLedger(v.proc.temps) == Some(Recorded(LoadState(base.ledger).value, req.entry))
       case RollingBack(prev) => Writing(digest, base, req) && prev == previous
       case RestoreStaged =>
         Writing(digest, base, req) && previous.Some? && StagedBytes(v.proc.temps, RestoreTemp) == previous
       case _ => true
  }

  predicate IsCrash(o: Outcome) {
    o.CrashedClean? || o.CrashedLive?
  }

  /** The staged files are those the phase has and those that could not be removed; a crash may leave any. */
  predicate Accounted(proc: Proc) {
    && (!(proc.phase.Ended? && IsCrash(proc.phase.outcome)) ==> proc.temps.Keys == OwnedKinds(proc.phase) + proc.stuck)
    && (!proc.phase.Ended? ==>
          proc.stuck <= if proc.phase.RollingBack? || proc.phase.RestoreStaged? then {LedgerTemp} else {})
  }

  /**
    * A step keeps the request, records failed removals, starts before the end, and enters a session only by the
    * lock.
    */
  predicate Shaped(before: Proc, after: Proc, a: Action) {
    && after.req == before.req && after.stuck == before.stuck + Kept(a)
    && !before.phase.Ended? && !after.phase.Waiting?
    && (a.Acquire? ==> before.phase.Waiting? && after.phase.Holding?)
    && (before.phase.Waiting? && !a.Acquire? ==> after.phase.Ended?)
  }

  lemma ActShape(digest: Digest, v: View, a: Action)
    requires Act(digest, v, a).Some?
    ensures Shaped(v.proc, Act(digest, v, a).value.proc, a)
  {
    assert !IsStop(a) ==> v.proc.stuck + Kept(a) == v.proc.stuck;
    if IsStop(a) {
      StopShape(v, a);
    } else if a.StageArtifact? || a.StageLedger? {
      PrepareShape(v, a);
    } else if a.RenameArtifact? || a.RenameLedger? {
      PublishShape(v, a);
    } else if a.RemoveArtifact? || a.StageRestore? || a.RenameRestore? {
      RollBackShape(v, a);
    } else {
      DecideShape(digest, v, a);
    }
  }

  lemma StopShape(v: View, a: Action)
    requires Stop(v, a).Some?
    ensures Shaped(v.proc, Stop(v, a).value.proc, a)
  {
    assert a.Crash? ==> v.proc.stuck + Kept(a) == v.proc.stuck;
  }

  lemma PrepareShape(v: View, a: Action)
    requires Prepare(v, a).Some? && v.proc.stuck + Kept(a) == v.proc.stuck
    ensures Shaped(v.proc, Prepare(v, a).value.proc, a)
  {
  }

  lemma PublishShape(v: View, a: Action)
    requires Publish(v, a).Some? && v.proc.stuck + Kept(a) == v.proc.stuck
    ensures Shaped(v.proc, Publish(v, a).value.proc, a)
  {
  }

  lemma RollBackShape(v: View, a: Action)
    requires RollBack(v, a).Some? && v.proc.stuck + Kept(a) == v.proc.stuck
    ensures Shaped(v.proc, RollBack(v, a).value.proc, a)
  {
  }

  lemma DecideShape(digest: Digest, v: View, a: Action)
    requires Decide(digest, v, a).Some? && v.proc.stuck + Kept(a) == v.proc.stuck
    ensures Shaped(v.proc, Decide(digest, v, a).value.proc, a)
  {
  }

  /** A process that is still waiting leaves the disk alone, and unless it takes the lock it fails or dies. */
  lemma WaitingStepsAreQuiet(digest: Digest, v: View, a: Action)
    requires Act(digest, v, a).Some? && v.proc.phase.Waiting?
    ensures var after := Act(digest, v, a).value;
            && after.disk == v.disk
            && (!a.Acquire? ==> after.proc.phase in {Ended(Failed), Ended(CrashedClean)})
  {
  }

  lemma UnstagingLeavesWhatIsStuck(proc: Proc, kept: set<TempKind>)
    requires Accounted(proc) && !proc.phase.Ended? && Removable(proc.phase, kept)
    ensures Unstage(proc, kept).temps.Keys == Unstage(proc, kept).stuck == proc.stuck + kept
  {
  }

  /** Every step leaves of its process's staged files what the new phase has and what could not be removed. */
  lemma ActKeepsAccounts(digest: Digest, v: View, a: Action)
    requires Accounted(v.proc) && Act(digest, v, a).Some?
    ensures Accounted(Act(digest, v, a).value.proc)
  {
    if IsStop(a) {
      if !a.Crash? {
        UnstagingLeavesWhatIsStuck(v.proc, a.kept);
      }
    } else if a.StageArtifact? || a.StageLedger? {
      PreparingKeepsAccounts(v, a);
    } else if a.RenameArtifact? || a.RenameLedger? {
      PublishingKeepsAccounts(v, a);
    } else if a.RemoveArtifact? || a.StageRestore? || a.RenameRestore? {
      RollingBackKeepsAccounts(v, a);
    } else {
      DecidingKeepsAccounts(digest, v, a);
    }
  }

  lemma DecidingKeepsAccounts(digest: Digest, v: View, a: Action)
    requires Accounted(v.proc) && Decide(digest, v, a).Some?
    ensures Accounted(Decide(digest, v, a).value.proc)
  {
  }

  lemma PreparingKeepsAccounts(v: View, a: Action)
    requires Accounted(v.proc) && Prepare(v, a).Some?
    ensures Accounted(Prepare(v, a).value.proc)
  {
    if a.StageArtifact? {
      StagingArtifactKeepsAccounts(v.proc, ArtifactStaged(v.proc.phase.entries, v.proc.phase.previous));
    } else {
      StagingLedgerKeepsAccounts(v.proc, BothStaged(v.proc.phase.previous),
                                 Recorded(v.proc.phase.entries, v.proc.req.entry));
    }
  }

  lemma StagingArtifactKeepsAccounts(proc: Proc, phase: Phase)
    requires Accounted(proc) && proc.phase.Captured? && phase.ArtifactStaged?
    ensures Accounted(PutTemp(proc, ArtifactTemp, ArtifactBytes(proc.req.bytes)).(phase := phase))
  {
    assert proc.temps.Keys == {};
  }

  lemma StagingLedgerKeepsAccounts(proc: Proc, phase: Phase, entries: seq<Entry>)
    requires Accounted(proc) && proc.phase.ArtifactStaged? && phase.BothStaged?
    ensures Accounted(PutTemp(proc, LedgerTemp, LedgerEntries(entries)).(phase := phase))
  {
    assert proc.temps.Keys == {ArtifactTemp};
  }

  lemma PublishingKeepsAccounts(v: View, a: Action)
    requires Accounted(v.proc) && Publish(v, a).Some?
    ensures Accounted(Publish(v, a).value.proc)
  {
  }

  lemma RollingBackKeepsAccounts(v: View, a: Action)
    requires Accounted(v.proc) && RollBack(v, a).Some?
    ensures Accounted(RollBack(v, a).value.proc)
  {
  }

  /** The undone rename leaves the files exactly as they were. */
  lemma RestoringUndoesTheRename(base: Disk, req: Request)
    ensures var dest, live := req.entry.artifactPath, ArtifactLive(base, req);
            if dest in base.files then WithFile(live, dest, base.files[dest]) == base
            else WithoutFile(live, dest) == base
  {
    var dest, live := req.entry.artifactPath, ArtifactLive(base, req);
    if dest in base.files {
      assert live.files[dest := base.files[dest]] == base.files;
    } else {
      assert live.files - {dest} == base.files;
    }
  }

  /** What one session step has to leave: the lock holder's knowledge, or at its end an outcome that was possible. */
  ghost predicate Continues(digest: Digest, base: Disk, v: View) {
    if v.proc.phase.Ended? then
      var req, outcome := v.proc.req, v.proc.phase.outcome;
      v.disk == After(base, req, outcome) && Allowed(digest, base, req, outcome)
    else
      Session(digest, base, v)
  }

  lemma DecidingContinues(digest: Digest, base: Disk, v: View, a: Action)
    requires Critical(v.proc.phase) && Session(digest, base, v) && Decide(digest, v, a).Some?
    ensures Continues(digest, base, Decide(digest, v, a).value)
  {
  }

  lemma PreparingContinues(digest: Digest, base: Disk, v: View, a: Action)
    requires Session(digest, base, v) && Prepare(v, a).Some?
    ensures Continues(digest, base, Prepare(v, a).value)
  {
    if a.StageLedger? {
      StagingBeside(v.proc.temps, Recorded(v.proc.phase.entries, v.proc.req.entry));
    }
  }

  /** Staging the ledger leaves the staged artifact alone. */
  lemma StagingBeside(temps: map<TempKind, Content>, entries: seq<Entry>)
    ensures var both := temps[LedgerTemp := LedgerEntries(entries)];
            StagedBytes(both, ArtifactTemp) == StagedBytes(temps, ArtifactTemp) && StagedLedger(both) == Some(entries)
  {
  }

  lemma PublishingContinues(digest: Digest, base: Disk, v: View, a: Action)
    requires Session(digest, base, v) && Publish(v, a).Some?
    ensures Continues(digest, base, Publish(v, a).value)
  {
    if a.RenameArtifact? {
      RenamingBeside(v.proc.temps);
    }
  }

  /** Renaming the artifact into place leaves the staged ledger alone. */
  lemma RenamingBeside(temps: map<TempKind, Content>)
    ensures StagedLedger(temps - {ArtifactTemp}) == StagedLedger(temps)
  {
  }

  lemma RollingBackContinues(digest: Digest, base: Disk, v: View, a: Action)
    requires Session(digest, base, v) && RollBack(v, a).Some?
    ensures Continues(digest, base, RollBack(v, a).value)
  {
    RestoringUndoesTheRename(base, v.proc.req);
  }

  lemma StoppingContinues(digest: Digest, base: Disk, v: View, a: Action)
    requires Critical(v.proc.phase) && Session(digest, base, v) && Stop(v, a).Some?
    ensures Continues(digest, base, Stop(v, a).value)
  {
  }

  /** The lock holder's steps keep what it knows true, and end as one session on the disk it found may end. */
  lemma SessionContinues(digest: Digest, base: Disk, v: View, a: Action)
    requires Critical(v.proc.phase) && Session(digest, base, v) && Act(digest, v, a).Some?
    ensures Continues(digest, base, Act(digest, v, a).value)
  {
    if IsStop(a) {
      StoppingContinues(digest, base, v, a);
    } else if a.StageArtifact? || a.StageLedger? {
      PreparingContinues(digest, base, v, a);
    } else if a.RenameArtifact? || a.RenameLedger? {
      PublishingContinues(digest, base, v, a);
    } else if a.RemoveArtifact? || a.StageRestore? || a.RenameRestore? {
      RollingBackContinues(digest, base, v, a);
    } else {
      DecidingContinues(digest, base, v, a);
    }
  }

  // ---- The invariant ---------------------------------------------------------------------------

  /** The lock is held by the one process inside a session, if there is one. */
  ghost predicate Mutex(s: System) {
    && (forall p :: p in s.procs && Critical(s.procs[p].phase) ==> s.lock == Some(p))
    && (s.lock.Some? ==> s.lock.value in s.procs && Critical(s.procs[s.lock.value].phase))
  }

  ghost predicate TempsAccounted(s: System) {
    forall p :: p in s.procs ==> Accounted(s.procs[p])
  }

  /** The log holds exactly the sessions that are over, each once. */
  ghost predicate LogMatches(s: System) {
    && (forall i, j :: 0 <= i < j < |s.log| ==> s.log[i].pid != s.log[j].pid)
    && (forall i :: 0 <= i < |s.log| ==> IsLogged(s, s.log[i]))
    && (forall p :: p in s.procs && s.procs[p].phase.Ended? ==> exists i :: 0 <= i < |s.log| && s.log[i].pid == p)
  }

  predicate IsLogged(s: System, e: Event) {
    e.pid in s.procs && s.procs[e.pid].req == e.req && s.procs[e.pid].phase == Ended(e.outcome)
  }

  /** Each logged session could end as it did, had the sessions before it simply run in order. */
  ghost predicate LogFits(digest: Digest, start: Disk, log: seq<Event>) {
    log == [] ||
    var before, last := log[..|log| - 1], log[|log| - 1];
    LogFits(digest, start, before) && Allowed(digest, Replay(start, before), last.req, last.outcome)
  }

  ghost predicate DiskFits(digest: Digest, start: Disk, s: System) {
    var base := Replay(start, s.log);
    if s.lock.None? then s.disk == base
    else
      s.lock.value in s.procs && s.acquired == base && Session(digest, base, View(s.disk, s.procs[s.lock.value]))
  }

  ghost predicate Inv(digest: Digest, start: Disk, s: System) {
    Mutex(s) && DiskFits(digest, start, s) && TempsAccounted(s) && LogMatches(s) && LogFits(digest, start, s.log)
  }

  lemma ReplayAppend(digest: Digest, start: Disk, log: seq<Event>, e: Event)
    ensures Replay(start, log + [e]) == After(Replay(start, log), e.req, e.outcome)
    ensures LogFits(digest, start, log) && Allowed(digest, Replay(start, log), e.req, e.outcome) ==>
              LogFits(digest, start, log + [e])
  {
    assert (log + [e])[..|log|] == log;
  }

  /** What a step of the system is: a step of one process on the disk, applied. */
  lemma StepIsApplied(digest: Digest, s: System, p: Pid, a: Action) returns (v: View)
    requires Perform(digest, s, p, a).Some?
    ensures p in s.procs && (a.Acquire? ==> s.lock.None?)
    ensures Act(digest, View(s.disk, s.procs[p]), a) == Some(v)
    ensures Perform(digest, s, p, a) == Some(Applied(s, p, v, a.Acquire?))
    ensures v.proc.req == s.procs[p].req && v.proc.stuck == s.procs[p].stuck + Kept(a)
    ensures !s.procs[p].phase.Ended? && !v.proc.phase.Waiting?
    ensures a.Acquire? ==> s.procs[p].phase.Waiting? && v.proc.phase.Holding?
    ensures s.procs[p].phase.Waiting? && !a.Acquire? ==> v.proc.phase.Ended?
  {
    v := Act(digest, View(s.disk, s.procs[p]), a).value;
    ActShape(digest, View(s.disk, s.procs[p]), a);
  }

  lemma StepKeepsMutex(digest: Digest, s: System, p: Pid, a: Action)
    requires Mutex(s) && Perform(digest, s, p, a).Some?
    ensures Mutex(Perform(digest, s, p, a).value)
  {
    var v := StepIsApplied(digest, s, p, a);
  }

  lemma StepKeepsTemps(digest: Digest, s: System, p: Pid, a: Action)
    requires TempsAccounted(s) && Perform(digest, s, p, a).Some?
    ensures TempsAccounted(Perform(digest, s, p, a).value)
  {
    var v := StepIsApplied(digest, s, p, a);
    ActKeepsAccounts(digest, View(s.disk, s.procs[p]), a);
  }

  /** Ending a session logs it once. */
  lemma EndIsLogged(s: System, p: Pid, v: View)
    requires LogMatches(s) && p in s.procs && !s.procs[p].phase.Ended? && v.proc.phase.Ended?
    requires v.proc.req == s.procs[p].req
    ensures LogMatches(Applied(s, p, v, false))
  {
    var s' := Applied(s, p, v, false);
    forall i | 0 <= i < |s.log| ensures s.log[i].pid != p && IsLogged(s', s.log[i]) {
      assert IsLogged(s, s.log[i]);
    }
    assert IsLogged(s', s'.log[|s.log|]);
    forall q | q in s'.procs && s'.procs[q].phase.Ended? ensures exists i :: 0 <= i < |s'.log| && s'.log[i].pid == q {
      if q == p {
        assert s'.log[|s.log|].pid == p;
      } else {
        var i :| 0 <= i < |s.log| && s.log[i].pid == q;
        assert s'.log[i].pid == q;
      }
    }
  }

  lemma GoingOnLogsNothing(s: System, p: Pid, v: View, acquires: bool)
    requires LogMatches(s) && p in s.procs && !s.procs[p].phase.Ended? && !v.proc.phase.Ended?
    ensures LogMatches(Applied(s, p, v, acquires))
  {
    var s' := Applied(s, p, v, acquires);
    forall i | 0 <= i < |s.log| ensures IsLogged(s', s.log[i]) {
      assert IsLogged(s, s.log[i]);
    }
  }

  lemma StepKeepsLog(digest: Digest, s: System, p: Pid, a: Action)
    requires LogMatches(s) && Perform(digest, s, p, a).Some?
    ensures LogMatches(Perform(digest, s, p, a).value)
  {
    var v := StepIsApplied(digest, s, p, a);
    if v.proc.phase.Ended? {
      EndIsLogged(s, p, v);
    } else {
      GoingOnLogsNothing(s, p, v, a.Acquire?);
    }
  }

  ghost predicate InSession(digest: Digest, base: Disk, s: System, p: Pid) {
    && p in s.procs && s.lock == Some(p) && Critical(s.procs[p].phase)
    && Session(digest, base, View(s.disk, s.procs[p]))
  }

  /** The lock holder's steps inside its session keep what it knows true. */
  lemma SessionAdvances(digest: Digest, base: Disk, s: System, p: Pid, a: Action)
    requires InSession(digest, base, s, p)
    requires Perform(digest, s, p, a).Some? && !Perform(digest, s, p, a).value.procs[p].phase.Ended?
    ensures InSession(digest, base, Perform(digest, s, p, a).value, p)
  {
    var v := StepIsApplied(digest, s, p, a);
    SessionContinues(digest, base, View(s.disk, s.procs[p]), a);
  }

  /** However the lock holder ends, the disk is what that outcome leaves, and the outcome was possible. */
  lemma SessionEnds(digest: Digest, base: Disk, s: System, p: Pid, a: Action)
    requires InSession(digest, base, s, p)
    requires Perform(digest, s, p, a).Some? && Perform(digest, s, p, a).value.procs[p].phase.Ended?
    ensures var s', req := Perform(digest, s, p, a).value, s.procs[p].req;
            var outcome := s'.procs[p].phase.outcome;
            s'.disk == After(base, req, outcome) && Allowed(digest, base, req, outcome) && s'.lock.None?
  {
    var v := StepIsApplied(digest, s, p, a);
    SessionContinues(digest, base, View(s.disk, s.procs[p]), a);
  }

  /** What a waiting process does changes nothing for the disk or for who holds the lock. */
  lemma WaitingStepKeepsDisk(digest: Digest, start: Disk, s: System, p: Pid, a: Action)
    requires Mutex(s) && DiskFits(digest, start, s) && LogFits(digest, start, s.log)
    requires Perform(digest, s, p, a).Some? && s.procs[p].phase.Waiting?
    ensures var s' := Perform(digest, s, p, a).value; DiskFits(digest, start, s') && LogFits(digest, start, s'.log)
  {
    var v := StepIsApplied(digest, s, p, a);
    WaitingStepsAreQuiet(digest, View(s.disk, s.procs[p]), a);
    if !a.Acquire? {
      ReplayAppend(digest, start, s.log, Event(p, v.proc.req, v.proc.phase.outcome));
    }
  }

  lemma SessionStepKeepsDisk(digest: Digest, start: Disk, s: System, p: Pid, a: Action)
    requires DiskFits(digest, start, s) && LogFits(digest, start, s.log) && s.lock == Some(p)
    requires Perform(digest, s, p, a).Some? && Critical(s.procs[p].phase)
    ensures var s' := Perform(digest, s, p, a).value; DiskFits(digest, start, s') && LogFits(digest, start, s'.log)
  {
    var v := StepIsApplied(digest, s, p, a);
    var base := Replay(start, s.log);
    if v.proc.phase.Ended? {
      SessionEnds(digest, base, s, p, a);
      ReplayAppend(digest, start, s.log, Event(p, v.proc.req, v.proc.phase.outcome));
    } else {
      SessionAdvances(digest, base, s, p, a);
    }
  }

  lemma StepKeepsInv(digest: Digest, start: Disk, s: System, p: Pid, a: Action)
    requires Inv(digest, start, s) && Perform(digest, s, p, a).Some?
    ensures Inv(digest, start, Perform(digest, s, p, a).value)
  {
    var v := StepIsApplied(digest, s, p, a);
    StepKeepsMutex(digest, s, p, a);
    StepKeepsTemps(digest, s, p, a);
    StepKeepsLog(digest, s, p, a);
    if s.procs[p].phase.Waiting? {
      WaitingStepKeepsDisk(digest, start, s, p, a);
    } else {
      SessionStepKeepsDisk(digest, start, s, p, a);
    }
  }

  lemma {:induction false} ScheduleKeepsInv(digest: Digest, start: Disk, s: System, steps: seq<(Pid, Action)>)
    requires Inv(digest, start, s) && Exec(digest, s, steps).Some?
    ensures Inv(digest, start, Exec(digest, s, steps).value)
    decreases |steps|
  {
    if steps != [] {
      var before, step := steps[..|steps| - 1], steps[|steps| - 1];
      ScheduleKeepsInv(digest, start, s, before);
      StepKeepsInv(digest, start, Exec(digest, s, before).value, step.0, step.1);
    }
  }

  /** The invariant holds after every schedule. */
  lemma EveryScheduleKeepsInv(digest: Digest, s0: System, steps: seq<(Pid, Action)>)
    requires Init(s0) && Exec(digest, s0, steps).Some?
    ensures Inv(digest, s0.disk, Exec(digest, s0, steps).value)
  {
    ScheduleKeepsInv(digest, s0.disk, s0, steps);
  }
}
