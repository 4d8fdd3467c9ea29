# flutterdec: a verified model of its core

flutterdec recovers readable source from Dart AOT binaries. This project models the parts of it whose
correctness is a matter of graphs, protocols, arithmetic and parsing, and proves what they promise.

- **The function IR.** A linear list of decoded instructions is lifted, Dart stack-overflow guards are demoted
  to fall-through, basic blocks are cut at leaders, successors are resolved, what only a guard led to is dropped,
  and the rest is renumbered (`Lift`, `LinearCode`, `Blocks`, `Cfg`, `Pruning`, `FunctionIr`). The main results
  say that the finished graph spells exactly the instruction sequences the linear code can execute
  (`MeaningPreservation`) and that an instruction is dropped exactly when only guards lead to it (`Elision`).
- **Dominators and entry paths.** Two Python checkers recompute dominance by an in-place round-robin iteration and
  classify a loop header's predecessors by an independent reachability argument. The iteration terminates and is
  exact (`Dominators`); the two classifications agree away from the entry block and nowhere else (`EntryPaths`);
  resolved site keys mean what the graph says (`SiteKeys`), on the very graph the builder emits (`EmittedIr`).
- **The adapter store.** Installing takes a lock, reads a ledger, decides idempotence, stages two temporaries, renames
  twice and rolls back on failure. `Installer` is that code with every fault as an input, a failed removal of a
  temporary included; `Interleaving` and `InstallRaces` let any number of processes take its steps in any order, fail
  anywhere and die anywhere; `InstallProgress` says what they can always go on to do; `StoreState` holds what one
  session may leave; `StoreReport` is selection, authorization and `inspect`.
- **The model contract.** `Validate` accepts exactly the models `ProgramModel.Acceptable` describes, its superclass
  walk (`SuperClasses`) exactly the acyclic relations; the internal producer (`Carving`, `CodeRanges`,
  `InternalProducer` in `Producer.dfy`) always builds an acceptable model.
- **The disassembler.** `PoolResolver` is the abstract interpreter that annotates pool loads, proved against a
  register machine; `Frontier` is the breadth-first call frontier; `Selection` is the capped, diverse selection.
- **The decompiler's overlay and renaming.** `Overlay` and `OverlayScanners` are the value annotations woven into
  lines and the three scanners that take them out again, and `OverlayIdempotence` is what a second strip does;
  `AliasRewrite` is the program-wide callee renaming.
- **The loader.** `Registry` is validation and exact selection of compatibility records; `SnapshotHeader` is the
  header parser and the layout it stands for.

`Collections`, `Graphs`, `Text`, `Ordering` and `Compatibility` are shared vocabulary. Code the repository writes as
loops over changing state is a method or a class here, proved against a specification; code it writes as expressions
is a function, and what it promises is a lemma.

## What the proofs found

- **A loop at the entry block is misread.** `check_loop_ir` starts its walk at block 0, so when block 0 is itself
  the loop header every reachable predecessor, back edges included, counts as an entry path
  (`EntryPaths.LoopAtTheEntryIsMisread`). Everywhere else the walk and dominance agree.
- **The docstring of `check_loop_ir` describes another test.** It says a predecessor reachable from the header is a
  back edge (scripts/check-annotation-provenance.py:391-394); the code and the comment beside it ask whether the
  predecessor is reachable while avoiding the header (lines 415-425). The model follows the code.
- **Two declarations of one artifact path that disagree about its content break the ledger.** Between the two
  renames, and for good if the process dies there, an entry names bytes with another digest
  (`InstallRaces.DisagreementBreaksTheLedgerInTheWindow`, `InstallRaces.DisagreeingRequestsBreakTheLedger`). A system
  keeps its ledger sound over every schedule exactly when all declarations of one path agree, those in the ledger and
  those requested (`InstallRaces.LedgerIsSoundExactlyWhenDeclarationsAgree`); one session's window is sound exactly
  when its own declaration agrees with the ledger (`StoreState.CrashWindowIsSoundExactlyWhenPathsAgree`).
- **A failed install can leave a temporary.** `Staged`'s destructor ignores a removal that fails, so what an install
  that nothing killed leaves behind is exactly what it failed to remove (`InstallRaces.LeftoversAreFailedRemovals`).
- **A successor listed twice fakes a join** for `Ir.is_join` (`SiteKeys.ParallelEdgesFakeAJoin`). A block counts as a
  join exactly when it has two live predecessors or one that lists it twice
  (`SiteKeys.JoinsAreTwoPredecessorsOrADoubledOne`). The builder sorts and dedups successors, so its own graphs have no
  doubled edge (`EmittedIr.BuiltGraphsAreReadBackWhole`).
- **The pool resolver's bases outlive hidden writes**: a load with writeback changes its base register without naming
  it first, and the next load through that register is annotated with a slot it does not read
  (`PoolResolver.WritebackMisleadsAnAnnotation`). A step is sound exactly when nothing tracked is written unseen and
  x27 is left alone (`PoolResolver.SoundExactlyWithoutHiddenWrites`), and along every run of such steps each
  annotation is right, whatever the rest of the function does (`PoolResolver.EveryAnnotationNamesItsSlot`); a
  prologue's writeback through the stack register, which holds no base, is such a step. And only loads through x27
  itself are right for control that enters a function in the middle (`PoolResolver.OnlyDirectLoadsSurviveAnyEntry`).
- **The two annotation strips differ on non-ASCII code.** The decompiler pushes each code byte as a character, so a
  byte above 127 comes out as two; the checker copies bytes. They agree exactly when the code outside literals and
  annotations is ASCII (`OverlayScanners.TwinsAgreeExactlyOnAscii`).
- **Stripping a stripped line can change it again** (`Overlay.StrippingTwiceCanRemoveMore`). It does exactly when
  taking annotations out brings an opener together at a byte of code outside literals, and the first such opener is
  terminated in what is left (`OverlayIdempotence.SecondStripChangesExactlyWhenOneIsRevealed`); every such opener
  reaches across a removed annotation (`OverlayIdempotence.NewOpenersStraddleAnAnnotation`).
- **The alias ranking's score and spelling never decide.** The dominance threshold rejects every tie they would
  break (`AliasRewrite.DecidedNamesAreAliases`).
- **The alias pass is not idempotent on every program.** A line it rewrites can come to say that something else was
  renamed, when the chosen callee's own text reads so. The second pass changes something exactly when the lines the
  first rewrote tip a name that had no alias and is still called plainly, a condition on the input lines
  (`AliasRewrite.IdempotentExactlyWhenNothingTips`); `AliasRewrite.EvidenceInANameBreaksIdempotence` is a program on
  which that happens. It cannot happen where no line says what something was in front of its callee
  (`AliasRewrite.SuchLinesAreCoherent`, `AliasRewrite.SecondPassChangesNothing`), and the emitter appends `was:` only
  as a trailing comment (crates/flutterdec-decompiler/src/control_flow/emit.rs:548 and 712).

## Assumptions

- Instruction addresses ascend strictly and stay below the largest 64-bit value, and a branch into the function's own
  span lands on an instruction (`LinearCode.WellFormed`): consecutive four-byte words with four-byte-aligned targets.
- Nothing outside the modelled installs writes the store; a temporary's name is never used twice.
- SHA-256 is a parameter. So are the policy inputs: which functions are frontier seeds, scores, placeholder lists,
  boot-flow categories.
- A byte string is a Dafny string of byte-valued characters, or a sequence of numbers below 256.

## Model

| member | source | states |
|---|---|---|
| Lift.GuardsAreDisjoint | crates/flutterdec-ir/src/lib.rs:33-58 | No instruction belongs to two different recognised guards. |
| Lift.GuardsAreWhatIsSpelled | crates/flutterdec-ir/src/lib.rs:33-58 | A guard is recognised at a compare if and only if the three texts around it spell one: x16 or x17 loaded from a field of x26, compared with x15, and a `b.ls`, up to blanks the source trims. |
| Lift.LiftedByText | crates/flutterdec-ir/src/lib.rs:104-186 | An instruction lifts to a runtime check if and only if it is one of three that spell a guard; every other lifts by its mnemonic; checks, calls, branches and jumps have their targets, the rest none. |
| Lift.OnlyTheGuardBranchIsDemoted | crates/flutterdec-ir/src/lib.rs:104-186 | The lift changes the class of exactly one kind of control transfer: the `b.ls` that closes a recognised guard. Every other branch, jump, call and return keeps its class. |
| Lift.MarkGroup | crates/flutterdec-ir/src/lib.rs:105-112 | Marking one guard marks its three instructions and nothing else. |
| Lift.LlirFromDisasm | crates/flutterdec-ir/src/lib.rs:104-186 | Every instruction is lifted that way, at its own address. |
| Blocks.CollectLeaders | crates/flutterdec-ir/src/lib.rs:190-221 | The leaders are the first address, every branch and jump target, and what follows a branch, jump or return: no more, no fewer, in ascending order. |
| Blocks.Between | crates/flutterdec-ir/src/lib.rs:233-238 | The instructions of an address range are one contiguous slice of the code. |
| Blocks.CutBlocks | crates/flutterdec-ir/src/lib.rs:223-247 | The blocks partition the code into consecutive non-empty slices that open exactly at the leaders. |
| Cfg.IndexStarts | crates/flutterdec-ir/src/lib.rs:249-252 | The start index maps every block's first address to its id and holds nothing else. |
| Cfg.SuccessorsOf | crates/flutterdec-ir/src/lib.rs:254-283 | A block's successors are the blocks its last instruction passes control to, by target or by falling through. |
| Cfg.ResolveSuccessors | crates/flutterdec-ir/src/lib.rs:254-289 | Every successor list is ascending without duplicates, stays inside the function and is exactly that relation. |
| Cfg.Reach | crates/flutterdec-ir/src/lib.rs:300-333 | The depth-first walk marks exactly the blocks some path from block 0 reaches, with the guards' taken edges or without. |
| Pruning.RemapSuccessors | crates/flutterdec-ir/src/lib.rs:345-352 | Renumbering keeps a successor exactly when its block was kept, and keeps the list ascending. |
| Pruning.Prune | crates/flutterdec-ir/src/lib.rs:331-352 | What is dropped is exactly what is reachable with guard edges and unreachable without; every other block survives with its instructions, its edges to survivors renumbered. |
| Pruning.LinkPredecessors | crates/flutterdec-ir/src/lib.rs:354-367 | `p` is listed as a predecessor of `b` if and only if `b` is a successor of `p`; nothing but predecessor lists changes. |
| MeaningPreservation.BlockPathIsLinear | crates/flutterdec-ir/src/lib.rs:223-289 | Every block path from the entry spells the trace of a path through the linear code. |
| MeaningPreservation.LinearPathIsCovered | crates/flutterdec-ir/src/lib.rs:223-289 | Every path through the linear code is a prefix of what some block path from the entry spells. |
| MeaningPreservation.BlocksMeanTheCode | crates/flutterdec-ir/src/lib.rs:190-289 | The unpruned blocks execute exactly the instruction sequences the linear code does. |
| MeaningPreservation.EntryBlocksKeepTheirSuccessors | crates/flutterdec-ir/src/lib.rs:335-352 | No block reachable without guard edges loses a successor: its list after pruning is its old list, renumbered. |
| MeaningPreservation.PathSurvives | crates/flutterdec-ir/src/lib.rs:335-352 | No block on an entry path is dropped, and the path survives renumbering. |
| MeaningPreservation.PruningKeepsEntryPaths | crates/flutterdec-ir/src/lib.rs:291-352 | Pruning and renumbering change nothing about what can be executed from the entry. |
| MeaningPreservation.PredecessorsDoNotMatter | crates/flutterdec-ir/src/lib.rs:354-367 | Rebuilding predecessor lists does not either. |
| Elision.ReachabilityAgrees | crates/flutterdec-ir/src/lib.rs:300-333 | A block is reachable in the walked graph, with guard edges or without, exactly when control can get to each of its instructions in the linear code. |
| Elision.ExactlyTheGuardOnlyCodeIsDropped | crates/flutterdec-ir/src/lib.rs:291-352 | An instruction is missing from the finished graph exactly when control reaches it, and only through some guard's taken edge. |
| FunctionIr.BuildFunctionIr | crates/flutterdec-ir/src/lib.rs:188-375 | The whole builder: instructions lifted by their texts, ids by position, matching predecessors, ascending successors, exactly the linear code's runs, exactly the guard-only instructions dropped. |
| EmittedIr.BuiltGraphsAreReadBackWhole | scripts/prov_cross_audit_reconcile.py:220-227 | The successor map a checker reads back from a built IR has exactly its edges, no doubled ones, and agrees with the stored predecessors. |
| Dominators.ReachableFrom | scripts/prov_cross_audit_reconcile.py:166-173 | The walk returns exactly what the start reaches by some path, the start included. |
| Dominators.ReachableAfter | scripts/check-annotation-provenance.py:336-344 | This walk returns exactly what the start reaches in one step or more. |
| Dominators.Transfer | scripts/prov_cross_audit_reconcile.py:190-199 | One update's new set: the block itself and what all its live predecessors' sets share. |
| Dominators.UpdateIsSound | scripts/prov_cross_audit_reconcile.py:188-202 | An update never removes a true dominator and never adds a member. |
| Dominators.FixpointHoldsOnlyDominators | scripts/prov_cross_audit_reconcile.py:186-202 | When no update changes anything, every member of a block's set lies on every path from block 0 to it. |
| Dominators.Pass | scripts/check-annotation-provenance.py:362-376 | A pass that changes something strictly lowers the total size of the sets; one that does not leaves a fixpoint. |
| Dominators.IterateDominators | scripts/prov_cross_audit_reconcile.py:184-202 | The iteration ends, and at its end each live block's set is exactly its dominators. |
| Dominators.NaturalLoopHeadersOf | scripts/prov_cross_audit_reconcile.py:176-209 | The headers are exactly the targets of live edges whose source they dominate. |
| Dominators.NaturalLoopHeaders | scripts/check-annotation-provenance.py:347-383 | The other checker's version finds exactly the same headers. |
| EntryPaths.BeforeLoop | scripts/check-annotation-provenance.py:422-425 | The set is exactly block 0 and what block 0 reaches along edges that do not enter the header. |
| EntryPaths.EntryPathIffNotDominated | scripts/check-annotation-provenance.py:415-425 | For a header other than block 0, a reachable block is in the set if and only if the header does not dominate it. |
| EntryPaths.EntryBlockDominatesItsEntryPaths | scripts/check-annotation-provenance.py:415-425 | For block 0 as header the set holds every reachable block, all of which block 0 dominates. |
| EntryPaths.ClassificationsAgreeExactlyAwayFromTheEntry | scripts/check-annotation-provenance.py:347-425 | The two classifications agree on a block if and only if the header is not block 0 or the block is unreachable. |
| EntryPaths.LoopAtTheEntryIsMisread | scripts/check-annotation-provenance.py:415-444 | A two-block loop at the entry whose back edge the walk takes for an entry path. |
| EntryPaths.CheckLoopRecord | scripts/check-annotation-provenance.py:399-445 | A record draws no violation if and only if its header is a loop header, the register is written under it, and every path is a predecessor on an entry path. |
| EntryPaths.AcceptedRecordsNameEntryPaths | scripts/check-annotation-provenance.py:386-445 | No path of an accepted record leaves a block its header dominates, unless the header is the entry block. |
| SiteKeys.Ir.constructor | scripts/prov_cross_audit_reconcile.py:220-238 | The fields are what they are meant to be: reachable blocks, loop headers, call addresses, and each live predecessor listed as often as it lists the block. |
| SiteKeys.EdgesAreTheBlocks | scripts/prov_cross_audit_reconcile.py:220-227 | A block's successors are the last list of its id, restricted to declared ids, each as often as listed. |
| SiteKeys.LiveIncoming | scripts/prov_cross_audit_reconcile.py:228-231 | The lists hold exactly the live predecessors, in ascending order, each as often as it lists the block as a successor. |
| SiteKeys.JoinsAreTwoPredecessorsOrADoubledOne | scripts/prov_cross_audit_reconcile.py:228-241 | A block counts as a join if and only if it has two distinct live predecessors or one that lists it twice. |
| SiteKeys.KeysResolveToTheBlocksOwnKind | scripts/prov_cross_audit_reconcile.py:249-262 | A join or loop key resolves if and only if the block earns that kind, so none resolves under both. |
| SiteKeys.CallKeysResolve | scripts/prov_cross_audit_reconcile.py:357-378 | A call key resolves if and only if its value is the address of a call; an undeclared tag never does. |
| SiteKeys.CallPathsAreTheCall | scripts/prov_cross_audit_reconcile.py:381-391 | The only path of a call site is the call itself; an undeclared path never resolves. |
| SiteKeys.KindsMeanWhatTheGraphSays | scripts/prov_cross_audit_reconcile.py:240-262 | A block is a loop site if and only if it is a loop header; a join site if and only if it is reachable, no loop header, and has two distinct live predecessors or a doubled one. Without doubled edges there is none of the latter. |
| SiteKeys.ParallelEdgesFakeAJoin | scripts/prov_cross_audit_reconcile.py:228-241 | Read in from two blocks, the first listing the second twice, a block with one predecessor counts as a join and its key resolves. |
| SiteKeys.ResolvedPathsAreLivePredecessors | scripts/prov_cross_audit_reconcile.py:381-394 | A path of a merge site is accepted if and only if it is a reachable predecessor; one that also lies before the loop is no back edge, away from the entry block. |
| StoreState.RecordingKeepsTheLedgerInOrder | crates/flutterdec-adapter/src/store.rs:779-789 | Replacing or appending an entry and sorting keeps keys strictly ascending, holds the new entry, and touches no other key. |
| StoreState.CrashWindowIsSoundExactlyWhenPathsAgree | crates/flutterdec-adapter/src/store.rs:795-799 | Between the two renames the store is sound if and only if no ledger entry declares other content for the same path. |
| StoreState.PublishingIsSoundExactlyWhenKeptPathsAgree | crates/flutterdec-adapter/src/store.rs:778-810 | After both renames it is sound if and only if no entry kept beside the new one does. |
| StoreState.SessionsKeepTheStoreGood | crates/flutterdec-adapter/src/store.rs:736-818 | However a session ends, crash included, a sound store stays sound when declarations of one path agree. |
| StoreState.SessionsRecordOnlyTheirOwn | crates/flutterdec-adapter/src/store.rs:779-789 | A session adds no ledger entry but its own. |
| StoreState.SuccessfulSessionsInstall | crates/flutterdec-adapter/src/store.rs:748-818 | After a fresh or idempotent success the request is recorded and its bytes are in place. |
| Interleaving.StepKeepsMutex | crates/flutterdec-adapter/src/store.rs:388-418 | The lock is held by exactly the one process inside a session, at every step. |
| Interleaving.StepKeepsTemps | crates/flutterdec-adapter/src/store.rs:420-489 | A process's temporaries are always those its phase has staged and those it failed to remove, unless it crashed. |
| Interleaving.SessionAdvances | crates/flutterdec-adapter/src/store.rs:739-818 | What the lock holder knows about the disk it found stays true until it ends. |
| Interleaving.SessionEnds | crates/flutterdec-adapter/src/store.rs:739-818 | However the lock holder ends, the disk is what that outcome leaves, the outcome was possible, and the lock is free. |
| Interleaving.EveryScheduleKeepsInv | crates/flutterdec-adapter/src/store.rs:736-818 | Every schedule of every processes' steps, failures and crashes keeps the system invariant. |
| InstallRaces.LedgerIsAlwaysSound | crates/flutterdec-adapter/src/store.rs:736-818 | At every instant of every schedule ledger keys ascend and every entry names an artifact with its digest, when declarations of one path agree. |
| InstallRaces.LedgerIsSoundExactlyWhenDeclarationsAgree | crates/flutterdec-adapter/src/store.rs:736-818 | From a sound store and authorized requests, every reachable state has a sound ledger if and only if all declarations of one path agree, requested or recorded. |
| InstallRaces.SessionsAreSerialized | crates/flutterdec-adapter/src/store.rs:736-818 | Whenever the lock is free the disk is what running the sessions one after another in lock order leaves. |
| InstallRaces.FailedInstallsRestoreTheDisk | crates/flutterdec-adapter/src/store.rs:757-826 | An install that took the lock and returned an error left ledger and artifacts as it found them, unless its rollback failed, and of its temporaries exactly those whose removal failed. |
| InstallRaces.LeftoversAreFailedRemovals | crates/flutterdec-adapter/src/store.rs:483-489 | However an install ends that nothing kills, the temporaries it leaves are exactly those whose removal failed along the schedule. |
| InstallRaces.ManyInstallsOneWrite | crates/flutterdec-adapter/src/store.rs:736-818 | Any number of failure-free installs of one record from one source: exactly one writes, all others report it already installed. |
| InstallRaces.DisagreementBreaksTheLedgerInTheWindow | crates/flutterdec-adapter/src/store.rs:795-799 | From any reachable sound state with the lock free, one waiting request that disagrees with the ledger about a path is enough to reach a state with an unsound ledger. |
| InstallRaces.DisagreeingRequestsBreakTheLedger | crates/flutterdec-adapter/src/store.rs:736-818 | So are two requests that disagree only with each other. |
| InstallProgress.HoldersCanFinish | crates/flutterdec-adapter/src/store.rs:739-826 | Whatever it has done so far, the lock holder can end by steps of its own, none of them a failure: `Fresh` or `Idempotent` as the store calls for, or `Failed` with the disk put back when it is rolling back. |
| InstallProgress.WaitingInstallsCanFinish | crates/flutterdec-adapter/src/store.rs:736-818 | With the lock free and the ledger readable, a waiting process can by itself and without failing end `Idempotent` when its request is installed and otherwise `Fresh` with it published. |
| InstallProgress.UnreadableLedgersOnlyFail | crates/flutterdec-adapter/src/store.rs:744-746 | A holder that cannot read the ledger can take no step but a failing one. |
| InstallProgress.TheLockIsNeverStuck | crates/flutterdec-adapter/src/store.rs:388-418 | After any schedule whoever holds the lock can finish and let go of it. |
| InstallProgress.FailuresCanStrikeAnywhere | crates/flutterdec-adapter/src/store.rs:420-489 | In every phase each failure that belongs there, with any removals failing too, and death can happen. |
| InstallProgress.AllInstallsCanSucceed | crates/flutterdec-adapter/src/store.rs:736-818 | However many installs there are, when declarations agree some failure-free schedule has every one of them succeed. |
| InstallProgress.ManyInstallsCanSucceed | crates/flutterdec-adapter/src/store.rs:736-818 | So any number of installs of one record can all succeed, exactly one of them writing. |
| Installer.AdapterStore.Stage | crates/flutterdec-adapter/src/store.rs:426-489 | Staging adds one temporary with the bytes, or leaves nothing behind, or a torn one when removing it fails. |
| Installer.AdapterStore.PublishArtifact | crates/flutterdec-adapter/src/store.rs:464-489 | A rename puts the staged bytes at the destination; if it fails the temporary is discarded, or stays when removing it fails. |
| Installer.AdapterStore.RestoreArtifact | crates/flutterdec-adapter/src/store.rs:821-826 | The rollback succeeds or fails by the faults alone; if it succeeds the artifact is back to absent or to its previous bytes, if not the disk is untouched; no temporary is left unless removing it failed. |
| Installer.AdapterStore.Install | crates/flutterdec-adapter/src/store.rs:736-818 | The result is decided by the disk and the faults alone, and without faults on a readable ledger it is `Idempotent` if the request is installed and else `Fresh`; the disk ends as that result says; older temporaries stay as they are, and no new one is left unless removing one failed. |
| Installer.EachFaultShows | crates/flutterdec-adapter/src/store.rs:736-826 | What each single fault, and each failing rollback, makes of an install. |
| Installer.EndingsAreAllowed | crates/flutterdec-adapter/src/store.rs:736-818 | Running the install code is one of the endings the serialized sessions may have. |
| Installer.AllowedEndingsHappen | crates/flutterdec-adapter/src/store.rs:736-818 | Every such ending short of a crash is brought about by some faults. |
| StoreReport.SelectRecord | crates/flutterdec-adapter/src/store.rs:603-645 | A record is selected if and only if it is the one record for that hash and target; no record, and more than one, are told apart. |
| StoreReport.VariantForHost | crates/flutterdec-adapter/src/store.rs:574-585 | A variant is found if and only if the record has one for this host, and it is one of those. |
| StoreReport.PreparedRequestsAreAuthorized | crates/flutterdec-adapter/src/store.rs:666-735 | What reaches the store is only ever bytes the one record for that hash and target declares for this host, under an entry whose every field is that record's, variant's or host's. |
| StoreReport.PreparationIsExact | crates/flutterdec-adapter/src/store.rs:666-735 | With one record and a variant for this host, a request is prepared if and only if hash, majors, profile, digest and size are right; the error says what was wrong first. |
| StoreReport.OtherwiseNothingIsPrepared | crates/flutterdec-adapter/src/store.rs:603-735 | Without exactly one such record, or without a variant for this host, nothing is prepared. |
| StoreReport.Inspect | crates/flutterdec-adapter/src/store.rs:974-1105 | One row per record and one per ledger entry no record accounts for, sorted; an unusable ledger is an error. |
| StoreReport.VerifiedMeansInstalledAndIntact | crates/flutterdec-adapter/src/store.rs:829-1060 | A row says verified if and only if the majors are supported, the ledger claims the record and the bytes match. |
| StoreReport.RowStatesMean | crates/flutterdec-adapter/src/store.rs:829-1060 | A usable record's row is unavailable exactly when no entry has its key, missing exactly when the entry declares the variant and the file is absent, corrupt exactly when the entry declares something else or the file is not what it says. |
| StoreReport.UnusableRecordsAreIncompatible | crates/flutterdec-adapter/src/store.rs:1018-1033 | A row is incompatible exactly when the majors are not supported or no variant is for this host. |
| StoreReport.OrphansAreUnnamed | crates/flutterdec-adapter/src/store.rs:1055-1095 | The entries reported beside the records are exactly those no record names, as incompatible. |
| StoreReport.SuccessfulInstallsAreVerified | crates/flutterdec-adapter/src/store.rs:666-818 | An install that succeeds makes its own record's row say verified. |
| PoolResolver.GeometryRoundTrip | crates/flutterdec-adapter/src/model.rs:506-529 | A displacement in the address space resolves to an index if and only if the stride is positive and the index resolves to that displacement; with stride zero every index resolves but no displacement does. |
| PoolResolver.PoolRefResolver.InvalidateWrittenRegisters | crates/flutterdec-disasm-arm64/src/lib.rs:194-209 | Exactly the bases of the one or two leading registers are dropped, and every other stays what it was. |
| PoolResolver.PoolRefResolver.AnnotationFor | crates/flutterdec-disasm-arm64/src/lib.rs:151-238 | The annotation is resolved against the bases before the instruction, and the bases then follow the tracking function. |
| PoolResolver.AnnotateFunction | crates/flutterdec-disasm-arm64/src/lib.rs:262-287 | Annotating a function is one run of that class over its instructions, and every load is annotated exactly as its code says (`PoolResolver.AnnotationsAreComplete`). |
| PoolResolver.AnnotationsAreComplete | crates/flutterdec-disasm-arm64/src/lib.rs:105-287 | An instruction is annotated if and only if it is a load through x27, or through a register the last page add set and nothing since has led with or jumped away from; with the index the geometry puts at its displacement, or with the displacement when it puts none there. |
| PoolResolver.TrackingIsSound | crates/flutterdec-disasm-arm64/src/lib.rs:151-209 | If each tracked base describes its register before a step that leaves x27 alone and writes no tracked register unseen, it does after. |
| PoolResolver.EveryAnnotationNamesItsSlot | crates/flutterdec-disasm-arm64/src/lib.rs:105-287 | In what annotating a function returns, the annotation behind any quiet fall-through run from the entry or from behind a transfer names the slot the load really reads. Nothing is asked of the instructions outside the run. |
| PoolResolver.SoundExactlyWithoutHiddenWrites | crates/flutterdec-disasm-arm64/src/lib.rs:194-209 | The step of any instruction but a page add is sound if and only if it leaves x27 alone and writes no tracked register it does not lead with. |
| PoolResolver.WritebackLeavesAStaleBase | crates/flutterdec-disasm-arm64/src/lib.rs:171-209 | On three concrete instructions, the writeback load's step is not sound and leaves a base its register no longer holds. |
| PoolResolver.WritebackMisleadsAnAnnotation | crates/flutterdec-disasm-arm64/src/lib.rs:151-287 | In what annotating those instructions returns, the last load names a slot that a run of the machine does not read there. |
| PoolResolver.OnlyDirectLoadsSurviveAnyEntry | crates/flutterdec-disasm-arm64/src/lib.rs:175-191 | An annotation is right for every register state that agrees on x27 if and only if the load goes through x27 itself. |
| ProgramModel.AcceptedEntriesAreAddressable | crates/flutterdec-adapter/src/validate.rs:879-901 | In an accepted hardware pool each entry sits at its own displacement, which resolves back to it and to no other. |
| SuperClasses.ChainsGiveARank | crates/flutterdec-adapter/src/validate.rs:681-693 | If every class's chain ends, chain lengths rank the relation. |
| SuperClasses.RankFallsAlongWalks | crates/flutterdec-adapter/src/validate.rs:681-693 | A rank falls along every walk, so no walk of an acyclic relation comes back. |
| SuperClasses.WalkUp | crates/flutterdec-adapter/src/validate.rs:681-693 | One class's walk ends; it reports a cycle only when there is one, and otherwise the class's chain ends. |
| SuperClasses.FindCycle | crates/flutterdec-adapter/src/validate.rs:681-693 | The check passes if and only if the superclass relation has a rank. |
| Validate.CheckRegions | crates/flutterdec-adapter/src/validate.rs:360-389 | Passes exactly on regions in canonical order of distinct names, executable exactly if of a code kind, with an address exactly if executable, and whose ends do not overflow. |
| Validate.CheckHostFacts | crates/flutterdec-adapter/src/validate.rs:391-518 | Passes exactly when the model repeats the host's own facts, region for region. |
| Validate.CheckStrings | crates/flutterdec-adapter/src/validate.rs:538-565 | Passes exactly when no recovered text is blank or a placeholder. |
| Validate.CheckConfidence | crates/flutterdec-adapter/src/validate.rs:584-594 | Passes exactly when every score present is that of a heuristic fact and lies between 0 and 1. |
| Validate.CheckIdentityAndOrder | crates/flutterdec-adapter/src/validate.rs:596-650 | Passes exactly when every collection's ids ascend strictly. |
| Validate.CheckReferences | crates/flutterdec-adapter/src/validate.rs:652-695 | Passes exactly when every reference resolves and the superclass relation is acyclic. |
| Validate.CheckCapabilities | crates/flutterdec-adapter/src/validate.rs:701-877 | Passes exactly when claims and contents agree and each unavailable domain is explained by a diagnostic. |
| Validate.CheckGeometry | crates/flutterdec-adapter/src/validate.rs:879-901 | Passes exactly when a hardware pool has a usable geometry that holds every entry. |
| Validate.CheckAddresses | crates/flutterdec-adapter/src/validate.rs:903-982 | Passes exactly when every range and target lies inside a region the model declares. |
| Validate.Validate | crates/flutterdec-adapter/src/validate.rs:342-358 | Accepts a model if and only if the one declarative predicate holds. |
| Carving.FindRuns | adapters/python/adapter_template.py:278-280 | The runs are exactly the maximal stretches of printable bytes of the minimum length, in order. |
| Carving.RunsComeInOrder | adapters/python/adapter_template.py:278-280 | The runs stand in the data left to right, each maximal and none overlapping the next. |
| Carving.ExtractStrings | adapters/python/adapter_template.py:278-297 | The first usable runs of acceptable length, up to the maximum, each where it first occurs; every such run when there are no more than that. |
| Carving.FirstOccurrencesComeInOrder | adapters/python/adapter_template.py:281-297 | What is kept comes in the order in which it first turns up. |
| Carving.LibraryUris | adapters/python/adapter_template.py:300-313 | The first 512 distinct strings that are library URIs, in order, and nothing else. |
| CodeRanges.ScanWords | adapters/python/adapter_template.py:384-412 | One scan finds exactly the frame prologues and counts exactly the calls to each in-region target that the bytes spell. |
| CodeRanges.WordsAreTheirBytes | adapters/python/adapter_template.py:404 | What is read at a place is the word whose four bytes, least significant first, stand there. |
| CodeRanges.CallsRoundTrip | adapters/python/adapter_template.py:367-373 | The word of a call `k` words on, backwards when `k` is negative, decodes to exactly there. |
| CodeRanges.OnlyCallsDecode | adapters/python/adapter_template.py:367-373 | A 32-bit word decodes if and only if it is one of those. |
| CodeRanges.FramesRoundTrip | adapters/python/adapter_template.py:376-381 | Every store of x29 and x30 to the stack, whatever its form and offset, is taken for a prologue. |
| CodeRanges.FrameWordsAreSpelled | adapters/python/adapter_template.py:376-381 | And no other word is. |
| CodeRanges.CallCountIsExact | adapters/python/adapter_template.py:404-412 | The count of a target is the number of words that spell a call of it. |
| CodeRanges.StartsAreSpelled | adapters/python/adapter_template.py:384-431 | A start is the region's base, an address whose bytes spell a prologue, or one two words spell calls of. |
| CodeRanges.RangesAreDisjoint | adapters/python/adapter_template.py:414-431 | No recovered range runs into a later one. |
| CodeRanges.RecoverCodeRanges | adapters/python/adapter_template.py:384-431 | The starts are exactly the region's base, prologues and twice-called targets that the bytes spell; each range fills the gap to the next, or the most a range may take. |
| InternalProducer.ReadRegion | adapters/python/adapter_template.py:136-154 | A region is read if and only if its handle and file are there and its bytes have the declared size and digest; what is read is the file. |
| InternalProducer.ExplainUnavailable | adapters/python/adapter_template.py:232-241 | Every unavailable domain ends up with a diagnostic, and none given is lost. |
| InternalProducer.Assemble | adapters/python/adapter_template.py:217-257 | Putting the recovered parts together changes none of them and yields an acceptable model. |
| InternalProducer.BuildInternalModel | adapters/python/adapter_template.py:434-502 | For every well-formed request the model is built exactly when the three regions read back; it holds the carved strings in order, the URIs among them and the guessed ranges, and the host's validator accepts it. |
| Frontier.ChainsArePaths | crates/flutterdec-disasm-arm64/src/lib.rs:867-893 | A chain of `d` calls from a seed is a path of `d` edges in the call graph. |
| Frontier.PathsAreChains | crates/flutterdec-disasm-arm64/src/lib.rs:867-893 | And every such path is such a chain. |
| Frontier.EnqueueSeeds | crates/flutterdec-disasm-arm64/src/lib.rs:860-865 | Whatever order the hash set yields the seeds in, the queue holds each of them once, at depth 0, and nothing else. |
| Frontier.RecordedDepthIsLeast | crates/flutterdec-disasm-arm64/src/lib.rs:867-893 | When the queue is empty no function is recorded deeper than any chain of at most three calls to it. |
| Frontier.BuildEntrypointFrontierScores | crates/flutterdec-disasm-arm64/src/lib.rs:827-895 | A function is scored if and only if its shortest call distance from the seeds is at most 3, and then by that distance. |
| Selection.CollectBootflowSeeds | crates/flutterdec-disasm-arm64/src/lib.rs:1275-1298 | Seeds are distinct ranked addresses, one a category at most, and every category some candidate belongs to is represented. |
| Selection.DecodeFunction | crates/flutterdec-disasm-arm64/src/lib.rs:240-262 | A function decodes if and only if it starts in the window with at least one word of itself and of the window left, and is cut at the window's end. |
| Selection.KeysAreSpellings | crates/flutterdec-disasm-arm64/src/lib.rs:1127-1140 | Two candidates share a name key if and only if their names are spelled alike but for case, and an owner key if and only if owner and name together are. |
| Selection.CappedBySpelling | crates/flutterdec-disasm-arm64/src/lib.rs:1439-1455 | A candidate is put off if and only if it has a name and two picks are named like it, or one has its owner and name. |
| Selection.CapsBySpelling | crates/flutterdec-disasm-arm64/src/lib.rs:1430-1470 | While the caps hold, at most two picks are named alike and at most one named pick has any owner and name, unless the seeds took more. |
| Selection.SeedPass | crates/flutterdec-disasm-arm64/src/lib.rs:1400-1428 | Only seeds are taken, and with room left every seed whose best-ranked candidate decodes is. |
| Selection.FirstPass | crates/flutterdec-disasm-arm64/src/lib.rs:1430-1470 | Picks follow the ranking, keep the caps, and leave each candidate seen picked, undecodable, already picked by address, or put off by a cap. |
| Selection.DeferredPass | crates/flutterdec-disasm-arm64/src/lib.rs:1472-1491 | The room left over is filled in ranking order from what was put off, until it is used up. |
| Selection.SelectFunctions | crates/flutterdec-disasm-arm64/src/lib.rs:1384-1491 | Both lists are aligned; entry addresses are pairwise distinct and number min(max, distinct decodable addresses); before the deferred picks no name is taken more than twice and no named owner more than once unless the seeds did; no decodable candidate is passed by unless its address is picked or its name capped. |
| Overlay.SegmentsAreTheLine | crates/flutterdec-decompiler/src/lib.rs:261-294 | Scanning loses nothing: the segments put together are the line. |
| Overlay.OpenersExclude | crates/flutterdec-decompiler/src/helpers/annotation.rs:136-141 | At most one opener matches at a place, so the order they are tried in does not matter. |
| Overlay.LiteralsAreOpeners | crates/flutterdec-decompiler/src/helpers/annotation.rs:106-133 | The four literals open a comment after a blank and none begins with another. |
| Overlay.LiteralsEndAtTheirQuote | crates/flutterdec-decompiler/src/lib.rs:266-281 | A string literal ends behind the first quote with an even number of backslashes before it, or with the line. |
| Overlay.CloseIsTheFirst | crates/flutterdec-decompiler/src/helpers/annotation.rs:90-104 | An annotation ends at the first terminator. |
| Overlay.LiteralsAreCopied | scripts/annotation_boundary_corpus_check.py:65-103 | A string literal comes through the checker's strip unchanged, between what its two sides strip to. |
| Overlay.BeforeIsAPrefix | scripts/annotation_boundary_corpus_check.py:65-103 | The code span before the first annotation is a prefix of what the checker's strip leaves. |
| Overlay.StrippingUndoesAnnotating | scripts/annotation_boundary_corpus_check.py:65-103 | Inserting any number of terminated annotations between clean stretches of code, then stripping as the checker does, gives the code back; the code span is the first stretch. |
| Overlay.CleanLinesAreUntouched | scripts/annotation_boundary_corpus_check.py:65-103 | A line in which no comment opens outside a literal is left as it is by the checker's strip and is all code span. |
| Overlay.NoCommentIsClean | crates/flutterdec-decompiler/src/lib.rs:261-294 | A line with no `/*` in it at all is such a line. |
| Overlay.StrippingTwiceCanRemoveMore | crates/flutterdec-decompiler/src/lib.rs:261-294 | A line that a second strip changes again. |
| OverlayScanners.StripJoinAnnotationSpan | crates/flutterdec-decompiler/src/lib.rs:261-294 | The decompiler's strip drops the annotations and pushes everything else, code bytes one by one as characters. |
| OverlayScanners.PushedBytesDecode | crates/flutterdec-decompiler/src/lib.rs:283 | A byte pushed as a character takes its UTF-8 form. |
| OverlayScanners.CodeBeforeAnnotation | crates/flutterdec-decompiler/src/lib.rs:299-323 | The code span is the line up to its first annotation opener outside a literal, terminated or not. |
| OverlayScanners.StripAnnotations | scripts/annotation_boundary_corpus_check.py:65-103 | The checker's strip drops exactly the annotations, counts them by opener, and counts their candidates. |
| OverlayScanners.AnnotationsAreCounted | scripts/annotation_boundary_corpus_check.py:65-103 | The count for an opener is the number of segments that are its annotations. |
| OverlayScanners.TwinsAgreeExactlyOnAscii | scripts/annotation_boundary_corpus_check.py:65-103 | The two strips give the same bytes if and only if no code byte outside literals and annotations is above 127. |
| OverlayScanners.DecompilerUndoesAnnotating | crates/flutterdec-decompiler/src/lib.rs:261-294 | With the four literals, the decompiler's strip gives the code back after any annotating if and only if no byte outside literals and annotations is above 127, as on every ASCII line. |
| OverlayScanners.DecompilerCopiesLiterals | crates/flutterdec-decompiler/src/lib.rs:266-281 | A string literal comes through the decompiler's strip unchanged, whatever bytes it holds, between what its two sides strip to. |
| OverlayScanners.DecompilerKeepsTheCodeSpan | crates/flutterdec-decompiler/src/lib.rs:261-323 | Where code outside literals is ASCII, the code span before the first annotation is a prefix of what the decompiler's strip leaves. |
| OverlayScanners.DecompilerKeepsCleanLinesExactlyOnAscii | crates/flutterdec-decompiler/src/lib.rs:261-294 | A line in which no comment opens outside a literal is left as it is by the decompiler's strip if and only if its code outside literals is ASCII. |
| OverlayScanners.CandidatesAreCounted | scripts/annotation_boundary_corpus_check.py:97-101 | A rendered list of values, none of which holds a bar, is counted value by value. |
| OverlayIdempotence.SecondStripChangesExactlyWhenOneIsRevealed | scripts/annotation_boundary_corpus_check.py:65-103 | The checker's strip changes a stripped line again if and only if removing annotations brought an opener together at a plain byte and the first such opener is terminated in what is left. |
| OverlayIdempotence.NewOpenersStraddleAnAnnotation | scripts/annotation_boundary_corpus_check.py:65-103 | Every opener brought together that way reaches across a removed annotation. |
| OverlayIdempotence.SecondDecompilerStripChangesExactlyWhenOneIsRevealed | crates/flutterdec-decompiler/src/lib.rs:261-294 | On ASCII lines the same condition decides for the decompiler's strip. |
| AliasRewrite.CountLines | crates/flutterdec-decompiler/src/lib.rs:670-693 | The two counters hold, for every name, how many lines show it in place of a generated name and how many refer to that one. |
| AliasRewrite.DecidedNamesAreAliases | crates/flutterdec-decompiler/src/lib.rs:695-721 | A name that passes the thresholds is shown twice or more, on half the references or more, and more than twice as often as any other; score and spelling never decide. |
| AliasRewrite.AliasesAreDecided | crates/flutterdec-decompiler/src/lib.rs:695-721 | And every name of which that holds passes them. |
| AliasRewrite.CollectGenericSymbolAliases | crates/flutterdec-decompiler/src/lib.rs:670-723 | Whatever order the maps yield their keys in, the aliases are exactly those names. |
| AliasRewrite.AliasMapIsUnique | crates/flutterdec-decompiler/src/lib.rs:694-723 | Only one map is that, so map iteration order cannot show. |
| AliasRewrite.SecondRewriteChangesExactlyWhenOneTips | crates/flutterdec-decompiler/src/lib.rs:670-788 | On a list of lines, rewriting by the aliases collected after a rewrite changes something if and only if the first rewrite tips a name without an alias that is still called plainly; with the lines it rewrote counted in, that name passes the thresholds. |
| AliasRewrite.SuchLinesAreCoherent | crates/flutterdec-decompiler/src/lib.rs:741-763 | Lines that say what something was only behind their callee choose aliases that read as evidence of nothing but the name they replace. |
| AliasRewrite.RecollectingFindsTheSame | crates/flutterdec-decompiler/src/lib.rs:648-723 | Collecting again after a rewrite finds the same aliases, when a chosen alias that reads as evidence says it of the name it replaces. |
| AliasRewrite.ApplyProgramLevelGenericCallRewrites | crates/flutterdec-decompiler/src/lib.rs:648-668 | In place, line by line: a plain call of a name with an alias shows the alias instead, and says what the alias carries or nothing; every other line stays as it is. |
| AliasRewrite.EveryLineIsRewritten | crates/flutterdec-decompiler/src/lib.rs:648-668 | That is what rewriting a program by its aliases does to each of its lines. |
| AliasRewrite.IdempotentExactlyWhenNothingTips | crates/flutterdec-decompiler/src/lib.rs:648-788 | The whole-program pass is idempotent on a program if and only if its first rewrite tips no name. |
| AliasRewrite.SecondPassChangesNothing | crates/flutterdec-decompiler/src/lib.rs:648-788 | On such aliases the whole-program pass is idempotent. |
| AliasRewrite.EvidenceInANameBreaksIdempotence | crates/flutterdec-decompiler/src/lib.rs:741-763 | Five concrete lines, with the alias maps both passes collect, of which the second pass rewrites one the first left. |
| Registry.Normalize | crates/flutterdec-loader/src/identity.rs:139-150 | The result is strictly ascending and has exactly the lowercased tokens as members. |
| Text.LowerForgetsOnlyCase | crates/flutterdec-loader/src/identity.rs:139-150 | Lowercased texts are equal if and only if the texts differ in the case of letters only, and hold no upper-case letter. |
| Registry.StandingWordsAreFound | crates/flutterdec-loader/src/identity.rs:139-150 | Words that stand in a text between blanks are its tokens, in order. |
| Registry.TextsAreTheirWords | crates/flutterdec-loader/src/identity.rs:139-150 | And every text is its tokens with blanks around and between them. |
| Registry.SameTokensAreSameWords | crates/flutterdec-loader/src/identity.rs:139-150 | Two texts have the same tokens if and only if each word of one is a word of the other but for case. |
| Registry.JoinedLinesTellTokensApart | crates/flutterdec-loader/src/registry.rs:189-199 | Different feature tuples never make the same text to digest. |
| Registry.ParsingIsExactOnTokenSets | crates/flutterdec-loader/src/identity.rs:139-150 | Two feature strings normalize alike if and only if they have the same tokens up to order, repetition and case. |
| Registry.KeyTextsAreKeys | crates/flutterdec-loader/src/registry.rs:410-415 | Among valid records equal key texts are equal keys, whatever the architecture's name holds. |
| Registry.ContainedPathsStayBelow | crates/flutterdec-loader/src/registry.rs:208-227 | A path that passes the check, joined to any directory, names something in or below it. |
| Registry.ValidateRecord | crates/flutterdec-loader/src/registry.rs:237-347 | A record passes exactly when its texts are non-empty, its digests well-formed, its paths contained, its features normalized and fingerprinted, none of them forbidden, and its host variants and SDK aliases distinct. |
| Registry.Validate | crates/flutterdec-loader/src/registry.rs:403-428 | A registry passes exactly when its version is known, its records are valid and no two share an exact key. |
| Registry.ValidRegistriesAreNeverAmbiguous | crates/flutterdec-loader/src/registry.rs:437-480 | A validated registry never answers that a key is ambiguous. |
| Registry.SelectionIsExact | crates/flutterdec-loader/src/registry.rs:437-487 | A selection succeeds with a record if and only if it is in the registry, exact for the key and of supported majors. |
| Registry.MissingRecordsAreNamed | crates/flutterdec-loader/src/registry.rs:437-460 | That no record has the hash, or none of that hash the target, is reported if and only if it is so. |
| Registry.RecordOrderDoesNotMatter | crates/flutterdec-loader/src/registry.rs:403-487 | Permuting the records changes neither validity nor what is selected. |
| Registry.MismatchesAreExplained | crates/flutterdec-loader/src/registry.rs:489-521 | A mismatch is told against the first record of that hash and target: missing is expected minus key, forbidden is what the key has beyond it that the record forbids or knows, unknown the rest, and one of them is not empty. |
| Registry.GateIsExact | crates/flutterdec-loader/src/identity.rs:325-366 | The gate lets through exactly full AOT snapshots for arm64 that state one pointer mode and declare no other architecture. |
| Registry.RejectionsSayWhy | crates/flutterdec-loader/src/identity.rs:325-366 | Each rejection names the first thing that is wrong. |
| Registry.SelectionSeesOnlyTokenSets | crates/flutterdec-loader/src/identity.rs:300-366 | What a header selects is unchanged under permuting, duplicating and re-casing its tokens and re-casing its hash. |
| Registry.SelectedRecordsFitTheHeader | crates/flutterdec-loader/src/registry.rs:430-487 | A record is selected if and only if the gate passes, its hash is the header's and its features are the header's tokens. |
| SnapshotHeader.SignedRoundTrip | crates/flutterdec-loader/src/lib.rs:244-256 | A signed 64-bit number survives being written least significant byte first. |
| SnapshotHeader.KindsByCode | crates/flutterdec-loader/src/identity.rs:34-42 | Each kind has its one code, and every other code is unrecognized. |
| SnapshotHeader.LoweredHashesKeepTheirDigits | crates/flutterdec-loader/src/identity.rs:300-315 | A lowercased hash has the same digits, none in upper case. |
| SnapshotHeader.MagicIsTheFirst | crates/flutterdec-loader/src/lib.rs:235-243 | The magic a parse starts at is the first in the buffer. |
| SnapshotHeader.HeaderRoundTrip | crates/flutterdec-loader/src/lib.rs:235-277 | A header behind padding whose first magic is its own parses back to lowercased hash, kind and features. |
| SnapshotHeader.ParsedHeadersWereWritten | crates/flutterdec-loader/src/lib.rs:235-277 | What parses at a magic is a header of exactly that layout. |
| SnapshotHeader.ParsesExactlyWrittenHeaders | crates/flutterdec-loader/src/lib.rs:235-277 | A parse succeeds if and only if such a layout stands at the first magic. |

## Left out

- Decoding instruction bytes: instructions arrive as text already split into fields, and a target address as a number read out of it (parse_target_hex, parse_u64_literal and the regular expressions are not modelled).
- Guard targets that open no block are ignored by the reachability walks, as in the source; `Elision.GuardStep` says so.
- Text is trimmed and lowercased on ASCII only; the Unicode white space Rust's trim and split_whitespace also cut is not modelled.
- The ledger file is kept apart from the artifact files: a record whose artifact path is the ledger's own name is not modelled, nor are symbolic links, file modes, fsync, or the JSON text of the ledger.
- The record's trust tier, which no modelled decision reads. Paths are Unix paths.
- Installer.AdapterStore.Install: the up-front checks run before it, in StoreReport.Prepare; directory creation is one of the faults before the lock.
- AliasRewrite.RewriteLine: a line is its callee, whether it says what something was, and the generated name it says that of; finding those in the text, and the inserted comment, are not modelled. The one way the text can answer back, a callee whose own text reads as evidence, is the `carried` map; it holds names whose text the evidence token ends with, since a token that runs on past the callee takes in its parenthesis and names no callee.
- AliasRewrite.ApplyProgramLevelGenericCallRewrites: an artifact is its list of lines, so a final line break lost in joining does not show.
- Identities without a parsed header: a scanned hash is refused before selection, so only header-derived identities are modelled.
- SnapshotHeader.ParsesExactlyWrittenHeaders: for buffers shorter than 2^63 bytes, the longest a signed length can describe.
- Selection without a cap (every decodable candidate in ranking order), the ranking's sort, and the scores it sorts by.
- The direct-call scan that builds the call graph from instruction bytes: the frontier takes the graph as given.
- Process hosting, sandboxing, workspaces and the protocol with adapters; the Blutter and r2flutter backends, which depend on external tools.
- Structured emission, naming and compaction passes of the decompiler; CLI, layout discovery and report structures: each is settled by reading a branch.
