# Verified models of oh-my-codex

Ten components of the command-line tool, modelled in Dafny and proved against what they promise. Each module follows one
source file (or two that only make sense together); a class stands for an object that is updated in place, functions
stand for code that only computes, and a step system stands for processes that interleave.

| module | models |
|---|---|
| `ClaimJournal` | the write-ahead record for replacing one hook file: forward transaction, recovery, power loss between and inside primitives |
| `NativeCache` | publication of a native binary into a shared cache: lock, quarantine, two renames, unlocked two-file inspection |
| `SecretPattern`, `Redactor` | the streaming stderr redactor: record splitting over arbitrary chunks, suppression, the 256-character window |
| `Autoresearch` | the keep/discard supervisor: git HEAD, kept commit and score, append-only ledger |
| `Autopilot`, `AutopilotGate` | the phase machine and the completion gate, over whole runs |
| `AdaptiveSort` | four instrumented sorts, their results and their exact costs |
| `ProcessCleanup` | reachability, ancestor walks and grouping over process snapshots that may contain cycles |
| `AuthStorage` | slot metadata under a lock, as read-modify-write operations of concurrent processes |
| `Rotation`, `ResumeArgs` | the rotation plan, the hotswap retry loop and the resume-argument rewriter |
| `SandboxContract` | the `sandbox.md` builder against its parser |
| `CanonicalJson` | key-sorted JSON as a canonical form |
| `MissionQueue` | the sequential mission runner with run, mark, resume, rerun and interruptions |

`Prelude` and `Text` hold shared definitions. `dafny verify dfyconfig.toml` checks everything.

## Where a promise holds only under a condition

These are results about the code as it stands. Where an entry says iff, the condition is proved to be exact.

- Crash atomicity of the claim journal holds on volumes with hard links. Elsewhere one crash of the copy fallback can
  leave a state that every later recovery refuses (`CopyPathCanStick`). With any mixture of link support, recoveries
  stick iff the first one that does anything is cut short inside the fallback copy or right behind it, and what it has
  written is not the recorded successor (`AnyLinkConvergence`, `CopyFallbackSettlesIff`). The original is never lost
  either way (`NoClobberNoLoss`).
- The replacement transaction, passing validation or failing it, followed by recoveries with any link support is
  all-or-nothing iff power was not lost inside the write of the successor and no fallback copy got stuck in that way
  (`TransactionAtomicIff`).
- The keep entries of an autoresearch run name the new kept commits as their candidates iff no evaluation of a kept
  candidate moved HEAD (`KeepsAreExactIff`, `KeepCanDiffer`): the kept commit is HEAD after evaluation, the entry
  records the worker's commit. A candidate that is not kept is neither recorded nor reset when the evaluation leaves an
  unclean worktree (`ThrownIff`); the kept score is still the maximum over such candidates (`KeptScoreIsMaximum`).
- The search for the protected Codex session has no visited set. It ends iff no pid occurs twice on the chain of
  recorded parents it follows (`SearchEndsIff`, `SearchCanLoop`).
- Forged or out-of-scope evidence is refused iff the transition does not also end the run successfully; if it does, it
  gets an advisory instead (`RefusedIff`, `SuccessHidesForgery`).
- Advisory-free autopilot runs pass every gate as long as all states but the last are in a child phase. An inactive
  state of unknown phase between the interview and a successful end passes none, without an advisory
  (`UnknownPhaseBypasses`).
- The three parts of the auth store - metadata, credential files, live credentials - are one sequential run of the
  completed operations if none stops between writing credentials and writing metadata; in general `StoreIsSerial`
  gives the order of all writers, of which the completed ones make the metadata.
- Rewriting resume arguments twice equals rewriting them once iff the first id is not dashed, or is itself a session
  selector (`RebuildIff`).
- A `sandbox.md` built from a command reads back as that command iff it is non-empty, trimmed, without tab, line
  terminator or outer quote (`RoundTripIff`). The builder's callers parse what was built and so notice errors, but not
  a command that reads back altered; `ParseBuilt` gives what is read for every command.
- Sorted JSON is canonical iff the comparison ties no two different keys that are not array indices
  (`CanonicalIff`). `localeCompare` does tie some, for example canonically equivalent spellings of one letter. Array
  indices never tie because property order sorts them.

## Model

| member | source | states |
|---|---|---|
| ClaimJournal.AcceptsExactlyRecoverable | src/cli/native-hook-claim-journal.ts:266-334 | with hard links and a dead owner, recovery goes on exactly in the states from which the original or the recorded successor can be reached |
| ClaimJournal.ProceedsIff | src/cli/native-hook-claim-journal.ts:247-335 | for any disk, any set of live processes and any link support: recovery goes on iff the owner is dead, the state is recoverable and creating a file, where that is needed, does not fail; and exactly when there is nothing to do, a live owner, an unreadable journal or a failing link |
| ClaimJournal.LiveOwnerIsLeftAlone | src/cli/native-hook-claim-journal.ts:253-277 | any number of recoveries that see the owner alive, with any link support and power loss, leave the disk exactly as it is; the same for a journal that cannot be read |
| ClaimJournal.OneRecovery | src/cli/native-hook-claim-journal.ts:247-335 | one recovery: refused without a change while the owner lives, never stuck on a recoverable state where files can be created, final once its primitives are done |
| ClaimJournal.RestartResumes | src/cli/native-hook-claim-journal.ts:247-335 | after its first primitive a recovery is done, or a fresh recovery would do exactly the steps that remain and aim at the same content |
| ClaimJournal.CrashedRecovery | src/cli/native-hook-claim-journal.ts:247-335 | one recovery takes at most three primitives; cut short anywhere it stays recoverable with the same target, otherwise the disk is settled |
| ClaimJournal.CrashAtomicity | src/cli/native-hook-claim-journal.ts:247-335 | any sequence of crashed recoveries keeps the target; one that gets three primitives done settles it: journal and claim gone, canonical exactly the target, nothing else touched |
| ClaimJournal.TargetIsRecorded | src/cli/native-hook-claim-journal.ts:270-334 | the target is the recorded original, the recorded successor or the recorded deletion |
| ClaimJournal.SettledStays | src/cli/native-hook-claim-journal.ts:247-266 | once the journal is gone any number of further runs changes nothing |
| ClaimJournal.NoClobberNoLoss | src/cli/native-hook-claim-journal.ts:118-167 | no sequence of runs - refused, crashed, linked or copied, owner dead or alive - changes bytes at canonical or drops the last copy of the original before canonical holds the successor |
| ClaimJournal.CopyCrashDecision | src/cli/native-hook-claim-journal.ts:139-166 | power lost k bytes into the fallback copy: the next recovery goes on iff those k bytes are the recorded successor; otherwise every later run refuses and the original is still at the claim |
| ClaimJournal.AnyLinkConvergence | src/cli/native-hook-claim-journal.ts:118-167 | for any sequence of recoveries with any link support, crashed anywhere: stuck iff the first one that does anything is cut short in or right behind a copy of something unrecognized; otherwise recoverable throughout and final once one completes |
| ClaimJournal.CopyFallbackSettlesIff | src/cli/native-hook-claim-journal.ts:126-140 | a fallback recovery cut short anywhere and followed by complete ones settles iff it was not cut short in or right behind a copy of something other than the successor |
| ClaimJournal.RestorePreserves | src/cli/native-hook-claim-journal.ts:118-167 | a restore from any disk, with an existing destination or without, crashed anywhere, changes no bytes at canonical and keeps the original |
| ClaimJournal.CopyWithoutCrash | src/cli/native-hook-claim-journal.ts:139-166 | an undisturbed fallback restores the original and settles the disk |
| ClaimJournal.CopyPathCanStick | src/cli/native-hook-claim-journal.ts:328-334 | a disk on which one crash of the copy fallback makes every later recovery refuse |
| ClaimJournal.TransactionCrash | src/cli/setup.ts:1371-1432 | the state a replacement leaves when power is lost at any primitive: before it, recoverable, done, or a torn successor |
| ClaimJournal.TransactionAtomicIff | src/cli/setup.ts:1371-1470 | replacement or deletion, validated or rolled back, plus recoveries with any link support leaves exactly the original or exactly the successor iff power was not lost inside writing the successor and no fallback copy got stuck |
| ClaimJournal.TransactionCompletes | src/cli/setup.ts:1371-1470 | with power for all of it: validated, exactly the successor and no journal; claim not validated, exactly the original; successor not validated, both and the journal |
| ClaimJournal.Volume.RestoreNoClobber | src/cli/native-hook-claim-journal.ts:118-167 | from any state: refused without any change iff the claim is missing or aliased, link(2) fails or the destination exists; done, the destination holds what the claim held and the claim is gone; else up to where power is lost |
| ClaimJournal.Volume.RollBack | src/cli/setup.ts:1447-1462 | restores the claim and clears the journal only if that worked |
| ClaimJournal.Volume.RecoverJournal | src/cli/native-hook-claim-journal.ts:247-335 | the cascade of checks performs exactly the decided plan up to where power is lost; a live owner or an unreadable journal is refused without a change; on a recoverable state with power and a working link it recovers, and then recovery is final |
| ClaimJournal.Volume.Transact | src/cli/setup.ts:1371-1462 | performs journal, rename, install, remove, clear up to where power is lost; rolls back a claim that fails validation, and leaves a successor that fails it in place because the restore refuses to replace it; the outcome in each case |
| NativeCache.AtMostOnePublisher | src/cli/native-assets.ts:605-653 | over all interleavings with crashes at most one publisher is between creating the lock and releasing it |
| NativeCache.NeverMixed | src/cli/native-assets.ts:662-726 | a published binary is never visible beside another attempt's or an earlier checksum, nor a published checksum without its binary |
| NativeCache.VerifiedForever | src/cli/native-assets.ts:662-726 | once the two files verify they stay the same two files in every continuation |
| NativeCache.ReportIsSound | src/cli/native-assets.ts:559-603 | what the non-atomic inspection reports as verified is verified at that moment and ever after, with the bytes it read |
| NativeCache.PublisherFinishes | src/cli/native-assets.ts:605-726 | from every reachable state in which the lock is free, a publisher that has not crashed and is not disturbed reports the pair that verified before or else publishes and reports its own source; the reported pair is in place and the lock is gone |
| NativeCache.FailureUnlocksIff | src/cli/native-assets.ts:605-726 | a holder that meets an error reports nothing, and lets go of the lock iff the error was not in creating or removing the lock |
| NativeCache.WaitsForTheLock | src/cli/native-assets.ts:605-642 | while the lock exists a publisher that does not hold it does not move |
| NativeCache.InspectionDecides | src/cli/native-assets.ts:559-603 | an undisturbed inspection reports verified iff the two files verify, with their bytes |
| NativeCache.InspectionNotices | src/cli/native-assets.ts:460-503 | a file that is replaced between being opened and being looked up again is never reported |
| NativeCache.ConfirmationSucceeds | src/cli/native-assets.ts:682-701 | a publisher that completed both renames passes its own final inspection with its own bytes |
| NativeCache.ReleaseRemovesOwnLock | src/cli/native-assets.ts:644-653 | a lock that disappears was removed by the attempt that created it, in its release |
| NativeCache.OrphanedLockStays | src/cli/native-assets.ts:605-642 | a lock nobody will release stays, and the files under it never change again |
| NativeCache.CrashedLockStays | src/cli/native-assets.ts:605-642 | a crashed owner's lock is never stolen by any later run |
| NativeCache.ReadOpenedFile | src/cli/native-assets.ts:474-503 | with any pattern of short reads: a result is the whole content within its limits; an empty file, a too large one and a race are told apart, a race being exactly a read that is still needed and returns nothing |
| SecretPattern.WindowIsIncremental | src/auth/redact.ts:45-50 | the window updated chunk by chunk is the tail of the collapsed text of everything suppressed |
| SecretPattern.WindowDecides | src/auth/redact.ts:31-50 | for any short keys and word, the pattern matches the end of the window iff it matches the end of the whole text |
| SecretPattern.WindowIsAuthoritative | src/auth/redact.ts:30-37 | the same for the pattern of the program |
| SecretPattern.WindowIsTail | src/auth/redact.ts:45-50 | the window is the last 256 characters of the collapsed text, or all of it |
| SecretPattern.MatchesIff | src/auth/redact.ts:36-37 | for any short keys and word, the pattern matches exactly the texts that are something, a key in any case, an optional quote, spaces, at most one of `:` and `=`, spaces; or something not ending in a word character, the word in any case, spaces |
| SecretPattern.IncompleteIff | src/auth/redact.ts:36-37 | the same for the token keys and `bearer` |
| SecretPattern.TokenKeysAre | src/auth/redact.ts:37 | the keys are access_token, refresh_token, id_token, and session, auth or api before token, directly or behind `_` or `-` |
| Redactor.RecordsPartition | src/auth/redact.ts:37-38 | every text is cut without loss into records, each ending at the first newline no secret value can follow |
| Redactor.NoRecordSplitsAField | src/auth/redact.ts:36-98 | no record but the last ends between a token key or `bearer` and its value, and every newline inside a record is at such a place |
| Redactor.OnePieceARecord | src/auth/redact.ts:63-107 | what is released is one piece a record: the notice for one longer than 65536, else the record with its secrets replaced |
| Redactor.PartIsConsumed | src/auth/redact.ts:63-98 | one round of the loop, with its overflow mode and window, agrees with consuming the part one character at a time |
| Redactor.ConsumedRecords | src/auth/redact.ts:63-107 | closing the stream emits exactly the released records: redacted, or one notice for one oversized record |
| Redactor.ChunkInvariance | src/auth/redact.ts:53-108 | two ways of cutting a text leave the same state with at most 65536 pending characters, and closing emits the released records of the text |
| Redactor.PatternRulesAreValid | src/auth/redact.ts:37 | the rules of the program satisfy what the proofs assume of the pattern |
| Redactor.AuthStderrRedactor.AcceptPart | src/auth/redact.ts:64-98 | the loop body keeps the machine in the state that the text seen so far determines |
| Redactor.AuthStderrRedactor.Write | src/auth/redact.ts:101-102 | taking a chunk extends the text seen and leaves at most 65536 pending and 256 window characters |
| Redactor.AuthStderrRedactor.End | src/auth/redact.ts:102-106 | all that was ever emitted is the released records of all that was ever written |
| Autoresearch.KeptScoreIsMaximum | src/autoresearch/runtime.ts:534-622 | under score_improvement, along every run the kept score is the maximum of the baseline score and the passing scores of all evaluated candidates, those whose processing threw included; without a baseline score nothing is ever kept |
| Autoresearch.KeptScoreIsLatest | src/autoresearch/runtime.ts:538-622 | under pass_only the kept score is the latest recorded passing score |
| Autoresearch.EvaluatedOutcome | src/autoresearch/runtime.ts:577-622 | an evaluated candidate is kept iff it passes and, under score_improvement, both scores exist and its own is strictly greater; ambiguous iff it passes there and a score is missing; anything not kept is thrown iff the worktree is unclean |
| Autoresearch.SessionOutcome | src/autoresearch/runtime.ts:1075-1282 | what any session comes to: its outcome, the run status, the latest candidate, the iteration and when nothing is recorded; it fails iff its base is not the kept commit or its candidate not HEAD |
| Autoresearch.EntryIsExact | src/autoresearch/runtime.ts:1131-1282 | the entry a session adds carries its iteration, decision, base, candidate, kept commit and evaluation |
| Autoresearch.DecisionsAlongRun | src/autoresearch/runtime.ts:577-622 | along every run each decision follows from the entries before it: under score_improvement a candidate is kept iff its score is strictly greater than every passing score recorded before, the baseline's included; under pass_only iff it passed |
| Autoresearch.BaselineStays | src/autoresearch/runtime.ts:782-815 | the first entry of every run is the baseline's, an error iff its evaluation errored |
| Autoresearch.KeepsChain | src/autoresearch/runtime.ts:1221-1282 | consecutive keep entries chain: the later one's base is the commit the earlier one kept |
| Autoresearch.OneProcessGrows | src/autoresearch/runtime.ts:358-418 | the ledger is append-only, at most one entry an iteration, and a run that ended stays ended |
| Autoresearch.HeadAlongRun | src/autoresearch/runtime.ts:1170-1282 | along every run HEAD is the last kept commit, unless the last session was a noop, interrupted, aborted, failed or thrown: then it is where that session or its evaluation left it |
| Autoresearch.HeadIsKeptAfterEvaluation | src/autoresearch/runtime.ts:1249-1269 | after an evaluated candidate whose processing returned, HEAD is the last kept commit |
| Autoresearch.ThrownIff | src/autoresearch/runtime.ts:1249-1269 | processing throws iff a candidate that is not kept leaves an unclean worktree; nothing is recorded then |
| Autoresearch.KeepsAreExactIff | src/autoresearch/runtime.ts:1221-1282 | every keep entry of a whole run names the new kept commit as its candidate iff no evaluation of a kept candidate moved HEAD |
| Autoresearch.KeepCanDiffer | src/autoresearch/runtime.ts:1249-1254 | a one-session run in which an evaluation that commits makes the two differ |
| Autoresearch.KeptIsCandidateIff | src/autoresearch/runtime.ts:1249-1269 | a single keep entry names the new kept commit iff its evaluation left HEAD alone |
| Autoresearch.NoopLeavesHead | src/autoresearch/runtime.ts:1170-1219 | a noop or an interrupted session moves neither HEAD back nor the kept commit or score |
| Autoresearch.Supervisor.constructor | src/autoresearch/runtime.ts:782-815 | seeds kept commit, score and the first ledger entry, which carries the manifest's own name of the baseline commit, from the baseline evaluation |
| Autoresearch.Supervisor.FailIteration | src/autoresearch/runtime.ts:1131-1168 | a failed iteration appends one error entry and ends the run |
| Autoresearch.Supervisor.ProcessCandidate | src/autoresearch/runtime.ts:1221-1282 | the step of the program refines the transition the run theorems are about; an evaluated candidate is kept iff it passes and, under score_improvement, has a strictly greater score |
| Autoresearch.Supervisor.RecordNotEvaluated | src/autoresearch/runtime.ts:1170-1219 | the four outcomes of a candidate that is not evaluated |
| Autopilot.AcceptedEvidenceIsNotForged | src/autopilot/completion-gate.ts:171-258 | complete ralplan evidence is never mistaken for forged evidence, so the two gates do not contradict each other |
| Autopilot.EvidenceIsIndependent | src/autopilot/completion-gate.ts:308-351 | no locator of the review verdict is a locator of the QA verdict |
| Autopilot.ForgedIff | src/autopilot/completion-gate.ts:171-221 | ralplan evidence is forged iff a part of it is supplied and not of its type |
| Autopilot.HandoffIsBound | src/autopilot/completion-gate.ts:223-258 | a complete handoff has an existing plan, approvals by the architect first and the critic second, and an authorised execution, all of one session and one integer review cycle |
| Autopilot.InterviewHandoffHasArtifact | src/autopilot/completion-gate.ts:123-145 | no interview is handed over without an existing artifact, nor skipped without the user's authorisation in the same session |
| Autopilot.CleanEvidenceHasLocators | src/autopilot/completion-gate.ts:293-351 | clean evidence has two clean verdicts of their own stage, each with a locator and none in common |
| Autopilot.CleanEvidenceIsGenuine | src/autopilot/completion-gate.ts:281-351 | neither verdict names the other stage or a CI run in its place, a skipped QA gives its reason and the leader does not vouch for its own QA |
| Autopilot.SuccessIff | src/autopilot/completion-gate.ts:260-271 | a state has ended successfully iff nothing in it says that it failed and something says that it ended |
| Autopilot.PhaseIff | src/autopilot/fsm.ts:50-68 | exactly the active states are in a supervised phase that name it or that wait for the user in it |
| Autopilot.StateFieldIs | src/autopilot/completion-gate.ts:18-21 | a field of the state wins over that of its nested record |
| AutopilotGate.SuccessIsSilentIff | src/autopilot/completion-gate.ts:367-496 | from a child phase a successful end passes without an advisory iff the phase is ultraqa with clean evidence |
| AutopilotGate.RefusedIff | src/autopilot/completion-gate.ts:367-448 | a transition is refused iff a carrier is invalid or, unless it ends successfully, it brings an interview artifact out of scope to ralplan, or a plan out of scope or forged evidence to ultragoal |
| AutopilotGate.AdvisoryIff | src/autopilot/completion-gate.ts:367-496 | for each of the nine advisories exactly when it is given |
| AutopilotGate.AllowedIff | src/autopilot/completion-gate.ts:108-117 | the allowed transitions: stay, down the pipeline, between implementation phases through team, any implementation to code-review, back from review to rework and from review or QA to ralplan |
| AutopilotGate.PermittedIff | src/autopilot/completion-gate.ts:367-448 | a run, however many advisories it ignores, has no refused transition iff all its carriers are valid and none of its transitions but those to a successful end brings such bad evidence |
| AutopilotGate.SuccessHidesForgery | src/autopilot/completion-gate.ts:431-448 | the exception: from ralplan to a successful end forged evidence gets an advisory |
| AutopilotGate.ForgedIndexIsRefused | src/autopilot/completion-gate.ts:171-221 | with the predicates of the program a review whose sequence index is not an integer is refused on the way to ultragoal |
| AutopilotGate.AfterRalplan | src/autopilot/completion-gate.ts:108-117 | after any visit to ralplan an advisory-free run goes through ultragoal with a genuine handoff, code-review and ultraqa, in that order |
| AutopilotGate.SilentRunPassesEveryGate | src/autopilot/completion-gate.ts:367-496 | every advisory-free run whose states but the last are in a child phase, from the interview to a successful end, passes ralplan with handoff, ultragoal, code-review, ultraqa, and ends with clean evidence |
| AutopilotGate.UnknownPhaseBypasses | src/autopilot/completion-gate.ts:367-496 | outside the child phases there is a way around: interview, inactive state of unknown phase, successful end |
| AutopilotGate.NeverBack | src/autopilot/completion-gate.ts:108-117 | such a run never returns to the interview once it left it |
| AutopilotGate.FinalQaFollowsReview | src/autopilot/completion-gate.ts:108-117 | its final stretch of ultraqa is entered from code-review |
| AutopilotGate.ProgramRunEndsClean | src/autopilot/completion-gate.ts:341-351 | with the predicates of the program the end has clean, disjoint review and QA evidence |
| AutopilotGate.ProgramRunHandsOver | src/autopilot/completion-gate.ts:123-258 | with the predicates of the program such a run has handed over the interview and later a genuine ralplan handoff |
| AdaptiveSort.SortedFormSorts | playground/adaptive_sort_demo/sort_benchmark.py:36-48 | the sorted form is a sorted permutation |
| AdaptiveSort.IsSortedForm | playground/adaptive_sort_demo/sort_benchmark.py:36-125 | it is the only one, so sorts that return it agree |
| AdaptiveSort.Ops.Compare | playground/adaptive_sort_demo/sort_benchmark.py:24-26 | a three-way comparison that counts itself |
| AdaptiveSort.Ops.Move | playground/adaptive_sort_demo/sort_benchmark.py:28-29 | counts moves only |
| AdaptiveSort.ShiftGreater | playground/adaptive_sort_demo/sort_benchmark.py:40-46 | the inner loop moves exactly the elements above the key, at one comparison and one move each and one more comparison unless it reaches the front |
| AdaptiveSort.InsertInto | playground/adaptive_sort_demo/sort_benchmark.py:38-47 | one round inserts the key in place and leaves the rest of the array alone |
| AdaptiveSort.InsertionSort | playground/adaptive_sort_demo/sort_benchmark.py:36-48 | returns the sorted form with exactly inversions + 2(n-1) moves and inversions + (n-1) - new minima comparisons |
| AdaptiveSort.InsertionCostBounds | playground/adaptive_sort_demo/sort_benchmark.py:36-48 | the bounds on inversions and new minima behind the cost |
| AdaptiveSort.SortedHasNoInversions | playground/adaptive_sort_demo/sort_benchmark.py:36-48 | sorted input costs the minimum |
| AdaptiveSort.MergeSort | playground/adaptive_sort_demo/sort_benchmark.py:51-74 | returns the sorted form with exactly M(n) moves and at most M(n) - (n-1) comparisons |
| AdaptiveSort.MergeLists | playground/adaptive_sort_demo/sort_benchmark.py:57-74 | merges with one move an element and fewer comparisons than moves |
| AdaptiveSort.MergeMovesBound | playground/adaptive_sort_demo/sort_benchmark.py:51-74 | M(n) <= n * ceil(log2 n) |
| AdaptiveSort.CeilLog2Meaning | playground/adaptive_sort_demo/sort_benchmark.py:51-74 | the logarithm used is the least k with n <= 2^k |
| AdaptiveSort.CountingSort | playground/adaptive_sort_demo/sort_benchmark.py:77-90 | returns the sorted form with exactly span + 2n moves and no comparison |
| AdaptiveSort.LongestNonDecreasingRun | playground/adaptive_sort_demo/sort_benchmark.py:93-103 | returns the length of some run, and no run is longer |
| AdaptiveSort.HybridSort | playground/adaptive_sort_demo/sort_benchmark.py:106-121 | for every configuration the sorted form, at the cost of the branch taken; counting costs at most limit + 1 + 2n moves |
| AdaptiveSort.BaselineSort | playground/adaptive_sort_demo/sort_benchmark.py:124-125 | the same list as the hybrid |
| ProcessCleanup.Descendants | src/cli/cleanup.ts:257-283 | the worklist ends on every graph, cycles included, with exactly the reflexive-transitive descendants |
| ProcessCleanup.ResolveProtectedRootPid | src/cli/cleanup.ts:233-255 | the nearest process at or above the current one that runs Codex, or the process itself if none does |
| ProcessCleanup.RootIsNearestSession | src/cli/cleanup.ts:245-254 | the same of the protected root the candidate selection speaks of |
| ProcessCleanup.ClimbIff | src/cli/cleanup.ts:245-252 | the search moves on iff the process is above init, runs no Codex and has a recorded parent that is neither 0 nor itself |
| ProcessCleanup.LastEntryWins | src/cli/cleanup.ts:237-243 | what is recorded of a pid is its last entry in the snapshot |
| ProcessCleanup.CurrentIsProtected | src/cli/cleanup.ts:257-283 | the process that runs the cleanup is always in the protected set |
| ProcessCleanup.SearchEndsIff | src/cli/cleanup.ts:245-252 | the search ends iff no pid occurs twice on the chain of recorded parents up to a Codex command, a missing or zero parent or a self-parent; then within as many rounds as there are pids |
| ProcessCleanup.SearchCanLoop | src/cli/cleanup.ts:245-252 | a snapshot on which it never ends |
| ProcessCleanup.BuildProtectedPidSet | src/cli/cleanup.ts:257-283 | exactly the protected session's descendants |
| ProcessCleanup.HasAncestorMatching | src/cli/cleanup.ts:214-231 | true iff some ancestor in the snapshot matches, cycles included |
| ProcessCleanup.GroupByKey | src/cli/cleanup.ts:285-300 | the insertion-ordered map holds every (parent, entrypoint) group in snapshot order |
| ProcessCleanup.GroupOfSort | src/cli/cleanup.ts:300-312 | sorting by pid and grouping commute |
| ProcessCleanup.SparesTheHighest | src/cli/cleanup.ts:302-310 | each group loses all members but one with the highest pid |
| ProcessCleanup.DuplicateIff | src/cli/cleanup.ts:285-312 | with every pid once, a process is a duplicate iff another one under the same parent, from the same entrypoint, has a higher pid |
| ProcessCleanup.FindDuplicateSiblings | src/cli/cleanup.ts:285-312 | per group all but the highest pid, nothing else, in pid order |
| ProcessCleanup.FindCleanupCandidates | src/cli/cleanup.ts:314-335 | exactly the duplicates and the orphans outside the protected session, never the current process, in pid order, none more often than in the snapshot |
| ProcessCleanup.SelectedIsServer | src/cli/cleanup.ts:314-335 | only server processes are selected, never the current one, inside the protected session only duplicates, and the reason says whether the parent is gone |
| ProcessCleanup.SelectedIff | src/cli/cleanup.ts:314-335 | with every pid once, a server process other than the current one is selected, for exactly one reason, iff it has a younger sibling or is outside the protected session |
| ProcessCleanup.AttachedIff | src/cli/cleanup.ts:214-231 | a process is attached iff a chain of recorded parents leads up from it to a Codex or OMX process |
| ProcessCleanup.FindLaunchSafeCandidates | src/cli/cleanup.ts:337-358 | of those, exactly the ones whose parent is gone or that have no Codex or OMX ancestor |
| ProcessCleanup.OrphansAreOutside | src/cli/cleanup.ts:314-335 | a candidate inside the protected session is a duplicate with a spared sibling, never an orphan |
| AuthStorage.MetadataIsSerial | src/auth/storage.ts:78-101 | for every interleaving with failures and crashes the metadata is the result of the completed operations in some sequential order, sorted, with unique names and a recorded current slot |
| AuthStorage.Serialisable | src/auth/storage.ts:78-203 | the order only ever grows: what has completed is never lost or reordered |
| AuthStorage.StoreIsSerial | src/auth/storage.ts:128-203 | one order of the operations that got to write explains all of the store: files and live credentials are what all of them make of the first ones, the metadata what the completed ones make of nothing |
| AuthStorage.AddedIsStored | src/auth/storage.ts:128-146 | a slot's file holds what the last operation to add the slot wrote |
| AuthStorage.UsedIsLive | src/auth/storage.ts:153-175 | the live credentials are those the last operation to use a slot found in its file |
| AuthStorage.ApplyKeepsWellFormed | src/auth/storage.ts:115-203 | every operation keeps records sorted and unique and the current slot recorded |
| AuthStorage.ApplyTouchesOneSlot | src/auth/storage.ts:115-126 | an operation changes the record of its own slot only |
| AuthStorage.ApplyMeans | src/auth/storage.ts:115-203 | the record of the slot after each operation, field by field, and the current slot |
| AuthStorage.RecordedIff | src/auth/storage.ts:115-203 | after any operations a slot has a record iff one of them added it, used it or met its quota |
| AuthStorage.ExhaustedIff | src/auth/storage.ts:153-203 | after any operations a slot is exhausted iff the last of its quota errors, uses and clearings is a quota error |
| AuthStorage.CurrentIsLastUsed | src/auth/storage.ts:153-175 | after any operations the current slot is the one used last |
| AuthStorage.OperationCompletes | src/auth/storage.ts:78-203 | from any state with a free lock an operation that is not disturbed takes effect and lets go of the lock; using a slot without credentials changes nothing |
| AuthStorage.LockIsOwned | src/auth/storage.ts:78-101 | only its owner lets go of the lock, on an error too, which keeps what is committed; who just stops leaves it behind |
| AuthStorage.Store.UpsertSlotRecord | src/auth/storage.ts:115-126 | updates the record or inserts it in order, and returns it |
| AuthStorage.Store.AddSlot | src/auth/storage.ts:128-146 | stores the credentials and the record |
| AuthStorage.Store.UseSlot | src/auth/storage.ts:153-175 | refuses a slot without credentials unchanged; otherwise makes it live and current and clears its exhaustion |
| AuthStorage.Store.MarkSlotQuota | src/auth/storage.ts:177-191 | marks the slot exhausted |
| AuthStorage.Store.ClearSlotExhaustion | src/auth/storage.ts:193-203 | clears the mark if the slot has a record |
| Rotation.SortSorts | src/auth/rotation.ts:14 | the slots are in order |
| Rotation.RoundRobinIsRotation | src/auth/rotation.ts:21-23 | the round-robin order is the sorted slots, once around from the current one |
| Rotation.RoundRobinFromTheFirst | src/auth/rotation.ts:21-23 | without a current slot among them round-robin takes all slots in order |
| Rotation.ManualPlanIsCurrent | src/auth/rotation.ts:15 | in manual mode the plan is the current slot alone, else the first available one, else empty |
| Rotation.PriorityComesFirst | src/auth/rotation.ts:16-20 | in priority mode the listed slots come first, as listed, and the others follow in order |
| Rotation.PlanCoversSlots | src/auth/rotation.ts:16-23 | except in manual mode a plan holds exactly the available slots |
| Rotation.PlanIsUnique | src/auth/rotation.ts:14-23 | a plan repeats a slot only if the slots or the priority list do |
| Rotation.NextSlotAfter | src/auth/rotation.ts:26-34 | the first slot after the current one, cyclically, that is not exhausted; none iff all are |
| Rotation.StartIsBehind | src/auth/rotation.ts:26-34 | the search for the next slot starts right behind the first place of the current one, or at the front |
| Rotation.NextIsNextDistinct | src/auth/rotation.ts:26-34 | when the first m distinct slots are exhausted and the last of them is current, the next is the m-th |
| Rotation.Settle | src/auth/hotswap.ts:337-371 | the way out of an attempt, or the slot to rotate to |
| Rotation.Hotswap | src/auth/hotswap.ts:320-378 | for any plan, duplicates included: the attempts use its distinct slots in order, each with arguments rebuilt from the original ones, record exactly the quota errors, and never reach the fall-through behind the loop |
| Rotation.AttemptsResume | src/auth/hotswap.ts:324-371 | the first attempt has the original arguments, one behind an invalid token those of the attempt before, one behind a used-up quota resumes the session of that attempt |
| Rotation.MarkedIff | src/auth/hotswap.ts:346-347 | exactly the slots whose attempt met a quota error are marked |
| Rotation.ExitIff | src/auth/hotswap.ts:338-375 | how the run ends, exactly, from its latest attempt, the mode and the number of slots tried |
| Rotation.UniquePlanIsFollowed | src/auth/hotswap.ts:320-378 | for a plan without duplicates attempt k uses its k-th slot, and "all slots exhausted" comes only after every planned slot failed |
| Rotation.DistinctHasNoDuplicates | src/auth/hotswap.ts:344-358 | no slot is tried twice |
| ResumeArgs.BuildResumeArgs | src/auth/hotswap.ts:226-255 | the loop computes the parse of the option list that the lemmas are about |
| ResumeArgs.CodexIsValid | src/auth/hotswap.ts:174-218 | the program's option tables satisfy what the proofs assume |
| ResumeArgs.ResolveIff | src/auth/hotswap.ts:197-218 | an argument is an option iff it is in the table, or a long name of it, `=` and a value, or a short name of it and a value; the value is attached in the last two cases |
| ResumeArgs.ReadSingle | src/auth/hotswap.ts:226-255 | an option that takes one value takes the next argument, whatever it is |
| ResumeArgs.ReadVariadic | src/auth/hotswap.ts:226-255 | a variadic option takes all arguments up to the next dashed one |
| ResumeArgs.ReadFlag | src/auth/hotswap.ts:226-255 | an option with an attached value, and an unknown one, is kept alone |
| ResumeArgs.ReadDropped | src/auth/hotswap.ts:226-255 | session selectors and arguments that belong to no option are dropped |
| ResumeArgs.DashedAreKept | src/auth/hotswap.ts:226-255 | every dashed argument but the selectors survives as often as it was given |
| ResumeArgs.KeptIsSubsequence | src/auth/hotswap.ts:226-255 | the kept arguments are a subsequence of those before `--` |
| ResumeArgs.ParseFlatten | src/auth/hotswap.ts:226-255 | every kept option keeps exactly its own values when the result is rewritten again |
| ResumeArgs.RebuildChangesIdOnly | src/auth/hotswap.ts:226-255 | rebuilding a rebuilt command line changes the session id and nothing else |
| ResumeArgs.RebuildIff | src/auth/hotswap.ts:226-255 | exactly the ids that are not dashed, or are selectors, can be rewritten any number of times |
| ResumeArgs.SuffixUnchanged | src/auth/hotswap.ts:226-255 | everything from `--` onward is unchanged |
| SandboxContract.FoldLines | src/autoresearch/contracts.ts:93-133 | the loop folds the line meanings; the section it writes to always exists, so that error cannot occur |
| SandboxContract.ParseFrontmatter | src/autoresearch/contracts.ts:93-133 | the same for the lines of a front matter |
| SandboxContract.LinesOfJoin | src/autoresearch/contracts.ts:97 | splitting undoes joining single lines |
| SandboxContract.LinesOfAnyEnds | src/autoresearch/contracts.ts:97 | the same with any mixture of line feeds and carriage returns before them |
| SandboxContract.FilledEntry | src/autoresearch/contracts.ts:98-130 | an entry line reads as its key and value with tabs expanded and outer quotes stripped, unless the value holds a line terminator |
| SandboxContract.ClassifyIff | src/autoresearch/contracts.ts:98-130 | a line is skipped iff it is blank or a comment, and read iff it is a key, a colon, spaces and a value without line terminator; without a value it is a section |
| SandboxContract.ClassifyIs | src/autoresearch/contracts.ts:98-100 | lines are read trimmed, tabs as blanks, and count as indented iff they start with either |
| SandboxContract.TabIsTwoBlanks | src/autoresearch/contracts.ts:98 | a tab counts as two blanks wherever it stands |
| SandboxContract.RefusedIff | src/autoresearch/contracts.ts:98-130 | lines are refused iff one is unsupported or indented where no section is open |
| SandboxContract.SectionHolds | src/autoresearch/contracts.ts:93-133 | a section holds exactly the entries of the block behind its last header |
| SandboxContract.FilledIs | src/autoresearch/contracts.ts:93-133 | of which the last of each key counts |
| SandboxContract.ExtractFramed | src/autoresearch/contracts.ts:82-91 | lines between two markers are extracted whole, whatever they say, if none but the first begins like the marker |
| SandboxContract.ExtractIff | src/autoresearch/contracts.ts:82-91 | any text: front matter is found iff it can be cut at a marker that opens it and a later line that begins with the marker, ends at the first such line, and the body is the trimmed rest |
| SandboxContract.AcceptedIff | src/autoresearch/contracts.ts:147-184 | an evaluator section is accepted iff it has a fitting policy, a command and the format JSON; which error is given otherwise; and what is returned |
| SandboxContract.ParseBuilt | src/autoresearch/contracts.ts:147-184 | what parsing a built text gives for every command and policy: the altered command under the chosen policy, or one of two errors |
| SandboxContract.RoundTripIff | src/cli/autoresearch-intake.ts:124-127 | a built text reads back as its command, JSON and its policy iff the command is plain |
| CanonicalJson.SortKeepsMeaning | src/capabilities/lockfile.ts:141-149 | sorting changes no value, at any depth |
| CanonicalJson.SortTwice | src/capabilities/lockfile.ts:141-149 | sorting is idempotent, whatever the comparison leaves tied |
| CanonicalJson.SortedOrder | src/capabilities/lockfile.ts:141-149 | in a sorted object array indices come first, by value, and other names follow in the order of the comparison |
| CanonicalJson.IndexIff | src/capabilities/lockfile.ts:144-148 | a key is an array index iff it is the decimal numeral of a number below 2^32 - 1 |
| CanonicalJson.SameTreeIff | src/capabilities/lockfile.ts:133-149 | two values, one without ties, are sorted to the same tree iff they are equal up to key order |
| CanonicalJson.CanonicalIff | src/capabilities/lockfile.ts:133-149 | the form is canonical for all values iff the comparison ties no two different names |
| CanonicalJson.TiedPairSplits | src/capabilities/lockfile.ts:145 | two tied names give one value two sorted forms |
| CanonicalJson.TiedIff | src/capabilities/lockfile.ts:144-148 | keys stay tied in property order iff neither is an array index and the comparison ties them |
| CanonicalJson.SortIsStable | src/capabilities/lockfile.ts:144-147 | sorting and then assembling an object orders by property order first and by the comparison where that does not decide |
| MissionQueue.CountsAddUp | src/cli/mission.ts:240-250 | the reported counts plus pending and running tasks add up to the total |
| MissionQueue.PassedIff | src/cli/mission.ts:252-259 | a mission is reported passed iff it has tasks and all passed |
| MissionQueue.StatusIff | src/cli/mission.ts:252-259 | each reported status, exactly when, by the counts |
| MissionQueue.ExecutesIff | src/cli/mission.ts:309-348 | a command executes exactly the tasks it is for, up to the first that fails unless it continues on errors; a run its first task, a rerun the first of the name |
| MissionQueue.CommandLeaves | src/cli/mission.ts:309-490 | what an uninterrupted command leaves of each task: passed or failed by its exit code, skipped, untouched, or planned by a dry run |
| MissionQueue.MarkMeans | src/cli/mission.ts:378-395 | marking changes the first task of the id to the status asked for and no other |
| MissionQueue.RefusedIff | src/cli/mission.ts:378-445 | exactly when each command is refused |
| MissionQueue.ListedIff | src/cli/mission.ts:309-348 | the executed tasks are reported, each once |
| MissionQueue.StartThenEnd | src/cli/mission.ts:328-346 | each executed task is written to disk twice in a row, started and ended |
| MissionQueue.StartShows | src/cli/mission.ts:328-346 | the first of the two writes shows it running, earlier tasks done with, later ones untouched |
| MissionQueue.FailureStopsThePass | src/cli/mission.ts:318-347 | without continue-on-error a pass executes at most one failing task, and every later selected task is skipped unexecuted |
| MissionQueue.RunsAreSound | src/cli/mission.ts:361-490 | over every sequence of commands and interruptions the summary on disk has fitting counts, at most one running task, exit codes that match the outcomes, and a status that matches or says running |
| MissionQueue.ResumeSparesSettled | src/cli/mission.ts:397-435 | resuming, interrupted or not, never executes or changes a passed, blocked or review-bound task and makes no task blocked |
| MissionQueue.ResumesSpareSettled | src/cli/mission.ts:397-435 | the same over any number of interrupted resumes; no task is lost |
| MissionQueue.ResumesConverge | src/cli/mission.ts:397-435 | after any interrupted resumes, one that runs through without failure leaves every unsettled task passed, and the mission passed iff none is blocked or review-bound |
| MissionQueue.RerunSparesOthers | src/cli/mission.ts:418-421 | rerunning a task changes no other, except that one found running counts as pending |
| MissionQueue.Mission.RunSelectedTasks | src/cli/mission.ts:309-348 | the loop leaves exactly the final tasks, the intermediate writes and the list of executed tasks of the pass |
| MissionQueue.Mission.Execute | src/cli/mission.ts:328-346 | writes the started task, then its outcome |
| MissionQueue.Mission.Resume | src/cli/mission.ts:397-435 | refused without a summary; otherwise writes exactly the pass over unsettled tasks |
| MissionQueue.Mission.Rerun | src/cli/mission.ts:397-435 | refused for an unknown task; otherwise writes exactly the pass over it |
| MissionQueue.Mission.Mark | src/cli/mission.ts:378-395 | marks the first task of that id and nothing else |
| MissionQueue.Mission.Run | src/cli/mission.ts:437-490 | plans only, or writes exactly the pass over all tasks; refused without tasks |

## Left out

- Surroundings: spawning, downloads and archives, git itself (HEAD is a value, references resolve through a function),
  file-system errors beyond present, absent and exists, symbolic links, chmod, fsync outcomes, path containment,
  timestamps' values, random names, lock waiting and stale-lock diagnostics, and all console text.
- Digests are injective and process ids are not reused while a journal exists.
- ClaimJournal: recovery is modelled for journals whose two paths are distinct, and no other process writes them during
  a run.
- ClaimJournal.Volume.Transact: the temporary file the successor is copied from, a staged copy of a deleted file, and the
  branch without a journal for paths outside the controlled root are not modelled; which validation fails is a parameter.
- NativeCache: hydration around publication (manifest, download, candidate choice) and writers that ignore the lock.
- NativeCache.ReadOpenedFile: a file that changes while it is read is not modelled beyond short reads.
- Redactor: text is a sequence of Unicode scalar values after decoding. The source counts UTF-16 units, so its limits of
  256 and 65536 are reached earlier by text outside the basic plane. The replacement of secrets inside a record is any
  function.
- Lower-casing is exact where its result can be an ASCII letter, which is all the compared words consist of; other
  letters are left as they are.
- Autoresearch: the results table, instruction files, and a crash between the ledger write and the manifest write.
- Autopilot: helper predicates whose code lies elsewhere (run outcome, lifecycle outcome, canonical artifact paths,
  handoff carriers) are parameters.
- AdaptiveSort: configuration loading, timing and the score.
- ProcessCleanup: reading process lists, signals and waiting; the Codex, OMX and entrypoint patterns are parameters.
- ProcessCleanup.BuildProtectedPidSet: requires that no pid repeats on the parent chain above the current process, since
  the program does not end otherwise.
- AuthStorage: parsing of a damaged metadata file. The lock is a directory created exclusively; taking over a stale
  lock does not occur in the source either.
- Rotation.Hotswap: slot names are not empty (src/auth/paths.ts:18-33); a slot whose credentials vanish between
  planning and use ends the run in the program and is not modelled; launch preparation and cleanup are not modelled.
- SandboxContract: a key named `__proto__`, which would set an object's prototype.
- CanonicalJson: the text layout of `JSON.stringify`, and values that JSON cannot express.
- MissionQueue: parsing of the mission file and of arguments, timestamps, the event ledger, and summaries damaged by a
  crash inside one write.
