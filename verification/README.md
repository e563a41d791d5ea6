# Verified model of redo

A Dafny model of the decision-making core of this redo implementation, with
proofs.  `dafny verify dfyconfig.toml` checks everything.

| file | what it models |
|---|---|
| `Common.dfy`, `FileState.dfy` | shared types; a row of `Files` and how it is read |
| `Dirtiness.dfy` | the dirtiness recursion without memoisation, and the graph closure that its Clean verdict means |
| `Verdicts.dfy` | what Dirty, MustBuild with its list and the cycle error mean, in terms of walks |
| `DirtyEngine.dfy` | `isdirty` as it runs: it rewrites rows and memoises in the table or in a set |
| `PlanCache.dfy` | `isdirty_readonly` with its three caches, and the planner feeding the build |
| `Jobserver.dfy` | one process's token counters |
| `TokenLedger.dfy` | the whole process tree: tokens are conserved, and where they are not |
| `Scheduler.dfy` | the two-pass `redo-ifchange` scheduler |
| `LockProtocol.dfy` | target locks across the process tree: the protocol and its invariant |
| `LockWaits.dfy` | exactly which locks can still be released and which waits can end |
| `LockCycles.dfy` | what REDO_CYCLES knows about the targets above a process |
| `InlineRebuild.dfy` | exactly when building a missing dependency inline deadlocks |
| `OneScript.dfy` | exactly when two scripts can come to build one target |
| `Pools.dfy` | job pools built from lock slots |
| `ActionKey.dfy` | the byte stream behind an action key is canonical |
| `DepsTable.dfy` | recording dependencies by mark and sweep |
| `ActionCache.dfy` | a cache hit against running the script |
| `CacheLookup.dfy` | when the lookup can be trusted, in terms of the tables |
| `FirstBuild.dfy` | crash points of a first build |
| `EditSafety.dfy` | files a user has edited: what counts as an edit, and that it is not overwritten |
| `UpToDate.dfy` | what a successful run leaves behind: every requested target in order |
| `RuleSearch.dfy` | candidates for a rule file and what the search records |
| `BlobStore.dfy` | the content-addressed store under concurrent writers |
| `Subgraph.dfy` | depth-bounded graph search |

State that the program updates in place is a class here, and its loops are
loops.  Protocols between processes are transition systems on values, and the
theorems about them hold for every finite run.  Whatever the environment decides
(who holds a lock, what a pipe holds, when a job ends, how much a read returns)
is left open.  SHA-256 is any collision-free function.  Calls that may wait for
ever are observed for any number of rounds (`patience`), and their claims hold
wherever the observation stops.

## Findings

- A local cache hit can be stale.  The key uses the stamps on disk, and
  `schedule_build_one` only rebuilds dependencies that are missing, not ones that
  are out of date.  When a generated dependency is dirty but not yet rebuilt, the
  old key still matches and the old output is installed
  (redo_core/src/builder.rs:795-894).  `CacheLookup.StaleHit` gives the tables;
  `CacheLookup.LookupSafeIff` says exactly when the lookup is safe: when
  redo-ifchange would leave every 'm' dependency alone.  After such a hit the
  target is still not Clean (`CacheLookup.HitStaysDirty`, and in general
  `UpToDate.StaleRowStaysDirty`).
- A dependency cycle through an out-of-band job is not reported but deadlocks.
  `start_redo_unlocked_job` does not add the target to REDO_CYCLES
  (redo_core/src/builder.rs:1594-1640), so a process below it that asks for the
  target waits for a lock held above it, for ever: `LockCycles.UnreportedCycle`.
  It happens exactly below a fix-up redo (`LockCycles.BlocksOnAncestorIff`); for
  scripts the cycle check does its work.
- The inline rebuild of missing dependencies (redo_core/src/builder.rs:799-846)
  can deadlock although dependencies are acyclic, at two points.
  - `build_one` waits for the dependency's lock with locks of its own.  The wait can
    end exactly when that lock does not wait, through other jobs, for a lock of the
    process itself (`InlineRebuild.InlineWaitEndsIff`); a run in which it does is
    `InlineRebuild.InlineRebuildDeadlocks`.
  - It then keeps that lock while it waits for all its jobs
    (redo_core/src/builder.rs:1822).  That can end exactly when no other job of the
    process waits, through others, for that lock or for the target in hand
    (`InlineRebuild.DrainEndsIff`).  Two targets with a missing dependency in common,
    asked for together, are enough: `InlineRebuild.SharedMissingDeadlocks`.

  With several inline rebuilds at once, and whatever the dependencies, a lock can be
  released exactly when what it needs does not run into a cycle
  (`LockWaits.ReleasableIff`).
- `run_ifchange` can return in its first pass while jobs are running
  (redo_core/src/builder.rs:2199-2303).  The locks go with the process and the
  scripts run on, so another process may build the same target at the same time
  (`OneScript.TwoScripts`).  From any state on this can happen exactly when a script
  left behind still runs (`OneScript.OneScriptIff`).
- `force_return_tokens` keeps the number of tokens exactly when the process has a
  token in hand or gives up more jobs than it has cheated for and owes
  (`TokenLedger.ForceExitKeepsLedgerIff`, `TokenLedger.ForcedExitLeaks`).  No code
  in the repository calls it.  The plain exit keeps it exactly when tokens and jobs
  make one more than the cheats (`TokenLedger.PlainExitKeepsLedgerIff`).
- So the error "token accounting mismatch on exit" can be reached: a nested redo
  cheats once and exits (`TokenLedger.CheatThenMismatch`).  A quiescent top-level
  drain raises it exactly when what leaked earlier and what the top released without
  having it do not add up to nothing; a drain that itself consumes cheat bytes counts
  as a leak, because all tokens are written back (`TokenLedger.DrainFindsLeaks`).
- `destroy_tokens` has a debug assertion that MYTOKENS stays non-negative.  It
  holds in `start`.  In `force_return_tokens` it holds exactly when tokens and jobs
  cover the cheats (`Jobserver.Process.ForceReturnTokens`), and a process can get
  into a state where they do not (`TokenLedger.ReturnAssertionFails`).
- A target stops being in order when a file that something below it declared with
  redo-ifcreate is built later in the same run (`UpToDate.CreatedUnderHappens`); it
  stays in order exactly otherwise (`UpToDate.OthersKeptIff`).
- For a target directly under the root directory the rule search lists its
  candidates twice (`RuleSearch.MostSpecificFirstIff`).

## Model

| member | source | states |
|---|---|---|
| `Dirtiness.CleanIff` | redo_core/src/deps.rs:38-129 | Clean holds exactly when the change is within the limit, every file reachable over 'm' rows is unfailed, recorded, stamp-equal to disk, without existing 'c' deps or too-new 'm' deps and not on a cycle, and none of them is on the path walked |
| `Dirtiness.CleanSound` | redo_core/src/deps.rs:86-128 | a Clean verdict vouches for the whole closure |
| `Dirtiness.CleanComplete` | redo_core/src/deps.rs:86-128 | a closure in order is found Clean |
| `Dirtiness.MemoHit` | redo_core/src/deps.rs:61-63 | a node whose closure is in order may be answered Clean from a memo, whatever path led to it |
| `Dirtiness.CycleErrorIsReal` | redo_core/src/deps.rs:46-48 | a cycle error implies a reachable node on an 'm' cycle |
| `Dirtiness.MustBuildMeaning` | redo_core/src/deps.rs:79-121 | a MustBuild list is not empty and holds only reachable checksummed files whose closure is not in order |
| `Dirtiness.BuiltIsClean` | redo_core/src/builder.rs:1885-1940 | no needless rebuild: a row recorded this run whose dependencies are settled and not newer than it is found Clean |
| `Dirtiness.ChangeSeenByDependents` | redo_core/src/deps.rs:38-129 | no missed rebuild: one file out of order makes every file that reaches it non-Clean, whatever the limit and path |
| `Verdicts.VerdictMeaning` | redo_core/src/deps.rs:38-129 | unless the answer is a cycle error: Dirty exactly for a walk of passing files without checksum down to one that is broken or sees a created file; the MustBuild list is exactly the undecided checksummed files that walks of passing, unalarmed files end at |
| `Verdicts.MustBuildIff` | redo_core/src/deps.rs:79-121 | and there is a MustBuild verdict exactly when there is such a file |
| `Verdicts.ChecksumNeverDirty` | redo_core/src/deps.rs:69-117 | an unfailed file recorded within the limit with a stamp and a checksum is never simply Dirty |
| `Verdicts.CycleIff` | redo_core/src/deps.rs:46-51 | with everything reachable in order by itself, a cycle error exactly when something reachable is on an 'm' cycle or on the path |
| `Verdicts.RowCleanIff` | redo_core/src/deps.rs:98-101 | an 'm' row is Clean exactly when the dependency has not changed since the file was last changed or last checked and is in order off the path |
| `Verdicts.SourceStandsAlone` | redo_core/src/state.rs:611-615 | a source or an overridden file is Clean exactly when it passes its own tests off the path, whatever rows it has |
| `Verdicts.AlwaysNotClean` | redo_core/src/state.rs:407-424 | a target with an 'm' row on `//ALWAYS` is not Clean until changed or checked in this run |
| `DirtyEngine.Engine.constructor` | redo_core/src/deps.rs:131-143 | a fresh engine over a snapshot, with an optional preflight set |
| `DirtyEngine.Engine.Save` | redo_core/src/state.rs:450-464 | the row is replaced and stays a legitimate descendant of the snapshot |
| `DirtyEngine.Engine.SetChecked` | redo_core/src/state.rs:466-473 | the two `set_checked` callbacks: save the run id, or remember the id |
| `DirtyEngine.Engine.ReadDeps` | redo_core/src/state.rs:611-638 | rows read now line up with the snapshot's rows, up to what the walk may have written |
| `DirtyEngine.Engine.IsDirty` | redo_core/src/deps.rs:38-129 | while rewriting rows and converting exactly the targets found gone, gives the verdict and MustBuild ids of the unmemoised recursion over the snapshot; a Clean file is marked, and marks stay |
| `DirtyEngine.Engine.CheckRow` | redo_core/src/deps.rs:88-102 | one dependency row, possibly read before later writes, gets its snapshot verdict |
| `DirtyEngine.Engine.CheckRows` | redo_core/src/deps.rs:86-128 | the loop over the rows agrees with the snapshot's loop; a file is marked exactly when it is found Clean |
| `DirtyEngine.QueryAll` | redo_core/src/deps.rs:131-143 | every sequence of queries over one table gets the unmemoised answers and leaves every Clean file marked, for the table memo with a preflight set and for redo-ood's set |
| `PlanCache.Cache.constructor` | redo_core/src/deps.rs:149-154 | the caches start empty |
| `PlanCache.Cache.ReadStampCached` | redo_core/src/deps.rs:173-179 | the cached stamp is the stamp |
| `PlanCache.Cache.DepsCached` | redo_core/src/deps.rs:181-188 | the cached rows are the rows |
| `PlanCache.Cache.IsDirtyReadonly` | redo_core/src/deps.rs:206-289 | exactly the verdict, list and cycle error of the uncached recursion; Clean ids and only settled ones enter the checked set |
| `PlanCache.Plan` | bins/src/redo.rs:461-491 | every sequence of planning queries gets the uncached answers; the ids handed on include every Clean one and are settled |
| `PlanCache.PlanThenBuild` | bins/src/redo.rs:404-414 | planning, installing the preflight set and asking the writing form gives the same verdicts and MustBuild ids |
| `Jobserver.Process.constructor` | redo_core/src/jobserver.rs:20-24 | a process starts with one token and no cheats |
| `Jobserver.Process.CreateTokens` | redo_core/src/jobserver.rs:73-83 | new tokens first pay back cheats |
| `Jobserver.Process.DestroyTokens` | redo_core/src/jobserver.rs:85-90 | takes that many tokens; the assertion holds exactly when they were in hand |
| `Jobserver.Process.Release` | redo_core/src/jobserver.rs:92-109 | tokens go to cheats first, then to the pipe; the balance is kept |
| `Jobserver.Process.ReleaseMine` | redo_core/src/jobserver.rs:115-117 | gives up one token, below zero if there was none; the balance is kept |
| `Jobserver.Process.ReleaseExceptMine` | redo_core/src/jobserver.rs:119-126 | at most one token is kept; the balance is kept |
| `Jobserver.Process.Setup` | redo_core/src/jobserver.rs:150-224 | adopts the parent's pipes, or stocks new ones so that the balance grows to the number of jobs; broken inherited pipes are an error |
| `Jobserver.Process.Reap` | redo_core/src/jobserver.rs:312-341 | a finished job's token comes back or cancels a cheat byte; the balance is kept |
| `Jobserver.Process.Wait` | redo_core/src/jobserver.rs:280-343 | any number of jobs reaped; balance and one-token bound kept, no token taken from the pipe, nothing changed without a reaped job |
| `Jobserver.Process.EnsureToken` | redo_core/src/jobserver.rs:345-365 | returns with a token, after one bounded round, or after a byte when below zero, unless cut; nothing happens with a token in hand; without jobs only a byte can be taken |
| `Jobserver.Process.EnsureTokenOrCheat` | redo_core/src/jobserver.rs:371-394 | returns with a token and not before, unless cut; nothing happens with one in hand; the cheat function is asked only with no job left, its first yes and only that makes one cheat |
| `Jobserver.Process.Start` | redo_core/src/jobserver.rs:396-449 | starts exactly when flushed with a token; MYTOKENS == 1 then holds; the token becomes the job's |
| `Jobserver.Process.WaitAll` | redo_core/src/jobserver.rs:451-495 | no job is left, unless cut; the token is given up before waiting; at the top level the drain succeeds exactly when tokens minus cheats is TOPLEVEL; how the balance moves |
| `Jobserver.Process.ForceReturnTokens` | redo_core/src/jobserver.rs:497-512 | jobs and surplus tokens are given up and cheats become cheat bytes; the assertion inside holds exactly when tokens and jobs cover the cheats |
| `Jobserver.Process.Make` | redo_core/src/jobserver.rs:111-495 | any one public call keeps the one-token bound; a job is started exactly from one token |
| `Jobserver.Session` | redo_core/src/jobserver.rs:111-495 | over every sequence of public calls MYTOKENS is at most 1 at each boundary, a job starts only from exactly one token, and MYTOKENS is negative only after a `release_mine` without a token |
| `TokenLedger.LedgerIsTally` | redo_core/src/jobserver.rs:73-126 | the ledger over unrepresented jobs equals jobs minus nested redos |
| `TokenLedger.StepTally` | redo_core/src/jobserver.rs:280-512 | every step of the process tree moves the ledger by exactly its leak |
| `TokenLedger.StepInv` | redo_core/src/jobserver.rs:280-512 | every step keeps MYTOKENS at most 1, cheats non-negative, the root without cheats and the nesting well formed |
| `TokenLedger.InitLedger` | redo_core/src/jobserver.rs:201-209 | after setup the ledger is TOPLEVEL |
| `TokenLedger.LedgerTheorem` | redo_core/src/jobserver.rs:73-512 | over every run the ledger is TOPLEVEL plus what exits and drains leaked |
| `TokenLedger.ForceExitKeepsLedgerIff` | redo_core/src/jobserver.rs:497-512 | a forced exit keeps the ledger exactly when the process has a token or gives up more jobs than its cheats and debts; otherwise it raises it, by one if nothing is owed |
| `TokenLedger.PlainExitKeepsLedgerIff` | bins/src/redo_ifchange.rs:308-322 | an exit without `force_return_tokens` keeps the ledger exactly when tokens and jobs make one more than the cheats |
| `TokenLedger.RunningMoves` | redo_core/src/jobserver.rs:396-449 | a script counts as running from its start until it ends or a redo starts in it |
| `TokenLedger.ParallelismBound` | redo_core/src/jobserver.rs:396-449 | running scripts never exceed TOPLEVEL plus cheats outstanding and in the pipe, leaks, tokens released without being there, and redos whose owner left first |
| `TokenLedger.DrainFindsLeaks` | redo_core/src/jobserver.rs:464-491 | at a quiescent drain the mismatch error is raised exactly when the net leak and what the top owes do not add up to nothing |
| `TokenLedger.DrainThenDrain` | redo_core/src/jobserver.rs:464-491 | after a drain that balanced, the next one counts too much by the cheat bytes that were consumed |
| `TokenLedger.FailedDrainEmpties` | redo_core/src/jobserver.rs:464-491 | a drain that did not balance leaves both pipes empty |
| `TokenLedger.FirstDrainSucceeds` | redo_core/src/jobserver.rs:451-495 | with every exit covering what it owes, forced or not, the first drain finds TOPLEVEL exactly when the top owes no token |
| `TokenLedger.OrderlyParallelismBound` | redo_core/src/jobserver.rs:396-449 | in such a run the bound on running scripts needs no leak term |
| `TokenLedger.ForcedExitLeaks` | redo_core/src/jobserver.rs:497-512 | a reachable state in which a forced exit makes up a token |
| `TokenLedger.CheatThenMismatch` | redo_core/src/jobserver.rs:371-495 | a reachable quiescent state in which the drain counts one token too many, after one cheat and a plain exit |
| `TokenLedger.ReturnAssertionFails` | redo_core/src/jobserver.rs:85-90 | a reachable state in which the assertion inside `force_return_tokens` fails |
| `Scheduler.Scheduler.constructor` | redo_core/src/builder.rs:2194-2197 | all requested targets start unvisited |
| `Scheduler.Scheduler.TryLock` | redo_core/src/state.rs:736-768 | refuses a lock object already in use, reports a cycle for an ancestor's target, otherwise busy or owned; notes which |
| `Scheduler.Scheduler.WaitlockThenUnlock` | redo_core/src/builder.rs:2430-2432 | is only reached owning no target lock and no pool slot |
| `Scheduler.Scheduler.JobDone` | redo_core/src/builder.rs:1245-1581 | frees slot and lock, records the outcome, and raises the flag on failure |
| `Scheduler.Scheduler.WaitAll` | redo_core/src/builder.rs:2307-2313 | every running job becomes resolved, nothing else moves |
| `Scheduler.Scheduler.OwnsNothing` | redo_core/src/builder.rs:2308-2311 | with no job running and no lock in hand the process owns nothing |
| `Scheduler.Scheduler.RebuildMissing` | redo_core/src/builder.rs:797-846 | each wait for a missing dependency owns the lock of the target being scheduled; the target stays in hand |
| `Scheduler.Scheduler.ScheduleBuildOne` | redo_core/src/builder.rs:624-1585 | what it comes to decides where the target goes: resolved, to a job with its lock, back unlocked because the pool is full, or dropped with an error |
| `Scheduler.Scheduler.Examine` | redo_core/src/builder.rs:2235-2291 | the verdict and what the build comes to decide where the target goes; exactly an error ends the run, with the lock dropped |
| `Scheduler.Scheduler.ExamineAfterWait` | redo_core/src/builder.rs:2441-2496 | the same, with failure elsewhere recorded as such |
| `Scheduler.Scheduler.VisitOne` | redo_core/src/builder.rs:2222-2300 | a visited target is queued, running or resolved, or the run ends: with 208 exactly for a cycle, with an error exactly for a refused lock or a failed check or build |
| `Scheduler.Scheduler.FirstPass` | redo_core/src/builder.rs:2199-2303 | with no failure, or with keep-going, every distinct target is visited once; an early end has its reason and leaves something unresolved |
| `Scheduler.Scheduler.RetryPooled` | redo_core/src/builder.rs:2324-2406 | the head of the pool queue moves to exactly one place; an early end is an error with its reason |
| `Scheduler.Scheduler.AcquireByWaiting` | redo_core/src/builder.rs:2408-2435 | the lock is taken, blocking only while owning nothing, or refused, or the observation ends after `patience` waits |
| `Scheduler.Scheduler.WaitLocked` | redo_core/src/builder.rs:2408-2496 | the head of the locked queue moves to exactly one place, or the run ends early with its reason |
| `Scheduler.Scheduler.SecondPass` | redo_core/src/builder.rs:2305-2502 | it ends with the result flag and no job left, all resolved unless a failure stops it, or early with a reason and something unresolved |
| `Scheduler.RunIfchange` | redo_core/src/builder.rs:2104-2502 | 0 exactly when all requested targets were resolved successfully; with all resolved otherwise 2 or 1, by whether a failed target had failed elsewhere; every other end has its reason (204, 205, 208, error); wherever it stops each target is in exactly one place, outcomes follow from what was seen last, no target being built above is touched, no target is taken up after a failure without keep-going, and waits own nothing unless for a missing dependency |
| `LockProtocol.StepInv` | redo_core/src/builder.rs:2199-2502 | every step, out-of-band jobs, fix-up redos and inline rebuilds included, keeps the invariant: locks belong to jobs, to the target in hand or to its missing dependency, requests lie along dependencies |
| `LockProtocol.ReachableInv` | redo_core/src/builder.rs:2199-2502 | the invariant holds in every reachable state |
| `LockProtocol.WaitersOwnNothing` | redo_core/src/builder.rs:2408-2435 | in every reachable state a blocked process owns a lock exactly when it waits in an inline rebuild |
| `LockProtocol.WaitsAreDependencies` | redo_core/src/builder.rs:2111-2121 | the job of one lock waits for another only along dependencies: for a script along one, or two when the second is missing |
| `LockProtocol.WaitsForAcyclic` | redo_core/src/builder.rs:2305-2435 | with acyclic dependencies jobs do not wait for locks in a cycle |
| `LockWaits.ReleasableIff` | redo_core/src/state.rs:770-801 | in every reachable state a lock can still be released exactly when what it needs does not run into a cycle |
| `LockWaits.WaitEndsIff` | redo_core/src/state.rs:770-782 | a wait, in the scheduler or inline, can end exactly when the lock is not doomed in that sense |
| `LockWaits.DoomedForEver` | redo_core/src/state.rs:770-782 | a doomed lock is never released and nobody waiting for it goes on, in any continuation |
| `LockWaits.NoneDoomed` | redo_core/src/builder.rs:2305-2435 | with acyclic dependencies and no inline rebuild going on, every lock can be released |
| `LockWaits.NoDeadlock` | redo_core/src/builder.rs:2305-2435 | some process or job can then always go on |
| `LockCycles.CyclesUpTo` | redo_core/src/builder.rs:293-300 | REDO_CYCLES holds exactly what the jobs above a process added to it |
| `LockCycles.CyclesExact` | redo_core/src/cycles.rs:8-24 | a target being built above a process is in REDO_CYCLES exactly when the process runs in its script and not in an out-of-band fix-up |
| `LockCycles.HandsAboveKnown` | redo_core/src/builder.rs:808-814 | a target whose missing dependency is being built above a process is in it too |
| `LockCycles.CyclesAreLocked` | redo_core/src/builder.rs:293-300 | REDO_CYCLES names only targets that are locked |
| `LockCycles.FixupsAlternate` | bins/src/redo_unlocked.rs:26-31 | between two fix-ups above a process there is always a script |
| `LockCycles.BlocksOnAncestorIff` | redo_core/src/cycles.rs:26-32 | a process asking for a target being built above it waits for the lock, instead of reporting the cycle, exactly below a fix-up |
| `LockCycles.AncestorWaitsAreOutOfBand` | redo_core/src/builder.rs:1594-1640 | whoever waits for a lock held above waits for that of an out-of-band job |
| `LockCycles.AncestorWaitIsForEver` | redo_core/src/builder.rs:2408-2435 | such a wait never ends, whatever the other processes do |
| `LockCycles.UnreportedCycle` | redo_core/src/builder.rs:1594-1640 | a run that gets there: a checksummed dependency whose script asks for the target |
| `InlineRebuild.InlineWaitEndsIff` | redo_core/src/builder.rs:799-846 | with acyclic dependencies and no other inline rebuild going on, the wait for a missing dependency can end exactly when its lock does not wait, through jobs, for a lock of the waiting process |
| `InlineRebuild.DrainEndsIff` | redo_core/src/builder.rs:1642-1822 | with acyclic dependencies and no other inline rebuild going on, the lock of a missing dependency being built can be released exactly when no other job of the process waits, through jobs, for it or for the target in hand |
| `InlineRebuild.InlineRebuildDeadlocks` | redo_core/src/builder.rs:799-846 | a run with acyclic dependencies after which an inline wait never ends |
| `InlineRebuild.SharedMissingDeadlocks` | redo_core/src/builder.rs:1822-1822 | a run in which two targets share a missing dependency and its lock is never released |
| `OneScript.StepInv` | redo_core/src/builder.rs:2199-2303 | a script whose process is alive runs under that process's lock and alone, whatever the order of calls and exits |
| `OneScript.OneScriptIff` | redo_core/src/builder.rs:2199-2303 | from every reachable state, as long as nobody exits with scripts running, no target gets two scripts exactly when no script has been left behind |
| `OneScript.OneScriptAtATime` | redo_core/src/state.rs:736-817 | with no such exit at all, no target ever has two scripts |
| `OneScript.OrphansAppearIff` | redo_core/src/builder.rs:2199-2303 | a script is left behind exactly by the exit of its process |
| `OneScript.TwoScripts` | redo_core/src/builder.rs:2199-2303 | a run in which one target has two scripts |
| `Pools.SlotsDistinct` | redo_core/src/builder.rs:494-505 | slot ids are equal exactly for the same bucket and slot |
| `Pools.SlotsApart` | redo_core/src/builder.rs:474-505 | slot ids never meet target or log lock ids below the magic bases |
| `Pools.Locks.constructor` | redo_core/src/state.rs:30-38 | a process starts with no lock in its table |
| `Pools.Locks.NewLock` | redo_core/src/state.rs:736-745 | refused exactly for a byte this process already owns |
| `Pools.Locks.TryLock` | redo_core/src/state.rs:755-768 | granted exactly when no other process owns the byte |
| `Pools.Locks.DropLock` | redo_core/src/state.rs:803-817 | gives the byte back if it was owned, and forgets the object |
| `Pools.Locks.TryAcquirePool` | redo_core/src/builder.rs:552-573 | takes the first slot that nobody owns, this process included; none means all are owned and nothing changed |
| `Pools.StepInv` | redo_core/src/builder.rs:552-573 | in every interleaving holders own distinct slots of their pool |
| `Pools.PoolBound` | redo_core/src/builder.rs:552-573 | at most d holders under a declared depth of d, counting all pools that share a bucket |
| `Pools.NamedPoolBound` | redo_core/src/builder.rs:552-573 | at most d holders of one pool name |
| `ActionKey.FieldPrefix` | redo_core/src/action_cache.rs:106-110 | a length-prefixed field can be split off in one way only |
| `ActionKey.SortedCanonical` | redo_core/src/action_cache.rs:116-116 | sorting gives equal lists exactly for equal sets of rows |
| `ActionKey.HashEntries` | redo_core/src/action_cache.rs:124-137 | hashes all rows, or stops with no key exactly when one is `//ALWAYS` |
| `ActionKey.ComputeKey` | redo_core/src/action_cache.rs:112-184 | eligible exactly without `//ALWAYS`, and then hashes the canonical stream |
| `ActionKey.PolicySeparated` | redo_core/src/action_cache.rs:148-160 | keys with and without a policy, or with different policies, never share a stream |
| `ActionKey.CanonicalKey` | redo_core/src/action_cache.rs:106-184 | equal streams exactly for equal policy, target and set of (mode, name, stamp), whatever the row order |
| `DepsTable.Table.constructor` | redo_core/src/state.rs:123-127 | the table starts empty |
| `DepsTable.Table.ZapDeps1` | redo_core/src/state.rs:640-645 | marks the target's rows and deletes none |
| `DepsTable.Table.ZapDeps2` | redo_core/src/state.rs:647-652 | no marked row of the target is left |
| `DepsTable.Table.AddDep` | redo_core/src/state.rs:654-660 | the row is there with the mode given and outlives a sweep of its target |
| `DepsTable.Table.Rebuild` | redo_core/src/state.rs:640-661 | marking, any interleaved calls and the sweep, run on the table: old plus new sources before the sweep, exactly the new ones with their last mode after it, other targets as if it had not happened |
| `DepsTable.BetweenZaps` | redo_core/src/state.rs:640-661 | between mark and sweep, under any interleaving, the sources are old plus new |
| `DepsTable.AfterSweep` | redo_core/src/state.rs:640-661 | afterwards exactly the newly added sources remain, with the last mode given |
| `DepsTable.OthersUntouched` | redo_core/src/state.rs:640-661 | every other target's rows are as if the cycle had not happened |
| `ActionCache.RunUnique` | redo_core/src/builder.rs:1230-1244 | a deterministic script has at most one run in a world |
| `ActionCache.RecordedIsTable` | redo_core/src/builder.rs:1392-1392 | what a run records is what mark and sweep leaves in the table |
| `ActionCache.EntriesExplained` | redo_core/src/builder.rs:1444-1476 | in every reachable cache each entry stems from a finished build under its own trace |
| `ActionCache.HitIsRun` | redo_core/src/builder.rs:795-894 | a hit is the output of a run of the script under the stamps on disk, with the same recorded rows |
| `ActionCache.HitMatchesRun` | redo_core/src/builder.rs:795-894 | whatever running the script under those stamps gives, the hit gives |
| `ActionCache.HitsRightIff` | redo_core/src/builder.rs:797-894 | against a run that sees other stamps, every hit of every script and reachable cache gives its output and rows exactly when all recorded stamps are already those |
| `ActionCache.OneStaleStamp` | redo_core/src/builder.rs:797-894 | one recorded stamp out of date, and some script and cache give a wrong hit |
| `CacheLookup.LookupSafeIff` | redo_core/src/builder.rs:797-846 | whatever asking may rebuild, hits are right exactly when redo-ifchange would leave every 'm' row of the target alone (Clean, override or static) |
| `CacheLookup.EditedIsLeftAlone` | redo_core/src/builder.rs:659-700 | an edited file and a source file are left alone; an unedited target exactly when it is Clean |
| `CacheLookup.CleanRowsSafe` | redo_core/src/builder.rs:797-894 | with every 'm' row Clean the hit is right |
| `CacheLookup.StaleHit` | redo_core/src/builder.rs:797-894 | tables in which the target and a dependency on disk are Dirty, and a hit that is not what the script would give |
| `CacheLookup.HitStaysDirty` | redo_core/src/builder.rs:857-890 | after that hit the target is still not Clean |
| `FirstBuild.CrashSafe` | redo_core/src/builder.rs:1671-1940 | after a crash at any point before the final commit a visible output is known as generated, the target is Dirty and the rule is run again |
| `FirstBuild.WithoutIntentIff` | redo_core/src/builder.rs:63-74 | in every run of the protocol without the committed intent, a visible output is taken for a source after a crash exactly when the script has not called redo-stamp |
| `FirstBuild.WithoutIntent` | redo_core/src/builder.rs:63-74 | such a run: insert, start, rename, crash |
| `EditSafety.EditedIff` | redo_core/src/state.rs:293-300 | a file counts as edited exactly when its modification time or its size differs, whatever else in the stamp does |
| `EditSafety.EditIsSafe` | redo_core/src/builder.rs:1671-1691 | an edited file is never overwritten, whatever the other columns hold |
| `EditSafety.SourceIsSafe` | redo_core/src/builder.rs:1671-1704 | nor is a file that is no target or was found edited before |
| `EditSafety.UneditedIsBuilt` | redo_core/src/builder.rs:1671-1708 | a target that nobody edited is built when it has to be |
| `EditSafety.StampEndsOverride` | bins/src/redo_stamp.rs:45-65 | a target that was stamped is a target again, overridden before or not |
| `EditSafety.StampSparesDependents` | bins/src/redo_stamp.rs:45-65 | dependents see a change exactly when the checksum is a new one |
| `EditSafety.MissingIsBuilt` | redo_core/src/builder.rs:1671-1708 | and so is anything that is not there |
| `EditSafety.EditStaysSafe` | redo_core/src/state.rs:505-510 | once recorded, an edit stays safe through every later run and every further edit until the file is gone; then the rule is run |
| `EditSafety.OverrideIsSource` | redo_core/src/state.rs:611-615 | in between it is Clean exactly while it stays as it was recorded |
| `UpToDate.ResolvedSettledIff` | redo_core/src/builder.rs:1885-1940 | a target resolved in this run is in order exactly when its 'c' files are absent and its 'm' files are in order and do not lead back to it |
| `UpToDate.OthersKeptIff` | redo_core/src/deps.rs:86-128 | resolving one target keeps another one in order, exactly unless the first now exists and something below the second declared that it must not |
| `UpToDate.CreatedUnderHappens` | redo_core/src/deps.rs:86-128 | tables before and after building a file that another one declared absent: Clean before, not Clean after |
| `UpToDate.EventSettlesIff` | redo_core/src/builder.rs:2235-2291 | one resolution, by a script or a cache hit, keeps everything resolved before in order and adds its target, exactly when it creates nothing declared absent and its own rows are in order |
| `UpToDate.ResolutionSettlesIff` | redo_core/src/builder.rs:1885-1940 | the same for any resolution of a file that was not in order |
| `UpToDate.AskedRowsInOrder` | redo_core/src/builder.rs:1885-1940 | rows of a script that stops at a failing redo-ifchange are in order |
| `UpToDate.RunSettlesIff` | redo_core/src/builder.rs:2104-2502 | over every run, all that was resolved stays in order throughout exactly when every resolution is harmless in that sense |
| `UpToDate.RequestedAreClean` | redo_core/src/builder.rs:2104-2502 | after a run of such resolutions in which every requested target was resolved, over any interleaving, each of them is Clean |
| `UpToDate.StaleRowStaysDirty` | redo_core/src/builder.rs:797-894 | resolving an existing target over an 'm' file that is out of date leaves it not Clean |
| `RuleSearch.DefaultDoFiles` | redo_core/src/paths.rs:12-26 | the triples for every split of the file name at a dot |
| `RuleSearch.DefaultSplitsName` | redo_core/src/paths.rs:15-23 | base and extension make up the file name, and the rule file is named after the extension |
| `RuleSearch.DefaultsInOrder` | redo_core/src/paths.rs:15-25 | the longest extension comes first, the empty one last |
| `RuleSearch.DefaultsIff` | redo_core/src/paths.rs:12-26 | the triples are exactly the splits into a base and an extension that is empty or starts with a dot |
| `RuleSearch.NormalizeJoin` | redo_core/src/paths.rs:87-118 | the loop resolves the joined path; components are proper names and normalise to themselves |
| `RuleSearch.NormalConcat` | redo_core/src/paths.rs:87-118 | components are resolved one after the other |
| `RuleSearch.DotDotCancels` | redo_core/src/paths.rs:101-105 | a component followed by ".." is as if neither were there |
| `RuleSearch.DotDotAtRoot` | redo_core/src/paths.rs:101-105 | there is nothing above the root |
| `RuleSearch.DotMeansNothing` | redo_core/src/paths.rs:87-118 | "." and empty components mean nothing |
| `RuleSearch.ResolvedFrom` | redo_core/src/paths.rs:87-118 | an absolute path stands for itself, any other goes on from the directory |
| `RuleSearch.ResolvedFromParent` | redo_core/src/paths.rs:87-118 | "../" in front goes on from the directory above |
| `RuleSearch.PossibleDoFiles` | redo_core/src/paths.rs:28-76 | the exact rule file first, then the walk up from the target's directory |
| `RuleSearch.CandidatesDenoteTarget` | redo_core/src/paths.rs:45-73 | every walked candidate, resolved from its own directory, denotes the normalised target |
| `RuleSearch.CandidatesIff` | redo_core/src/paths.rs:45-73 | the walked candidates are exactly default<ext>.do for every extension in the target's directory and every one above |
| `RuleSearch.MostSpecificFirstIff` | redo_core/src/paths.rs:45-73 | candidates come most specific first, nearer directories and then longer extensions, exactly for targets below a directory |
| `RuleSearch.RootListsTwice` | redo_core/src/paths.rs:45-73 | for a target directly under the root the list is the same candidates twice |
| `RuleSearch.FindDo` | redo_core/src/builder.rs:440-466 | the first existing candidate, recorded 'm' and marked static, after a 'c' row for each candidate before it |
| `RuleSearch.CreatedMakesDirty` | redo_core/src/deps.rs:87-117 | a recorded 'c' dependency that has come to exist makes the target non-Clean |
| `RuleSearch.EarlierCandidateNoticed` | redo_core/src/builder.rs:440-466 | from the search, through the script's own declarations and the sweep, to a later check: creating any earlier candidate that the script did not declare itself makes the target non-Clean, also when several spellings of a path share a row |
| `BlobStore.StepInv` | bins/src/redo_cache_server.rs:590-653 | every step of any writer keeps visible blobs under their digest and temporary files private |
| `BlobStore.BlobIntegrity` | bins/src/redo_cache_server.rs:120-209 | in every interleaving a visible blob's content has the digest it is filed under |
| `BlobStore.FiledAsDeclared` | bins/src/redo_cache_server.rs:590-653 | in every interleaving a writer files exactly what it received, under its digest and the key it declared |
| `BlobStore.RefusedIff` | bins/src/redo_cache_server.rs:590-653 | a writer is turned away exactly when it declared a key and sent something else |
| `BlobStore.BlobsNeverChange` | bins/src/redo_cache_server.rs:632-651 | a visible blob stays with its content through every later interleaving |
| `BlobStore.PutBlob` | bins/src/redo_cache_server.rs:590-653 | with short reads, early close and a failing rename: refused for its digest exactly when the bytes up to the announced length do not hash to the key; stored exactly when accepted |
| `Subgraph.Scan` | bins/src/redo_browse.rs:219-230 | the ids not seen before and exactly the links of one node |
| `Subgraph.Traverse` | bins/src/redo_browse.rs:209-232 | exactly the ids within the depth, and exactly the edges leaving ids nearer than that |
| `Subgraph.DedupStrict` | bins/src/redo_browse.rs:259-260 | after sorting and removing duplicates each (source, target) occurs once, in order |
| `Subgraph.SubgraphOf` | bins/src/redo_browse.rs:198-260 | ids and links are exact for either or both directions, in every graph |

## Left out

- Process and OS plumbing: fork, exec, select, signals, tracing and log redirection appear only through their effect on counters, locks and files; an OS failure inside `start` after the token is consumed is not modelled.
- SQLite: the tables are maps; a read never fails, and `Files` rows are never deleted.
- The override warning callback of `isdirty`, which only logs.
- Plain `redo`, the unlocked mode of `run_ifchange` as a scheduler, and the older disabled `run_ifchange`; `redo-unlocked` appears in `LockProtocol` through the redos it runs.
- The inline rebuild of missing dependencies after its wait is served is part of `LockProtocol`, not of `Scheduler`.
- Pools in the deadlock property: a pooled target that needs another target of the same full pool waits for ever.
- A sub-redo that forces its own `-jN` starts a separate jobserver, that is, a separate ledger.
- Crash safety of rebuilding a target that is already recorded, and edits made by a user while a first build runs.
- The remote (v1) action keys, remote execution, remote cache traffic and strict read tracing.
- Scripts that read files without declaring them, and dependencies that change while a script runs: a script in `ActionCache` sees one stamp per file.
- `/v1/actions` mappings under concurrent writers: the check and the rename are not atomic.
- HTTP parsing and routing, the browse page and its node records, log formatting, option parsing, shuffling and progress counters.
- ActionKey.CanonicalKey: requires lengths below 2^64 and one row per name, which the key of `Deps` guarantees; modes are single bytes.
- FirstBuild.CrashSafe: takes `exists()` and a stamp other than missing for the same thing.
- UpToDate.RequestedAreClean: takes runs of harmless resolutions; `RunSettlesIff` and `StaleRowStaysDirty` say what happens otherwise.
- LockProtocol.StepInv: an exit with jobs still running is not a step; `OneScript` treats those exits.
- LockProtocol.ReachableInv: covers runs without such exits.
- LockWaits.WaitEndsIff: a kernel that refuses a wait closing a cycle of blocked processes (EDEADLK of POSIX.1-2017 `fcntl()`) leaves fewer states; the statement holds for those too, with the refusal itself not a step.
- BlobStore.PutBlob: a failure to create, read or write the temporary file, which leaves the store as it was, is not an outcome.
