/**
 The `redo-ifchange` scheduler on its locking path (`run_ifchange`,
 redo_core/src/builder.rs): a first pass that only tries locks, a second pass
 that waits, two wait queues, jobs that carry their locks, and a result flag.

 What other processes and scripts do (who holds a lock, what the dirtiness
 check says, when a job ends and how) is left open at every point.  A run may be
 cut off after `patience` rounds anywhere it could wait, and the claims hold at
 the cut.
 */
module Scheduler {
  import opened Common

  /** Where a requested target is. */
  datatype Place =
    | Unvisited
    | InHand(locked: bool)   // being worked on; its lock owned or not yet
    | InLockedQueue
    | InPoolQueue
    | Running
    | Resolved

  datatype Attempt = Cyclic | Busy | Owned

  /** What was last seen of a target; everything done with it follows from that. */
  datatype Saw =
    | NotLooked
    | LockRefused            // Lock::new: this process uses that lock already
    | LockCyclic
    | LockBusy
    | LockOwned
    | FoundClean             // `isdirty`, with the lock owned
    | FoundMustBuild         // files other than the target itself
    | FoundStale
    | FoundError
    | NotRebuilt             // `schedule_build_one`: override, static file or cache hit
    | NoSlot
    | BuildFailed
    | JobStarted
    | BuildError
    | FailedElsewhere
    | JobExited(rv: int)

  function SawOf(r: Attempt): Saw {
    match r
    case Cyclic => LockCyclic
    case Busy => LockBusy
    case Owned => LockOwned
  }

  /** Where what was seen puts a target. */
  predicate Fits(p: Place, s: Saw) {
    match p
    case Unvisited => s.NotLooked?
    case InHand(_) => true
    case InLockedQueue => s.LockBusy?
    case InPoolQueue => s.NoSlot?
    case Running => s.FoundMustBuild? || s.JobStarted?
    case Resolved => Final(s)
  }

  predicate Final(s: Saw) {
    s.FoundClean? || s.NotRebuilt? || s.BuildFailed? || s.FailedElsewhere? || s.JobExited?
  }

  predicate Succeeded(s: Saw) {
    s.FoundClean? || s.NotRebuilt? || s == JobExited(0)
  }

  /** Seen without the lock. */
  predicate NeverLocked(s: Saw) {
    s.NotLooked? || s.LockRefused? || s.LockCyclic?
  }

  /** An error that ends the run, in either pass. */
  predicate Fatal(s: Saw) {
    s.LockRefused? || s.LockCyclic? || s.FoundError? || s.BuildError?
  }

  /**
   Outcomes follow from what was seen, and the result flag stands for the failure that
   came last: 2 if the target had failed elsewhere.
   */
  ghost predicate SawOk(place: map<string, Place>, saw: map<string, Saw>, outcome: map<string, bool>,
                        culprit: Option<string>, rcFlag: int, fidOf: string -> int, cycles: set<int>)
  {
    && saw.Keys == place.Keys
    && (forall t :: t in place ==> Fits(place[t], saw[t]))
    && (forall t :: t in outcome ==> t in saw && outcome[t] == Succeeded(saw[t]))
    && (culprit.None? ==> rcFlag == 0 && forall t :: t in outcome ==> outcome[t])
    && (culprit.Some? ==>
          && culprit.value in outcome && !outcome[culprit.value]
          && rcFlag == if saw[culprit.value].FailedElsewhere? then 2 else 1)
    && (forall t :: t in saw && saw[t].LockCyclic? ==> fidOf(t) in cycles)
    && (forall t :: t in saw && !NeverLocked(saw[t]) ==> fidOf(t) !in cycles)
  }

  /** Seeing something new of the target in hand. */
  lemma SawInHand(place: map<string, Place>, saw: map<string, Saw>, outcome: map<string, bool>, culprit: Option<string>,
                  rcFlag: int, fidOf: string -> int, cycles: set<int>, t: string, s: Saw, b: bool)
    requires SawOk(place, saw, outcome, culprit, rcFlag, fidOf, cycles) && t in place && place[t].InHand? && t !in outcome
    requires if NeverLocked(s) then (s.LockCyclic? ==> fidOf(t) in cycles) else fidOf(t) !in cycles
    ensures SawOk(place[t := InHand(b)], saw[t := s], outcome, culprit, rcFlag, fidOf, cycles)
  {
  }

  /** Moving a target to where what was seen puts it. */
  lemma SawMove(place: map<string, Place>, saw: map<string, Saw>, outcome: map<string, bool>, culprit: Option<string>,
                rcFlag: int, fidOf: string -> int, cycles: set<int>, t: string, p: Place)
    requires SawOk(place, saw, outcome, culprit, rcFlag, fidOf, cycles) && t in place && Fits(p, saw[t])
    ensures SawOk(place[t := p], saw, outcome, culprit, rcFlag, fidOf, cycles)
  {
  }

  lemma SawResolve(place: map<string, Place>, saw: map<string, Saw>, outcome: map<string, bool>, culprit: Option<string>,
                   rcFlag: int, fidOf: string -> int, cycles: set<int>, t: string, s: Saw)
    requires SawOk(place, saw, outcome, culprit, rcFlag, fidOf, cycles) && t in place && t !in outcome && Final(s)
    requires fidOf(t) !in cycles
    ensures SawOk(place[t := Resolved], saw[t := s], outcome[t := Succeeded(s)], if Succeeded(s) then culprit else Some(t),
                  if Succeeded(s) then rcFlag else if s.FailedElsewhere? then 2 else 1, fidOf, cycles)
  {
  }

  lemma SawExit(place: map<string, Place>, saw: map<string, Saw>, outcome: map<string, bool>, culprit: Option<string>,
                rcFlag: int, fidOf: string -> int, cycles: set<int>, t: string, rv: int)
    requires SawOk(place, saw, outcome, culprit, rcFlag, fidOf, cycles) && t in place && t !in outcome
    requires fidOf(t) !in cycles
    ensures rv == 0 ==>
      SawOk(place[t := Resolved], saw[t := JobExited(rv)], outcome[t := true], culprit, rcFlag, fidOf, cycles)
    ensures rv != 0 ==>
      SawOk(place[t := Resolved], saw[t := JobExited(rv)], outcome[t := false], Some(t), 1, fidOf, cycles)
  {
    SawResolve(place, saw, outcome, culprit, rcFlag, fidOf, cycles, t, JobExited(rv));
  }

  /** How `schedule_build_one` returns. */
  datatype Scheduling = Scheduled | DeferredPool | Erred

  datatype Exit =
    | Code(rc: int)
    | Error           // an error propagated to the caller
    | StillRunning    // the observation stopped first

  /** The queues, the job table and the outcomes say where every target is. */
  ghost predicate QueuesOk(requested: set<string>, place: map<string, Place>, locked: seq<string>,
                           poolBlocked: seq<string>, jobs: set<string>, outcome: map<string, bool>)
  {
    && place.Keys == requested
    && Distinct(locked) && Distinct(poolBlocked)
    && (forall t :: t in locked <==> At(place, t, InLockedQueue))
    && (forall t :: t in poolBlocked <==> At(place, t, InPoolQueue))
    && (forall t :: t in jobs <==> At(place, t, Running))
    && (forall t :: t in outcome <==> At(place, t, Resolved))
  }

  lemma QueuesInHand(requested: set<string>, place: map<string, Place>, locked: seq<string>,
                     poolBlocked: seq<string>, jobs: set<string>, outcome: map<string, bool>, t: string, b: bool)
    requires QueuesOk(requested, place, locked, poolBlocked, jobs, outcome) && t in place && place[t].InHand?
    ensures QueuesOk(requested, place[t := InHand(b)], locked, poolBlocked, jobs, outcome)
  {
    assert forall u, p: Place :: !p.InHand? ==> (At(place[t := InHand(b)], u, p) <==> At(place, u, p));
  }

  lemma QueuesTakeUp(requested: set<string>, place: map<string, Place>, locked: seq<string>,
                     poolBlocked: seq<string>, jobs: set<string>, outcome: map<string, bool>, t: string)
    requires QueuesOk(requested, place, locked, poolBlocked, jobs, outcome) && t in place && place[t].Unvisited?
    ensures QueuesOk(requested, place[t := InHand(false)], locked, poolBlocked, jobs, outcome)
  {
    assert forall u, p: Place :: !p.InHand? && !p.Unvisited? ==>
      (At(place[t := InHand(false)], u, p) <==> At(place, u, p));
  }

  lemma QueuesResolve(requested: set<string>, place: map<string, Place>, locked: seq<string>,
                      poolBlocked: seq<string>, jobs: set<string>, outcome: map<string, bool>, t: string, ok: bool)
    requires QueuesOk(requested, place, locked, poolBlocked, jobs, outcome)
    requires t in place && (place[t].InHand? || place[t].Running?)
    ensures QueuesOk(requested, place[t := Resolved], locked, poolBlocked, jobs - {t}, outcome[t := ok])
  {
    assert forall u, p: Place :: p != Resolved ==> (At(place[t := Resolved], u, p) <==> At(place, u, p) && u != t);
  }

  lemma QueuesStart(requested: set<string>, place: map<string, Place>, locked: seq<string>,
                    poolBlocked: seq<string>, jobs: set<string>, outcome: map<string, bool>, t: string)
    requires QueuesOk(requested, place, locked, poolBlocked, jobs, outcome) && t in place && place[t].InHand?
    ensures QueuesOk(requested, place[t := Running], locked, poolBlocked, jobs + {t}, outcome)
  {
    assert forall u, p: Place :: p != Running ==> (At(place[t := Running], u, p) <==> At(place, u, p) && u != t);
  }

  lemma QueuesPush(requested: set<string>, place: map<string, Place>, locked: seq<string>,
                   poolBlocked: seq<string>, jobs: set<string>, outcome: map<string, bool>, t: string)
    requires QueuesOk(requested, place, locked, poolBlocked, jobs, outcome) && t in place && place[t].InHand?
    ensures QueuesOk(requested, place[t := InLockedQueue], locked + [t], poolBlocked, jobs, outcome)
    ensures QueuesOk(requested, place[t := InPoolQueue], locked, poolBlocked + [t], jobs, outcome)
  {
    assert !At(place, t, InLockedQueue) && !At(place, t, InPoolQueue);
    DistinctPush(locked, t);
    DistinctPush(poolBlocked, t);
    var l, q := place[t := InLockedQueue], place[t := InPoolQueue];
    assert forall u, p: Place :: p != InLockedQueue ==> (At(l, u, p) <==> At(place, u, p) && u != t);
    assert forall u, p: Place :: p != InPoolQueue ==> (At(q, u, p) <==> At(place, u, p) && u != t);
  }

  lemma QueuesPopLocked(requested: set<string>, place: map<string, Place>, locked: seq<string>,
                        poolBlocked: seq<string>, jobs: set<string>, outcome: map<string, bool>)
    requires QueuesOk(requested, place, locked, poolBlocked, jobs, outcome) && locked != []
    ensures At(place, locked[0], InLockedQueue)
    ensures QueuesOk(requested, place[locked[0] := InHand(false)], locked[1..], poolBlocked, jobs, outcome)
  {
    var t := locked[0];
    DistinctPop(locked);
    assert forall u, p: Place :: !p.InHand? ==> (At(place[t := InHand(false)], u, p) <==> At(place, u, p) && u != t);
  }

  lemma QueuesPopPool(requested: set<string>, place: map<string, Place>, locked: seq<string>,
                      poolBlocked: seq<string>, jobs: set<string>, outcome: map<string, bool>)
    requires QueuesOk(requested, place, locked, poolBlocked, jobs, outcome) && poolBlocked != []
    ensures At(place, poolBlocked[0], InPoolQueue)
    ensures QueuesOk(requested, place[poolBlocked[0] := InHand(false)], locked, poolBlocked[1..], jobs, outcome)
  {
    var t := poolBlocked[0];
    DistinctPop(poolBlocked);
    assert forall u, p: Place :: !p.InHand? ==> (At(place[t := InHand(false)], u, p) <==> At(place, u, p) && u != t);
  }

  lemma DistinctPush(s: seq<string>, t: string)
    requires Distinct(s) && t !in s
    ensures Distinct(s + [t]) && forall u :: u in s + [t] <==> u in s || u == t
  {
  }

  lemma DistinctPop(s: seq<string>)
    requires Distinct(s) && s != []
    ensures Distinct(s[1..]) && s[0] in s && forall u :: u in s[1..] <==> u in s && u != s[0]
  {
    assert forall u :: u in s <==> u == s[0] || u in s[1..];
  }

  ghost predicate At(place: map<string, Place>, t: string, p: Place) {
    t in place && place[t] == p
  }

  ghost predicate HasLock(place: map<string, Place>, t: string) {
    At(place, t, Running) || At(place, t, InHand(true))
  }

  /** Locks are owned exactly for running jobs and the target in hand, one each. */
  ghost predicate LocksOk(place: map<string, Place>, fidOf: string -> int, held: set<int>, slots: set<string>) {
    && (forall t :: HasLock(place, t) ==> fidOf(t) in held)
    && (forall fid :: fid in held ==> exists t :: HasLock(place, t) && fidOf(t) == fid)
    && (forall t, u :: HasLock(place, t) && HasLock(place, u) && fidOf(t) == fidOf(u) ==> t == u)
    && (forall t :: t in slots ==> At(place, t, Running))
  }

  lemma LockTaken(place: map<string, Place>, fidOf: string -> int, held: set<int>, slots: set<string>, t: string)
    requires LocksOk(place, fidOf, held, slots) && At(place, t, InHand(false)) && fidOf(t) !in held
    ensures LocksOk(place[t := InHand(true)], fidOf, held + {fidOf(t)}, slots)
  {
    var place' := place[t := InHand(true)];
    assert forall u :: HasLock(place', u) <==> HasLock(place, u) || u == t;
    assert HasLock(place', t);
  }

  lemma LockDropped(place: map<string, Place>, fidOf: string -> int, held: set<int>, slots: set<string>, t: string, p: Place)
    requires LocksOk(place, fidOf, held, slots) && HasLock(place, t) && !p.Running? && p != InHand(true)
    ensures LocksOk(place[t := p], fidOf, held - {fidOf(t)}, slots - {t})
  {
    var place' := place[t := p];
    assert forall u :: HasLock(place', u) <==> HasLock(place, u) && u != t;
    forall fid | fid in held - {fidOf(t)}
      ensures exists u :: HasLock(place', u) && fidOf(u) == fid
    {
      var u :| HasLock(place, u) && fidOf(u) == fid;
      assert HasLock(place', u);
    }
  }

  /** Moving a target without touching its lock. */
  lemma LockKept(place: map<string, Place>, fidOf: string -> int, held: set<int>, slots: set<string>, t: string, p: Place)
    requires LocksOk(place, fidOf, held, slots) && t in place && !place[t].Running?
    requires HasLock(place, t) <==> p.Running? || p == InHand(true)
    ensures LocksOk(place[t := p], fidOf, held, slots)
    ensures p.Running? ==> LocksOk(place[t := p], fidOf, held, slots + {t})
  {
    assert forall u :: HasLock(place[t := p], u) <==> HasLock(place, u);
  }

  /** Apart from `t`, all that happened is that some running jobs ended. */
  ghost predicate OthersEnded(before: map<string, Place>, after: map<string, Place>, t: string) {
    && before.Keys == after.Keys
    && forall u :: u in before && u != t ==>
         after[u] == before[u] || (before[u].Running? && after[u].Resolved?)
  }

  lemma OthersSelf(before: map<string, Place>, t: string)
    ensures OthersEnded(before, before, t)
  {
  }

  lemma OthersMove(before: map<string, Place>, after: map<string, Place>, t: string, p: Place)
    requires OthersEnded(before, after, t) && t in after
    ensures OthersEnded(before, after[t := p], t)
  {
  }

  lemma OthersThen(before: map<string, Place>, between: map<string, Place>, after: map<string, Place>, t: string)
    requires OthersEnded(before, between, t) && OthersEnded(between, after, t)
    ensures OthersEnded(before, after, t)
  {
  }

  /** All that happened is that some running jobs ended. */
  ghost predicate OnlyEnded(before: map<string, Place>, after: map<string, Place>, saw: map<string, Saw>, saw': map<string, Saw>)
    requires before.Keys == after.Keys == saw.Keys == saw'.Keys
  {
    forall u :: u in before ==>
      if before[u].Running? then after[u].Running? || after[u].Resolved? else after[u] == before[u] && saw'[u] == saw[u]
  }

  lemma OnlyEndedOthers(before: map<string, Place>, after: map<string, Place>, saw: map<string, Saw>, saw': map<string, Saw>,
                        t: string)
    requires before.Keys == after.Keys == saw.Keys == saw'.Keys && OnlyEnded(before, after, saw, saw')
    requires t in before && !before[t].Running?
    ensures OthersEnded(before, after, t) && after[t] == before[t] && saw'[t] == saw[t]
  {
  }

  lemma OnlyEndedIdle(before: map<string, Place>, after: map<string, Place>, saw: map<string, Saw>, saw': map<string, Saw>)
    requires before.Keys == after.Keys == saw.Keys == saw'.Keys && OnlyEnded(before, after, saw, saw')
    ensures forall u :: u in before ==> (before[u].InHand? <==> after[u].InHand?) && (before[u].Unvisited? <==> after[u].Unvisited?)
  {
  }

  lemma OthersIdle(before: map<string, Place>, after: map<string, Place>, t: string)
    requires OthersEnded(before, after, t)
    ensures before.Keys == after.Keys
    ensures forall u :: u in before && u != t ==>
      (before[u].InHand? ==> after[u].InHand?) && (after[u].InHand? ==> before[u].InHand?)
      && (before[u].Unvisited? <==> after[u].Unvisited?)
  {
  }

  /** With `t` put away and only jobs ended otherwise, nothing is in hand or unvisited. */
  lemma PutAway(before: map<string, Place>, after: map<string, Place>, t: string)
    requires OthersEnded(before, after, t) && t in after && !after[t].InHand? && !after[t].Unvisited?
    requires forall u :: u in before && u != t ==> !before[u].InHand? && !before[u].Unvisited?
    ensures forall u :: u in after ==> !after[u].InHand? && !after[u].Unvisited?
  {
  }

  /** An inline wait owns the lock of the target being scheduled. */
  ghost predicate InlineOk(requested: set<string>, fidOf: string -> int, inlineWaits: seq<(string, set<int>)>) {
    forall k :: 0 <= k < |inlineWaits| ==> inlineWaits[k].0 in requested && fidOf(inlineWaits[k].0) in inlineWaits[k].1
  }

  lemma SameKeys<T>(m: map<string, T>, t: string, x: T)
    requires t in m
    ensures m[t := x].Keys == m.Keys
  {
  }

  /** Every other wait owns nothing, and without keep-going no target is taken up after a failure. */
  ghost predicate LogsOk(blockedWith: seq<(set<int>, set<string>)>, keepGoing: bool, flagAt: seq<int>) {
    && (forall k :: 0 <= k < |blockedWith| ==> blockedWith[k] == ({}, {}))
    && (!keepGoing ==> forall k :: 0 <= k < |flagAt| ==> flagAt[k] == 0)
  }

  class Scheduler {
    const requested: set<string>
    const fidOf: string -> int   // File::by_name
    const cycles: set<int>       // REDO_CYCLES: targets being built by ancestors
    const keepGoing: bool

    ghost var place: map<string, Place>
    var locked: seq<string>
    var poolBlocked: seq<string>
    var jobs: set<string>
    var outcome: map<string, bool>  // resolved target -> success
    var rcFlag: int
    var held: set<int>              // target locks owned by this process
    var slots: set<string>          // targets holding a pool slot
    var saw: map<string, Saw>
    ghost var culprit: Option<string>  // the last target that failed
    var vanished: bool              // the .redo directory was found gone
    var flagAt: seq<int>            // the result flag whenever a target was taken up
    /** The locks and slots owned at each blocking `waitlock`. */
    var blockedWith: seq<(set<int>, set<string>)>
    /** Waits inside `schedule_build_one` for a missing dependency: the target, the locks owned. */
    var inlineWaits: seq<(string, set<int>)>

    ghost predicate Valid()
      reads this
    {
      && place.Keys == saw.Keys == requested && 0 <= rcFlag <= 2
      && QueuesOk(requested, place, locked, poolBlocked, jobs, outcome)
      && LocksOk(place, fidOf, held, slots)
      && SawOk(place, saw, outcome, culprit, rcFlag, fidOf, cycles)
      && LogsOk(blockedWith, keepGoing, flagAt)
      && InlineOk(requested, fidOf, inlineWaits)
    }

    /** Nothing in hand: the state between two targets. */
    ghost predicate Idle()
      reads this
    {
      forall t :: t in place ==> !place[t].InHand?
    }

    ghost predicate AllVisited()
      reads this
    {
      forall t :: t in place ==> !place[t].Unvisited?
    }

    constructor (requested: set<string>, fidOf: string -> int, cycles: set<int>, keepGoing: bool)
      ensures Valid() && Idle()
      ensures this.requested == requested && this.fidOf == fidOf && this.cycles == cycles && this.keepGoing == keepGoing
      ensures forall t :: t in requested ==> place[t].Unvisited?
      ensures rcFlag == 0 && !vanished
    {
      this.requested, this.fidOf, this.cycles, this.keepGoing := requested, fidOf, cycles, keepGoing;
      place := map t | t in requested :: Unvisited;
      locked, poolBlocked, jobs, outcome, rcFlag, held, slots := [], [], {}, map[], 0, {}, {};
      blockedWith, inlineWaits, flagAt := [], [], [];
      saw := map t | t in requested :: NotLooked;
      culprit, vanished := None, false;
    }

    /** What the tables say of one target. */
    lemma Where(t: string)
      requires Valid() && t in place
      ensures (t in jobs <==> place[t].Running?) && (t in outcome <==> place[t].Resolved?)
      ensures (t in locked <==> place[t].InLockedQueue?) && (t in poolBlocked <==> place[t].InPoolQueue?)
      ensures t in slots ==> place[t].Running?
      ensures Fits(place[t], saw[t]) && (t in outcome ==> outcome[t] == Succeeded(saw[t]))
      ensures if NeverLocked(saw[t]) then (saw[t].LockCyclic? ==> fidOf(t) in cycles) else fidOf(t) !in cycles
    {
      assert t in jobs <==> At(place, t, Running);
      assert t in outcome <==> At(place, t, Resolved);
      assert t in locked <==> At(place, t, InLockedQueue);
      assert t in poolBlocked <==> At(place, t, InPoolQueue);
      assert t in slots ==> At(place, t, Running);
    }

    lemma Known()
      requires Valid()
      ensures place.Keys == saw.Keys == requested && 0 <= rcFlag <= 2
    {
    }

    lemma Owns(t: string)
      requires Valid() && HasLock(place, t)
      ensures fidOf(t) in held && t in requested
    {
    }

    lemma InJobs(t: string)
      requires Valid() && t in jobs
      ensures t in place && place[t].Running?
    {
      assert At(place, t, Running);
    }

    lemma JobFacts(t: string)
      requires Valid() && t in jobs
      ensures t in place && place[t].Running? && t !in outcome && HasLock(place, t) && fidOf(t) !in cycles
    {
      InJobs(t);
      Where(t);
    }

    // --- looking ---

    /** Note what was seen of the target in hand, whose lock is owned. */
    method Observe(t: string, s: Saw)
      requires Valid() && t in place && place[t] == InHand(true) && !NeverLocked(s) && fidOf(t) !in cycles
      modifies this`saw
      ensures Valid() && saw == old(saw)[t := s]
    {
      hide QueuesOk, LocksOk, SawOk, InlineOk, LogsOk;
      Where(t);
      SawInHand(place, saw, outcome, culprit, rcFlag, fidOf, cycles, t, s, true);
      assert place[t := InHand(true)] == place;
      saw := saw[t := s];
    }

    // --- locks ---

    /** `Lock::new` then `trylock` on the target in hand. */
    method TryLock(t: string) returns (made: bool, r: Attempt)
      requires Valid() && t in place && place[t] == InHand(false)
      modifies this`held, this`place, this`saw
      ensures Valid()
      ensures made <==> fidOf(t) !in old(held)
      ensures made ==> (r.Cyclic? <==> fidOf(t) in cycles)
      ensures saw == old(saw)[t := if !made then LockRefused else SawOf(r)]
      ensures made && r.Owned? ==> place == old(place)[t := InHand(true)]
      ensures !made || !r.Owned? ==> place == old(place)
    {
      hide QueuesOk, LocksOk, SawOk, InlineOk, LogsOk;
      Where(t);
      assert place[t := InHand(false)] == place;
      if fidOf(t) in held {
        SawInHand(place, saw, outcome, culprit, rcFlag, fidOf, cycles, t, LockRefused, false);
        saw := saw[t := LockRefused];
        return false, Busy;
      }
      made := true;
      if fidOf(t) in cycles {
        SawInHand(place, saw, outcome, culprit, rcFlag, fidOf, cycles, t, LockCyclic, false);
        saw := saw[t := LockCyclic];
        return made, Cyclic;
      }
      var got: bool := *;
      if !got {
        SawInHand(place, saw, outcome, culprit, rcFlag, fidOf, cycles, t, LockBusy, false);
        saw := saw[t := LockBusy];
        return made, Busy;
      }
      r := Owned;
      SawInHand(place, saw, outcome, culprit, rcFlag, fidOf, cycles, t, LockOwned, true);
      LockTaken(place, fidOf, held, slots, t);
      QueuesInHand(requested, place, locked, poolBlocked, jobs, outcome, t, true);
      saw := saw[t := LockOwned];
      held := held + {fidOf(t)};
      place := place[t := InHand(true)];
    }

    /** `waitlock` and `unlock` in the second pass; it may only be reached empty-handed. */
    method WaitlockThenUnlock(t: string)
      requires Valid() && t in place && place[t] == InHand(false)
      requires held == {} && slots == {}
      modifies this`blockedWith
      ensures Valid() && blockedWith == old(blockedWith) + [({}, {})]
    {
      hide QueuesOk, LocksOk, SawOk, InlineOk;
      blockedWith := blockedWith + [(held, slots)];
    }

    method Unlock(t: string)
      requires Valid() && t in place && place[t] == InHand(true)
      modifies this`held, this`place
      ensures Valid() && place == old(place)[t := InHand(false)]
    {
      hide QueuesOk, LocksOk, SawOk, InlineOk, LogsOk;
      LockDropped(place, fidOf, held, slots, t, InHand(false));
      QueuesInHand(requested, place, locked, poolBlocked, jobs, outcome, t, false);
      SawMove(place, saw, outcome, culprit, rcFlag, fidOf, cycles, t, InHand(false));
      Where(t);
      assert slots - {t} == slots;
      held := held - {fidOf(t)};
      place := place[t := InHand(false)];
    }

    // --- moving a target ---

    /** The target is done with, and a failure raises the flag: 2 if it failed elsewhere. */
    method Resolve(t: string)
      requires Valid() && t in place && place[t] == InHand(false) && Final(saw[t])
      modifies this`outcome, this`place, this`rcFlag, this`culprit
      ensures Valid() && place == old(place)[t := Resolved] && (old(rcFlag) > 0 ==> rcFlag > 0)
    {
      hide QueuesOk, LocksOk, SawOk, InlineOk, LogsOk;
      Where(t);
      LockKept(place, fidOf, held, slots, t, Resolved);
      QueuesResolve(requested, place, locked, poolBlocked, jobs, outcome, t, Succeeded(saw[t]));
      SawResolve(place, saw, outcome, culprit, rcFlag, fidOf, cycles, t, saw[t]);
      assert jobs - {t} == jobs && saw[t := saw[t]] == saw;
      outcome := outcome[t := Succeeded(saw[t])];
      if !Succeeded(saw[t]) {
        culprit := Some(t);
        rcFlag := if saw[t].FailedElsewhere? then 2 else 1;
      }
      place := place[t := Resolved];
    }

    method PushLocked(t: string)
      requires Valid() && t in place && place[t] == InHand(false) && saw[t].LockBusy?
      modifies this`locked, this`place
      ensures Valid() && place == old(place)[t := InLockedQueue] && locked == old(locked) + [t]
    {
      hide QueuesOk, LocksOk, SawOk, InlineOk, LogsOk;
      LockKept(place, fidOf, held, slots, t, InLockedQueue);
      QueuesPush(requested, place, locked, poolBlocked, jobs, outcome, t);
      SawMove(place, saw, outcome, culprit, rcFlag, fidOf, cycles, t, InLockedQueue);
      locked := locked + [t];
      place := place[t := InLockedQueue];
    }

    method PushPool(t: string)
      requires Valid() && t in place && place[t] == InHand(false) && saw[t].NoSlot?
      modifies this`poolBlocked, this`place
      ensures Valid() && place == old(place)[t := InPoolQueue] && poolBlocked == old(poolBlocked) + [t]
    {
      hide QueuesOk, LocksOk, SawOk, InlineOk, LogsOk;
      LockKept(place, fidOf, held, slots, t, InPoolQueue);
      QueuesPush(requested, place, locked, poolBlocked, jobs, outcome, t);
      SawMove(place, saw, outcome, culprit, rcFlag, fidOf, cycles, t, InPoolQueue);
      poolBlocked := poolBlocked + [t];
      place := place[t := InPoolQueue];
    }

    method PopLocked() returns (t: string)
      requires Valid() && Idle() && locked != [] && (rcFlag == 0 || keepGoing)
      modifies this`locked, this`place, this`flagAt
      ensures Valid() && t == old(locked)[0] && locked == old(locked)[1..] && flagAt == old(flagAt) + [rcFlag]
      ensures t in old(place) && place == old(place)[t := InHand(false)]
    {
      hide QueuesOk, LocksOk, SawOk, InlineOk;
      t := locked[0];
      QueuesPopLocked(requested, place, locked, poolBlocked, jobs, outcome);
      LockKept(place, fidOf, held, slots, t, InHand(false));
      SawMove(place, saw, outcome, culprit, rcFlag, fidOf, cycles, t, InHand(false));
      flagAt := flagAt + [rcFlag];
      locked := locked[1..];
      place := place[t := InHand(false)];
    }

    method PopPool() returns (t: string)
      requires Valid() && Idle() && poolBlocked != [] && (rcFlag == 0 || keepGoing)
      modifies this`poolBlocked, this`place, this`flagAt
      ensures Valid() && t == old(poolBlocked)[0] && poolBlocked == old(poolBlocked)[1..] && flagAt == old(flagAt) + [rcFlag]
      ensures t in old(place) && place == old(place)[t := InHand(false)]
    {
      hide QueuesOk, LocksOk, SawOk, InlineOk;
      t := poolBlocked[0];
      QueuesPopPool(requested, place, locked, poolBlocked, jobs, outcome);
      LockKept(place, fidOf, held, slots, t, InHand(false));
      SawMove(place, saw, outcome, culprit, rcFlag, fidOf, cycles, t, InHand(false));
      flagAt := flagAt + [rcFlag];
      poolBlocked := poolBlocked[1..];
      place := place[t := InHand(false)];
    }

    /** The lock and a pool slot, if any, move into the job. */
    method StartJob(t: string, slot: bool)
      requires Valid() && t in place && place[t] == InHand(true) && (saw[t].FoundMustBuild? || saw[t].JobStarted?)
      modifies this`jobs, this`slots, this`place
      ensures Valid() && place == old(place)[t := Running] && jobs == old(jobs) + {t}
      ensures slots == if slot then old(slots) + {t} else old(slots)
    {
      hide QueuesOk, LocksOk, SawOk, InlineOk, LogsOk;
      LockKept(place, fidOf, held, slots, t, Running);
      QueuesStart(requested, place, locked, poolBlocked, jobs, outcome, t);
      SawMove(place, saw, outcome, culprit, rcFlag, fidOf, cycles, t, Running);
      jobs := jobs + {t};
      if slot {
        slots := slots + {t};
      }
      place := place[t := Running];
    }

    /** The completion callback: free the slot, unlock, and take the job off the table. */
    method JobDone(t: string, rv: int)
      requires Valid() && t in jobs
      modifies this`jobs, this`slots, this`held, this`outcome, this`rcFlag, this`place, this`saw, this`culprit
      ensures Valid() && jobs == old(jobs) - {t} && place == old(place)[t := Resolved]
      ensures outcome == old(outcome)[t := rv == 0] && saw == old(saw)[t := JobExited(rv)]
      ensures slots == old(slots) - {t} && held == old(held) - {fidOf(t)}
      ensures rcFlag == if rv == 0 then old(rcFlag) else 1
    {
      hide QueuesOk, LocksOk, SawOk, InlineOk, LogsOk;
      JobOver(t, rv);
      Free(t);
      Record(t, rv);
      jobs, place := jobs - {t}, place[t := Resolved];
    }

    /** The tables without the job, with its end recorded. */
    lemma JobOver(t: string, rv: int)
      requires Valid() && t in jobs
      ensures t in place
      ensures QueuesOk(requested, place[t := Resolved], locked, poolBlocked, jobs - {t}, outcome[t := rv == 0])
      ensures LocksOk(place[t := Resolved], fidOf, held - {fidOf(t)}, slots - {t})
      ensures SawOk(place[t := Resolved], saw[t := JobExited(rv)], outcome[t := rv == 0],
                    if rv == 0 then culprit else Some(t), if rv == 0 then rcFlag else 1, fidOf, cycles)
      ensures place[t := Resolved].Keys == saw[t := JobExited(rv)].Keys == requested
    {
      hide QueuesOk, LocksOk, SawOk, InlineOk, LogsOk;
      JobFacts(t);
      LockDropped(place, fidOf, held, slots, t, Resolved);
      QueuesResolve(requested, place, locked, poolBlocked, jobs, outcome, t, rv == 0);
      SawExit(place, saw, outcome, culprit, rcFlag, fidOf, cycles, t, rv);
      SameKeys(place, t, Resolved);
      SameKeys(saw, t, JobExited(rv));
    }

    method Free(t: string)
      modifies this`slots, this`held
      ensures slots == old(slots) - {t} && held == old(held) - {fidOf(t)}
    {
      slots, held := slots - {t}, held - {fidOf(t)};
    }

    method Record(t: string, rv: int)
      modifies this`outcome, this`rcFlag, this`saw, this`culprit
      ensures outcome == old(outcome)[t := rv == 0] && saw == old(saw)[t := JobExited(rv)]
      ensures rcFlag == (if rv == 0 then old(rcFlag) else 1) && culprit == if rv == 0 then old(culprit) else Some(t)
    {
      if rv != 0 {
        rcFlag, culprit := 1, Some(t);
      }
      saw, outcome := saw[t := JobExited(rv)], outcome[t := rv == 0];
    }

    /** Any jobs may end while the process waits for a token. */
    method WaitForToken()
      requires Valid()
      modifies this`jobs, this`slots, this`held, this`outcome, this`rcFlag, this`place, this`saw, this`culprit
      ensures Valid() && jobs <= old(jobs) && (old(rcFlag) > 0 ==> rcFlag > 0)
      ensures OnlyEnded(old(place), place, old(saw), saw)
    {
      hide QueuesOk, LocksOk, SawOk, InlineOk, LogsOk;
      var ending: set<string> :| ending <= jobs;
      while ending != {}
        invariant Valid() && ending <= jobs <= old(jobs) && (old(rcFlag) > 0 ==> rcFlag > 0)
        invariant OnlyEnded(old(place), place, old(saw), saw)
        decreases |ending|
      {
        var t :| t in ending;
        InJobs(t);
        var rv: int := *;
        JobDone(t, rv);
        ending := ending - {t};
      }
    }

    /** The same with a target in hand. */
    method WaitWithInHand(t: string)
      requires Valid() && t in place && place[t].InHand?
      modifies this`jobs, this`slots, this`held, this`outcome, this`rcFlag, this`place, this`saw, this`culprit
      ensures Valid() && t in place && t in saw && OthersEnded(old(place), place, t) && place[t] == old(place)[t] && saw[t] == old(saw)[t]
    {
      hide QueuesOk, LocksOk, SawOk, InlineOk, LogsOk, OthersEnded, OnlyEnded;
      WaitForToken();
      OnlyEndedOthers(old(place), place, old(saw), saw, t);
    }

    /** `wait_all`, unless the observation ends first. */
    method WaitAll() returns (done: bool)
      requires Valid()
      modifies this`jobs, this`slots, this`held, this`outcome, this`rcFlag, this`place, this`saw, this`culprit
      ensures Valid() && (done <==> jobs == {}) && (old(rcFlag) > 0 ==> rcFlag > 0)
      ensures OnlyEnded(old(place), place, old(saw), saw)
    {
      hide QueuesOk, LocksOk, SawOk, InlineOk, LogsOk;
      WaitForToken();
      done := jobs == {};
    }

    /** With no job and nothing in hand under lock, the process owns nothing. */
    lemma OwnsNothing()
      requires Valid() && jobs == {}
      requires forall t :: t in place ==> place[t] != InHand(true)
      ensures held == {} && slots == {}
    {
      forall t: string
        ensures !HasLock(place, t)
      {
        assert t !in jobs;
      }
      assert forall fid :: fid in held ==> exists t :: HasLock(place, t) && fidOf(t) == fid;
    }

    // --- one target ---

    /** Unlock the target in hand and record how it ended. */
    method UnlockResolve(t: string)
      requires Valid() && t in place && place[t] == InHand(true) && Final(saw[t])
      modifies this`held, this`outcome, this`place, this`rcFlag, this`culprit
      ensures Valid() && place == old(place)[t := Resolved]
    {
      hide QueuesOk, LocksOk, SawOk, InlineOk, LogsOk;
      Unlock(t);
      Resolve(t);
    }

    /**
     The rebuild of missing dependencies before a cache lookup: any number of
     `build_one` calls, each waiting for another target's lock with this one
     owned, while running jobs may end.
     */
    method RebuildMissing(t: string)
      requires Valid() && t in place && place[t] == InHand(true)
      modifies this`jobs, this`slots, this`held, this`outcome, this`rcFlag, this`place, this`saw, this`culprit, this`inlineWaits
      ensures Valid() && t in place && t in saw && OthersEnded(old(place), place, t) && place[t] == InHand(true) && saw[t] == old(saw)[t]
    {
      hide QueuesOk, LocksOk, SawOk, LogsOk, OthersEnded, OnlyEnded;
      var missing: nat :| missing >= 0;
      OthersSelf(place, t);
      while missing > 0
        invariant Valid() && t in place && OthersEnded(old(place), place, t) && place[t] == InHand(true)
        invariant saw[t] == old(saw)[t]
      {
        Owns(t);
        inlineWaits := inlineWaits + [(t, held)];
        ghost var before := place;
        WaitWithInHand(t);
        OthersThen(old(place), before, place, t);
        missing := missing - 1;
      }
    }

    /**
     `schedule_build_one`, by what it comes to: nothing rebuilt (override, static
     file or cache hit), no free pool slot, a failure before any job, a started
     job, or an error, which drops the lock.
     */
    method ScheduleBuildOne(t: string) returns (r: Scheduling)
      requires Valid() && t in place && place[t] == InHand(true) && fidOf(t) !in cycles
      modifies this`jobs, this`slots, this`held, this`outcome, this`rcFlag, this`place, this`saw, this`culprit, this`inlineWaits
      ensures Valid() && t in place && t in saw && OthersEnded(old(place), place, t)
      ensures saw[t].NotRebuilt? || saw[t].NoSlot? || saw[t].BuildFailed? || saw[t].JobStarted? || saw[t].BuildError?
      ensures r == if saw[t].NoSlot? then DeferredPool else if saw[t].BuildError? then Erred else Scheduled
      ensures place[t] == if saw[t].JobStarted? then Running else if Final(saw[t]) then Resolved else InHand(false)
    {
      hide Valid, OthersEnded, OnlyEnded;
      RebuildMissing(t);
      var s: Saw := *;
      if !s.NotRebuilt? && !s.NoSlot? && !s.BuildFailed? && !s.JobStarted? {
        s := BuildError;
      }
      Observe(t, s);
      r := Scheduled;
      ghost var before := place;
      if s.NotRebuilt? || s.BuildFailed? {
        UnlockResolve(t);
        OthersMove(old(place), before, t, Resolved);
      } else if s.JobStarted? {
        WaitWithInHand(t);
        OthersThen(old(place), before, place, t);
        before := place;
        var slot: bool := *;
        StartJob(t, slot);
        OthersMove(old(place), before, t, Running);
      } else {
        Unlock(t);
        OthersMove(old(place), before, t, InHand(false));
        r := if s.NoSlot? then DeferredPool else Erred;
      }
    }

    /**
     With the lock owned: check dirtiness, then skip, fix out of band, or build.
     An error on the way, a dependency cycle found by `isdirty` included, drops
     the lock and ends the run.
     */
    method Examine(t: string) returns (early: Option<Exit>)
      requires Valid() && t in place && place[t] == InHand(true) && fidOf(t) !in cycles
      modifies this`jobs, this`slots, this`held, this`outcome, this`rcFlag, this`place, this`poolBlocked,
               this`saw, this`culprit, this`inlineWaits
      ensures Valid() && t in place && t in saw && OthersEnded(old(place), place, t)
      ensures early == (if saw[t].FoundError? || saw[t].BuildError? then Some(Error) else None) && !NeverLocked(saw[t])
      ensures early.None? ==> !place[t].InHand? && !place[t].Unvisited?
      ensures early.Some? ==> place[t] == InHand(false)
    {
      hide Valid, OthersEnded, OnlyEnded;
      early := None;
      var s: Saw := *;
      if !s.FoundClean? && !s.FoundMustBuild? && !s.FoundStale? {
        s := FoundError;
      }
      Observe(t, s);
      OthersSelf(place, t);
      ghost var before := place;
      if s.FoundClean? {
        UnlockResolve(t);
        OthersMove(before, before, t, Resolved);
      } else if s.FoundMustBuild? {   // redo-unlocked job
        StartJob(t, false);
        OthersMove(before, before, t, Running);
      } else if s.FoundStale? {
        early := Build(t);
      } else {
        Unlock(t);
        OthersMove(before, before, t, InHand(false));
        early := Some(Error);
      }
    }

    /** Build it, or put it aside until a pool slot is free. */
    method Build(t: string) returns (early: Option<Exit>)
      requires Valid() && t in place && place[t] == InHand(true) && fidOf(t) !in cycles
      modifies this`jobs, this`slots, this`held, this`outcome, this`rcFlag, this`place, this`poolBlocked,
               this`saw, this`culprit, this`inlineWaits
      ensures Valid() && t in place && t in saw && OthersEnded(old(place), place, t)
      ensures early == (if saw[t].BuildError? then Some(Error) else None) && !NeverLocked(saw[t]) && !saw[t].FoundError?
      ensures early.None? ==> !place[t].InHand? && !place[t].Unvisited?
      ensures early.Some? ==> place[t] == InHand(false)
    {
      hide Valid, OthersEnded, OnlyEnded;
      var r := ScheduleBuildOne(t);
      early := None;
      if r.DeferredPool? {
        OthersMove(old(place), place, t, InPoolQueue);
        PushPool(t);
      } else if r.Erred? {
        early := Some(Error);
      }
    }

    /** After a wait: another process may have failed the target meanwhile. */
    method ExamineAfterWait(t: string) returns (early: Option<Exit>)
      requires Valid() && t in place && place[t] == InHand(true) && fidOf(t) !in cycles
      modifies this`jobs, this`slots, this`held, this`outcome, this`rcFlag, this`place, this`poolBlocked,
               this`saw, this`culprit, this`inlineWaits
      ensures Valid() && t in place && t in saw && OthersEnded(old(place), place, t)
      ensures early == (if saw[t].FoundError? || saw[t].BuildError? then Some(Error) else None) && !NeverLocked(saw[t])
      ensures early.None? ==> !place[t].InHand? && !place[t].Unvisited?
      ensures early.Some? ==> place[t] == InHand(false)
    {
      hide Valid, OthersEnded, OnlyEnded;
      early := None;
      var failedElsewhere: bool := *;
      if failedElsewhere {
        Observe(t, FailedElsewhere);
        OthersSelf(place, t);
        OthersMove(place, place, t, Resolved);
        UnlockResolve(t);
      } else {
        early := Examine(t);
      }
    }

    // --- the two passes ---

    /** The .redo directory is gone. */
    method Vanish()
      requires Valid()
      modifies this`vanished
      ensures Valid() && vanished
    {
      vanished := true;
    }

    /** Pick up an unvisited target. */
    method TakeUp(t: string)
      requires Valid() && Idle() && t in place && place[t].Unvisited? && (rcFlag == 0 || keepGoing)
      modifies this`place, this`flagAt
      ensures Valid() && place == old(place)[t := InHand(false)] && flagAt == old(flagAt) + [rcFlag]
    {
      hide QueuesOk, LocksOk, SawOk, InlineOk;
      LockKept(place, fidOf, held, slots, t, InHand(false));
      QueuesTakeUp(requested, place, locked, poolBlocked, jobs, outcome, t);
      SawMove(place, saw, outcome, culprit, rcFlag, fidOf, cycles, t, InHand(false));
      flagAt := flagAt + [rcFlag];
      place := place[t := InHand(false)];
    }

    /** How the first pass goes on after a target, by what was seen of it. */
    predicate ExitFor(t: string, early: Option<Exit>)
      reads this
    {
      && t in saw
      && early == if saw[t].LockCyclic? then Some(Code(208)) else if Fatal(saw[t]) then Some(Error) else None
    }

    /**
     The body of the first pass for a target not seen before: try its lock, and
     either queue it, give up on a cycle, or examine it.
     */
    method VisitOne(t: string) returns (early: Option<Exit>)
      requires Valid() && Idle() && t in place && place[t].Unvisited? && (rcFlag == 0 || keepGoing)
      modifies this`jobs, this`slots, this`held, this`outcome, this`rcFlag, this`place, this`locked, this`poolBlocked,
               this`saw, this`culprit, this`inlineWaits, this`flagAt
      ensures Valid() && t in place && t in saw && OthersEnded(old(place), place, t) && ExitFor(t, early)
      ensures early.None? ==> !place[t].InHand? && !place[t].Unvisited?
      ensures early.Some? ==> place[t].InHand?
    {
      hide Valid, OthersEnded, OnlyEnded;
      ghost var before := place;
      Known();
      TakeUp(t);
      OthersSelf(before, t);
      OthersMove(before, before, t, InHand(false));
      ghost var inHand := place;
      var made, r := TryLock(t);
      if !made {
        return Some(Error);
      }
      early := None;
      match r {
        case Cyclic =>
          return Some(Code(208));
        case Busy =>
          OthersMove(before, inHand, t, InLockedQueue);
          PushLocked(t);
        case Owned =>
          OthersMove(before, inHand, t, InHand(true));
          inHand := place;
          early := Examine(t);
          OthersThen(before, inHand, place, t);
      }
    }

    /** What an end before its time is due to. */
    ghost predicate EarlyOk(e: Exit)
      reads this
    {
      && (exists t :: t in place && !place[t].Resolved?)
      && match e
         case Code(rc) =>
           || (rc == 204 && exists t :: t in place && (t == "" || '\n' in t) && place[t].Unvisited?)
           || (rc == 205 && vanished)
           || (rc == 208 && exists t :: t in place && t in saw && place[t].InHand? && saw[t].LockCyclic?)
         case Error => exists t :: t in place && t in saw && place[t].InHand? && Fatal(saw[t])
         case StillRunning =>
           exists t :: t in place && t in saw
             && (place[t].Running? || place[t].InLockedQueue? || place[t].InPoolQueue? || (place[t].InHand? && saw[t].LockBusy?))
    }

    /** First pass: try everything, wait for no lock. */
    method FirstPass(targets: seq<string>) returns (early: Option<Exit>)
      requires Valid() && Idle() && requested == Elems(targets) && !vanished
      requires forall t :: t in place ==> place[t].Unvisited?
      modifies this
      ensures Valid()
      ensures early.None? ==> Idle() && !vanished
      ensures early.None? && (rcFlag == 0 || keepGoing) ==> AllVisited()
      ensures early.Some? ==> EarlyOk(early.value) && !early.value.StillRunning? && (vanished <==> early.value == Code(205))
    {
      hide Valid, OthersEnded, OnlyEnded;
      var seen: set<string> := {};
      var i := 0;
      while i < |targets|
        invariant 0 <= i <= |targets|
        invariant Valid() && Idle() && !vanished
        invariant "" !in seen && forall t :: t in place ==> (place[t].Unvisited? <==> t !in seen)
        invariant forall k :: 0 <= k < i ==> targets[k] in seen && targets[k] != ""
      {
        var t := targets[i];
        Known();
        assert t in requested;
        if t == "" {
          assert place[t].Unvisited?;
          return Some(Code(204));
        }
        i := i + 1;
        if t in seen {
          continue;
        }
        ghost var before := place;
        ghost var sawBefore := saw;
        WaitForToken();
        Known();
        OnlyEndedIdle(before, place, sawBefore, saw);
        if rcFlag != 0 && !keepGoing {
          return None;
        }
        var sane: bool := *;
        if !sane {
          Vanish();
          return Some(Code(205));
        }
        before := place;
        early := VisitOne(t);
        if early.Some? {
          return;
        }
        OthersIdle(before, place, t);
        seen := seen + {t};
      }
      early := None;
      Known();
      forall t | t in place
        ensures t in seen && t != ""
      {
        assert t in requested;
        assert t in targets;
      }
    }

    /** Second pass, pool queue: the target's lock is only tried again. */
    method RetryPooled() returns (early: Option<Exit>)
      requires Valid() && Idle() && poolBlocked != [] && (rcFlag == 0 || keepGoing)
      requires AllVisited()
      modifies this`jobs, this`slots, this`held, this`outcome, this`rcFlag, this`place, this`locked, this`poolBlocked,
               this`saw, this`culprit, this`inlineWaits, this`flagAt
      ensures Valid()
      ensures place.Keys == old(place.Keys)
      ensures early.None? ==> Idle() && AllVisited()
      ensures early.Some? ==> early.value == Error && EarlyOk(Error)
    {
      hide Valid, OthersEnded, OnlyEnded;
      var t := PopPool();
      var made, r := TryLock(t);
      if !made || r.Cyclic? {
        return Some(Error);
      }
      early := None;
      if r.Busy? {
        PushLocked(t);
      } else {
        ghost var before := place;
        early := ExamineAfterWait(t);
        OthersIdle(before, place, t);
      }
    }

    /**
     Take the lock of the target in hand, blocking as often as needed.  No job is
     running, so the process blocks owning no target lock and no pool slot.
     */
    method AcquireByWaiting(t: string, patience: nat) returns (early: Option<Exit>)
      requires Valid() && jobs == {} && t in place && place[t] == InHand(false)
      requires forall u :: u in place && u != t ==> !place[u].InHand?
      modifies this`held, this`place, this`blockedWith, this`saw
      ensures Valid()
      ensures early == if saw[t].LockOwned? then None else if saw[t].LockBusy? then Some(StillRunning) else Some(Error)
      ensures early.None? ==> place == old(place)[t := InHand(true)] && fidOf(t) !in cycles
      ensures early.Some? ==> place == old(place)
      ensures early.Some? && early.value.Error? ==> Fatal(saw[t])
      ensures early.Some? && early.value.StillRunning? ==> |blockedWith| == |old(blockedWith)| + patience
    {
      hide QueuesOk, LocksOk, SawOk, InlineOk, LogsOk;
      var made, r := TryLock(t);
      if !made || r.Cyclic? {
        return Some(Error);
      }
      var round := 0;
      while r.Busy?
        invariant Valid() && jobs == {} && !r.Cyclic? && saw[t] == SawOf(r) && 0 <= round <= patience
        invariant place == if r.Owned? then old(place)[t := InHand(true)] else old(place)
        invariant |blockedWith| == |old(blockedWith)| + round
        decreases patience - round
      {
        if round >= patience {
          return Some(StillRunning);
        }
        round := round + 1;
        if fidOf(t) in cycles {
          return Some(Code(208));
        }
        OwnsNothing();
        WaitlockThenUnlock(t);
        made, r := TryLock(t);
        if !made || r.Cyclic? {
          return Some(Error);
        }
      }
      early := None;
    }

    /** Second pass, locked queue. */
    method WaitLocked(patience: nat) returns (early: Option<Exit>)
      requires Valid() && Idle() && jobs == {} && locked != [] && (rcFlag == 0 || keepGoing)
      requires AllVisited()
      modifies this`jobs, this`slots, this`held, this`outcome, this`rcFlag, this`place, this`locked, this`poolBlocked,
               this`saw, this`culprit, this`inlineWaits, this`flagAt, this`blockedWith
      ensures Valid()
      ensures place.Keys == old(place.Keys)
      ensures early.None? ==> Idle() && AllVisited()
      ensures early.Some? ==> EarlyOk(early.value) && !early.value.Code?
    {
      hide Valid, OthersEnded, OnlyEnded;
      var t := PopLocked();
      early := AcquireByWaiting(t, patience);
      Known();
      assert place[t].InHand?;
      if early.None? {
        ghost var before := place;
        early := ExamineAfterWait(t);
        OthersIdle(before, place, t);
      }
    }

    /** Locked targets come first. */
    method Serve(patience: nat) returns (early: Option<Exit>)
      requires Valid() && Idle() && jobs == {} && (locked != [] || poolBlocked != []) && (rcFlag == 0 || keepGoing)
      requires AllVisited()
      modifies this`jobs, this`slots, this`held, this`outcome, this`rcFlag, this`place, this`locked, this`poolBlocked,
               this`saw, this`culprit, this`inlineWaits, this`flagAt, this`blockedWith
      ensures Valid() && (early.None? ==> Idle() && AllVisited())
      ensures early.Some? ==> EarlyOk(early.value) && !early.value.Code?
    {
      hide Valid;
      if locked == [] {
        early := RetryPooled();
      } else {
        early := WaitLocked(patience);
      }
    }

    /** The run has come to its own end: the flag is the answer, and without a reason to stop nothing is left. */
    ghost predicate EndOk(e: Exit)
      reads this
    {
      e == Code(rcFlag) && jobs == {} && (rcFlag == 0 || keepGoing ==> forall t :: t in place ==> place[t].Resolved?)
    }

    /** Second pass: finish jobs, then serve the queues one target at a time. */
    method SecondPass(patience: nat) returns (exit: Exit)
      requires Valid() && Idle() && !vanished
      requires rcFlag == 0 || keepGoing ==> AllVisited()
      modifies this
      ensures Valid()
      ensures EndOk(exit) || EarlyOk(exit)
      ensures exit != Code(204) && (vanished <==> exit == Code(205))
    {
      hide Valid, OnlyEnded, EarlyOk, EndOk;
      var round := 0;
      var stopped := false;
      Known();
      while (locked != [] || poolBlocked != [] || jobs != {}) && round < patience
        invariant Valid() && Idle() && !vanished && !stopped
        invariant rcFlag == 0 || keepGoing ==> AllVisited()
        decreases patience - round
      {
        round := round + 1;
        Known();
        ghost var before := place;
        ghost var sawBefore := saw;
        var done := WaitAll();
        Known();
        OnlyEndedIdle(before, place, sawBefore, saw);
        if !done {
          StillAtWork();
          return StillRunning;
        }
        if rcFlag != 0 && !keepGoing {
          stopped := true;
          break;
        }
        if locked == [] && poolBlocked == [] {
          continue;
        }
        var sane: bool := *;
        if !sane {
          Vanish();
          StillAtWork();
          return Code(205);
        }
        var early := Serve(patience);
        if early.Some? {
          return early.value;
        }
        Known();
      }
      Known();
      if (locked != [] || poolBlocked != [] || jobs != {}) && !stopped {
        StillAtWork();
        return StillRunning;
      }
      exit := Code(rcFlag);
      AllDone();
    }

    /** The whole run: no name may contain a newline, then the two passes. */
    method Drive(targets: seq<string>, patience: nat) returns (exit: Exit)
      requires Valid() && Idle() && requested == Elems(targets) && !vanished
      requires forall t :: t in place ==> place[t].Unvisited?
      modifies this
      ensures Valid()
      ensures EndOk(exit) || EarlyOk(exit)
      ensures vanished <==> exit == Code(205)
      ensures (exists t :: t in targets && '\n' in t) ==> exit == Code(204) && forall t :: t in place ==> place[t].Unvisited?
    {
      hide QueuesOk, LocksOk, SawOk, InlineOk, LogsOk;
      if t :| t in targets && '\n' in t {
        assert t in requested;
        return Code(204);
      }
      var early := FirstPass(targets);
      if early.Some? {
        return early.value;
      }
      exit := SecondPass(patience);
    }

    /** What the end of a run means for its tables. */
    lemma Meaning(exit: Exit, waiting: seq<string>)
      requires Valid() && (EndOk(exit) || EarlyOk(exit)) && (vanished <==> exit == Code(205))
      requires forall t :: t in waiting <==> t in requested && t !in locked && t !in poolBlocked && t !in jobs && t !in outcome
      ensures Partition(requested, waiting, locked, poolBlocked, jobs, outcome)
      ensures LogsOk(blockedWith, keepGoing, flagAt) && InlineOk(requested, fidOf, inlineWaits)
      ensures exit == Code(0) <==> outcome.Keys == requested && forall t :: t in outcome ==> outcome[t]
      ensures OutcomesOk(requested, saw, outcome, fidOf, cycles)
      ensures ExitOk(exit, requested, waiting, locked, poolBlocked, jobs, outcome, saw, vanished, keepGoing)
      ensures (forall t :: t in place ==> place[t].Unvisited?) ==> Elems(waiting) == requested
    {
      forall t | t in place
        ensures t in waiting <==> place[t].Unvisited? || place[t].InHand?
      {
        Where(t);
      }
      PlacesPartition(requested, place, waiting, locked, poolBlocked, jobs, outcome);
    }

    /** Something queued or running is not resolved. */
    lemma StillAtWork()
      requires Valid() && (locked != [] || poolBlocked != [] || jobs != {})
      ensures EarlyOk(StillRunning) && (vanished ==> EarlyOk(Code(205)))
    {
      var t := if locked != [] then locked[0] else if poolBlocked != [] then poolBlocked[0] else Pick(jobs);
      assert At(place, t, if locked != [] then InLockedQueue else if poolBlocked != [] then InPoolQueue else Running);
    }

    /** With nothing running, the run may end by the flag if it stopped for a failure or nothing is queued. */
    lemma AllDone()
      requires Valid() && Idle() && jobs == {} && (rcFlag == 0 || keepGoing ==> AllVisited() && locked == [] && poolBlocked == [])
      ensures EndOk(Code(rcFlag))
    {
      if rcFlag == 0 || keepGoing {
        forall t | t in place
          ensures place[t].Resolved?
        {
          assert t !in locked && t !in poolBlocked && t !in jobs;
        }
      }
    }
  }

  /** Where a target stands when the run stops. */
  ghost predicate Partition(requested: set<string>, waiting: seq<string>, locked: seq<string>, poolBlocked: seq<string>,
                            jobs: set<string>, outcome: map<string, bool>)
  {
    && Distinct(locked) && Distinct(poolBlocked)
    && Elems(waiting) !! Elems(locked) !! Elems(poolBlocked) !! jobs !! outcome.Keys
    && requested == Elems(waiting) + Elems(locked) + Elems(poolBlocked) + jobs + outcome.Keys
  }

  lemma PlacesPartition(requested: set<string>, place: map<string, Place>, waiting: seq<string>, locked: seq<string>,
                        poolBlocked: seq<string>, jobs: set<string>, outcome: map<string, bool>)
    requires QueuesOk(requested, place, locked, poolBlocked, jobs, outcome)
    requires forall t :: t in waiting <==> t in place && (place[t].Unvisited? || place[t].InHand?)
    ensures Partition(requested, waiting, locked, poolBlocked, jobs, outcome)
  {
    forall t: string
      ensures t in requested <==> t in waiting || t in locked || t in poolBlocked || t in jobs || t in outcome
      ensures t in waiting ==> t !in locked && t !in poolBlocked && t !in jobs && t !in outcome
      ensures t in locked ==> t !in poolBlocked && t !in jobs && t !in outcome
      ensures t in poolBlocked ==> t !in jobs && t !in outcome
      ensures t in jobs ==> t !in outcome
    {
      assert t in requested <==> t in place;
      assert t in locked <==> At(place, t, InLockedQueue);
      assert t in poolBlocked <==> At(place, t, InPoolQueue);
      assert t in jobs <==> At(place, t, Running);
      assert t in outcome <==> At(place, t, Resolved);
    }
  }

  /** Outcomes are what was seen last, and nothing being built above was touched. */
  ghost predicate OutcomesOk(requested: set<string>, saw: map<string, Saw>, outcome: map<string, bool>,
                             fidOf: string -> int, cycles: set<int>)
  {
    && saw.Keys == requested
    && (forall t :: t in outcome ==> t in saw && Final(saw[t]) && outcome[t] == Succeeded(saw[t]))
    && (forall t :: t in saw && !NeverLocked(saw[t]) ==> fidOf(t) !in cycles)
    && (forall t :: t in saw && saw[t].LockCyclic? ==> fidOf(t) in cycles)
  }

  /** Why a run ended as it did.  Only an end of its own leaves nothing unresolved. */
  ghost predicate ExitOk(exit: Exit, requested: set<string>, waiting: seq<string>, locked: seq<string>, poolBlocked: seq<string>,
                         jobs: set<string>, outcome: map<string, bool>, saw: map<string, Saw>, vanished: bool, keepGoing: bool)
    requires outcome.Keys <= requested == saw.Keys && Elems(waiting) <= requested
  {
    && (outcome.Keys == requested ==> exit.Code? && 0 <= exit.rc <= 2)
    && (vanished <==> exit == Code(205))
    && match exit
       case Code(rc) =>
         || rc == 0
         || ((rc == 1 || rc == 2) && jobs == {} && (keepGoing ==> outcome.Keys == requested)
             && exists t :: t in outcome && !outcome[t] && (rc == 2 <==> saw[t].FailedElsewhere?))
         || (rc == 204 && exists t :: t in waiting && (t == "" || '\n' in t))
         || rc == 205
         || (rc == 208 && exists t :: t in waiting && saw[t].LockCyclic?)
       case Error => exists t :: t in waiting && Fatal(saw[t])
       case StillRunning => jobs != {} || locked != [] || poolBlocked != [] || exists t :: t in waiting && saw[t].LockBusy?
  }

  /**
   `redo-ifchange` on its locking path.  Wherever it stops, every requested
   target is in exactly one of: not finished being visited (`waiting`), locked
   queue, pool queue, running job, resolved.  In the second pass it never blocked
   on a lock while owning a target lock or a pool slot; every other wait for a
   lock was for a missing dependency, with the target's own lock held.  The result
   is 0 exactly when every requested target was resolved successfully; otherwise
   it says what went wrong.
   */
  method RunIfchange(targets: seq<string>, fidOf: string -> int, cycles: set<int>, keepGoing: bool, patience: nat)
    returns (exit: Exit, waiting: seq<string>, locked: seq<string>, poolBlocked: seq<string>, jobs: set<string>,
             outcome: map<string, bool>, saw: map<string, Saw>, vanished: bool,
             blockedWith: seq<(set<int>, set<string>)>, inlineWaits: seq<(string, set<int>)>, flagAt: seq<int>)
    ensures Partition(Elems(targets), waiting, locked, poolBlocked, jobs, outcome)
    ensures LogsOk(blockedWith, keepGoing, flagAt) && InlineOk(Elems(targets), fidOf, inlineWaits)
    ensures exit == Code(0) <==> outcome.Keys == Elems(targets) && forall t :: t in outcome ==> outcome[t]
    ensures OutcomesOk(Elems(targets), saw, outcome, fidOf, cycles)
    ensures ExitOk(exit, Elems(targets), waiting, locked, poolBlocked, jobs, outcome, saw, vanished, keepGoing)
    ensures (exists t :: t in targets && '\n' in t) ==> exit == Code(204) && Elems(waiting) == Elems(targets)
  {
    hide QueuesOk, LocksOk, SawOk, InlineOk, LogsOk;
    var s := new Scheduler(Elems(targets), fidOf, cycles, keepGoing);
    exit := s.Drive(targets, patience);
    locked, poolBlocked, jobs, outcome, saw, vanished := s.locked, s.poolBlocked, s.jobs, s.outcome, s.saw, s.vanished;
    blockedWith, inlineWaits, flagAt := s.blockedWith, s.inlineWaits, s.flagAt;
    waiting := Outside(targets, locked, poolBlocked, jobs, outcome);
    s.Meaning(exit, waiting);
  }

  /** The requested targets that are in none of the four tables. */
  function Outside(targets: seq<string>, locked: seq<string>, poolBlocked: seq<string>, jobs: set<string>,
                   outcome: map<string, bool>): (r: seq<string>)
    ensures forall t :: t in r <==>
      t in targets && t !in locked && t !in poolBlocked && t !in jobs && t !in outcome
  {
    if targets == [] then []
    else
      var rest := Outside(targets[1..], locked, poolBlocked, jobs, outcome);
      var t := targets[0];
      if t in locked || t in poolBlocked || t in jobs || t in outcome then rest else [t] + rest
  }
}
