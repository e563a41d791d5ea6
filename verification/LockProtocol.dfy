/**
 Target locks across the whole process tree: the protocol and its invariant.

 Each redo process either runs at the top or inside the job building one target.
 A job runs the target's script, or it is out of band: `redo-unlocked` first runs
 a fix-up redo on checksummed files below the target and then the script, all
 under the lock of the process that started the job.  A lock is owned by the
 process that took it (POSIX.1-2017 `fcntl()` record locks), first in hand and
 then on behalf of a running job.

 A process waits for a lock at two points.  The scheduler waits after `wait_all`,
 that is, when none of its jobs is running, and gives the lock back before it
 tries for it again.  The inline rebuild of a missing dependency waits with the
 target in hand and with jobs running, keeps the lock, starts the dependency's
 script and stays in `wait_all` until all jobs of the process have ended.  Either
 way it waits only for a target that it asks for and that is not in REDO_CYCLES
 (redo_core/src/cycles.rs).  A script is started with its target added to
 REDO_CYCLES; a fix-up redo is not.  Pools are not part of this model.
 */
module LockProtocol {
  import opened Common

  datatype Proc = Proc(
    inside: Option<int>,   // the target in whose job this process runs
    fixup: bool,           // run by redo-unlocked, not by the target's script
    depth: nat,            // how many jobs deep
    cycles: set<int>,      // REDO_CYCLES
    inHand: Option<int>,   // lock owned, job not yet started
    missing: Option<int>,  // lock of a missing dependency of the target in hand
    draining: bool,        // in `wait_all` for the job of that dependency
    waiting: Option<int>)  // blocked in waitlock
  {
    predicate Free() { inHand.None? && waiting.None? }

    /** Neither waiting for nor building a missing dependency. */
    predicate Plain() { missing.None? && (inHand.Some? ==> waiting.None?) }
  }

  datatype System = System(
    procs: map<int, Proc>,
    owner: map<int, int>,  // locked target -> process
    jobs: set<int>,        // locked targets whose job is running
    outOfBand: set<int>)   // those of them that run redo-unlocked

  datatype Step =
    | TryLock(p: int, t: int)
    | Skip(p: int)           // clean, overridden, cached or failed: unlock
    | Launch(p: int, outOfBand: bool)
    | Enter(q: int, t: int, fixup: bool)  // the job of t starts a nested redo
    | Finish(t: int)
    | Block(p: int, t: int)
    | BlockInline(p: int, u: int)  // `build_one` for a missing dependency
    | SkipMissing(p: int)
    | LaunchMissing(p: int)
    | Drained(p: int)
    | Wake(p: int)
    | Leave(p: int)

  type Relation = (int, int) -> bool

  /** A process as it starts. */
  function Fresh(inside: Option<int>, fixup: bool, depth: nat, cycles: set<int>): Proc {
    Proc(inside, fixup, depth, cycles, None, None, false, None)
  }

  function Init(root: int): System {
    System(map[root := Fresh(None, false, 0, {})], map[], {}, {})
  }

  ghost predicate DepWalk(dep: Relation, w: seq<int>) {
    forall i :: 0 <= i < |w| - 1 ==> dep(w[i], w[i + 1])
  }

  /** `a` depends on `b`, directly or not. */
  ghost predicate Below(dep: Relation, a: int, b: int) {
    exists w :: DepWalk(dep, w) && |w| >= 2 && w[0] == a && w[|w| - 1] == b
  }

  /**
   A script asks only for what then becomes a dependency of its target.  A
   fix-up redo asks for a MustBuild list: other files reachable from the target
   (`Dirtiness.MustBuildMeaning`).
   */
  ghost predicate Asks(dep: Relation, p: Proc, t: int) {
    p.inside.Some? ==>
      if p.fixup then t != p.inside.value && Below(dep, p.inside.value, t) else dep(p.inside.value, t)
  }

  predicate HasJob(s: System, p: int) {
    exists t :: t in s.jobs && t in s.owner && s.owner[t] == p
  }

  /** With no other redo inside it, a job of a process that is not waiting can be reaped. */
  ghost predicate Enabled(dep: Relation, s: System, step: Step) {
    match step
    case TryLock(p, t) =>
      p in s.procs && s.procs[p].Free() && Asks(dep, s.procs[p], t) && t !in s.procs[p].cycles && t !in s.owner
    case Skip(p) =>
      p in s.procs && s.procs[p].inHand.Some? && s.procs[p].Plain()
    case Launch(p, outOfBand) =>  // a fix-up redo runs with REDO_NO_OOB
      p in s.procs && s.procs[p].inHand.Some? && s.procs[p].Plain() && (outOfBand ==> !s.procs[p].fixup)
    case Enter(q, t, fixup) =>
      q !in s.procs && t in s.jobs && t in s.owner && s.owner[t] in s.procs && (fixup ==> t in s.outOfBand)
    case Finish(t) =>
      && t in s.jobs && t in s.owner && s.owner[t] in s.procs && s.procs[s.owner[t]].waiting.None?
      && forall p :: p in s.procs ==> s.procs[p].inside != Some(t)
    case Block(p, t) =>
      p in s.procs && s.procs[p].Free() && Asks(dep, s.procs[p], t) && t !in s.procs[p].cycles && !HasJob(s, p)
    case BlockInline(p, u) =>  // `Lock::new` refuses a lock that the process owns
      && p in s.procs && s.procs[p].inHand.Some? && s.procs[p].Plain()
      && dep(s.procs[p].inHand.value, u) && u !in s.procs[p].cycles + {s.procs[p].inHand.value}
      && (u in s.owner ==> s.owner[u] != p)
    case SkipMissing(p) => p in s.procs && s.procs[p].missing.Some? && !s.procs[p].draining
    case LaunchMissing(p) => p in s.procs && s.procs[p].missing.Some? && !s.procs[p].draining
    case Drained(p) => p in s.procs && s.procs[p].missing.Some? && s.procs[p].draining && !HasJob(s, p)
    case Wake(p) => p in s.procs && s.procs[p].waiting.Some? && s.procs[p].waiting.value !in s.owner
    case Leave(p) => p in s.procs && s.procs[p].Free() && !HasJob(s, p)
  }

  /** What a job of `t` finds in REDO_CYCLES besides what its owner found there. */
  function Added(parent: Proc, t: int, fixup: bool): set<int> {
    if fixup then {}
    else if parent.missing == Some(t) && parent.inHand.Some? then {t, parent.inHand.value}
    else {t}
  }

  function Next(dep: Relation, s: System, step: Step): System
    requires Enabled(dep, s, step)
  {
    match step
    case TryLock(p, t) => s.(procs := s.procs[p := s.procs[p].(inHand := Some(t))], owner := s.owner[t := p])
    case Skip(p) =>
      s.(procs := s.procs[p := s.procs[p].(inHand := None)], owner := s.owner - {s.procs[p].inHand.value})
    case Launch(p, outOfBand) =>
      var t := s.procs[p].inHand.value;
      s.(procs := s.procs[p := s.procs[p].(inHand := None)], jobs := s.jobs + {t},
         outOfBand := if outOfBand then s.outOfBand + {t} else s.outOfBand)
    case Enter(q, t, fixup) =>
      var parent := s.procs[s.owner[t]];
      s.(procs := s.procs[q := Fresh(Some(t), fixup, parent.depth + 1, parent.cycles + Added(parent, t, fixup))])
    case Finish(t) =>  // reaped; `build_one` unlocks only after `wait_all`
      s.(owner := if s.procs[s.owner[t]].missing == Some(t) then s.owner else s.owner - {t},
         jobs := s.jobs - {t}, outOfBand := s.outOfBand - {t})
    case Block(p, t) => s.(procs := s.procs[p := s.procs[p].(waiting := Some(t))])
    case BlockInline(p, u) => s.(procs := s.procs[p := s.procs[p].(waiting := Some(u))])
    case SkipMissing(p) =>
      s.(procs := s.procs[p := s.procs[p].(missing := None)], owner := s.owner - {s.procs[p].missing.value})
    case LaunchMissing(p) =>
      s.(procs := s.procs[p := s.procs[p].(draining := true)], jobs := s.jobs + {s.procs[p].missing.value})
    case Drained(p) =>
      s.(procs := s.procs[p := s.procs[p].(missing := None, draining := false)],
         owner := s.owner - {s.procs[p].missing.value})
    case Wake(p) =>  // the scheduler unlocks at once, `build_one` keeps the lock
      var x := s.procs[p];
      if x.inHand.None? then s.(procs := s.procs[p := x.(waiting := None)])
      else s.(procs := s.procs[p := x.(waiting := None, missing := x.waiting)], owner := s.owner[x.waiting.value := p])
    case Leave(p) => s.(procs := s.procs - {p})
  }

  // ---------------------------------------------------------------------------
  // The invariant
  // ---------------------------------------------------------------------------

  ghost predicate ProcOk(dep: Relation, s: System, p: int)
    requires p in s.procs
  {
    var x := s.procs[p];
    && (x.inHand.Some? ==> x.inHand.value in s.owner && s.owner[x.inHand.value] == p && x.inHand.value !in s.jobs)
    && (x.missing.Some? ==>
          && x.inHand.Some? && x.waiting.None? && dep(x.inHand.value, x.missing.value) && x.missing != x.inHand
          && x.missing.value in s.owner && s.owner[x.missing.value] == p && x.missing.value !in s.outOfBand
          && (x.missing.value in s.jobs ==> x.draining))
    && (x.draining ==> x.missing.Some?)
    && (x.waiting.Some? ==>
          && x.waiting.value !in x.cycles
          && if x.inHand.Some? then dep(x.inHand.value, x.waiting.value) && x.waiting != x.inHand
             else Asks(dep, x, x.waiting.value))
    && (x.inside.Some? ==>
          && x.inside.value in s.jobs && x.inside.value in s.owner && s.owner[x.inside.value] in s.procs
          && var parent := s.procs[s.owner[x.inside.value]];
          && x.depth == parent.depth + 1 && x.cycles == parent.cycles + Added(parent, x.inside.value, x.fixup)
          && (x.fixup ==> x.inside.value in s.outOfBand))
    && (x.inside.None? ==> x.depth == 0 && x.cycles == {} && !x.fixup)
  }

  ghost predicate LockOk(dep: Relation, s: System, t: int)
    requires t in s.owner
  {
    var p := s.owner[t];
    && p in s.procs
    && (s.procs[p].missing == Some(t) || Asks(dep, s.procs[p], t))
    && (s.procs[p].waiting.Some? ==> s.procs[p].inHand.Some?)   // waiting as an owner is inline
    && (t !in s.jobs ==> s.procs[p].inHand == Some(t) || s.procs[p].missing == Some(t))
    && (t in s.outOfBand ==> !s.procs[p].fixup)
  }

  ghost predicate Inv(dep: Relation, s: System) {
    && s.outOfBand <= s.jobs <= s.owner.Keys
    && (forall p :: p in s.procs ==> ProcOk(dep, s, p))
    && (forall t :: t in s.owner ==> LockOk(dep, s, t))
  }

  lemma InitInv(dep: Relation, root: int)
    ensures Inv(dep, Init(root))
  {
  }

  lemma TryLockInv(dep: Relation, s: System, p: int, t: int)
    requires Inv(dep, s) && Enabled(dep, s, TryLock(p, t))
    ensures Inv(dep, Next(dep, s, TryLock(p, t)))
  {
    var s' := Next(dep, s, TryLock(p, t));
    assert ProcOk(dep, s, p);
    forall u | u in s'.owner ensures LockOk(dep, s', u) {
      if u != t { assert LockOk(dep, s, u); }
    }
    forall q | q in s'.procs ensures ProcOk(dep, s', q) {
      assert ProcOk(dep, s, q);
    }
  }

  /** The lock in hand is dropped, or handed to a job. */
  lemma SkipInv(dep: Relation, s: System, p: int)
    requires Inv(dep, s) && Enabled(dep, s, Skip(p))
    ensures Inv(dep, Next(dep, s, Skip(p)))
  {
    var s' := Next(dep, s, Skip(p));
    assert ProcOk(dep, s, p);
    forall u | u in s'.owner ensures LockOk(dep, s', u) {
      assert LockOk(dep, s, u);
    }
    forall q | q in s'.procs ensures ProcOk(dep, s', q) {
      assert ProcOk(dep, s, q);
    }
  }

  lemma LaunchInv(dep: Relation, s: System, p: int, outOfBand: bool)
    requires Inv(dep, s) && Enabled(dep, s, Launch(p, outOfBand))
    ensures Inv(dep, Next(dep, s, Launch(p, outOfBand)))
  {
    var s' := Next(dep, s, Launch(p, outOfBand));
    assert ProcOk(dep, s, p);
    forall u | u in s'.owner ensures LockOk(dep, s', u) {
      assert LockOk(dep, s, u);
    }
    forall q | q in s'.procs ensures ProcOk(dep, s', q) {
      assert ProcOk(dep, s, q);
    }
  }

  lemma EnterInv(dep: Relation, s: System, r: int, t: int, fixup: bool)
    requires Inv(dep, s) && Enabled(dep, s, Enter(r, t, fixup))
    ensures Inv(dep, Next(dep, s, Enter(r, t, fixup)))
  {
    var s' := Next(dep, s, Enter(r, t, fixup));
    assert LockOk(dep, s, t);
    forall u | u in s'.owner ensures LockOk(dep, s', u) {
      assert LockOk(dep, s, u);
    }
    forall q | q in s'.procs ensures ProcOk(dep, s', q) {
      if q != r { assert ProcOk(dep, s, q); }
    }
  }

  lemma FinishInv(dep: Relation, s: System, t: int)
    requires Inv(dep, s) && Enabled(dep, s, Finish(t))
    ensures Inv(dep, Next(dep, s, Finish(t)))
  {
    var s' := Next(dep, s, Finish(t));
    assert ProcOk(dep, s, s.owner[t]);
    forall u | u in s'.owner ensures LockOk(dep, s', u) {
      assert LockOk(dep, s, u);
    }
    forall q | q in s'.procs ensures ProcOk(dep, s', q) {
      assert ProcOk(dep, s, q);
    }
  }

  /** Blocking empty-handed: after `wait_all` every lock of the process is gone. */
  lemma FreeOwnsNothing(dep: Relation, s: System, p: int, t: int)
    requires Inv(dep, s) && p in s.procs && s.procs[p].Free() && !HasJob(s, p) && t in s.owner
    ensures s.owner[t] != p
  {
    assert LockOk(dep, s, t) && ProcOk(dep, s, p);
  }

  lemma BlockInv(dep: Relation, s: System, p: int, t: int)
    requires Inv(dep, s) && Enabled(dep, s, Block(p, t))
    ensures Inv(dep, Next(dep, s, Block(p, t)))
  {
    var s' := Next(dep, s, Block(p, t));
    assert ProcOk(dep, s, p);
    forall u | u in s'.owner ensures LockOk(dep, s', u) {
      assert LockOk(dep, s, u);
      FreeOwnsNothing(dep, s, p, u);
    }
    forall q | q in s'.procs ensures ProcOk(dep, s', q) {
      assert ProcOk(dep, s, q);
    }
  }

  lemma BlockInlineInv(dep: Relation, s: System, p: int, v: int)
    requires Inv(dep, s) && Enabled(dep, s, BlockInline(p, v))
    ensures Inv(dep, Next(dep, s, BlockInline(p, v)))
  {
    var s' := Next(dep, s, BlockInline(p, v));
    assert ProcOk(dep, s, p);
    forall u | u in s'.owner ensures LockOk(dep, s', u) {
      assert LockOk(dep, s, u);
    }
    forall q | q in s'.procs ensures ProcOk(dep, s', q) {
      assert ProcOk(dep, s, q);
    }
  }

  lemma SkipMissingInv(dep: Relation, s: System, p: int)
    requires Inv(dep, s) && Enabled(dep, s, SkipMissing(p))
    ensures Inv(dep, Next(dep, s, SkipMissing(p)))
  {
    var s' := Next(dep, s, SkipMissing(p));
    assert ProcOk(dep, s, p);
    forall u | u in s'.owner ensures LockOk(dep, s', u) {
      assert LockOk(dep, s, u);
    }
    forall q | q in s'.procs ensures ProcOk(dep, s', q) {
      assert ProcOk(dep, s, q);
    }
  }

  lemma LaunchMissingInv(dep: Relation, s: System, p: int)
    requires Inv(dep, s) && Enabled(dep, s, LaunchMissing(p))
    ensures Inv(dep, Next(dep, s, LaunchMissing(p)))
  {
    var s' := Next(dep, s, LaunchMissing(p));
    assert ProcOk(dep, s, p);
    forall u | u in s'.owner ensures LockOk(dep, s', u) {
      assert LockOk(dep, s, u);
    }
    forall q | q in s'.procs ensures ProcOk(dep, s', q) {
      assert ProcOk(dep, s, q);
    }
  }

  lemma JobsEnded(s: System, p: int, t: int)
    requires !HasJob(s, p) && t in s.owner && s.owner[t] == p
    ensures t !in s.jobs
  {
  }

  lemma DrainedInv(dep: Relation, s: System, p: int)
    requires Inv(dep, s) && Enabled(dep, s, Drained(p))
    ensures Inv(dep, Next(dep, s, Drained(p)))
  {
    var s' := Next(dep, s, Drained(p));
    assert ProcOk(dep, s, p);
    JobsEnded(s, p, s.procs[p].missing.value);
    forall u | u in s'.owner ensures LockOk(dep, s', u) {
      assert LockOk(dep, s, u);
    }
    forall q | q in s'.procs ensures ProcOk(dep, s', q) {
      assert ProcOk(dep, s, q);
    }
  }

  lemma WakeInv(dep: Relation, s: System, p: int)
    requires Inv(dep, s) && Enabled(dep, s, Wake(p)) && s.procs[p].inHand.None?
    ensures Inv(dep, Next(dep, s, Wake(p)))
  {
    var s' := Next(dep, s, Wake(p));
    assert ProcOk(dep, s, p);
    forall u | u in s'.owner ensures LockOk(dep, s', u) {
      assert LockOk(dep, s, u);
    }
    forall q | q in s'.procs ensures ProcOk(dep, s', q) {
      assert ProcOk(dep, s, q);
    }
  }

  lemma WakeInlineInv(dep: Relation, s: System, p: int)
    requires Inv(dep, s) && Enabled(dep, s, Wake(p)) && s.procs[p].inHand.Some?
    ensures Inv(dep, Next(dep, s, Wake(p)))
  {
    var s' := Next(dep, s, Wake(p));
    var v := s.procs[p].waiting.value;
    assert ProcOk(dep, s, p);
    forall u | u in s'.owner ensures LockOk(dep, s', u) {
      if u != v { assert LockOk(dep, s, u); }
    }
    forall q | q in s'.procs ensures ProcOk(dep, s', q) {
      assert ProcOk(dep, s, q);
    }
  }

  lemma LeaveInv(dep: Relation, s: System, p: int)
    requires Inv(dep, s) && Enabled(dep, s, Leave(p))
    ensures Inv(dep, Next(dep, s, Leave(p)))
  {
    var s' := Next(dep, s, Leave(p));
    forall u | u in s'.owner ensures LockOk(dep, s', u) {
      assert LockOk(dep, s, u);
      FreeOwnsNothing(dep, s, p, u);
    }
    forall q | q in s'.procs ensures ProcOk(dep, s', q) {
      assert ProcOk(dep, s, q);
      if s.procs[q].inside.Some? {
        FreeOwnsNothing(dep, s, p, s.procs[q].inside.value);
      }
    }
  }

  lemma StepInv(dep: Relation, s: System, step: Step)
    requires Inv(dep, s) && Enabled(dep, s, step)
    ensures Inv(dep, Next(dep, s, step))
  {
    match step {
      case TryLock(p, t) => TryLockInv(dep, s, p, t);
      case Skip(p) => SkipInv(dep, s, p);
      case Launch(p, outOfBand) => LaunchInv(dep, s, p, outOfBand);
      case Enter(q, t, fixup) => EnterInv(dep, s, q, t, fixup);
      case Finish(t) => FinishInv(dep, s, t);
      case Block(p, t) => BlockInv(dep, s, p, t);
      case BlockInline(p, u) => BlockInlineInv(dep, s, p, u);
      case SkipMissing(p) => SkipMissingInv(dep, s, p);
      case LaunchMissing(p) => LaunchMissingInv(dep, s, p);
      case Drained(p) => DrainedInv(dep, s, p);
      case Wake(p) => if s.procs[p].inHand.None? { WakeInv(dep, s, p); } else { WakeInlineInv(dep, s, p); }
      case Leave(p) => LeaveInv(dep, s, p);
    }
  }

  ghost predicate Run(dep: Relation, s: System, steps: seq<Step>, t: System)
    decreases |steps|
  {
    if steps == [] then s == t
    else Enabled(dep, s, steps[0]) && Run(dep, Next(dep, s, steps[0]), steps[1..], t)
  }

  lemma {:induction false} RunInv(dep: Relation, s: System, steps: seq<Step>, t: System)
    requires Inv(dep, s) && Run(dep, s, steps, t)
    ensures Inv(dep, t)
    decreases |steps|
  {
    if steps != [] {
      StepInv(dep, s, steps[0]);
      RunInv(dep, Next(dep, s, steps[0]), steps[1..], t);
    }
  }

  ghost predicate Reachable(dep: Relation, s: System) {
    exists root, steps :: Run(dep, Init(root), steps, s)
  }

  /** So what is proved below from the invariant holds in every reachable state. */
  lemma ReachableInv(dep: Relation, s: System)
    requires Reachable(dep, s)
    ensures Inv(dep, s)
  {
    var root, steps :| Run(dep, Init(root), steps, s);
    InitInv(dep, root);
    RunInv(dep, Init(root), steps, s);
  }

  // ---------------------------------------------------------------------------
  // Theorems
  // ---------------------------------------------------------------------------

  /** The blocking discipline: whoever waits owns a lock exactly when it waits inline. */
  lemma WaitersOwnNothing(dep: Relation, s: System, p: int)
    requires Reachable(dep, s) && p in s.procs && s.procs[p].waiting.Some?
    ensures (exists t :: t in s.owner && s.owner[t] == p) <==> s.procs[p].inHand.Some?
  {
    ReachableInv(dep, s);
    assert ProcOk(dep, s, p);
    if s.procs[p].inHand.Some? {
      var h := s.procs[p].inHand.value;
      assert h in s.owner && s.owner[h] == p;
    }
    forall t | t in s.owner && s.owner[t] == p
      ensures s.procs[p].inHand.Some?
    {
      assert LockOk(dep, s, t);
    }
  }

  /** A redo in the job of `a` waits for `b` or owns it. */
  ghost predicate Host(s: System, q: int, a: int, b: int) {
    && q in s.procs && s.procs[q].inside == Some(a)
    && (s.procs[q].waiting == Some(b) || (b in s.owner && s.owner[b] == q))
  }

  /** The job of `a` cannot end before lock `b` is released. */
  ghost predicate WaitsFor(s: System, a: int, b: int) {
    a in s.jobs && exists q :: Host(s, q, a, b)
  }

  lemma AsksBelow(dep: Relation, p: Proc, t: int)
    requires Asks(dep, p, t) && p.inside.Some?
    ensures Below(dep, p.inside.value, t)
  {
    if !p.fixup {
      assert DepWalk(dep, [p.inside.value, t]);
    }
  }

  lemma BelowTransitive(dep: Relation, a: int, b: int, c: int)
    requires Below(dep, a, b) && Below(dep, b, c)
    ensures Below(dep, a, c)
  {
    var v :| DepWalk(dep, v) && |v| >= 2 && v[0] == a && v[|v| - 1] == b;
    var w :| DepWalk(dep, w) && |w| >= 2 && w[0] == b && w[|w| - 1] == c;
    var r := v + w[1..];
    forall i | 0 <= i < |r| - 1
      ensures dep(r[i], r[i + 1])
    {
      if i >= |v| - 1 {
        assert r[i] == w[i - |v| + 1] && r[i + 1] == w[i - |v| + 2];
      }
    }
    assert DepWalk(dep, r);
  }

  /** What a process waits for or owns lies below the target whose job it runs in. */
  lemma WantsBelow(dep: Relation, s: System, p: int, a: int, b: int)
    requires Inv(dep, s) && Host(s, p, a, b)
    ensures Below(dep, a, b)
    ensures !s.procs[p].fixup ==> dep(a, b) || exists h :: dep(a, h) && dep(h, b)
  {
    var x := s.procs[p];
    assert ProcOk(dep, s, p);
    if b in s.owner && s.owner[b] == p {
      assert LockOk(dep, s, b);
    }
    if Asks(dep, x, b) {
      AsksBelow(dep, x, b);
    } else {
      var h := x.inHand.value;
      assert LockOk(dep, s, h);
      AsksBelow(dep, x, h);
      assert DepWalk(dep, [h, b]);
      BelowTransitive(dep, a, h, b);
    }
  }

  /**
   A lock waits for another only along dependencies: for a script's job along one,
   or along two when the second is a missing dependency of the first.
   */
  lemma WaitsAreDependencies(dep: Relation, s: System, a: int, b: int)
    requires Inv(dep, s) && WaitsFor(s, a, b)
    ensures Below(dep, a, b)
    ensures a !in s.outOfBand ==> dep(a, b) || exists h :: dep(a, h) && dep(h, b)
  {
    var p :| Host(s, p, a, b);
    assert ProcOk(dep, s, p);
    WantsBelow(dep, s, p, a, b);
  }

  ghost predicate Acyclic(dep: Relation) {
    forall a :: !Below(dep, a, a)
  }

  lemma {:induction false} WaitsForBelow(dep: Relation, s: System, w: seq<int>)
    requires Inv(dep, s) && |w| >= 2
    requires forall i :: 0 <= i < |w| - 1 ==> WaitsFor(s, w[i], w[i + 1])
    ensures Below(dep, w[0], w[|w| - 1])
    decreases |w|
  {
    WaitsAreDependencies(dep, s, w[0], w[0 + 1]);
    if |w| > 2 {
      var v := w[1..];
      forall i | 0 <= i < |v| - 1
        ensures WaitsFor(s, v[i], v[i + 1])
      {
        assert WaitsFor(s, w[i + 1], w[(i + 1) + 1]);
      }
      WaitsForBelow(dep, s, v);
      BelowTransitive(dep, w[0], w[1], w[|w| - 1]);
    }
  }

  /** With acyclic dependencies the waits-for relation on locks has no cycle. */
  lemma WaitsForAcyclic(dep: Relation, s: System, w: seq<int>)
    requires Reachable(dep, s) && Acyclic(dep) && |w| >= 2
    requires forall i :: 0 <= i < |w| - 1 ==> WaitsFor(s, w[i], w[i + 1])
    ensures w[0] != w[|w| - 1]
  {
    ReachableInv(dep, s);
    WaitsForBelow(dep, s, w);
  }

  // ---------------------------------------------------------------------------
  // Runs step by step
  // ---------------------------------------------------------------------------

  lemma {:induction false} RunAppend(dep: Relation, s: System, steps: seq<Step>, t: System, step: Step)
    requires Run(dep, s, steps, t) && Enabled(dep, t, step)
    ensures Run(dep, s, steps + [step], Next(dep, t, step))
    decreases |steps|
  {
    var all := steps + [step];
    if steps == [] {
      assert all == [step];
      assert Run(dep, Next(dep, t, step), [], Next(dep, t, step));
    } else {
      assert all[0] == steps[0] && all[1..] == steps[1..] + [step];
      RunAppend(dep, Next(dep, s, steps[0]), steps[1..], t, step);
    }
  }

  /** Taking one more step. */
  lemma ReachNext(dep: Relation, s: System, step: Step) returns (t: System)
    requires Reachable(dep, s) && Enabled(dep, s, step)
    ensures Reachable(dep, t) && t == Next(dep, s, step)
  {
    t := Next(dep, s, step);
    var root, steps :| Run(dep, Init(root), steps, s);
    RunAppend(dep, Init(root), steps, s, step);
  }

  lemma ReachInit(dep: Relation, root: int)
    ensures Reachable(dep, Init(root))
  {
    assert Run(dep, Init(root), [], Init(root));
  }

  /** Take a lock and start its job. */
  lemma ReachJob(dep: Relation, s: System, p: int, t: int, outOfBand: bool) returns (s': System)
    requires Reachable(dep, s) && Enabled(dep, s, TryLock(p, t)) && (outOfBand ==> !s.procs[p].fixup)
    ensures Reachable(dep, s')
    ensures s' == s.(owner := s.owner[t := p], jobs := s.jobs + {t},
                     outOfBand := if outOfBand then s.outOfBand + {t} else s.outOfBand)
  {
    ReachableInv(dep, s);
    assert ProcOk(dep, s, p);
    var s1 := ReachNext(dep, s, TryLock(p, t));
    s' := ReachNext(dep, s1, Launch(p, outOfBand));
    assert s'.procs == s.procs;
  }
}
