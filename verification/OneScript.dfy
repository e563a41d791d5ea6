/**
 No target is built by two scripts at once, and when that fails.

 The lock of a target belongs to the process that started its job, not to the job.
 The first pass of `run_ifchange` can return while jobs are running (an empty
 target name, a vanished `.redo` directory, a cycle, or an error such as
 `Lock::new` refusing a lock the process owns).  The process then exits, its locks
 are dropped (POSIX.1-2017 `fcntl()`), and its scripts run on.

 A process may have any number of locks in hand, and any process may ask for any
 target, so this covers every order of calls in the scheduler.
 */
module OneScript {
  import opened Common

  datatype Job = Job(target: int, pid: int)

  datatype System = System(
    procs: set<int>,
    gone: set<int>,         // processes that have exited
    owner: map<int, int>,   // locked target -> process
    jobs: map<int, Job>)    // scripts running

  datatype Step =
    | Arrive(p: int)
    | TryLock(p: int, t: int)
    | Launch(p: int, t: int, j: int)
    | End(j: int)           // the script exits
    | Unlock(p: int, t: int)
    | Leave(p: int)

  const Empty: System := System({}, {}, map[], map[])

  ghost predicate Building(s: System, p: int, t: int) {
    exists j :: j in s.jobs && s.jobs[j] == Job(t, p)
  }

  /** A lock is handed to one job, and dropped only after that job has been reaped. */
  ghost predicate Enabled(s: System, step: Step) {
    match step
    case Arrive(p) => p !in s.procs && p !in s.gone
    case TryLock(p, t) => p in s.procs && t !in s.owner
    case Launch(p, t, j) => p in s.procs && t in s.owner && s.owner[t] == p && !Building(s, p, t) && j !in s.jobs
    case End(j) => j in s.jobs
    case Unlock(p, t) => p in s.procs && t in s.owner && s.owner[t] == p && !Building(s, p, t)
    case Leave(p) => p in s.procs
  }

  function Next(s: System, step: Step): System
    requires Enabled(s, step)
  {
    match step
    case Arrive(p) => s.(procs := s.procs + {p})
    case TryLock(p, t) => s.(owner := s.owner[t := p])
    case Launch(p, t, j) => s.(jobs := s.jobs[j := Job(t, p)])
    case End(j) => s.(jobs := s.jobs - {j})
    case Unlock(p, t) => s.(owner := s.owner - {t})
    case Leave(p) =>
      s.(procs := s.procs - {p}, gone := s.gone + {p}, owner := map t | t in s.owner && s.owner[t] != p :: s.owner[t])
  }

  /** A process exits while one of its scripts is running. */
  ghost predicate Abandons(s: System, step: Step) {
    step.Leave? && exists j :: j in s.jobs && s.jobs[j].pid == step.p
  }

  ghost predicate Run(s: System, steps: seq<Step>, t: System)
    decreases |steps|
  {
    if steps == [] then s == t
    else Enabled(s, steps[0]) && Run(Next(s, steps[0]), steps[1..], t)
  }

  /** A run in which no process exits too early. */
  ghost predicate PatientRun(s: System, steps: seq<Step>, t: System)
    decreases |steps|
  {
    if steps == [] then s == t
    else Enabled(s, steps[0]) && !Abandons(s, steps[0]) && PatientRun(Next(s, steps[0]), steps[1..], t)
  }

  ghost predicate Reachable(s: System) {
    exists steps :: Run(Empty, steps, s)
  }

  /** Two scripts are building one target. */
  ghost predicate Conflict(s: System) {
    exists j, k :: j in s.jobs && k in s.jobs && j != k && s.jobs[j].target == s.jobs[k].target
  }

  ghost predicate Orphan(s: System, j: int) {
    j in s.jobs && s.jobs[j].pid !in s.procs
  }

  ghost predicate NoOrphans(s: System) {
    forall j :: j in s.jobs ==> !Orphan(s, j)
  }

  /** A script whose process is alive runs under that process's lock, alone. */
  ghost predicate Inv(s: System) {
    && s.procs !! s.gone
    && (forall t :: t in s.owner ==> s.owner[t] in s.procs)
    && (forall j :: j in s.jobs ==> s.jobs[j].pid in s.procs + s.gone)
    && (forall j :: j in s.jobs && !Orphan(s, j) ==>
          s.jobs[j].target in s.owner && s.owner[s.jobs[j].target] == s.jobs[j].pid)
    && (forall j, k :: j in s.jobs && k in s.jobs && s.jobs[j] == s.jobs[k] && !Orphan(s, j) ==> j == k)
  }

  lemma StepInv(s: System, step: Step)
    requires Inv(s) && Enabled(s, step)
    ensures Inv(Next(s, step))
  {
    var s' := Next(s, step);
    forall j | j in s'.jobs && !Orphan(s', j)
      ensures s'.jobs[j].target in s'.owner && s'.owner[s'.jobs[j].target] == s'.jobs[j].pid
    {
      assert j in s.jobs ==> !Orphan(s, j);
      if step.Unlock? && j in s.jobs {
        assert s.jobs[j] != Job(step.t, step.p);
      }
    }
    forall j, k | j in s'.jobs && k in s'.jobs && s'.jobs[j] == s'.jobs[k] && !Orphan(s', j)
      ensures j == k
    {
      assert j in s.jobs ==> !Orphan(s, j);
      assert k in s.jobs ==> !Orphan(s, k);
    }
  }

  lemma {:induction false} RunInv(s: System, steps: seq<Step>, t: System)
    requires Inv(s) && Run(s, steps, t)
    ensures Inv(t)
    decreases |steps|
  {
    if steps != [] {
      StepInv(s, steps[0]);
      RunInv(Next(s, steps[0]), steps[1..], t);
    }
  }

  lemma ConflictNeedsOrphan(s: System)
    requires Inv(s) && Conflict(s)
    ensures !NoOrphans(s)
  {
    var j, k :| j in s.jobs && k in s.jobs && j != k && s.jobs[j].target == s.jobs[k].target;
    assert Orphan(s, j) || Orphan(s, k);
  }

  lemma {:induction false} PatientRunSafe(s: System, steps: seq<Step>, t: System)
    requires Inv(s) && NoOrphans(s) && PatientRun(s, steps, t)
    ensures Inv(t) && NoOrphans(t)
    decreases |steps|
  {
    if steps != [] {
      StepInv(s, steps[0]);
      PatientRunSafe(Next(s, steps[0]), steps[1..], t);
    }
  }

  lemma {:induction false} FreshId(s: set<int>) returns (x: int)
    ensures forall y :: y in s ==> y < x
    decreases s
  {
    x := 0;
    if s != {} {
      var y := Pick(s);
      var z := FreshId(s - {y});
      x := Max(z, y + 1);
      assert forall v :: v in s ==> v == y || v in s - {y};
    }
  }

  /** A script left behind can be given a second one by whoever comes next. */
  lemma OrphanConflicts(s: System, j: int) returns (steps: seq<Step>, t: System)
    requires Inv(s) && Orphan(s, j)
    ensures PatientRun(s, steps, t) && Conflict(t)
  {
    var target := s.jobs[j].target;
    var k := FreshId(s.jobs.Keys);
    if target in s.owner {
      var q := s.owner[target];
      if Building(s, q, target) {
        var i :| i in s.jobs && s.jobs[i] == Job(target, q);
        steps, t := [], s;
        assert i != j;
      } else {
        steps, t := [Launch(q, target, k)], Next(s, Launch(q, target, k));
        assert PatientRun(t, [], t);
        assert t.jobs[j].target == t.jobs[k].target;
      }
    } else {
      var p := FreshId(s.procs + s.gone);
      assert p !in s.procs + s.gone;
      var s1 := Next(s, Arrive(p));
      var s2 := Next(s1, TryLock(p, target));
      t := Next(s2, Launch(p, target, k));
      steps := [Arrive(p), TryLock(p, target), Launch(p, target, k)];
      assert PatientRun(t, [], t);
      assert PatientRun(s2, [Launch(p, target, k)], t);
      assert PatientRun(s1, [TryLock(p, target), Launch(p, target, k)], t);
      assert t.jobs[j].target == t.jobs[k].target;
    }
  }

  /** No target gets two scripts, whatever happens short of an early exit. */
  ghost predicate Exclusive(s: System) {
    forall steps, t :: PatientRun(s, steps, t) ==> !Conflict(t)
  }

  /**
   From any reachable state on, and as long as no process exits too early, two
   scripts can come to build one target exactly when some earlier exit left a
   script behind that still runs.
   */
  lemma OneScriptIff(s: System)
    requires Reachable(s)
    ensures Exclusive(s) <==> NoOrphans(s)
  {
    var past :| Run(Empty, past, s);
    RunInv(Empty, past, s);
    if NoOrphans(s) {
      forall steps, t | PatientRun(s, steps, t)
        ensures !Conflict(t)
      {
        PatientRunSafe(s, steps, t);
        if Conflict(t) {
          ConflictNeedsOrphan(t);
        }
      }
    } else {
      var j :| j in s.jobs && Orphan(s, j);
      var steps, t := OrphanConflicts(s, j);
    }
  }

  /** So with no early exit from the start, no target ever has two scripts. */
  lemma OneScriptAtATime(steps: seq<Step>, t: System)
    requires PatientRun(Empty, steps, t)
    ensures !Conflict(t)
  {
    assert Run(Empty, [], Empty);
    OneScriptIff(Empty);
  }

  /** An exit leaves a script behind exactly when it abandons one. */
  lemma OrphansAppearIff(s: System, step: Step)
    requires Reachable(s) && NoOrphans(s) && Enabled(s, step)
    ensures NoOrphans(Next(s, step)) <==> !Abandons(s, step)
  {
    if step.Leave? && Abandons(s, step) {
      var j :| j in s.jobs && s.jobs[j].pid == step.p;
      assert Orphan(Next(s, step), j);
    }
  }

  /** It happens: process 1 locks and launches target 5 and exits, and process 2 builds it again. */
  lemma TwoScripts() returns (s: System)
    ensures Reachable(s) && s.jobs == map[1 := Job(5, 1), 2 := Job(5, 2)] && Conflict(s)
  {
    var steps := [Arrive(1), TryLock(1, 5), Launch(1, 5, 1), Leave(1), Arrive(2), TryLock(2, 5), Launch(2, 5, 2)];
    var s1 := Next(Empty, steps[0]);
    var s2 := Next(s1, steps[1]);
    var s3 := Next(s2, steps[2]);
    var s4 := Next(s3, steps[3]);
    var s5 := Next(s4, steps[4]);
    var s6 := Next(s5, steps[5]);
    s := Next(s6, steps[6]);
    forall i | 0 <= i < |steps|
      ensures steps[i..][0] == steps[i] && steps[i..][1..] == steps[i + 1..]
    {
    }
    assert Run(s, steps[7..], s);
    assert Run(s6, steps[6..], s);
    assert Run(s5, steps[5..], s);
    assert Run(s4, steps[4..], s);
    assert Run(s3, steps[3..], s);
    assert Run(s2, steps[2..], s);
    assert Run(s1, steps[1..], s);
    assert Run(Empty, steps, s);
    assert s.jobs[1].target == s.jobs[2].target;
  }
}
