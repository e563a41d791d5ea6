/**
 Which waits can end.  A lock may need others to be released first; the locks that
 can be released are exactly those from which no cycle of needs can be reached.
 The rest waits for ever, whatever anybody does.
 */
module LockWaits {
  import opened Common
  import opened LockProtocol

  /**
   Lock `a` cannot be released before lock `b`: a redo in its job waits for `b` or
   owns it, or its owner waits for `b`, or has locked `b` for the target in hand, or
   is in `wait_all` while `b` is another of its jobs.
   */
  ghost predicate Needs(s: System, a: int, b: int) {
    && a in s.owner && b in s.owner && s.owner[a] in s.procs
    && var x := s.procs[s.owner[a]];
       || WaitsFor(s, a, b)
       || x.waiting == Some(b)
       || (x.inHand == Some(a) && x.missing == Some(b))
       || (x.missing == Some(a) && x.draining && b != a && b in s.jobs && s.owner[b] == s.owner[a])
  }

  ghost predicate NeedsWalk(s: System, w: seq<int>) {
    forall i :: 0 <= i < |w| - 1 ==> Needs(s, w[i], w[i + 1])
  }

  /** Needs that come back to where they have been. */
  ghost predicate Lasso(s: System, w: seq<int>) {
    NeedsWalk(s, w) && exists k :: 0 <= k < |w| - 1 && w[k] == w[|w| - 1]
  }

  ghost predicate Doomed(s: System, t: int) {
    exists w :: Lasso(s, w) && w[0] == t
  }

  // ---------------------------------------------------------------------------
  // A cycle of needs stays
  // ---------------------------------------------------------------------------

  /** What needs another lock is not released. */
  lemma NeedyKept(dep: Relation, s: System, a: int, b: int, step: Step)
    requires Inv(dep, s) && Needs(s, a, b) && Enabled(dep, s, step)
    ensures a in Next(dep, s, step).owner && Next(dep, s, step).owner[a] == s.owner[a]
  {
    assert LockOk(dep, s, a);
    if step.Skip? || step.SkipMissing? || step.Drained? {
      assert ProcOk(dep, s, step.p);
    }
  }

  /** No process leaves that owns a lock. */
  lemma OwnerStays(dep: Relation, s: System, a: int, step: Step)
    requires Inv(dep, s) && a in s.owner && Enabled(dep, s, step)
    ensures s.owner[a] in s.procs && s.owner[a] in Next(dep, s, step).procs
  {
    assert LockOk(dep, s, a);
    if step.Leave? {
      FreeOwnsNothing(dep, s, step.p, a);
    }
  }

  lemma HostKept(dep: Relation, s: System, q: int, a: int, b: int, c: int, step: Step)
    requires Inv(dep, s) && Host(s, q, a, b) && Needs(s, b, c) && Enabled(dep, s, step)
    ensures Host(Next(dep, s, step), q, a, b)
  {
    NeedyKept(dep, s, b, c, step);
    OwnerStays(dep, s, b, step);
  }

  /** And it goes on needing it, if that one needs something itself. */
  lemma NeedKept(dep: Relation, s: System, a: int, b: int, c: int, step: Step)
    requires Inv(dep, s) && Needs(s, a, b) && Needs(s, b, c) && Enabled(dep, s, step)
    ensures Needs(Next(dep, s, step), a, b)
  {
    NeedyKept(dep, s, a, b, step);
    NeedyKept(dep, s, b, c, step);
    OwnerStays(dep, s, a, step);
    if WaitsFor(s, a, b) {
      var q :| Host(s, q, a, b);
      HostKept(dep, s, q, a, b, c, step);
      assert a in Next(dep, s, step).jobs;
    } else {
      OwnNeedKept(dep, s, a, b, c, step);
    }
  }

  lemma OwnNeedKept(dep: Relation, s: System, a: int, b: int, c: int, step: Step)
    requires Inv(dep, s) && Needs(s, a, b) && !WaitsFor(s, a, b) && Needs(s, b, c) && Enabled(dep, s, step)
    ensures Needs(Next(dep, s, step), a, b)
  {
    var s' := Next(dep, s, step);
    var p := s.owner[a];
    NeedyKept(dep, s, a, b, step);
    NeedyKept(dep, s, b, c, step);
    OwnerStays(dep, s, a, step);
    assert LockOk(dep, s, a) && LockOk(dep, s, b);
    assert ProcOk(dep, s, p);
    if step.Drained? && s.owner[b] == step.p {
      JobsEnded(s, step.p, b);
    }
  }

  lemma LassoKept(dep: Relation, s: System, w: seq<int>, step: Step)
    requires Inv(dep, s) && Lasso(s, w) && Enabled(dep, s, step)
    ensures Lasso(Next(dep, s, step), w)
  {
    var k :| 0 <= k < |w| - 1 && w[k] == w[|w| - 1];
    forall i | 0 <= i < |w| - 1
      ensures Needs(Next(dep, s, step), w[i], w[i + 1])
    {
      assert Needs(s, w[i], w[i + 1]);
      var j := if i + 1 < |w| - 1 then i + 1 else k;
      assert Needs(s, w[j], w[j + 1]);
      NeedKept(dep, s, w[i], w[i + 1], w[j + 1], step);
    }
  }

  lemma DoomedKept(dep: Relation, s: System, t: int, step: Step)
    requires Inv(dep, s) && Doomed(s, t) && Enabled(dep, s, step)
    ensures Doomed(Next(dep, s, step), t)
  {
    var w :| Lasso(s, w) && w[0] == t;
    LassoKept(dep, s, w, step);
  }

  lemma DoomedIsTaken(s: System, t: int)
    requires Doomed(s, t)
    ensures t in s.owner
  {
    var w :| Lasso(s, w) && w[0] == t;
    assert Needs(s, w[0], w[0 + 1]);
  }

  /** Whoever waits for a lock that is taken waits on. */
  lemma WaitKept(dep: Relation, s: System, p: int, step: Step)
    requires Inv(dep, s) && p in s.procs && s.procs[p].waiting.Some? && s.procs[p].waiting.value in s.owner
    requires Enabled(dep, s, step)
    ensures p in Next(dep, s, step).procs && Next(dep, s, step).procs[p].waiting == s.procs[p].waiting
  {
    assert ProcOk(dep, s, p);
  }

  /** Nobody who waits for a doomed lock goes on, ever. */
  lemma {:induction false} DoomedForEver(dep: Relation, s: System, t: int, steps: seq<Step>, s': System)
    requires Inv(dep, s) && Doomed(s, t) && Run(dep, s, steps, s')
    ensures Doomed(s', t) && t in s'.owner
    ensures forall p :: p in s.procs && s.procs[p].waiting == Some(t) ==> p in s'.procs && s'.procs[p].waiting == Some(t)
    decreases |steps|
  {
    DoomedIsTaken(s, t);
    if steps != [] {
      StepInv(dep, s, steps[0]);
      DoomedKept(dep, s, t, steps[0]);
      forall p | p in s.procs && s.procs[p].waiting == Some(t)
        ensures p in Next(dep, s, steps[0]).procs && Next(dep, s, steps[0]).procs[p].waiting == Some(t)
      {
        WaitKept(dep, s, p, steps[0]);
      }
      DoomedForEver(dep, Next(dep, s, steps[0]), t, steps[1..], s');
    }
  }

  // ---------------------------------------------------------------------------
  // Without a cycle of needs there is a way to go on
  // ---------------------------------------------------------------------------

  /** A step that lets the build go on, taking no new target in hand and starting nothing. */
  predicate GoesOn(step: Step) {
    step.Skip? || step.SkipMissing? || step.Finish? || step.Drained? || step.Wake? || step.Leave?
  }

  ghost predicate CanGoOn(dep: Relation, s: System) {
    exists step :: Enabled(dep, s, step) && GoesOn(step)
  }

  /** One process: it can go on, or it waits for a lock that is taken or owns one. */
  lemma ProcessProgress(dep: Relation, s: System, p: int) returns (next: Option<int>)
    requires Inv(dep, s) && p in s.procs
    ensures next.None? ==> CanGoOn(dep, s)
    ensures next.Some? ==> next.value in s.owner && (s.procs[p].waiting == next || s.owner[next.value] == p)
  {
    var x := s.procs[p];
    next := None;
    assert ProcOk(dep, s, p);
    if x.waiting.Some? {
      if x.waiting.value in s.owner {
        next := x.waiting;
      } else {
        assert Enabled(dep, s, Wake(p));
      }
    } else if x.missing.Some? {
      next := x.missing;
    } else if x.inHand.Some? {
      assert Enabled(dep, s, Skip(p));
    } else if HasJob(s, p) {
      var t :| t in s.jobs && t in s.owner && s.owner[t] == p;
      next := Some(t);
    } else {
      assert Enabled(dep, s, Leave(p));
    }
  }

  /** A lock with a job: something can go on, or it needs another lock. */
  lemma JobProgress(dep: Relation, s: System, t: int) returns (next: Option<int>)
    requires Inv(dep, s) && t in s.jobs && s.procs[s.owner[t]].waiting.None?
    ensures next.None? ==> CanGoOn(dep, s)
    ensures next.Some? ==> Needs(s, t, next.value)
  {
    assert LockOk(dep, s, t);
    if exists q :: q in s.procs && s.procs[q].inside == Some(t) {
      var q :| q in s.procs && s.procs[q].inside == Some(t);
      next := ProcessProgress(dep, s, q);
      if next.Some? {
        assert Host(s, q, t, next.value);
      }
    } else {
      assert Enabled(dep, s, Finish(t));
      next := None;
    }
  }

  /** Any lock. */
  lemma LockProgress(dep: Relation, s: System, t: int) returns (next: Option<int>)
    requires Inv(dep, s) && t in s.owner
    ensures next.None? ==> CanGoOn(dep, s)
    ensures next.Some? ==> Needs(s, t, next.value)
  {
    assert LockOk(dep, s, t);
    var p := s.owner[t];
    var x := s.procs[p];
    assert ProcOk(dep, s, p);
    next := None;
    if x.waiting.Some? {
      if x.waiting.value in s.owner {
        next := x.waiting;
      } else {
        assert Enabled(dep, s, Wake(p));
      }
    } else if t in s.jobs {
      next := JobProgress(dep, s, t);
    } else if x.missing == Some(t) {
      if !x.draining {
        assert Enabled(dep, s, SkipMissing(p));
      } else if HasJob(s, p) {
        var b :| b in s.jobs && b in s.owner && s.owner[b] == p;
        next := Some(b);
      } else {
        assert Enabled(dep, s, Drained(p));
      }
    } else if x.missing.Some? {
      next := x.missing;
    } else {
      assert Enabled(dep, s, Skip(p));
    }
  }

  lemma WalkOn(s: System, w: seq<int>, u: int)
    requires w != [] && NeedsWalk(s, w) && Needs(s, w[|w| - 1], u)
    ensures NeedsWalk(s, w + [u])
  {
    var v := w + [u];
    forall i | 0 <= i < |v| - 1
      ensures Needs(s, v[i], v[i + 1])
    {
      if i + 1 < |w| { assert Needs(s, w[i], w[i + 1]); }
    }
  }

  lemma ComesBack(s: System, w: seq<int>, u: int)
    requires w != [] && NeedsWalk(s, w) && Needs(s, w[|w| - 1], u) && u in w
    ensures Doomed(s, w[0])
  {
    var v := w + [u];
    WalkOn(s, w, u);
    var k :| 0 <= k < |w| && w[k] == u;
    assert v[k] == v[|v| - 1];
    assert Lasso(s, v) && v[0] == w[0];
  }

  /** Following needs ends at a lock that can go on, unless it comes back. */
  lemma {:induction false} ChaseNeeds(dep: Relation, s: System, w: seq<int>)
    requires Inv(dep, s) && w != [] && w[|w| - 1] in s.owner && NeedsWalk(s, w)
    requires Elems(w) <= s.owner.Keys && !Doomed(s, w[0])
    ensures CanGoOn(dep, s)
    decreases s.owner.Keys - Elems(w)
  {
    var next := LockProgress(dep, s, w[|w| - 1]);
    if next.Some? {
      var u := next.value;
      var v := w + [u];
      WalkOn(s, w, u);
      if u in w {
        ComesBack(s, w, u);
      }
      ElemsAppend(w, u);
      assert u in s.owner.Keys - Elems(w);
      ChaseNeeds(dep, s, v);
    }
  }

  ghost function Waiters(s: System): set<int> {
    set p | p in s.procs && s.procs[p].waiting.Some?
  }

  ghost function Measure(s: System): nat {
    |s.owner.Keys| + |s.jobs| + |s.procs.Keys| + 2 * |Waiters(s)|
  }

  /** One lock less, one job less, one process less, or one waiter less and at most one lock more. */
  lemma MeasureDrops(dep: Relation, s: System, step: Step)
    requires Inv(dep, s) && Enabled(dep, s, step) && GoesOn(step)
    ensures Measure(Next(dep, s, step)) < Measure(s)
  {
    if step.Finish? {
      FinishDrops(dep, s, step.t);
    } else if step.Wake? {
      WakeDrops(dep, s, step.p);
    } else if step.Leave? {
      var s' := Next(dep, s, step);
      assert s'.procs.Keys == s.procs.Keys - {step.p} && Waiters(s') == Waiters(s);
    } else {
      UnlockDrops(dep, s, step);
    }
  }

  lemma FinishDrops(dep: Relation, s: System, t: int)
    requires Inv(dep, s) && Enabled(dep, s, Finish(t))
    ensures Measure(Next(dep, s, Finish(t))) < Measure(s)
  {
    var s' := Next(dep, s, Finish(t));
    assert Waiters(s') == Waiters(s) && s'.jobs == s.jobs - {t};
    assert s'.owner.Keys == s.owner.Keys || s'.owner.Keys == s.owner.Keys - {t};
  }

  lemma WakeDrops(dep: Relation, s: System, p: int)
    requires Inv(dep, s) && Enabled(dep, s, Wake(p))
    ensures Measure(Next(dep, s, Wake(p))) < Measure(s)
  {
    var s' := Next(dep, s, Wake(p));
    assert s'.procs.Keys == s.procs.Keys && Waiters(s') == Waiters(s) - {p} && p in Waiters(s);
    assert s'.owner.Keys == s.owner.Keys || s'.owner.Keys == s.owner.Keys + {s.procs[p].waiting.value};
  }

  lemma SameWaiters(s: System, s': System)
    requires s'.procs.Keys == s.procs.Keys && forall p :: p in s.procs ==> s'.procs[p].waiting == s.procs[p].waiting
    ensures Waiters(s') == Waiters(s)
  {
    forall p
      ensures p in Waiters(s') <==> p in Waiters(s)
    {
      assert p in s'.procs.Keys <==> p in s.procs.Keys;
    }
  }

  lemma UnlockDrops(dep: Relation, s: System, step: Step)
    requires Inv(dep, s) && Enabled(dep, s, step) && (step.Skip? || step.SkipMissing? || step.Drained?)
    ensures Measure(Next(dep, s, step)) < Measure(s)
  {
    var s' := Next(dep, s, step);
    assert ProcOk(dep, s, step.p);
    var t := if step.Skip? then s.procs[step.p].inHand.value else s.procs[step.p].missing.value;
    assert t in s.owner && s'.owner == s.owner - {t} && s'.jobs == s.jobs;
    assert s'.procs.Keys == s.procs.Keys;
    SameWaiters(s, s');
    assert s'.owner.Keys == s.owner.Keys - {t};
  }

  /** Going on creates no needs, except for a lock just taken that needs nothing. */
  lemma NoNewNeed(dep: Relation, s: System, step: Step, a: int, b: int, c: int)
    requires Inv(dep, s) && Enabled(dep, s, step) && GoesOn(step)
    requires Needs(Next(dep, s, step), a, b) && Needs(Next(dep, s, step), b, c)
    ensures Needs(s, a, b)
  {
    var s' := Next(dep, s, step);
    if WaitsFor(s', a, b) {
      var q :| Host(s', q, a, b);
      assert Host(s, q, a, b);
    }
  }

  lemma NoNewLasso(dep: Relation, s: System, step: Step, t: int)
    requires Inv(dep, s) && Enabled(dep, s, step) && GoesOn(step) && Doomed(Next(dep, s, step), t)
    ensures Doomed(s, t)
  {
    var s' := Next(dep, s, step);
    var w :| Lasso(s', w) && w[0] == t;
    var k :| 0 <= k < |w| - 1 && w[k] == w[|w| - 1];
    forall i | 0 <= i < |w| - 1
      ensures Needs(s, w[i], w[i + 1])
    {
      assert Needs(s', w[i], w[i + 1]);
      var j := if i + 1 < |w| - 1 then i + 1 else k;
      assert Needs(s', w[j], w[j + 1]);
      NoNewNeed(dep, s, step, w[i], w[i + 1], w[j + 1]);
    }
    assert Lasso(s, w);
  }

  /** A lock that is not doomed can be released, with everybody who waits for it still waiting. */
  lemma {:induction false} Release(dep: Relation, s: System, t: int) returns (steps: seq<Step>, s': System)
    requires Inv(dep, s) && !Doomed(s, t)
    ensures Run(dep, s, steps, s') && t !in s'.owner
    ensures forall p :: p in s.procs && s.procs[p].waiting == Some(t) ==> p in s'.procs && s'.procs[p].waiting == Some(t)
    decreases Measure(s)
  {
    if t !in s.owner {
      steps, s' := [], s;
    } else {
      assert NeedsWalk(s, [t]) && Elems([t]) == {t};
      ChaseNeeds(dep, s, [t]);
      var step :| Enabled(dep, s, step) && GoesOn(step);
      StepInv(dep, s, step);
      MeasureDrops(dep, s, step);
      if Doomed(Next(dep, s, step), t) {
        NoNewLasso(dep, s, step, t);
      }
      forall p | p in s.procs && s.procs[p].waiting == Some(t)
        ensures p in Next(dep, s, step).procs && Next(dep, s, step).procs[p].waiting == Some(t)
      {
        WaitKept(dep, s, p, step);
      }
      var rest;
      rest, s' := Release(dep, Next(dep, s, step), t);
      steps := [step] + rest;
      assert steps[1..] == rest;
    }
  }

  // ---------------------------------------------------------------------------
  // Theorems
  // ---------------------------------------------------------------------------

  ghost predicate CanBeReleased(dep: Relation, s: System, t: int) {
    exists steps, s' :: Run(dep, s, steps, s') && t !in s'.owner
  }

  /** A lock can be released exactly when its needs do not run into a cycle. */
  lemma ReleasableIff(dep: Relation, s: System, t: int)
    requires Reachable(dep, s) && t in s.owner
    ensures CanBeReleased(dep, s, t) <==> !Doomed(s, t)
  {
    ReachableInv(dep, s);
    if !Doomed(s, t) {
      var steps, s' := Release(dep, s, t);
    } else {
      forall steps, s' | Run(dep, s, steps, s')
        ensures t in s'.owner
      {
        DoomedForEver(dep, s, t, steps, s');
      }
    }
  }

  /** From here the wait of `p` for `u` can come to an end. */
  ghost predicate WaitCanEnd(dep: Relation, s: System, p: int, u: int) {
    exists steps, s' :: Run(dep, s, steps, s') && p in s'.procs && s'.procs[p].waiting == Some(u) && Enabled(dep, s', Wake(p))
  }

  /** A wait, at whichever point, can end exactly when the lock is not doomed. */
  lemma WaitEndsIff(dep: Relation, s: System, p: int, u: int)
    requires Reachable(dep, s) && p in s.procs && s.procs[p].waiting == Some(u)
    ensures WaitCanEnd(dep, s, p, u) <==> !Doomed(s, u)
  {
    ReachableInv(dep, s);
    if !Doomed(s, u) {
      var steps, s' := Release(dep, s, u);
    } else {
      forall steps, s' | Run(dep, s, steps, s')
        ensures u in s'.owner
      {
        DoomedForEver(dep, s, u, steps, s');
      }
    }
  }

  /** Nobody is busy with a missing dependency. */
  ghost predicate AllPlain(s: System) {
    forall p :: p in s.procs ==> s.procs[p].Plain()
  }

  /** Then a lock needs others only on behalf of its job. */
  lemma PlainNeeds(dep: Relation, s: System, a: int, b: int)
    requires Inv(dep, s) && AllPlain(s) && Needs(s, a, b)
    ensures WaitsFor(s, a, b)
  {
    assert LockOk(dep, s, a);
  }

  /** With acyclic dependencies no lock is doomed while no missing dependency is being built. */
  lemma NoneDoomed(dep: Relation, s: System, t: int)
    requires Reachable(dep, s) && Acyclic(dep) && AllPlain(s)
    ensures !Doomed(s, t)
  {
    ReachableInv(dep, s);
    if w :| Lasso(s, w) && w[0] == t {
      var k :| 0 <= k < |w| - 1 && w[k] == w[|w| - 1];
      var v := w[k..];
      forall i | 0 <= i < |v| - 1
        ensures WaitsFor(s, v[i], v[i + 1])
      {
        assert Needs(s, w[k + i], w[(k + i) + 1]);
        PlainNeeds(dep, s, w[k + i], w[(k + i) + 1]);
      }
      WaitsForAcyclic(dep, s, v);
    }
  }

  /** No deadlock then: as long as a process lives, something can go on. */
  lemma NoDeadlock(dep: Relation, s: System)
    requires Reachable(dep, s) && Acyclic(dep) && AllPlain(s) && s.procs != map[]
    ensures CanGoOn(dep, s)
  {
    ReachableInv(dep, s);
    var p := Pick(s.procs.Keys);
    var next := ProcessProgress(dep, s, p);
    if next.Some? {
      NoneDoomed(dep, s, next.value);
      assert NeedsWalk(s, [next.value]) && Elems([next.value]) == {next.value};
      ChaseNeeds(dep, s, [next.value]);
    }
  }
}
