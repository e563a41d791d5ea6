/**
 When the inline rebuild of a missing dependency (redo_core/src/builder.rs:799-846)
 deadlocks although dependencies are acyclic, and when it does not.

 It has two dangerous points: waiting for the dependency's lock with locks of its
 own, and staying in `wait_all` for all its jobs with the dependency locked.
 */
module InlineRebuild {
  import opened Common
  import opened LockProtocol
  import opened LockWaits

  /** Locks each of which waits for the next on behalf of its job. */
  ghost predicate Chain(s: System, w: seq<int>) {
    && w != [] && (forall i :: 0 <= i < |w| ==> w[i] in s.owner)
    && forall i :: 0 <= i < |w| - 1 ==> WaitsFor(s, w[i], w[i + 1])
  }

  /** Lock `u` waits, through others, for a lock of `p`. */
  ghost predicate LeadsTo(s: System, u: int, p: int) {
    exists w :: Chain(s, w) && w[0] == u && s.owner[w[|w| - 1]] == p
  }

  /** A job of `p` waits, through others, for lock `z`. */
  ghost predicate JobLeadsTo(s: System, p: int, z: int) {
    exists w :: Chain(s, w) && w[0] in s.jobs && s.owner[w[0]] == p && w[|w| - 1] == z
  }

  /** Where a walk first needs a lock for another reason than its job. */
  lemma FirstOther(s: System, w: seq<int>) returns (j: nat)
    requires w != []
    ensures j < |w| && forall i :: 0 <= i < j ==> WaitsFor(s, w[i], w[i + 1])
    ensures j == |w| - 1 || !WaitsFor(s, w[j], w[j + 1])
  {
    j := 0;
    while j < |w| - 1 && WaitsFor(s, w[j], w[j + 1])
      invariant j < |w| && forall i :: 0 <= i < j ==> WaitsFor(s, w[i], w[i + 1])
    {
      j := j + 1;
    }
  }

  lemma NotAllWaitFor(dep: Relation, s: System, w: seq<int>, k: nat)
    requires Reachable(dep, s) && Acyclic(dep) && k < |w| - 1 && w[k] == w[|w| - 1]
    ensures !forall i :: 0 <= i < |w| - 1 ==> WaitsFor(s, w[i], w[i + 1])
  {
    if forall i :: 0 <= i < |w| - 1 ==> WaitsFor(s, w[i], w[i + 1]) {
      var v := w[k..];
      forall i | 0 <= i < |v| - 1
        ensures WaitsFor(s, v[i], v[i + 1])
      {
        assert WaitsFor(s, w[k + i], w[(k + i) + 1]);
      }
      WaitsForAcyclic(dep, s, v);
    }
  }

  /** The needs up to there make a chain. */
  lemma ChainUpTo(s: System, s': System, w: seq<int>, j: nat)
    requires NeedsWalk(s', w) && s'.owner == s.owner && |w| >= 2 && j < |w|
    requires forall i :: 0 <= i < j ==> WaitsFor(s, w[i], w[i + 1])
    ensures Chain(s, w[..j + 1])
  {
    forall i | 0 <= i <= j
      ensures w[i] in s.owner
    {
      if i < |w| - 1 { assert Needs(s', w[i], w[i + 1]); } else { assert Needs(s', w[i - 1], w[(i - 1) + 1]); }
    }
  }

  lemma ChainOn(s: System, w: seq<int>, h: int)
    requires Chain(s, w) && h in s.owner && WaitsFor(s, w[|w| - 1], h)
    ensures Chain(s, w + [h])
  {
  }

  // ---------------------------------------------------------------------------
  // Waiting for the dependency's lock
  // ---------------------------------------------------------------------------

  lemma BlockedNeeds(dep: Relation, s: System, p: int, u: int, a: int, b: int)
    requires Inv(dep, s) && AllPlain(s) && Enabled(dep, s, BlockInline(p, u))
    requires Needs(Next(dep, s, BlockInline(p, u)), a, b)
    ensures WaitsFor(s, a, b) || (b == u && (s.owner[a] == p || (a in s.jobs && s.procs[p].inside == Some(a))))
  {
    var s' := Next(dep, s, BlockInline(p, u));
    assert LockOk(dep, s, a) && ProcOk(dep, s, s.owner[a]);
    if WaitsFor(s', a, b) {
      var q :| Host(s', q, a, b);
      assert q == p || Host(s, q, a, b);
      if q == p && b != u {
        assert Host(s, p, a, b);
      }
    }
  }

  lemma DoomedByBlocking(dep: Relation, s: System, p: int, u: int)
    requires Reachable(dep, s) && Acyclic(dep) && AllPlain(s) && Enabled(dep, s, BlockInline(p, u))
    requires Doomed(Next(dep, s, BlockInline(p, u)), u)
    ensures LeadsTo(s, u, p)
  {
    var s' := Next(dep, s, BlockInline(p, u));
    ReachableInv(dep, s);
    var w :| Lasso(s', w) && w[0] == u;
    var k :| 0 <= k < |w| - 1 && w[k] == w[|w| - 1];
    NotAllWaitFor(dep, s, w, k);
    var j := FirstOther(s, w);
    assert Needs(s', w[j], w[j + 1]);
    BlockedNeeds(dep, s, p, u, w[j], w[j + 1]);
    var v := w[..j + 1];
    ChainUpTo(s, s', w, j);
    if s.owner[w[j]] != p {
      assert ProcOk(dep, s, p);
      assert Host(s, p, w[j], s.procs[p].inHand.value);
      v := v + [s.procs[p].inHand.value];
      ChainOn(s, w[..j + 1], s.procs[p].inHand.value);
    }
    assert v[0] == u && s.owner[v[|v| - 1]] == p;
  }

  lemma BlockingDooms(dep: Relation, s: System, p: int, u: int)
    requires Inv(dep, s) && Enabled(dep, s, BlockInline(p, u)) && LeadsTo(s, u, p)
    ensures Doomed(Next(dep, s, BlockInline(p, u)), u)
  {
    var s' := Next(dep, s, BlockInline(p, u));
    var w :| Chain(s, w) && w[0] == u && s.owner[w[|w| - 1]] == p;
    var v := w + [u];
    forall i | 0 <= i < |v| - 1
      ensures Needs(s', v[i], v[i + 1])
    {
      assert LockOk(dep, s, w[i]);
      if i < |w| - 1 {
        var q :| Host(s, q, w[i], w[i + 1]);
        assert ProcOk(dep, s, p);
        assert Host(s', q, w[i], w[i + 1]);
      }
    }
    assert v[0] == v[|v| - 1];
    assert Lasso(s', v);
  }

  /**
   With acyclic dependencies and no other inline rebuild going on, the wait for a
   missing dependency can end exactly when its lock does not wait, through other
   jobs, for a lock of the process itself.
   */
  lemma InlineWaitEndsIff(dep: Relation, s: System, p: int, u: int)
    requires Reachable(dep, s) && Acyclic(dep) && AllPlain(s) && Enabled(dep, s, BlockInline(p, u))
    ensures WaitCanEnd(dep, Next(dep, s, BlockInline(p, u)), p, u) <==> !LeadsTo(s, u, p)
  {
    ReachableInv(dep, s);
    var s' := ReachNext(dep, s, BlockInline(p, u));
    WaitEndsIff(dep, s', p, u);
    if LeadsTo(s, u, p) {
      BlockingDooms(dep, s, p, u);
    } else if Doomed(s', u) {
      DoomedByBlocking(dep, s, p, u);
    }
  }

  // ---------------------------------------------------------------------------
  // Waiting for all jobs with the dependency locked
  // ---------------------------------------------------------------------------

  /** No other process is busy with a missing dependency. */
  ghost predicate OthersPlain(s: System, p: int) {
    forall q :: q in s.procs && q != p ==> s.procs[q].Plain()
  }

  lemma DrainingNeeds(dep: Relation, s: System, p: int, a: int, b: int)
    requires Inv(dep, s) && OthersPlain(s, p) && Enabled(dep, s, LaunchMissing(p))
    requires Needs(Next(dep, s, LaunchMissing(p)), a, b)
    ensures WaitsFor(s, a, b) || s.procs[p].missing == Some(a) || s.procs[p].inHand == Some(a)
    ensures s.procs[p].missing == Some(a) ==> b in s.jobs && s.owner[b] == p
  {
    var s' := Next(dep, s, LaunchMissing(p));
    assert LockOk(dep, s, a) && ProcOk(dep, s, s.owner[a]) && ProcOk(dep, s, p);
    if WaitsFor(s', a, b) {
      var q :| Host(s', q, a, b);
      assert ProcOk(dep, s, q);
      assert Host(s, q, a, b);
    }
  }

  lemma LassoTail(s: System, w: seq<int>)
    requires Lasso(s, w)
    ensures |w| >= 2 && Needs(s, w[0], w[1]) && NeedsWalk(s, w[1..]) && forall i :: 0 <= i < |w| ==> w[i] in s.owner
    ensures w[|w| - 1] == w[0] || Lasso(s, w[1..])
  {
    var v := w[1..];
    assert Needs(s, w[0], w[0 + 1]) && Needs(s, w[|w| - 2], w[(|w| - 2) + 1]);
    forall i | 0 <= i < |v| - 1
      ensures Needs(s, v[i], v[i + 1])
    {
      assert Needs(s, w[i + 1], w[(i + 1) + 1]);
    }
    forall i | 0 <= i < |w| - 1
      ensures w[i] in s.owner
    {
      assert Needs(s, w[i], w[i + 1]);
    }
    var k :| 0 <= k < |w| - 1 && w[k] == w[|w| - 1];
    if k > 0 {
      assert v[k - 1] == v[|v| - 1];
    }
  }

  lemma DoomedByDraining(dep: Relation, s: System, p: int)
    requires Reachable(dep, s) && Acyclic(dep) && OthersPlain(s, p) && Enabled(dep, s, LaunchMissing(p))
    requires s.procs[p].inHand.Some? && Doomed(Next(dep, s, LaunchMissing(p)), s.procs[p].missing.value)
    ensures JobLeadsTo(s, p, s.procs[p].missing.value) || JobLeadsTo(s, p, s.procs[p].inHand.value)
  {
    var s' := Next(dep, s, LaunchMissing(p));
    ReachableInv(dep, s);
    var w :| Lasso(s', w) && w[0] == s.procs[p].missing.value;
    LassoTail(s', w);
    DrainingNeeds(dep, s, p, w[0], w[1]);
    DrainingTail(dep, s, p, w[1..]);
  }

  /** The tail reaches one of the two locks along jobs, because it cannot come back along jobs. */
  lemma DrainingTail(dep: Relation, s: System, p: int, v: seq<int>)
    requires Reachable(dep, s) && Inv(dep, s) && Acyclic(dep) && OthersPlain(s, p) && Enabled(dep, s, LaunchMissing(p))
    requires v != [] && v[0] in s.jobs && v[0] in s.owner && s.owner[v[0]] == p && s.procs[p].inHand.Some?
    requires NeedsWalk(Next(dep, s, LaunchMissing(p)), v)
    requires v[|v| - 1] == s.procs[p].missing.value || Lasso(Next(dep, s, LaunchMissing(p)), v)
    ensures JobLeadsTo(s, p, s.procs[p].missing.value) || JobLeadsTo(s, p, s.procs[p].inHand.value)
  {
    var s' := Next(dep, s, LaunchMissing(p));
    var j := FirstOther(s, v);
    if j < |v| - 1 {
      assert Needs(s', v[j], v[j + 1]);
      DrainingNeeds(dep, s, p, v[j], v[j + 1]);
    } else if v[|v| - 1] != s.procs[p].missing.value {
      var k :| 0 <= k < |v| - 1 && v[k] == v[|v| - 1];
      NotAllWaitFor(dep, s, v, k);
    }
    if |v| >= 2 {
      ChainUpTo(s, s', v, j);
    }
    var c := v[..j + 1];
    assert Chain(s, c) && c[0] == v[0] && c[|c| - 1] == v[j];
  }

  lemma DrainingDooms(dep: Relation, s: System, p: int, z: int)
    requires Inv(dep, s) && Enabled(dep, s, LaunchMissing(p)) && s.procs[p].inHand.Some? && JobLeadsTo(s, p, z)
    requires z == s.procs[p].missing.value || z == s.procs[p].inHand.value
    ensures Doomed(Next(dep, s, LaunchMissing(p)), s.procs[p].missing.value)
  {
    var s' := Next(dep, s, LaunchMissing(p));
    var u := s.procs[p].missing.value;
    assert ProcOk(dep, s, p);
    var c :| Chain(s, c) && c[0] in s.jobs && s.owner[c[0]] == p && c[|c| - 1] == z;
    var w := [u] + c + (if z == u then [] else [u]);
    forall i | 0 <= i < |w| - 1
      ensures Needs(s', w[i], w[i + 1])
    {
      if 0 < i < |c| {
        assert LockOk(dep, s, c[i - 1]);
        assert WaitsFor(s, c[i - 1], c[(i - 1) + 1]);
        var q :| Host(s, q, c[i - 1], c[i]);
        assert Host(s', q, c[i - 1], c[i]);
      }
    }
    assert w[0] == w[|w| - 1];
    assert Lasso(s', w);
  }

  /**
   Once the script of the missing dependency has been started, its lock can be
   released exactly when no other job of the process waits, through others, for
   that lock or for the lock of the target in hand.
   */
  lemma DrainEndsIff(dep: Relation, s: System, p: int)
    requires Reachable(dep, s) && Acyclic(dep) && OthersPlain(s, p) && Enabled(dep, s, LaunchMissing(p))
    ensures s.procs[p].inHand.Some?
    ensures CanBeReleased(dep, Next(dep, s, LaunchMissing(p)), s.procs[p].missing.value) <==>
      !JobLeadsTo(s, p, s.procs[p].missing.value) && !JobLeadsTo(s, p, s.procs[p].inHand.value)
  {
    ReachableInv(dep, s);
    assert ProcOk(dep, s, p);
    var s' := ReachNext(dep, s, LaunchMissing(p));
    var u, h := s.procs[p].missing.value, s.procs[p].inHand.value;
    ReleasableIff(dep, s', u);
    if JobLeadsTo(s, p, u) {
      DrainingDooms(dep, s, p, u);
    } else if JobLeadsTo(s, p, h) {
      DrainingDooms(dep, s, p, h);
    } else if Doomed(s', u) {
      DoomedByDraining(dep, s, p);
    }
  }

  // ---------------------------------------------------------------------------
  // Both happen
  // ---------------------------------------------------------------------------

  const TOP := 0

  lemma {:induction false} WalksGrow(dep: Relation, w: seq<int>)
    requires DepWalk(dep, w) && |w| >= 2 && forall a, b :: dep(a, b) ==> a < b
    ensures w[0] < w[|w| - 1]
    decreases |w|
  {
    assert dep(w[0], w[0 + 1]);
    if |w| > 2 {
      var v := w[1..];
      forall i | 0 <= i < |v| - 1
        ensures dep(v[i], v[i + 1])
      {
        assert dep(w[i + 1], w[(i + 1) + 1]);
      }
      WalksGrow(dep, v);
    }
  }

  lemma GrowingIsAcyclic(dep: Relation)
    requires forall a, b :: dep(a, b) ==> a < b
    ensures Acyclic(dep)
  {
    forall a
      ensures !Below(dep, a, a)
    {
      if w :| DepWalk(dep, w) && |w| >= 2 && w[0] == a && w[|w| - 1] == a {
        WalksGrow(dep, w);
      }
    }
  }

  const IDLE_TOP: Proc := Fresh(None, false, 0, {})

  /** 1 and 2 depend on 3, and 3 depends on 4. */
  function DiamondDep(): Relation {
    (a: int, b: int) => (a == 1 && b == 3) || (a == 2 && b == 3) || (a == 3 && b == 4)
  }

  const IN_TWO: Proc := Fresh(Some(2), false, 1, {2})
  const IN_THREE: Proc := Fresh(Some(3), false, 2, {2, 3})

  /** The top builds 4 and 2, and a redo runs in the script of 2. */
  lemma DiamondStart() returns (s: System)
    ensures Reachable(DiamondDep(), s)
    ensures s == System(map[TOP := IDLE_TOP, 10 := IN_TWO], map[4 := TOP, 2 := TOP], {4, 2}, {})
  {
    var dep := DiamondDep();
    ReachInit(dep, TOP);
    s := ReachJob(dep, Init(TOP), TOP, 4, false);
    assert s.jobs == {4} && s.owner == map[4 := TOP];
    s := ReachJob(dep, s, TOP, 2, false);
    assert s.jobs == {4, 2} && s.owner == map[4 := TOP, 2 := TOP];
    s := ReachNext(dep, s, Enter(10, 2, false));
    assert IDLE_TOP.cycles + {2} == {2};
  }

  /** It builds 3, whose script runs a redo in turn. */
  lemma DiamondMiddle() returns (s: System)
    ensures Reachable(DiamondDep(), s)
    ensures s == System(map[TOP := IDLE_TOP, 10 := IN_TWO, 11 := IN_THREE],
                        map[4 := TOP, 2 := TOP, 3 := 10], {4, 2, 3}, {})
  {
    var dep := DiamondDep();
    s := DiamondStart();
    s := ReachJob(dep, s, 10, 3, false);
    s := ReachNext(dep, s, Enter(11, 3, false));
    assert {2} + {3} == {2, 3};
  }

  /** That one waits for 4, and the top takes up 1. */
  lemma DiamondRun() returns (s: System)
    ensures Reachable(DiamondDep(), s)
    ensures s == System(map[TOP := IDLE_TOP.(inHand := Some(1)), 10 := IN_TWO, 11 := IN_THREE.(waiting := Some(4))],
                        map[4 := TOP, 2 := TOP, 3 := 10, 1 := TOP], {4, 2, 3}, {})
  {
    var dep := DiamondDep();
    s := DiamondMiddle();
    s := ReachNext(dep, s, Block(11, 4));
    s := ReachNext(dep, s, TryLock(TOP, 1));
  }

  lemma TwoNeeds(s: System, a: int, b: int)
    requires Needs(s, a, b) && Needs(s, b, a)
    ensures Doomed(s, a)
  {
    var w := [a, b, a];
    assert w[0] == w[|w| - 1];
    assert Lasso(s, w);
  }

  /**
   The wait can be a deadlock: the top waits for 3 with 4 locked, and the script of
   3 waits for 4, through every continuation.
   */
  lemma InlineRebuildDeadlocks() returns (s: System)
    ensures Acyclic(DiamondDep()) && Reachable(DiamondDep(), s) && AllPlain(s)
    ensures Enabled(DiamondDep(), s, BlockInline(TOP, 3)) && LeadsTo(s, 3, TOP)
    ensures
      var s' := Next(DiamondDep(), s, BlockInline(TOP, 3));
      && !WaitCanEnd(DiamondDep(), s', TOP, 3)
      && forall steps, t :: Run(DiamondDep(), s', steps, t) ==>
           && TOP in t.procs && t.procs[TOP].waiting == Some(3)
           && 11 in t.procs && t.procs[11].waiting == Some(4)
  {
    var dep := DiamondDep();
    GrowingIsAcyclic(dep);
    s := DiamondRun();
    assert Host(s, 11, 3, 4);
    assert Chain(s, [3, 4]);
    InlineWaitEndsIff(dep, s, TOP, 3);
    var s' := ReachNext(dep, s, BlockInline(TOP, 3));
    ReachableInv(dep, s');
    assert Host(s', 11, 3, 4);
    TwoNeeds(s', 3, 4);
    TwoNeeds(s', 4, 3);
    forall steps, t | Run(dep, s', steps, t)
      ensures TOP in t.procs && t.procs[TOP].waiting == Some(3)
      ensures 11 in t.procs && t.procs[11].waiting == Some(4)
    {
      DoomedForEver(dep, s', 3, steps, t);
      DoomedForEver(dep, s', 4, steps, t);
    }
  }

  /** 1 and 2 depend on 3. */
  function SharedDep(): Relation {
    (a: int, b: int) => (a == 1 && b == 3) || (a == 2 && b == 3)
  }

  const IN_ONE: Proc := Fresh(Some(1), false, 1, {1})

  /** `redo-ifchange 1 2`: 1 is being built, 2 is in hand and misses 3. */
  lemma SharedStart() returns (s: System)
    ensures Reachable(SharedDep(), s)
    ensures s == System(map[TOP := IDLE_TOP.(inHand := Some(2)), 10 := IN_ONE], map[1 := TOP, 2 := TOP], {1}, {})
  {
    var dep := SharedDep();
    ReachInit(dep, TOP);
    s := ReachJob(dep, Init(TOP), TOP, 1, false);
    assert s.jobs == {1} && s.owner == map[1 := TOP];
    s := ReachNext(dep, s, Enter(10, 1, false));
    assert IDLE_TOP.cycles + {1} == {1};
    s := ReachNext(dep, s, TryLock(TOP, 2));
  }

  /** The top locks 3, and the script of 1 asks for it. */
  lemma SharedRun() returns (s: System)
    ensures Reachable(SharedDep(), s)
    ensures s == System(map[TOP := IDLE_TOP.(inHand := Some(2), missing := Some(3)), 10 := IN_ONE.(waiting := Some(3))],
                        map[1 := TOP, 2 := TOP, 3 := TOP], {1}, {})
  {
    var dep := SharedDep();
    s := SharedStart();
    s := ReachNext(dep, s, BlockInline(TOP, 3));
    s := ReachNext(dep, s, Wake(TOP));
    s := ReachNext(dep, s, Block(10, 3));
  }

  /**
   So can staying in `wait_all`: two targets share a missing dependency.  The lock
   of 3 is kept until the job of 1 ends, and a redo in that job waits for 3,
   through every continuation.
   */
  lemma SharedMissingDeadlocks() returns (s: System)
    ensures Acyclic(SharedDep()) && Reachable(SharedDep(), s) && OthersPlain(s, TOP)
    ensures Enabled(SharedDep(), s, LaunchMissing(TOP)) && JobLeadsTo(s, TOP, 3)
    ensures forall steps, t :: Run(SharedDep(), Next(SharedDep(), s, LaunchMissing(TOP)), steps, t) ==>
      3 in t.owner && 10 in t.procs && t.procs[10].waiting == Some(3)
  {
    var dep := SharedDep();
    GrowingIsAcyclic(dep);
    s := SharedRun();
    assert Host(s, 10, 1, 3);
    assert Chain(s, [1, 3]);
    var s' := ReachNext(dep, s, LaunchMissing(TOP));
    ReachableInv(dep, s);
    ReachableInv(dep, s');
    DrainingDooms(dep, s, TOP, 3);
    forall steps, t | Run(dep, s', steps, t)
      ensures 3 in t.owner && 10 in t.procs && t.procs[10].waiting == Some(3)
    {
      DoomedForEver(dep, s', 3, steps, t);
    }
  }
}
