/**
 Ancestors: what REDO_CYCLES knows about the targets being built above a process,
 and what it does not (redo_core/src/cycles.rs).
 */
module LockCycles {
  import opened Common
  import opened LockProtocol
  import opened LockWaits

  /** A process, the owner of the job it runs in, and so on up to the top. */
  ghost function Ancestry(dep: Relation, s: System, p: int): (r: seq<int>)
    requires Inv(dep, s) && p in s.procs
    ensures |r| == s.procs[p].depth + 1 && r[0] == p
    ensures forall k :: 0 <= k < |r| ==> r[k] in s.procs && s.procs[r[k]].depth == s.procs[p].depth - k
    ensures forall k :: 0 <= k < |r| - 1 ==>
      s.procs[r[k]].inside.Some? && s.procs[r[k]].inside.value in s.owner && s.owner[s.procs[r[k]].inside.value] == r[k + 1]
    decreases s.procs[p].depth
  {
    assert ProcOk(dep, s, p);
    if s.procs[p].inside.None? then [p]
    else [p] + Ancestry(dep, s, s.owner[s.procs[p].inside.value])
  }

  /** The target whose job is level `k` above a process. */
  ghost function TargetAbove(dep: Relation, s: System, p: int, k: nat): int
    requires Inv(dep, s) && p in s.procs && k < s.procs[p].depth
  {
    s.procs[Ancestry(dep, s, p)[k]].inside.value
  }

  /** No target is above a process twice. */
  lemma AboveOnce(dep: Relation, s: System, p: int, j: nat, k: nat)
    requires Inv(dep, s) && p in s.procs && j < s.procs[p].depth && k < s.procs[p].depth
    requires TargetAbove(dep, s, p, j) == TargetAbove(dep, s, p, k)
    ensures j == k
  {
    var r := Ancestry(dep, s, p);
    assert r[j + 1] == r[k + 1];
  }

  /** What the job at level `k` above a process added to REDO_CYCLES. */
  ghost function AddedAt(dep: Relation, s: System, p: int, k: nat): set<int>
    requires Inv(dep, s) && p in s.procs && k < s.procs[p].depth
  {
    var r := Ancestry(dep, s, p);
    Added(s.procs[r[k + 1]], TargetAbove(dep, s, p, k), s.procs[r[k]].fixup)
  }

  lemma AncestryStep(dep: Relation, s: System, p: int)
    requires Inv(dep, s) && p in s.procs && s.procs[p].inside.Some?
    ensures
      var parent := s.owner[s.procs[p].inside.value];
      && AddedAt(dep, s, p, 0) == Added(s.procs[parent], s.procs[p].inside.value, s.procs[p].fixup)
      && forall k :: 0 <= k < s.procs[parent].depth ==> AddedAt(dep, s, p, k + 1) == AddedAt(dep, s, parent, k)
  {
    assert ProcOk(dep, s, p);
    var parent := s.owner[s.procs[p].inside.value];
    var r, up := Ancestry(dep, s, p), Ancestry(dep, s, parent);
    assert r == [p] + up;
    forall k | 0 <= k < s.procs[parent].depth
      ensures AddedAt(dep, s, p, k + 1) == AddedAt(dep, s, parent, k)
    {
      assert r[k + 1] == up[k] && r[k + 2] == up[k + 1];
    }
  }

  lemma {:induction false} CyclesUpTo(dep: Relation, s: System, p: int, u: int)
    requires Inv(dep, s) && p in s.procs
    ensures u in s.procs[p].cycles <==> exists k :: 0 <= k < s.procs[p].depth && u in AddedAt(dep, s, p, k)
    decreases s.procs[p].depth
  {
    assert ProcOk(dep, s, p);
    if s.procs[p].inside.Some? {
      var parent := s.owner[s.procs[p].inside.value];
      CyclesUpTo(dep, s, parent, u);
      AncestryStep(dep, s, p);
      if j :| 0 <= j < s.procs[parent].depth && u in AddedAt(dep, s, parent, j) {
        assert u in AddedAt(dep, s, p, j + 1);
      }
      if k :| 0 < k < s.procs[p].depth && u in AddedAt(dep, s, p, k) {
        assert u in AddedAt(dep, s, parent, k - 1);
      }
    }
  }

  lemma AddedOnce(dep: Relation, s: System, p: int, j: nat, k: nat)
    requires Inv(dep, s) && p in s.procs && j < s.procs[p].depth && k < s.procs[p].depth
    requires TargetAbove(dep, s, p, k) in AddedAt(dep, s, p, j)
    ensures j == k && !s.procs[Ancestry(dep, s, p)[k]].fixup
  {
    var r := Ancestry(dep, s, p);
    assert ProcOk(dep, s, r[j + 1]) && ProcOk(dep, s, r[k]);
    AboveOnce(dep, s, p, j, k);
  }

  /**
   What REDO_CYCLES holds: a target above a process is in it exactly when the
   process runs in that target's script, and not in an out-of-band fix-up.
   */
  lemma CyclesExact(dep: Relation, s: System, p: int, k: nat)
    requires Inv(dep, s) && p in s.procs && k < s.procs[p].depth
    ensures TargetAbove(dep, s, p, k) in s.procs[p].cycles <==> !s.procs[Ancestry(dep, s, p)[k]].fixup
  {
    var u := TargetAbove(dep, s, p, k);
    CyclesUpTo(dep, s, p, u);
    if j :| 0 <= j < s.procs[p].depth && u in AddedAt(dep, s, p, j) {
      AddedOnce(dep, s, p, j, k);
    }
    if !s.procs[Ancestry(dep, s, p)[k]].fixup {
      assert u in AddedAt(dep, s, p, k);
    }
  }

  /** A target whose missing dependency is being built above a process is in it as well. */
  lemma HandsAboveKnown(dep: Relation, s: System, p: int, k: nat)
    requires Inv(dep, s) && p in s.procs && k < s.procs[p].depth
    requires
      var r := Ancestry(dep, s, p);
      s.procs[r[k + 1]].missing == Some(TargetAbove(dep, s, p, k))
    ensures
      var x := s.procs[Ancestry(dep, s, p)[k + 1]];
      x.inHand.Some? && x.inHand.value in s.procs[p].cycles
  {
    var r := Ancestry(dep, s, p);
    assert ProcOk(dep, s, r[k + 1]) && ProcOk(dep, s, r[k]);
    CyclesUpTo(dep, s, p, s.procs[r[k + 1]].inHand.value);
    assert s.procs[r[k + 1]].inHand.value in AddedAt(dep, s, p, k);
  }

  /** REDO_CYCLES names only targets that are locked, so a target that can be locked is not in it. */
  lemma CyclesAreLocked(dep: Relation, s: System, p: int, t: int)
    requires Inv(dep, s) && p in s.procs && t in s.procs[p].cycles
    ensures t in s.owner
  {
    CyclesUpTo(dep, s, p, t);
    var k :| 0 <= k < s.procs[p].depth && t in AddedAt(dep, s, p, k);
    var r := Ancestry(dep, s, p);
    assert ProcOk(dep, s, r[k]) && ProcOk(dep, s, r[k + 1]);
  }

  /** Two fix-ups never follow each other: between them a script is run. */
  lemma FixupsAlternate(dep: Relation, s: System, p: int, k: nat)
    requires Inv(dep, s) && p in s.procs && k < s.procs[p].depth
    ensures s.procs[Ancestry(dep, s, p)[k]].fixup ==> !s.procs[Ancestry(dep, s, p)[k + 1]].fixup
  {
    var q := Ancestry(dep, s, p)[k];
    assert ProcOk(dep, s, q) && LockOk(dep, s, s.procs[q].inside.value);
  }

  /**
   When a process that asks for a target being built above it will wait for that
   lock instead of reporting a cycle: exactly below an out-of-band fix-up.
   */
  lemma BlocksOnAncestorIff(dep: Relation, s: System, p: int, k: nat)
    requires Inv(dep, s) && p in s.procs && k < s.procs[p].depth
    requires Asks(dep, s.procs[p], TargetAbove(dep, s, p, k))
    requires s.procs[p].Free() && !HasJob(s, p)
    ensures Enabled(dep, s, Block(p, TargetAbove(dep, s, p, k))) <==> s.procs[Ancestry(dep, s, p)[k]].fixup
  {
    CyclesExact(dep, s, p, k);
  }

  /** A wait for a lock held above happens only through an out-of-band job. */
  lemma AncestorWaitsAreOutOfBand(dep: Relation, s: System, p: int, k: nat)
    requires Inv(dep, s) && p in s.procs && k < s.procs[p].depth
    requires s.procs[p].waiting == Some(TargetAbove(dep, s, p, k))
    ensures TargetAbove(dep, s, p, k) in s.outOfBand
  {
    CyclesExact(dep, s, p, k);
    assert ProcOk(dep, s, p) && ProcOk(dep, s, Ancestry(dep, s, p)[k]);
  }

  /** The locks above a process, from level `k` down to its own job's. */
  ghost function LocksAbove(dep: Relation, s: System, p: int, k: nat): (r: seq<int>)
    requires Inv(dep, s) && p in s.procs && k < s.procs[p].depth
    ensures |r| == k + 1 && forall i :: 0 <= i <= k ==> r[i] == TargetAbove(dep, s, p, k - i)
  {
    [TargetAbove(dep, s, p, k)] + (if k == 0 then [] else LocksAbove(dep, s, p, k - 1))
  }

  lemma AboveNeeds(dep: Relation, s: System, p: int, k: nat)
    requires Inv(dep, s) && p in s.procs && k < s.procs[p].depth
    ensures k > 0 ==> Needs(s, TargetAbove(dep, s, p, k), TargetAbove(dep, s, p, k - 1))
    ensures k == 0 && s.procs[p].waiting.Some? && s.procs[p].waiting.value in s.owner ==>
      Needs(s, TargetAbove(dep, s, p, 0), s.procs[p].waiting.value)
  {
    var r := Ancestry(dep, s, p);
    var a := TargetAbove(dep, s, p, k);
    assert ProcOk(dep, s, r[k]);
    if k > 0 {
      assert s.owner[s.procs[r[k - 1]].inside.value] == r[(k - 1) + 1];
      assert Host(s, r[k], a, TargetAbove(dep, s, p, k - 1));
    } else if s.procs[p].waiting.Some? && s.procs[p].waiting.value in s.owner {
      assert Host(s, p, a, s.procs[p].waiting.value);
    }
  }

  /** Whoever waits for a lock held above it waits for ever, whatever the others do. */
  lemma AncestorWaitIsForEver(dep: Relation, s: System, p: int, k: nat, steps: seq<Step>, t: System)
    requires Inv(dep, s) && p in s.procs && k < s.procs[p].depth
    requires s.procs[p].waiting == Some(TargetAbove(dep, s, p, k))
    requires Run(dep, s, steps, t)
    ensures p in t.procs && t.procs[p].waiting == s.procs[p].waiting
  {
    AncestorDoomed(dep, s, p, k);
    DoomedForEver(dep, s, TargetAbove(dep, s, p, k), steps, t);
  }

  lemma AncestorDoomed(dep: Relation, s: System, p: int, k: nat)
    requires Inv(dep, s) && p in s.procs && k < s.procs[p].depth
    requires s.procs[p].waiting == Some(TargetAbove(dep, s, p, k))
    ensures Doomed(s, TargetAbove(dep, s, p, k))
  {
    var u := TargetAbove(dep, s, p, k);
    var above := LocksAbove(dep, s, p, k);
    var w := above + [u];
    assert ProcOk(dep, s, Ancestry(dep, s, p)[k]);
    forall i | 0 <= i < |w| - 1
      ensures Needs(s, w[i], w[i + 1])
    {
      AboveNeeds(dep, s, p, k - i);
      assert w[i] == above[i] && (i < k ==> w[i + 1] == above[i + 1]);
    }
    assert w[0] == w[|w| - 1];
    assert Lasso(s, w);
  }

  // --- it does happen ---

  const TOP := 0
  const FIXUP := 10
  const NESTED := 11

  /** Target 1 depends on the checksummed file 2, whose script now asks for 1. */
  function MutualDep(): Relation {
    (a: int, b: int) => (a == 1 && b == 2) || (a == 2 && b == 1)
  }

  lemma MutualRun() returns (s: System)
    ensures Reachable(MutualDep(), s)
    ensures s.owner == map[1 := TOP, 2 := FIXUP]
    ensures s.procs.Keys == {TOP, FIXUP, NESTED}
    ensures s.procs[FIXUP].inside == Some(1) && s.procs[FIXUP].depth == 1
    ensures s.procs[NESTED].inside == Some(2) && s.procs[NESTED].waiting == Some(1) && s.procs[NESTED].depth == 2
  {
    var dep := MutualDep();
    ReachInit(dep, TOP);
    s := ReachJob(dep, Init(TOP), TOP, 1, true);
    s := ReachNext(dep, s, Enter(FIXUP, 1, true));
    assert DepWalk(dep, [1, 2]);
    assert Below(dep, 1, 2);
    s := ReachJob(dep, s, FIXUP, 2, false);
    s := ReachNext(dep, s, Enter(NESTED, 2, false));
    s := ReachNext(dep, s, Block(NESTED, 1));
  }

  /**
   A cycle through an out-of-band job is not reported: the process building 2
   waits for target 1, which is locked above it, and goes on waiting whatever
   happens.
   */
  lemma UnreportedCycle() returns (s: System)
    ensures Reachable(MutualDep(), s) && Inv(MutualDep(), s)
    ensures NESTED in s.procs && s.procs[NESTED].depth == 2
    ensures s.procs[NESTED].waiting == Some(TargetAbove(MutualDep(), s, NESTED, 1))
    ensures forall steps, t :: Run(MutualDep(), s, steps, t) ==>
      NESTED in t.procs && t.procs[NESTED].waiting == s.procs[NESTED].waiting
  {
    var dep := MutualDep();
    s := MutualRun();
    ReachableInv(dep, s);
    var r := Ancestry(dep, s, NESTED);
    assert r[0] == NESTED && s.owner[s.procs[r[0]].inside.value] == r[0 + 1];
    forall steps, t | Run(dep, s, steps, t)
      ensures NESTED in t.procs && t.procs[NESTED].waiting == s.procs[NESTED].waiting
    {
      AncestorWaitIsForEver(dep, s, NESTED, 1, steps, t);
    }
  }
}
