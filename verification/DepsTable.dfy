/**
 Recording dependencies by mark and sweep (`zap_deps1`, `add_dep`, `zap_deps2` in
 redo_core/src/state.rs).  A build first marks the rows of its target, the
 script's redo-ifchange and redo-ifcreate calls then add rows from other
 processes in any order, and at the end the rows still marked are deleted.
 */
module DepsTable {
  import opened Common

  /** A row of `Deps` without its key; `mode` is the mode character's code. */
  datatype Row = Row(mode: int, deleteMe: bool)

  /** The primary key is (target, source). */
  type Rows = map<(int, int), Row>

  datatype Op =
    | Zap1(target: int)
    | Zap2(target: int)
    | Add(target: int, mode: int, source: int)

  function Apply(rows: Rows, op: Op): Rows {
    match op
    case Zap1(t) => map k | k in rows :: if k.0 == t then rows[k].(deleteMe := true) else rows[k]
    case Zap2(t) => map k | k in rows && !(k.0 == t && rows[k].deleteMe) :: rows[k]
    case Add(t, mode, s) => rows[(t, s) := Row(mode, false)]
  }

  function ApplyAll(rows: Rows, ops: seq<Op>): Rows
    decreases |ops|
  {
    if ops == [] then rows else ApplyAll(Apply(rows, ops[0]), ops[1..])
  }

  lemma {:induction false} ApplyAllAppend(rows: Rows, ops: seq<Op>, op: Op)
    ensures ApplyAll(rows, ops + [op]) == Apply(ApplyAll(rows, ops), op)
    decreases |ops|
  {
    if ops == [] {
      assert ops + [op] == [op];
      assert ApplyAll(Apply(rows, op), []) == Apply(rows, op);
    } else {
      assert (ops + [op])[0] == ops[0] && (ops + [op])[1..] == ops[1..] + [op];
      ApplyAllAppend(Apply(rows, ops[0]), ops[1..], op);
    }
  }

  /** The mode of the last call that added this row, if any did. */
  function LastMode(ops: seq<Op>, t: int, s: int): Option<int>
    decreases |ops|
  {
    if ops == [] then None
    else
      var n := |ops| - 1;
      if ops[n].Add? && ops[n].target == t && ops[n].source == s then Some(ops[n].mode)
      else LastMode(ops[..n], t, s)
  }

  /** Other processes may work on other targets meanwhile, and add rows to this one. */
  ghost predicate Undisturbed(ops: seq<Op>, t: int) {
    forall i :: 0 <= i < |ops| ==> ops[i].Add? || ops[i].target != t
  }

  /** What a row of `t` looks like after the marking and some adds. */
  ghost predicate RowBetween(before: Rows, ops: seq<Op>, now: Rows, t: int, s: int) {
    var last := LastMode(ops, t, s);
    && ((t, s) in now <==> (t, s) in before || last.Some?)
    && (last.Some? ==> (t, s) in now && now[(t, s)] == Row(last.value, false))
    && (last.None? && (t, s) in before ==> (t, s) in now && now[(t, s)] == Row(before[(t, s)].mode, true))
  }

  /** Between mark and sweep the sources are the old ones and the new ones. */
  lemma {:induction false} BetweenZaps(before: Rows, ops: seq<Op>, t: int, s: int)
    requires Undisturbed(ops, t)
    ensures RowBetween(before, ops, ApplyAll(Apply(before, Zap1(t)), ops), t, s)
    decreases |ops|
  {
    if ops != [] {
      var n := |ops| - 1;
      assert ops == ops[..n] + [ops[n]];
      ApplyAllAppend(Apply(before, Zap1(t)), ops[..n], ops[n]);
      BetweenZaps(before, ops[..n], t, s);
    }
  }

  /** Mark, calls and sweep as one list of calls. */
  lemma CycleIsRun(before: Rows, ops: seq<Op>, t: int)
    ensures ApplyAll(before, [Zap1(t)] + ops + [Zap2(t)]) == Apply(ApplyAll(Apply(before, Zap1(t)), ops), Zap2(t))
  {
    ApplyAllAppend(before, [Zap1(t)] + ops, Zap2(t));
    assert ([Zap1(t)] + ops)[1..] == ops;
    assert [Zap1(t)] + ops + [Zap2(t)] == ([Zap1(t)] + ops) + [Zap2(t)];
  }

  /** After the sweep exactly the newly added sources remain, each with its last mode. */
  lemma AfterSweep(before: Rows, ops: seq<Op>, t: int, s: int)
    requires Undisturbed(ops, t)
    ensures
      var after := ApplyAll(before, [Zap1(t)] + ops + [Zap2(t)]);
      && ((t, s) in after <==> LastMode(ops, t, s).Some?)
      && ((t, s) in after ==> after[(t, s)] == Row(LastMode(ops, t, s).value, false))
  {
    BetweenZaps(before, ops, t, s);
    CycleIsRun(before, ops, t);
  }

  ghost predicate AgreeOn(a: Rows, b: Rows, u: int) {
    forall s :: ((u, s) in a <==> (u, s) in b) && ((u, s) in a ==> a[(u, s)] == b[(u, s)])
  }

  lemma {:induction false} AgreementKept(a: Rows, b: Rows, ops: seq<Op>, u: int)
    requires AgreeOn(a, b, u)
    ensures AgreeOn(ApplyAll(a, ops), ApplyAll(b, ops), u)
    decreases |ops|
  {
    if ops != [] {
      AgreementKept(Apply(a, ops[0]), Apply(b, ops[0]), ops[1..], u);
    }
  }

  /** The whole cycle on `t` leaves the rows of every other target as if it had not happened. */
  lemma OthersUntouched(before: Rows, ops: seq<Op>, t: int, u: int)
    requires u != t
    ensures AgreeOn(ApplyAll(before, [Zap1(t)] + ops + [Zap2(t)]), ApplyAll(before, ops), u)
  {
    CycleIsRun(before, ops, t);
    AgreementKept(Apply(before, Zap1(t)), before, ops, u);
  }

  class Table {
    var rows: Rows

    constructor ()
      ensures rows == map[]
    {
      rows := map[];
    }

    /** `update Deps set delete_me=1 where target=?` */
    method ZapDeps1(t: int)
      modifies this
      ensures rows == Apply(old(rows), Zap1(t))
      ensures rows.Keys == old(rows).Keys
    {
      rows := map k | k in rows :: if k.0 == t then rows[k].(deleteMe := true) else rows[k];
    }

    /** `delete from Deps where target=? and delete_me=1` */
    method ZapDeps2(t: int)
      modifies this
      ensures rows == Apply(old(rows), Zap2(t))
      ensures forall k :: k in rows && k.0 == t ==> !rows[k].deleteMe
    {
      rows := map k | k in rows && !(k.0 == t && rows[k].deleteMe) :: rows[k];
    }

    /** `insert or replace into Deps`: the row will outlive a sweep. */
    method AddDep(t: int, mode: int, s: int)
      modifies this
      ensures rows == Apply(old(rows), Add(t, mode, s))
      ensures (t, s) in Apply(rows, Zap2(t)) && Apply(rows, Zap2(t))[(t, s)].mode == mode
    {
      rows := rows[(t, s) := Row(mode, false)];
    }

    /** One call, from whatever process. */
    method Do(op: Op)
      modifies this
      ensures rows == Apply(old(rows), op)
    {
      match op {
        case Zap1(t) => ZapDeps1(t);
        case Zap2(t) => ZapDeps2(t);
        case Add(t, mode, s) => AddDep(t, mode, s);
      }
    }

    /**
     A build of `t` as the table sees it: mark, whatever calls arrive while the
     script runs, sweep.  `between` is the table just before the sweep.
     */
    method Rebuild(t: int, ops: seq<Op>) returns (between: Rows)
      requires Undisturbed(ops, t)
      modifies this
      ensures forall s :: RowBetween(old(rows), ops, between, t, s)
      ensures forall s :: (t, s) in rows <==> LastMode(ops, t, s).Some?
      ensures forall s :: (t, s) in rows ==> rows[(t, s)] == Row(LastMode(ops, t, s).value, false)
      ensures forall u :: u != t ==> AgreeOn(rows, ApplyAll(old(rows), ops), u)
    {
      ghost var before := rows;
      ZapDeps1(t);
      ghost var marked := rows;
      for i := 0 to |ops|
        invariant rows == ApplyAll(marked, ops[..i])
      {
        ApplyAllAppend(marked, ops[..i], ops[i]);
        assert ops[..i] + [ops[i]] == ops[..i + 1];
        Do(ops[i]);
      }
      assert ops[..|ops|] == ops;
      between := rows;
      ZapDeps2(t);
      forall s: int
        ensures RowBetween(before, ops, between, t, s)
      {
        BetweenZaps(before, ops, t, s);
      }
      CycleIsRun(before, ops, t);
      forall s: int
        ensures (t, s) in rows <==> LastMode(ops, t, s).Some?
        ensures (t, s) in rows ==> rows[(t, s)] == Row(LastMode(ops, t, s).value, false)
      {
        AfterSweep(before, ops, t, s);
      }
      forall u | u != t
        ensures AgreeOn(rows, ApplyAll(before, ops), u)
      {
        OthersUntouched(before, ops, t, u);
      }
    }
  }
}
