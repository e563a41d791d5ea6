/**
 The whole process tree of a build under one jobserver, as a transition system.

 A job started by a process holds one token.  While a redo runs nested inside a
 job, that process holds the job's token instead.  The ledger

   sum over live processes of (MYTOKENS - CHEATS)
     + bytes in the token pipe - bytes in the cheat pipe
     + jobs not represented by a live nested redo - nested redos whose job is lost

 equals TOPLEVEL at the start, and every step changes it by exactly its `Leak`.
 */
module TokenLedger {
  import opened Common
  import opened Jobserver

  datatype System = System(
    top: int,
    root: int,
    procs: map<int, Counters>,  // live redo processes
    jobs: map<int, int>,        // started and unreaped jobs of live processes -> owner
    exited: set<int>,           // jobs whose script (and all under it) has ended
    nested: map<int, int>,      // live nested redo -> the job it runs in
    tokenBytes: int,
    cheatBytes: int)

  datatype Step =
    | Start(p: int, j: int)
    | Nest(p: int, j: int)
    | ScriptExit(j: int)
    | Reap(p: int, j: int, gotCheatByte: bool)
    | ReadToken(p: int)
    | Cheat(p: int)
    | Release(p: int, n: nat)
    | ForceExit(p: int)
    | PlainExit(p: int)
    | Drain

  /** After `setup(maxjobs)` at the top level. */
  function Init(top: int, root: int): System {
    System(top, root, map[root := Counters(1, 0)], map[], {}, map[], top - 1, 0)
  }

  function Vals(m: map<int, int>): set<int> {
    set k | k in m :: m[k]
  }

  /** Jobs in which a nested redo is alive. */
  function Hosts(s: System): set<int> { Vals(s.nested) }

  function JobsOf(s: System, p: int): set<int> {
    set j | j in s.jobs && s.jobs[j] == p
  }

  predicate Quiescent(s: System) {
    s.procs.Keys == {s.root} && s.jobs == map[]
  }

  predicate Enabled(s: System, step: Step) {
    match step
    case Start(p, j) => p in s.procs && s.procs[p].my >= 1 && j !in s.jobs && j !in Hosts(s)
    case Nest(p, j) => p !in s.procs && j in s.jobs && j !in s.exited && j !in Hosts(s)
    case ScriptExit(j) => j in s.jobs && j !in s.exited && j !in Hosts(s)
    case Reap(p, j, got) => p in s.procs && j in s.exited && j in s.jobs && s.jobs[j] == p && (got ==> s.cheatBytes > 0)
    case ReadToken(p) => p in s.procs && s.procs[p].my < 1 && s.tokenBytes > 0
    case Cheat(p) => p in s.nested && p in s.procs && s.procs[p].my == 0  // the top level never cheats
    case Release(p, n) => p in s.procs && n <= Max(1, s.procs[p].my)  // `release_mine` does not look
    case ForceExit(p) => p in s.nested && p in s.procs
    case PlainExit(p) => p in s.nested && p in s.procs
    case Drain => s.root in s.procs && Quiescent(s)
  }

  /** The top-level count at the end of `wait_all`, after releasing its own token. */
  function DrainCount(s: System): int
    requires s.root in s.procs
  {
    s.tokenBytes + (if s.procs[s.root].my >= 1 then Shared(s.procs[s.root], 1) else 0) - s.cheatBytes
  }

  function Leave(s: System, p: int, tokenBytes: int, cheatBytes: int): System {
    s.(procs := s.procs - {p}, nested := s.nested - {p}, jobs := s.jobs - JobsOf(s, p),
       exited := s.exited - JobsOf(s, p), tokenBytes := tokenBytes, cheatBytes := cheatBytes)
  }

  function Next(s: System, step: Step): System
    requires Enabled(s, step)
  {
    match step
    case Start(p, j) =>
      s.(procs := s.procs[p := Counters(s.procs[p].my - 1, s.procs[p].cheats)], jobs := s.jobs[j := p])
    case Nest(p, j) =>
      s.(procs := s.procs[p := Counters(1, 0)], nested := s.nested[p := j])
    case ScriptExit(j) =>
      s.(exited := s.exited + {j})
    case Reap(p, j, got) =>
      s.(procs := s.procs[p := Reaped(s.procs[p], got)],
         jobs := s.jobs - {j}, exited := s.exited - {j},
         tokenBytes := s.tokenBytes + ReapedShare(s.procs[p], got),
         cheatBytes := s.cheatBytes - (if got then 1 else 0))
    case ReadToken(p) =>
      s.(procs := s.procs[p := Counters(s.procs[p].my + 1, s.procs[p].cheats)], tokenBytes := s.tokenBytes - 1)
    case Cheat(p) =>
      s.(procs := s.procs[p := Counters(s.procs[p].my + 1, s.procs[p].cheats + 1)])
    case Release(p, n) =>
      s.(procs := s.procs[p := Released(s.procs[p], n)], tokenBytes := s.tokenBytes + Shared(s.procs[p], n))
    case ForceExit(p) =>
      var c := Surrendered(s.procs[p], |JobsOf(s, p)|);
      Leave(s, p, s.tokenBytes + SurrenderedShare(s.procs[p], |JobsOf(s, p)|), s.cheatBytes + c.cheats)
    case PlainExit(p) =>
      Leave(s, p, s.tokenBytes, s.cheatBytes)
    case Drain =>
      var c := s.procs[s.root];
      var c1 := if c.my >= 1 then Released(c, 1) else c;
      var tokens := s.tokenBytes + (if c.my >= 1 then Shared(c, 1) else 0);
      s.(procs := s.procs[s.root := c1],
         tokenBytes := if DrainCount(s) == s.top then tokens else 0,
         cheatBytes := 0)
  }

  /** How far a step moves the ledger. */
  function Leak(s: System, step: Step): int
    requires Enabled(s, step)
  {
    match step
    case ForceExit(p) => 1 - Surrendered(s.procs[p], |JobsOf(s, p)|).my
    case PlainExit(p) => 1 - s.procs[p].my + s.procs[p].cheats - |JobsOf(s, p)|
    case Drain => if DrainCount(s) == s.top then s.cheatBytes else -DrainCount(s)
    case _ => 0
  }

  // ---------------------------------------------------------------------------
  // Sums over the live processes
  // ---------------------------------------------------------------------------

  function Net(c: Counters): int { c.my - c.cheats }

  ghost function Sum(m: map<int, Counters>, f: Counters -> int): int
    decreases |m|
  {
    if m.Keys == {} then 0
    else
      var k := Pick(m.Keys);
      f(m[k]) + Sum(m - {k}, f)
  }

  lemma RemoveTwo(m: map<int, Counters>, x: int, k: int)
    ensures m - {x} - {k} == m - {k} - {x}
  {
  }

  lemma {:induction false} SumRemove(m: map<int, Counters>, f: Counters -> int, k: int)
    requires k in m
    ensures Sum(m, f) == f(m[k]) + Sum(m - {k}, f)
    decreases |m|
  {
    var x := Pick(m.Keys);
    if x != k {
      var mx, mk := m - {x}, m - {k};
      assert k in mx && mx[k] == m[k] && x in mk && mk[x] == m[x];
      RemoveTwo(m, x, k);
      SumRemove(mx, f, k);
      SumRemove(mk, f, x);
    }
  }

  lemma SumUpdate(m: map<int, Counters>, f: Counters -> int, k: int, c: Counters)
    ensures Sum(m[k := c], f) == f(c) + Sum(m - {k}, f)
    ensures k in m ==> Sum(m[k := c], f) == Sum(m, f) - f(m[k]) + f(c)
    ensures k !in m ==> Sum(m[k := c], f) == Sum(m, f) + f(c)
  {
    SumRemove(m[k := c], f, k);
    assert m[k := c] - {k} == m - {k};
    if k in m {
      SumRemove(m, f, k);
    } else {
      assert m - {k} == m;
    }
  }

  // ---------------------------------------------------------------------------
  // The ledger
  // ---------------------------------------------------------------------------

  ghost predicate Injective(m: map<int, int>) {
    forall a, b :: a in m && b in m && m[a] == m[b] ==> a == b
  }

  /** Jobs whose token is not held by a live nested redo. */
  function Unrepresented(s: System): set<int> { s.jobs.Keys - Hosts(s) }

  /** Jobs of processes that have gone, still hosting a live nested redo. */
  function Lost(s: System): set<int> { Hosts(s) - s.jobs.Keys }

  ghost function Ledger(s: System): int {
    Sum(s.procs, Net) + s.tokenBytes - s.cheatBytes + |Unrepresented(s)| - |Lost(s)|
  }

  ghost predicate Inv(s: System) {
    && s.root in s.procs && s.root !in s.nested && s.procs[s.root].cheats == 0
    && s.procs.Keys == s.nested.Keys + {s.root}
    && Injective(s.nested)
    && (forall p :: p in s.procs ==> s.procs[p].my <= 1 && 0 <= s.procs[p].cheats)
    && (forall j :: j in s.jobs ==> s.jobs[j] in s.procs)
    && (forall j :: j in s.exited ==> j in s.jobs && j !in Hosts(s))
    && s.tokenBytes >= 0 && s.cheatBytes >= 0
  }

  lemma ValuesRemove(m: map<int, int>, k: int)
    requires Injective(m) && k in m
    ensures Vals(m) == Vals(m - {k}) + {m[k]} && m[k] !in Vals(m - {k})
  {
    var m' := m - {k};
    forall v | v in Vals(m)
      ensures v in Vals(m') + {m[k]}
    {
      var a :| a in m && m[a] == v;
      assert a != k ==> a in m' && m'[a] == v;
    }
    assert forall a :: a in m' ==> a in m && a != k && m'[a] == m[a];
  }

  lemma ValuesAdd(m: map<int, int>, k: int, v: int)
    requires k !in m
    ensures Vals(m[k := v]) == Vals(m) + {v}
  {
    var m' := m[k := v];
    forall x | x in Vals(m) + {v}
      ensures x in Vals(m')
    {
      if x in Vals(m) {
        var a :| a in m && m[a] == x;
        assert a in m' && m'[a] == x;
      } else {
        assert k in m' && m'[k] == x;
      }
    }
  }

  lemma {:induction false} InjectiveSize(m: map<int, int>)
    requires Injective(m)
    ensures |Vals(m)| == |m|
    decreases |m|
  {
    if m.Keys == {} {
      assert Vals(m) == {};
    } else {
      var k := Pick(m.Keys);
      var m' := m - {k};
      InjectiveSize(m');
      ValuesRemove(m, k);
      assert |m'| == |m| - 1 by {
        assert m'.Keys == m.Keys - {k};
      }
    }
  }

  /** A form that is easier to follow through the steps. */
  ghost function Tally(s: System): int {
    Sum(s.procs, Net) + s.tokenBytes - s.cheatBytes + |s.jobs| - |s.nested|
  }

  lemma LedgerIsTally(s: System)
    requires Injective(s.nested)
    ensures Ledger(s) == Tally(s)
  {
    InjectiveSize(s.nested);
    var J, V := s.jobs.Keys, Hosts(s);
    assert |J - V| == |J| - |J * V| && |V - J| == |V| - |V * J|;
    assert J * V == V * J;
  }

  lemma InjectiveGrow(m: map<int, int>, k: int, v: int)
    requires Injective(m) && k !in m && v !in Vals(m)
    ensures Injective(m[k := v])
  {
  }

  lemma LeaveTally(s: System, p: int, tokenBytes: int, cheatBytes: int)
    requires Inv(s) && p in s.nested
    ensures Tally(Leave(s, p, tokenBytes, cheatBytes)) ==
      Tally(s) - Net(s.procs[p]) - |JobsOf(s, p)| + 1 + tokenBytes - s.tokenBytes - cheatBytes + s.cheatBytes
  {
    SumRemove(s.procs, Net, p);
    var s' := Leave(s, p, tokenBytes, cheatBytes);
    assert s'.jobs.Keys == s.jobs.Keys - JobsOf(s, p);
    assert JobsOf(s, p) <= s.jobs.Keys;
    assert s'.nested.Keys == s.nested.Keys - {p};
  }

  // --- what the counter operations conserve ---

  lemma ReleasedNet(c: Counters, n: nat)
    requires c.cheats >= 0
    ensures Net(Released(c, n)) + Shared(c, n) == Net(c)
    ensures 0 <= Released(c, n).cheats <= c.cheats
  {
  }

  lemma SurrenderedNet(c: Counters, n: nat)
    requires 0 <= c.cheats
    ensures Net(Surrendered(c, n)) + SurrenderedShare(c, n) == Net(c) + n
    ensures Surrendered(c, n).my <= 1 && 0 <= Surrendered(c, n).cheats <= c.cheats
    ensures c.my >= 0 ==> Surrendered(c, n).my >= 0
    ensures Surrendered(c, n).my == 1 <==> CoversOnForce(c, n)
  {
    ReleasedNet(Created(c, n), Surplus(Created(c, n)));
  }

  lemma ReapedNet(c: Counters, got: bool)
    requires c.my <= 1 && 0 <= c.cheats
    ensures Net(Reaped(c, got)) + ReapedShare(c, got) == Net(c) + (if got then 0 else 1)
    ensures c.my >= 0 ==> Reaped(c, got).my >= 0
    ensures Reaped(c, got).my <= 1 && 0 <= Reaped(c, got).cheats <= c.cheats
  {
    if !got {
      SurrenderedNet(c, 1);
    }
  }

  /** A step that only changes one process's counters and the pipes. */
  lemma LocalTally(s: System, p: int, c: Counters, tokenBytes: int, cheatBytes: int)
    requires p in s.procs
    ensures Tally(s.(procs := s.procs[p := c], tokenBytes := tokenBytes, cheatBytes := cheatBytes)) ==
      Tally(s) - Net(s.procs[p]) + Net(c) + tokenBytes - s.tokenBytes - cheatBytes + s.cheatBytes
  {
    SumUpdate(s.procs, Net, p, c);
  }

  lemma StartTally(s: System, p: int, j: int)
    requires Enabled(s, Start(p, j))
    ensures Tally(Next(s, Start(p, j))) == Tally(s)
  {
    AddJobTally(s, j, p);
    LocalTally(s.(jobs := s.jobs[j := p]), p, Counters(s.procs[p].my - 1, s.procs[p].cheats), s.tokenBytes, s.cheatBytes);
  }

  lemma AddJobTally(s: System, j: int, p: int)
    requires j !in s.jobs
    ensures Tally(s.(jobs := s.jobs[j := p])) == Tally(s) + 1
  {
    assert s.jobs[j := p].Keys == s.jobs.Keys + {j};
  }

  lemma NestTally(s: System, p: int, j: int)
    requires Inv(s) && Enabled(s, Nest(p, j))
    ensures Tally(Next(s, Nest(p, j))) == Tally(s)
  {
    var s' := Next(s, Nest(p, j));
    SumUpdate(s.procs, Net, p, Counters(1, 0));
    assert p !in s.nested.Keys && s'.nested.Keys == s.nested.Keys + {p};
  }

  lemma DropJobTally(s: System, j: int)
    requires j in s.jobs
    ensures Tally(s.(jobs := s.jobs - {j}, exited := s.exited - {j})) == Tally(s) - 1
  {
    assert (s.jobs - {j}).Keys == s.jobs.Keys - {j};
  }

  lemma ReapTally(s: System, p: int, j: int, got: bool)
    requires Inv(s) && Enabled(s, Reap(p, j, got))
    ensures Tally(Next(s, Reap(p, j, got))) == Tally(s)
  {
    var c := s.procs[p];
    ReapedNet(c, got);
    DropJobTally(s, j);
    LocalTally(s.(jobs := s.jobs - {j}, exited := s.exited - {j}), p, Reaped(c, got),
               s.tokenBytes + ReapedShare(c, got), s.cheatBytes - (if got then 1 else 0));
  }

  lemma LocalStepTally(s: System, step: Step)
    requires Inv(s) && Enabled(s, step) && (step.ReadToken? || step.Cheat? || step.Release?)
    ensures Tally(Next(s, step)) == Tally(s)
  {
    var p := step.p;
    if step.Release? {
      ReleasedNet(s.procs[p], step.n);
    }
    LocalTally(s, p, Next(s, step).procs[p], Next(s, step).tokenBytes, s.cheatBytes);
  }

  lemma ForceExitTally(s: System, p: int)
    requires Inv(s) && Enabled(s, ForceExit(p))
    ensures Tally(Next(s, ForceExit(p))) == Tally(s) + Leak(s, ForceExit(p))
  {
    var s' := Next(s, ForceExit(p));
    SurrenderedNet(s.procs[p], |JobsOf(s, p)|);
    LeaveTally(s, p, s'.tokenBytes, s'.cheatBytes);
  }

  lemma PlainExitTally(s: System, p: int)
    requires Inv(s) && Enabled(s, PlainExit(p))
    ensures Tally(Next(s, PlainExit(p))) == Tally(s) + Leak(s, PlainExit(p))
  {
    LeaveTally(s, p, s.tokenBytes, s.cheatBytes);
  }

  lemma DrainTally(s: System)
    requires Inv(s) && Enabled(s, Drain)
    ensures Tally(Next(s, Drain)) == Tally(s) + Leak(s, Drain)
  {
    var s' := Next(s, Drain);
    ReleasedNet(s.procs[s.root], 1);
    LocalTally(s, s.root, s'.procs[s.root], s'.tokenBytes, s'.cheatBytes);
  }

  /** Every step moves the ledger by its leak. */
  lemma StepTally(s: System, step: Step)
    requires Inv(s) && Enabled(s, step)
    ensures Tally(Next(s, step)) == Tally(s) + Leak(s, step)
  {
    match step {
      case Start(p, j) => StartTally(s, p, j);
      case Nest(p, j) => NestTally(s, p, j);
      case ScriptExit(j) =>
      case Reap(p, j, got) => ReapTally(s, p, j, got);
      case ReadToken(p) => LocalStepTally(s, step);
      case Cheat(p) => LocalStepTally(s, step);
      case Release(p, n) => LocalStepTally(s, step);
      case ForceExit(p) => ForceExitTally(s, p);
      case PlainExit(p) => PlainExitTally(s, p);
      case Drain => DrainTally(s);
    }
  }

  lemma StepInv(s: System, step: Step)
    requires Inv(s) && Enabled(s, step)
    ensures Inv(Next(s, step))
  {
    match step {
      case Start(p, j) => StartInv(s, p, j);
      case Nest(p, j) => NestInv(s, p, j);
      case ScriptExit(j) =>
      case Reap(p, j, got) => ReapInv(s, p, j, got);
      case ReadToken(p) => LocalStepInv(s, step);
      case Cheat(p) => LocalStepInv(s, step);
      case Release(p, n) => LocalStepInv(s, step);
      case ForceExit(p) => ForceExitInv(s, p);
      case PlainExit(p) => LeaveInv(s, p, s.tokenBytes, s.cheatBytes);
      case Drain => DrainInv(s);
    }
  }

  lemma LocalStepInv(s: System, step: Step)
    requires Inv(s) && Enabled(s, step) && (step.ReadToken? || step.Cheat? || step.Release?)
    ensures Inv(Next(s, step))
  {
    var p := step.p;
    if step.Release? {
      ReleasedNet(s.procs[p], step.n);
    }
    LocalInv(s, p, Next(s, step).procs[p], Next(s, step).tokenBytes, s.cheatBytes);
  }

  lemma ForceExitInv(s: System, p: int)
    requires Inv(s) && Enabled(s, ForceExit(p))
    ensures Inv(Next(s, ForceExit(p)))
  {
    SurrenderedNet(s.procs[p], |JobsOf(s, p)|);
    LeaveInv(s, p, Next(s, ForceExit(p)).tokenBytes, Next(s, ForceExit(p)).cheatBytes);
  }

  lemma DrainInv(s: System)
    requires Inv(s) && Enabled(s, Drain)
    ensures Inv(Next(s, Drain))
  {
    ReleasedNet(s.procs[s.root], 1);
    LocalInv(s, s.root, Next(s, Drain).procs[s.root], Next(s, Drain).tokenBytes, 0);
  }

  lemma StartInv(s: System, p: int, j: int)
    requires Inv(s) && Enabled(s, Start(p, j))
    ensures Inv(Next(s, Start(p, j)))
  {
    LocalInv(s, p, Counters(s.procs[p].my - 1, s.procs[p].cheats), s.tokenBytes, s.cheatBytes);
  }

  lemma NestInv(s: System, p: int, j: int)
    requires Inv(s) && Enabled(s, Nest(p, j))
    ensures Inv(Next(s, Nest(p, j)))
  {
    assert p !in s.nested;
    InjectiveGrow(s.nested, p, j);
    ValuesAdd(s.nested, p, j);
  }

  lemma ReapInv(s: System, p: int, j: int, got: bool)
    requires Inv(s) && Enabled(s, Reap(p, j, got))
    ensures Inv(Next(s, Reap(p, j, got)))
  {
    var c := s.procs[p];
    var s1 := s.(jobs := s.jobs - {j}, exited := s.exited - {j});
    assert Inv(s1);
    ReapedNet(c, got);
    LocalInv(s1, p, Reaped(c, got), s.tokenBytes + ReapedShare(c, got), s.cheatBytes - (if got then 1 else 0));
  }

  lemma LocalInv(s: System, p: int, c: Counters, tokenBytes: int, cheatBytes: int)
    requires Inv(s) && p in s.procs && tokenBytes >= 0 && cheatBytes >= 0
    requires c.my <= 1 && 0 <= c.cheats && (p == s.root ==> c.cheats == 0)
    ensures Inv(s.(procs := s.procs[p := c], tokenBytes := tokenBytes, cheatBytes := cheatBytes))
  {
    assert s.procs[p := c].Keys == s.procs.Keys;
  }

  lemma LeaveInv(s: System, p: int, tokenBytes: int, cheatBytes: int)
    requires Inv(s) && p in s.nested && tokenBytes >= 0 && cheatBytes >= 0
    ensures Inv(Leave(s, p, tokenBytes, cheatBytes))
  {
    var s' := Leave(s, p, tokenBytes, cheatBytes);
    assert Hosts(s') <= Hosts(s);
    assert forall a :: a in s'.nested ==> a in s.nested && s'.nested[a] == s.nested[a];
  }

  // ---------------------------------------------------------------------------
  // Runs
  // ---------------------------------------------------------------------------

  ghost predicate Run(s: System, steps: seq<Step>, t: System)
    decreases |steps|
  {
    if steps == [] then s == t
    else Enabled(s, steps[0]) && Run(Next(s, steps[0]), steps[1..], t)
  }

  ghost function TotalLeak(s: System, steps: seq<Step>, t: System): int
    requires Run(s, steps, t)
    decreases |steps|
  {
    if steps == [] then 0
    else Leak(s, steps[0]) + TotalLeak(Next(s, steps[0]), steps[1..], t)
  }

  lemma {:induction false} RunLedger(s: System, steps: seq<Step>, t: System)
    requires Inv(s) && Run(s, steps, t)
    ensures Inv(t) && Ledger(t) == Ledger(s) + TotalLeak(s, steps, t)
    ensures t.top == s.top && t.root == s.root
    decreases |steps|
  {
    LedgerIsTally(s);
    if steps != [] {
      StepInv(s, steps[0]);
      StepTally(s, steps[0]);
      LedgerIsTally(Next(s, steps[0]));
      RunLedger(Next(s, steps[0]), steps[1..], t);
    }
  }

  lemma InitLedger(top: int, root: int)
    requires top >= 1
    ensures Inv(Init(top, root)) && Ledger(Init(top, root)) == top
  {
    var s := Init(top, root);
    assert s.procs == map[][root := Counters(1, 0)];
    SumUpdate(map[], Net, root, Counters(1, 0));
    LedgerIsTally(s);
  }

  /** The ledger over every run: TOPLEVEL plus what the exits and drains leaked. */
  lemma LedgerTheorem(top: int, root: int, steps: seq<Step>, t: System)
    requires top >= 1 && Run(Init(top, root), steps, t)
    ensures Inv(t)
    ensures Ledger(t) == top + TotalLeak(Init(top, root), steps, t)
  {
    InitLedger(top, root);
    RunLedger(Init(top, root), steps, t);
  }

  /** One step, on the ledger itself. */
  lemma StepLedger(s: System, step: Step)
    requires Inv(s) && Enabled(s, step)
    ensures Ledger(Next(s, step)) == Ledger(s) + Leak(s, step)
  {
    StepInv(s, step);
    StepTally(s, step);
    LedgerIsTally(s);
    LedgerIsTally(Next(s, step));
  }

  /** When `force_return_tokens` covers what a process owes. */
  predicate CoversOnForce(c: Counters, jobs: nat) {
    c.my >= 1 || c.my + jobs > c.cheats
  }

  /** When leaving without it does: one token in hand or in jobs beyond the cheats. */
  predicate CoversOnExit(c: Counters, jobs: nat) {
    c.my + jobs == 1 + c.cheats
  }

  /**
   `force_return_tokens` keeps the ledger exactly when the process holds a token,
   or gives up more jobs than it has cheated for and owes; otherwise tokens are
   made up, and just one if it owes none.
   */
  lemma ForceExitKeepsLedgerIff(s: System, p: int)
    requires Inv(s) && Enabled(s, ForceExit(p))
    ensures Ledger(Next(s, ForceExit(p))) == Ledger(s) <==> CoversOnForce(s.procs[p], |JobsOf(s, p)|)
    ensures Ledger(Next(s, ForceExit(p))) >= Ledger(s)
    ensures s.procs[p].my >= 0 ==> Ledger(Next(s, ForceExit(p))) <= Ledger(s) + 1
  {
    SurrenderedNet(s.procs[p], |JobsOf(s, p)|);
    StepLedger(s, ForceExit(p));
  }

  /**
   Leaving without it, the only exit the program has, keeps the ledger exactly
   when tokens and jobs make one more than the cheats; with the token in hand
   and nothing running it makes up a token for every cheat.
   */
  lemma PlainExitKeepsLedgerIff(s: System, p: int)
    requires Inv(s) && Enabled(s, PlainExit(p))
    ensures Ledger(Next(s, PlainExit(p))) == Ledger(s) <==> CoversOnExit(s.procs[p], |JobsOf(s, p)|)
    ensures s.procs[p].my == 1 && JobsOf(s, p) == {} ==>
      Ledger(Next(s, PlainExit(p))) == Ledger(s) + s.procs[p].cheats
  {
    StepLedger(s, PlainExit(p));
  }

  // ---------------------------------------------------------------------------
  // Consequences
  // ---------------------------------------------------------------------------

  function Held(c: Counters): int { c.my }
  function Cheated(c: Counters): int { c.cheats }

  /** Tokens released that were not there. */
  function Owed(c: Counters): int { Max(0, -c.my) }

  lemma {:induction false} SumSplit(m: map<int, Counters>)
    ensures Sum(m, Net) == Sum(m, Held) - Sum(m, Cheated)
    decreases |m|
  {
    if m.Keys != {} {
      var k := Pick(m.Keys);
      SumRemove(m, Net, k);
      SumRemove(m, Held, k);
      SumRemove(m, Cheated, k);
      SumSplit(m - {k});
    }
  }

  lemma {:induction false} HeldOrOwed(m: map<int, Counters>)
    ensures Sum(m, Held) + Sum(m, Owed) >= 0
    decreases |m|
  {
    if m.Keys != {} {
      var k := Pick(m.Keys);
      SumRemove(m, Held, k);
      SumRemove(m, Owed, k);
      HeldOrOwed(m - {k});
    }
  }

  /** Scripts running right now, not counting those that host a nested redo. */
  function Running(s: System): set<int> { Unrepresented(s) - s.exited }

  /** A script runs from its start until it ends or a redo starts in it. */
  lemma RunningMoves(s: System, step: Step)
    requires Inv(s) && Enabled(s, step)
    ensures step.Start? ==> Running(Next(s, step)) == Running(s) + {step.j} && step.j !in Running(s)
    ensures step.ScriptExit? || step.Nest? ==> Running(Next(s, step)) == Running(s) - {step.j} && step.j in Running(s)
  {
    if step.Nest? {
      assert step.p !in s.nested;
      ValuesAdd(s.nested, step.p, step.j);
    }
  }

  /**
   The parallelism bound: at most TOPLEVEL scripts, plus one for each cheat
   outstanding or returned through the cheat pipe, plus what has leaked, what was
   released without being there, and the nested redos left behind by an owner that
   exited before them.
   */
  lemma ParallelismBound(top: int, root: int, steps: seq<Step>, t: System)
    requires top >= 1 && Run(Init(top, root), steps, t)
    ensures |Running(t)| <=
      top + Sum(t.procs, Cheated) + Sum(t.procs, Owed) + t.cheatBytes + |Lost(t)| + TotalLeak(Init(top, root), steps, t)
  {
    LedgerTheorem(top, root, steps, t);
    SumSplit(t.procs);
    HeldOrOwed(t.procs);
    SetSubsetSize(Running(t), Unrepresented(t));
  }

  lemma SetSubsetSize(a: set<int>, b: set<int>)
    requires a <= b
    ensures |a| <= |b|
  {
    assert b == a + (b - a);
  }

  /**
   At a quiescent top-level drain the count is TOPLEVEL plus what leaked before and
   what the top owes, so the mismatch error is raised exactly when that is not nil.
   */
  lemma DrainFindsLeaks(top: int, root: int, steps: seq<Step>, t: System)
    requires top >= 1 && Run(Init(top, root), steps, t) && Quiescent(t)
    ensures root in t.procs && t.root == root && t.top == top
    ensures DrainCount(t) == top + TotalLeak(Init(top, root), steps, t) + Owed(t.procs[root])
    ensures DrainCount(t) != t.top <==> TotalLeak(Init(top, root), steps, t) + Owed(t.procs[root]) != 0
  {
    LedgerTheorem(top, root, steps, t);
    InitLedger(top, root);
    RunLedger(Init(top, root), steps, t);
    QuiescentCount(t);
  }

  /**
   What a drain leaves for the next one: if it balanced, all tokens are back but the
   cheat bytes are gone, so the next count is too high by those; if not, nothing is
   left in either pipe.
   */
  lemma DrainThenDrain(s: System)
    requires Inv(s) && Quiescent(s) && DrainCount(s) == s.top
    ensures
      var s' := Next(s, Drain);
      Inv(s') && Quiescent(s') && DrainCount(s') == s'.top + s.cheatBytes
  {
    DrainInv(s);
    var s' := Next(s, Drain);
    assert s'.procs.Keys == s.procs.Keys;
  }

  lemma FailedDrainEmpties(s: System)
    requires Inv(s) && Quiescent(s) && DrainCount(s) != s.top
    ensures
      var s' := Next(s, Drain);
      Inv(s') && Quiescent(s') && DrainCount(s') == 0
  {
    DrainInv(s);
    var s' := Next(s, Drain);
    assert s'.procs.Keys == s.procs.Keys;
  }

  /** Steps that never leak: every exit covers what it owes, no drain yet. */
  ghost predicate Orderly(s: System, steps: seq<Step>, t: System)
    requires Run(s, steps, t)
    decreases |steps|
  {
    steps != [] ==>
      && !steps[0].Drain?
      && (steps[0].PlainExit? ==> CoversOnExit(s.procs[steps[0].p], |JobsOf(s, steps[0].p)|))
      && (steps[0].ForceExit? ==> CoversOnForce(s.procs[steps[0].p], |JobsOf(s, steps[0].p)|))
      && Orderly(Next(s, steps[0]), steps[1..], t)
  }

  lemma {:induction false} OrderlyNoLeak(s: System, steps: seq<Step>, t: System)
    requires Inv(s) && Run(s, steps, t) && Orderly(s, steps, t)
    ensures TotalLeak(s, steps, t) == 0
    decreases |steps|
  {
    if steps != [] {
      StepInv(s, steps[0]);
      if steps[0].ForceExit? {
        SurrenderedNet(s.procs[steps[0].p], |JobsOf(s, steps[0].p)|);
      }
      OrderlyNoLeak(Next(s, steps[0]), steps[1..], t);
    }
  }

  /** So the first drain of an orderly build reports a mismatch only while the top owes a token. */
  lemma FirstDrainSucceeds(top: int, root: int, steps: seq<Step>, t: System)
    requires top >= 1 && Run(Init(top, root), steps, t) && Quiescent(t)
    requires Orderly(Init(top, root), steps, t)
    ensures Ledger(t) == top && root in t.procs && t.root == root
    ensures DrainCount(t) == top <==> t.procs[root].my >= 0
  {
    InitLedger(top, root);
    OrderlyNoLeak(Init(top, root), steps, t);
    LedgerTheorem(top, root, steps, t);
    DrainFindsLeaks(top, root, steps, t);
  }

  /** And its parallelism is bounded without a leak term. */
  lemma OrderlyParallelismBound(top: int, root: int, steps: seq<Step>, t: System)
    requires top >= 1 && Run(Init(top, root), steps, t) && Orderly(Init(top, root), steps, t)
    ensures |Running(t)| <= top + Sum(t.procs, Cheated) + Sum(t.procs, Owed) + t.cheatBytes + |Lost(t)|
  {
    InitLedger(top, root);
    OrderlyNoLeak(Init(top, root), steps, t);
    ParallelismBound(top, root, steps, t);
  }

  // ---------------------------------------------------------------------------
  // Leaks and failed assertions do happen
  // ---------------------------------------------------------------------------

  ghost predicate Path(states: seq<System>, steps: seq<Step>) {
    && |states| == |steps| + 1
    && forall i {:trigger steps[i]} :: 0 <= i < |steps| ==>
         Enabled(states[i], steps[i]) && states[i + 1] == Next(states[i], steps[i])
  }

  /** Steps other than exits and drains, which leak nothing. */
  ghost predicate Quiet(step: Step) {
    !step.ForceExit? && !step.PlainExit? && !step.Drain?
  }

  /** Reached by some run after `setup`, state by state; `quiet` means by quiet steps alone. */
  ghost predicate Reached(top: int, t: System, quiet: bool) {
    exists states, steps ::
      && Path(states, steps) && states[0] == Init(top, ROOT) && states[|steps|] == t
      && (quiet ==> forall i {:trigger steps[i]} :: 0 <= i < |steps| ==> Quiet(steps[i]))
  }

  lemma PathTail(states: seq<System>, steps: seq<Step>)
    requires Path(states, steps) && steps != []
    ensures Path(states[1..], steps[1..])
  {
    var ss, ts := states[1..], steps[1..];
    forall i | 0 <= i < |ts|
      ensures Enabled(ss[i], ts[i]) && ss[i + 1] == Next(ss[i], ts[i])
    {
      assert ts[i] == steps[i + 1];
    }
  }

  lemma {:induction false} PathRun(states: seq<System>, steps: seq<Step>)
    requires Path(states, steps)
    ensures Run(states[0], steps, states[|steps|])
    decreases |steps|
  {
    if steps != [] {
      assert Enabled(states[0], steps[0]);
      PathTail(states, steps);
      PathRun(states[1..], steps[1..]);
    }
  }

  lemma {:induction false} QuietNoLeak(s: System, steps: seq<Step>, t: System)
    requires Run(s, steps, t) && forall i :: 0 <= i < |steps| ==> Quiet(steps[i])
    ensures TotalLeak(s, steps, t) == 0
    decreases |steps|
  {
    if steps != [] {
      QuietNoLeak(Next(s, steps[0]), steps[1..], t);
    }
  }

  /** So the theorems about runs apply. */
  lemma ReachedInv(top: int, t: System, quiet: bool)
    requires top >= 1 && Reached(top, t, quiet)
    ensures Inv(t) && t.top == top && (quiet ==> Ledger(t) == top)
  {
    var states, steps :|
      && Path(states, steps) && states[0] == Init(top, ROOT) && states[|steps|] == t
      && (quiet ==> forall i {:trigger steps[i]} :: 0 <= i < |steps| ==> Quiet(steps[i]));
    PathRun(states, steps);
    InitLedger(top, ROOT);
    RunLedger(Init(top, ROOT), steps, t);
    if quiet {
      QuietNoLeak(Init(top, ROOT), steps, t);
    }
  }

  lemma ReachInit(top: int) returns (s: System)
    ensures Reached(top, s, true) && s == Init(top, ROOT)
  {
    s := Init(top, ROOT);
    assert Path([s], []);
  }

  /** Taking one more step. */
  lemma ReachNext(top: int, s: System, quiet: bool, step: Step) returns (t: System)
    requires Reached(top, s, quiet) && Enabled(s, step)
    ensures t == Next(s, step) && Reached(top, t, quiet && Quiet(step))
  {
    t := Next(s, step);
    var states, steps :|
      && Path(states, steps) && states[0] == Init(top, ROOT) && states[|steps|] == s
      && (quiet ==> forall i {:trigger steps[i]} :: 0 <= i < |steps| ==> Quiet(steps[i]));
    assert Path(states + [t], steps + [step]);
  }

  const ROOT := 0
  const ONE: Counters := Counters(1, 0)
  const NONE: Counters := Counters(0, 0)

  /** A process starts job `j`, and redo `q` runs in it. */
  lemma ReachNested(top: int, s: System, p: int, j: int, q: int) returns (t: System)
    requires Reached(top, s, true) && Enabled(s, Start(p, j)) && q !in s.procs && j !in s.exited
    ensures Reached(top, t, true)
    ensures t == s.(procs := s.procs[p := Counters(s.procs[p].my - 1, s.procs[p].cheats)][q := ONE],
                    jobs := s.jobs[j := p], nested := s.nested[q := j])
  {
    var s1 := ReachNext(top, s, true, Start(p, j));
    assert Hosts(s1) == Hosts(s);
    t := ReachNext(top, s1, true, Nest(q, j));
  }

  /** Process `p` gives its token away and `q` picks it up. */
  lemma ReachPassed(top: int, s: System, quiet: bool, p: int, q: int) returns (t: System)
    requires Reached(top, s, quiet) && p in s.procs && q in s.procs && p != q && s.tokenBytes >= 0
    requires s.procs[p] == ONE && s.procs[q] == NONE
    ensures Reached(top, t, quiet) && t == s.(procs := s.procs[p := NONE][q := ONE])
  {
    var s1 := ReachGiven(top, s, quiet, p);
    t := ReachNext(top, s1, quiet, ReadToken(q));
    assert t.procs == s.procs[p := NONE][q := ONE];
  }

  lemma ReachGiven(top: int, s: System, quiet: bool, p: int) returns (t: System)
    requires Reached(top, s, quiet) && p in s.procs && s.procs[p] == ONE
    ensures Reached(top, t, quiet) && t == s.(procs := s.procs[p := NONE], tokenBytes := s.tokenBytes + 1)
  {
    t := ReachNext(top, s, quiet, Release(p, 1));
  }

  /** A redo with its token in hand and no job leaves through `force_return_tokens`. */
  lemma ReachForcedExit(top: int, s: System, p: int) returns (t: System)
    requires Reached(top, s, true) && Enabled(s, ForceExit(p)) && JobsOf(s, p) == {}
    requires s.procs[p].my == 1 && s.procs[p].cheats >= 0
    ensures Reached(top, t, false)
    ensures t == s.(procs := s.procs - {p}, nested := s.nested - {p}, cheatBytes := s.cheatBytes + s.procs[p].cheats)
  {
    var c := s.procs[p];
    assert Surrendered(c, 0) == c && SurrenderedShare(c, 0) == 0;
    t := ReachNext(top, s, true, ForceExit(p));
    assert s.jobs - JobsOf(s, p) == s.jobs;
  }

  lemma ReachHandedBack(top: int) returns (s: System)
    requires top >= 1
    ensures Reached(top, s, true) && 1 in s.procs && 1 in s.nested
    ensures s.procs[1] == NONE && !CoversOnForce(s.procs[1], |JobsOf(s, 1)|)
  {
    var s0 := ReachInit(top);
    var s1 := ReachNested(top, s0, ROOT, 10, 1);
    s := ReachNext(top, s1, true, Release(1, 1));
    assert JobsOf(s, 1) == {};
  }

  /**
   Leaving without a token makes one up even with `force_return_tokens`: a nested
   redo gives its token away, as it does before waiting for a lock, and exits.
   */
  lemma ForcedExitLeaks(top: int) returns (s: System)
    requires top >= 1
    ensures Reached(top, s, true) && Enabled(s, ForceExit(1))
    ensures Ledger(s) == top && Ledger(Next(s, ForceExit(1))) == top + 1
  {
    s := ReachHandedBack(top);
    ReachedInv(top, s, true);
    ForceExitKeepsLedgerIff(s, 1);
  }

  /** Redo 1 gives its token to the top and cheats for another one. */
  lemma ReachCheated(top: int) returns (s: System)
    requires top >= 1
    ensures Reached(top, s, true)
    ensures s.root == ROOT && s.procs.Keys == {ROOT, 1} && s.procs[1] == Counters(1, 1) && JobsOf(s, 1) == {}
    ensures s.procs[ROOT].my >= 0
    ensures s.nested == map[1 := 10] && s.jobs == map[10 := ROOT] && s.exited == {}
  {
    var s0 := ReachInit(top);
    var s1 := ReachNested(top, s0, ROOT, 10, 1);
    var s2 := ReachPassed(top, s1, true, 1, ROOT);
    s := ReachNext(top, s2, true, Cheat(1));
  }

  /** Then it exits, and the ledger is one too high. */
  lemma CheatedExit(top: int, s: System) returns (t: System)
    requires top >= 1 && Reached(top, s, true) && Enabled(s, PlainExit(1))
    requires s.procs[1] == Counters(1, 1) && JobsOf(s, 1) == {}
    ensures t == Next(s, PlainExit(1)) && Reached(top, t, false) && Ledger(t) == top + 1
  {
    t := ReachNext(top, s, true, PlainExit(1));
    ReachedInv(top, s, true);
    PlainExitKeepsLedgerIff(s, 1);
  }

  /** A quiet step keeps the ledger. */
  lemma QuietStep(top: int, s: System, step: Step) returns (t: System)
    requires top >= 1 && Reached(top, s, false) && Enabled(s, step) && Quiet(step)
    ensures t == Next(s, step) && Reached(top, t, false) && Ledger(t) == Ledger(s)
  {
    t := ReachNext(top, s, false, step);
    ReachedInv(top, s, false);
    StepLedger(s, step);
  }

  /** What is left is the top and its job, which ends and is reaped. */
  lemma ReapLast(top: int, s: System) returns (t: System)
    requires top >= 1 && Reached(top, s, false) && s.root == ROOT && s.procs.Keys == {ROOT} && s.procs[ROOT].my >= 0
    requires s.nested == map[] && s.jobs == map[10 := ROOT] && s.exited == {}
    ensures Reached(top, t, false) && Quiescent(t) && Ledger(t) == Ledger(s) && Owed(t.procs[t.root]) == 0
  {
    var s1 := ScriptEnds(top, s, 10);
    ReachedInv(top, s1, false);
    ReapedNet(s1.procs[ROOT], false);
    t := QuietStep(top, s1, Reap(ROOT, 10, false));
    assert t.jobs == map[];
  }

  lemma ScriptEnds(top: int, s: System, j: int) returns (t: System)
    requires top >= 1 && Reached(top, s, false) && j in s.jobs && s.nested == map[] && s.exited == {}
    ensures Reached(top, t, false) && Ledger(t) == Ledger(s) && t == s.(exited := {j})
  {
    assert Hosts(s) == {};
    t := QuietStep(top, s, ScriptExit(j));
  }

  /** With one process and no job left, the count is the ledger and what the process owes. */
  lemma QuiescentCount(s: System)
    requires Inv(s) && Quiescent(s)
    ensures DrainCount(s) == Ledger(s) + Owed(s.procs[s.root])
  {
    LedgerIsTally(s);
    SumRemove(s.procs, Net, s.root);
    assert s.procs - {s.root} == map[];
    assert s.nested == map[] by {
      assert s.nested.Keys <= s.procs.Keys - {s.root};
    }
  }

  /**
   The error of the top-level drain is reachable in the program as it is: a
   nested redo cheats for a token and exits, and the final count is one too many.
   */
  lemma CheatThenMismatch(top: int) returns (t: System)
    requires top >= 1
    ensures Reached(top, t, false) && Quiescent(t) && t.root in t.procs && DrainCount(t) == t.top + 1
  {
    var s := ReachCheated(top);
    var s1 := CheatedExit(top, s);
    assert s1.nested == map[] && s1.jobs == map[10 := ROOT] && s1.procs.Keys == {ROOT};
    t := ReapLast(top, s1);
    ReachedInv(top, t, false);
    QuiescentCount(t);
  }

  /** Two redos run side by side, and the top has no token left. */
  lemma ReachTwoNested() returns (s: System)
    ensures Reached(2, s, true) && s.tokenBytes == 0 && s.cheatBytes == 0 && s.exited == {}
    ensures ROOT in s.procs && s.procs[ROOT] == NONE
    ensures 1 in s.procs && s.procs[1] == ONE && 2 in s.procs && s.procs[2] == ONE
    ensures s.jobs == map[10 := ROOT, 11 := ROOT] && s.nested == map[1 := 10, 2 := 11]
  {
    var s0 := ReachInit(2);
    var s1 := ReachNested(2, s0, ROOT, 10, 1);
    var s2 := ReachNext(2, s1, true, ReadToken(ROOT));
    assert 11 !in Hosts(s2) && 2 !in s2.procs;
    s := ReachNested(2, s2, ROOT, 11, 2);
  }

  /** Redo 2 cheats and leaves its cheat byte behind. */
  lemma ReachCheatByte() returns (s: System)
    ensures Reached(2, s, false) && s.tokenBytes == 0 && s.cheatBytes == 1 && s.exited == {}
    ensures ROOT in s.procs && s.procs[ROOT] == ONE && 1 in s.procs && s.procs[1] == ONE
    ensures s.jobs == map[10 := ROOT, 11 := ROOT] && s.nested == map[1 := 10]
  {
    var s0 := ReachTwoNested();
    var s1 := ReachPassed(2, s0, true, 2, ROOT);
    var s2 := ReachNext(2, s1, true, Cheat(2));
    assert JobsOf(s2, 2) == {};
    s := ReachForcedExit(2, s2, 2);
  }

  /** Redo 1 gives its token to the top, which has used its own, and cheats as well. */
  lemma ReachTwoCheats() returns (s: System)
    ensures Reached(2, s, false) && s.cheatBytes == 1 && s.exited == {}
    ensures 1 in s.procs && s.procs[1] == Counters(1, 1)
    ensures s.jobs == map[10 := ROOT, 11 := ROOT, 14 := ROOT] && s.nested == map[1 := 10]
  {
    var s0 := ReachCheatByte();
    assert 14 !in Hosts(s0);
    var s1 := ReachNext(2, s0, false, Start(ROOT, 14));
    var s2 := ReachPassed(2, s1, false, 1, ROOT);
    s := ReachNext(2, s2, false, Cheat(1));
  }

  /**
   The assertion inside `force_return_tokens` can fail: a redo that cheated reaps
   its only job together with the cheat byte of another redo, and is left with
   one cheat, no token and no job.
   */
  lemma ReturnAssertionFails() returns (s: System)
    ensures Reached(2, s, false) && Enabled(s, ForceExit(1))
    ensures s.procs[1] == Counters(0, 1) && JobsOf(s, 1) == {}
    ensures !ReturnAssertionHolds(s.procs[1], |JobsOf(s, 1)|)
  {
    var s0 := ReachTwoCheats();
    assert 12 !in Hosts(s0);
    var s1 := ReachNext(2, s0, false, Start(1, 12));
    assert 12 !in Hosts(s1);
    var s2 := ReachNext(2, s1, false, ScriptExit(12));
    s := ReachNext(2, s2, false, Reap(1, 12, true));
    assert s.jobs == s0.jobs;
    assert JobsOf(s, 1) == {};
  }
}
