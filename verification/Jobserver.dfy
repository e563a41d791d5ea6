/**
 One process's side of the jobserver (redo_core/src/jobserver.rs, following the
 GNU make manual, section 13.1.1 "POSIX Jobserver Interaction"): the counters
 MYTOKENS and CHEATS and the running jobs.  The two pipes are shared with other
 processes, so a read may or may not find a byte; the model leaves that choice
 open and counts what this process wrote minus what it read.
 */
module Jobserver {
  import opened Common

  datatype Counters = Counters(my: int, cheats: int)

  /** `create_tokens(n)`: a new token first pays back a cheat. */
  function Created(c: Counters, n: nat): Counters {
    var paid := Min(n, Max(0, c.cheats));
    Counters(c.my + n - paid, c.cheats - paid)
  }

  /** `release(n)`: the counters afterwards. */
  function Released(c: Counters, n: nat): Counters {
    Counters(c.my - n, c.cheats - Min(n, Max(0, c.cheats)))
  }

  /** `release(n)`: how many bytes reach the token pipe. */
  function Shared(c: Counters, n: nat): nat {
    n - Min(n, Max(0, c.cheats))
  }

  /** Tokens beyond the one a process keeps. */
  function Surplus(c: Counters): nat {
    if c.my > 1 then c.my - 1 else 0
  }

  /** The counters after a job is reaped, with or without a cheat byte found. */
  function Reaped(c: Counters, gotCheatByte: bool): Counters {
    if gotCheatByte then c
    else var c1 := Created(c, 1); Released(c1, Surplus(c1))
  }

  function ReapedShare(c: Counters, gotCheatByte: bool): nat {
    if gotCheatByte then 0
    else var c1 := Created(c, 1); Shared(c1, Surplus(c1))
  }

  /** `force_return_tokens` up to the surplus tokens: `jobs` are given up. */
  function Surrendered(c: Counters, jobs: nat): Counters {
    var c1 := Created(c, jobs);
    Released(c1, Surplus(c1))
  }

  function SurrenderedShare(c: Counters, jobs: nat): nat {
    var c1 := Created(c, jobs);
    Shared(c1, Surplus(c1))
  }

  /** Whether the assertion inside `destroy_tokens` holds in `force_return_tokens`. */
  predicate ReturnAssertionHolds(c: Counters, jobs: nat) {
    c.cheats <= jobs + Max(0, c.my)
  }

  /** The cheat function's answer at its `k`-th call; it says no when the record ends. */
  predicate Answer(cheat: seq<bool>, k: int) {
    0 <= k < |cheat| && cheat[k]
  }

  datatype Call =
    | CallSetup(maxjobs: int, inherited: Option<bool>)
    | CallEnsure(cheat: seq<bool>, patience: nat)
    | CallStart(flushed: bool)
    | CallReleaseMine
    | CallWaitAll(patience: nat)

  class Process {
    var my: int
    var cheats: int
    var toplevel: int
    var attached: bool  // TOKENFDS is set
    var jobs: nat       // entries of WAITFDS
    /** Bytes written to the token pipe minus bytes read from it, by this process. */
    var tokenOut: int
    /** The same for the cheat pipe. */
    var cheatOut: int

    /**
     What every public call finds and leaves: at most one token in hand.  MYTOKENS
     goes below zero when `release_mine` is called with none.
     */
    ghost predicate Valid()
      reads this
    {
      my <= 1 && cheats >= 0
    }

    function State(): Counters
      reads this
    {
      Counters(my, cheats)
    }

    /** Tokens this process accounts for, here, in jobs and in the pipes. */
    ghost function Balance(): int
      reads this
    {
      my - cheats + jobs + tokenOut - cheatOut
    }

    constructor ()
      ensures Valid() && my == 1 && cheats == 0 && jobs == 0 && !attached && toplevel == 0
      ensures tokenOut == 0 && cheatOut == 0
    {
      my, cheats, toplevel, attached, jobs, tokenOut, cheatOut := 1, 0, 0, false, 0, 0, 0;
    }

    /** Counters, jobs and both pipes are as they were. */
    predicate Unmoved(state: Counters, jobs: nat, tokenOut: int, cheatOut: int)
      reads this
    {
      State() == state && this.jobs == jobs && this.tokenOut == tokenOut && this.cheatOut == cheatOut
    }

    /** No byte reaches the pipe while a cheat is outstanding. */
    predicate PaysFirst(before: int)
      reads this
    {
      tokenOut > before ==> cheats == 0
    }

    predicate HasToken()
      reads this
    {
      my >= 1
    }

    method CreateTokens(n: nat)
      requires cheats >= 0
      modifies this`my, this`cheats
      ensures State() == Created(old(State()), n) && cheats >= 0
    {
      var i := 0;
      while i < n
        invariant 0 <= i <= n && cheats >= 0
        invariant State() == Created(old(State()), i)
      {
        if cheats > 0 {
          cheats := cheats - 1;
        } else {
          my := my + 1;
        }
        i := i + 1;
      }
    }

    /** `asserted` is the outcome of debug_assert!(MYTOKENS >= 0). */
    method DestroyTokens(n: nat) returns (asserted: bool)
      modifies this`my
      ensures my == old(my) - n
      ensures asserted <==> old(my) >= n
    {
      my := my - n;
      asserted := my >= 0;
    }

    method Release(n: nat)
      requires cheats >= 0
      modifies this`my, this`cheats, this`tokenOut
      ensures State() == Released(old(State()), n) && cheats >= 0
      ensures tokenOut == old(tokenOut) + Shared(old(State()), n)
      ensures Balance() == old(Balance()) && PaysFirst(old(tokenOut))
    {
      var toShare := 0;
      var i := 0;
      while i < n
        invariant 0 <= i <= n && cheats >= 0
        invariant State() == Released(old(State()), i) && toShare == Shared(old(State()), i)
        invariant tokenOut == old(tokenOut)
      {
        my := my - 1;
        if cheats > 0 {
          cheats := cheats - 1;
        } else {
          toShare := toShare + 1;
        }
        i := i + 1;
      }
      if toShare > 0 {
        tokenOut := tokenOut + toShare;
      }
    }

    method ReleaseMine()
      requires Valid()
      modifies this`my, this`cheats, this`tokenOut
      ensures Valid() && Balance() == old(Balance()) && my == old(my) - 1 && PaysFirst(old(tokenOut))
      ensures State() == Released(old(State()), 1)
    {
      Release(1);
    }

    method ReleaseExceptMine()
      requires cheats >= 0
      modifies this`my, this`cheats, this`tokenOut
      ensures State() == Released(old(State()), Surplus(old(State()))) && cheats >= 0
      ensures tokenOut == old(tokenOut) + Shared(old(State()), Surplus(old(State())))
      ensures Balance() == old(Balance()) && PaysFirst(old(tokenOut))
      ensures my == Min(old(my), 1)
    {
      if my > 1 {
        Release(my - 1);
      }
    }

    /**
     `setup`: adopt the parent's pipes, or open new ones and stock them.
     `inherited` is the parse of MAKEFLAGS: none, broken, or usable.
     */
    method Setup(maxjobs: int, inherited: Option<bool>) returns (ok: bool)
      requires Valid()
      modifies this`my, this`cheats, this`tokenOut, this`attached, this`toplevel
      ensures Valid() && (old(my) >= 0 ==> my >= 0)
      ensures ok <==> old(attached) || inherited != Some(false)
      ensures attached <==> ok
      ensures old(attached) || !ok || (maxjobs == 0 && inherited == Some(true)) ==>
        State() == old(State()) && tokenOut == old(tokenOut) && toplevel == old(toplevel)
      ensures !old(attached) && ok && !(maxjobs == 0 && inherited == Some(true)) ==>
        toplevel == Max(maxjobs, 1) && Balance() == old(Balance()) + toplevel - 1
    {
      if attached {
        return true;
      }
      var adopt := false;
      if inherited.Some? {
        if !inherited.value {
          return false;
        }
        adopt := maxjobs == 0;
      }
      attached := true;
      if !adopt {
        var realmax := if maxjobs > 0 then maxjobs else 1;
        toplevel := realmax;
        CreateTokens(realmax - 1);
        ReleaseExceptMine();
      }
      ok := true;
    }

    /** One finished job in `wait`: whether the cheat pipe had a byte is up to the others. */
    method Reap() returns (ghost got: bool)
      requires Valid() && jobs > 0
      modifies this`my, this`cheats, this`tokenOut, this`cheatOut, this`jobs
      ensures Valid() && Balance() == old(Balance()) && jobs == old(jobs) - 1 && my >= old(my) && cheats <= old(cheats)
      ensures State() == Reaped(old(State()), got) && PaysFirst(old(tokenOut))
      ensures tokenOut == old(tokenOut) + ReapedShare(old(State()), got)
      ensures cheatOut == old(cheatOut) - (if got then 1 else 0)
    {
      jobs := jobs - 1;
      var found: bool := *;
      got := found;
      if found {
        cheatOut := cheatOut - 1;
      } else {
        CreateTokens(1);
        if HasToken() {
          ReleaseExceptMine();
        }
      }
    }

    /** `wait`: reap whatever jobs select() reported. */
    method Wait()
      requires Valid()
      modifies this`my, this`cheats, this`tokenOut, this`cheatOut, this`jobs
      ensures Valid() && Balance() == old(Balance()) && jobs <= old(jobs) && my >= old(my) && cheats <= old(cheats)
      ensures jobs == old(jobs) ==> Unmoved(old(State()), old(jobs), old(tokenOut), old(cheatOut))
      ensures tokenOut - cheats >= old(tokenOut - cheats) && tokenOut >= old(tokenOut) && PaysFirst(old(tokenOut))
    {
      var ready: nat :| ready <= jobs;
      while ready > 0
        invariant ready <= jobs <= old(jobs)
        invariant Valid() && Balance() == old(Balance()) && my >= old(my) && cheats <= old(cheats)
        invariant jobs == old(jobs) ==> Unmoved(old(State()), old(jobs), old(tokenOut), old(cheatOut))
        invariant tokenOut - cheats >= old(tokenOut - cheats) && tokenOut >= old(tokenOut) && PaysFirst(old(tokenOut))
      {
        var _ := Reap();
        ready := ready - 1;
      }
    }

    /**
     `ensure_token`, observed for at most `patience` rounds; `bounded` is a given
     delay.  It returns with a token, after one bounded round, or at the cut; with
     MYTOKENS below zero also after reading one byte.
     */
    method EnsureToken(bounded: bool, patience: nat) returns (rounds: nat)
      requires Valid()
      modifies this`my, this`cheats, this`tokenOut, this`cheatOut, this`jobs
      ensures Valid() && Balance() == old(Balance()) && jobs <= old(jobs) && my >= old(my) && cheats <= old(cheats)
      ensures rounds <= patience && (rounds == 0 <==> old(my) >= 1 || patience == 0)
      ensures rounds <= (if bounded then 1 else patience)
      ensures my < 1 && rounds < patience && !(bounded && rounds == 1) ==> old(my) < 0 && my > old(my)
      ensures old(my) >= 1 ==> Unmoved(old(State()), old(jobs), old(tokenOut), old(cheatOut))
      ensures old(jobs) == 0 ==> cheats == old(cheats) && cheatOut == old(cheatOut)
      ensures old(jobs) == 0 ==> my == old(my) || (my == old(my) + 1 && tokenOut == old(tokenOut) - 1)
    {
      rounds := 0;
      while my < 1 && rounds < patience
        invariant Valid() && Balance() == old(Balance()) && jobs <= old(jobs) && my >= old(my) && cheats <= old(cheats)
        invariant rounds <= patience && (old(my) >= 1 || bounded ==> rounds == 0) && (rounds == 0 ==> my == old(my))
        invariant old(my) >= 1 ==> Unmoved(old(State()), old(jobs), old(tokenOut), old(cheatOut))
        invariant old(jobs) == 0 ==> cheats == old(cheats) && cheatOut == old(cheatOut)
        invariant old(jobs) == 0 ==> my == old(my) && tokenOut == old(tokenOut)
        decreases patience - rounds
      {
        rounds := rounds + 1;
        Wait();
        if my >= 1 {
          break;
        }
        var got: bool := *;
        if got {
          tokenOut := tokenOut - 1;
          my := my + 1;
          break;
        }
        if bounded {
          break;
        }
      }
    }

    /**
     `ensure_token_or_cheat`, observed for at most `patience` rounds: it returns
     with a token and not before.  `cheat` answers the calls of the cheat function,
     which are made only with no job left; `asked` counts them.  The first one
     answered yes ends it.
     */
    method EnsureTokenOrCheat(cheat: seq<bool>, patience: nat) returns (rounds: nat, asked: nat)
      requires Valid()
      modifies this`my, this`cheats, this`tokenOut, this`cheatOut, this`jobs
      ensures Valid() && Balance() == old(Balance()) && jobs <= old(jobs) && my >= old(my)
      ensures my >= 1 || rounds == patience
      ensures old(my) >= 1 ==> rounds == 0 && Unmoved(old(State()), old(jobs), old(tokenOut), old(cheatOut))
      ensures asked > 0 ==> jobs == 0
      ensures forall k :: 0 <= k < asked - 1 ==> !Answer(cheat, k)
      ensures asked > 0 && Answer(cheat, asked - 1) ==> my == 1 && cheats > 0
      ensures cheats > old(cheats) ==> asked > 0 && Answer(cheat, asked - 1) && cheats == old(cheats) + 1
      ensures old(jobs) == 0 && old(my) == 0 ==> rounds <= asked + 1
    {
      rounds, asked := 0, 0;
      while !HasToken() && rounds < patience
        invariant Valid() && Balance() == old(Balance()) && jobs <= old(jobs) && my >= old(my) && cheats <= old(cheats)
        invariant rounds <= patience
        invariant old(my) >= 1 ==> rounds == 0 && Unmoved(old(State()), old(jobs), old(tokenOut), old(cheatOut))
        invariant asked > 0 ==> jobs == 0
        invariant forall k :: 0 <= k < asked ==> !Answer(cheat, k)
        invariant old(jobs) == 0 && old(my) == 0 ==> rounds <= asked + (if HasToken() then 1 else 0)
        invariant old(jobs) == 0 && old(my) == 0 ==> my == 0 || my == 1
        decreases patience - rounds, !HasToken()
      {
        while jobs > 0 && !HasToken() && rounds < patience
          invariant Valid() && Balance() == old(Balance()) && jobs <= old(jobs) && my >= old(my) && cheats <= old(cheats)
          invariant rounds <= patience && old(my) < 1 && (asked > 0 ==> jobs == 0)
          invariant old(jobs) == 0 && old(my) == 0 ==> rounds <= asked && my == 0
          decreases patience - rounds
        {
          var made := EnsureToken(false, patience - rounds);
          rounds := rounds + made;
        }
        if rounds == patience {
          return;
        }
        var made := EnsureToken(true, patience - rounds);
        rounds := rounds + made;
        if my == 0 {
          asked := asked + 1;
          if Answer(cheat, asked - 1) {
            my, cheats := my + 1, cheats + 1;
            break;
          }
        }
      }
    }

    /** `start`: the token in hand becomes the job's token. */
    method Start(flushed: bool) returns (ok: bool)
      requires Valid()
      modifies this`my, this`jobs
      ensures Valid() && Balance() == old(Balance())
      ensures ok <==> flushed && old(my) >= 1
      ensures ok ==> my == old(my) - 1 && jobs == old(jobs) + 1
      ensures !ok ==> my == old(my) && jobs == old(jobs)
    {
      if !flushed {
        return false;
      }
      if !HasToken() {
        return false;
      }
      assert my == 1;  // debug_assert!(MYTOKENS == 1)
      var asserted := DestroyTokens(1);
      assert asserted;
      jobs := jobs + 1;
      ok := true;
    }

    /**
     `wait_all`: give up the token while jobs run, against a cheat or as a byte; at
     the top level, read back and count both pipes.  `tokens` and `bytes` are what
     the final reads found.
     */
    method WaitAll(patience: nat) returns (done: bool, ok: bool, tokens: nat, bytes: nat, rounds: nat)
      requires Valid()
      modifies this`my, this`cheats, this`tokenOut, this`cheatOut, this`jobs
      ensures Valid() && (old(my) >= 0 ==> my >= 0)
      ensures (done ==> jobs == 0) && (!done ==> rounds == patience)
      ensures old(jobs) == 0 ==> done && rounds == 0
      ensures old(jobs) == 0 && toplevel <= 0 ==> Unmoved(old(State()), 0, old(tokenOut), old(cheatOut))
      ensures old(jobs) > 0 && old(my) == 1 && patience > 0 && (toplevel <= 0 || (done ==> ok)) ==>
        tokenOut - cheats > old(tokenOut - cheats)
      ensures !done || toplevel <= 0 ==> ok && tokens == bytes == 0 && Balance() == old(Balance())
      ensures done && toplevel > 0 ==> (ok <==> tokens - bytes == toplevel) && my <= 0
      ensures done && toplevel > 0 && ok ==> Balance() == old(Balance()) + bytes
      ensures done && toplevel > 0 && !ok ==> Balance() == old(Balance()) - tokens + bytes
    {
      done, ok, tokens, bytes, rounds := true, true, 0, 0, 0;
      while jobs > 0 && rounds < patience
        invariant Valid() && Balance() == old(Balance()) && (old(my) >= 0 ==> my >= 0)
        invariant rounds <= patience && (rounds > 0 ==> old(jobs) > 0)
        invariant rounds == 0 ==> Unmoved(old(State()), old(jobs), old(tokenOut), old(cheatOut))
        invariant rounds > 0 ==> tokenOut - cheats >= old(tokenOut - cheats) + (if old(my) == 1 then 1 else 0)
        decreases patience - rounds
      {
        rounds := rounds + 1;
        // MYTOKENS >= 2 cannot happen here, so the loop releasing the surplus is idle.
        if my >= 1 {
          ReleaseMine();
        }
        Wait();
      }
      if jobs > 0 {
        done := false;
        return;
      }
      if toplevel > 0 {
        if my >= 1 {
          ReleaseMine();
        }
        tokens :| tokens >= 0;
        bytes :| bytes >= 0;
        tokenOut := tokenOut - tokens;
        cheatOut := cheatOut - bytes;
        if tokens - bytes != toplevel {
          ok := false;
          return;
        }
        tokenOut := tokenOut + tokens;
      }
    }

    /**
     `force_return_tokens`: give up running jobs and surplus tokens, and turn
     outstanding cheats into cheat bytes.  The assertion inside `destroy_tokens`
     holds exactly when tokens and jobs cover the cheats; otherwise a release
     build goes on with MYTOKENS below zero.
     */
    method ForceReturnTokens() returns (asserted: bool)
      requires Valid()
      modifies this`my, this`cheats, this`tokenOut, this`cheatOut
      ensures cheats == 0
      ensures asserted <==> ReturnAssertionHolds(old(State()), jobs)
      ensures old(my) >= 0 ==> (asserted <==> my >= 0)
      ensures
        var c := Surrendered(old(State()), jobs);
        && my == c.my - c.cheats
        && cheatOut == old(cheatOut) + c.cheats
        && tokenOut == old(tokenOut) + SurrenderedShare(old(State()), jobs)
    {
      asserted := true;
      CreateTokens(jobs);
      if HasToken() {
        ReleaseExceptMine();
      }
      if cheats > 0 {
        cheatOut := cheatOut + cheats;
        asserted := DestroyTokens(cheats);
        cheats := 0;
      }
    }

    /** Any one of the public calls; `started` says that it started a job. */
    method Make(call: Call) returns (started: bool)
      requires Valid()
      modifies this
      ensures Valid() && CallOk(call, old(my), my, started)
    {
      started := false;
      match call {
        case CallSetup(maxjobs, inherited) =>
          var _ := Setup(maxjobs, inherited);
        case CallEnsure(cheat, patience) =>
          var _, _ := EnsureTokenOrCheat(cheat, patience);
        case CallStart(flushed) =>
          started := Start(flushed);
        case CallReleaseMine =>
          ReleaseMine();
        case CallWaitAll(patience) =>
          var _, _, _, _, _ := WaitAll(patience);
      }
    }
  }

  /** What one public call may do to MYTOKENS; `started` says that it started a job. */
  ghost predicate CallOk(call: Call, before: int, after: int, started: bool) {
    && after <= 1
    && (started ==> before == 1 && after == 0)
    && (call == CallStart(true) && before == 1 ==> started)
    && (before >= 0 && (call.CallReleaseMine? ==> before == 1) ==> after >= 0)
  }

  /** Up to call `k`, every `release_mine` was made with a token in hand. */
  ghost predicate Careful(calls: seq<Call>, held: seq<int>, k: nat)
    requires k <= |calls| && k <= |held|
  {
    forall j :: 0 <= j < k && calls[j].CallReleaseMine? ==> held[j] == 1
  }

  lemma {:induction false} CarefulNonNegative(calls: seq<Call>, held: seq<int>, started: seq<bool>, k: nat)
    requires |held| == |calls| + 1 && |started| == |calls| && held[0] == 1 && k <= |calls|
    requires forall j :: 0 <= j < |calls| ==> CallOk(calls[j], held[j], held[j + 1], started[j])
    requires Careful(calls, held, k)
    ensures held[k] >= 0
    decreases k
  {
    if k > 0 {
      assert Careful(calls, held, k - 1);
      CarefulNonNegative(calls, held, started, k - 1);
      assert CallOk(calls[k - 1], held[k - 1], held[(k - 1) + 1], started[k - 1]);
    }
  }

  /**
   Any sequence of public calls by one process.  `held[k]` is MYTOKENS after k
   calls, never more than one; a job is started exactly from one token in hand.
   MYTOKENS is negative only after a `release_mine` without a token.
   */
  method Session(calls: seq<Call>) returns (held: seq<int>, started: seq<bool>)
    ensures |held| == |calls| + 1 && |started| == |calls| && held[0] == 1
    ensures forall k :: 0 <= k < |calls| ==> CallOk(calls[k], held[k], held[k + 1], started[k])
    ensures forall k :: 0 <= k <= |calls| ==> Careful(calls, held, k) ==> held[k] >= 0
  {
    var p := new Process();
    held, started := [p.my], [];
    for i := 0 to |calls|
      invariant fresh(p) && p.Valid()
      invariant |held| == i + 1 && |started| == i && held[i] == p.my && held[0] == 1
      invariant forall k :: 0 <= k < i ==> CallOk(calls[k], held[k], held[k + 1], started[k])
    {
      var s := p.Make(calls[i]);
      assert CallOk(calls[i], held[i], p.my, s);
      held, started := held + [p.my], started + [s];
    }
    forall k | 0 <= k <= |calls| && Careful(calls, held, k)
      ensures held[k] >= 0
    {
      CarefulNonNegative(calls, held, started, k);
    }
  }
}
