/**
 Job pools built from lock slots (`pool_slot_fid`, `try_acquire_pool` in
 redo_core/src/builder.rs and `Lock` in redo_core/src/state.rs).

 A pool of depth d is d lock ids.  The kernel's record locks keep processes
 apart but always succeed for the process that already owns them, so within one
 process the `locks_held` table has to do that work.
 */
module Pools {
  import opened Common

  const LOG_LOCK_MAGIC: int := 0x1000_0000
  const POOL_LOCK_MAGIC: int := 0x2000_0000
  const POOL_LOCK_STRIDE: int := 0x1_0000

  const U64: nat := 0x1_0000_0000_0000_0000
  const U32: nat := 0x1_0000_0000

  /** FNV-1a over 64 bits; the exclusive or only touches the low byte. */
  function Fnv1a64(h: nat, bytes: seq<bv8>): nat
    decreases |bytes|
  {
    if bytes == [] then h
    else
      var x := h - h % 256 + (((h % 256) as bv8) ^ bytes[0]) as nat;
      Fnv1a64((x * 0x100000001b3) % U64, bytes[1..])
  }

  function Bucket(name: seq<bv8>): (b: nat)
    ensures b < U32
  {
    Fnv1a64(0xcbf29ce484222325, name) % U32
  }

  /** `None` is the "pool depth too large" error. */
  function SlotFid(name: seq<bv8>, slot: nat): Option<int> {
    if slot >= POOL_LOCK_STRIDE then None
    else Some(POOL_LOCK_MAGIC + Bucket(name) * POOL_LOCK_STRIDE + slot)
  }

  /** Slots of different buckets never meet, and slots of one bucket are distinct. */
  lemma SlotsDistinct(a: seq<bv8>, i: nat, b: seq<bv8>, j: nat)
    requires i < POOL_LOCK_STRIDE && j < POOL_LOCK_STRIDE
    ensures SlotFid(a, i) == SlotFid(b, j) <==> Bucket(a) == Bucket(b) && i == j
  {
  }

  /** Slot ids stay clear of target locks and of log locks. */
  lemma SlotsApart(name: seq<bv8>, slot: nat, target: int)
    requires slot < POOL_LOCK_STRIDE && 0 <= target < LOG_LOCK_MAGIC
    ensures SlotFid(name, slot).value != target
    ensures SlotFid(name, slot).value != LOG_LOCK_MAGIC + target
  {
  }

  // ---------------------------------------------------------------------------
  // One process taking a slot
  // ---------------------------------------------------------------------------

  /** The lock file: which process owns which byte. */
  class Kernel {
    var owner: map<int, int>

    constructor ()
      ensures owner == map[]
    {
      owner := map[];
    }
  }

  class Locks {
    const pid: int
    const kernel: Kernel
    var locksHeld: map<int, bool>

    /** The local table says "held" exactly for the bytes this process owns. */
    ghost predicate Valid()
      reads this, kernel
    {
      forall fid :: fid in locksHeld && locksHeld[fid] <==> fid in kernel.owner && kernel.owner[fid] == pid
    }

    constructor (pid: int, kernel: Kernel)
      requires forall fid :: fid in kernel.owner ==> kernel.owner[fid] != pid
      ensures Valid() && this.pid == pid && this.kernel == kernel
    {
      this.pid, this.kernel, locksHeld := pid, kernel, map[];
    }

    /** `Lock::new`. */
    method NewLock(fid: int) returns (ok: bool)
      requires Valid()
      modifies this`locksHeld
      ensures Valid()
      ensures ok <==> !(fid in kernel.owner && kernel.owner[fid] == pid)
      ensures locksHeld == if ok then old(locksHeld)[fid := false] else old(locksHeld)
    {
      if fid in locksHeld && locksHeld[fid] {
        return false;
      }
      locksHeld := locksHeld[fid := false];
      ok := true;
    }

    /** `trylock`: F_SETLK grants a byte that is free or already ours. */
    method TryLock(fid: int) returns (ok: bool)
      requires Valid() && fid in locksHeld
      modifies this`locksHeld, kernel
      ensures Valid()
      ensures ok <==> fid !in old(kernel.owner) || old(kernel.owner)[fid] == pid
      ensures kernel.owner == if ok then old(kernel.owner)[fid := pid] else old(kernel.owner)
      ensures locksHeld == if ok then old(locksHeld)[fid := true] else old(locksHeld)
    {
      ok := fid !in kernel.owner || kernel.owner[fid] == pid;
      if ok {
        kernel.owner := kernel.owner[fid := pid];
        locksHeld := locksHeld[fid := true];
      }
    }

    /** Dropping a lock object that may or may not own its byte. */
    method DropLock(fid: int)
      requires Valid()
      modifies this`locksHeld, kernel
      ensures Valid()
      ensures locksHeld == old(locksHeld) - {fid}
      ensures kernel.owner ==
        if fid in old(locksHeld) && old(locksHeld)[fid] then old(kernel.owner) - {fid} else old(kernel.owner)
    {
      if fid in locksHeld && locksHeld[fid] {
        kernel.owner := kernel.owner - {fid};
      }
      locksHeld := locksHeld - {fid};
    }

    /**
     `try_acquire_pool`: the first slot that nobody owns, this process included.
     With no free slot nothing changes in the lock file.
     */
    method TryAcquirePool(name: seq<bv8>, depth: nat) returns (slot: Option<nat>)
      requires Valid() && 0 < depth <= POOL_LOCK_STRIDE
      modifies this`locksHeld, kernel
      ensures Valid()
      ensures slot.Some? ==>
        && slot.value < depth
        && SlotFid(name, slot.value).value !in old(kernel.owner)
        && kernel.owner == old(kernel.owner)[SlotFid(name, slot.value).value := pid]
        && forall i :: 0 <= i < slot.value ==> SlotFid(name, i).value in old(kernel.owner)
      ensures slot.None? ==>
        && kernel.owner == old(kernel.owner)
        && forall i :: 0 <= i < depth ==> SlotFid(name, i).value in old(kernel.owner)
    {
      var i := 0;
      while i < depth
        invariant 0 <= i <= depth
        invariant Valid() && kernel.owner == old(kernel.owner)
        invariant forall k :: 0 <= k < i ==> SlotFid(name, k).value in old(kernel.owner)
      {
        var fid := SlotFid(name, i).value;
        var made := NewLock(fid);
        if made {
          var ok := TryLock(fid);
          if ok {
            return Some(i);
          }
          DropLock(fid);
        }
        i := i + 1;
      }
      slot := None;
    }
  }

  // ---------------------------------------------------------------------------
  // Every interleaving of processes
  // ---------------------------------------------------------------------------

  /** A running job holding a slot of a pool declared with `depth`. */
  datatype Hold = Hold(pid: int, name: seq<bv8>, depth: nat, slot: nat)

  datatype System = System(owner: map<int, int>, holds: map<int, Hold>)

  datatype Step =
    | Acquire(job: int, hold: Hold)
    | Release(job: int)
    | LockOther(fid: int, pid: int)   // target and log locks
    | UnlockOther(fid: int)
    | Die(pid: int)                   // the kernel drops a dead process's locks

  function FidOf(h: Hold): int {
    SlotFid(h.name, h.slot).GetOr(0)
  }

  predicate Enabled(s: System, step: Step) {
    match step
    case Acquire(job, h) =>
      job !in s.holds && 0 < h.depth <= POOL_LOCK_STRIDE && h.slot < h.depth && FidOf(h) !in s.owner
    case Release(job) => job in s.holds
    case LockOther(fid, pid) => 0 <= fid < POOL_LOCK_MAGIC && (fid in s.owner ==> s.owner[fid] == pid)
    case UnlockOther(fid) => 0 <= fid < POOL_LOCK_MAGIC
    case Die(pid) => true
  }

  function Next(s: System, step: Step): System
    requires Enabled(s, step)
  {
    match step
    case Acquire(job, h) => System(s.owner[FidOf(h) := h.pid], s.holds[job := h])
    case Release(job) => System(s.owner - {FidOf(s.holds[job])}, s.holds - {job})
    case LockOther(fid, pid) => s.(owner := s.owner[fid := pid])
    case UnlockOther(fid) => s.(owner := s.owner - {fid})
    case Die(pid) =>
      System(map fid | fid in s.owner && s.owner[fid] != pid :: s.owner[fid],
             map job | job in s.holds && s.holds[job].pid != pid :: s.holds[job])
  }

  ghost predicate Inv(s: System) {
    && (forall job :: job in s.holds ==>
          var h := s.holds[job];
          0 < h.depth <= POOL_LOCK_STRIDE && h.slot < h.depth && FidOf(h) in s.owner && s.owner[FidOf(h)] == h.pid)
    && (forall a, b :: a in s.holds && b in s.holds && FidOf(s.holds[a]) == FidOf(s.holds[b]) ==> a == b)
  }

  lemma StepInv(s: System, step: Step)
    requires Inv(s) && Enabled(s, step)
    ensures Inv(Next(s, step))
  {
  }

  ghost predicate Run(s: System, steps: seq<Step>, t: System)
    decreases |steps|
  {
    if steps == [] then s == t
    else Enabled(s, steps[0]) && Run(Next(s, steps[0]), steps[1..], t)
  }

  lemma {:induction false} RunInv(s: System, steps: seq<Step>, t: System)
    requires Inv(s) && Run(s, steps, t)
    ensures Inv(t)
    decreases |steps|
  {
    if steps != [] {
      StepInv(s, steps[0]);
      RunInv(Next(s, steps[0]), steps[1..], t);
    }
  }

  /** Jobs holding a slot of bucket `b` under a declared depth of at most `d`. */
  function Holders(s: System, b: nat, d: nat): set<int> {
    set job | job in s.holds && Bucket(s.holds[job].name) == b && s.holds[job].depth <= d
  }

  lemma {:induction false} SlotsBoundHolders(s: System, jobs: set<int>, b: nat, d: nat)
    requires Inv(s) && jobs <= s.holds.Keys
    requires forall job :: job in jobs ==> Bucket(s.holds[job].name) == b && s.holds[job].slot < d
    ensures |jobs| <= d
    decreases d
  {
    if d == 0 {
      if jobs != {} {
        var job := Pick(jobs);
        assert false;
      }
    } else {
      var last := set job | job in jobs && s.holds[job].slot == d - 1;
      SlotsBoundHolders(s, jobs - last, b, d - 1);
      assert |last| <= 1 by {
        if last != {} {
          var x := Pick(last);
          forall y | y in last ensures y == x {
            SlotsDistinct(s.holds[x].name, d - 1, s.holds[y].name, d - 1);
          }
          assert last == {x};
        }
      }
      assert jobs == (jobs - last) + last;
    }
  }

  /**
   The pool bound: in every reachable state at most d jobs hold a slot declared
   with depth d or less, counting together all pools that share a hash bucket.
   */
  lemma PoolBound(steps: seq<Step>, t: System, b: nat, d: nat)
    requires Run(System(map[], map[]), steps, t)
    ensures |Holders(t, b, d)| <= d
  {
    RunInv(System(map[], map[]), steps, t);
    SlotsBoundHolders(t, Holders(t, b, d), b, d);
  }

  /** In particular for one pool name. */
  lemma NamedPoolBound(steps: seq<Step>, t: System, name: seq<bv8>, d: nat)
    requires Run(System(map[], map[]), steps, t)
    ensures |set job | job in t.holds && t.holds[job].name == name && t.holds[job].depth <= d| <= d
  {
    var named := set job | job in t.holds && t.holds[job].name == name && t.holds[job].depth <= d;
    RunInv(System(map[], map[]), steps, t);
    SlotsBoundHolders(t, named, Bucket(name), d);
  }
}
