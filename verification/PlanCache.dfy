/**
 `isdirty_readonly`: the planner's form of the dirtiness walk, which writes
 nothing to the tables but shares three caches between queries (the ids known
 clean, stamps and dependency rows).  Over a frozen snapshot it returns exactly
 what the uncached recursion returns: verdict, list and cycle error.
 */
module PlanCache {
  import opened Common
  import opened FileState
  import opened Dirtiness
  import DirtyEngine

  class Cache {
    const world: Snapshot
    var checked: set<int>
    var stamp: map<int, string>
    var deps: map<int, seq<(char, File)>>

    /** Only settled ids are cached as checked; the other two caches copy the snapshot. */
    ghost predicate Valid()
      reads this
    {
      && world.Valid()
      && (forall id :: id in checked ==> Settled(world, id))
      && (forall id :: id in stamp ==> id in world.files && stamp[id] == world.ReadStamp(world.View(id).name))
      && (forall id :: id in deps ==> id in world.files && deps[id] == world.DepsOf(world.View(id)))
    }

    constructor (world: Snapshot)
      requires world.Valid()
      ensures Valid() && this.world == world
      ensures checked == {} && stamp == map[] && deps == map[]
    {
      this.world := world;
      checked, stamp, deps := {}, map[], map[];
    }

    method ReadStampCached(f: File) returns (s: string)
      requires Valid() && f.id in world.files && f == world.View(f.id)
      modifies this`stamp
      ensures Valid() && s == world.ReadStamp(f.name)
      ensures stamp == old(stamp)[f.id := s]
    {
      if f.id !in stamp {
        stamp := stamp[f.id := world.ReadStamp(f.name)];
      }
      s := stamp[f.id];
    }

    method DepsCached(f: File) returns (rows: seq<(char, File)>)
      requires Valid() && f.id in world.files && f == world.View(f.id)
      modifies this`deps
      ensures Valid() && rows == world.DepsOf(f)
      ensures deps == old(deps)[f.id := rows]
    {
      if f.id in deps {
        return deps[f.id];
      }
      rows := world.DepsOf(f);
      deps := deps[f.id := rows];
    }

    method IsDirtyReadonly(f: File, maxChanged: int, already: seq<int>) returns (r: Verdict)
      requires Valid() && f.id in world.files && f == world.View(f.id) && Chain(world, already, f.id)
      modifies this
      ensures Valid() && old(checked) <= checked && (r.Clean? ==> f.id in checked)
      ensures r == Check(world, f, maxChanged, already)
      decreases world.files.Keys - Elems(already)
    {
      if f.id in already {
        return CyclicDependency;
      }
      var path := already + [f.id];
      if f.failedRunid.Some? || f.changedRunid.None? || f.changedRunid.value > maxChanged {
        return Dirty;
      }
      if f.id in checked {
        MemoHit(world, f.id, maxChanged, already);
        return Clean;
      }
      if f.stamp.None? {
        return Dirty;
      }
      var newstamp := ReadStampCached(f);
      if f.stamp.value != newstamp {
        return if f.csum.Some? then MustBuild([f]) else Dirty;
      }
      var rows := DepsCached(f);
      CheckIsLoop(world, f.id, maxChanged, already);
      var mustBuild: seq<File> := [];
      var i := 0;
      while i < |rows|
        invariant 0 <= i <= |rows|
        invariant Valid() && old(checked) <= checked
        invariant Check(world, f, maxChanged, already) == CheckFrom(world, f, rows, i, path, mustBuild)
      {
        var mode, f2 := rows[i].0, rows[i].1;
        CheckFromStep(world, f, rows, i, path, mustBuild);
        var dirty: Verdict := Clean;
        if mode == 'c' {
          dirty := if f2.name in world.present then Dirty else Clean;
        } else if mode == 'm' {
          ChainDown(world, already, f.id, i);
          dirty := IsDirtyReadonly(f2, f.MaxDepChange(), path);
        }
        match dirty {
          case CyclicDependency =>
            return CyclicDependency;
          case Dirty =>
            return if f.csum.None? then Dirty else MustBuild([f]);
          case MustBuild(l) =>
            mustBuild := mustBuild + l;
          case Clean =>
        }
        i := i + 1;
      }
      if mustBuild != [] {
        return MustBuild(mustBuild);
      }
      CleanIff(world, f.id, maxChanged, already);
      checked := checked + {f.id};
      r := Clean;
    }
  }

  /**
   The planning loop of `redo`: one cache, many queries.  The ids it leaves
   behind, later installed as the preflight set, are all settled.
   */
  method Plan(w: Snapshot, queries: seq<(int, int)>) returns (answers: seq<Verdict>, checkedIds: set<int>)
    requires w.Valid()
    requires forall k :: 0 <= k < |queries| ==> queries[k].0 in w.files
    ensures |answers| == |queries|
    ensures forall k :: 0 <= k < |queries| ==>
      answers[k] == Check(w, w.View(queries[k].0), queries[k].1, [])
    ensures forall id :: id in checkedIds ==> Settled(w, id)
    ensures forall k :: 0 <= k < |queries| && answers[k].Clean? ==> queries[k].0 in checkedIds
  {
    var cache := new Cache(w);
    answers := [];
    for i := 0 to |queries|
      invariant cache.Valid() && cache.world == w && fresh(cache)
      invariant |answers| == i
      invariant forall k :: 0 <= k < i ==>
        answers[k] == Check(w, w.View(queries[k].0), queries[k].1, [])
      invariant forall k :: 0 <= k < i && answers[k].Clean? ==> queries[k].0 in cache.checked
    {
      var r := cache.IsDirtyReadonly(w.View(queries[i].0), queries[i].1, []);
      answers := answers + [r];
    }
    checkedIds := cache.checked;
  }

  /**
   The planner and the build agree: plan some queries, install the ids found
   clean as the preflight set, then ask the writing form the same and any other
   questions.  Both give the unmemoised answers, so they give the same answers.
   */
  method PlanThenBuild(w: Snapshot, planned: seq<(int, int)>, more: seq<(int, int)>)
    returns (plan: seq<Verdict>, build: seq<Verdict>)
    requires w.Valid() && DirtyEngine.CheckedSettled(w)
    requires forall k :: 0 <= k < |planned| ==> planned[k].0 in w.files
    requires forall k :: 0 <= k < |more| ==> more[k].0 in w.files
    ensures |plan| == |planned| && |build| == |planned| + |more|
    ensures forall k :: 0 <= k < |planned| ==> DirtyEngine.SameAnswer(build[k], plan[k])
    ensures forall k :: 0 <= k < |more| ==>
      DirtyEngine.SameAnswer(build[|planned| + k], Check(w, w.View(more[k].0), more[k].1, []))
  {
    var ids;
    plan, ids := Plan(w, planned);
    ghost var marks;
    build, marks := DirtyEngine.QueryAll(w, true, ids, planned + more);
    forall k | 0 <= k < |more|
      ensures DirtyEngine.SameAnswer(build[|planned| + k], Check(w, w.View(more[k].0), more[k].1, []))
    {
      assert (planned + more)[|planned| + k] == more[k];
    }
  }
}
