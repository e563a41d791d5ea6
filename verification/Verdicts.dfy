/**
 What each verdict of the dirtiness recursion means (redo_core/src/deps.rs:38-129),
 in terms of walks over 'm' rows: Dirty, MustBuild with exactly its list, and the
 cycle error.  Clean has its own closure in `Dirtiness.CleanIff`.
 */
module Verdicts {
  import opened Common
  import opened FileState
  import opened Dirtiness

  /** A file that passes every test of its own. */
  ghost predicate Passes(w: Snapshot, y: int, limit: int) {
    && y in w.files
    && var f := w.View(y);
    && f.failedRunid.None? && f.changedRunid.Some? && f.changedRunid.value <= limit
    && f.stamp == Some(w.ReadStamp(f.name))
  }

  /** One that must be rebuilt whatever a checksum could tell. */
  ghost predicate Broken(w: Snapshot, y: int, limit: int) {
    && y in w.files
    && var f := w.View(y);
       || f.failedRunid.Some? || f.changedRunid.None? || f.changedRunid.value > limit || f.stamp.None?
       || (f.stamp != Some(w.ReadStamp(f.name)) && f.csum.None?)
  }

  /** A file that was to be absent exists. */
  ghost predicate HasCreated(w: Snapshot, y: int)
    requires y in w.files
  {
    exists k :: 0 <= k < |w.DepsOf(w.View(y))|
      && w.DepsOf(w.View(y))[k].0 == 'c' && w.DepsOf(w.View(y))[k].1.name in w.present
  }

  /**
   Files that pass and have no checksum, each an 'm' row of the one before, down to
   one that is broken or, passing as well, sees a created file.
   */
  ghost predicate DirtyWalk(w: Snapshot, p: seq<int>, limit: int)
    requires w.Valid()
    decreases |p|
  {
    if |p| == 0 then false
    else if |p| == 1 then
      Broken(w, p[0], limit) || (Passes(w, p[0], limit) && w.View(p[0]).csum.None? && HasCreated(w, p[0]))
    else
      && Passes(w, p[0], limit) && w.View(p[0]).csum.None? && MEdge(w, p[0], p[1])
      && DirtyWalk(w, p[1..], w.View(p[0]).MaxDepChange())
  }

  ghost predicate DirtyFrom(w: Snapshot, id: int, limit: int)
    requires w.Valid()
  {
    exists p :: DirtyWalk(w, p, limit) && p[0] == id
  }

  /** Something below gives the alarm: a created file, or a dirty dependency. */
  ghost predicate Alarm(w: Snapshot, y: int)
    requires w.Valid() && y in w.files
  {
    HasCreated(w, y) || exists b :: MEdge(w, y, b) && DirtyFrom(w, b, w.View(y).MaxDepChange())
  }

  lemma DirtyUnfold(w: Snapshot, id: int, limit: int)
    requires w.Valid() && id in w.files
    ensures DirtyFrom(w, id, limit) <==>
      Broken(w, id, limit) || (Passes(w, id, limit) && w.View(id).csum.None? && Alarm(w, id))
  {
    if q :| DirtyWalk(w, q, limit) && q[0] == id {
      if |q| >= 2 {
        assert DirtyFrom(w, q[1..][0], w.View(id).MaxDepChange());
      }
    }
    if Broken(w, id, limit) || (Passes(w, id, limit) && w.View(id).csum.None? && HasCreated(w, id)) {
      assert DirtyWalk(w, [id], limit);
    } else if Passes(w, id, limit) && w.View(id).csum.None? && Alarm(w, id) {
      var b :| MEdge(w, id, b) && DirtyFrom(w, b, w.View(id).MaxDepChange());
      var p :| DirtyWalk(w, p, w.View(id).MaxDepChange()) && p[0] == b;
      assert ([id] + p)[1..] == p;
      assert DirtyWalk(w, [id] + p, limit);
    }
  }

  // ---------------------------------------------------------------------------
  // MustBuild
  // ---------------------------------------------------------------------------

  /** A checksummed file that may or may not have changed: it is to be built first. */
  ghost predicate Undecided(w: Snapshot, y: int, limit: int)
    requires w.Valid()
  {
    && y in w.files
    && var f := w.View(y);
    && f.failedRunid.None? && f.changedRunid.Some? && f.changedRunid.value <= limit && f.stamp.Some? && f.csum.Some?
    && (f.stamp != Some(w.ReadStamp(f.name)) || Alarm(w, y))
  }

  /** Files that pass without alarm, each an 'm' row of the one before, down to an undecided one. */
  ghost predicate FixWalk(w: Snapshot, p: seq<int>, limit: int)
    requires w.Valid()
    decreases |p|
  {
    if |p| == 0 then false
    else if |p| == 1 then Undecided(w, p[0], limit)
    else
      && Passes(w, p[0], limit) && !Alarm(w, p[0]) && MEdge(w, p[0], p[1])
      && FixWalk(w, p[1..], w.View(p[0]).MaxDepChange())
  }

  ghost predicate Fixes(w: Snapshot, id: int, limit: int, g: int)
    requires w.Valid()
  {
    exists p :: FixWalk(w, p, limit) && p[0] == id && p[|p| - 1] == g
  }

  lemma FixUnfold(w: Snapshot, id: int, limit: int, g: int)
    requires w.Valid() && id in w.files
    ensures Fixes(w, id, limit, g) <==>
      || (g == id && Undecided(w, id, limit))
      || (Passes(w, id, limit) && !Alarm(w, id)
          && exists b :: MEdge(w, id, b) && Fixes(w, b, w.View(id).MaxDepChange(), g))
  {
    if q :| FixWalk(w, q, limit) && q[0] == id && q[|q| - 1] == g {
      if |q| >= 2 {
        var p := q[1..];
        assert p[0] == q[1] && p[|p| - 1] == g;
        assert Fixes(w, p[0], w.View(id).MaxDepChange(), g);
      }
    }
    if g == id && Undecided(w, id, limit) {
      assert FixWalk(w, [id], limit);
    }
    if Passes(w, id, limit) && !Alarm(w, id) {
      if b :| MEdge(w, id, b) && Fixes(w, b, w.View(id).MaxDepChange(), g) {
        var p :| FixWalk(w, p, w.View(id).MaxDepChange()) && p[0] == b && p[|p| - 1] == g;
        var q := [id] + p;
        assert q[1..] == p && q[|q| - 1] == g;
        assert FixWalk(w, q, limit);
      }
    }
  }

  // ---------------------------------------------------------------------------
  // The loop over the rows
  // ---------------------------------------------------------------------------

  /**
   The loop, by the verdicts of its rows.  It stops at the first row that is Dirty
   or a cycle; if there is none it collects the lists of all of them.
   */
  lemma {:induction false} LoopMeaning(w: Snapshot, f: File, ds: seq<(char, File)>, path: seq<int>, acc: seq<File>)
    requires w.Valid() && AllViews(w, ds) && !CheckDeps(w, f, ds, path, acc).CyclicDependency?
    ensures (exists k :: 0 <= k < |ds| && CheckDep(w, f, ds[k].0, ds[k].1, path).Dirty?) ==>
      CheckDeps(w, f, ds, path, acc) == if f.csum.None? then Dirty else MustBuild([f])
    ensures !(exists k :: 0 <= k < |ds| && CheckDep(w, f, ds[k].0, ds[k].1, path).Dirty?) ==>
      && (forall k :: 0 <= k < |ds| ==> !CheckDep(w, f, ds[k].0, ds[k].1, path).CyclicDependency?)
      && !CheckDeps(w, f, ds, path, acc).Dirty?
      && (forall g :: Listed(CheckDeps(w, f, ds, path, acc), g) <==>
            g in acc || exists k :: 0 <= k < |ds| && Listed(CheckDep(w, f, ds[k].0, ds[k].1, path), g))
    decreases |ds|
  {
    if ds != [] {
      var rest := ds[1..];
      assert forall k :: 0 < k < |ds| ==> ds[k] == rest[k - 1];
      assert forall k :: 0 <= k < |rest| ==> rest[k] == ds[k + 1];
      match CheckDep(w, f, ds[0].0, ds[0].1, path) {
        case Dirty =>
        case Clean => LoopMeaning(w, f, rest, path, acc);
        case MustBuild(l) => LoopMeaning(w, f, rest, path, acc + l);
      }
    }
  }

  predicate Listed(v: Verdict, g: File) {
    v.MustBuild? && g in v.files
  }

  // ---------------------------------------------------------------------------
  // The verdicts
  // ---------------------------------------------------------------------------

  /** Some row of `y` is Dirty. */
  ghost predicate DirtyRow(w: Snapshot, id: int, path: seq<int>)
    requires w.Valid() && id in w.files
  {
    DepsAllViews(w, w.View(id));
    exists k :: 0 <= k < |w.DepsOf(w.View(id))|
      && CheckDep(w, w.View(id), w.DepsOf(w.View(id))[k].0, w.DepsOf(w.View(id))[k].1, path).Dirty?
  }

  /** A file that passes is alarmed exactly when one of its rows is Dirty, unless a row is a cycle. */
  lemma {:induction false} RowsAlarm(w: Snapshot, id: int, limit: int, path: seq<int>)
    requires w.Valid() && id !in path && Passes(w, id, limit) && !Check(w, w.View(id), limit, path).CyclicDependency?
    ensures Alarm(w, id) <==> DirtyRow(w, id, path + [id])
    decreases w.files.Keys - Elems(path), 0
  {
    var f := w.View(id);
    var ds := w.DepsOf(f);
    CheckIsLoop(w, id, limit, path);
    assert ds[0..] == ds;
    LoopMeaning(w, f, ds, path + [id], []);
    forall k | 0 <= k < |ds| && !CheckDep(w, f, ds[k].0, ds[k].1, path + [id]).CyclicDependency?
      ensures ds[k].0 == 'm' ==> MEdge(w, id, ds[k].1.id) && (DirtyFrom(w, ds[k].1.id, f.MaxDepChange()) <==>
        CheckDep(w, f, ds[k].0, ds[k].1, path + [id]).Dirty?)
    {
      if ds[k].0 == 'm' {
        assert MEdge(w, id, ds[k].1.id);
        VerdictMeaning(w, ds[k].1.id, f.MaxDepChange(), path + [id]);
      }
    }
    if DirtyRow(w, id, path + [id]) {
      var k :| 0 <= k < |ds| && CheckDep(w, f, ds[k].0, ds[k].1, path + [id]).Dirty?;
      assert ds[k].0 == 'c' ==> HasCreated(w, id);
    } else {
      forall b | MEdge(w, id, b)
        ensures !DirtyFrom(w, b, f.MaxDepChange())
      {
        var k :| 0 <= k < |ds| && ds[k].0 == 'm' && ds[k].1.id == b;
      }
    }
  }

  /** Without a Dirty row, the list is what the rows list. */
  lemma {:induction false} RowsList(w: Snapshot, id: int, limit: int, path: seq<int>, g: File)
    requires w.Valid() && id !in path && Passes(w, id, limit) && !Check(w, w.View(id), limit, path).CyclicDependency?
    requires !DirtyRow(w, id, path + [id])
    ensures Listed(Check(w, w.View(id), limit, path), g) <==>
      && g.id in w.files && g == w.View(g.id)
      && exists b :: MEdge(w, id, b) && Fixes(w, b, w.View(id).MaxDepChange(), g.id)
    decreases w.files.Keys - Elems(path), 0
  {
    var f := w.View(id);
    var ds := w.DepsOf(f);
    CheckIsLoop(w, id, limit, path);
    assert ds[0..] == ds;
    LoopMeaning(w, f, ds, path + [id], []);
    forall k | 0 <= k < |ds| && ds[k].0 == 'm'
      ensures MEdge(w, id, ds[k].1.id)
      ensures Listed(CheckDep(w, f, ds[k].0, ds[k].1, path + [id]), g) <==>
        g.id in w.files && g == w.View(g.id) && Fixes(w, ds[k].1.id, f.MaxDepChange(), g.id)
    {
      assert MEdge(w, id, ds[k].1.id);
      VerdictMeaning(w, ds[k].1.id, f.MaxDepChange(), path + [id]);
    }
    if b :| MEdge(w, id, b) && Fixes(w, b, w.View(id).MaxDepChange(), g.id) {
      var k :| 0 <= k < |ds| && ds[k].0 == 'm' && ds[k].1.id == b;
    }
  }

  /**
   Unless the answer is a cycle error: it is Dirty exactly for a dirty walk, and
   the files of a MustBuild list are exactly those that a fix walk ends at.
   */
  lemma {:induction false} VerdictMeaning(w: Snapshot, id: int, limit: int, path: seq<int>)
    requires w.Valid() && id in w.files && !Check(w, w.View(id), limit, path).CyclicDependency?
    ensures Check(w, w.View(id), limit, path).Dirty? <==> DirtyFrom(w, id, limit)
    ensures forall g :: Listed(Check(w, w.View(id), limit, path), g) <==>
      g.id in w.files && g == w.View(g.id) && Fixes(w, id, limit, g.id)
    decreases w.files.Keys - Elems(path), 1
  {
    DirtyUnfold(w, id, limit);
    forall g: File
      ensures Listed(Check(w, w.View(id), limit, path), g) <==>
        g.id in w.files && g == w.View(g.id) && Fixes(w, id, limit, g.id)
    {
      FixUnfold(w, id, limit, g.id);
      if Passes(w, id, limit) {
        RowsAlarm(w, id, limit, path);
        if !DirtyRow(w, id, path + [id]) {
          RowsList(w, id, limit, path, g);
        } else {
          DirtyRowDecides(w, id, limit, path);
        }
      }
    }
    if Passes(w, id, limit) {
      RowsAlarm(w, id, limit, path);
      if DirtyRow(w, id, path + [id]) {
        DirtyRowDecides(w, id, limit, path);
      } else {
        NoDirtyRow(w, id, limit, path);
      }
    }
  }

  lemma DirtyRowDecides(w: Snapshot, id: int, limit: int, path: seq<int>)
    requires w.Valid() && id !in path && Passes(w, id, limit) && !Check(w, w.View(id), limit, path).CyclicDependency?
    requires DirtyRow(w, id, path + [id])
    ensures Check(w, w.View(id), limit, path) == if w.View(id).csum.None? then Dirty else MustBuild([w.View(id)])
  {
    var ds := w.DepsOf(w.View(id));
    CheckIsLoop(w, id, limit, path);
    assert ds[0..] == ds;
    LoopMeaning(w, w.View(id), ds, path + [id], []);
  }

  lemma NoDirtyRow(w: Snapshot, id: int, limit: int, path: seq<int>)
    requires w.Valid() && id !in path && Passes(w, id, limit) && !Check(w, w.View(id), limit, path).CyclicDependency?
    requires !DirtyRow(w, id, path + [id])
    ensures !Check(w, w.View(id), limit, path).Dirty?
  {
    var ds := w.DepsOf(w.View(id));
    CheckIsLoop(w, id, limit, path);
    assert ds[0..] == ds;
    LoopMeaning(w, w.View(id), ds, path + [id], []);
  }

  /** And a MustBuild list is never empty, so there is one exactly for a fix walk. */
  lemma MustBuildIff(w: Snapshot, id: int, limit: int, path: seq<int>)
    requires w.Valid() && id in w.files && !Check(w, w.View(id), limit, path).CyclicDependency?
    ensures Check(w, w.View(id), limit, path).MustBuild? <==> exists g :: g in w.files && Fixes(w, id, limit, g)
  {
    var v := Check(w, w.View(id), limit, path);
    VerdictMeaning(w, id, limit, path);
    if v.MustBuild? {
      if Passes(w, id, limit) {
        DepsAllViews(w, w.View(id));
        MustBuildLoopNonEmpty(w, w.View(id), w.DepsOf(w.View(id)), path + [id], []);
      }
      assert Listed(v, v.files[0]);
    }
    if g :| g in w.files && Fixes(w, id, limit, g) {
      assert Listed(v, w.View(g));
    }
  }

  /** An unfailed file recorded within the limit with a stamp and a checksum is never simply Dirty. */
  lemma ChecksumNeverDirty(w: Snapshot, id: int, limit: int, path: seq<int>)
    requires w.Valid() && id in w.files
    requires
      var f := w.View(id);
      f.failedRunid.None? && f.changedRunid.Some? && f.changedRunid.value <= limit && f.stamp.Some? && f.csum.Some?
    ensures !Check(w, w.View(id), limit, path).Dirty?
  {
    DirtyUnfold(w, id, limit);
    if Check(w, w.View(id), limit, path).Dirty? {
      VerdictMeaning(w, id, limit, path);
    }
  }

  // ---------------------------------------------------------------------------
  // Cycles
  // ---------------------------------------------------------------------------

  /** Everything reachable is in order by itself. */
  ghost predicate EachInOrder(w: Snapshot, id: int)
    requires w.Valid()
  {
    forall x :: Reaches(w, id, x) ==> NodeOk(w, x)
  }

  lemma InOrderStep(w: Snapshot, id: int, limit: int, b: int)
    requires w.Valid() && EachInOrder(w, id) && Passes(w, id, limit) && MEdge(w, id, b)
    ensures EachInOrder(w, b) && Passes(w, b, w.View(id).MaxDepChange())
  {
    forall x | Reaches(w, b, x)
      ensures NodeOk(w, x)
    {
      ReachesStep(w, id, b, x);
    }
    ReachesSelf(w, id);
    ReachesSelf(w, b);
    EdgeOk(w, id, b);
  }

  lemma InOrderNoCreated(w: Snapshot, id: int)
    requires w.Valid() && id in w.files && EachInOrder(w, id)
    ensures !HasCreated(w, id)
  {
    ReachesSelf(w, id);
    assert NodeOk(w, id);
    forall k | 0 <= k < |w.DepsOf(w.View(id))|
      ensures w.DepsOf(w.View(id))[k].0 == 'c' ==> w.DepsOf(w.View(id))[k].1.name !in w.present
    {
      assert RowOk(w, w.View(id), w.DepsOf(w.View(id))[k]);
    }
  }

  lemma {:induction false} InOrderNoWalk(w: Snapshot, p: seq<int>, limit: int)
    requires w.Valid() && p != [] && p[0] in w.files && EachInOrder(w, p[0]) && Passes(w, p[0], limit)
    ensures !DirtyWalk(w, p, limit)
    decreases |p|
  {
    InOrderNoCreated(w, p[0]);
    if |p| >= 2 && MEdge(w, p[0], p[1]) {
      InOrderStep(w, p[0], limit, p[1]);
      InOrderNoWalk(w, p[1..], w.View(p[0]).MaxDepChange());
    }
  }

  lemma InOrderNoAlarm(w: Snapshot, id: int, limit: int)
    requires w.Valid() && EachInOrder(w, id) && Passes(w, id, limit)
    ensures !Alarm(w, id)
  {
    InOrderNoCreated(w, id);
    forall b | MEdge(w, id, b)
      ensures !DirtyFrom(w, b, w.View(id).MaxDepChange())
    {
      InOrderStep(w, id, limit, b);
      forall p | p != [] && p[0] == b
        ensures !DirtyWalk(w, p, w.View(id).MaxDepChange())
      {
        InOrderNoWalk(w, p, w.View(id).MaxDepChange());
      }
    }
  }

  lemma {:induction false} InOrderNoFix(w: Snapshot, p: seq<int>, limit: int)
    requires w.Valid() && p != [] && p[0] in w.files && EachInOrder(w, p[0]) && Passes(w, p[0], limit)
    ensures !FixWalk(w, p, limit)
    decreases |p|
  {
    InOrderNoAlarm(w, p[0], limit);
    if |p| >= 2 && MEdge(w, p[0], p[1]) {
      InOrderStep(w, p[0], limit, p[1]);
      InOrderNoFix(w, p[1..], w.View(p[0]).MaxDepChange());
    }
  }

  /**
   With everything reachable in order by itself, the answer is a cycle error exactly
   when something reachable lies on an 'm' cycle or on the path that led here.
   */
  lemma CycleIff(w: Snapshot, id: int, limit: int, path: seq<int>)
    requires w.Valid() && EachInOrder(w, id) && Passes(w, id, limit)
    ensures Check(w, w.View(id), limit, path).CyclicDependency? <==>
      exists x :: Reaches(w, id, x) && (OnCycle(w, x) || x in path)
  {
    CleanIff(w, id, limit, path);
    var v := Check(w, w.View(id), limit, path);
    if !v.CyclicDependency? {
      VerdictMeaning(w, id, limit, path);
      MustBuildIff(w, id, limit, path);
      forall p | p != [] && p[0] == id
        ensures !DirtyWalk(w, p, limit) && !FixWalk(w, p, limit)
      {
        InOrderNoWalk(w, p, limit);
        InOrderNoFix(w, p, limit);
      }
    } else if !(exists x :: Reaches(w, id, x) && (OnCycle(w, x) || x in path)) {
      CleanComplete(w, id, limit, path);
      assert false;
    }
  }

  // ---------------------------------------------------------------------------
  // One dependency row
  // ---------------------------------------------------------------------------

  /**
   An 'm' row is Clean exactly when the dependency has not changed since the file
   was last changed or last checked, and is itself in order off the path.
   */
  lemma RowCleanIff(w: Snapshot, f: File, d: int, path: seq<int>)
    requires w.Valid() && d in w.files && w.View(d).changedRunid.Some? && w.View(d).changedRunid.value > 0
    ensures CheckDep(w, f, 'm', w.View(d), path).Clean? <==>
      && (Since(w.View(d).changedRunid.value, f.changedRunid) || Since(w.View(d).changedRunid.value, f.checkedRunid))
      && Settled(w, d) && Apart(w, d, path)
  {
    CleanIff(w, d, f.MaxDepChange(), path);
  }

  /** A source, or a file a user has overridden, stands alone: rows left from when it was a target do not count. */
  lemma SourceStandsAlone(w: Snapshot, id: int, limit: int, path: seq<int>)
    requires w.Valid() && id in w.files && (!w.View(id).isGenerated || w.View(id).isOverride)
    ensures Check(w, w.View(id), limit, path).Clean? <==> Passes(w, id, limit) && id !in path
  {
    CleanUnfold(w, id, limit, path);
  }

  predicate Since(changed: int, run: Option<int>) {
    run.Some? && changed <= run.value
  }

  lemma EdgeOk(w: Snapshot, a: int, b: int)
    requires w.Valid() && NodeOk(w, a) && MEdge(w, a, b)
    ensures w.View(b).changedRunid.Some? && w.View(b).changedRunid.value <= w.View(a).MaxDepChange()
  {
    var k :| 0 <= k < |w.DepsOf(w.View(a))| && w.DepsOf(w.View(a))[k].0 == 'm' && w.DepsOf(w.View(a))[k].1.id == b;
    DepsAllViews(w, w.View(a));
    assert RowOk(w, w.View(a), w.DepsOf(w.View(a))[k]);
  }

  /** A target with an 'm' row on //ALWAYS is not Clean until it has been changed or checked in this run. */
  lemma AlwaysNotClean(w: Snapshot, t: int, always: int, limit: int, path: seq<int>)
    requires w.Valid() && t in w.files && MEdge(w, t, always) && w.files[always].name == ALWAYS && w.runid > 0
    requires !Since(w.runid, w.View(t).changedRunid) && !Since(w.runid, w.View(t).checkedRunid)
    ensures !Check(w, w.View(t), limit, path).Clean?
  {
    if Check(w, w.View(t), limit, path).Clean? {
      CleanNodeOk(w, t, limit, path);
      EdgeOk(w, t, always);
    }
  }
}
