/**
 The dirtiness verdict without memoisation, and what it means.

 A snapshot holds the `Files` and `Deps` tables, the stamps on disk and the
 current run id.  `Check` is the recursion of redo_core/src/deps.rs with the
 memo callbacks switched off.  `CleanIff` characterises its Clean verdict by a
 closure over the dependency graph that mentions no recursion and no path.
 */
module Dirtiness {
  import opened Common
  import opened FileState

  /** One row of `Deps`: the mode character and the id of the source. */
  datatype Edge = Edge(mode: char, source: int)

  datatype Verdict =
    | Clean
    | Dirty
    | MustBuild(files: seq<File>)
    | CyclicDependency

  datatype Snapshot = Snapshot(
    files: map<int, File>,
    deps: map<int, seq<Edge>>,
    stamps: map<string, string>,
    present: set<string>,
    runid: int)
  {
    ghost predicate Valid() {
      forall id :: id in files ==> files[id].id == id
    }

    function View(id: int): File
      requires id in files
    {
      FromRow(files[id], runid)
    }

    /** What `read_stamp` returns for a name. */
    function ReadStamp(name: string): string {
      if name in stamps then stamps[name] else STAMP_MISSING
    }

    /** `select ... from Files join Deps`: rows whose source has no file vanish. */
    function Join(es: seq<Edge>): seq<(char, File)> {
      if es == [] then []
      else if es[0].source in files then [(es[0].mode, View(es[0].source))] + Join(es[1..])
      else Join(es[1..])
    }

    /** `File::deps`: sources and overridden files have none. */
    function DepsOf(f: File): seq<(char, File)> {
      if f.isOverride || !f.isGenerated || f.id !in deps then [] else Join(deps[f.id])
    }
  }

  ghost predicate AllViews(w: Snapshot, ds: seq<(char, File)>) {
    forall k :: 0 <= k < |ds| ==> ds[k].1.id in w.files && ds[k].1 == w.View(ds[k].1.id)
  }

  lemma JoinViews(w: Snapshot, es: seq<Edge>)
    requires w.Valid()
    ensures AllViews(w, w.Join(es))
  {
  }

  lemma DepsAllViews(w: Snapshot, f: File)
    requires w.Valid()
    ensures AllViews(w, w.DepsOf(f))
  {
    if f.id in w.deps {
      JoinViews(w, w.deps[f.id]);
    }
  }

  // ---------------------------------------------------------------------------
  // The recursion
  // ---------------------------------------------------------------------------

  /** `isdirty` with `is_checked` constantly false. */
  ghost function Check(w: Snapshot, f: File, maxChanged: int, path: seq<int>): (r: Verdict)
    requires w.Valid() && f.id in w.files
    decreases w.files.Keys - Elems(path), 0, 0
  {
    if f.id in path then CyclicDependency
    else if f.failedRunid.Some? then Dirty
    else if f.changedRunid.None? then Dirty
    else if f.changedRunid.value > maxChanged then Dirty
    else if f.stamp.None? then Dirty
    else if f.stamp.value != w.ReadStamp(f.name) then
      if f.csum.Some? then MustBuild([f]) else Dirty
    else
      DepsAllViews(w, f);
      ElemsAppend(path, f.id);
      CheckDeps(w, f, w.DepsOf(f), path + [f.id], [])
  }

  /** The verdict contributed by one dependency row. */
  ghost function CheckDep(w: Snapshot, f: File, mode: char, d: File, path: seq<int>): (r: Verdict)
    requires w.Valid() && d.id in w.files
    decreases w.files.Keys - Elems(path), 1, 0
  {
    if mode == 'c' then if d.name in w.present then Dirty else Clean
    else if mode == 'm' then Check(w, d, f.MaxDepChange(), path)
    else Clean
  }

  /** The loop over the remaining dependency rows; `acc` is `must_build` so far. */
  ghost function CheckDeps(w: Snapshot, f: File, ds: seq<(char, File)>, path: seq<int>, acc: seq<File>): (r: Verdict)
    requires w.Valid() && AllViews(w, ds)
    decreases w.files.Keys - Elems(path), 2, |ds|
  {
    if ds == [] then if acc == [] then Clean else MustBuild(acc)
    else
      match CheckDep(w, f, ds[0].0, ds[0].1, path)
      case CyclicDependency => CyclicDependency
      case Dirty => if f.csum.None? then Dirty else MustBuild([f])
      case MustBuild(l) => CheckDeps(w, f, ds[1..], path, acc + l)
      case Clean => CheckDeps(w, f, ds[1..], path, acc)
  }

  // ---------------------------------------------------------------------------
  // The closure
  // ---------------------------------------------------------------------------

  /** `b` is a mode-'m' dependency of `a`, as `deps()` reports it. */
  ghost predicate MEdge(w: Snapshot, a: int, b: int)
    requires w.Valid()
  {
    && a in w.files && b in w.files
    && exists k :: 0 <= k < |w.DepsOf(w.View(a))|
         && w.DepsOf(w.View(a))[k].0 == 'm' && w.DepsOf(w.View(a))[k].1.id == b
  }

  ghost predicate Walk(w: Snapshot, p: seq<int>)
    requires w.Valid()
  {
    && |p| > 0
    && (forall i :: 0 <= i < |p| ==> p[i] in w.files)
    && (forall i :: 0 <= i < |p| - 1 ==> MEdge(w, p[i], p[i + 1]))
  }

  ghost predicate WalkFromTo(w: Snapshot, p: seq<int>, a: int, b: int)
    requires w.Valid()
  {
    Walk(w, p) && p[0] == a && p[|p| - 1] == b
  }

  ghost predicate Reaches(w: Snapshot, a: int, b: int)
    requires w.Valid()
  {
    exists p :: WalkFromTo(w, p, a, b)
  }

  ghost predicate OnCycle(w: Snapshot, a: int)
    requires w.Valid()
  {
    exists p :: WalkFromTo(w, p, a, a) && |p| >= 2
  }

  /** Unfailed, recorded, stamp equal to disk; 'c' deps absent; no 'm' dep too new. */
  ghost predicate NodeOk(w: Snapshot, id: int)
    requires w.Valid()
  {
    && id in w.files
    && var f := w.View(id);
    && f.failedRunid.None? && f.changedRunid.Some?
    && f.stamp == Some(w.ReadStamp(f.name))
    && forall k :: 0 <= k < |w.DepsOf(f)| ==> RowOk(w, f, w.DepsOf(f)[k])
  }

  ghost predicate RowOk(w: Snapshot, f: File, row: (char, File)) {
    && (row.0 == 'c' ==> row.1.name !in w.present)
    && (row.0 == 'm' ==> row.1.changedRunid.Some? && row.1.changedRunid.value <= f.MaxDepChange())
  }

  /** Everything reachable is in order and acyclic: the nodes a memo may hold. */
  ghost predicate Settled(w: Snapshot, id: int)
    requires w.Valid()
  {
    && id in w.files
    && forall x :: Reaches(w, id, x) ==> NodeOk(w, x) && !OnCycle(w, x)
  }

  ghost predicate Apart(w: Snapshot, id: int, path: seq<int>)
    requires w.Valid()
  {
    forall x :: x in path ==> !Reaches(w, id, x)
  }

  // --- walks ---

  lemma ReachesSelf(w: Snapshot, a: int)
    requires w.Valid() && a in w.files
    ensures Reaches(w, a, a)
  {
    assert WalkFromTo(w, [a], a, a);
  }

  lemma ReachesStep(w: Snapshot, a: int, b: int, x: int)
    requires w.Valid() && MEdge(w, a, b) && Reaches(w, b, x)
    ensures Reaches(w, a, x)
    ensures x == a ==> OnCycle(w, a)
  {
    var p :| WalkFromTo(w, p, b, x);
    var q := [a] + p;
    assert forall i :: 0 <= i < |q| - 1 ==> MEdge(w, q[i], q[i + 1]) by {
      assert forall i :: 0 < i < |q| - 1 ==> q[i] == p[i - 1] && q[i + 1] == p[i];
    }
    assert WalkFromTo(w, q, a, x);
  }

  /** A walk of two or more nodes starts with an edge and goes on from there. */
  lemma WalkTail(w: Snapshot, p: seq<int>, a: int, x: int)
    requires w.Valid() && WalkFromTo(w, p, a, x) && |p| >= 2
    ensures MEdge(w, a, p[1]) && Reaches(w, p[1], x)
  {
    assert MEdge(w, p[0], p[0 + 1]);
    assert WalkFromTo(w, p[1..], p[1], x);
  }

  // --- one node's loop ---

  /** The loop after `i` rows. */
  ghost function CheckFrom(w: Snapshot, f: File, ds: seq<(char, File)>, i: nat, path: seq<int>, acc: seq<File>): (r: Verdict)
    requires w.Valid() && AllViews(w, ds) && i <= |ds|
  {
    CheckDeps(w, f, ds[i..], path, acc)
  }

  /** One iteration of the loop. */
  lemma CheckFromStep(w: Snapshot, f: File, ds: seq<(char, File)>, i: nat, path: seq<int>, acc: seq<File>)
    requires w.Valid() && AllViews(w, ds) && i < |ds|
    ensures CheckFrom(w, f, ds, i, path, acc) ==
      match CheckDep(w, f, ds[i].0, ds[i].1, path)
      case CyclicDependency => CyclicDependency
      case Dirty => if f.csum.None? then Dirty else MustBuild([f])
      case MustBuild(l) => CheckFrom(w, f, ds, i + 1, path, acc + l)
      case Clean => CheckFrom(w, f, ds, i + 1, path, acc)
  {
    assert ds[i..][0] == ds[i] && ds[i..][1..] == ds[i + 1..];
  }

  /** A file that passes every test of its own is decided by its rows. */
  lemma CheckIsLoop(w: Snapshot, id: int, maxChanged: int, path: seq<int>)
    requires w.Valid() && id in w.files && id !in path
    requires
      var f := w.View(id);
      && f.failedRunid.None? && f.changedRunid.Some? && f.changedRunid.value <= maxChanged
      && f.stamp == Some(w.ReadStamp(f.name))
    ensures AllViews(w, w.DepsOf(w.View(id)))
    ensures Check(w, w.View(id), maxChanged, path) ==
      CheckFrom(w, w.View(id), w.DepsOf(w.View(id)), 0, path + [id], [])
    ensures w.files.Keys - Elems(path + [id]) < w.files.Keys - Elems(path)
  {
    var f := w.View(id);
    DepsAllViews(w, f);
    ElemsAppend(path, id);
    assert w.DepsOf(f)[0..] == w.DepsOf(f);
    assert id in w.files.Keys - Elems(path);
  }

  /** Going down an 'm' row keeps the path a chain. */
  lemma ChainDown(w: Snapshot, path: seq<int>, id: int, k: nat)
    requires w.Valid() && id in w.files && Chain(w, path, id)
    requires k < |w.DepsOf(w.View(id))| && w.DepsOf(w.View(id))[k].0 == 'm'
    ensures w.DepsOf(w.View(id))[k].1.id in w.files
    ensures Chain(w, path + [id], w.DepsOf(w.View(id))[k].1.id)
  {
    DepsAllViews(w, w.View(id));
    assert MEdge(w, id, w.DepsOf(w.View(id))[k].1.id);
    ChainExtend(w, path, id, w.DepsOf(w.View(id))[k].1.id);
  }

  /** A Clean loop means an empty accumulator and every row Clean. */
  lemma {:induction false} CleanLoop(w: Snapshot, f: File, ds: seq<(char, File)>, path: seq<int>, acc: seq<File>)
    requires w.Valid() && AllViews(w, ds)
    ensures CheckDeps(w, f, ds, path, acc).Clean? <==>
      acc == [] && forall k :: 0 <= k < |ds| ==> CheckDep(w, f, ds[k].0, ds[k].1, path).Clean?
    decreases |ds|
  {
    if ds != [] {
      var v := CheckDep(w, f, ds[0].0, ds[0].1, path);
      match v {
        case Clean =>
          CleanLoop(w, f, ds[1..], path, acc);
          assert forall k :: 0 < k < |ds| ==> ds[k] == ds[1..][k - 1];
          assert forall k :: 0 <= k < |ds| - 1 ==> ds[1..][k] == ds[k + 1];
        case MustBuild(l) =>
          MustBuildNonEmpty(w, f, ds[0].0, ds[0].1, path);
          CleanLoop(w, f, ds[1..], path, acc + l);
        case Dirty =>
        case CyclicDependency =>
      }
    }
  }

  /** A MustBuild verdict never carries an empty list. */
  lemma {:induction false} MustBuildNonEmpty(w: Snapshot, f: File, mode: char, d: File, path: seq<int>)
    requires w.Valid() && d.id in w.files
    ensures CheckDep(w, f, mode, d, path).MustBuild? ==> CheckDep(w, f, mode, d, path).files != []
    decreases w.files.Keys - Elems(path), 1, 0
  {
    if mode == 'm' && d.id !in path {
      DepsAllViews(w, d);
      ElemsAppend(path, d.id);
      MustBuildLoopNonEmpty(w, d, w.DepsOf(d), path + [d.id], []);
    }
  }

  lemma {:induction false} MustBuildLoopNonEmpty(w: Snapshot, f: File, ds: seq<(char, File)>, path: seq<int>, acc: seq<File>)
    requires w.Valid() && AllViews(w, ds)
    ensures CheckDeps(w, f, ds, path, acc).MustBuild? ==> CheckDeps(w, f, ds, path, acc).files != []
    decreases w.files.Keys - Elems(path), 2, |ds|
  {
    if ds != [] {
      match CheckDep(w, f, ds[0].0, ds[0].1, path) {
        case Clean => MustBuildLoopNonEmpty(w, f, ds[1..], path, acc);
        case MustBuild(l) => MustBuildLoopNonEmpty(w, f, ds[1..], path, acc + l);
        case Dirty =>
        case CyclicDependency =>
      }
    }
  }

  /** One unfolding: Clean is a local condition plus Clean dependencies. */
  lemma CleanUnfold(w: Snapshot, id: int, maxChanged: int, path: seq<int>)
    requires w.Valid() && id in w.files
    ensures Check(w, w.View(id), maxChanged, path).Clean? <==>
      var f := w.View(id);
      && id !in path
      && f.failedRunid.None? && f.changedRunid.Some? && f.changedRunid.value <= maxChanged
      && f.stamp == Some(w.ReadStamp(f.name))
      && forall k :: 0 <= k < |w.DepsOf(f)| ==>
           (DepsAllViews(w, f); CheckDep(w, f, w.DepsOf(f)[k].0, w.DepsOf(f)[k].1, path + [id]).Clean?)
  {
    var f := w.View(id);
    DepsAllViews(w, f);
    CleanLoop(w, f, w.DepsOf(f), path + [id], []);
  }

  // --- soundness and completeness ---

  lemma {:induction false} CleanSound(w: Snapshot, id: int, maxChanged: int, path: seq<int>)
    requires w.Valid() && id in w.files
    requires Check(w, w.View(id), maxChanged, path).Clean?
    ensures Settled(w, id) && Apart(w, id, path)
    decreases w.files.Keys - Elems(path)
  {
    var f := w.View(id);
    CleanUnfold(w, id, maxChanged, path);
    ElemsAppend(path, id);
    forall b | MEdge(w, id, b)
      ensures Settled(w, b) && Apart(w, b, path + [id])
    {
      var k :| 0 <= k < |w.DepsOf(f)| && w.DepsOf(f)[k].0 == 'm' && w.DepsOf(f)[k].1.id == b;
      DepsAllViews(w, f);
      CleanSound(w, b, f.MaxDepChange(), path + [id]);
    }
    CleanNodeOk(w, id, maxChanged, path);
    assert !OnCycle(w, id) by {
      if OnCycle(w, id) {
        var p :| WalkFromTo(w, p, id, id) && |p| >= 2;
        WalkTail(w, p, id, id);
        assert false;
      }
    }
    forall x | Reaches(w, id, x)
      ensures NodeOk(w, x) && !OnCycle(w, x) && x !in path
    {
      var p :| WalkFromTo(w, p, id, x);
      if |p| >= 2 {
        WalkTail(w, p, id, x);
        assert x in path ==> x in path + [id];
      }
    }
  }

  lemma CleanNodeOk(w: Snapshot, id: int, maxChanged: int, path: seq<int>)
    requires w.Valid() && id in w.files
    requires Check(w, w.View(id), maxChanged, path).Clean?
    ensures NodeOk(w, id)
  {
    var f := w.View(id);
    CleanUnfold(w, id, maxChanged, path);
    forall k | 0 <= k < |w.DepsOf(f)|
      ensures RowOk(w, f, w.DepsOf(f)[k])
    {
      DepsAllViews(w, f);
      assert CheckDep(w, f, w.DepsOf(f)[k].0, w.DepsOf(f)[k].1, path + [id]).Clean?;
      if w.DepsOf(f)[k].0 == 'm' {
        CleanUnfold(w, w.DepsOf(f)[k].1.id, f.MaxDepChange(), path + [id]);
      }
    }
  }

  lemma {:induction false} CleanComplete(w: Snapshot, id: int, maxChanged: int, path: seq<int>)
    requires w.Valid() && Settled(w, id) && Apart(w, id, path)
    requires w.View(id).changedRunid.Some? && w.View(id).changedRunid.value <= maxChanged
    ensures Check(w, w.View(id), maxChanged, path).Clean?
    decreases w.files.Keys - Elems(path)
  {
    var f := w.View(id);
    ReachesSelf(w, id);
    ElemsAppend(path, id);
    forall k | 0 <= k < |w.DepsOf(f)|
      ensures (DepsAllViews(w, f); CheckDep(w, f, w.DepsOf(f)[k].0, w.DepsOf(f)[k].1, path + [id]).Clean?)
    {
      DepsAllViews(w, f);
      var row := w.DepsOf(f)[k];
      assert RowOk(w, f, row);
      if row.0 == 'm' {
        SettledStep(w, id, row.1.id, path);
        CleanComplete(w, row.1.id, f.MaxDepChange(), path + [id]);
      }
    }
    CleanUnfold(w, id, maxChanged, path);
  }

  lemma SettledStep(w: Snapshot, a: int, b: int, path: seq<int>)
    requires w.Valid() && Settled(w, a) && Apart(w, a, path) && MEdge(w, a, b)
    ensures Settled(w, b) && Apart(w, b, path + [a])
  {
    ReachesSelf(w, a);
    forall x | Reaches(w, b, x)
      ensures NodeOk(w, x) && !OnCycle(w, x) && x !in path + [a]
    {
      ReachesStep(w, a, b, x);
    }
  }

  /**
   The meaning of Clean: the file's change is within `maxChanged`, everything
   reachable over 'm' edges is in order and acyclic, and none of it lies on the
   path that led here.
   */
  lemma CleanIff(w: Snapshot, id: int, maxChanged: int, path: seq<int>)
    requires w.Valid() && id in w.files
    ensures Check(w, w.View(id), maxChanged, path).Clean? <==>
      && w.View(id).changedRunid.Some? && w.View(id).changedRunid.value <= maxChanged
      && Settled(w, id) && Apart(w, id, path)
  {
    if Check(w, w.View(id), maxChanged, path).Clean? {
      CleanSound(w, id, maxChanged, path);
      CleanUnfold(w, id, maxChanged, path);
    } else if && w.View(id).changedRunid.Some? && w.View(id).changedRunid.value <= maxChanged
              && Settled(w, id) && Apart(w, id, path) {
      CleanComplete(w, id, maxChanged, path);
    }
  }

  // ---------------------------------------------------------------------------
  // Paths, cycles and MustBuild lists
  // ---------------------------------------------------------------------------

  /** The recursion's path: consecutive 'm' edges, the last one into `id`. */
  ghost predicate Chain(w: Snapshot, path: seq<int>, id: int)
    requires w.Valid()
  {
    path != [] ==> Walk(w, path + [id])
  }

  lemma ChainExtend(w: Snapshot, path: seq<int>, a: int, b: int)
    requires w.Valid() && Chain(w, path, a) && MEdge(w, a, b)
    ensures Chain(w, path + [a], b)
  {
    var q := path + [a] + [b];
    forall i | 0 <= i < |q| - 1
      ensures MEdge(w, q[i], q[i + 1])
    {
      if i < |path| {
        assert q[i] == (path + [a])[i] && q[i + 1] == (path + [a])[i + 1];
      }
    }
  }

  /** Everything on the path reaches the current node by at least one edge. */
  lemma ChainReaches(w: Snapshot, path: seq<int>, id: int, x: int)
    requires w.Valid() && Chain(w, path, id) && x in path && Reaches(w, id, x)
    ensures OnCycle(w, id)
  {
    var k :| 0 <= k < |path| && path[k] == x;
    var q := (path + [id])[k..];
    assert WalkFromTo(w, q, x, id) && |q| >= 2;
    var p :| WalkFromTo(w, p, id, x);
    JoinWalks(w, p, q, id, x, id);
  }

  lemma JoinWalks(w: Snapshot, p: seq<int>, q: seq<int>, a: int, b: int, c: int)
    requires w.Valid() && WalkFromTo(w, p, a, b) && WalkFromTo(w, q, b, c)
    ensures WalkFromTo(w, p + q[1..], a, c)
  {
    var r := p + q[1..];
    forall i | 0 <= i < |r| - 1
      ensures MEdge(w, r[i], r[i + 1])
    {
      if i >= |p| - 1 {
        assert r[i] == q[i - (|p| - 1)] && r[i + 1] == q[i - (|p| - 1) + 1];
      }
    }
  }

  /** A settled node may be answered Clean whatever path led to it. */
  lemma MemoHit(w: Snapshot, id: int, maxChanged: int, path: seq<int>)
    requires w.Valid() && Settled(w, id) && Chain(w, path, id)
    requires w.View(id).changedRunid.Some? && w.View(id).changedRunid.value <= maxChanged
    ensures Check(w, w.View(id), maxChanged, path).Clean?
  {
    ReachesSelf(w, id);
    forall x | x in path
      ensures !Reaches(w, id, x)
    {
      if Reaches(w, id, x) {
        ChainReaches(w, path, id, x);
        assert false;
      }
    }
    CleanComplete(w, id, maxChanged, path);
  }

  /** A cycle error is never spurious: some reachable node lies on an 'm' cycle. */
  lemma {:induction false} CycleErrorIsReal(w: Snapshot, id: int, maxChanged: int, path: seq<int>)
    requires w.Valid() && id in w.files && Chain(w, path, id)
    requires Check(w, w.View(id), maxChanged, path).CyclicDependency?
    ensures exists x :: Reaches(w, id, x) && OnCycle(w, x)
    decreases w.files.Keys - Elems(path)
  {
    ReachesSelf(w, id);
    if id in path {
      ChainReaches(w, path, id, id);
    } else {
      var f := w.View(id);
      DepsAllViews(w, f);
      ElemsAppend(path, id);
      var k := LoopCycleRow(w, f, w.DepsOf(f), path + [id], []);
      var b := w.DepsOf(f)[k].1.id;
      ChainExtend(w, path, id, b);
      CycleErrorIsReal(w, b, f.MaxDepChange(), path + [id]);
      var x :| Reaches(w, b, x) && OnCycle(w, x);
      ReachesStep(w, id, b, x);
    }
  }

  lemma {:induction false} LoopCycleRow(w: Snapshot, f: File, ds: seq<(char, File)>, path: seq<int>, acc: seq<File>)
    returns (k: int)
    requires w.Valid() && AllViews(w, ds)
    requires CheckDeps(w, f, ds, path, acc).CyclicDependency?
    ensures 0 <= k < |ds| && ds[k].0 == 'm'
    ensures Check(w, ds[k].1, f.MaxDepChange(), path).CyclicDependency?
    decreases |ds|
  {
    match CheckDep(w, f, ds[0].0, ds[0].1, path) {
      case CyclicDependency =>
        k := 0;
      case MustBuild(l) =>
        k := LoopCycleRow(w, f, ds[1..], path, acc + l);
        k := k + 1;
      case Clean =>
        k := LoopCycleRow(w, f, ds[1..], path, acc);
        k := k + 1;
    }
  }

  /** What a MustBuild list holds: reachable checksummed files that are not settled. */
  ghost predicate Suspect(w: Snapshot, id: int, g: File)
    requires w.Valid()
  {
    && g.id in w.files && g == w.View(g.id) && g.csum.Some?
    && Reaches(w, id, g.id) && !Settled(w, g.id)
  }

  ghost predicate AllSuspects(w: Snapshot, id: int, l: seq<File>)
    requires w.Valid()
  {
    forall g :: g in l ==> Suspect(w, id, g)
  }

  lemma {:induction false} MustBuildMeaning(w: Snapshot, id: int, maxChanged: int, path: seq<int>)
    requires w.Valid() && id in w.files && Chain(w, path, id)
    requires Check(w, w.View(id), maxChanged, path).MustBuild?
    ensures Check(w, w.View(id), maxChanged, path).files != []
    ensures AllSuspects(w, id, Check(w, w.View(id), maxChanged, path).files)
    decreases w.files.Keys - Elems(path), 0, 0
  {
    var f := w.View(id);
    ReachesSelf(w, id);
    if Settled(w, id) {
      MemoHit(w, id, maxChanged, path);
      assert false;
    }
    if f.stamp.value == w.ReadStamp(f.name) {
      DepsAllViews(w, f);
      ElemsAppend(path, id);
      MustBuildLoopNonEmpty(w, f, w.DepsOf(f), path + [id], []);
      forall k | 0 <= k < |w.DepsOf(f)| && w.DepsOf(f)[k].0 == 'm'
        ensures MEdge(w, id, w.DepsOf(f)[k].1.id)
      {
      }
      MustBuildLoopMeaning(w, id, w.DepsOf(f), path, []);
    }
  }

  lemma {:induction false} MustBuildLoopMeaning(w: Snapshot, id: int, ds: seq<(char, File)>, path: seq<int>, acc: seq<File>)
    requires w.Valid() && id in w.files && id !in path && Chain(w, path, id) && AllViews(w, ds)
    requires forall k :: 0 <= k < |ds| && ds[k].0 == 'm' ==> MEdge(w, id, ds[k].1.id)
    requires AllSuspects(w, id, acc) && !Settled(w, id)
    requires CheckDeps(w, w.View(id), ds, path + [id], acc).MustBuild?
    ensures AllSuspects(w, id, CheckDeps(w, w.View(id), ds, path + [id], acc).files)
    decreases w.files.Keys - Elems(path + [id]), 1, |ds|
  {
    var f := w.View(id);
    ReachesSelf(w, id);
    if ds != [] {
      match CheckDep(w, f, ds[0].0, ds[0].1, path + [id]) {
        case MustBuild(l) =>
          var b := ds[0].1.id;
          ChainExtend(w, path, id, b);
          MustBuildMeaning(w, b, f.MaxDepChange(), path + [id]);
          forall g | g in l
            ensures Suspect(w, id, g)
          {
            ReachesStep(w, id, b, g.id);
          }
          assert AllSuspects(w, id, acc + l);
          MustBuildLoopMeaning(w, id, ds[1..], path, acc + l);
        case Clean =>
          MustBuildLoopMeaning(w, id, ds[1..], path, acc);
        case Dirty =>
      }
    }
  }

  // ---------------------------------------------------------------------------
  // What the verdict is for
  // ---------------------------------------------------------------------------

  /** The row a successful build leaves: generated, unfailed, changed in this run, stamp as on disk. */
  ghost predicate JustBuilt(w: Snapshot, f: File) {
    && f.isGenerated && !f.isOverride && f.failedRunid.None?
    && f.changedRunid == Some(w.runid) && f.stamp == Some(w.ReadStamp(f.name))
  }

  /**
   No needless rebuild: a target just built, whose recorded dependencies are in
   order and do not lead back to it, is Clean from then on.
   */
  lemma BuiltIsClean(w: Snapshot, t: int, maxChanged: int)
    requires w.Valid() && t in w.files && JustBuilt(w, w.View(t)) && w.runid <= maxChanged
    requires forall k :: 0 <= k < |w.DepsOf(w.View(t))| ==>
      var row := w.DepsOf(w.View(t))[k];
      && (row.0 == 'c' ==> row.1.name !in w.present)
      && (row.0 == 'm' ==>
            && row.1.changedRunid.Some? && row.1.changedRunid.value <= w.runid
            && Settled(w, row.1.id) && !Reaches(w, row.1.id, t))
    ensures Settled(w, t)
    ensures Check(w, w.View(t), maxChanged, []).Clean?
  {
    var f := w.View(t);
    forall b | MEdge(w, t, b)
      ensures Settled(w, b) && !Reaches(w, b, t)
    {
      var k :| 0 <= k < |w.DepsOf(f)| && w.DepsOf(f)[k].0 == 'm' && w.DepsOf(f)[k].1.id == b;
    }
    assert NodeOk(w, t) by {
      forall k | 0 <= k < |w.DepsOf(f)| ensures RowOk(w, f, w.DepsOf(f)[k]) {
      }
    }
    forall x | Reaches(w, t, x)
      ensures NodeOk(w, x) && !OnCycle(w, x)
    {
      var p :| WalkFromTo(w, p, t, x);
      if |p| >= 2 {
        WalkTail(w, p, t, x);
      } else {
        if OnCycle(w, t) {
          var q :| WalkFromTo(w, q, t, t) && |q| >= 2;
          WalkTail(w, q, t, t);
          assert false;
        }
      }
    }
    CleanComplete(w, t, maxChanged, []);
  }

  /**
   No missed rebuild: a file that is out of order (its stamp differs from disk,
   it failed, it was never recorded, one of its 'c' dependencies exists, or one
   of its 'm' dependencies is newer) keeps every file that depends on it,
   however indirectly, from being Clean.
   */
  lemma ChangeSeenByDependents(w: Snapshot, a: int, x: int, maxChanged: int, path: seq<int>)
    requires w.Valid() && a in w.files && Reaches(w, a, x) && !NodeOk(w, x)
    ensures !Check(w, w.View(a), maxChanged, path).Clean?
  {
    CleanIff(w, a, maxChanged, path);
  }
}
