/**
 What a successful `redo-ifchange` leaves behind: every target it was asked for
 is in order, and so is everything below it.

 Each requested target is resolved by a Clean verdict, by recording it as it is
 on disk (override or static file), by a cache hit, or by a finished job
 (`Scheduler.RunIfchange`).  A resolution changes one row, the dependency rows of
 that target (`DepsTable.Table.Rebuild`) and one file on disk.  The rows inserted
 on the way are there from the start, without content.  What `isdirty` writes as a
 memo is left out here, because it changes no verdict (`DirtyEngine.QueryAll`).
 */
module UpToDate {
  import opened Common
  import opened FileState
  import opened Dirtiness

  /** No change lies in the future, and `Files.name` is a key. */
  ghost predicate Consistent(w: Snapshot) {
    && w.Valid()
    && (forall id :: id in w.files && w.View(id).changedRunid.Some? ==> w.View(id).changedRunid.value <= w.runid)
    && (forall a, b :: a in w.files && b in w.files && w.files[a].name == w.files[b].name ==> a == b)
  }

  /** The row of a target resolved in this run, whichever way. */
  ghost predicate JustResolved(w: Snapshot, t: int)
    requires t in w.files
  {
    var f := w.View(t);
    && f.failedRunid.None? && f.changedRunid.Some? && f.stamp == Some(w.ReadStamp(f.name))
    && (w.DepsOf(f) != [] ==> f.MaxDepChange() >= w.runid)
  }

  /** Rows that bear out a resolution: absent 'c' files and settled 'm' files not leading back. */
  ghost predicate RowsInOrder(w: Snapshot, t: int)
    requires w.Valid() && t in w.files
  {
    forall k :: 0 <= k < |w.DepsOf(w.View(t))| ==>
      var row := w.DepsOf(w.View(t))[k];
      && (row.0 == 'c' ==> row.1.name !in w.present)
      && (row.0 == 'm' ==> Settled(w, row.1.id) && !Reaches(w, row.1.id, t))
  }

  /**
   A target just resolved is in order exactly when its rows are.  In particular a
   cache hit over a dependency that is out of date leaves the target Dirty.
   */
  lemma ResolvedSettledIff(w: Snapshot, t: int)
    requires Consistent(w) && t in w.files && JustResolved(w, t)
    ensures Settled(w, t) <==> RowsInOrder(w, t)
  {
    var f := w.View(t);
    DepsAllViews(w, f);
    if RowsInOrder(w, t) {
      forall k | 0 <= k < |w.DepsOf(f)|
        ensures RowOk(w, f, w.DepsOf(f)[k])
      {
        var row := w.DepsOf(f)[k];
        if row.0 == 'm' {
          ReachesSelf(w, row.1.id);
        }
      }
      forall x | Reaches(w, t, x)
        ensures NodeOk(w, x) && !OnCycle(w, x)
      {
        ReachedFromRows(w, t, x);
      }
    } else if Settled(w, t) {
      ReachesSelf(w, t);
      forall k | 0 <= k < |w.DepsOf(f)|
        ensures w.DepsOf(f)[k].0 == 'c' ==> w.DepsOf(f)[k].1.name !in w.present
        ensures w.DepsOf(f)[k].0 == 'm' ==> Settled(w, w.DepsOf(f)[k].1.id) && !Reaches(w, w.DepsOf(f)[k].1.id, t)
      {
        var row := w.DepsOf(f)[k];
        assert RowOk(w, f, row);
        if row.0 == 'm' {
          assert MEdge(w, t, row.1.id);
          SettledBelow(w, t, row.1.id);
          if Reaches(w, row.1.id, t) {
            ReachesStep(w, t, row.1.id, t);
          }
        }
      }
    }
  }

  lemma SettledBelow(w: Snapshot, a: int, b: int)
    requires w.Valid() && Settled(w, a) && MEdge(w, a, b)
    ensures Settled(w, b)
  {
    forall x | Reaches(w, b, x)
      ensures NodeOk(w, x) && !OnCycle(w, x)
    {
      ReachesStep(w, a, b, x);
    }
  }

  lemma ReachedFromRows(w: Snapshot, t: int, x: int)
    requires w.Valid() && t in w.files && RowsInOrder(w, t) && Reaches(w, t, x)
    requires NodeOk(w, t)
    ensures NodeOk(w, x) && !OnCycle(w, x)
  {
    var p :| WalkFromTo(w, p, t, x);
    if |p| >= 2 {
      WalkTail(w, p, t, x);
      RowBehind(w, t, p[1]);
    } else if OnCycle(w, t) {
      var q :| WalkFromTo(w, q, t, t) && |q| >= 2;
      WalkTail(w, q, t, t);
      assert false;
    }
  }

  lemma RowBehind(w: Snapshot, t: int, b: int)
    requires w.Valid() && t in w.files && RowsInOrder(w, t) && MEdge(w, t, b)
    ensures Settled(w, b) && !Reaches(w, b, t)
  {
    var k :| 0 <= k < |w.DepsOf(w.View(t))| && w.DepsOf(w.View(t))[k].0 == 'm' && w.DepsOf(w.View(t))[k].1.id == b;
  }

  // ---------------------------------------------------------------------------
  // One resolution
  // ---------------------------------------------------------------------------

  /** `t` has been resolved: its row, its dependency rows and its file are new, all else is as before. */
  ghost predicate Resolves(w: Snapshot, w': Snapshot, t: int) {
    && Consistent(w) && Consistent(w') && w'.runid == w.runid
    && t in w.files && w'.files.Keys == w.files.Keys && w'.files[t].name == w.files[t].name
    && (forall id :: id in w.files && id != t ==> w'.files[id] == w.files[id])
    && (forall id :: id != t ==> (id in w'.deps <==> id in w.deps))
    && (forall id :: id != t && id in w.deps ==> w'.deps[id] == w.deps[id])
    && (forall n :: n != w.files[t].name ==> w'.ReadStamp(n) == w.ReadStamp(n))
    && (forall n :: n != w.files[t].name ==> (n in w'.present <==> n in w.present))
    && JustResolved(w', t)
  }

  /** The same rows, but for what they say about `t`. */
  ghost predicate SameBut(a: seq<(char, File)>, b: seq<(char, File)>, t: int) {
    && |a| == |b|
    && forall k :: 0 <= k < |a| ==>
         a[k].0 == b[k].0 && a[k].1.id == b[k].1.id && a[k].1.name == b[k].1.name && (a[k].1.id != t ==> a[k] == b[k])
  }

  lemma {:induction false} JoinSame(w: Snapshot, w': Snapshot, t: int, es: seq<Edge>)
    requires Resolves(w, w', t)
    ensures SameBut(w.Join(es), w'.Join(es), t)
    decreases |es|
  {
    if es != [] {
      JoinSame(w, w', t, es[1..]);
    }
  }

  lemma RowsSame(w: Snapshot, w': Snapshot, t: int, y: int)
    requires Resolves(w, w', t) && y in w.files && y != t
    ensures w'.View(y) == w.View(y) && SameBut(w.DepsOf(w.View(y)), w'.DepsOf(w'.View(y)), t)
  {
    if y in w.deps {
      JoinSame(w, w', t, w.deps[y]);
    }
  }

  lemma EdgesSame(w: Snapshot, w': Snapshot, t: int, y: int, b: int)
    requires Resolves(w, w', t) && y != t
    ensures MEdge(w, y, b) <==> MEdge(w', y, b)
  {
    if y in w.files {
      RowsSame(w, w', t, y);
    }
  }

  /** Below a file that was in order, the graph is what it was. */
  lemma {:induction false} WalkSame(w: Snapshot, w': Snapshot, t: int, p: seq<int>)
    requires Resolves(w, w', t) && !Settled(w, t) && p != [] && Settled(w, p[0])
    ensures Walk(w, p) <==> Walk(w', p)
    decreases |p|
  {
    if |p| >= 2 {
      EdgesSame(w, w', t, p[0], p[1]);
      var q := p[1..];
      if Walk(w, p) || Walk(w', p) {
        assert MEdge(w, p[0], p[0 + 1]) by {
          if Walk(w', p) { assert MEdge(w', p[0], p[0 + 1]); }
        }
        SettledBelow(w, p[0], p[1]);
        WalkSame(w, w', t, q);
        WalkSplit(w, p);
        WalkSplit(w', p);
      }
    }
  }

  lemma WalkSplit(w: Snapshot, p: seq<int>)
    requires w.Valid() && |p| >= 2
    ensures Walk(w, p) <==> MEdge(w, p[0], p[1]) && Walk(w, p[1..])
  {
    var q := p[1..];
    if Walk(w, p) {
      assert MEdge(w, p[0], p[0 + 1]);
      forall i | 0 <= i < |q| - 1 ensures MEdge(w, q[i], q[i + 1]) {
        assert MEdge(w, p[i + 1], p[(i + 1) + 1]);
      }
    }
    if MEdge(w, p[0], p[1]) && Walk(w, q) {
      forall i | 0 <= i < |p| - 1 ensures MEdge(w, p[i], p[i + 1]) {
        if i > 0 {
          assert MEdge(w, q[i - 1], q[(i - 1) + 1]);
        }
      }
      forall i | 0 <= i < |p| ensures p[i] in w.files {
        if i > 0 { assert q[i - 1] in w.files; }
      }
    }
  }

  lemma ReachSame(w: Snapshot, w': Snapshot, t: int, x: int, y: int)
    requires Resolves(w, w', t) && !Settled(w, t) && Settled(w, x)
    ensures Reaches(w, x, y) <==> Reaches(w', x, y)
    ensures Reaches(w, x, y) ==> Settled(w, y) && y != t
    ensures OnCycle(w', x) ==> OnCycle(w, x)
  {
    if p :| WalkFromTo(w, p, x, y) {
      WalkSame(w, w', t, p);
      assert WalkFromTo(w', p, x, y);
      ReachSettled(w, x, y);
    }
    if p :| WalkFromTo(w', p, x, y) {
      WalkSame(w, w', t, p);
      assert WalkFromTo(w, p, x, y);
    }
    if p :| WalkFromTo(w', p, x, x) && |p| >= 2 {
      WalkSame(w, w', t, p);
      assert WalkFromTo(w, p, x, x);
    }
  }

  lemma ReachSettled(w: Snapshot, x: int, y: int)
    requires w.Valid() && Settled(w, x) && Reaches(w, x, y)
    ensures Settled(w, y)
  {
    var p :| WalkFromTo(w, p, x, y);
    forall z | Reaches(w, y, z)
      ensures NodeOk(w, z) && !OnCycle(w, z)
    {
      var q :| WalkFromTo(w, q, y, z);
      JoinWalks(w, p, q, x, y, z);
    }
  }

  /** Some file below `x` must not exist together with `t`, and now `t` exists. */
  ghost predicate CreatedUnder(w: Snapshot, w': Snapshot, t: int, x: int)
    requires Resolves(w, w', t)
  {
    && w.files[t].name in w'.present
    && exists y :: Reaches(w, x, y) && HasCRow(w, y, t)
  }

  ghost predicate HasCRow(w: Snapshot, y: int, t: int) {
    && y in w.files
    && exists k :: 0 <= k < |w.DepsOf(w.View(y))| && w.DepsOf(w.View(y))[k].0 == 'c' && w.DepsOf(w.View(y))[k].1.id == t
  }

  lemma NodeKept(w: Snapshot, w': Snapshot, t: int, y: int)
    requires Resolves(w, w', t) && NodeOk(w, y) && y != t && !MEdge(w, y, t)
    ensures NodeOk(w', y) <==> !(w.files[t].name in w'.present && HasCRow(w, y, t))
  {
    RowsSame(w, w', t, y);
    DepsAllViews(w, w.View(y));
    DepsAllViews(w', w'.View(y));
    var a, b := w.DepsOf(w.View(y)), w'.DepsOf(w'.View(y));
    forall k | 0 <= k < |a|
      ensures RowOk(w', w'.View(y), b[k]) <==> !(w.files[t].name in w'.present && a[k].0 == 'c' && a[k].1.id == t)
    {
      assert RowOk(w, w.View(y), a[k]);
      if a[k].1.id != t {
        assert a[k].1.name != w.files[t].name;
      }
    }
  }

  /**
   A file in order stays in order while another one is resolved, exactly unless
   the other one now exists and something below declared that it must not.
   */
  lemma OthersKeptIff(w: Snapshot, w': Snapshot, t: int, x: int)
    requires Resolves(w, w', t) && !Settled(w, t) && Settled(w, x)
    ensures Settled(w', x) <==> !CreatedUnder(w, w', t, x)
  {
    forall y | Reaches(w, x, y)
      ensures Reaches(w', x, y) && !OnCycle(w', y)
      ensures NodeOk(w', y) <==> !(w.files[t].name in w'.present && HasCRow(w, y, t))
    {
      ReachSame(w, w', t, x, y);
      ReachSame(w, w', t, y, y);
      ReachesSelf(w, y);
      if MEdge(w, y, t) {
        SettledBelow(w, y, t);
      }
      NodeKept(w, w', t, y);
    }
    forall y | Reaches(w', x, y)
      ensures Reaches(w, x, y)
    {
      ReachSame(w, w', t, x, y);
    }
  }

  /** And it does happen: "x" was made while "t" did not exist and wants it absent, and "t" is built now. */
  const X := 1
  const T := 2

  function Recorded(id: int, name: string, stamp: string, runid: int): File {
    File(id, name, true, false, None, Some(runid), None, Some(stamp), None)
  }

  function BeforeT(): Snapshot {
    Snapshot(map[X := Recorded(X, "x", "x1", 1), T := File(T, "t", false, false, None, None, None, None, None)],
             map[X := [Edge('c', T)]], map["x" := "x1"], {"x"}, 2)
  }

  function AfterT(): Snapshot {
    Snapshot(map[X := Recorded(X, "x", "x1", 1), T := Recorded(T, "t", "t1", 2)],
             map[X := [Edge('c', T)]], map["x" := "x1", "t" := "t1"], {"x", "t"}, 2)
  }

  lemma CreatedRows(w: Snapshot)
    requires w == BeforeT() || w == AfterT()
    ensures w.DepsOf(w.View(X)) == [('c', w.View(T))] && w.DepsOf(w.View(T)) == []
  {
    assert w.Join([]) == [];
    assert w.deps[X][1..] == [];
  }

  lemma BothConsistent()
    ensures Consistent(BeforeT()) && Consistent(AfterT())
  {
  }

  lemma TResolved()
    ensures Resolves(BeforeT(), AfterT(), T)
  {
    BothConsistent();
    CreatedRows(AfterT());
  }

  /** Verdicts of a bare row, and of a row with one 'c' file that is absent. */
  lemma BareIsDirty(w: Snapshot, t: int)
    requires Consistent(w) && t in w.files && w.View(t).changedRunid.None?
    ensures !Settled(w, t)
  {
    NotCleanNotSettled(w, t);
  }

  lemma AbsentIsClean(w: Snapshot, x: int, t: int)
    requires Consistent(w) && x in w.files && t in w.files && JustRecorded(w, x)
    requires w.DepsOf(w.View(x)) == [('c', w.View(t))] && w.View(t).name !in w.present
    ensures Settled(w, x) && Check(w, w.View(x), w.runid, []).Clean?
  {
    CheckIsLoop(w, x, w.runid, []);
    CheckFromStep(w, w.View(x), w.DepsOf(w.View(x)), 0, [] + [x], []);
    NotCleanNotSettled(w, x);
  }

  ghost predicate JustRecorded(w: Snapshot, x: int)
    requires x in w.files
  {
    var f := w.View(x);
    f.failedRunid.None? && f.changedRunid.Some? && f.stamp == Some(w.ReadStamp(f.name))
  }

  lemma CreatedUnderHappens()
    ensures
      var w, w' := BeforeT(), AfterT();
      && Resolves(w, w', T) && !Settled(w, T) && Settled(w, X) && CreatedUnder(w, w', T, X)
      && Check(w, w.View(X), w.runid, []).Clean? && !Check(w', w'.View(X), w'.runid, []).Clean?
  {
    var w, w' := BeforeT(), AfterT();
    TResolved();
    CreatedRows(w);
    BareIsDirty(w, T);
    AbsentIsClean(w, X, T);
    ReachesSelf(w, X);
    assert w.DepsOf(w.View(X))[0] == ('c', w.View(T));
    assert HasCRow(w, X, T);
    OthersKeptIff(w, w', T, X);
    NotCleanNotSettled(w', X);
  }

  // ---------------------------------------------------------------------------
  // A whole run
  // ---------------------------------------------------------------------------

  datatype Event =
    | FoundClean(t: int)
    | Resolution(t: int, after: Snapshot)

  function After(w: Snapshot, e: Event): Snapshot {
    if e.Resolution? then e.after else w
  }

  /**
   What may happen next: a Clean verdict, or a target found not Clean is resolved,
   by a script or by a cache hit over rows of an earlier run.
   */
  ghost predicate Happens(w: Snapshot, e: Event) {
    match e
    case FoundClean(t) => Consistent(w) && t in w.files && Check(w, w.View(t), w.runid, []).Clean?
    case Resolution(t, w') => Resolves(w, w', t) && !Check(w, w.View(t), w.runid, []).Clean?
  }

  /** The resolution creates nothing that was wanted absent, and its rows are in order. */
  ghost predicate Harmless(w: Snapshot, done: set<int>, e: Event)
    requires Happens(w, e)
  {
    e.Resolution? ==>
      && (forall x :: x in done ==> !CreatedUnder(w, e.after, e.t, x))
      && RowsInOrder(e.after, e.t)
  }

  ghost predicate AllSettled(w: Snapshot, done: set<int>)
    requires w.Valid()
  {
    forall x :: x in done ==> Settled(w, x)
  }

  lemma NotCleanNotSettled(w: Snapshot, t: int)
    requires Consistent(w) && t in w.files
    ensures Settled(w, t) <==> Check(w, w.View(t), w.runid, []).Clean?
  {
    CleanIff(w, t, w.runid, []);
    if Settled(w, t) {
      ReachesSelf(w, t);
    }
  }

  /** One resolution: all that was in order stays so and the target joins it, exactly when it is harmless. */
  lemma ResolutionSettlesIff(w: Snapshot, w': Snapshot, t: int, done: set<int>)
    requires Resolves(w, w', t) && !Settled(w, t) && AllSettled(w, done)
    ensures AllSettled(w', done + {t}) <==> (forall x :: x in done ==> !CreatedUnder(w, w', t, x)) && RowsInOrder(w', t)
  {
    forall x | x in done
      ensures Settled(w', x) <==> !CreatedUnder(w, w', t, x)
    {
      OthersKeptIff(w, w', t, x);
    }
    ResolvedSettledIff(w', t);
    assert t in done + {t};
  }

  /**
   The rows of a script that stops at the first redo-ifchange that fails are in
   order: its 'm' files were resolved before it, and its 'c' files are absent.
   */
  lemma AskedRowsInOrder(w: Snapshot, w': Snapshot, t: int, done: set<int>)
    requires Resolves(w, w', t) && !Settled(w, t) && AllSettled(w, done)
    requires forall x :: x in done ==> !CreatedUnder(w, w', t, x)
    requires forall k :: 0 <= k < |w'.DepsOf(w'.View(t))| ==>
      var row := w'.DepsOf(w'.View(t))[k];
      (row.0 == 'c' ==> row.1.name !in w'.present) && (row.0 == 'm' ==> row.1.id in done)
    ensures RowsInOrder(w', t)
  {
    forall x | x in done
      ensures Settled(w', x) && !Reaches(w', x, t)
    {
      OthersKeptIff(w, w', t, x);
      ReachSame(w, w', t, x, t);
    }
  }

  /** The same for an event: it keeps everything in order exactly when it is harmless. */
  lemma EventSettlesIff(w: Snapshot, done: set<int>, e: Event)
    requires Consistent(w) && AllSettled(w, done) && Happens(w, e)
    ensures Consistent(After(w, e))
    ensures AllSettled(After(w, e), done + {e.t}) <==> Harmless(w, done, e)
  {
    NotCleanNotSettled(w, e.t);
    if e.Resolution? {
      ResolutionSettlesIff(w, e.after, e.t, done);
    }
  }

  ghost predicate Run(w: Snapshot, events: seq<Event>)
    decreases |events|
  {
    events == [] || (Happens(w, events[0]) && Run(After(w, events[0]), events[1..]))
  }

  function Final(w: Snapshot, events: seq<Event>): Snapshot
    decreases |events|
  {
    if events == [] then w else Final(After(w, events[0]), events[1..])
  }

  ghost predicate AllHarmless(w: Snapshot, done: set<int>, events: seq<Event>)
    requires Run(w, events)
    decreases |events|
  {
    events == [] ||
    (Harmless(w, done, events[0]) && AllHarmless(After(w, events[0]), done + {events[0].t}, events[1..]))
  }

  /** At every moment of the run all that was resolved so far is in order. */
  ghost predicate AlwaysSettled(w: Snapshot, done: set<int>, events: seq<Event>)
    requires Consistent(w) && Run(w, events)
    decreases |events|
  {
    && AllSettled(w, done)
    && (events == [] ||
        (Consistent(After(w, events[0])) && AlwaysSettled(After(w, events[0]), done + {events[0].t}, events[1..])))
  }

  /** Over whole runs: everything resolved stays in order throughout, exactly when every event is harmless. */
  lemma {:induction false} RunSettlesIff(w: Snapshot, done: set<int>, events: seq<Event>)
    requires Consistent(w) && AllSettled(w, done) && Run(w, events)
    ensures AlwaysSettled(w, done, events) <==> AllHarmless(w, done, events)
    decreases |events|
  {
    if events != [] {
      EventSettlesIff(w, done, events[0]);
      var w', done' := After(w, events[0]), done + {events[0].t};
      if AllSettled(w', done') {
        RunSettlesIff(w', done', events[1..]);
      }
    }
  }

  lemma {:induction false} SettledAtTheEnd(w: Snapshot, done: set<int>, events: seq<Event>)
    requires Consistent(w) && Run(w, events) && AlwaysSettled(w, done, events)
    ensures Consistent(Final(w, events)) && AllSettled(Final(w, events), done)
    ensures forall i :: 0 <= i < |events| ==> Settled(Final(w, events), events[i].t)
    decreases |events|
  {
    if events != [] {
      var done' := done + {events[0].t};
      SettledAtTheEnd(After(w, events[0]), done', events[1..]);
      assert events[0].t in done';
      assert forall i :: 1 <= i < |events| ==> events[i] == events[1..][i - 1];
    }
  }

  /**
   After a run of harmless events in which every requested target was resolved,
   each of them is Clean: asking again rebuilds nothing.
   */
  lemma RequestedAreClean(w: Snapshot, events: seq<Event>, requested: set<int>)
    requires Consistent(w) && Run(w, events) && AllHarmless(w, {}, events)
    requires forall t :: t in requested ==> exists i :: 0 <= i < |events| && events[i].t == t
    ensures Consistent(Final(w, events))
    ensures forall t :: t in requested ==>
      && t in Final(w, events).files && Settled(Final(w, events), t)
      && Check(Final(w, events), Final(w, events).View(t), Final(w, events).runid, []).Clean?
  {
    RunSettlesIff(w, {}, events);
    SettledAtTheEnd(w, {}, events);
    forall t | t in requested
      ensures Settled(Final(w, events), t)
      ensures Check(Final(w, events), Final(w, events).View(t), Final(w, events).runid, []).Clean?
    {
      NotCleanNotSettled(Final(w, events), t);
    }
  }

  // ---------------------------------------------------------------------------
  // Resolved over a dependency that is out of date
  // ---------------------------------------------------------------------------

  /** What does not lead to the resolved target leads where it did. */
  lemma {:induction false} WalkBack(w: Snapshot, w': Snapshot, t: int, p: seq<int>)
    requires Resolves(w, w', t) && p != [] && p[0] in w.files && !Reaches(w', p[0], t)
    ensures Walk(w, p) <==> Walk(w', p)
    decreases |p|
  {
    ReachesSelf(w', p[0]);
    if |p| >= 2 {
      EdgesSame(w, w', t, p[0], p[1]);
      WalkSplit(w, p);
      WalkSplit(w', p);
      if MEdge(w', p[0], p[1]) {
        if Reaches(w', p[1], t) {
          ReachesStep(w', p[0], p[1], t);
        }
        WalkBack(w, w', t, p[1..]);
      }
    }
  }

  lemma CycleBack(w: Snapshot, w': Snapshot, t: int, y: int)
    requires Resolves(w, w', t) && y in w.files && !Reaches(w', y, t) && OnCycle(w, y)
    ensures OnCycle(w', y)
  {
    var q :| WalkFromTo(w, q, y, y) && |q| >= 2;
    WalkBack(w, w', t, q);
    assert WalkFromTo(w', q, y, y);
  }

  lemma NodeWas(w: Snapshot, w': Snapshot, t: int, y: int)
    requires Resolves(w, w', t) && w.files[t].name in w'.present
    requires NodeOk(w', y) && y != t && !MEdge(w', y, t)
    ensures NodeOk(w, y)
  {
    RowsSame(w, w', t, y);
    DepsAllViews(w, w.View(y));
    DepsAllViews(w', w'.View(y));
    var a, b := w.DepsOf(w.View(y)), w'.DepsOf(w'.View(y));
    forall k | 0 <= k < |a|
      ensures RowOk(w, w.View(y), a[k])
    {
      assert RowOk(w', w'.View(y), b[k]);
      if a[k].1.id != t {
        assert a[k].1.name != w.files[t].name;
      }
    }
  }

  /** A file in order after the resolution, and not above the target, was in order before. */
  lemma SettledBefore(w: Snapshot, w': Snapshot, t: int, d: int)
    requires Resolves(w, w', t) && w.files[t].name in w'.present
    requires d in w.files && Settled(w', d) && !Reaches(w', d, t)
    ensures Settled(w, d)
  {
    forall y | Reaches(w, d, y)
      ensures NodeOk(w, y) && !OnCycle(w, y)
    {
      var p :| WalkFromTo(w, p, d, y);
      WalkBack(w, w', t, p);
      assert WalkFromTo(w', p, d, y);
      NotAbove(w', d, y, t);
      ReachesSelf(w', y);
      ReachesSelf(w', t);
      if MEdge(w', y, t) {
        ReachesStep(w', y, t, t);
      }
      NodeWas(w, w', t, y);
      if OnCycle(w, y) {
        CycleBack(w, w', t, y);
      }
    }
  }

  lemma NotAbove(w: Snapshot, d: int, y: int, t: int)
    requires w.Valid() && Reaches(w, d, y) && !Reaches(w, d, t)
    ensures !Reaches(w, y, t)
  {
    if Reaches(w, y, t) {
      var p :| WalkFromTo(w, p, d, y);
      var q :| WalkFromTo(w, q, y, t);
      JoinWalks(w, p, q, d, y, t);
    }
  }

  /** Resolving a target that exists over an 'm' file that is out of date leaves it not Clean. */
  lemma StaleRowStaysDirty(w: Snapshot, w': Snapshot, t: int, d: int)
    requires Resolves(w, w', t) && w.files[t].name in w'.present
    requires MEdge(w', t, d) && !Settled(w, d)
    ensures !Check(w', w'.View(t), w'.runid, []).Clean?
  {
    NotCleanNotSettled(w', t);
    if Settled(w', t) {
      ResolvedSettledIff(w', t);
      RowBehind(w', t, d);
      SettledBefore(w, w', t, d);
    }
  }
}
