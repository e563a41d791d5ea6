/**
 `isdirty` as it runs: a recursion that rewrites rows of the `Files` table while
 it walks (redo_core/src/deps.rs), with the two memo callbacks the program
 installs: run ids saved in the table (`isdirty_default`) or a set in memory
 (redo-ood).  Whatever is written on the way, every answer is the answer of the
 unmemoised recursion over the snapshot taken before the first query.
 */
module DirtyEngine {
  import opened Common
  import opened FileState
  import opened Dirtiness

  function Ids(l: seq<File>): seq<int> {
    seq(|l|, i requires 0 <= i < |l| => l[i].id)
  }

  lemma IdsConcat(a: seq<File>, b: seq<File>)
    ensures Ids(a + b) == Ids(a) + Ids(b)
  {
  }

  /** Same verdict, and for MustBuild the same ids in the same order. */
  predicate SameAnswer(a: Verdict, b: Verdict) {
    match (a, b)
    case (Clean, Clean) => true
    case (Dirty, Dirty) => true
    case (CyclicDependency, CyclicDependency) => true
    case (MustBuild(l), MustBuild(k)) => Ids(l) == Ids(k)
    case _ => false
  }

  /** One iteration of the loop, seen from an answer that agrees up to ids. */
  lemma LoopStep(w: Snapshot, f: File, ds: seq<(char, File)>, i: nat, path: seq<int>, acc: seq<File>,
                 dirty: Verdict, mustBuild: seq<File>)
    requires w.Valid() && AllViews(w, ds) && i < |ds| && Ids(mustBuild) == Ids(acc)
    requires SameAnswer(dirty, CheckDep(w, f, ds[i].0, ds[i].1, path))
    ensures match dirty
      case CyclicDependency => CheckFrom(w, f, ds, i, path, acc).CyclicDependency?
      case Dirty =>
        CheckFrom(w, f, ds, i, path, acc) == if f.csum.None? then Dirty else MustBuild([f])
      case MustBuild(l) =>
        var l0 := CheckDep(w, f, ds[i].0, ds[i].1, path).files;
        && CheckFrom(w, f, ds, i, path, acc) == CheckFrom(w, f, ds, i + 1, path, acc + l0)
        && Ids(mustBuild + l) == Ids(acc + l0)
      case Clean => CheckFrom(w, f, ds, i, path, acc) == CheckFrom(w, f, ds, i + 1, path, acc)
  {
    CheckFromStep(w, f, ds, i, path, acc);
    if dirty.MustBuild? {
      IdsConcat(mustBuild, dirty.files);
      IdsConcat(acc, CheckDep(w, f, ds[i].0, ds[i].1, path).files);
    }
  }

  /** The target was recorded with a file, and the file is gone. */
  ghost predicate Vanished(w: Snapshot, f: File) {
    f.stamp.Some? && f.stamp.value != STAMP_MISSING && w.ReadStamp(f.name) == STAMP_MISSING
  }

  /**
   What a `File` read during the walk may look like, compared with the snapshot:
   unchanged, checked in this run (only if settled), or turned from a vanished
   target into a source.
   */
  ghost predicate Descends(w: Snapshot, inTable: bool, f: File)
    requires w.Valid()
  {
    && f.id in w.files
    && var v := w.View(f.id);
    || f == v
    || (inTable && f == v.(checkedRunid := Some(w.runid)) && Settled(w, f.id))
    || (f == v.(isGenerated := false) && Vanished(w, v))
  }

  /**
   Rows already carrying this run's id in `checked_runid` were rightly checked.
   A snapshot in which no row is checked yet satisfies this trivially.
   */
  ghost predicate CheckedSettled(w: Snapshot)
    requires w.Valid()
  {
    forall id :: id in w.files && w.files[id].IsChecked(w.runid) ==> Settled(w, id)
  }

  /** Rows read now line up with the rows the snapshot gives. */
  ghost predicate RowsDescend(w: Snapshot, inTable: bool, rows: seq<(char, File)>, rows0: seq<(char, File)>)
    requires w.Valid()
  {
    && |rows| == |rows0|
    && forall k :: 0 <= k < |rows| ==>
         rows[k].0 == rows0[k].0 && rows[k].1.id == rows0[k].1.id && Descends(w, inTable, rows[k].1)
         && rows[k].1.name == rows0[k].1.name
  }

  class Engine {
    /** The tables and the disk before the first query. */
    const start: Snapshot
    /** True for `isdirty_default`, false for redo-ood's set of ids. */
    const inTable: bool
    /** The `Files` table now. */
    var files: map<int, File>
    /** The preflight set of `isdirty_default`, or redo-ood's cache. */
    var memo: set<int>

    ghost predicate Valid()
      reads this
    {
      && start.Valid()
      && files.Keys == start.files.Keys
      && (forall id :: id in files ==> files[id].id == id && Descends(start, inTable, FromRow(files[id], start.runid)))
      && (forall id :: id in memo ==> Settled(start, id))
      && (inTable ==> CheckedSettled(start))
    }

    constructor (start: Snapshot, inTable: bool, preflight: set<int>)
      requires start.Valid()
      requires inTable ==> CheckedSettled(start)
      requires forall id :: id in preflight ==> Settled(start, id)
      ensures Valid() && this.start == start && this.inTable == inTable
      ensures files == start.files && memo == preflight
    {
      this.start := start;
      this.inTable := inTable;
      files := start.files;
      memo := preflight;
      new;
      forall id | id in files
        ensures Descends(start, inTable, FromRow(files[id], start.runid))
      {
        assert FromRow(files[id], start.runid) == start.View(id);
      }
    }

    /** `File::save`. */
    method Save(f: File)
      requires Valid() && Descends(start, inTable, f)
      modifies this`files
      ensures Valid() && files == old(files)[f.id := f]
    {
      assert FromRow(f, start.runid) == f by {
        assert f.changedRunid == start.View(f.id).changedRunid && f.name == start.View(f.id).name;
      }
      files := files[f.id := f];
    }

    /** The `is_checked` callback. */
    predicate IsChecked(f: File)
      reads this
    {
      if inTable then f.IsChecked(start.runid) || f.id in memo else f.id in memo
    }

    /** A later query will find the file checked. */
    ghost predicate Marked(id: int)
      reads this
    {
      id in memo || (inTable && id in files && FromRow(files[id], start.runid).IsChecked(start.runid))
    }

    ghost function Marks(): set<int>
      reads this
    {
      set id | id in files.Keys + memo && Marked(id)
    }

    ghost predicate MarksKept(before: set<int>)
      reads this
    {
      before <= Marks()
    }

    /** A marked file is settled, so it is not one that is found gone. */
    lemma MarkedNotGone(f: File)
      requires Valid() && Descends(start, inTable, f) && Marked(f.id)
      ensures !Vanished(start, f)
    {
      if f.id !in memo {
        CheckedIsSettled(FromRow(files[f.id], start.runid));
      }
      ReachesSelf(start, f.id);
    }

    lemma CheckedIsSettled(f: File)
      requires Valid() && Descends(start, inTable, f) && IsChecked(f)
      ensures Settled(start, f.id)
    {
      if f.id !in memo && f == start.View(f.id) {
        assert start.files[f.id].IsChecked(start.runid);
      }
    }

    /** The `set_checked` callback. */
    method SetChecked(f: File) returns (g: File)
      requires Valid() && f.id in start.files && f == start.View(f.id) && Settled(start, f.id)
      modifies this`files, this`memo
      ensures Valid()
      ensures MarksKept(old(Marks())) && Marked(f.id)
      ensures inTable ==> g == f.(checkedRunid := Some(start.runid)) && files == old(files)[f.id := g] && memo == old(memo)
      ensures !inTable ==> g == f && files == old(files) && memo == old(memo) + {f.id}
    {
      if inTable {
        g := f.(checkedRunid := Some(start.runid));
        Save(g);
      } else {
        g := f;
        memo := memo + {f.id};
      }
    }

    /** `File::deps`, read from the table as it is now. */
    method ReadDeps(f: File) returns (rows: seq<(char, File)>)
      requires Valid() && f.id in start.files && f == start.View(f.id)
      ensures RowsDescend(start, inTable, rows, start.DepsOf(f))
    {
      var now := start.(files := files);
      rows := now.DepsOf(f);
      if !(f.isOverride || !f.isGenerated || f.id !in start.deps) {
        JoinDescends(start, inTable, files, start.deps[f.id]);
      }
    }

    /** The tests that come before the stamp is looked at leave it open, and the stamp says that the target is gone. */
    ghost predicate FindsGone(f: File, maxChanged: int, already: seq<int>)
      reads this
    {
      && f.id !in already && f.failedRunid.None? && f.changedRunid.Some? && f.changedRunid.value <= maxChanged
      && !IsChecked(f) && Vanished(start, f)
    }

    method IsDirty(f0: File, maxChanged: int, already: seq<int>) returns (r: Verdict, f: File)
      requires Valid() && Descends(start, inTable, f0) && Chain(start, already, f0.id)
      modifies this`files, this`memo
      ensures Valid()
      ensures MarksKept(old(Marks()))
      ensures r.Clean? ==> Marked(f0.id) || IsChecked(f0)
      ensures old(FindsGone(f0, maxChanged, already)) && f0.isGenerated ==>
        files == old(files)[f0.id := f0.(isGenerated := false, failedRunid := None)] && memo == old(memo)
      ensures SameAnswer(r, Check(start, start.View(f0.id), maxChanged, already))
      decreases start.files.Keys - Elems(already), 0
    {
      f := f0;
      if f.id in already {
        return CyclicDependency, f;
      }
      if f.failedRunid.Some? || f.changedRunid.None? || f.changedRunid.value > maxChanged {
        return Dirty, f;
      }
      if IsChecked(f) {
        CheckedIsSettled(f);
        MemoHit(start, f.id, maxChanged, already);
        return Clean, f;
      }
      if f.stamp.None? {
        return Dirty, f;
      }
      var newstamp := start.ReadStamp(f.name);
      if f.stamp.value != newstamp {
        if newstamp == STAMP_MISSING && f.isGenerated {
          if Marked(f.id) {
            MarkedNotGone(f);
          }
          f := f.(isGenerated := false, failedRunid := None);
          Save(f);
          f := FromRow(files[f.id], start.runid);
        }
        return (if f.csum.Some? then MustBuild([f]) else Dirty), f;
      }

      CheckIsLoop(start, f.id, maxChanged, already);
      CleanIff(start, f.id, maxChanged, already);
      r, f := CheckRows(f, already, Check(start, f, maxChanged, already));
    }

    /** The verdict of one dependency row, read from the table a while ago. */
    method CheckRow(f: File, mode: char, f2: File, already: seq<int>, ghost k: nat) returns (dirty: Verdict)
      requires Valid() && f.id in start.files && f == start.View(f.id) && Chain(start, already, f.id)
      requires AllViews(start, start.DepsOf(f)) && k < |start.DepsOf(f)|
      requires mode == start.DepsOf(f)[k].0 && f2.id == start.DepsOf(f)[k].1.id
      requires f2.name == start.DepsOf(f)[k].1.name && Descends(start, inTable, f2)
      modifies this`files, this`memo
      ensures Valid() && MarksKept(old(Marks()))
      ensures SameAnswer(dirty, CheckDep(start, f, start.DepsOf(f)[k].0, start.DepsOf(f)[k].1, already + [f.id]))
      decreases start.files.Keys - Elems(already + [f.id]), 1
    {
      dirty := Clean;
      if mode == 'c' {
        dirty := if f2.name in start.present then Dirty else Clean;
      } else if mode == 'm' {
        ChainDown(start, already, f.id, k);
        var f2': File;
        dirty, f2' := IsDirty(f2, f.MaxDepChange(), already + [f.id]);
      }
    }

    /** The loop over the dependency rows, and the marking of a clean file. */
    method CheckRows(f0: File, already: seq<int>, ghost goal: Verdict) returns (r: Verdict, f: File)
      requires Valid() && f0.id in start.files && f0 == start.View(f0.id) && Chain(start, already, f0.id)
      requires AllViews(start, start.DepsOf(f0))
      requires goal == CheckFrom(start, f0, start.DepsOf(f0), 0, already + [f0.id], [])
      requires goal.Clean? ==> Settled(start, f0.id)
      modifies this`files, this`memo
      ensures Valid() && MarksKept(old(Marks())) && (r.Clean? ==> Marked(f0.id))
      ensures SameAnswer(r, goal)
      decreases start.files.Keys - Elems(already + [f0.id]), 2
    {
      f := f0;
      var checked := already + [f.id];
      var rows := ReadDeps(f);
      ghost var rows0 := start.DepsOf(f);
      var mustBuild: seq<File> := [];
      ghost var acc: seq<File> := [];
      var i := 0;
      while i < |rows|
        invariant 0 <= i <= |rows| && f == f0
        invariant Valid() && MarksKept(old(Marks()))
        invariant RowsDescend(start, inTable, rows, rows0)
        invariant Ids(mustBuild) == Ids(acc)
        invariant goal == CheckFrom(start, f, rows0, i, checked, acc)
      {
        var dirty := CheckRow(f, rows[i].0, rows[i].1, already, i);
        LoopStep(start, f, rows0, i, checked, acc, dirty, mustBuild);
        match dirty {
          case CyclicDependency =>
            return CyclicDependency, f;
          case Dirty =>
            return (if f.csum.None? then Dirty else MustBuild([f])), f;
          case MustBuild(l) =>
            mustBuild := mustBuild + l;
            acc := acc + CheckDep(start, f, rows0[i].0, rows0[i].1, checked).files;
          case Clean =>
        }
        i := i + 1;
      }
      if mustBuild != [] {
        return MustBuild(mustBuild), f;
      }
      f := SetChecked(f);
      r := Clean;
    }
  }

  lemma {:induction false} JoinDescends(w: Snapshot, inTable: bool, files: map<int, File>, es: seq<Edge>)
    requires w.Valid() && files.Keys == w.files.Keys
    requires forall id :: id in files ==> files[id].id == id && Descends(w, inTable, FromRow(files[id], w.runid))
    ensures RowsDescend(w, inTable, w.(files := files).Join(es), w.Join(es))
  {
    if es != [] {
      JoinDescends(w, inTable, files, es[1..]);
    }
  }

  /** A run of queries over one table, as `redo-ifchange` or `redo-ood` makes them. */
  method QueryAll(w: Snapshot, inTable: bool, preflight: set<int>, queries: seq<(int, int)>)
    returns (answers: seq<Verdict>, ghost marks: set<int>)
    requires w.Valid()
    requires inTable ==> CheckedSettled(w)
    requires forall id :: id in preflight ==> Settled(w, id)
    requires forall k :: 0 <= k < |queries| ==> queries[k].0 in w.files
    ensures |answers| == |queries|
    ensures forall k :: 0 <= k < |queries| ==>
      SameAnswer(answers[k], Check(w, w.View(queries[k].0), queries[k].1, []))
    ensures forall k :: 0 <= k < |queries| && answers[k].Clean? ==> queries[k].0 in marks
  {
    var e := new Engine(w, inTable, preflight);
    answers := [];
    for i := 0 to |queries|
      invariant e.Valid() && e.start == w && fresh(e)
      invariant |answers| == i
      invariant forall k :: 0 <= k < i ==>
        SameAnswer(answers[k], Check(w, w.View(queries[k].0), queries[k].1, []))
      invariant forall k :: 0 <= k < i && answers[k].Clean? ==> queries[k].0 in e.Marks()
    {
      var id := queries[i].0;
      var f := FromRow(e.files[id], w.runid);
      var r, f' := e.IsDirty(f, queries[i].1, []);
      answers := answers + [r];
    }
    marks := e.Marks();
  }
}
