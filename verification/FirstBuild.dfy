/**
 Crash points of a first build (`build_one`, `schedule_build_one` and
 `persist_new_target_intent` in redo_core/src/builder.rs).

 The target has no record and no file.  Writes to the table are pending until a
 commit; a crash loses what is pending and keeps what is committed and what is
 on disk.  The steps are those the code makes before its final commit, with the
 script free to call redo-ifchange and redo-stamp and even to write the target
 itself.
 */
module FirstBuild {
  import opened Common
  import opened FileState
  import Dirtiness

  datatype Phase =
    | Start       // by_name not yet called
    | Inserted    // a bare row exists, maybe uncommitted
    | Intended    // persist_new_target_intent has committed
    | Scripting   // the script may be running
    | Installed   // tmp renamed into place, or the target removed
    | Saved       // final state saved, not committed

  datatype State = State(
    phase: Phase,
    id: int,
    name: string,
    runid: int,
    committed: Option<File>,
    pending: Option<File>,
    onDisk: Option<string>)  // the stamp of the visible target

  datatype Step =
    | Insert                       // insert or ignore into Files (name)
    | Commit                       // any commit along the way
    | PersistIntent
    | Launch                       // zap_deps1, rule search, commit, start
    | NestedSave                   // redo-ifchange, redo-always: save the row as read, commit
    | RedoStamp(csum: string)
    | ScriptWrites(stamp: string)  // the script writes $1 directly
    | Rename(stamp: string)        // tmp -> target
    | RemoveTarget                 // no output: unlink the target
    | SaveFinal(f: File)           // the finished row, saved but not committed

  function BareRow(id: int, name: string): File {
    File(id, name, false, false, None, None, None, None, None)
  }

  function Init(id: int, name: string, runid: int): State {
    State(Start, id, name, runid, None, None, None)
  }

  /** `redo-stamp` on the current row (bins/src/redo_stamp.rs). */
  function Stamped(f: File, csum: string, runid: int): File {
    var g := f.(isGenerated := true, isOverride := false, failedRunid := None);
    if f.csum != Some(csum) then g.(changedRunid := Some(runid), csum := Some(csum))
    else g.(checkedRunid := Some(runid))
  }

  predicate Enabled(s: State, step: Step) {
    match step
    case Insert => s.phase.Start?
    case Commit => !s.phase.Saved?
    case PersistIntent => s.phase.Inserted? && s.pending.Some? && s.onDisk.None? && !s.pending.value.isGenerated
    case Launch => s.phase.Intended?
    case NestedSave => s.phase.Scripting? && s.pending.Some?
    case RedoStamp(csum) => s.phase.Scripting? && s.pending.Some?
    case ScriptWrites(stamp) => s.phase.Scripting?
    case Rename(stamp) => s.phase.Scripting?
    case RemoveTarget => s.phase.Scripting?
    case SaveFinal(f) => s.phase.Installed?
  }

  function Next(s: State, step: Step): State
    requires Enabled(s, step)
  {
    match step
    case Insert => s.(phase := Inserted, pending := Some(BareRow(s.id, s.name)))
    case Commit => s.(committed := s.pending)
    case PersistIntent =>
      var row := Some(s.pending.value.(isGenerated := true, isOverride := false));
      s.(phase := Intended, pending := row, committed := row)
    case Launch => s.(phase := Scripting, committed := s.pending)
    case NestedSave => s.(committed := s.pending)
    case RedoStamp(csum) =>
      var row := Some(Stamped(s.pending.value, csum, s.runid));
      s.(pending := row, committed := row)
    case ScriptWrites(stamp) => s.(onDisk := Some(stamp))
    case Rename(stamp) => s.(phase := Installed, onDisk := Some(stamp))
    case RemoveTarget => s.(phase := Installed, onDisk := None)
    case SaveFinal(f) => s.(phase := Saved, pending := Some(f))
  }

  ghost predicate Run(s: State, steps: seq<Step>, t: State)
    decreases |steps|
  {
    if steps == [] then s == t
    else Enabled(s, steps[0]) && Run(Next(s, steps[0]), steps[1..], t)
  }

  /** A row that can only belong to an unfinished first build. */
  predicate Unfinished(f: File, id: int, name: string) {
    f.id == id && f.name == name && f.stamp.None? && !f.isOverride && f.failedRunid.None?
  }

  ghost predicate Inv(s: State) {
    && (s.committed.Some? ==> Unfinished(s.committed.value, s.id, s.name))
    && (s.pending.Some? && !s.phase.Saved? ==> Unfinished(s.pending.value, s.id, s.name))
    && (s.phase.Start? || s.phase.Inserted? ==> s.onDisk.None?)
    && (!s.phase.Start? && !s.phase.Inserted? ==>
          && s.committed.Some? && s.committed.value.isGenerated
          && s.pending.Some? && (!s.phase.Saved? ==> s.pending.value.isGenerated))
  }

  lemma {:induction false} RunInv(s: State, steps: seq<Step>, t: State)
    requires Inv(s) && Run(s, steps, t)
    ensures Inv(t) && t.id == s.id && t.name == s.name
    decreases |steps|
  {
    if steps != [] {
      RunInv(Next(s, steps[0]), steps[1..], t);
    }
  }

  // ---------------------------------------------------------------------------
  // The next run
  // ---------------------------------------------------------------------------

  datatype Decision = TreatAsOverride | TreatAsStatic | RunRule

  /** The tests at the head of `build_one`, on the row and the stamp now on disk. */
  function Decide(f: File, newstamp: string, detectOverride: (string, string) -> bool): Decision {
    if f.isGenerated && newstamp != STAMP_MISSING
       && (f.isOverride || (f.stamp.Some? && detectOverride(f.stamp.value, newstamp)))
    then TreatAsOverride
    else if newstamp != STAMP_MISSING && !f.isGenerated then TreatAsStatic
    else RunRule
  }

  /** The row the next run reads: the committed one, or a bare one it inserts. */
  function RowAfterCrash(s: State): File {
    s.committed.GetOr(BareRow(s.id, s.name))
  }

  /**
   A crash at any point before the final commit: if the output is visible, the
   table knows that it is generated; and the next run, whatever its run id and
   whatever else the tables hold, finds the target Dirty and runs the rule.
   */
  lemma CrashSafe(id: int, name: string, runid: int, steps: seq<Step>, s: State,
                  w: Dirtiness.Snapshot, maxChanged: int, detectOverride: (string, string) -> bool)
    requires Run(Init(id, name, runid), steps, s)
    requires w.Valid() && id in w.files && w.files[id] == RowAfterCrash(s)
    requires w.ReadStamp(name) == s.onDisk.GetOr(STAMP_MISSING)
    ensures s.onDisk.Some? ==> s.committed.Some? && s.committed.value.isGenerated
    ensures Dirtiness.Check(w, w.View(id), maxChanged, []).Dirty?
    ensures Decide(w.View(id), w.ReadStamp(name), detectOverride) == RunRule
  {
    RunInv(Init(id, name, runid), steps, s);
  }

  // ---------------------------------------------------------------------------
  // Why the intent is committed first
  // ---------------------------------------------------------------------------

  /** The same protocol with `persist_new_target_intent` taken out. */
  predicate EnabledBare(s: State, step: Step) {
    match step
    case PersistIntent => false
    case Launch => s.phase.Inserted?
    case _ => Enabled(s, step)
  }

  function NextBare(s: State, step: Step): State
    requires EnabledBare(s, step)
  {
    match step
    case Launch => s.(phase := Scripting, committed := s.pending)
    case _ => Next(s, step)
  }

  ghost predicate RunBare(s: State, steps: seq<Step>, t: State)
    decreases |steps|
  {
    if steps == [] then s == t
    else EnabledBare(s, steps[0]) && RunBare(NextBare(s, steps[0]), steps[1..], t)
  }

  ghost predicate CallsStamp(steps: seq<Step>) {
    exists i :: 0 <= i < |steps| && steps[i].RedoStamp?
  }

  /** Nothing but redo-stamp ever marks the row as generated. */
  ghost predicate InvBare(s: State, stamped: bool) {
    && !s.phase.Intended?
    && (s.committed.Some? ==> Unfinished(s.committed.value, s.id, s.name))
    && (s.pending.Some? && !s.phase.Saved? ==>
          Unfinished(s.pending.value, s.id, s.name) && s.pending.value.isGenerated == stamped)
    && (s.phase.Start? || s.phase.Inserted? ==>
          s.onDisk.None? && !stamped && (s.committed.Some? ==> !s.committed.value.isGenerated))
    && (!s.phase.Start? ==> s.pending.Some?)
    && (!s.phase.Start? && !s.phase.Inserted? ==> s.committed.Some? && s.committed.value.isGenerated == stamped)
  }

  lemma {:induction false} RunBareInv(s: State, steps: seq<Step>, t: State, stamped: bool)
    requires InvBare(s, stamped) && RunBare(s, steps, t)
    ensures InvBare(t, stamped || CallsStamp(steps)) && t.id == s.id && t.name == s.name
    decreases |steps|
  {
    if steps != [] {
      var now := stamped || steps[0].RedoStamp?;
      RunBareInv(NextBare(s, steps[0]), steps[1..], t, now);
      if CallsStamp(steps[1..]) {
        var i :| 0 <= i < |steps[1..]| && steps[1..][i].RedoStamp?;
        assert steps[i + 1].RedoStamp?;
      }
      if CallsStamp(steps) {
        var i :| 0 <= i < |steps| && steps[i].RedoStamp?;
        assert i > 0 ==> steps[1..][i - 1].RedoStamp?;
      }
    }
  }

  /**
   Without the committed intent: after a crash with the output visible, the next
   run takes it for a source file, never to be rebuilt, unless the script called
   redo-stamp.  So scripts that do not are exactly those the intent protects.
   */
  lemma WithoutIntentIff(id: int, name: string, runid: int, steps: seq<Step>, s: State,
                         detectOverride: (string, string) -> bool)
    requires RunBare(Init(id, name, runid), steps, s)
    requires s.onDisk.Some? && s.onDisk.value != STAMP_MISSING
    ensures Decide(RowAfterCrash(s), s.onDisk.value, detectOverride) == TreatAsStatic <==> !CallsStamp(steps)
    ensures Decide(RowAfterCrash(s), s.onDisk.value, detectOverride) == RunRule <==> CallsStamp(steps)
  {
    RunBareInv(Init(id, name, runid), steps, s, false);
  }

  /** Such a run exists: insert, start, rename, crash. */
  lemma WithoutIntent(id: int, name: string, runid: int, stamp: string, detectOverride: (string, string) -> bool)
    returns (s: State)
    requires stamp != STAMP_MISSING
    ensures RunBare(Init(id, name, runid), [Insert, Launch, Rename(stamp)], s)
    ensures s.onDisk == Some(stamp) && Decide(RowAfterCrash(s), stamp, detectOverride) == TreatAsStatic
  {
    var s0 := Init(id, name, runid);
    var s1 := NextBare(s0, Insert);
    var s2 := NextBare(s1, Launch);
    s := NextBare(s2, Rename(stamp));
    var steps := [Insert, Launch, Rename(stamp)];
    assert steps[1..][1..][1..] == [] && steps[1..][1..] == [Rename(stamp)] && steps[1..] == [Launch, Rename(stamp)];
    assert RunBare(s2, steps[1..][1..], s);
    assert RunBare(s1, steps[1..], s);
    WithoutIntentIff(id, name, runid, steps, s, detectOverride);
  }
}
