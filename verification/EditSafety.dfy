/**
 Files that a user has edited: the override test of `build_one` and
 `schedule_build_one`, what it records, and what later runs make of it
 (redo_core/src/builder.rs:1671-1700, redo_core/src/state.rs:293-300).
 */
module EditSafety {
  import opened Common
  import opened FileState
  import opened Dirtiness
  import opened FirstBuild
  import RuleSearch

  // ---------------------------------------------------------------------------
  // What counts as an edit
  // ---------------------------------------------------------------------------

  /** The first two fields of a stamp: modification time and size. */
  function TimeAndSize(stamp: string): seq<string> {
    var parts := RuleSearch.Split(stamp, '-');
    if |parts| <= 2 then parts else parts[..2]
  }

  /** `detect_override` */
  function DetectOverride(before: string, after: string): bool {
    before != after && TimeAndSize(before) != TimeAndSize(after)
  }

  /** A stamp as `read_stamp` formats it; inode, mode and owners follow. */
  function Stamp(time: string, size: string, rest: string): string {
    time + ['-'] + (size + ['-'] + rest)
  }

  /** A file counts as edited exactly when its time or its size differs, whatever else does. */
  lemma EditedIff(time: string, size: string, rest: string, time': string, size': string, rest': string)
    requires '-' !in time && '-' !in size && '-' !in time' && '-' !in size'
    ensures DetectOverride(Stamp(time, size, rest), Stamp(time', size', rest')) <==> time != time' || size != size'
  {
    StampFields(time, size, rest);
    StampFields(time', size', rest');
    assert [time, size] == [time', size'] ==> [time, size][0] == [time', size'][0] && [time, size][1] == [time', size'][1];
  }

  lemma StampFields(time: string, size: string, rest: string)
    requires '-' !in time && '-' !in size
    ensures TimeAndSize(Stamp(time, size, rest)) == [time, size]
  {
    RuleSearch.SplitHead(time, size + ['-'] + rest, '-');
    RuleSearch.SplitHead(size, rest, '-');
  }

  // ---------------------------------------------------------------------------
  // One visit
  // ---------------------------------------------------------------------------

  /** An edited file is never overwritten, whatever the other columns hold. */
  lemma EditIsSafe(f: File, s: string, s': string, detect: (string, string) -> bool)
    requires f.stamp == Some(s) && s' != STAMP_MISSING && detect(s, s')
    ensures Decide(f, s', detect) != RunRule
    ensures f.isGenerated ==> Decide(f, s', detect) == TreatAsOverride
  {
  }

  /** Nor is a source file, nor one that was found edited before. */
  lemma SourceIsSafe(f: File, s': string, detect: (string, string) -> bool)
    requires s' != STAMP_MISSING && (!f.isGenerated || f.isOverride)
    ensures Decide(f, s', detect) != RunRule
    ensures Decide(f, s', detect) == TreatAsStatic <==> !f.isGenerated
  {
  }

  /** A target that nobody edited is built when it has to be. */
  lemma UneditedIsBuilt(f: File, s': string, detect: (string, string) -> bool)
    requires f.isGenerated && !f.isOverride && (f.stamp.Some? ==> !detect(f.stamp.value, s'))
    ensures Decide(f, s', detect) == RunRule
  {
  }

  /** A script that calls redo-stamp makes its target a target again, overridden or not. */
  lemma StampEndsOverride(f: File, csum: string, runid: int, s': string, detect: (string, string) -> bool)
    requires f.stamp.Some? ==> !detect(f.stamp.value, s')
    ensures Decide(Stamped(f, csum, runid), s', detect) == RunRule
  {
  }

  /** A dependent sees a change of a stamped file exactly when the checksum is a new one. */
  lemma StampSparesDependents(w: Snapshot, w': Snapshot, d: int, csum: string, since: int)
    requires w.Valid() && w'.Valid() && d in w.files && d in w'.files && w'.runid == w.runid
    requires w'.files[d] == Stamped(w.files[d], csum, w.runid) && w.files[d].name != ALWAYS
    requires w.files[d].changedRunid.Some? && w.files[d].changedRunid.value <= since < w.runid
    ensures w'.View(d).changedRunid.Some? && (w'.View(d).changedRunid.value <= since <==> w.files[d].csum == Some(csum))
    ensures w'.View(d).csum == Some(csum) && w'.View(d).failedRunid.None?
  {
  }

  /** So is anything that is not there. */
  lemma MissingIsBuilt(f: File, detect: (string, string) -> bool)
    ensures Decide(f, STAMP_MISSING, detect) == RunRule
  {
  }

  // ---------------------------------------------------------------------------
  // Over all later runs
  // ---------------------------------------------------------------------------

  /** `update_stamp(false)`: a new stamp is a change in this run. */
  function UpdateStamp(f: File, newstamp: string, runid: int): File {
    if f.stamp.GetOr("") != newstamp
    then f.(stamp := Some(newstamp), changedRunid := Some(runid), failedRunid := None, isOverride := false)
    else f
  }

  /** `set_override`, made once. */
  function RecordOverride(f: File, newstamp: string, runid: int): File {
    if f.isOverride then f
    else UpdateStamp(f, newstamp, runid).(failedRunid := None, isOverride := true)
  }

  /** What a later run may do with the row: visit the file as it then is, or check it. */
  datatype Visit =
    | Build(stamp: string, runid: int)
    | Checked(runid: int)

  function VisitRow(f: File, v: Visit): File {
    match v
    case Build(stamp, runid) => RecordOverride(f, stamp, runid)
    case Checked(runid) => f.(checkedRunid := Some(runid))
  }

  function RowAfter(f: File, visits: seq<Visit>): File
    decreases |visits|
  {
    if visits == [] then f else VisitRow(RowAfter(f, visits[..|visits| - 1]), visits[|visits| - 1])
  }

  /** The file is there at every visit. */
  ghost predicate StillThere(visits: seq<Visit>) {
    forall i :: 0 <= i < |visits| && visits[i].Build? ==> visits[i].stamp != STAMP_MISSING
  }

  lemma {:induction false} StaysOverridden(f: File, visits: seq<Visit>)
    requires f.isGenerated && f.isOverride
    ensures
      var g := RowAfter(f, visits);
      g.isGenerated && g.isOverride && g.stamp == f.stamp && g.failedRunid == f.failedRunid
    decreases |visits|
  {
    if visits != [] {
      StaysOverridden(f, visits[..|visits| - 1]);
    }
  }

  /**
   Once an edit has been recorded, no later run runs the rule, however the file is
   edited further, until it is gone; then the rule is run.
   */
  lemma EditStaysSafe(f: File, s: string, s': string, runid: int, visits: seq<Visit>, detect: (string, string) -> bool)
    requires f.isGenerated && f.stamp == Some(s) && s' != STAMP_MISSING && detect(s, s') && StillThere(visits)
    ensures
      var g := RecordOverride(f, s', runid);
      && (forall i :: 0 <= i < |visits| && visits[i].Build? ==>
            Decide(RowAfter(g, visits[..i]), visits[i].stamp, detect) == TreatAsOverride)
      && Decide(RowAfter(g, visits), STAMP_MISSING, detect) == RunRule
  {
    var g := RecordOverride(f, s', runid);
    forall i | 0 <= i < |visits| && visits[i].Build?
      ensures Decide(RowAfter(g, visits[..i]), visits[i].stamp, detect) == TreatAsOverride
    {
      StaysOverridden(g, visits[..i]);
    }
  }

  /**
   In between it is a source for everybody else: in order while it stays as it was
   recorded, and out of order as soon as it is edited again.
   */
  lemma OverrideIsSource(w: Snapshot, id: int, f: File, s': string, runid: int)
    requires w.Valid() && id in w.files && f.id == id && f.name != ALWAYS && !f.isOverride
    requires w.files[id] == RecordOverride(f, s', runid) && s' != f.stamp.GetOr("") && runid <= w.runid
    ensures Check(w, w.View(id), w.runid, []).Clean? <==> w.ReadStamp(f.name) == s'
  {
    CleanUnfold(w, id, w.runid, []);
  }
}
