/**
 The rows of the `Files` table and the in-memory `File` record
 (redo_core/src/state.rs).  The integer columns `is_generated` and
 `is_override` are read through "null or 0 means false", so they are booleans
 here; run ids, stamps and checksums keep their null.
 */
module FileState {
  import opened Common

  const ALWAYS: string := "//ALWAYS"
  const STAMP_MISSING: string := "0"

  datatype File = File(
    id: int,
    name: string,
    isGenerated: bool,
    isOverride: bool,
    checkedRunid: Option<int>,
    changedRunid: Option<int>,
    failedRunid: Option<int>,
    stamp: Option<string>,
    csum: Option<string>)
  {
    /** `a >= runid`, false on null. */
    predicate IsChecked(runid: int) {
      checkedRunid.Some? && checkedRunid.value >= runid
    }

    /** The newest change a dependency may show without making this file dirty. */
    function MaxDepChange(): int {
      Max(changedRunid.GetOr(0), checkedRunid.GetOr(0))
    }
  }

  /** Reading a row: the `//ALWAYS` row always looks changed in the current run. */
  function FromRow(r: File, runid: int): (f: File)
    ensures f.id == r.id && f.name == r.name
  {
    if r.name == ALWAYS && (r.changedRunid.None? || r.changedRunid.value < runid)
    then r.(changedRunid := Some(runid))
    else r
  }
}
