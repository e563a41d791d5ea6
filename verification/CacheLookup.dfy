/**
 When the lookup of `schedule_build_one` can be trusted, in terms of the tables.

 At the lookup the key is formed from the recorded rows of the target and the
 stamps on disk; missing generated dependencies have been rebuilt by then, but
 those that exist have not been looked at (redo_core/src/builder.rs:797-846).
 Running the script instead would ask redo-ifchange for each 'm' row first.
 */
module CacheLookup {
  import opened Common
  import opened FileState
  import Dirtiness
  import FirstBuild
  import UpToDate
  import ActionKey
  import ActionCache

  type Encoding = string -> Bytes
  type Decoding = Bytes -> string

  /** Names and stamps are hashed as UTF-8, which can be read back. */
  ghost predicate Faithful(enc: Encoding, dec: Decoding) {
    forall s :: dec(enc(s)) == s
  }

  /** `Files.name` is a key and `Deps` has one row for each source, so names differ. */
  ghost predicate OneRowEach(w: Dirtiness.Snapshot, id: int)
    requires id in w.files
  {
    var ds := w.DepsOf(w.View(id));
    forall i, j :: 0 <= i < j < |ds| ==> ds[i].1.name != ds[j].1.name
  }

  function ModeByte(mode: char): Byte {
    (mode as int) % 256
  }

  /** The recorded rows of a file as the key sees them. */
  function KeyRows(w: Dirtiness.Snapshot, id: int, enc: Encoding): (r: seq<ActionKey.Dep>)
    requires id in w.files
    ensures |r| == |w.DepsOf(w.View(id))|
  {
    var ds := w.DepsOf(w.View(id));
    seq(|ds|, i requires 0 <= i < |ds| => ActionKey.Dep(ModeByte(ds[i].0), enc(ds[i].1.name)))
  }

  lemma KeyRowsDistinct(w: Dirtiness.Snapshot, id: int, enc: Encoding, dec: Decoding)
    requires Faithful(enc, dec) && id in w.files && OneRowEach(w, id)
    ensures ActionKey.DistinctNames(KeyRows(w, id, enc))
  {
    var ds := w.DepsOf(w.View(id));
    forall i, j | 0 <= i < j < |ds|
      ensures enc(ds[i].1.name) != enc(ds[j].1.name)
    {
      assert dec(enc(ds[i].1.name)) != dec(enc(ds[j].1.name));
    }
  }

  function DiskStamps(w: Dirtiness.Snapshot, enc: Encoding, dec: Decoding): ActionKey.Stamps {
    (name: Bytes) => enc(w.ReadStamp(dec(name)))
  }

  /** Stamps after redo-ifchange was asked: one file may have a new one. */
  function Changed(disk: ActionKey.Stamps, name: Bytes): ActionKey.Stamps {
    (n: Bytes) => if n == name then disk(n) + [0] else disk(n)
  }

  /**
   redo-ifchange leaves a file alone when it is Clean, and when `build_one` or
   `schedule_build_one` takes it for an override or a static file.
   */
  ghost predicate LeftAlone(w: Dirtiness.Snapshot, id: int, detectOverride: (string, string) -> bool)
    requires w.Valid() && id in w.files
  {
    || Dirtiness.Check(w, w.View(id), w.runid, []).Clean?
    || FirstBuild.Decide(w.View(id), w.ReadStamp(w.View(id).name), detectOverride) != FirstBuild.RunRule
  }

  /**
   In particular whatever the user has edited, and every source file, is left alone;
   a file that is not Clean and that nobody edited is not.
   */
  lemma EditedIsLeftAlone(w: Dirtiness.Snapshot, id: int, detectOverride: (string, string) -> bool)
    requires w.Valid() && id in w.files
    ensures
      var f := w.View(id);
      var now := w.ReadStamp(f.name);
      && (now != STAMP_MISSING && f.stamp.Some? && detectOverride(f.stamp.value, now) ==> LeftAlone(w, id, detectOverride))
      && (now != STAMP_MISSING && (f.isOverride || !f.isGenerated) ==> LeftAlone(w, id, detectOverride))
      && (f.isGenerated && !f.isOverride && (f.stamp.Some? ==> !detectOverride(f.stamp.value, now)) ==>
            (LeftAlone(w, id, detectOverride) <==> Dirtiness.Check(w, f, w.runid, []).Clean?))
  {
  }

  /** A row that asking may change: an 'm' row that is not left alone. */
  ghost predicate Rebuildable(w: Dirtiness.Snapshot, id: int, k: nat, detectOverride: (string, string) -> bool)
    requires w.Valid() && id in w.files && k < |w.DepsOf(w.View(id))|
  {
    Dirtiness.DepsAllViews(w, w.View(id));
    var row := w.DepsOf(w.View(id))[k];
    row.0 == 'm' && !LeftAlone(w, row.1.id, detectOverride)
  }

  /** The stamps a run of the script may see: only rebuildable rows can differ from disk. */
  ghost predicate MaySee(w: Dirtiness.Snapshot, id: int, enc: Encoding, disk: ActionKey.Stamps, settled: ActionKey.Stamps,
                         detectOverride: (string, string) -> bool)
    requires w.Valid() && id in w.files
  {
    var deps := KeyRows(w, id, enc);
    forall k :: 0 <= k < |deps| && !Rebuildable(w, id, k, detectOverride) ==> settled(deps[k].name) == disk(deps[k].name)
  }

  /**
   The lookup is safe exactly when every 'm' row of the target would be left
   alone, which `isdirty` and the override test can tell beforehand.
   */
  lemma LookupSafeIff(sha: Sha, w: Dirtiness.Snapshot, id: int, enc: Encoding, dec: Decoding,
                      policy: Option<Bytes>, target: Bytes, detectOverride: (string, string) -> bool)
    requires CollisionFree(sha) && Faithful(enc, dec) && w.Valid() && id in w.files && OneRowEach(w, id)
    requires ActionCache.Cacheable(policy, target, KeyRows(w, id, enc), DiskStamps(w, enc, dec))
    ensures
      var deps, disk := KeyRows(w, id, enc), DiskStamps(w, enc, dec);
      (forall settled :: MaySee(w, id, enc, disk, settled, detectOverride) ==>
         ActionCache.AlwaysRight(sha, policy, target, deps, disk, settled))
      <==> forall k :: 0 <= k < |deps| ==> !Rebuildable(w, id, k, detectOverride)
  {
    var deps, disk := KeyRows(w, id, enc), DiskStamps(w, enc, dec);
    KeyRowsDistinct(w, id, enc, dec);
    if forall k :: 0 <= k < |deps| ==> !Rebuildable(w, id, k, detectOverride) {
      forall settled | MaySee(w, id, enc, disk, settled, detectOverride)
        ensures ActionCache.AlwaysRight(sha, policy, target, deps, disk, settled)
      {
        ActionCache.HitsRightIff(sha, policy, target, deps, disk, settled);
      }
    } else {
      var k :| 0 <= k < |deps| && Rebuildable(w, id, k, detectOverride);
      RebuildableUnsafe(sha, w, id, enc, dec, policy, target, detectOverride, k);
    }
  }

  /** One rebuildable row: its stamp may change, and then a hit can be wrong. */
  lemma RebuildableUnsafe(sha: Sha, w: Dirtiness.Snapshot, id: int, enc: Encoding, dec: Decoding,
                          policy: Option<Bytes>, target: Bytes, detectOverride: (string, string) -> bool, k: nat)
    requires CollisionFree(sha) && Faithful(enc, dec) && w.Valid() && id in w.files && OneRowEach(w, id)
    requires ActionCache.Cacheable(policy, target, KeyRows(w, id, enc), DiskStamps(w, enc, dec))
    requires k < |KeyRows(w, id, enc)| && Rebuildable(w, id, k, detectOverride)
    ensures
      var deps, disk := KeyRows(w, id, enc), DiskStamps(w, enc, dec);
      var settled := Changed(disk, deps[k].name);
      && MaySee(w, id, enc, disk, settled, detectOverride)
      && !ActionCache.AlwaysRight(sha, policy, target, deps, disk, settled)
  {
    var deps, disk := KeyRows(w, id, enc), DiskStamps(w, enc, dec);
    var settled := Changed(disk, deps[k].name);
    KeyRowsDistinct(w, id, enc, dec);
    forall i | 0 <= i < |deps| && !Rebuildable(w, id, i, detectOverride)
      ensures settled(deps[i].name) == disk(deps[i].name)
    {
    }
    assert settled(deps[k].name) != disk(deps[k].name);
    ActionCache.HitsRightIff(sha, policy, target, deps, disk, settled);
  }

  /** In particular a target all of whose 'm' rows are Clean may be taken from the cache. */
  lemma CleanRowsSafe(sha: Sha, w: Dirtiness.Snapshot, id: int, enc: Encoding, dec: Decoding,
                      policy: Option<Bytes>, target: Bytes, detectOverride: (string, string) -> bool, settled: ActionKey.Stamps)
    requires CollisionFree(sha) && Faithful(enc, dec) && w.Valid() && id in w.files && OneRowEach(w, id)
    requires ActionCache.Cacheable(policy, target, KeyRows(w, id, enc), DiskStamps(w, enc, dec))
    requires forall b :: Dirtiness.MEdge(w, id, b) ==> Dirtiness.Check(w, w.View(b), w.runid, []).Clean?
    requires MaySee(w, id, enc, DiskStamps(w, enc, dec), settled, detectOverride)
    ensures ActionCache.AlwaysRight(sha, policy, target, KeyRows(w, id, enc), DiskStamps(w, enc, dec), settled)
  {
    Dirtiness.DepsAllViews(w, w.View(id));
    forall k | 0 <= k < |KeyRows(w, id, enc)|
      ensures !Rebuildable(w, id, k, detectOverride)
    {
      var row := w.DepsOf(w.View(id))[k];
      if row.0 == 'm' {
        assert Dirtiness.MEdge(w, id, row.1.id);
      }
    }
    LookupSafeIff(sha, w, id, enc, dec, policy, target, detectOverride);
  }

  // ---------------------------------------------------------------------------
  // A stale hit
  // ---------------------------------------------------------------------------

  const SRC := 1
  const MID := 2
  const TOP := 3

  function Built(id: int, name: string, generated: bool, stamp: string): File {
    File(id, name, generated, false, None, Some(1), None, Some(stamp), None)
  }

  /** "top" was made from "mid" and "mid" from "src" in run 1; "src" has been edited since. */
  function EditedSource(): Dirtiness.Snapshot {
    Dirtiness.Snapshot(
      map[SRC := Built(SRC, "src", false, "s1"), MID := Built(MID, "mid", true, "m1"), TOP := Built(TOP, "top", true, "t1")],
      map[MID := [Dirtiness.Edge('m', SRC)], TOP := [Dirtiness.Edge('m', MID)]],
      map["src" := "s2", "mid" := "m1", "top" := "t1"],
      {"src", "mid", "top"},
      2)
  }

  lemma EditedDeps()
    ensures
      var w := EditedSource();
      && w.DepsOf(w.View(MID)) == [('m', w.View(SRC))]
      && w.DepsOf(w.View(TOP)) == [('m', w.View(MID))]
  {
    var w := EditedSource();
    assert w.Join([]) == [];
    assert w.deps[MID][1..] == [] && w.deps[TOP][1..] == [];
  }

  /** One dirty dependency makes a file without checksum dirty. */
  lemma DirtyRow(w: Dirtiness.Snapshot, id: int, d: int, maxChanged: int, path: seq<int>)
    requires w.Valid() && id in w.files && d in w.files && id !in path
    requires w.DepsOf(w.View(id)) == [('m', w.View(d))]
    requires
      var f := w.View(id);
      && f.failedRunid.None? && f.changedRunid.Some? && f.changedRunid.value <= maxChanged
      && f.stamp == Some(w.ReadStamp(f.name)) && f.csum.None?
    requires Dirtiness.Check(w, w.View(d), w.View(id).MaxDepChange(), path + [id]).Dirty?
    ensures Dirtiness.Check(w, w.View(id), maxChanged, path).Dirty?
  {
    Dirtiness.CheckIsLoop(w, id, maxChanged, path);
    Dirtiness.CheckFromStep(w, w.View(id), w.DepsOf(w.View(id)), 0, path + [id], []);
  }

  lemma EditedVerdicts()
    ensures
      var w := EditedSource();
      && w.Valid()
      && Dirtiness.Check(w, w.View(MID), w.runid, []).Dirty?
      && Dirtiness.Check(w, w.View(TOP), w.runid, []).Dirty?
  {
    var w := EditedSource();
    EditedDeps();
    DirtyRow(w, MID, SRC, w.runid, []);
    DirtyRow(w, MID, SRC, 1, [TOP]);
    assert [] + [TOP] == [TOP];
    DirtyRow(w, TOP, MID, w.runid, []);
  }

  /**
   The lookup is not safe: "mid" is on disk and out of date, so the key still
   matches; the target and "mid" are both Dirty, and for some script and cache
   the hit is not what running the script would give.
   */
  lemma StaleHit(sha: Sha, enc: Encoding, dec: Decoding, target: Bytes, detectOverride: (string, string) -> bool)
    returns (settled: ActionKey.Stamps)
    requires CollisionFree(sha) && Faithful(enc, dec) && !detectOverride("m1", "m1")
    requires ActionCache.Cacheable(None, target, KeyRows(EditedSource(), TOP, enc), DiskStamps(EditedSource(), enc, dec))
    ensures
      var w := EditedSource();
      var deps, disk := KeyRows(w, TOP, enc), DiskStamps(w, enc, dec);
      && w.Valid() && "mid" in w.present
      && Dirtiness.Check(w, w.View(TOP), w.runid, []).Dirty? && Dirtiness.Check(w, w.View(MID), w.runid, []).Dirty?
      && MaySee(w, TOP, enc, disk, settled, detectOverride)
      && exists rules: ActionCache.Rules, steps, c ::
           && ActionCache.Reached(sha, rules, steps, c)
           && !ActionCache.HitRight(sha, rules, c, None, target, deps, disk, settled)
  {
    var w := EditedSource();
    EditedDeps();
    EditedVerdicts();
    assert Rebuildable(w, TOP, 0, detectOverride);
    RebuildableUnsafe(sha, w, TOP, enc, dec, None, target, detectOverride, 0);
    settled := Changed(DiskStamps(w, enc, dec), KeyRows(w, TOP, enc)[0].name);
  }

  /** The tables after a hit: the target has a new stamp, a change in this run and its old rows. */
  function AfterHit(): Dirtiness.Snapshot {
    var w := EditedSource();
    w.(files := w.files[TOP := Built(TOP, "top", true, "t2").(changedRunid := Some(2))],
       stamps := w.stamps["top" := "t2"])
  }

  lemma HitRows()
    ensures AfterHit().DepsOf(AfterHit().View(TOP)) == [('m', AfterHit().View(MID))]
  {
    var w := AfterHit();
    assert w.Join([]) == [];
    assert w.deps[TOP][1..] == [];
  }

  lemma EditedConsistent()
    ensures UpToDate.Consistent(EditedSource())
  {
  }

  lemma HitConsistent()
    ensures UpToDate.Consistent(AfterHit())
  {
  }

  lemma HitResolves()
    ensures UpToDate.Resolves(EditedSource(), AfterHit(), TOP)
  {
    EditedConsistent();
    HitConsistent();
  }

  /** The target is still not Clean afterwards: the next redo-ifchange does what this one should have done. */
  lemma HitStaysDirty()
    ensures
      var w := AfterHit();
      UpToDate.Resolves(EditedSource(), w, TOP) && !Dirtiness.Check(w, w.View(TOP), w.runid, []).Clean?
  {
    var w := AfterHit();
    EditedVerdicts();
    HitResolves();
    HitRows();
    UpToDate.NotCleanNotSettled(EditedSource(), MID);
    assert w.DepsOf(w.View(TOP))[0] == ('m', w.View(MID));
    UpToDate.StaleRowStaysDirty(EditedSource(), w, TOP, MID);
  }
}
