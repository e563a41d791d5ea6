/**
 A cache hit against running the script (`schedule_build_one` in
 redo_core/src/builder.rs with redo_core/src/action_cache.rs).

 Building a target is a deterministic script: knowing what it has seen so far,
 it either asks about one more file or ends with an output.  Rule search is part
 of it.  What it sees of a file is its stamp.  Entries are stored under the set
 of (mode, name, stamp) recorded by a finished build.
 */
module ActionCache {
  import opened Common
  import opened ActionKey
  import DepsTable

  type Output = Bytes

  /** One observation of a script, as it is recorded. */
  datatype Seen = Seen(mode: Byte, name: Bytes, stamp: Bytes)

  /**
   A step of a script.  redo-ifchange asks with mode 'm', redo-ifcreate with 'c';
   the rule search records 'c' for a missing candidate and 'm' for the one found.
   */
  datatype Action =
    | Ask(name: Bytes, ifMissing: Byte, ifPresent: Byte)
    | Finish(output: Output)

  type Script = seq<Seen> -> Action

  /** How a target is built; the policy domain may matter. */
  type Rules = (Option<Bytes>, Bytes) -> Script

  const STAMP_MISSING: Bytes := Ascii("0")

  function Observe(a: Action, world: Stamps): Seen
    requires a.Ask?
  {
    var stamp := world(a.name);
    Seen(if stamp == STAMP_MISSING then a.ifMissing else a.ifPresent, a.name, stamp)
  }

  /** Running `script` in `world` makes exactly the observations `trace` and ends with `output`. */
  ghost predicate IsRun(script: Script, world: Stamps, trace: seq<Seen>, output: Output) {
    && (forall i :: 0 <= i < |trace| ==> script(trace[..i]).Ask? && trace[i] == Observe(script(trace[..i]), world))
    && script(trace) == Finish(output)
  }

  /** A script has at most one run in a world. */
  lemma RunUnique(script: Script, world: Stamps, t: seq<Seen>, o: Output, t': seq<Seen>, o': Output)
    requires IsRun(script, world, t, o) && IsRun(script, world, t', o')
    ensures t == t' && o == o'
  {
    if |t| <= |t'| {
      RunPrefix(script, world, t, o, t', o', |t|);
    } else {
      RunPrefix(script, world, t', o', t, o, |t'|);
    }
  }

  lemma StillAsking(script: Script, world: Stamps, t: seq<Seen>, o: Output, n: nat)
    requires IsRun(script, world, t, o) && n < |t|
    ensures script(t[..n]).Ask?
  {
  }

  lemma {:induction false} RunPrefix(script: Script, world: Stamps, t: seq<Seen>, o: Output, t': seq<Seen>, o': Output, n: nat)
    requires IsRun(script, world, t, o) && IsRun(script, world, t', o') && n <= |t| <= |t'|
    ensures t[..n] == t'[..n]
    ensures n == |t| ==> t == t' && o == o'
    decreases n
  {
    if n > 0 {
      RunPrefix(script, world, t, o, t', o', n - 1);
      assert t[n - 1] == t'[n - 1];
      assert t[..n] == t[..n - 1] + [t[n - 1]] && t'[..n] == t'[..n - 1] + [t'[n - 1]];
    }
    if n == |t| {
      assert t[..n] == t;
      if |t'| > n {
        StillAsking(script, world, t', o', n);
        assert false;
      }
      assert t'[..n] == t';
    }
  }

  // ---------------------------------------------------------------------------
  // What a build records
  // ---------------------------------------------------------------------------

  function Without(deps: seq<Dep>, name: Bytes): (r: seq<Dep>)
    ensures forall d :: d in r <==> d in deps && d.name != name
  {
    if deps == [] then []
    else if deps[0].name == name then Without(deps[1..], name)
    else [deps[0]] + Without(deps[1..], name)
  }

  /** The rows left by the adds of a build: one per name, with its last mode. */
  function Recorded(trace: seq<Seen>): seq<Dep>
    decreases |trace|
  {
    if trace == [] then []
    else
      var n := |trace| - 1;
      Without(Recorded(trace[..n]), trace[n].name) + [Dep(trace[n].mode, trace[n].name)]
  }

  lemma {:induction false} WithoutDistinct(deps: seq<Dep>, name: Bytes)
    requires DistinctNames(deps)
    ensures DistinctNames(Without(deps, name))
    decreases |deps|
  {
    if deps != [] {
      WithoutDistinct(deps[1..], name);
      var r := Without(deps[1..], name);
      forall j | 0 <= j < |r| ensures r[j].name != deps[0].name {
        assert r[j] in deps[1..];
      }
    }
  }

  lemma {:induction false} RecordedDistinct(trace: seq<Seen>)
    ensures DistinctNames(Recorded(trace))
    decreases |trace|
  {
    if trace != [] {
      var n := |trace| - 1;
      RecordedDistinct(trace[..n]);
      WithoutDistinct(Recorded(trace[..n]), trace[n].name);
    }
  }

  /** Exactly the names observed are recorded. */
  lemma {:induction false} RecordedNames(trace: seq<Seen>, i: nat)
    requires i < |trace|
    ensures exists d :: d in Recorded(trace) && d.name == trace[i].name
    decreases |trace|
  {
    var n := |trace| - 1;
    var last := Dep(trace[n].mode, trace[n].name);
    assert last in Recorded(trace);
    if i < n && trace[i].name != trace[n].name {
      RecordedNames(trace[..n], i);
      var d :| d in Recorded(trace[..n]) && d.name == trace[i].name;
      assert d in Without(Recorded(trace[..n]), trace[n].name);
    }
  }

  /** The `add_dep` calls behind a trace, names being looked up as row ids. */
  function Adds(target: int, trace: seq<Seen>, id: Bytes -> int): seq<DepsTable.Op> {
    seq(|trace|, i requires 0 <= i < |trace| => DepsTable.Add(target, trace[i].mode, id(trace[i].name)))
  }

  /** The list is what mark and sweep leaves in the `Deps` table. */
  lemma {:induction false} RecordedIsTable(target: int, trace: seq<Seen>, id: Bytes -> int, d: Dep)
    requires forall a, b :: id(a) == id(b) ==> a == b
    ensures d in Recorded(trace) <==> DepsTable.LastMode(Adds(target, trace, id), target, id(d.name)) == Some(d.mode)
    decreases |trace|
  {
    if trace != [] {
      var n := |trace| - 1;
      assert Adds(target, trace, id)[..n] == Adds(target, trace[..n], id);
      RecordedIsTable(target, trace[..n], id, d);
    }
  }

  // ---------------------------------------------------------------------------
  // The cache
  // ---------------------------------------------------------------------------

  type Cache = map<Digest, Output>

  function Key(sha: Sha, policy: Option<Bytes>, target: Bytes, deps: seq<Dep>, world: Stamps): Digest {
    sha(Stream(policy, target, deps, world))
  }

  datatype Step =
    /** A script ran to its end in `world` and its output was stored. */
    | Store(policy: Option<Bytes>, target: Bytes, world: Stamps, trace: seq<Seen>, output: Output)
    /** Garbage collection. */
    | Evict(key: Digest)

  /** No `//ALWAYS` among the rows, and lengths that fit. */
  ghost predicate Cacheable(policy: Option<Bytes>, target: Bytes, deps: seq<Dep>, world: Stamps) {
    Fits(policy, target, deps, world) && forall d :: d in deps ==> d.name != ALWAYS
  }

  ghost predicate Enabled(rules: Rules, step: Step) {
    match step
    case Store(policy, target, world, trace, output) =>
      IsRun(rules(policy, target), world, trace, output) && Cacheable(policy, target, Recorded(trace), world)
    case Evict(key) => true
  }

  /** `store` leaves an existing entry alone. */
  function Next(sha: Sha, c: Cache, step: Step): Cache {
    match step
    case Store(policy, target, world, trace, output) =>
      var k := Key(sha, policy, target, Recorded(trace), world);
      if k in c then c else c[k := output]
    case Evict(key) => c - {key}
  }

  ghost predicate Reached(sha: Sha, rules: Rules, steps: seq<Step>, c: Cache)
    decreases |steps|
  {
    if steps == [] then c == map[]
    else
      var n := |steps| - 1;
      Enabled(rules, steps[n]) &&
      exists before :: Reached(sha, rules, steps[..n], before) && c == Next(sha, before, steps[n])
  }

  /** An entry remembers a finished build. */
  ghost predicate Explained(sha: Sha, rules: Rules, key: Digest, output: Output, entry: Step) {
    && entry.Store? && Enabled(rules, entry) && entry.output == output
    && key == Key(sha, entry.policy, entry.target, Recorded(entry.trace), entry.world)
  }

  lemma {:induction false} EntriesExplained(sha: Sha, rules: Rules, steps: seq<Step>, c: Cache, key: Digest)
    requires Reached(sha, rules, steps, c) && key in c
    ensures exists entry :: Explained(sha, rules, key, c[key], entry)
    decreases |steps|
  {
    if steps != [] {
      var n := |steps| - 1;
      var before :| Reached(sha, rules, steps[..n], before) && c == Next(sha, before, steps[n]);
      if key in before {
        EntriesExplained(sha, rules, steps[..n], before, key);
      } else {
        assert Explained(sha, rules, key, c[key], steps[n]);
      }
    }
  }

  /** Equal stamps on everything a run looked at: the same run in another world. */
  lemma RunTransfers(script: Script, w: Stamps, w': Stamps, trace: seq<Seen>, output: Output)
    requires IsRun(script, w, trace, output)
    requires forall d :: d in Recorded(trace) ==> w(d.name) == w'(d.name)
    ensures IsRun(script, w', trace, output)
  {
    forall i | 0 <= i < |trace|
      ensures trace[i] == Observe(script(trace[..i]), w')
    {
      RecordedNames(trace, i);
    }
  }

  ghost predicate SameRows(a: seq<Dep>, b: seq<Dep>) {
    Elems(a) == Elems(b)
  }

  /**
   A hit is a run: if the rows of a target, with the stamps of `world`, form a
   key found in any reachable cache, then the script has a run in `world`, it
   ends with the cached output, and it records the same rows.
   */
  lemma HitIsRun(sha: Sha, rules: Rules, steps: seq<Step>, c: Cache,
                 policy: Option<Bytes>, target: Bytes, deps: seq<Dep>, world: Stamps)
    returns (trace: seq<Seen>)
    requires CollisionFree(sha) && Reached(sha, rules, steps, c)
    requires Cacheable(policy, target, deps, world) && DistinctNames(deps)
    requires Key(sha, policy, target, deps, world) in c
    ensures IsRun(rules(policy, target), world, trace, c[Key(sha, policy, target, deps, world)])
    ensures SameRows(Recorded(trace), deps)
  {
    var key := Key(sha, policy, target, deps, world);
    EntriesExplained(sha, rules, steps, c, key);
    var entry :| Explained(sha, rules, key, c[key], entry);
    trace := entry.trace;
    RecordedDistinct(trace);
    CanonicalKey(policy, target, deps, world, entry.policy, entry.target, Recorded(trace), entry.world);
    TriplesToElems(Recorded(trace), entry.world, deps, world);
    TriplesToElems(deps, world, Recorded(trace), entry.world);
    RunTransfers(rules(policy, target), entry.world, world, trace, c[key]);
  }

  /** So whatever running the script in this world gives, the hit gives. */
  lemma HitMatchesRun(sha: Sha, rules: Rules, steps: seq<Step>, c: Cache,
                      policy: Option<Bytes>, target: Bytes, deps: seq<Dep>, world: Stamps,
                      trace: seq<Seen>, output: Output)
    requires CollisionFree(sha) && Reached(sha, rules, steps, c)
    requires Cacheable(policy, target, deps, world) && DistinctNames(deps)
    requires Key(sha, policy, target, deps, world) in c
    requires IsRun(rules(policy, target), world, trace, output)
    ensures c[Key(sha, policy, target, deps, world)] == output
    ensures SameRows(Recorded(trace), deps)
  {
    var t := HitIsRun(sha, rules, steps, c, policy, target, deps, world);
    RunUnique(rules(policy, target), world, t, c[Key(sha, policy, target, deps, world)], trace, output);
  }

  // ---------------------------------------------------------------------------
  // Out-of-date dependencies
  // ---------------------------------------------------------------------------

  /**
   The lookup uses the stamps on disk.  A script that really runs first brings
   what it asks for up to date, so it sees the stamps `settled`.  A hit is right
   if that run ends with the cached output and records the same rows.
   */
  ghost predicate HitRight(sha: Sha, rules: Rules, c: Cache, policy: Option<Bytes>, target: Bytes,
                           deps: seq<Dep>, disk: Stamps, settled: Stamps)
  {
    var key := Key(sha, policy, target, deps, disk);
    key in c ==>
      exists trace :: IsRun(rules(policy, target), settled, trace, c[key]) && SameRows(Recorded(trace), deps)
  }

  /** Whatever the scripts are and however the cache came about, a hit is right. */
  ghost predicate AlwaysRight(sha: Sha, policy: Option<Bytes>, target: Bytes, deps: seq<Dep>, disk: Stamps, settled: Stamps) {
    forall rules: Rules, steps, c ::
      Reached(sha, rules, steps, c) ==> HitRight(sha, rules, c, policy, target, deps, disk, settled)
  }

  /** A script that asks about `deps` in order and ends with the stamp of one of them. */
  function ProbeScript(deps: seq<Dep>, k: nat): Script
    requires k < |deps|
  {
    (seen: seq<Seen>) =>
      if |seen| < |deps| then Ask(deps[|seen|].name, deps[|seen|].mode, deps[|seen|].mode)
      else Finish(seen[k].stamp)
  }

  function ProbeTrace(deps: seq<Dep>, world: Stamps): (t: seq<Seen>)
    ensures |t| == |deps|
    ensures forall i :: 0 <= i < |deps| ==> t[i] == Seen(deps[i].mode, deps[i].name, world(deps[i].name))
    decreases |deps|
  {
    if deps == [] then []
    else
      var n := |deps| - 1;
      ProbeTrace(deps[..n], world) + [Seen(deps[n].mode, deps[n].name, world(deps[n].name))]
  }

  lemma ProbeRun(deps: seq<Dep>, k: nat, world: Stamps, t: seq<Seen>)
    requires k < |deps| && t == ProbeTrace(deps, world)
    ensures IsRun(ProbeScript(deps, k), world, t, world(deps[k].name))
  {
    forall i | 0 <= i < |t|
      ensures ProbeScript(deps, k)(t[..i]).Ask? && t[i] == Observe(ProbeScript(deps, k)(t[..i]), world)
    {
      assert |t[..i]| == i;
    }
  }

  lemma {:induction false} WithoutAbsent(deps: seq<Dep>, name: Bytes)
    requires forall i :: 0 <= i < |deps| ==> deps[i].name != name
    ensures Without(deps, name) == deps
    decreases |deps|
  {
    if deps != [] {
      WithoutAbsent(deps[1..], name);
    }
  }

  lemma RecordedAppend(trace: seq<Seen>, x: Seen)
    ensures Recorded(trace + [x]) == Without(Recorded(trace), x.name) + [Dep(x.mode, x.name)]
  {
    assert (trace + [x])[..|trace|] == trace;
  }

  /** Looking at one more file with a name of its own. */
  lemma RecordedNew(trace: seq<Seen>, deps: seq<Dep>, x: Seen)
    requires Recorded(trace) == deps && forall i :: 0 <= i < |deps| ==> deps[i].name != x.name
    ensures Recorded(trace + [x]) == deps + [Dep(x.mode, x.name)]
  {
    RecordedAppend(trace, x);
    WithoutAbsent(deps, x.name);
  }

  /** It records exactly those rows. */
  lemma {:induction false} ProbeRecords(deps: seq<Dep>, world: Stamps)
    requires DistinctNames(deps)
    ensures Recorded(ProbeTrace(deps, world)) == deps
    decreases |deps|
  {
    if deps != [] {
      var n := |deps| - 1;
      ProbeRecords(deps[..n], world);
      RecordedNew(ProbeTrace(deps[..n], world), deps[..n], Seen(deps[n].mode, deps[n].name, world(deps[n].name)));
      assert deps[..n] + [deps[n]] == deps;
    }
  }

  lemma ReachedByOne(sha: Sha, rules: Rules, step: Step)
    requires Enabled(rules, step)
    ensures Reached(sha, rules, [step], Next(sha, map[], step))
  {
    assert Reached(sha, rules, [], map[]);
    assert [step][..0] == [];
  }

  /** The cache after one such build in the world `disk`. */
  lemma ProbeBuild(sha: Sha, policy: Option<Bytes>, target: Bytes, deps: seq<Dep>, disk: Stamps, k: nat)
    returns (rules: Rules, steps: seq<Step>, c: Cache)
    requires Cacheable(policy, target, deps, disk) && DistinctNames(deps) && k < |deps|
    ensures rules(policy, target) == ProbeScript(deps, k) && Reached(sha, rules, steps, c)
    ensures Key(sha, policy, target, deps, disk) in c
    ensures c[Key(sha, policy, target, deps, disk)] == disk(deps[k].name)
  {
    rules := (p: Option<Bytes>, t: Bytes) => ProbeScript(deps, k);
    var trace := ProbeTrace(deps, disk);
    ProbeRun(deps, k, disk, trace);
    ProbeRecords(deps, disk);
    var build := Store(policy, target, disk, trace, disk(deps[k].name));
    ReachedByOne(sha, rules, build);
    steps, c := [build], Next(sha, map[], build);
  }

  /** With one recorded stamp out of date there are a script and a cache whose hit is wrong. */
  lemma OneStaleStamp(sha: Sha, policy: Option<Bytes>, target: Bytes, deps: seq<Dep>, disk: Stamps, settled: Stamps, k: nat)
    requires Cacheable(policy, target, deps, disk) && DistinctNames(deps)
    requires k < |deps| && settled(deps[k].name) != disk(deps[k].name)
    ensures !AlwaysRight(sha, policy, target, deps, disk, settled)
  {
    var rules, steps, c := ProbeBuild(sha, policy, target, deps, disk, k);
    var cached := disk(deps[k].name);
    forall trace | IsRun(ProbeScript(deps, k), settled, trace, cached)
      ensures false
    {
      ProbeRun(deps, k, settled, ProbeTrace(deps, settled));
      RunUnique(ProbeScript(deps, k), settled, trace, cached, ProbeTrace(deps, settled), settled(deps[k].name));
    }
    assert !HitRight(sha, rules, c, policy, target, deps, disk, settled);
  }

  /**
   When hits can be relied on: exactly when the stamp on disk of every recorded
   dependency is already the one a run would see.
   */
  lemma HitsRightIff(sha: Sha, policy: Option<Bytes>, target: Bytes, deps: seq<Dep>, disk: Stamps, settled: Stamps)
    requires CollisionFree(sha) && Cacheable(policy, target, deps, disk) && DistinctNames(deps)
    ensures AlwaysRight(sha, policy, target, deps, disk, settled) <==>
      forall i :: 0 <= i < |deps| ==> settled(deps[i].name) == disk(deps[i].name)
  {
    if forall i :: 0 <= i < |deps| ==> settled(deps[i].name) == disk(deps[i].name) {
      forall rules: Rules, steps, c | Reached(sha, rules, steps, c)
        ensures HitRight(sha, rules, c, policy, target, deps, disk, settled)
      {
        if Key(sha, policy, target, deps, disk) in c {
          var t := HitIsRun(sha, rules, steps, c, policy, target, deps, disk);
          forall d | d in Recorded(t)
            ensures disk(d.name) == settled(d.name)
          {
            assert d in Elems(deps);
          }
          RunTransfers(rules(policy, target), disk, settled, t, c[Key(sha, policy, target, deps, disk)]);
        }
      }
    } else {
      var k :| 0 <= k < |deps| && settled(deps[k].name) != disk(deps[k].name);
      OneStaleStamp(sha, policy, target, deps, disk, settled, k);
    }
  }
}
