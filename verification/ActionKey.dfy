/**
 The byte stream behind a local action key (redo_core/src/action_cache.rs,
 `compute_action_key_v0` and its policy variant), and why it is canonical:
 length-prefixed fields, a count, and entries sorted by (mode, name).
 */
module ActionKey {
  import opened Common

  const U64: nat := 0x1_0000_0000_0000_0000

  function Ascii(s: string): Bytes {
    seq(|s|, i requires 0 <= i < |s| => (s[i] as int) % 256)
  }

  const KEY_TAG: Bytes := Ascii("redo-action-key-v0")
  const VERSION_TAG: Bytes := Ascii("0.42d")
  const ALWAYS: Bytes := Ascii("//ALWAYS")
  const POLICY_PREFIX: Bytes := Ascii("policy=")

  /** A dependency row as the key sees it: the mode character as a byte, and the name. */
  datatype Dep = Dep(mode: Byte, name: Bytes)

  datatype Eligibility = Eligible | SkipAlways

  /** What `read_stamp` gives for each name at the moment of the computation. */
  type Stamps = Bytes -> Bytes

  // ---------------------------------------------------------------------------
  // Fields
  // ---------------------------------------------------------------------------

  /** `n.to_le_bytes()` in `k` bytes; larger numbers lose their high bytes. */
  function LittleEndian(n: nat, k: nat): (r: Bytes)
    ensures |r| == k
  {
    if k == 0 then [] else [n % 256] + LittleEndian(n / 256, k - 1)
  }

  function Pow256(k: nat): nat {
    if k == 0 then 1 else 256 * Pow256(k - 1)
  }

  lemma {:induction false} LittleEndianInjective(a: nat, b: nat, k: nat)
    requires a < Pow256(k) && b < Pow256(k) && LittleEndian(a, k) == LittleEndian(b, k)
    ensures a == b
  {
    if k > 0 {
      var x, y := LittleEndian(a, k), LittleEndian(b, k);
      assert x[0] == a % 256 && y[0] == b % 256;
      assert x[1..] == LittleEndian(a / 256, k - 1) && y[1..] == LittleEndian(b / 256, k - 1);
      LittleEndianInjective(a / 256, b / 256, k - 1);
    }
  }

  lemma Pow256Of8()
    ensures Pow256(8) == U64
  {
    assert Pow256(4) == 0x1_0000_0000;
    assert Pow256(6) == 0x1_0000_0000_0000;
  }

  function Count(n: nat): Bytes {
    LittleEndian(n, 8)
  }

  lemma CountInjective(a: nat, b: nat)
    requires a < U64 && b < U64 && Count(a) == Count(b)
    ensures a == b
  {
    Pow256Of8();
    LittleEndianInjective(a, b, 8);
  }

  /** `hash_str`. */
  function Field(s: Bytes): Bytes {
    Count(|s|) + s
  }

  /** A field can be split off a stream in one way only. */
  lemma FieldPrefix(a: Bytes, x: Bytes, b: Bytes, y: Bytes)
    requires |a| < U64 && |b| < U64 && Field(a) + x == Field(b) + y
    ensures a == b && x == y
  {
    var l, r := Field(a) + x, Field(b) + y;
    assert l[..8] == Count(|a|) && r[..8] == Count(|b|);
    CountInjective(|a|, |b|);
    assert l[8..8 + |a|] == a && r[8..8 + |b|] == b;
    assert l[8 + |a|..] == x && r[8 + |b|..] == y;
  }

  // ---------------------------------------------------------------------------
  // Sorting by (mode, name)
  // ---------------------------------------------------------------------------

  predicate NameLess(a: Bytes, b: Bytes)
    decreases |a|
  {
    if b == [] then false
    else if a == [] then true
    else a[0] < b[0] || (a[0] == b[0] && NameLess(a[1..], b[1..]))
  }

  predicate Less(a: Dep, b: Dep) {
    a.mode < b.mode || (a.mode == b.mode && NameLess(a.name, b.name))
  }

  lemma {:induction false} NameLessTotal(a: Bytes, b: Bytes)
    ensures NameLess(a, b) || NameLess(b, a) || a == b
    ensures !(NameLess(a, b) && NameLess(b, a))
    ensures !NameLess(a, a)
    decreases |a|
  {
    if a != [] {
      if b != [] {
        NameLessTotal(a[1..], b[1..]);
        assert a[0] == b[0] && a[1..] == b[1..] ==> a == [a[0]] + a[1..] == b;
      }
      NameLessTotal(a[1..], a[1..]);
    }
  }

  lemma {:induction false} NameLessTransitive(a: Bytes, b: Bytes, c: Bytes)
    requires NameLess(a, b) && NameLess(b, c)
    ensures NameLess(a, c)
    decreases |a|
  {
    if a != [] && a[0] == b[0] && b[0] == c[0] {
      NameLessTransitive(a[1..], b[1..], c[1..]);
    }
  }

  lemma LessOrder(a: Dep, b: Dep)
    ensures Less(a, b) || Less(b, a) || a == b
    ensures !(Less(a, b) && Less(b, a))
    ensures !Less(a, a)
  {
    NameLessTotal(a.name, b.name);
  }

  lemma LessTransitive(a: Dep, b: Dep, c: Dep)
    requires Less(a, b) && Less(b, c)
    ensures Less(a, c)
  {
    if a.mode == b.mode == c.mode {
      NameLessTransitive(a.name, b.name, c.name);
    }
  }

  function Insert(d: Dep, s: seq<Dep>): (r: seq<Dep>)
    ensures |r| == |s| + 1 && multiset(r) == multiset(s) + multiset{d}
  {
    if s == [] then [d]
    else
      assert s == [s[0]] + s[1..];
      if Less(d, s[0]) then [d] + s else [s[0]] + Insert(d, s[1..])
  }

  /** `deps.sort_by(...)`, stable like the library's sort. */
  function Sorted(deps: seq<Dep>): (r: seq<Dep>)
    ensures |r| == |deps| && multiset(r) == multiset(deps)
  {
    if deps == [] then []
    else
      var n := |deps| - 1;
      assert deps == deps[..n] + [deps[n]];
      Insert(deps[n], Sorted(deps[..n]))
  }

  ghost predicate Increasing(s: seq<Dep>) {
    forall i, j :: 0 <= i < j < |s| ==> Less(s[i], s[j])
  }

  /** The primary key of `Deps` allows a source once per target, and names are unique. */
  ghost predicate DistinctNames(deps: seq<Dep>) {
    forall i, j :: 0 <= i < j < |deps| ==> deps[i].name != deps[j].name
  }

  lemma SameElems(a: seq<Dep>, b: seq<Dep>)
    requires multiset(a) == multiset(b)
    ensures Elems(a) == Elems(b)
  {
    forall d: Dep
      ensures d in a <==> d in b
    {
      assert d in multiset(a) <==> d in multiset(b);
    }
  }

  lemma {:induction false} InsertIncreasing(d: Dep, s: seq<Dep>)
    requires Increasing(s) && d !in s
    ensures Increasing(Insert(d, s))
    decreases |s|
  {
    if s != [] {
      LessOrder(d, s[0]);
      if Less(d, s[0]) {
        forall j | 0 <= j < |s| ensures Less(d, s[j]) {
          if j > 0 { LessTransitive(d, s[0], s[j]); }
        }
      } else {
        InsertIncreasing(d, s[1..]);
        var t := Insert(d, s[1..]);
        forall j | 0 <= j < |t| ensures Less(s[0], t[j]) {
          assert t[j] in multiset(t);
          assert t[j] == d || t[j] in s[1..];
        }
      }
    }
  }

  lemma {:induction false} SortedIncreasing(deps: seq<Dep>)
    requires DistinctNames(deps)
    ensures Increasing(Sorted(deps)) && Elems(Sorted(deps)) == Elems(deps)
    decreases |deps|
  {
    SameElems(Sorted(deps), deps);
    if deps != [] {
      var n := |deps| - 1;
      SortedIncreasing(deps[..n]);
      assert deps[n] !in Elems(deps[..n]);
      InsertIncreasing(deps[n], Sorted(deps[..n]));
    }
  }

  /** Two increasing lists with the same elements are the same list. */
  lemma {:induction false} IncreasingUnique(a: seq<Dep>, b: seq<Dep>)
    requires Increasing(a) && Increasing(b) && Elems(a) == Elems(b)
    ensures a == b
    decreases |a|
  {
    assert a != [] ==> a[0] in Elems(b);
    assert b != [] ==> b[0] in Elems(a);
    if a != [] {
      FirstAgrees(a, b);
      assert Elems(a[1..]) == Elems(a) - {a[0]} by { TailElems(a); }
      assert Elems(b[1..]) == Elems(b) - {b[0]} by { TailElems(b); }
      IncreasingUnique(a[1..], b[1..]);
      assert a == [a[0]] + a[1..] && b == [b[0]] + b[1..];
    }
  }

  lemma FirstAgrees(a: seq<Dep>, b: seq<Dep>)
    requires Increasing(a) && Increasing(b) && Elems(a) == Elems(b) && a != [] && b != []
    ensures a[0] == b[0]
  {
    assert a[0] in Elems(b) && b[0] in Elems(a);
    LessOrder(a[0], b[0]);
  }

  lemma TailElems(a: seq<Dep>)
    requires Increasing(a) && a != []
    ensures Elems(a[1..]) == Elems(a) - {a[0]}
  {
    LessOrder(a[0], a[0]);
    assert forall d :: d in a <==> d == a[0] || d in a[1..];
  }

  /** Row order does not matter. */
  lemma SortedCanonical(a: seq<Dep>, b: seq<Dep>)
    requires DistinctNames(a) && DistinctNames(b)
    ensures Sorted(a) == Sorted(b) <==> Elems(a) == Elems(b)
  {
    SortedIncreasing(a);
    SortedIncreasing(b);
    if Elems(a) == Elems(b) {
      IncreasingUnique(Sorted(a), Sorted(b));
    }
  }

  // ---------------------------------------------------------------------------
  // The stream
  // ---------------------------------------------------------------------------

  function Entry(d: Dep, stamp: Bytes): Bytes {
    [d.mode] + (Field(d.name) + Field(stamp))
  }

  function Entries(deps: seq<Dep>, stamps: Stamps): Bytes {
    if deps == [] then []
    else Entry(deps[0], stamps(deps[0].name)) + Entries(deps[1..], stamps)
  }

  lemma Reassociate(m: Byte, f: Bytes, g: Bytes, x: Bytes)
    ensures ([m] + (f + g)) + x == [m] + (f + (g + x))
    ensures (([m] + (f + g)) + x)[0] == m && (([m] + (f + g)) + x)[1..] == f + (g + x)
  {
  }

  lemma AppendEntry(h: Bytes, m: Byte, f: Bytes, g: Bytes, rest: Bytes)
    ensures h + [m] + f + g + rest == h + (([m] + (f + g)) + rest)
  {
    Reassociate(m, f, g, rest);
    assert h + [m] + f + g + rest == h + ([m] + (f + (g + rest)));
  }

  lemma EntryPrefix(a: Dep, sa: Bytes, x: Bytes, b: Dep, sb: Bytes, y: Bytes)
    requires |a.name| < U64 && |b.name| < U64 && |sa| < U64 && |sb| < U64
    requires Entry(a, sa) + x == Entry(b, sb) + y
    ensures a == b && sa == sb && x == y
  {
    Reassociate(a.mode, Field(a.name), Field(sa), x);
    Reassociate(b.mode, Field(b.name), Field(sb), y);
    FieldPrefix(a.name, Field(sa) + x, b.name, Field(sb) + y);
    FieldPrefix(sa, x, sb, y);
  }

  function PolicyField(policy: Option<Bytes>): Bytes {
    if policy.None? then [] else Field(POLICY_PREFIX + policy.value)
  }

  function Stream(policy: Option<Bytes>, target: Bytes, deps: seq<Dep>, stamps: Stamps): Bytes {
    Field(KEY_TAG) + (PolicyField(policy) + (Field(VERSION_TAG) +
      (Field(target) + (Count(|deps|) + Entries(Sorted(deps), stamps)))))
  }

  /** The loop over the sorted rows, giving up at the first `//ALWAYS`. */
  method HashEntries(start: Bytes, sorted: seq<Dep>, stamps: Stamps) returns (e: Eligibility, hashed: Bytes)
    ensures e.Eligible? <==> forall d :: d in sorted ==> d.name != ALWAYS
    ensures e.Eligible? ==> hashed == start + Entries(sorted, stamps)
    ensures e.SkipAlways? ==> hashed == []
  {
    var h := start;
    var i := 0;
    assert sorted[0..] == sorted;
    while i < |sorted|
      invariant 0 <= i <= |sorted|
      invariant forall k :: 0 <= k < i ==> sorted[k].name != ALWAYS
      invariant h + Entries(sorted[i..], stamps) == start + Entries(sorted, stamps)
    {
      var dep := sorted[i];
      if dep.name == ALWAYS {
        return SkipAlways, [];
      }
      assert sorted[i..][1..] == sorted[i + 1..];
      AppendEntry(h, dep.mode, Field(dep.name), Field(stamps(dep.name)), Entries(sorted[i + 1..], stamps));
      h := h + [dep.mode];
      h := h + Field(dep.name);
      h := h + Field(stamps(dep.name));
      i := i + 1;
    }
    assert sorted[i..] == [] && Entries([], stamps) == [];
    return Eligible, h;
  }

  /** The key computation: sort, hash the header field by field, then the rows. */
  method ComputeKey(policy: Option<Bytes>, target: Bytes, deps: seq<Dep>, stamps: Stamps)
    returns (e: Eligibility, hashed: Bytes)
    ensures e.Eligible? <==> forall d :: d in deps ==> d.name != ALWAYS
    ensures e.Eligible? ==> hashed == Stream(policy, target, deps, stamps)
    ensures e.SkipAlways? ==> hashed == []
  {
    var sorted := Sorted(deps);
    SameElems(sorted, deps);
    forall d: Dep ensures d in deps <==> d in sorted {
      assert d in Elems(deps) <==> d in Elems(sorted);
    }
    var h := Field(KEY_TAG);
    if policy.Some? {
      h := h + Field(POLICY_PREFIX + policy.value);
    }
    h := h + Field(VERSION_TAG);
    h := h + Field(target);
    h := h + Count(|deps|);
    e, hashed := HashEntries(h, sorted, stamps);
    HeaderJoins(policy, target, Count(|deps|), Entries(sorted, stamps), h);
  }

  lemma HeaderJoins(policy: Option<Bytes>, target: Bytes, count: Bytes, rest: Bytes, h: Bytes)
    requires h == (if policy.Some? then Field(KEY_TAG) + Field(POLICY_PREFIX + policy.value) else Field(KEY_TAG))
                  + Field(VERSION_TAG) + Field(target) + count
    ensures h + rest == Field(KEY_TAG) + (PolicyField(policy) + (Field(VERSION_TAG) + (Field(target) + (count + rest))))
  {
    FiveParts(Field(KEY_TAG), PolicyField(policy), Field(VERSION_TAG), Field(target), count, rest);
    if policy.None? {
      assert Field(KEY_TAG) + PolicyField(policy) == Field(KEY_TAG);
    }
  }

  lemma FiveParts(a: Bytes, b: Bytes, c: Bytes, d: Bytes, e: Bytes, rest: Bytes)
    ensures a + b + c + d + e + rest == a + (b + (c + (d + (e + rest))))
  {
  }

  /** Lengths that a 64-bit count can hold. */
  ghost predicate Fits(policy: Option<Bytes>, target: Bytes, deps: seq<Dep>, stamps: Stamps) {
    && (policy.Some? ==> |policy.value| + |POLICY_PREFIX| < U64)
    && |target| < U64 && |deps| < U64
    && forall d :: d in deps ==> |d.name| < U64 && |stamps(d.name)| < U64
  }

  ghost function Triples(deps: seq<Dep>, stamps: Stamps): set<(Byte, Bytes, Bytes)> {
    set d | d in deps :: (d.mode, d.name, stamps(d.name))
  }

  ghost predicate EntriesFit(deps: seq<Dep>, stamps: Stamps) {
    forall d :: d in deps ==> |d.name| < U64 && |stamps(d.name)| < U64
  }

  lemma {:induction false} EntriesInjective(a: seq<Dep>, sa: Stamps, b: seq<Dep>, sb: Stamps)
    requires |a| == |b| && EntriesFit(a, sa) && EntriesFit(b, sb)
    requires Entries(a, sa) == Entries(b, sb)
    ensures a == b
    ensures forall d :: d in a ==> sa(d.name) == sb(d.name)
    decreases |a|
  {
    if a != [] {
      assert a[0] in a && b[0] in b;
      EntryPrefix(a[0], sa(a[0].name), Entries(a[1..], sa), b[0], sb(b[0].name), Entries(b[1..], sb));
      EntriesInjective(a[1..], sa, b[1..], sb);
      assert a == [a[0]] + a[1..] && b == [b[0]] + b[1..];
    }
  }

  lemma {:induction false} EntriesCongruent(a: seq<Dep>, sa: Stamps, sb: Stamps)
    requires forall d :: d in a ==> sa(d.name) == sb(d.name)
    ensures Entries(a, sa) == Entries(a, sb)
    decreases |a|
  {
    if a != [] {
      assert a[0] in a;
      EntriesCongruent(a[1..], sa, sb);
    }
  }

  /** The version tag can not be taken for a policy field. */
  lemma PolicySeparated(p: Option<Bytes>, x: Bytes, q: Option<Bytes>, y: Bytes)
    requires p.Some? ==> |p.value| + |POLICY_PREFIX| < U64
    requires q.Some? ==> |q.value| + |POLICY_PREFIX| < U64
    requires PolicyField(p) + (Field(VERSION_TAG) + x) == PolicyField(q) + (Field(VERSION_TAG) + y)
    ensures p == q && x == y
  {
    if p.Some? && q.Some? {
      var a, b := POLICY_PREFIX + p.value, POLICY_PREFIX + q.value;
      FieldPrefix(a, Field(VERSION_TAG) + x, b, Field(VERSION_TAG) + y);
      assert a[|POLICY_PREFIX|..] == p.value && b[|POLICY_PREFIX|..] == q.value;
      FieldPrefix(VERSION_TAG, x, VERSION_TAG, y);
    } else if p.Some? {
      assert PolicyField(q) + (Field(VERSION_TAG) + y) == Field(VERSION_TAG) + y;
      NotPolicy(p.value, Field(VERSION_TAG) + x, y);
    } else if q.Some? {
      assert PolicyField(p) + (Field(VERSION_TAG) + x) == Field(VERSION_TAG) + x;
      NotPolicy(q.value, Field(VERSION_TAG) + y, x);
    } else {
      assert PolicyField(p) + (Field(VERSION_TAG) + x) == Field(VERSION_TAG) + x;
      assert PolicyField(q) + (Field(VERSION_TAG) + y) == Field(VERSION_TAG) + y;
      FieldPrefix(VERSION_TAG, x, VERSION_TAG, y);
    }
  }

  lemma NotPolicy(p: Bytes, x: Bytes, y: Bytes)
    requires |p| + |POLICY_PREFIX| < U64
    ensures Field(POLICY_PREFIX + p) + x != Field(VERSION_TAG) + y
  {
    assert (POLICY_PREFIX + p)[0] == 'p' as int && VERSION_TAG[0] == '0' as int;
    if Field(POLICY_PREFIX + p) + x == Field(VERSION_TAG) + y {
      FieldPrefix(POLICY_PREFIX + p, x, VERSION_TAG, y);
      assert false;
    }
  }

  lemma StreamSplit(policy: Option<Bytes>, target: Bytes, deps: seq<Dep>, stamps: Stamps,
                    policy': Option<Bytes>, target': Bytes, deps': seq<Dep>, stamps': Stamps)
    requires Fits(policy, target, deps, stamps) && Fits(policy', target', deps', stamps')
    requires Stream(policy, target, deps, stamps) == Stream(policy', target', deps', stamps')
    ensures policy == policy' && target == target' && |deps| == |deps'|
    ensures Entries(Sorted(deps), stamps) == Entries(Sorted(deps'), stamps')
  {
    var e, e' := Entries(Sorted(deps), stamps), Entries(Sorted(deps'), stamps');
    var c, c' := Count(|deps|) + e, Count(|deps'|) + e';
    var t, t' := Field(target) + c, Field(target') + c';
    FieldPrefix(KEY_TAG, PolicyField(policy) + (Field(VERSION_TAG) + t), KEY_TAG, PolicyField(policy') + (Field(VERSION_TAG) + t'));
    PolicySeparated(policy, t, policy', t');
    FieldPrefix(target, c, target', c');
    assert c[..8] == Count(|deps|) && c'[..8] == Count(|deps'|);
    CountInjective(|deps|, |deps'|);
    assert c[8..] == e && c'[8..] == e';
  }

  /**
   The key is canonical: two computations hash the same bytes exactly when they
   agree on the policy, the target and the set of (mode, name, stamp).
   */
  lemma CanonicalKey(policy: Option<Bytes>, target: Bytes, deps: seq<Dep>, stamps: Stamps,
                     policy': Option<Bytes>, target': Bytes, deps': seq<Dep>, stamps': Stamps)
    requires Fits(policy, target, deps, stamps) && Fits(policy', target', deps', stamps')
    requires DistinctNames(deps) && DistinctNames(deps')
    ensures Stream(policy, target, deps, stamps) == Stream(policy', target', deps', stamps') <==>
      policy == policy' && target == target' && Triples(deps, stamps) == Triples(deps', stamps')
  {
    SortedIncreasing(deps);
    SortedIncreasing(deps');
    if Stream(policy, target, deps, stamps) == Stream(policy', target', deps', stamps') {
      StreamSplit(policy, target, deps, stamps, policy', target', deps', stamps');
      SortedFit(deps, stamps);
      SortedFit(deps', stamps');
      EntriesInjective(Sorted(deps), stamps, Sorted(deps'), stamps');
      TriplesFromElems(deps, stamps, deps', stamps');
    }
    if Triples(deps, stamps) == Triples(deps', stamps') {
      TriplesToElems(deps, stamps, deps', stamps');
      TriplesToElems(deps', stamps', deps, stamps);
      IncreasingUnique(Sorted(deps), Sorted(deps'));
      forall d | d in Sorted(deps) ensures stamps(d.name) == stamps'(d.name) {
        assert d in Elems(deps);
      }
      EntriesCongruent(Sorted(deps), stamps, stamps');
      assert |deps| == |Sorted(deps)| == |deps'|;
    }
  }

  lemma SortedFit(deps: seq<Dep>, stamps: Stamps)
    requires EntriesFit(deps, stamps)
    ensures EntriesFit(Sorted(deps), stamps)
  {
    SameElems(Sorted(deps), deps);
    forall d | d in Sorted(deps) ensures |d.name| < U64 && |stamps(d.name)| < U64 {
      assert d in Elems(deps);
    }
  }

  lemma TriplesFromElems(a: seq<Dep>, sa: Stamps, b: seq<Dep>, sb: Stamps)
    requires Sorted(a) == Sorted(b) && Elems(Sorted(a)) == Elems(a) && Elems(Sorted(b)) == Elems(b)
    requires forall d :: d in Sorted(a) ==> sa(d.name) == sb(d.name)
    ensures Triples(a, sa) == Triples(b, sb)
  {
    forall d: Dep ensures d in a <==> d in b {
      assert d in Elems(a) <==> d in Elems(b);
    }
    forall d: Dep | d in a ensures sa(d.name) == sb(d.name) {
      assert d in Elems(Sorted(a));
    }
  }

  lemma TriplesToElems(a: seq<Dep>, sa: Stamps, b: seq<Dep>, sb: Stamps)
    requires Triples(a, sa) == Triples(b, sb)
    ensures Elems(a) <= Elems(b)
    ensures forall d :: d in a ==> sa(d.name) == sb(d.name)
  {
    forall d: Dep | d in a
      ensures d in b && sa(d.name) == sb(d.name)
    {
      assert (d.mode, d.name, sa(d.name)) in Triples(b, sb);
      var d' :| d' in b && (d'.mode, d'.name, sb(d'.name)) == (d.mode, d.name, sa(d.name));
      assert d' == d;
    }
  }
}
