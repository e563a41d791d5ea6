/**
 The bounded neighbourhood of a node in the dependency graph (`Graph::subgraph`
 in bins/src/redo_browse.rs): a breadth-first walk over forward edges, reverse
 edges or both, to a given depth.
 */
module Subgraph {
  import opened Common

  datatype Edge = Edge(other: int, mode: char)
  type Adjacency = map<int, seq<Edge>>

  datatype Link = Link(source: int, target: int, mode: char)

  datatype Dir = Forward | Reverse | Both

  // ---------------------------------------------------------------------------
  // Distance
  // ---------------------------------------------------------------------------

  function Edges(adj: Adjacency, id: int): seq<Edge> {
    if id in adj then adj[id] else []
  }

  ghost predicate Steps(adj: Adjacency, a: int, b: int) {
    exists i :: 0 <= i < |Edges(adj, a)| && Edges(adj, a)[i].other == b
  }

  /** A path of `|p| - 1` edges. */
  ghost predicate Path(adj: Adjacency, p: seq<int>, a: int, b: int) {
    && |p| > 0 && p[0] == a && p[|p| - 1] == b
    && forall i :: 0 <= i < |p| - 1 ==> Steps(adj, p[i], p[i + 1])
  }

  ghost predicate Within(adj: Adjacency, a: int, b: int, k: nat) {
    exists p :: Path(adj, p, a, b) && |p| <= k + 1
  }

  /** The shortest path from `a` to `b` has exactly `k` edges. */
  ghost predicate Distance(adj: Adjacency, a: int, b: int, k: nat) {
    Within(adj, a, b, k) && (k > 0 ==> !Within(adj, a, b, k - 1))
  }

  lemma WithinSelf(adj: Adjacency, a: int, k: nat)
    ensures Within(adj, a, a, k)
  {
    assert Path(adj, [a], a, a);
  }

  lemma WithinStep(adj: Adjacency, a: int, b: int, c: int, k: nat)
    requires Within(adj, a, b, k) && Steps(adj, b, c)
    ensures Within(adj, a, c, k + 1)
  {
    var p :| Path(adj, p, a, b) && |p| <= k + 1;
    assert Path(adj, p + [c], a, c);
  }

  /** The last edge of a path. */
  lemma WithinBack(adj: Adjacency, a: int, c: int, k: nat) returns (b: int)
    requires Within(adj, a, c, k) && a != c
    ensures k > 0 && Within(adj, a, b, k - 1) && Steps(adj, b, c)
  {
    var p :| Path(adj, p, a, c) && |p| <= k + 1;
    b := p[|p| - 2];
    assert Steps(adj, p[|p| - 2], p[|p| - 2 + 1]);
    assert Path(adj, p[..|p| - 1], a, b);
  }

  lemma WithinMonotone(adj: Adjacency, a: int, b: int, j: nat, k: nat)
    requires Within(adj, a, b, j) && j <= k
    ensures Within(adj, a, b, k)
  {
  }

  // ---------------------------------------------------------------------------
  // The breadth-first walk
  // ---------------------------------------------------------------------------

  type Queue = seq<(int, nat)>

  ghost predicate InQueue(queue: Queue, x: int) {
    exists i :: 0 <= i < |queue| && queue[i].0 == x
  }

  ghost predicate QueueOk(queue: Queue, dist: map<int, nat>) {
    && (forall i :: 0 <= i < |queue| ==> queue[i].0 in dist && dist[queue[i].0] == queue[i].1)
    && (forall i, j :: 0 <= i < j < |queue| ==> queue[i].1 <= queue[j].1 && queue[i].0 != queue[j].0)
    && (forall i :: 0 <= i < |queue| ==> queue[i].1 <= queue[0].1 + 1)
  }

  /** Every id met has its true distance, within `depth`. */
  ghost predicate DistOk(adj: Adjacency, root: int, depth: nat, dist: map<int, nat>) {
    && root in dist
    && forall x :: x in dist ==> dist[x] <= depth && Distance(adj, root, x, dist[x])
  }

  /** Ids met at distance below `level` have had all their successors met. */
  ghost predicate Expanded(adj: Adjacency, dist: map<int, nat>, level: nat) {
    forall x, y :: x in dist && dist[x] < level && Steps(adj, x, y) ==> y in dist
  }

  lemma {:induction false} BallMet(adj: Adjacency, root: int, depth: nat, dist: map<int, nat>, level: nat, x: int)
    requires DistOk(adj, root, depth, dist) && Expanded(adj, dist, level)
    requires Within(adj, root, x, level)
    ensures x in dist
    decreases level
  {
    if x != root {
      var y := WithinBack(adj, root, x, level);
      assert Expanded(adj, dist, level - 1);
      BallMet(adj, root, depth, dist, level - 1, y);
      if dist[y] >= level {
        assert false;
      }
    }
  }

  /** Scan the edges of one node: the ids not seen before, and the links. */
  method Scan(adj: Adjacency, id: int, seen: set<int>) returns (ids: seq<int>, links: seq<Link>)
    ensures forall x :: x in ids <==> x !in seen && Steps(adj, id, x)
    ensures Distinct(ids) && Elems(ids) <= Universe(adj) && Elems(ids) !! seen
    ensures LinksFrom(adj, id, links)
  {
    ids, links := [], [];
    var edges := Edges(adj, id);
    for n := 0 to |edges|
      invariant forall x :: x in ids <==> x !in seen && exists i :: 0 <= i < n && edges[i].other == x
      invariant Distinct(ids)
      invariant |links| == n
      invariant forall i :: 0 <= i < n ==> links[i] == Link(id, edges[i].other, edges[i].mode)
    {
      links := links + [Link(id, edges[n].other, edges[n].mode)];
      if edges[n].other !in seen && edges[n].other !in ids {
        ids := ids + [edges[n].other];
      }
    }
    ScanLinks(adj, id, links);
    InUniverse(adj, id, ids);
  }

  /** Exactly the edges of one node. */
  ghost predicate LinksFrom(adj: Adjacency, id: int, links: seq<Link>) {
    forall l :: l in links <==> l.source == id && Edge(l.target, l.mode) in Edges(adj, id)
  }

  function Stamp(ids: seq<int>, d: nat): Queue {
    seq(|ids|, i requires 0 <= i < |ids| => (ids[i], d))
  }

  ghost function Extend(dist: map<int, nat>, ids: seq<int>, d: nat): map<int, nat> {
    map x | x in dist.Keys + Elems(ids) :: if x in dist then dist[x] else d
  }

  /** Newly met ids lie exactly one step further than the node being expanded. */
  lemma ExtendDist(adj: Adjacency, root: int, depth: nat, dist: map<int, nat>, id: int, d: nat, ids: seq<int>)
    requires DistOk(adj, root, depth, dist) && Expanded(adj, dist, d) && id in dist && dist[id] == d < depth
    requires forall x :: x in ids ==> x !in dist && Steps(adj, id, x)
    ensures DistOk(adj, root, depth, Extend(dist, ids, d + 1))
  {
    forall x | x in ids
      ensures Distance(adj, root, x, d + 1)
    {
      WithinStep(adj, root, id, x, d);
      if Within(adj, root, x, d) {
        BallMet(adj, root, depth, dist, d, x);
      }
    }
  }

  /** What the finished and the pending part of the walk amount to. */
  ghost predicate WalkInv(adj: Adjacency, root: int, depth: nat, dist: map<int, nat>, queue: Queue, links: seq<Link>) {
    && DistOk(adj, root, depth, dist)
    && QueueOk(queue, dist)
    && DoneOk(adj, depth, dist, queue)
    && LinksOk(adj, depth, dist, queue, links)
  }

  /** Ids taken off the queue below the limit have had their successors met. */
  ghost predicate DoneOk(adj: Adjacency, depth: nat, dist: map<int, nat>, queue: Queue) {
    forall x, y :: x in dist && !InQueue(queue, x) && dist[x] < depth && Steps(adj, x, y) ==> y in dist
  }

  /** The links so far: the edges of the expanded nodes. */
  ghost predicate LinksOk(adj: Adjacency, depth: nat, dist: map<int, nat>, queue: Queue, links: seq<Link>) {
    forall l :: l in links <==>
      && l.source in dist && !InQueue(queue, l.source) && dist[l.source] < depth
      && Edge(l.target, l.mode) in Edges(adj, l.source)
  }

  lemma FrontExpanded(adj: Adjacency, root: int, depth: nat, dist: map<int, nat>, queue: Queue, links: seq<Link>)
    requires WalkInv(adj, root, depth, dist, queue, links) && queue != []
    ensures Expanded(adj, dist, Min(queue[0].1, depth))
  {
    forall x, y | x in dist && dist[x] < Min(queue[0].1, depth) && Steps(adj, x, y)
      ensures y in dist
    {
      if InQueue(queue, x) {
        assert false;
      }
    }
  }

  /** Popping a node at the depth limit. */
  lemma PopAtLimit(adj: Adjacency, root: int, depth: nat, dist: map<int, nat>, queue: Queue, links: seq<Link>)
    requires WalkInv(adj, root, depth, dist, queue, links) && queue != [] && queue[0].1 >= depth
    ensures WalkInv(adj, root, depth, dist, queue[1..], links)
  {
    PopQueue(queue, dist);
  }

  lemma PopQueue(queue: Queue, dist: map<int, nat>)
    requires QueueOk(queue, dist) && queue != []
    ensures QueueOk(queue[1..], dist)
    ensures forall x :: InQueue(queue[1..], x) <==> InQueue(queue, x) && x != queue[0].0
  {
    var rest := queue[1..];
    forall x: int
      ensures InQueue(rest, x) <==> InQueue(queue, x) && x != queue[0].0
    {
      if InQueue(rest, x) {
        var i :| 0 <= i < |rest| && rest[i].0 == x;
        assert queue[i + 1].0 == x;
      }
      if InQueue(queue, x) && x != queue[0].0 {
        var i :| 0 <= i < |queue| && queue[i].0 == x;
        assert rest[i - 1].0 == x;
      }
    }
  }

  lemma PushQueue(queue: Queue, dist: map<int, nat>, ids: seq<int>, d: nat)
    requires QueueOk(queue, dist)
    requires forall i :: 0 <= i < |queue| ==> d <= queue[i].1 <= d + 1
    requires forall x :: x in ids ==> x !in dist
    requires Distinct(ids)
    ensures QueueOk(queue + Stamp(ids, d + 1), Extend(dist, ids, d + 1))
  {
    var q, e := queue + Stamp(ids, d + 1), Extend(dist, ids, d + 1);
    forall i | 0 <= i < |q|
      ensures q[i].0 in e && e[q[i].0] == q[i].1 && d <= q[i].1 <= d + 1
    {
      if i >= |queue| {
        assert ids[i - |queue|] in ids;
      }
    }
    forall i, j | 0 <= i < j < |q|
      ensures q[i].1 <= q[j].1 && q[i].0 != q[j].0
    {
      if j >= |queue| {
        assert ids[j - |queue|] in ids;
      }
    }
  }

  lemma PushMembers(queue: Queue, ids: seq<int>, d: nat, x: int)
    ensures InQueue(queue + Stamp(ids, d), x) <==> InQueue(queue, x) || x in ids
  {
    var q := queue + Stamp(ids, d);
    if InQueue(queue, x) {
      var i :| 0 <= i < |queue| && queue[i].0 == x;
      assert q[i].0 == x;
    }
    if x in ids {
      var i :| 0 <= i < |ids| && ids[i] == x;
      assert q[|queue| + i].0 == x;
    }
    if InQueue(q, x) {
      var i :| 0 <= i < |q| && q[i].0 == x;
      if i < |queue| { assert queue[i].0 == x; } else { assert ids[i - |queue|] == x; }
    }
  }

  /** Which ids are done once the front node has been expanded. */
  ghost predicate FrontDone(dist: map<int, nat>, queue: Queue, dist': map<int, nat>, queue': Queue)
    requires queue != []
  {
    && (forall x :: x in dist ==> x in dist' && dist'[x] == dist[x])
    && (forall x :: x in dist' && !InQueue(queue', x) <==> x in dist && (!InQueue(queue, x) || x == queue[0].0))
  }

  lemma ExpandMembers(dist: map<int, nat>, queue: Queue, ids: seq<int>)
    requires QueueOk(queue, dist) && queue != [] && forall x :: x in ids ==> x !in dist
    ensures FrontDone(dist, queue, Extend(dist, ids, queue[0].1 + 1), queue[1..] + Stamp(ids, queue[0].1 + 1))
  {
    var queue' := queue[1..] + Stamp(ids, queue[0].1 + 1);
    PopQueue(queue, dist);
    forall x: int ensures InQueue(queue', x) <==> InQueue(queue[1..], x) || x in ids {
      PushMembers(queue[1..], ids, queue[0].1 + 1, x);
    }
  }

  lemma ExpandDone(adj: Adjacency, depth: nat, dist: map<int, nat>, queue: Queue, dist': map<int, nat>, queue': Queue)
    requires queue != [] && DoneOk(adj, depth, dist, queue) && FrontDone(dist, queue, dist', queue')
    requires forall x :: Steps(adj, queue[0].0, x) ==> x in dist'
    ensures DoneOk(adj, depth, dist', queue')
  {
    forall x, y | x in dist' && !InQueue(queue', x) && dist'[x] < depth && Steps(adj, x, y)
      ensures y in dist'
    {
      assert x in dist;
    }
  }

  /** Expanding the node at the front of the queue. */
  lemma ExpandFront(adj: Adjacency, root: int, depth: nat, dist: map<int, nat>, queue: Queue, links: seq<Link>,
                    ids: seq<int>, more: seq<Link>)
    requires WalkInv(adj, root, depth, dist, queue, links) && queue != [] && queue[0].1 < depth
    requires forall x :: x in ids <==> x !in dist && Steps(adj, queue[0].0, x)
    requires Distinct(ids)
    requires LinksFrom(adj, queue[0].0, more)
    ensures WalkInv(adj, root, depth, Extend(dist, ids, queue[0].1 + 1), queue[1..] + Stamp(ids, queue[0].1 + 1), links + more)
  {
    var id, d := queue[0].0, queue[0].1;
    var dist', queue' := Extend(dist, ids, d + 1), queue[1..] + Stamp(ids, d + 1);
    FrontExpanded(adj, root, depth, dist, queue, links);
    ExtendDist(adj, root, depth, dist, id, d, ids);
    PopQueue(queue, dist);
    PushQueue(queue[1..], dist, ids, d);
    ExpandMembers(dist, queue, ids);
    ExpandDone(adj, depth, dist, queue, dist', queue');
    ExpandLinks(adj, depth, dist, queue, links, dist', queue', more);
  }

  lemma ExpandLinks(adj: Adjacency, depth: nat, dist: map<int, nat>, queue: Queue, links: seq<Link>,
                    dist': map<int, nat>, queue': Queue, more: seq<Link>)
    requires LinksOk(adj, depth, dist, queue, links) && queue != [] && QueueOk(queue, dist) && queue[0].1 < depth
    requires FrontDone(dist, queue, dist', queue')
    requires LinksFrom(adj, queue[0].0, more)
    ensures LinksOk(adj, depth, dist', queue', links + more)
  {
    assert InQueue(queue, queue[0].0);
    forall l: Link
      ensures l in links + more <==>
        && l.source in dist' && !InQueue(queue', l.source) && dist'[l.source] < depth
        && Edge(l.target, l.mode) in Edges(adj, l.source)
    {
      assert l in links + more <==> l in links || l in more;
    }
  }

  lemma InitWalk(adj: Adjacency, root: int, depth: nat)
    ensures WalkInv(adj, root, depth, map[root := 0], [(root, 0)], [])
  {
    WithinSelf(adj, root, 0);
    var queue: Queue := [(root, 0)];
    assert InQueue(queue, root) by { assert queue[0].0 == root; }
  }

  lemma Shrinks(universe: set<int>, seen: set<int>, ids: seq<int>, dist': map<int, nat>, dist: map<int, nat>)
    requires dist.Keys == seen && dist'.Keys == dist.Keys + Elems(ids)
    requires seen <= universe && Elems(ids) <= universe && Elems(ids) !! seen
    ensures ids != [] ==> universe - (seen + Elems(ids)) < universe - seen
    ensures ids == [] ==> seen + Elems(ids) == seen
    ensures dist'.Keys == seen + Elems(ids) <= universe
  {
    if ids != [] {
      var x := ids[0];
      assert x in ids && x in Elems(ids);
      assert x in universe - seen && x !in universe - (seen + Elems(ids));
    }
  }

  /** One traversal: the ids within `depth`, and the edges leaving ids nearer than that. */
  method Traverse(adj: Adjacency, root: int, depth: nat) returns (nodes: set<int>, links: seq<Link>)
    ensures forall x :: x in nodes <==> Within(adj, root, x, depth)
    ensures forall l :: l in links <==>
      (exists k :: 0 <= k < depth && Distance(adj, root, l.source, k)) && Edge(l.target, l.mode) in Edges(adj, l.source)
  {
    nodes, links := {root}, [];
    var queue: Queue := [(root, 0)];
    var seen := {root};
    ghost var dist: map<int, nat> := map[root := 0];
    InitWalk(adj, root, depth);
    ghost var universe := Universe(adj) + {root};
    while queue != []
      invariant dist.Keys == seen == nodes
      invariant WalkInv(adj, root, depth, dist, queue, links)
      invariant seen <= universe
      decreases universe - seen, |queue|
    {
      var id, d := queue[0].0, queue[0].1;
      if d >= depth {
        PopAtLimit(adj, root, depth, dist, queue, links);
        queue := queue[1..];
        continue;
      }
      var ids, more := Scan(adj, id, seen);
      ExpandFront(adj, root, depth, dist, queue, links, ids, more);
      Shrinks(universe, seen, ids, Extend(dist, ids, d + 1), dist);
      links := links + more;
      nodes := nodes + Elems(ids);
      queue := queue[1..] + Stamp(ids, d + 1);
      dist := Extend(dist, ids, d + 1);
      seen := seen + Elems(ids);
    }
    Finished(adj, root, depth, dist, links);
  }

  ghost function Universe(adj: Adjacency): set<int> {
    set id, i | id in adj && 0 <= i < |adj[id]| :: adj[id][i].other
  }

  lemma InUniverse(adj: Adjacency, id: int, ids: seq<int>)
    requires forall x :: x in ids ==> exists i :: 0 <= i < |Edges(adj, id)| && Edges(adj, id)[i].other == x
    ensures Elems(ids) <= Universe(adj)
  {
    forall x | x in ids ensures x in Universe(adj) {
      var i :| 0 <= i < |Edges(adj, id)| && Edges(adj, id)[i].other == x;
    }
  }

  lemma ScanLinks(adj: Adjacency, id: int, more: seq<Link>)
    requires |more| == |Edges(adj, id)|
    requires forall i :: 0 <= i < |more| ==> more[i] == Link(id, Edges(adj, id)[i].other, Edges(adj, id)[i].mode)
    ensures LinksFrom(adj, id, more)
  {
    forall l: Link
      ensures l in more <==> l.source == id && Edge(l.target, l.mode) in Edges(adj, id)
    {
      if l.source == id && Edge(l.target, l.mode) in Edges(adj, id) {
        var i :| 0 <= i < |Edges(adj, id)| && Edges(adj, id)[i] == Edge(l.target, l.mode);
        assert more[i] == l;
      }
    }
  }

  lemma Finished(adj: Adjacency, root: int, depth: nat, dist: map<int, nat>, links: seq<Link>)
    requires WalkInv(adj, root, depth, dist, [], links)
    ensures forall x :: x in dist <==> Within(adj, root, x, depth)
    ensures forall l :: l in links <==>
      (exists k :: 0 <= k < depth && Distance(adj, root, l.source, k)) && Edge(l.target, l.mode) in Edges(adj, l.source)
  {
    assert Expanded(adj, dist, depth);
    forall x: int ensures x in dist <==> Within(adj, root, x, depth) {
      if x in dist { WithinMonotone(adj, root, x, dist[x], depth); }
      if Within(adj, root, x, depth) { BallMet(adj, root, depth, dist, depth, x); }
    }
    forall x: int
      ensures x in dist && dist[x] < depth <==> exists k :: 0 <= k < depth && Distance(adj, root, x, k)
    {
      if k :| 0 <= k < depth && Distance(adj, root, x, k) {
        WithinMonotone(adj, root, x, k, depth);
        DistanceUnique(adj, root, x, k, dist[x]);
      }
    }
  }

  lemma DistanceUnique(adj: Adjacency, a: int, b: int, j: nat, k: nat)
    requires Distance(adj, a, b, j) && Distance(adj, a, b, k)
    ensures j == k
  {
  }

  // ---------------------------------------------------------------------------
  // Sorting and removing duplicate links
  // ---------------------------------------------------------------------------

  predicate SamePair(a: Link, b: Link) {
    a.source == b.source && a.target == b.target
  }

  predicate Before(a: Link, b: Link) {
    a.source < b.source || (a.source == b.source && a.target < b.target)
  }

  function InsertLink(l: Link, s: seq<Link>): (r: seq<Link>)
    ensures forall x :: x in r <==> x == l || x in s
  {
    if s == [] || Before(l, s[0]) then [l] + s else [s[0]] + InsertLink(l, s[1..])
  }

  /** `links.sort_by((source, target))`. */
  function SortLinks(s: seq<Link>): (r: seq<Link>)
    ensures forall x :: x in r <==> x in s
  {
    if s == [] then []
    else
      var n := |s| - 1;
      assert forall x :: x in s <==> x in s[..n] || x == s[n];
      InsertLink(s[n], SortLinks(s[..n]))
  }

  /** `links.dedup_by(same pair)`: the first of each run stays. */
  function Dedup(s: seq<Link>): (r: seq<Link>)
    ensures s != [] ==> r != [] && r[0] == s[0]
  {
    if s == [] then []
    else
      var r := Dedup(s[1..]);
      [s[0]] + (if r != [] && SamePair(r[0], s[0]) then r[1..] else r)
  }

  lemma {:induction false} DedupMembers(s: seq<Link>, x: Link)
    ensures x in Dedup(s) ==> x in s
    ensures x in s ==> HasPair(Dedup(s), x.source, x.target)
    decreases |s|
  {
    if s != [] {
      var r := Dedup(s[1..]);
      DedupMembers(s[1..], x);
      assert s == [s[0]] + s[1..];
      assert x in s <==> x == s[0] || x in s[1..];
      assert s[0] in Dedup(s);
      if x in s[1..] {
        var y :| y in r && y.source == x.source && y.target == x.target;
        var i :| 0 <= i < |r| && r[i] == y;
        if r != [] && SamePair(r[0], s[0]) {
          assert i > 0 ==> r[1..][i - 1] == y;
          assert i > 0 ==> y in Dedup(s);
        } else {
          assert y in Dedup(s);
        }
      }
    }
  }

  ghost predicate Ordered(s: seq<Link>) {
    forall i, j :: 0 <= i < j < |s| ==> !Before(s[j], s[i])
  }

  ghost predicate StrictlyOrdered(s: seq<Link>) {
    forall i, j :: 0 <= i < j < |s| ==> Before(s[i], s[j])
  }

  lemma {:induction false} InsertOrdered(l: Link, s: seq<Link>)
    requires Ordered(s)
    ensures Ordered(InsertLink(l, s))
    decreases |s|
  {
    if s != [] && !Before(l, s[0]) {
      InsertOrdered(l, s[1..]);
      var r := InsertLink(l, s[1..]);
      forall j | 0 <= j < |r| ensures !Before(r[j], s[0]) {
        assert r[j] == l || r[j] in s[1..];
      }
    }
  }

  lemma {:induction false} SortOrdered(s: seq<Link>)
    ensures Ordered(SortLinks(s))
    decreases |s|
  {
    if s != [] {
      SortOrdered(s[..|s| - 1]);
      InsertOrdered(s[|s| - 1], SortLinks(s[..|s| - 1]));
    }
  }

  lemma {:induction false} DedupStrict(s: seq<Link>)
    requires Ordered(s)
    ensures StrictlyOrdered(Dedup(s))
    decreases |s|
  {
    if s != [] {
      DedupStrict(s[1..]);
      var r := Dedup(s[1..]);
      if r != [] {
        var rest := if SamePair(r[0], s[0]) then r[1..] else r;
        forall j | 0 <= j < |rest|
          ensures Before(s[0], rest[j])
        {
          DedupMembers(s[1..], rest[j]);
          assert rest[j] in s[1..];
          assert r[0] in s[1..] by { DedupMembers(s[1..], r[0]); }
        }
        StrictCons(s[0], rest);
      }
    }
  }

  lemma StrictCons(l: Link, s: seq<Link>)
    requires StrictlyOrdered(s) && forall j :: 0 <= j < |s| ==> Before(l, s[j])
    ensures StrictlyOrdered([l] + s)
  {
  }

  // ---------------------------------------------------------------------------
  // The whole query
  // ---------------------------------------------------------------------------

  /** An edge leaving an id nearer to the root than `depth`. */
  ghost predicate NearEdge(adj: Adjacency, root: int, depth: nat, a: int, b: int) {
    (exists k :: 0 <= k < depth && Distance(adj, root, a, k)) && Steps(adj, a, b)
  }

  function Flip(links: seq<Link>): (r: seq<Link>)
    ensures |r| == |links|
    ensures forall i :: 0 <= i < |r| ==> r[i] == Link(links[i].target, links[i].source, links[i].mode)
  {
    seq(|links|, i requires 0 <= i < |links| => Link(links[i].target, links[i].source, links[i].mode))
  }

  ghost predicate HasPair(links: seq<Link>, a: int, b: int) {
    exists l :: l in links && l.source == a && l.target == b
  }

  lemma PairsOfTraversal(adj: Adjacency, root: int, depth: nat, links: seq<Link>, a: int, b: int)
    requires forall l :: l in links <==>
      (exists k :: 0 <= k < depth && Distance(adj, root, l.source, k)) && Edge(l.target, l.mode) in Edges(adj, l.source)
    ensures HasPair(links, a, b) <==> NearEdge(adj, root, depth, a, b)
    ensures HasPair(Flip(links), b, a) <==> NearEdge(adj, root, depth, a, b)
  {
    if NearEdge(adj, root, depth, a, b) {
      var i :| 0 <= i < |Edges(adj, a)| && Edges(adj, a)[i].other == b;
      assert Edges(adj, a)[i] in Edges(adj, a);
      assert Link(a, b, Edges(adj, a)[i].mode) in links;
    }
    if HasPair(links, a, b) {
      var l :| l in links && l.source == a && l.target == b;
      var i :| 0 <= i < |Edges(adj, a)| && Edges(adj, a)[i] == Edge(l.target, l.mode);
      var j :| 0 <= j < |links| && links[j] == l;
      assert Flip(links)[j] == Link(b, a, l.mode);
      assert Link(b, a, l.mode) in Flip(links);
    }
    if HasPair(Flip(links), b, a) {
      var l :| l in Flip(links) && l.source == b && l.target == a;
      var j :| 0 <= j < |links| && Flip(links)[j] == l;
      assert links[j] in links;
    }
  }

  lemma PairsKept(links: seq<Link>, a: int, b: int)
    ensures HasPair(Dedup(SortLinks(links)), a, b) <==> HasPair(links, a, b)
  {
    if HasPair(links, a, b) {
      var l :| l in links && l.source == a && l.target == b;
      DedupMembers(SortLinks(links), l);
    }
    if HasPair(Dedup(SortLinks(links)), a, b) {
      var l :| l in Dedup(SortLinks(links)) && l.source == a && l.target == b;
      DedupMembers(SortLinks(links), l);
      assert l in links;
    }
  }

  /**
   `subgraph`: the ids within `depth` of the root in the chosen directions and
   the edges leaving ids nearer than `depth`, each (source, target) once and in
   order; an unknown root is an error.
   */
  method SubgraphOf(idByName: map<string, int>, forward: Adjacency, reverse: Adjacency,
                    rootName: string, depth: nat, dir: Dir)
    returns (found: bool, nodes: set<int>, links: seq<Link>)
    ensures found <==> rootName in idByName
    ensures found ==> forall x :: x in nodes <==>
      || (dir != Reverse && Within(forward, idByName[rootName], x, depth))
      || (dir != Forward && Within(reverse, idByName[rootName], x, depth))
    ensures found ==> forall a, b :: HasPair(links, a, b) <==>
      || (dir != Reverse && NearEdge(forward, idByName[rootName], depth, a, b))
      || (dir != Forward && NearEdge(reverse, idByName[rootName], depth, b, a))
    ensures StrictlyOrdered(links)
  {
    nodes, links := {}, [];
    if rootName !in idByName {
      return false, {}, [];
    }
    found := true;
    var root := idByName[rootName];
    if dir != Reverse {
      var fl;
      nodes, fl := Traverse(forward, root, depth);
      forall a, b ensures HasPair(fl, a, b) <==> NearEdge(forward, root, depth, a, b) {
        PairsOfTraversal(forward, root, depth, fl, a, b);
      }
      links := fl;
    }
    ghost var fwd := links;
    if dir != Forward {
      var rn, rl := Traverse(reverse, root, depth);
      forall a, b ensures HasPair(Flip(rl), a, b) <==> NearEdge(reverse, root, depth, b, a) {
        PairsOfTraversal(reverse, root, depth, rl, b, a);
      }
      forall a, b ensures HasPair(fwd + Flip(rl), a, b) <==> HasPair(fwd, a, b) || HasPair(Flip(rl), a, b) {
        assert forall l :: l in fwd + Flip(rl) <==> l in fwd || l in Flip(rl);
      }
      nodes := nodes + rn;
      links := links + Flip(rl);
    }
    ghost var all := links;
    forall a, b ensures HasPair(Dedup(SortLinks(all)), a, b) <==> HasPair(all, a, b) {
      PairsKept(all, a, b);
    }
    SortOrdered(links);
    DedupStrict(SortLinks(links));
    links := Dedup(SortLinks(links));
  }
}
