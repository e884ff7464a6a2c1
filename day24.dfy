/** Day 24: a robot in an air duct maze must visit every numbered location,
    starting from location 0. The open cells form a graph; a breadth-first
    search measures the fewest steps between two locations, and the answer is
    the cheapest order of the targets: from the origin through every target
    (part one), and back to the origin as well (part two). */
module Day24 {
  import opened Wrappers
  import opened Lib
  import opened Compass
  import opened Orderings

  /** The open cells, each with the open cells next to it */
  type Graph = map<Point, seq<Point>>

  /** `Game`: the maze graph, the numbered locations other than 0 (a `HashSet`,
      listed here in its iteration order, so without repetitions) and the
      location 0 */
  datatype Game = Game(graph: Graph, targets: seq<Point>, origin: Point)

  /** The neighbours of `p`; a point without an entry has none */
  function Adj(graph: Graph, p: Point): seq<Point> {
    if p in graph then graph[p] else []
  }

  // ---------------------------------------------------------------------------
  // Walks

  /** Consecutive points are neighbours */
  ghost predicate IsWalk(graph: Graph, p: seq<Point>) {
    |p| > 0 && forall k :: 0 <= k < |p| - 1 ==> p[k + 1] in Adj(graph, p[k])
  }

  /** A walk of `steps` steps from `a` to `b` */
  ghost predicate Walk(graph: Graph, p: seq<Point>, a: Point, b: Point, steps: nat) {
    IsWalk(graph, p) && p[0] == a && |p| == steps + 1 && p[|p| - 1] == b
  }

  /** `d` is the fewest steps of any walk from `a` to `b` */
  ghost predicate Shortest(graph: Graph, a: Point, b: Point, d: nat) {
    (exists p :: Walk(graph, p, a, b, d)) &&
    forall p :: IsWalk(graph, p) && p[0] == a && p[|p| - 1] == b ==> d <= |p| - 1
  }

  /** No walk from `a` reaches `b` */
  ghost predicate Unreachable(graph: Graph, a: Point, b: Point) {
    forall p :: IsWalk(graph, p) && p[0] == a ==> p[|p| - 1] != b
  }

  /** The fewest steps between two points, when there are any, is one number */
  lemma ShortestUnique(graph: Graph, a: Point, b: Point, d: nat, e: nat)
    requires Shortest(graph, a, b, d) && Shortest(graph, a, b, e)
    ensures d == e
  {
    var p :| Walk(graph, p, a, b, d);
    var q :| Walk(graph, q, a, b, e);
  }

  /** `start` and every neighbour listed have entries of their own, as in a
      graph where every open cell has an open neighbour */
  ghost predicate Complete(graph: Graph, start: Point) {
    start in graph && forall p, q :: p in graph && q in graph[p] ==> q in graph
  }

  /** In a complete graph every walk from the start stays on points with entries */
  lemma CompleteWalk(graph: Graph, start: Point, p: seq<Point>)
    requires Complete(graph, start) && IsWalk(graph, p) && p[0] == start
    ensures p[|p| - 1] in graph
  {
    var i := 0;
    while i < |p| - 1
      invariant 0 <= i < |p| && p[i] in graph
    {
      assert p[i + 1] in graph[p[i]];
      i := i + 1;
    }
  }

  // ---------------------------------------------------------------------------
  // The search

  /** A frontier entry: a point and the steps taken to reach it */
  datatype Entry = Entry(point: Point, length: nat)

  /** The points the search can ever hold: the start and every listed neighbour */
  ghost function Nodes(graph: Graph, start: Point): set<Point> {
    {start} + set p, q | p in graph && q in graph[p] :: q
  }

  /** The number of leading entries whose points are visited already; with the
      unvisited points it measures how far the search is from its end */
  function Settled(frontier: seq<Entry>, visited: set<Point>): nat {
    if |frontier| == 0 || frontier[0].point !in visited then 0
    else 1 + Settled(frontier[1..], visited)
  }

  /** Entries of unvisited points behind the frontier leave its settled front
      as it was */
  lemma {:induction false} SettledAppend(frontier: seq<Entry>, more: seq<Entry>, visited: set<Point>)
    requires forall k :: 0 <= k < |more| ==> more[k].point !in visited
    ensures Settled(frontier + more, visited) == Settled(frontier, visited)
  {
    if |frontier| == 0 {
      assert frontier + more == more;
    } else {
      assert (frontier + more)[1..] == frontier[1..] + more;
      SettledAppend(frontier[1..], more, visited);
    }
  }

  /** The steps of the walk recorded for a visited point */
  ghost function Dist(known: map<Point, seq<Point>>, v: Point): int
    requires v in known
  {
    |known[v]| - 1
  }

  /** `t` is in the frontier with at most `s` steps */
  ghost predicate Queues(frontier: seq<Entry>, t: Point, s: int) {
    exists k :: 0 <= k < |frontier| && frontier[k].point == t && frontier[k].length <= s
  }

  /** Some entry has at most `s` steps */
  ghost predicate Waiting(frontier: seq<Entry>, s: int) {
    exists k :: 0 <= k < |frontier| && frontier[k].length <= s
  }

  /** Every entry carries a walk from the start of its length to its point */
  ghost predicate Tracked(graph: Graph, start: Point, frontier: seq<Entry>, trails: seq<seq<Point>>) {
    |trails| == |frontier| &&
    forall k :: 0 <= k < |frontier| ==> Walk(graph, trails[k], start, frontier[k].point, frontier[k].length)
  }

  /** Every visited point carries a walk from the start to it */
  ghost predicate Known(graph: Graph, start: Point, known: map<Point, seq<Point>>) {
    forall v :: v in known ==> IsWalk(graph, known[v]) && known[v][0] == start && known[v][|known[v]| - 1] == v
  }

  /** The frontier is in order of length, within one step of the last popped
      length, and no visited point was reached above that length */
  ghost predicate Leveled(frontier: seq<Entry>, known: map<Point, seq<Point>>, level: nat) {
    (forall k :: 0 <= k < |frontier| ==> level <= frontier[k].length <= level + 1) &&
    (forall i, j :: 0 <= i < j < |frontier| ==> frontier[i].length <= frontier[j].length) &&
    (forall v :: v in known ==> Dist(known, v) <= level)
  }

  /** Every neighbour of a visited point was visited no later than one step
      after it, or waits in the frontier with at most one step more */
  ghost predicate Closed(graph: Graph, known: map<Point, seq<Point>>, frontier: seq<Entry>) {
    forall v, t :: v in known && t in Adj(graph, v) ==> Covered(known, frontier, v, t)
  }

  /** `t` was visited no later than one step after the visited `v`, or waits
      with at most one step more */
  ghost predicate Covered(known: map<Point, seq<Point>>, frontier: seq<Entry>, v: Point, t: Point)
    requires v in known
  {
    (t in known && Dist(known, t) <= Dist(known, v) + 1) || Queues(frontier, t, Dist(known, v) + 1)
  }

  /** The start is visited with no steps, or waits with none */
  ghost predicate Seeded(start: Point, known: map<Point, seq<Point>>, frontier: seq<Entry>) {
    (start in known && Dist(known, start) <= 0) || Queues(frontier, start, 0)
  }

  /** The loop invariant of `compute_distance` */
  ghost predicate Inv(graph: Graph, start: Point, end: Point, frontier: seq<Entry>, visited: set<Point>,
                      trails: seq<seq<Point>>, known: map<Point, seq<Point>>, level: nat)
  {
    Tracked(graph, start, frontier, trails) && known.Keys == visited && Known(graph, start, known) &&
    Leveled(frontier, known, level) && Closed(graph, known, frontier) && Seeded(start, known, frontier) &&
    end !in visited
  }

  /** A walk from the start that ends outside the visited points has an entry in
      the frontier with no more steps than the walk */
  lemma Frontier(graph: Graph, start: Point, known: map<Point, seq<Point>>, frontier: seq<Entry>, p: seq<Point>)
    requires Closed(graph, known, frontier) && Seeded(start, known, frontier)
    requires IsWalk(graph, p) && p[0] == start && p[|p| - 1] !in known
    ensures Waiting(frontier, |p| - 1)
  {
    var i := 0;
    while p[i] in known && Dist(known, p[i]) <= i
      invariant 0 <= i < |p|
      invariant (p[i] in known && Dist(known, p[i]) <= i) || Queues(frontier, p[i], i)
      decreases |p| - i
    {
      assert p[i + 1] in Adj(graph, p[i]);
      if !(p[i + 1] in known && Dist(known, p[i + 1]) <= Dist(known, p[i]) + 1) {
        var k :| 0 <= k < |frontier| && frontier[k].point == p[i + 1] && frontier[k].length <= Dist(known, p[i]) + 1;
        assert Queues(frontier, p[i + 1], i + 1);
      }
      i := i + 1;
    }
    var k :| 0 <= k < |frontier| && frontier[k].point == p[i] && frontier[k].length <= i;
    assert Waiting(frontier, |p| - 1);
  }

  /** `compute_distance`: a breadth-first search from `start` with a FIFO
      frontier, marking a point visited when it is popped. It answers the fewest
      steps of any walk to `end` (0 when the two are the same point). Where the
      source panics it answers `None`: either no walk reaches `end`
      (`unreachable!()`), or the search reached a point without an entry in the
      graph (its lookup fails); in a complete graph only the first can happen. */
  method ComputeDistance(graph: Graph, start: Point, end: Point) returns (r: Option<nat>, ghost path: seq<Point>)
    ensures start == end ==> r == Some(0)
    ensures r.Some? ==> Walk(graph, path, start, end, r.value) && Shortest(graph, start, end, r.value)
    ensures r.None? ==>
              Unreachable(graph, start, end) || (IsWalk(graph, path) && path[0] == start && path[|path| - 1] !in graph)
    ensures Complete(graph, start) ==> (r.None? <==> Unreachable(graph, start, end))
  {
    var frontier := [Entry(start, 0)];
    var visited: set<Point> := {};
    ghost var trails := [[start]];
    ghost var known: map<Point, seq<Point>> := map[];
    ghost var level := 0;
    ghost var nodes := Nodes(graph, start);
    Init(graph, start, end);
    while |frontier| > 0
      invariant Inv(graph, start, end, frontier, visited, trails, known, level)
      invariant nodes == Nodes(graph, start) && InNodes(frontier, nodes)
      invariant start == end ==> frontier == [Entry(start, 0)]
      decreases |nodes - visited|, Settled(frontier, visited)
    {
      var current := frontier[0];
      ghost var trail := trails[0];
      if current.point == end {
        Found(graph, start, end, frontier, visited, trails, known, level);
        return Some(current.length), trail;
      }
      if current.point !in graph {
        Missing(graph, start, end, frontier, visited, trails, known, level);
        return None, trail;
      }
      ghost var before := frontier;
      frontier, visited, trails, known := Expand(graph, start, end, nodes, frontier, visited, trails, known, level);
      level := before[0].length;
    }
    Exhausted(graph, start, end, visited, trails, known, level);
    return None, [];
  }

  /** The search starts with the start in the frontier and nothing visited */
  lemma Init(graph: Graph, start: Point, end: Point)
    ensures Inv(graph, start, end, [Entry(start, 0)], {}, [[start]], map[], 0)
  {
    assert [Entry(start, 0)][0].point == start;
  }

  /** A popped point without an entry was reached by a walk from the start, so
      the graph is not complete */
  lemma Missing(graph: Graph, start: Point, end: Point, frontier: seq<Entry>, visited: set<Point>,
                trails: seq<seq<Point>>, known: map<Point, seq<Point>>, level: nat)
    requires Inv(graph, start, end, frontier, visited, trails, known, level)
    requires |frontier| > 0 && frontier[0].point !in graph
    ensures IsWalk(graph, trails[0]) && trails[0][0] == start && trails[0][|trails[0]| - 1] !in graph
    ensures !Complete(graph, start)
  {
    if Complete(graph, start) {
      CompleteWalk(graph, start, trails[0]);
    }
  }

  /** When the end is popped, its length is the fewest steps of any walk to it */
  lemma Found(graph: Graph, start: Point, end: Point, frontier: seq<Entry>, visited: set<Point>,
              trails: seq<seq<Point>>, known: map<Point, seq<Point>>, level: nat)
    requires Inv(graph, start, end, frontier, visited, trails, known, level)
    requires |frontier| > 0 && frontier[0].point == end
    ensures Walk(graph, trails[0], start, end, frontier[0].length) && Shortest(graph, start, end, frontier[0].length)
    ensures !Unreachable(graph, start, end)
  {
    forall p | IsWalk(graph, p) && p[0] == start && p[|p| - 1] == end
      ensures frontier[0].length <= |p| - 1
    {
      Frontier(graph, start, known, frontier, p);
    }
  }

  /** When the frontier runs dry, no walk reaches the end */
  lemma Exhausted(graph: Graph, start: Point, end: Point, visited: set<Point>,
                  trails: seq<seq<Point>>, known: map<Point, seq<Point>>, level: nat)
    requires Inv(graph, start, end, [], visited, trails, known, level)
    ensures Unreachable(graph, start, end)
  {
    forall p | IsWalk(graph, p) && p[0] == start
      ensures p[|p| - 1] != end
    {
      if p[|p| - 1] == end {
        Frontier(graph, start, known, [], p);
      }
    }
  }

  /** Every entry's point is one of `nodes` */
  ghost predicate InNodes(frontier: seq<Entry>, nodes: set<Point>) {
    forall k :: 0 <= k < |frontier| ==> frontier[k].point in nodes
  }

  /** The measure of the search loop went down: a point was newly visited, or a
      visited entry left the front */
  ghost predicate Closer(nodes: set<Point>, visited: set<Point>, frontier: seq<Entry>,
                         visited': set<Point>, frontier': seq<Entry>) {
    |nodes - visited'| < |nodes - visited| ||
    (visited' == visited && Settled(frontier', visited') < Settled(frontier, visited))
  }

  /** One pass of the search loop after the end and the missing entry are ruled
      out: the popped point is visited, its unvisited neighbours are pushed, the
      invariant holds again and the search is closer to its end */
  method Expand(graph: Graph, start: Point, end: Point, ghost nodes: set<Point>, frontier: seq<Entry>,
                visited: set<Point>, ghost trails: seq<seq<Point>>, ghost known: map<Point, seq<Point>>,
                ghost level: nat)
    returns (frontier': seq<Entry>, visited': set<Point>, ghost trails': seq<seq<Point>>,
             ghost known': map<Point, seq<Point>>)
    requires Inv(graph, start, end, frontier, visited, trails, known, level)
    requires nodes == Nodes(graph, start) && InNodes(frontier, nodes)
    requires |frontier| > 0 && frontier[0].point != end && frontier[0].point in graph
    ensures Inv(graph, start, end, frontier', visited', trails', known', frontier[0].length)
    ensures InNodes(frontier', nodes) && Closer(nodes, visited, frontier, visited', frontier')
  {
    var c := frontier[0];
    var rest := frontier[1..];
    visited' := visited + {c.point};
    frontier' := PushUnvisited(rest, graph[c.point], visited', c.length);
    var more := frontier'[|rest|..];
    known' := if c.point in known then known else known[c.point := trails[0]];
    trails' := trails[1..] + Extended(trails[0], more);
    MoreOf(rest, graph[c.point], visited', c.length, frontier');
    Advance(graph, start, end, frontier, visited, trails, known, level, more, known');
    assert InNodes(frontier', nodes) by {
      InNodesNext(graph, nodes, frontier, more);
    }
    assert Closer(nodes, visited, frontier, visited', frontier') by {
      CloserNext(nodes, frontier, visited, more);
    }
  }

  /** What `PushUnvisited` appended, as a sequence of its own */
  lemma MoreOf(rest: seq<Entry>, neighbours: seq<Point>, visited: set<Point>, length: nat, r: seq<Entry>)
    requires |rest| <= |r| && r[..|rest|] == rest
    requires forall k :: |rest| <= k < |r| ==>
               r[k].point in neighbours && r[k].point !in visited && r[k].length == length + 1
    requires forall t :: t in neighbours && t !in visited ==>
               exists k :: |rest| <= k < |r| && r[k] == Entry(t, length + 1)
    ensures r == rest + r[|rest|..]
    ensures forall k :: 0 <= k < |r[|rest|..]| ==>
               r[|rest|..][k].point in neighbours && r[|rest|..][k].point !in visited && r[|rest|..][k].length == length + 1
    ensures forall t :: t in neighbours && t !in visited ==>
               exists k :: 0 <= k < |r[|rest|..]| && r[|rest|..][k] == Entry(t, length + 1)
  {
    var more := r[|rest|..];
    assert r == rest + more;
    forall t | t in neighbours && t !in visited
      ensures exists k :: 0 <= k < |more| && more[k] == Entry(t, length + 1)
    {
      var k :| |rest| <= k < |r| && r[k] == Entry(t, length + 1);
      assert more[k - |rest|] == r[k];
    }
  }

  /** Pushed neighbours of a listed point are among the nodes */
  lemma InNodesNext(graph: Graph, nodes: set<Point>, frontier: seq<Entry>, more: seq<Entry>)
    requires |frontier| > 0 && frontier[0].point in graph
    requires InNodes(frontier, nodes) && (set p, q | p in graph && q in graph[p] :: q) <= nodes
    requires forall k :: 0 <= k < |more| ==> more[k].point in graph[frontier[0].point]
    ensures InNodes(frontier[1..] + more, nodes)
  {
    var f := frontier[1..] + more;
    forall k | 0 <= k < |f| ensures f[k].point in nodes {
      if k >= |frontier| - 1 {
        assert f[k] == more[k - (|frontier| - 1)];
        assert f[k].point in graph[frontier[0].point];
      } else {
        assert f[k] == frontier[k + 1];
      }
    }
  }

  /** Visiting a new point, or dropping a visited front entry and pushing only
      unvisited ones, brings the search closer to its end */
  lemma CloserNext(nodes: set<Point>, frontier: seq<Entry>, visited: set<Point>, more: seq<Entry>)
    requires |frontier| > 0 && frontier[0].point in nodes
    requires forall k :: 0 <= k < |more| ==> more[k].point !in visited + {frontier[0].point}
    ensures Closer(nodes, visited, frontier, visited + {frontier[0].point}, frontier[1..] + more)
  {
    var c := frontier[0].point;
    if c in visited {
      assert visited + {c} == visited;
      assert Settled(frontier, visited) == 1 + Settled(frontier[1..], visited);
      SettledAppend(frontier[1..], more, visited);
    } else {
      assert nodes - visited == (nodes - (visited + {c})) + {c};
    }
  }

  /** The pushing loop of `compute_distance`: each neighbour not visited yet is
      appended to the frontier with one more step; visited neighbours are not */
  method PushUnvisited(frontier: seq<Entry>, neighbours: seq<Point>, visited: set<Point>, length: nat)
    returns (r: seq<Entry>)
    ensures |frontier| <= |r| <= |frontier| + |neighbours| && r[..|frontier|] == frontier
    ensures forall k :: |frontier| <= k < |r| ==>
              r[k].point in neighbours && r[k].point !in visited && r[k].length == length + 1
    ensures forall t :: t in neighbours && t !in visited ==>
              exists k :: |frontier| <= k < |r| && r[k] == Entry(t, length + 1)
  {
    r := frontier;
    for i := 0 to |neighbours|
      invariant |frontier| <= |r| <= |frontier| + i && r[..|frontier|] == frontier
      invariant forall k :: |frontier| <= k < |r| ==>
                  r[k].point in neighbours && r[k].point !in visited && r[k].length == length + 1
      invariant forall j :: 0 <= j < i && neighbours[j] !in visited ==>
                  exists k :: |frontier| <= k < |r| && r[k] == Entry(neighbours[j], length + 1)
    {
      var n := neighbours[i];
      if n !in visited {
        ghost var before := r;
        r := r + [Entry(n, length + 1)];
        assert r[|r| - 1] == Entry(n, length + 1);
        forall j | 0 <= j < i && neighbours[j] !in visited
          ensures exists k :: |frontier| <= k < |r| && r[k] == Entry(neighbours[j], length + 1)
        {
          var k :| |frontier| <= k < |before| && before[k] == Entry(neighbours[j], length + 1);
          assert r[k] == before[k];
        }
      }
    }
  }

  /** The walks of the pushed entries: the popped point's walk, one step on */
  ghost function Extended(trail: seq<Point>, more: seq<Entry>): (r: seq<seq<Point>>)
    ensures |r| == |more| && forall k :: 0 <= k < |more| ==> r[k] == trail + [more[k].point]
  {
    seq(|more|, k requires 0 <= k < |more| => trail + [more[k].point])
  }

  /** One pass of the search loop keeps its invariant: the front entry is popped
      and visited, and its unvisited neighbours are appended with one more step */
  lemma Advance(graph: Graph, start: Point, end: Point, frontier: seq<Entry>, visited: set<Point>,
                trails: seq<seq<Point>>, known: map<Point, seq<Point>>, level: nat,
                more: seq<Entry>, known': map<Point, seq<Point>>)
    requires Inv(graph, start, end, frontier, visited, trails, known, level)
    requires |frontier| > 0 && frontier[0].point != end && frontier[0].point in graph
    requires forall k :: 0 <= k < |more| ==>
               more[k].point in graph[frontier[0].point] && more[k].length == frontier[0].length + 1
    requires forall t :: t in graph[frontier[0].point] && t !in visited + {frontier[0].point} ==>
               exists k :: 0 <= k < |more| && more[k] == Entry(t, frontier[0].length + 1)
    requires known' == if frontier[0].point in known then known else known[frontier[0].point := trails[0]]
    ensures Inv(graph, start, end, frontier[1..] + more, visited + {frontier[0].point},
                trails[1..] + Extended(trails[0], more), known', frontier[0].length)
  {
    var c := frontier[0];
    var rest := frontier[1..];
    var front := rest + more;
    assert Tracked(graph, start, front, trails[1..] + Extended(trails[0], more)) by {
      TrackedNext(graph, start, frontier, trails, more);
    }
    assert Known(graph, start, known') by {
      assert Walk(graph, trails[0], start, c.point, c.length);
    }
    assert Leveled(front, known', c.length) by {
      LeveledNext(frontier, known, level, more, known');
    }
    assert Closed(graph, known', front) by {
      ClosedNext(graph, start, frontier, known, level, more, known');
    }
    assert Seeded(start, known', front) by {
      SeededNext(start, frontier, known, level, more, known');
    }
  }

  /** The walks of the kept and the pushed entries */
  lemma TrackedNext(graph: Graph, start: Point, frontier: seq<Entry>, trails: seq<seq<Point>>, more: seq<Entry>)
    requires Tracked(graph, start, frontier, trails) && |frontier| > 0
    requires forall k :: 0 <= k < |more| ==>
               more[k].point in Adj(graph, frontier[0].point) && more[k].length == frontier[0].length + 1
    ensures Tracked(graph, start, frontier[1..] + more, trails[1..] + Extended(trails[0], more))
  {
    var c, trail := frontier[0], trails[0];
    var f, t := frontier[1..] + more, trails[1..] + Extended(trail, more);
    forall k | 0 <= k < |f| ensures Walk(graph, t[k], start, f[k].point, f[k].length) {
      if k < |frontier| - 1 {
        assert f[k] == frontier[k + 1] && t[k] == trails[k + 1];
      } else {
        var m := more[k - (|frontier| - 1)];
        assert f[k] == m && t[k] == trail + [m.point];
        assert Walk(graph, trail, start, c.point, c.length);
        forall j | 0 <= j < |t[k]| - 1 ensures t[k][j + 1] in Adj(graph, t[k][j]) {
          if j < |trail| - 1 {
            assert t[k][j] == trail[j] && t[k][j + 1] == trail[j + 1];
          }
        }
      }
    }
  }

  /** The lengths stay ordered and levelled at the popped entry's */
  lemma LeveledNext(frontier: seq<Entry>, known: map<Point, seq<Point>>, level: nat,
                    more: seq<Entry>, known': map<Point, seq<Point>>)
    requires Leveled(frontier, known, level) && |frontier| > 0
    requires forall k :: 0 <= k < |more| ==> more[k].length == frontier[0].length + 1
    requires known'.Keys == known.Keys + {frontier[0].point}
    requires forall v :: v in known ==> known'[v] == known[v]
    requires frontier[0].point !in known ==> |known'[frontier[0].point]| == frontier[0].length + 1
    ensures Leveled(frontier[1..] + more, known', frontier[0].length)
  {
    var l := frontier[0].length;
    var f := frontier[1..] + more;
    forall k | 0 <= k < |f| ensures l <= f[k].length <= l + 1 {
      if k < |frontier| - 1 {
        assert f[k] == frontier[k + 1];
      }
    }
    forall i, j | 0 <= i < j < |f| ensures f[i].length <= f[j].length {
      if j < |frontier| - 1 {
        assert f[i] == frontier[i + 1] && f[j] == frontier[j + 1];
      } else if i < |frontier| - 1 {
        assert f[i] == frontier[i + 1];
      }
    }
    forall v | v in known' ensures Dist(known', v) <= l {
      if v in known {
        assert Dist(known', v) == Dist(known, v);
      }
    }
  }

  /** Visiting the popped entry after pushing its unvisited neighbours keeps
      every neighbour of a visited point covered, and the start seeded */
  lemma ClosedNext(graph: Graph, start: Point, frontier: seq<Entry>, known: map<Point, seq<Point>>, level: nat,
                   more: seq<Entry>, known': map<Point, seq<Point>>)
    requires Closed(graph, known, frontier) && Seeded(start, known, frontier) && Leveled(frontier, known, level)
    requires |frontier| > 0 && frontier[0].point in graph
    requires forall t :: t in graph[frontier[0].point] && t !in known.Keys + {frontier[0].point} ==>
               exists k :: 0 <= k < |more| && more[k] == Entry(t, frontier[0].length + 1)
    requires known'.Keys == known.Keys + {frontier[0].point}
    requires forall v :: v in known ==> known'[v] == known[v]
    requires frontier[0].point !in known ==> |known'[frontier[0].point]| == frontier[0].length + 1
    ensures Closed(graph, known', frontier[1..] + more)
  {
    var c := frontier[0];
    var f := frontier[1..] + more;
    QueuesRest(frontier, more);
    forall v, t | v in known' && t in Adj(graph, v) ensures Covered(known', f, v, t) {
      if v in known {
        assert Covered(known, frontier, v, t);
        CoveredOld(frontier, known, level, f, known', v, t);
      } else {
        assert v == c.point;
        CoveredNew(frontier, known, level, more, known', t);
      }
    }
  }

  /** A neighbour covered before the pass stays covered */
  lemma CoveredOld(frontier: seq<Entry>, known: map<Point, seq<Point>>, level: nat,
                   f: seq<Entry>, known': map<Point, seq<Point>>, v: Point, t: Point)
    requires Leveled(frontier, known, level) && |frontier| > 0
    requires v in known && Covered(known, frontier, v, t)
    requires forall t, s :: Queues(frontier, t, s) && t != frontier[0].point ==> Queues(f, t, s)
    requires known'.Keys == known.Keys + {frontier[0].point}
    requires forall v :: v in known ==> known'[v] == known[v]
    requires frontier[0].point !in known ==> |known'[frontier[0].point]| == frontier[0].length + 1
    ensures Covered(known', f, v, t)
  {
    var c := frontier[0];
    assert Dist(known', v) == Dist(known, v);
    if t in known {
      assert Dist(known', t) == Dist(known, t) <= level;
    } else if t == c.point {
      var k :| 0 <= k < |frontier| && frontier[k].point == t && frontier[k].length <= Dist(known, v) + 1;
      assert c.length <= frontier[k].length;
      assert Dist(known', t) == c.length;
    }
  }

  /** The neighbours of the newly visited popped point are covered */
  lemma CoveredNew(frontier: seq<Entry>, known: map<Point, seq<Point>>, level: nat,
                   more: seq<Entry>, known': map<Point, seq<Point>>, t: Point)
    requires Leveled(frontier, known, level) && |frontier| > 0 && frontier[0].point !in known
    requires t !in known.Keys + {frontier[0].point} ==>
               exists k :: 0 <= k < |more| && more[k] == Entry(t, frontier[0].length + 1)
    requires known'.Keys == known.Keys + {frontier[0].point}
    requires forall v :: v in known ==> known'[v] == known[v]
    requires |known'[frontier[0].point]| == frontier[0].length + 1
    ensures Covered(known', frontier[1..] + more, frontier[0].point, t)
  {
    var c := frontier[0];
    var f := frontier[1..] + more;
    assert Dist(known', c.point) == c.length;
    if t in known {
      assert Dist(known', t) == Dist(known, t) <= level <= c.length;
    } else if t != c.point {
      var k :| 0 <= k < |more| && more[k] == Entry(t, c.length + 1);
      assert f[|frontier| - 1 + k] == more[k];
    }
  }

  /** The start stays visited with no steps, or waiting with none */
  lemma SeededNext(start: Point, frontier: seq<Entry>, known: map<Point, seq<Point>>, level: nat,
                   more: seq<Entry>, known': map<Point, seq<Point>>)
    requires Seeded(start, known, frontier) && Leveled(frontier, known, level) && |frontier| > 0
    requires known'.Keys == known.Keys + {frontier[0].point}
    requires forall v :: v in known ==> known'[v] == known[v]
    requires frontier[0].point !in known ==> |known'[frontier[0].point]| == frontier[0].length + 1
    ensures Seeded(start, known', frontier[1..] + more)
  {
    var c := frontier[0];
    QueuesRest(frontier, more);
    if !(start in known && Dist(known, start) <= 0) {
      if start == c.point {
        var k :| 0 <= k < |frontier| && frontier[k].point == start && frontier[k].length <= 0;
        assert c.length <= frontier[k].length;
      }
    } else {
      assert Dist(known', start) == Dist(known, start);
    }
  }

  /** Popping the front entry and pushing more keeps every other point queued */
  lemma QueuesRest(frontier: seq<Entry>, more: seq<Entry>)
    requires |frontier| > 0
    ensures forall t, s :: Queues(frontier, t, s) && t != frontier[0].point ==> Queues(frontier[1..] + more, t, s)
  {
    var f := frontier[1..] + more;
    forall t, s | Queues(frontier, t, s) && t != frontier[0].point ensures Queues(f, t, s) {
      var k :| 0 <= k < |frontier| && frontier[k].point == t && frontier[k].length <= s;
      assert f[k - 1] == frontier[k];
    }
  }

  // ---------------------------------------------------------------------------
  // The distance tables

  /** No point is listed twice, as in the `HashSet` of targets */
  predicate Distinct(s: seq<Point>) {
    forall i, j :: 0 <= i < j < |s| ==> s[i] != s[j]
  }

  /** The search fails between `a` and `b`: no walk reaches `b`, or a walk from
      `a` reaches a point without an entry */
  ghost predicate Fails(graph: Graph, a: Point, b: Point) {
    Unreachable(graph, a, b) || exists p :: IsWalk(graph, p) && p[0] == a && p[|p| - 1] !in graph
  }

  /** The tables `shortest_path` builds: for each target its distance from the
      origin, and for each ordered pair of distinct targets the distance from the
      first to the second */
  ghost predicate Tables(game: Game, origin: map<Point, nat>, pairs: map<(Point, Point), nat>) {
    (forall t :: t in origin <==> t in game.targets) &&
    (forall t :: t in origin ==> Shortest(game.graph, game.origin, t, origin[t])) &&
    (forall key :: key in pairs <==> key.0 in game.targets && key.1 in game.targets && key.0 != key.1) &&
    (forall key :: key in pairs ==> Shortest(game.graph, key.0, key.1, pairs[key]))
  }

  /** The tables are determined by the game */
  lemma TablesUnique(game: Game, origin: map<Point, nat>, pairs: map<(Point, Point), nat>,
                     origin': map<Point, nat>, pairs': map<(Point, Point), nat>)
    requires Tables(game, origin, pairs) && Tables(game, origin', pairs')
    ensures origin == origin' && pairs == pairs'
  {
    OriginUnique(game, origin, origin');
    PairsUnique(game, pairs, pairs');
  }

  lemma OriginUnique(game: Game, origin: map<Point, nat>, origin': map<Point, nat>)
    requires forall t :: t in origin <==> t in origin'
    requires forall t :: t in origin ==> Shortest(game.graph, game.origin, t, origin[t])
    requires forall t :: t in origin' ==> Shortest(game.graph, game.origin, t, origin'[t])
    ensures origin == origin'
  {
    forall t | t in origin ensures origin[t] == origin'[t] {
      ShortestUnique(game.graph, game.origin, t, origin[t], origin'[t]);
    }
    assert origin.Keys == origin'.Keys;
  }

  lemma PairsUnique(game: Game, pairs: map<(Point, Point), nat>, pairs': map<(Point, Point), nat>)
    requires forall key :: key in pairs <==> key in pairs'
    requires forall key :: key in pairs ==> Shortest(game.graph, key.0, key.1, pairs[key])
    requires forall key :: key in pairs' ==> Shortest(game.graph, key.0, key.1, pairs'[key])
    ensures pairs == pairs'
  {
    forall key | key in pairs ensures pairs[key] == pairs'[key] {
      ShortestUnique(game.graph, key.0, key.1, pairs[key], pairs'[key]);
    }
    assert pairs.Keys == pairs'.Keys;
  }

  /** `origin_distances`, one target after another: the distance from the origin
      to each target, or `None` when a search panics */
  method OriginDistances(game: Game) returns (r: Option<map<Point, nat>>)
    ensures r.Some? ==> (forall t :: t in r.value <==> t in game.targets) &&
                        forall t :: t in r.value ==> Shortest(game.graph, game.origin, t, r.value[t])
    ensures r.None? ==> exists t :: t in game.targets && Fails(game.graph, game.origin, t)
  {
    var table: map<Point, nat> := map[];
    for i := 0 to |game.targets|
      invariant forall t :: t in table <==> t in game.targets[..i]
      invariant forall t :: t in table ==> Shortest(game.graph, game.origin, t, table[t])
    {
      var t := game.targets[i];
      var d, path := ComputeDistance(game.graph, game.origin, t);
      if d.None? {
        assert Fails(game.graph, game.origin, t);
        return None;
      }
      assert game.targets[..i + 1] == game.targets[..i] + [t];
      table := table[t := d.value];
    }
    assert game.targets[..|game.targets|] == game.targets;
    return Some(table);
  }

  /** `target_distances`, over `permutations(2)` of the targets: the distance
      between every ordered pair of distinct targets, or `None` when a search
      panics */
  method TargetDistances(game: Game) returns (r: Option<map<(Point, Point), nat>>)
    requires Distinct(game.targets)
    ensures r.Some? ==>
              (forall key :: key in r.value <==> key.0 in game.targets && key.1 in game.targets && key.0 != key.1) &&
              forall key :: key in r.value ==> Shortest(game.graph, key.0, key.1, r.value[key])
    ensures r.None? ==> exists a, b :: a in game.targets && b in game.targets && a != b && Fails(game.graph, a, b)
  {
    var targets := game.targets;
    var table: map<(Point, Point), nat> := map[];
    for i := 0 to |targets|
      invariant forall key :: key in table <==> Before(targets, i, 0, key)
      invariant forall key :: key in table ==> Shortest(game.graph, key.0, key.1, table[key])
    {
      for j := 0 to |targets|
        invariant forall key :: key in table <==> Before(targets, i, j, key)
        invariant forall key :: key in table ==> Shortest(game.graph, key.0, key.1, table[key])
      {
        if i != j {
          var d, path := ComputeDistance(game.graph, targets[i], targets[j]);
          if d.None? {
            assert Fails(game.graph, targets[i], targets[j]);
            return None;
          }
          table := table[(targets[i], targets[j]) := d.value];
        }
        BeforeNext(targets, i, j);
      }
      BeforeRow(targets, i);
    }
    forall key ensures Before(targets, |targets|, 0, key) ==
                       (key.0 in targets && key.1 in targets && key.0 != key.1) {
      BeforeAll(targets, key);
    }
    return Some(table);
  }

  /** The pair is among those `target_distances` has measured before row `i`,
      column `j` */
  predicate Before(targets: seq<Point>, i: nat, j: nat, key: (Point, Point))
    requires i <= |targets| && j <= |targets|
  {
    (exists a, b :: 0 <= a < i && 0 <= b < |targets| && a != b && key == (targets[a], targets[b])) ||
    (i < |targets| && exists b :: 0 <= b < j && b != i && key == (targets[i], targets[b]))
  }

  /** The inner loop measures one more pair, or skips the diagonal */
  lemma BeforeNext(targets: seq<Point>, i: nat, j: nat)
    requires i < |targets| && j < |targets|
    ensures forall key :: Before(targets, i, j + 1, key) <==>
              Before(targets, i, j, key) || (i != j && key == (targets[i], targets[j]))
  {
  }

  /** A finished row is counted among the rows before the next */
  lemma BeforeRow(targets: seq<Point>, i: nat)
    requires i < |targets|
    ensures forall key :: Before(targets, i + 1, 0, key) <==> Before(targets, i, |targets|, key)
  {
  }

  /** Every ordered pair of distinct targets is measured */
  lemma BeforeAll(targets: seq<Point>, key: (Point, Point))
    requires Distinct(targets)
    ensures Before(targets, |targets|, 0, key) <==> key.0 in targets && key.1 in targets && key.0 != key.1
  {
    if key.0 in targets && key.1 in targets && key.0 != key.1 {
      var a :| 0 <= a < |targets| && targets[a] == key.0;
      var b :| 0 <= b < |targets| && targets[b] == key.1;
      assert key == (targets[a], targets[b]);
    }
  }

  // ---------------------------------------------------------------------------
  // The tour

  /** `usize::MAX`, the minimum `shortest_path` starts from */
  const UsizeMax: nat := 0xFFFF_FFFF_FFFF_FFFF

  /** The tables hold every distance the cost of `path` looks up */
  predicate Fits(origin: map<Point, nat>, pairs: map<(Point, Point), nat>, path: seq<Point>) {
    |path| > 0 && (forall k :: 0 <= k < |path| ==> path[k] in origin) &&
    (forall k :: 0 <= k < |path| - 1 ==> (path[k], path[k + 1]) in pairs)
  }

  /** The distances between consecutive points, `path.windows(2)` */
  function Legs(pairs: map<(Point, Point), nat>, path: seq<Point>): nat
    requires forall k :: 0 <= k < |path| - 1 ==> (path[k], path[k + 1]) in pairs
  {
    if |path| <= 1 then 0
    else Legs(pairs, path[..|path| - 1]) + pairs[(path[|path| - 2], path[|path| - 1])]
  }

  /** The length of one ordering of the targets: from the origin to its first
      point and on through the others; in part two also the table's distance
      between the origin and the last point */
  function Cost(origin: map<Point, nat>, pairs: map<(Point, Point), nat>, path: seq<Point>, part: Part): nat
    requires Fits(origin, pairs, path)
  {
    origin[path[0]] + Legs(pairs, path) + (if part == Two then origin[path[|path| - 1]] else 0)
  }

  /** Part two's cost of an ordering is its part one cost plus the way back */
  lemma CostParts(origin: map<Point, nat>, pairs: map<(Point, Point), nat>, path: seq<Point>)
    requires Fits(origin, pairs, path)
    ensures Cost(origin, pairs, path, Two) == Cost(origin, pairs, path, One) + origin[path[|path| - 1]]
  {
  }

  /** The loop over `path.windows(2)` in `shortest_path`, with the way back in
      part two */
  method PathLength(origin: map<Point, nat>, pairs: map<(Point, Point), nat>, path: seq<Point>, part: Part)
    returns (total: nat)
    requires Fits(origin, pairs, path)
    ensures total == Cost(origin, pairs, path, part)
  {
    total := origin[path[0]];
    for k := 1 to |path|
      invariant total == origin[path[0]] + Legs(pairs, path[..k])
    {
      assert path[..k + 1][..k] == path[..k];
      total := total + pairs[(path[k - 1], path[k])];
    }
    assert path[..|path|] == path;
    if part == Two {
      total := total + origin[path[|path| - 1]];
    }
  }

  /** `v` is what `shortest_path` answers over the orderings of `targets`: no
      ordering costs less, and `v` is the cost of one of them, or `usize::MAX`
      when none costs less than that */
  ghost predicate IsMinimum(origin: map<Point, nat>, pairs: map<(Point, Point), nat>, targets: seq<Point>,
                            part: Part, v: nat)
  {
    v <= UsizeMax &&
    (forall t :: multiset(t) == multiset(targets) ==> Fits(origin, pairs, t) && v <= Cost(origin, pairs, t, part)) &&
    (v == UsizeMax ||
     exists t :: multiset(t) == multiset(targets) && Fits(origin, pairs, t) && v == Cost(origin, pairs, t, part))
  }

  /** A rearrangement of a list without repetitions has none */
  lemma DistinctPermutation(s: seq<Point>, t: seq<Point>)
    requires Distinct(s) && multiset(t) == multiset(s)
    ensures Distinct(t)
  {
    DistinctCount(s);
    forall i, j | 0 <= i < j < |t| ensures t[i] != t[j] {
      Twice(t, i, j);
    }
  }

  /** An element at two positions occurs at least twice */
  lemma Twice(t: seq<Point>, i: nat, j: nat)
    requires i < j < |t|
    ensures t[i] == t[j] ==> multiset(t)[t[j]] >= 2
  {
    assert t == t[..j] + [t[j]] + t[j + 1..];
    assert t[i] == t[..j][i];
    assert t[i] in multiset(t[..j]);
  }

  /** Without repetitions every element occurs once */
  lemma {:induction false} DistinctCount(s: seq<Point>)
    requires Distinct(s)
    ensures forall x :: multiset(s)[x] <= 1
  {
    if |s| > 0 {
      var init := s[..|s| - 1];
      assert s == init + [s[|s| - 1]];
      assert Distinct(init);
      DistinctCount(init);
      assert s[|s| - 1] !in init;
    }
  }

  /** With complete tables, every ordering of distinct targets can be costed */
  lemma OrderingFits(game: Game, origin: map<Point, nat>, pairs: map<(Point, Point), nat>, t: seq<Point>)
    requires Distinct(game.targets) && Tables(game, origin, pairs)
    requires |game.targets| > 0 && multiset(t) == multiset(game.targets)
    ensures Fits(origin, pairs, t)
  {
    DistinctPermutation(game.targets, t);
    assert |t| == |game.targets| by {
      assert |multiset(t)| == |multiset(game.targets)|;
    }
    forall k | 0 <= k < |t| ensures t[k] in game.targets {
      assert t[k] in multiset(t);
    }
  }

  /** `shortest_path`: the distance tables, then the cheapest ordering of the
      targets. It answers `None` where the source panics: a search fails, or
      there are no targets (the single empty ordering has no first point). */
  method ShortestPath(game: Game, part: Part)
    returns (r: Option<nat>, ghost origin: map<Point, nat>, ghost pairs: map<(Point, Point), nat>)
    requires Distinct(game.targets)
    ensures r.Some? ==> Tables(game, origin, pairs) && IsMinimum(origin, pairs, game.targets, part, r.value)
    ensures r.None? ==>
              |game.targets| == 0 ||
              (exists t :: t in game.targets && Fails(game.graph, game.origin, t)) ||
              (exists a, b :: a in game.targets && b in game.targets && a != b && Fails(game.graph, a, b))
  {
    var originTable := OriginDistances(game);
    if originTable.None? {
      return None, map[], map[];
    }
    var pairTable := TargetDistances(game);
    if pairTable.None? {
      return None, map[], map[];
    }
    var o, q := originTable.value, pairTable.value;
    origin, pairs := o, q;
    if |game.targets| == 0 {
      return None, o, q;
    }
    assert Tables(game, o, q);
    var paths := Permutations(game.targets);
    PermutationsFit(game, o, q);
    var min := MinimumOver(o, q, paths, part);
    MinimumOrderings(game, o, q, part, min);
    return Some(min), origin, pairs;
  }

  /** Every listed ordering of the targets can be costed */
  lemma PermutationsFit(game: Game, origin: map<Point, nat>, pairs: map<(Point, Point), nat>)
    requires Distinct(game.targets) && Tables(game, origin, pairs) && |game.targets| > 0
    ensures forall k :: 0 <= k < |Permutations(game.targets)| ==> Fits(origin, pairs, Permutations(game.targets)[k])
  {
    var paths := Permutations(game.targets);
    PermutationsPermute(game.targets);
    forall k | 0 <= k < |paths| ensures Fits(origin, pairs, paths[k]) {
      assert paths[k] in paths;
      OrderingFits(game, origin, pairs, paths[k]);
    }
  }

  /** The minimum loop of `shortest_path`: starting from `usize::MAX`, lowered to
      every smaller total */
  method MinimumOver(origin: map<Point, nat>, pairs: map<(Point, Point), nat>, paths: seq<seq<Point>>, part: Part)
    returns (min: nat)
    requires forall k :: 0 <= k < |paths| ==> Fits(origin, pairs, paths[k])
    ensures min <= UsizeMax && forall k :: 0 <= k < |paths| ==> min <= Cost(origin, pairs, paths[k], part)
    ensures min == UsizeMax || exists k :: 0 <= k < |paths| && min == Cost(origin, pairs, paths[k], part)
  {
    min := UsizeMax;
    for i := 0 to |paths|
      invariant min <= UsizeMax && forall k :: 0 <= k < i ==> min <= Cost(origin, pairs, paths[k], part)
      invariant min == UsizeMax || exists k :: 0 <= k < i && min == Cost(origin, pairs, paths[k], part)
    {
      var total := PathLength(origin, pairs, paths[i], part);
      if total < min {
        min := total;
      }
    }
  }

  /** The minimum over the listed orderings is the minimum over all of them */
  lemma MinimumOrderings(game: Game, origin: map<Point, nat>, pairs: map<(Point, Point), nat>, part: Part, min: nat)
    requires forall k :: 0 <= k < |Permutations(game.targets)| ==> Fits(origin, pairs, Permutations(game.targets)[k])
    requires min <= UsizeMax
    requires forall k :: 0 <= k < |Permutations(game.targets)| ==>
               min <= Cost(origin, pairs, Permutations(game.targets)[k], part)
    requires min == UsizeMax ||
             exists k :: 0 <= k < |Permutations(game.targets)| && min == Cost(origin, pairs, Permutations(game.targets)[k], part)
    ensures IsMinimum(origin, pairs, game.targets, part, min)
  {
    var paths := Permutations(game.targets);
    forall t | multiset(t) == multiset(game.targets)
      ensures Fits(origin, pairs, t) && min <= Cost(origin, pairs, t, part)
    {
      PermutationsComplete(game.targets, t);
      var k :| 0 <= k < |paths| && paths[k] == t;
    }
    if min != UsizeMax {
      var k :| 0 <= k < |paths| && min == Cost(origin, pairs, paths[k], part);
      PermutationsPermute(game.targets);
      assert paths[k] in paths;
    }
  }

  /** `v` is the answer to `part` of the game */
  ghost predicate Answer(game: Game, part: Part, v: nat) {
    exists origin, pairs :: Tables(game, origin, pairs) && IsMinimum(origin, pairs, game.targets, part, v)
  }

  /** Part one: visit every target from the origin */
  method Part1(game: Game) returns (r: Option<nat>)
    requires Distinct(game.targets)
    ensures r.Some? ==> Answer(game, One, r.value)
    ensures r.None? ==>
              |game.targets| == 0 ||
              (exists t :: t in game.targets && Fails(game.graph, game.origin, t)) ||
              (exists a, b :: a in game.targets && b in game.targets && a != b && Fails(game.graph, a, b))
  {
    ghost var origin, pairs;
    r, origin, pairs := ShortestPath(game, One);
  }

  /** Part two: visit every target and return to the origin */
  method Part2(game: Game) returns (r: Option<nat>)
    requires Distinct(game.targets)
    ensures r.Some? ==> Answer(game, Two, r.value)
    ensures r.None? ==>
              |game.targets| == 0 ||
              (exists t :: t in game.targets && Fails(game.graph, game.origin, t)) ||
              (exists a, b :: a in game.targets && b in game.targets && a != b && Fails(game.graph, a, b))
  {
    ghost var origin, pairs;
    r, origin, pairs := ShortestPath(game, Two);
  }

  /** Returning to the origin never makes the tour shorter: part two's answer is
      at least part one's */
  lemma PartsOrdered(game: Game, v1: nat, v2: nat)
    requires Distinct(game.targets) && |game.targets| > 0
    requires Answer(game, One, v1) && Answer(game, Two, v2)
    ensures v1 <= v2
  {
    var o1, p1 :| Tables(game, o1, p1) && IsMinimum(o1, p1, game.targets, One, v1);
    var o2, p2 :| Tables(game, o2, p2) && IsMinimum(o2, p2, game.targets, Two, v2);
    TablesUnique(game, o1, p1, o2, p2);
    if v2 != UsizeMax {
      var t :| multiset(t) == multiset(game.targets) && Fits(o2, p2, t) && v2 == Cost(o2, p2, t, Two);
      CostParts(o2, p2, t);
    }
  }
}
