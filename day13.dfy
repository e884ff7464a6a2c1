/** Day 13: a maze on the quarter plane x, y >= 0 whose walls follow from a
    favourite number. A point is open when a quadratic of its coordinates plus
    that number has an even count of one bits. A breadth-first search from
    (1, 1), ordered by a priority queue on the step count, finds the fewest steps
    to a target (part one) or counts the points within 50 steps (part two). */
module Day13 {
  import opened Wrappers
  import opened Strings
  import opened Lib
  import opened Compass

  /** Where every walk starts */
  const Start: Point := Point(1, 1)

  /** The point part one looks for */
  const Target: Point := Point(31, 39)

  /** The most steps part two allows */
  const Limit: nat := 50

  // ---------------------------------------------------------------------------
  // Bits

  function Digit(b: nat): char
    requires b < 2
  {
    if b == 0 then '0' else '1'
  }

  /** `format!("{:b}", n)`: binary digits, most significant first, no leading zeros */
  function Binary(n: nat): string
    decreases n
  {
    if n < 2 then [Digit(n)] else Binary(n / 2) + [Digit(n % 2)]
  }

  /** The number a string of binary digits denotes */
  function BinaryValue(s: string): nat
  {
    if |s| == 0 then 0 else 2 * BinaryValue(s[..|s| - 1]) + (if s[|s| - 1] == '1' then 1 else 0)
  }

  /** The number of `'1'` characters */
  function Ones(s: string): nat
  {
    if |s| == 0 then 0 else Ones(s[..|s| - 1]) + (if s[|s| - 1] == '1' then 1 else 0)
  }

  /** The number of one bits of `n`, computed on the number itself */
  function Popcount(n: nat): nat
  {
    if n == 0 then 0 else n % 2 + Popcount(n / 2)
  }

  /** The binary form is made of `0` and `1`, starts with `1` unless the number is
      zero, and reads back as the number */
  lemma {:induction false} BinaryRoundTrip(n: nat)
    ensures forall k :: 0 <= k < |Binary(n)| ==> Binary(n)[k] in {'0', '1'}
    ensures n == 0 <==> Binary(n) == "0"
    ensures n > 0 ==> Binary(n)[0] == '1'
    ensures BinaryValue(Binary(n)) == n
    decreases n
  {
    if n >= 2 {
      BinaryRoundTrip(n / 2);
      var s := Binary(n);
      assert s[..|s| - 1] == Binary(n / 2);
    }
  }

  /** Counting the one characters of the binary form is counting the one bits */
  lemma {:induction false} OnesPopcount(n: nat)
    ensures Ones(Binary(n)) == Popcount(n)
    decreases n
  {
    if n >= 2 {
      OnesPopcount(n / 2);
      var s := Binary(n);
      assert s[..|s| - 1] == Binary(n / 2);
    }
  }

  // ---------------------------------------------------------------------------
  // The maze

  /** The quadratic of `is_open`, with the favourite number added */
  function Sum(p: Point, input: nat): int
  {
    p.x * p.x + 3 * p.x + 2 * p.x * p.y + p.y + p.y * p.y + input
  }

  /** `is_open`: an even number of one bits in the sum. The source computes it
      in `i32`, whose binary formatting shows the two's-complement bits: the sum
      is taken modulo 2^32 */
  predicate IsOpen(p: Point, input: nat)
  {
    Popcount(Sum(p, input) % 0x1_0000_0000) % 2 == 0
  }

  /** The source counts the `1` characters of the sum formatted in binary: the
      same parity */
  lemma IsOpenMeans(p: Point, input: nat)
    ensures IsOpen(p, input) <==> Ones(Binary(Sum(p, input) % 0x1_0000_0000)) % 2 == 0
  {
    OnesPopcount(Sum(p, input) % 0x1_0000_0000);
  }

  /** A sum that fits in 32 bits is its own bit pattern */
  lemma OpenWhen(p: Point, input: nat, sum: nat)
    requires Sum(p, input) == sum < 0x1_0000_0000
    ensures IsOpen(p, input) == (Popcount(sum) % 2 == 0)
  {
  }

  /** Two open squares in the corner of the maze of favourite number 10 */
  lemma OpenExample()
    ensures IsOpen(Point(0, 0), 10) && IsOpen(Point(1, 1), 10)
  {
    OpenWhen(Point(0, 0), 10, 10);
    OpenWhen(Point(1, 1), 10, 18);
    assert Popcount(10) == 2 && Popcount(18) == 2;
  }

  /** Two walls in the corner of the maze of favourite number 10 */
  lemma WallExample()
    ensures !IsOpen(Point(1, 0), 10) && !IsOpen(Point(0, 2), 10)
  {
    OpenWhen(Point(1, 0), 10, 14);
    OpenWhen(Point(0, 2), 10, 16);
    assert Popcount(14) == 3 && Popcount(16) == 1;
  }

  /** Inside the quarter plane and open */
  predicate Allowed(t: Point, input: nat) {
    t.x >= 0 && t.y >= 0 && IsOpen(t, input)
  }

  /** The candidates of `cands` that are allowed, in order */
  function Keep(cands: seq<Point>, input: nat): (r: seq<Point>)
    ensures |r| <= |cands|
    ensures forall t :: t in r <==> t in cands && Allowed(t, input)
  {
    if |cands| == 0 then []
    else if Allowed(cands[0], input) then [cands[0]] + Keep(cands[1..], input)
    else Keep(cands[1..], input)
  }

  /** The four points one step from `p`, in the order of the deltas of
      `valid_moves` */
  function Around(p: Point): (r: seq<Point>)
    ensures forall t :: t in r <==> Distance(p, t) == 1
  {
    var r := [Point(p.x - 1, p.y), Point(p.x + 1, p.y), Point(p.x, p.y - 1), Point(p.x, p.y + 1)];
    assert forall t :: Distance(p, t) == 1 ==> t in r by {
      forall t | Distance(p, t) == 1 ensures t in r {
        if t.x == p.x {
          assert t.y == p.y - 1 || t.y == p.y + 1;
        } else {
          assert t.y == p.y && (t.x == p.x - 1 || t.x == p.x + 1);
        }
      }
    }
    r
  }

  /** `valid_moves`: the open neighbours a single orthogonal step away that stay
      in the quarter plane */
  function Moves(p: Point, input: nat): (r: seq<Point>)
    ensures |r| <= 4
    ensures forall t :: t in r <==> Distance(p, t) == 1 && Allowed(t, input)
  {
    Keep(Around(p), input)
  }

  /** The moves of the maze of one favourite number */
  function Maze(input: nat): Point -> seq<Point>
  {
    p => Moves(p, input)
  }

  /** `generator`: the trimmed input read as an unsigned number */
  function Generator(input: string): Option<nat>
  {
    ParseNat(Trim(input))
  }

  /** A number written out reads back as itself */
  lemma GeneratorRoundTrip(n: nat)
    ensures Generator(NatToString(n)) == Some(n)
  {
    var s := NatToString(n);
    TrimUnchanged(s);
    ParseNatToString(n);
  }

  // ---------------------------------------------------------------------------
  // Walks

  /** A walk from the start, each point a valid move from the one before */
  ghost predicate IsPath(next: Point -> seq<Point>, p: seq<Point>) {
    |p| > 0 && p[0] == Start && forall k :: 0 <= k < |p| - 1 ==> p[k + 1] in next(p[k])
  }

  /** A walk of `steps` steps that ends at `t` */
  ghost predicate Trail(next: Point -> seq<Point>, p: seq<Point>, steps: nat, t: Point) {
    IsPath(next, p) && |p| == steps + 1 && p[|p| - 1] == t
  }

  /** `t` is at most `n` steps from the start */
  ghost predicate Reachable(next: Point -> seq<Point>, t: Point, n: nat) {
    exists p :: IsPath(next, p) && |p| <= n + 1 && p[|p| - 1] == t
  }

  // ---------------------------------------------------------------------------
  // The search

  /** `QueuedPoint` */
  datatype Queued = Queued(steps: nat, point: Point)

  /** How `shortest_path` ends: with its answer, with an empty queue in part one
      (where the source panics), or still running when the fuel is spent */
  datatype Outcome = Found(value: nat) | Panicked | Unfinished

  /** The steps of the walk recorded for a visited point */
  ghost function Dist(known: map<Point, seq<Point>>, v: Point): int
    requires v in known
  {
    |known[v]| - 1
  }

  /** `t` is queued with at most `s` steps */
  ghost predicate Queues(queue: seq<Queued>, t: Point, s: int) {
    exists k :: 0 <= k < |queue| && queue[k].point == t && queue[k].steps <= s
  }

  /** Some entry is queued with at most `s` steps */
  ghost predicate Waiting(queue: seq<Queued>, s: int) {
    exists k :: 0 <= k < |queue| && queue[k].steps <= s
  }

  /** Every queued entry carries a walk of its step count to its point */
  ghost predicate Tracked(next: Point -> seq<Point>, queue: seq<Queued>, trails: seq<seq<Point>>) {
    |trails| == |queue| &&
    forall k :: 0 <= k < |queue| ==> Trail(next, trails[k], queue[k].steps, queue[k].point)
  }

  /** Every visited point carries a walk to it */
  ghost predicate Known(next: Point -> seq<Point>, known: map<Point, seq<Point>>) {
    forall v :: v in known ==> IsPath(next, known[v]) && known[v][|known[v]| - 1] == v
  }

  /** No entry is queued below the last popped step count, and no visited point
      was reached above it */
  ghost predicate Leveled(queue: seq<Queued>, known: map<Point, seq<Point>>, level: nat) {
    (forall k :: 0 <= k < |queue| ==> level <= queue[k].steps) &&
    (forall v :: v in known ==> Dist(known, v) <= level)
  }

  /** Every move from a visited point (one still within the limit, in part two)
      leads to a point visited no later than one step after it, or queued with
      at most one step more */
  ghost predicate Closed(next: Point -> seq<Point>, part: Part, known: map<Point, seq<Point>>, queue: seq<Queued>) {
    forall v, t :: v in known && t in next(v) && (part == One || Dist(known, v) < Limit) ==>
      (t in known && Dist(known, t) <= Dist(known, v) + 1) || Queues(queue, t, Dist(known, v) + 1)
  }

  /** The start is visited with no steps, or queued with none */
  ghost predicate Seeded(known: map<Point, seq<Point>>, queue: seq<Queued>) {
    (Start in known && Dist(known, Start) <= 0) || Queues(queue, Start, 0)
  }

  /** The loop invariant of `shortest_path` */
  ghost predicate Inv(next: Point -> seq<Point>, part: Part, target: Point, visited: set<Point>, queue: seq<Queued>,
                      trails: seq<seq<Point>>, known: map<Point, seq<Point>>, level: nat)
  {
    Tracked(next, queue, trails) && known.Keys == visited && Known(next, known) &&
    Leveled(queue, known, level) && Closed(next, part, known, queue) && Seeded(known, queue) &&
    (part == One ==> target !in visited) &&
    (part == Two ==> forall v :: v in known ==> Dist(known, v) <= Limit)
  }

  /** A walk (of at most `Limit` steps in part two) that ends outside the visited
      points has some queued entry with no more steps than the walk */
  lemma Frontier(next: Point -> seq<Point>, part: Part, known: map<Point, seq<Point>>, queue: seq<Queued>, p: seq<Point>)
    requires Closed(next, part, known, queue) && Seeded(known, queue)
    requires IsPath(next, p) && p[|p| - 1] !in known
    requires part == Two ==> |p| - 1 <= Limit
    ensures Waiting(queue, |p| - 1)
  {
    var i := 0;
    while p[i] in known && Dist(known, p[i]) <= i
      invariant 0 <= i < |p|
      invariant (p[i] in known && Dist(known, p[i]) <= i) || Queues(queue, p[i], i)
      decreases |p| - i
    {
      assert p[i + 1] in next(p[i]);
      if !(p[i + 1] in known && Dist(known, p[i + 1]) <= Dist(known, p[i]) + 1) {
        var k :| 0 <= k < |queue| && queue[k].point == p[i + 1] && queue[k].steps <= Dist(known, p[i]) + 1;
        assert Queues(queue, p[i + 1], i + 1);
      }
      i := i + 1;
    }
    var k :| 0 <= k < |queue| && queue[k].point == p[i] && queue[k].steps <= i;
    assert Waiting(queue, |p| - 1);
  }

  /** `shortest_path`. Part one answers the fewest steps of any walk to the
      target, and panics only when no walk reaches it; part two answers the
      number of points at most `Limit` steps from the start */
  method ShortestPath(input: nat, part: Part, target: Point, fuel: nat)
    returns (r: Outcome, ghost path: seq<Point>, ghost reached: set<Point>)
    ensures part == One && r.Found? ==>
              (Trail(Maze(input), path, r.value, target) &&
               forall p :: IsPath(Maze(input), p) && p[|p| - 1] == target ==> r.value <= |p| - 1)
    ensures part == One && r.Panicked? ==> forall p :: IsPath(Maze(input), p) ==> p[|p| - 1] != target
    ensures part == Two ==>
              (!r.Panicked? &&
               (r.Found? ==> r.value == |reached| && forall v :: v in reached <==> Reachable(Maze(input), v, Limit)))
  {
    var next := Maze(input);
    var visited: set<Point> := {};
    var queue := [Queued(0, Start)];
    ghost var trails := [[Start]];
    ghost var known: map<Point, seq<Point>> := map[];
    ghost var level := 0;
    assert queue[0].point == Start;
    var n := 0;
    while n < fuel
      invariant Inv(next, part, target, visited, queue, trails, known, level)
    {
      if |queue| == 0 {
        if part == One {
          forall p | IsPath(next, p) ensures p[|p| - 1] != target {
            if p[|p| - 1] == target {
              Frontier(next, part, known, queue, p);
            }
          }
          return Panicked, [], {};
        }
        forall v ensures v in visited <==> Reachable(next, v, Limit) {
          if v in visited {
            assert IsPath(next, known[v]) && |known[v]| <= Limit + 1 && known[v][|known[v]| - 1] == v;
          }
          if Reachable(next, v, Limit) && v !in visited {
            var p :| IsPath(next, p) && |p| <= Limit + 1 && p[|p| - 1] == v;
            Frontier(next, part, known, queue, p);
          }
        }
        return Found(|visited|), [], visited;
      }
      var i := Best(queue);
      var q := queue[i];
      if part == One && q.point == target {
        forall p | IsPath(next, p) && p[|p| - 1] == target ensures q.steps <= |p| - 1 {
          Frontier(next, part, known, queue, p);
        }
        return Found(q.steps), trails[i], {};
      }
      visited, queue, trails, known, level := Pop(next, part, target, visited, queue, trails, known, level, i);
      n := n + 1;
    }
    return Unfinished, [], {};
  }

  /** The entry with the fewest steps, the one the max-heap of the source pops
      under its reversed ordering (among equals, the first) */
  method Best(queue: seq<Queued>) returns (i: nat)
    requires |queue| > 0
    ensures i < |queue| && forall k :: 0 <= k < |queue| ==> queue[i].steps <= queue[k].steps
  {
    i := 0;
    for k := 1 to |queue|
      invariant i < k && forall j :: 0 <= j < k ==> queue[i].steps <= queue[j].steps
    {
      if queue[k].steps < queue[i].steps {
        i := k;
      }
    }
  }

  /** One pass of the search loop for the popped entry `i`: in part two an entry
      beyond the limit is dropped; otherwise the unvisited moves from its point
      are queued with one more step and the point is marked visited */
  method Pop(next: Point -> seq<Point>, part: Part, target: Point, visited: set<Point>, queue: seq<Queued>,
             ghost trails: seq<seq<Point>>, ghost known: map<Point, seq<Point>>, ghost level: nat, i: nat)
    returns (visited': set<Point>, queue': seq<Queued>, ghost trails': seq<seq<Point>>,
             ghost known': map<Point, seq<Point>>, ghost level': nat)
    requires Inv(next, part, target, visited, queue, trails, known, level)
    requires i < |queue| && forall k :: 0 <= k < |queue| ==> queue[i].steps <= queue[k].steps
    requires part == One ==> queue[i].point != target
    ensures Inv(next, part, target, visited', queue', trails', known', level')
  {
    if part == Two && queue[i].steps > Limit {
      var rest := queue[..i] + queue[i + 1..];
      TrackedRemove(next, queue, trails, i);
      RemoveQueues(queue, i);
      SkipKeeps(next, known, queue, level, i);
      return visited, rest, trails[..i] + trails[i + 1..], known, queue[i].steps;
    }
    visited', queue', trails', known', level' := Expand(next, part, target, visited, queue, trails, known, level, i);
  }

  /** The popped entry `i` within the limit: its unvisited moves are queued with
      one more step and its point is marked visited */
  method Expand(next: Point -> seq<Point>, part: Part, target: Point, visited: set<Point>, queue: seq<Queued>,
                ghost trails: seq<seq<Point>>, ghost known: map<Point, seq<Point>>, ghost level: nat, i: nat)
    returns (visited': set<Point>, queue': seq<Queued>, ghost trails': seq<seq<Point>>,
             ghost known': map<Point, seq<Point>>, ghost level': nat)
    requires Inv(next, part, target, visited, queue, trails, known, level)
    requires i < |queue| && forall k :: 0 <= k < |queue| ==> queue[i].steps <= queue[k].steps
    requires part == One ==> queue[i].point != target
    requires part == Two ==> queue[i].steps <= Limit
    ensures Inv(next, part, target, visited', queue', trails', known', level')
  {
    var q := queue[i];
    var rest := queue[..i] + queue[i + 1..];
    ghost var restTrails := trails[..i] + trails[i + 1..];
    var more;
    ghost var moreTrails;
    more, moreTrails := Fresh(next, q, trails[i], next(q.point), visited);
    known' := if q.point in known then known else known[q.point := trails[i]];
    assert Tracked(next, rest + more, restTrails + moreTrails) by {
      TrackedRemove(next, queue, trails, i);
      TrackedAppend(next, rest, restTrails, more, moreTrails);
    }
    assert Closed(next, part, known', rest + more) by {
      RemoveQueues(queue, i);
      AppendQueues(rest, more);
      ClosedExpand(next, part, known, level, queue, rest, more, rest + more, q, trails[i], known');
    }
    assert Seeded(known', rest + more) && Leveled(rest + more, known', q.steps) by {
      RemoveQueues(queue, i);
      AppendQueues(rest, more);
      LeveledExpand(known, level, queue, i, rest, more, rest + more, trails[i], known');
    }
    return visited + {q.point}, rest + more, restTrails + moreTrails, known', q.steps;
  }

  /** Dropping entry `i` keeps the other entries' walks */
  lemma TrackedRemove(next: Point -> seq<Point>, queue: seq<Queued>, trails: seq<seq<Point>>, i: nat)
    requires Tracked(next, queue, trails) && i < |queue|
    ensures Tracked(next, queue[..i] + queue[i + 1..], trails[..i] + trails[i + 1..])
  {
    var q, t := queue[..i] + queue[i + 1..], trails[..i] + trails[i + 1..];
    forall k | 0 <= k < |q| ensures Trail(next, t[k], q[k].steps, q[k].point) {
      if k < i {
        assert q[k] == queue[k] && t[k] == trails[k];
      } else {
        assert q[k] == queue[k + 1] && t[k] == trails[k + 1];
      }
    }
  }

  /** Appending entries with their walks keeps every entry tracked */
  lemma TrackedAppend(next: Point -> seq<Point>, queue: seq<Queued>, trails: seq<seq<Point>>,
                      more: seq<Queued>, moreTrails: seq<seq<Point>>)
    requires Tracked(next, queue, trails) && Tracked(next, more, moreTrails)
    ensures Tracked(next, queue + more, trails + moreTrails)
  {
    var q, t := queue + more, trails + moreTrails;
    forall k | 0 <= k < |q| ensures Trail(next, t[k], q[k].steps, q[k].point) {
      if k >= |queue| {
        assert q[k] == more[k - |queue|] && t[k] == moreTrails[k - |queue|];
      }
    }
  }

  /** What is queued after dropping entry `i` is what was queued, apart from that
      entry */
  lemma RemoveQueues(queue: seq<Queued>, i: nat)
    requires i < |queue|
    ensures forall t, s :: Queues(queue, t, s) ==>
              Queues(queue[..i] + queue[i + 1..], t, s) || (queue[i].point == t && queue[i].steps <= s)
  {
    var rest := queue[..i] + queue[i + 1..];
    forall t, s | Queues(queue, t, s)
      ensures Queues(rest, t, s) || (queue[i].point == t && queue[i].steps <= s)
    {
      var k :| 0 <= k < |queue| && queue[k].point == t && queue[k].steps <= s;
      if k < i {
        assert rest[k] == queue[k];
      } else if k > i {
        assert rest[k - 1] == queue[k];
      }
    }
  }

  /** Dropping an entry beyond the limit keeps the invariant of part two */
  lemma SkipKeeps(next: Point -> seq<Point>, known: map<Point, seq<Point>>, queue: seq<Queued>, level: nat, i: nat)
    requires Closed(next, Two, known, queue) && Seeded(known, queue) && Leveled(queue, known, level)
    requires i < |queue| && forall k :: 0 <= k < |queue| ==> queue[i].steps <= queue[k].steps
    requires queue[i].steps > Limit
    requires forall t, s :: Queues(queue, t, s) ==>
               Queues(queue[..i] + queue[i + 1..], t, s) || (queue[i].point == t && queue[i].steps <= s)
    ensures var rest := queue[..i] + queue[i + 1..];
            Closed(next, Two, known, rest) && Seeded(known, rest) && Leveled(rest, known, queue[i].steps)
  {
    var rest := queue[..i] + queue[i + 1..];
    forall k | 0 <= k < |rest| ensures queue[i].steps <= rest[k].steps {
      if k < i {
        assert rest[k] == queue[k];
      } else {
        assert rest[k] == queue[k + 1];
      }
    }
  }

  /** Every entry of `rest` and of `more` is an entry of `queue'` */
  lemma AppendQueues(rest: seq<Queued>, more: seq<Queued>)
    ensures forall t, s :: Queues(rest, t, s) ==> Queues(rest + more, t, s)
    ensures forall t, s :: Queues(more, t, s) ==> Queues(rest + more, t, s)
  {
    var queue' := rest + more;
    forall t, s | Queues(rest, t, s) ensures Queues(queue', t, s) {
      var k :| 0 <= k < |rest| && rest[k].point == t && rest[k].steps <= s;
      assert queue'[k] == rest[k];
    }
    forall t, s | Queues(more, t, s) ensures Queues(queue', t, s) {
      var k :| 0 <= k < |more| && more[k].point == t && more[k].steps <= s;
      assert queue'[|rest| + k] == more[k];
    }
  }

  /** Visiting the popped entry `q` after queuing its unvisited moves keeps every
      move from a visited point covered */
  lemma ClosedExpand(next: Point -> seq<Point>, part: Part, known: map<Point, seq<Point>>, level: nat,
                     queue: seq<Queued>, rest: seq<Queued>, more: seq<Queued>, queue': seq<Queued>,
                     q: Queued, trail: seq<Point>, known': map<Point, seq<Point>>)
    requires Closed(next, part, known, queue) && Leveled(queue, known, level) && level <= q.steps
    requires forall t, s :: Queues(queue, t, s) ==> Queues(rest, t, s) || (q.point == t && q.steps <= s)
    requires forall t, s :: Queues(rest, t, s) ==> Queues(queue', t, s)
    requires forall t, s :: Queues(more, t, s) ==> Queues(queue', t, s)
    requires forall t :: t in next(q.point) && t !in known ==> Queues(more, t, q.steps + 1)
    requires |trail| == q.steps + 1
    requires known' == if q.point in known then known else known[q.point := trail]
    ensures Closed(next, part, known', queue')
  {
    forall v, t | v in known' && t in next(v) && (part == One || Dist(known', v) < Limit)
      ensures (t in known' && Dist(known', t) <= Dist(known', v) + 1) || Queues(queue', t, Dist(known', v) + 1)
    {
      if v in known {
        var d := Dist(known, v);
        assert Dist(known', v) == d;
        if t in known && Dist(known, t) <= d + 1 {
          assert Dist(known', t) == Dist(known, t);
        } else if !Queues(rest, t, d + 1) {
          assert Queues(queue, t, d + 1);
          assert q.point == t && q.steps <= d + 1;
          assert t in known' && Dist(known', t) <= q.steps;
        }
      } else {
        assert v == q.point && Dist(known', v) == q.steps;
        if t in known {
          assert Dist(known', t) == Dist(known, t) <= level;
        } else {
          assert Queues(more, t, q.steps + 1);
        }
      }
    }
  }

  /** Visiting the popped entry `q`, which had the fewest steps, keeps the start
      seeded and the step counts levelled at `q`'s */
  lemma LeveledExpand(known: map<Point, seq<Point>>, level: nat, queue: seq<Queued>, i: nat,
                      rest: seq<Queued>, more: seq<Queued>, queue': seq<Queued>,
                      trail: seq<Point>, known': map<Point, seq<Point>>)
    requires Seeded(known, queue) && Leveled(queue, known, level)
    requires i < |queue| && forall k :: 0 <= k < |queue| ==> queue[i].steps <= queue[k].steps
    requires rest == queue[..i] + queue[i + 1..] && queue' == rest + more
    requires forall t, s :: Queues(queue, t, s) ==> Queues(rest, t, s) || (queue[i].point == t && queue[i].steps <= s)
    requires forall t, s :: Queues(rest, t, s) ==> Queues(queue', t, s)
    requires forall k :: 0 <= k < |more| ==> more[k].steps == queue[i].steps + 1
    requires |trail| == queue[i].steps + 1
    requires known' == if queue[i].point in known then known else known[queue[i].point := trail]
    ensures Seeded(known', queue') && Leveled(queue', known', queue[i].steps)
  {
    var q := queue[i];
    forall k | 0 <= k < |queue'| ensures q.steps <= queue'[k].steps {
      if k < i {
        assert queue'[k] == queue[k];
      } else if k < |rest| {
        assert queue'[k] == queue[k + 1];
      } else {
        assert queue'[k] == more[k - |rest|];
      }
    }
    forall v | v in known' ensures Dist(known', v) <= q.steps {
      if v in known {
        assert Dist(known', v) == Dist(known, v);
      }
    }
    if Start in known && Dist(known, Start) <= 0 {
      assert Start in known' && Dist(known', Start) == Dist(known, Start);
    } else if !Queues(rest, Start, 0) {
      assert Queues(queue, Start, 0);
      assert q.point == Start && q.steps == 0;
      assert Start in known' && Dist(known', Start) <= 0;
    }
  }

  /** The moves not visited yet, queued with one more step than `q`: the source
      never queues a visited point */
  method Fresh(next: Point -> seq<Point>, q: Queued, ghost trail: seq<Point>, moves: seq<Point>, visited: set<Point>)
    returns (more: seq<Queued>, ghost trails: seq<seq<Point>>)
    requires Trail(next, trail, q.steps, q.point)
    requires forall t :: t in moves ==> t in next(q.point)
    ensures Tracked(next, more, trails)
    ensures forall k :: 0 <= k < |more| ==>
              more[k].steps == q.steps + 1 && more[k].point in moves && more[k].point !in visited
    ensures forall t :: t in moves && t !in visited ==> Queues(more, t, q.steps + 1)
  {
    more, trails := [], [];
    for k := 0 to |moves|
      invariant Tracked(next, more, trails)
      invariant forall j :: 0 <= j < |more| ==>
                  more[j].steps == q.steps + 1 && more[j].point in moves && more[j].point !in visited
      invariant forall j :: 0 <= j < k && moves[j] !in visited ==> Queues(more, moves[j], q.steps + 1)
    {
      var m := moves[k];
      if m !in visited {
        ghost var p := trail + [m];
        assert forall j :: 0 <= j < |p| - 1 ==> p[j + 1] in next(p[j]) by {
          forall j | 0 <= j < |p| - 1 ensures p[j + 1] in next(p[j]) {
            if j < |p| - 2 {
              assert p[j] == trail[j] && p[j + 1] == trail[j + 1];
            }
          }
        }
        ghost var before := more;
        more, trails := more + [Queued(q.steps + 1, m)], trails + [p];
        assert more[|more| - 1] == Queued(q.steps + 1, m);
        forall j | 0 <= j < k + 1 && moves[j] !in visited ensures Queues(more, moves[j], q.steps + 1) {
          if j < k {
            var i :| 0 <= i < |before| && before[i].point == moves[j] && before[i].steps <= q.steps + 1;
            assert more[i] == before[i];
          }
        }
      }
    }
  }

  // ---------------------------------------------------------------------------
  // The two parts

  /** Part one: the fewest steps from (1, 1) to (31, 39) */
  method Part1(input: nat, fuel: nat) returns (r: Outcome, ghost path: seq<Point>)
    ensures r.Found? ==>
              Trail(Maze(input), path, r.value, Target) &&
              forall p :: IsPath(Maze(input), p) && p[|p| - 1] == Target ==> r.value <= |p| - 1
    ensures r.Panicked? ==> forall p :: IsPath(Maze(input), p) ==> p[|p| - 1] != Target
  {
    ghost var reached;
    r, path, reached := ShortestPath(input, One, Target, fuel);
  }

  /** Part two: how many points are at most 50 steps from (1, 1) */
  method Part2(input: nat, fuel: nat) returns (r: Outcome, ghost reached: set<Point>)
    ensures !r.Panicked?
    ensures r.Found? ==> r.value == |reached| && forall v :: v in reached <==> Reachable(Maze(input), v, Limit)
  {
    ghost var path;
    r, path, reached := ShortestPath(input, Two, Target, fuel);
  }
}
