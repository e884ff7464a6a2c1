/** Day 11: generators and microchips on the four floors of a building, carried
    one or two at a time in an elevator. A microchip left on a floor with some
    other generator is fried unless its own generator is there too. The search
    looks for the fewest elevator trips that bring everything to the top floor,
    taking the queued state with the smallest trips-plus-heuristic first. */
module Day11 {
  import opened Wrappers

  datatype Item = Generator(name: string) | Microchip(name: string)

  datatype Direction = Up | Down

  /** The floor the elevator is on and the items on each floor */
  datatype State = State(elevator: nat, floors: seq<set<Item>>)

  /** The building has four floors (a fixed-size array in the source) */
  predicate Shaped(s: State) {
    |s.floors| == 4
  }

  /** A state in which the elevator is on one of the four floors */
  predicate Placed(s: State) {
    Shaped(s) && s.elevator < 4
  }

  // ---------------------------------------------------------------------------
  // Floors

  /** `next_floor`: one floor up or down, and nowhere past the ground and top
      floors */
  function NextFloor(elevator: nat, d: Direction): (r: Option<nat>)
    ensures r.Some? <==> (d == Up && elevator < 3) || (d == Down && 1 <= elevator <= 3)
    ensures r.Some? ==> r.value < 4 && r.value == if d == Up then elevator + 1 else elevator - 1
  {
    match (d, elevator)
    case (Up, 0) => Some(1)
    case (Up, 1) => Some(2)
    case (Up, 2) => Some(3)
    case (Down, 1) => Some(0)
    case (Down, 2) => Some(1)
    case (Down, 3) => Some(2)
    case _ => None
  }

  /** A floor is safe when it holds no generator, or when every microchip on it
      has its own generator beside it */
  predicate FloorValid(items: set<Item>) {
    (forall i :: i in items ==> !i.Generator?) ||
    (forall i :: i in items && i.Microchip? ==> Generator(i.name) in items)
  }

  /** Every floor is safe */
  predicate Valid(s: State) {
    forall f :: 0 <= f < |s.floors| ==> FloorValid(s.floors[f])
  }

  /** `floor_is_valid`: collects the names of the generators and of the
      microchips on the floor, then compares them */
  method FloorIsValid(items: set<Item>) returns (ok: bool)
    ensures ok == FloorValid(items)
  {
    var generators: set<string> := {};
    var microchips: set<string> := {};
    var rest := items;
    while rest != {}
      invariant rest <= items
      invariant forall n :: n in generators <==> Generator(n) in items - rest
      invariant forall n :: n in microchips <==> Microchip(n) in items - rest
      decreases |rest|
    {
      var item :| item in rest;
      match item {
        case Generator(n) => generators := generators + {n};
        case Microchip(n) => microchips := microchips + {n};
      }
      rest := rest - {item};
    }
    ok := generators == {} || microchips <= generators;
    assert forall i :: i in items && i.Generator? ==> i.name in generators by {
      forall i | i in items && i.Generator? ensures i.name in generators {
        assert Generator(i.name) == i;
      }
    }
    if generators != {} {
      var g :| g in generators;
      assert Generator(g) in items;
    }
  }

  /** `is_valid`: every floor passes `floor_is_valid` */
  method IsValid(s: State) returns (ok: bool)
    ensures ok == Valid(s)
  {
    for f := 0 to |s.floors|
      invariant forall g :: 0 <= g < f ==> FloorValid(s.floors[g])
    {
      ok := FloorIsValid(s.floors[f]);
      if !ok {
        return;
      }
    }
    return true;
  }

  // ---------------------------------------------------------------------------
  // Moves

  /** `try_move`: the elevator goes to the next floor with the items `take`,
      which leave the current floor and join the next one; `None` when there is no
      next floor or the new state is not safe */
  function Moved(s: State, d: Direction, take: set<Item>): Option<State>
    requires Shaped(s)
  {
    match NextFloor(s.elevator, d)
    case None => None
    case Some(next) =>
      var left := s.floors[s.elevator := s.floors[s.elevator] - take];
      var t := State(next, left[next := left[next] + take]);
      if Valid(t) then Some(t) else None
  }

  /** What a successful move does: the elevator is on the next floor, the taken
      items have left the old floor and joined the new one, the two other floors
      are as they were, and the new state is safe */
  lemma MovedFacts(s: State, d: Direction, take: set<Item>)
    requires Shaped(s)
    ensures Moved(s, d, take).Some? <==>
              NextFloor(s.elevator, d).Some? &&
              Valid(State(NextFloor(s.elevator, d).value,
                          s.floors[s.elevator := s.floors[s.elevator] - take]
                                  [NextFloor(s.elevator, d).value := s.floors[NextFloor(s.elevator, d).value] + take]))
    ensures Moved(s, d, take).Some? ==>
              var t, next := Moved(s, d, take).value, NextFloor(s.elevator, d).value;
              Placed(t) && Valid(t) && t.elevator == next &&
              t.floors[s.elevator] == s.floors[s.elevator] - take &&
              t.floors[next] == s.floors[next] + take &&
              forall f :: 0 <= f < 4 && f != s.elevator && f != next ==> t.floors[f] == s.floors[f]
  {
  }

  /** All the items in the building */
  function Everything(s: State): set<Item>
    requires Shaped(s)
  {
    s.floors[0] + s.floors[1] + s.floors[2] + s.floors[3]
  }

  /** Carrying items that are on the elevator's floor keeps every item in the
      building */
  lemma MovedKeepsItems(s: State, d: Direction, take: set<Item>)
    requires Shaped(s) && s.elevator < 4 && take <= s.floors[s.elevator]
    requires Moved(s, d, take).Some?
    ensures Everything(Moved(s, d, take).value) == Everything(s)
  {
    MovedFacts(s, d, take);
    var t, next := Moved(s, d, take).value, NextFloor(s.elevator, d).value;
    forall x ensures x in Everything(t) <==> x in Everything(s) {
      if x in take {
        assert x in s.floors[s.elevator] && x in t.floors[next];
      }
    }
  }

  method TryMove(s: State, d: Direction, take: set<Item>) returns (r: Option<State>)
    requires Shaped(s)
    ensures r == Moved(s, d, take)
  {
    var next := NextFloor(s.elevator, d);
    if next.None? {
      return None;
    }
    var floors := s.floors;
    floors := floors[s.elevator := floors[s.elevator] - take];
    floors := floors[next.value := floors[next.value] + take];
    var t := State(next.value, floors);
    var ok := IsValid(t);
    r := if ok then Some(t) else None;
  }

  /** One or two items from the elevator's floor */
  predicate Load(s: State, take: set<Item>)
    requires Placed(s)
  {
    take <= s.floors[s.elevator] && 1 <= |take| <= 2
  }

  /** `t` follows from `s` by one trip of the elevator with one or two items */
  ghost predicate Step(s: State, t: State)
    requires Placed(s)
  {
    exists d, take :: Load(s, take) && Moved(s, d, take) == Some(t)
  }

  /** `valid_moves`: every safe trip, up or down, with one item of the floor or
      two distinct ones, visiting the items in the order given (the source uses
      the sorted order of its `BTreeSet`) */
  method ValidMoves(s: State) returns (moves: seq<State>)
    requires Placed(s)
    ensures forall t :: t in moves <==> Step(s, t)
  {
    var items := Elements(s.floors[s.elevator]);
    moves := [];
    var up := FromDirection(s, Up, items);
    var down := FromDirection(s, Down, items);
    moves := up + down;
    forall t | Step(s, t) ensures t in moves {
      var d, take :| Load(s, take) && Moved(s, d, take) == Some(t);
      var a, b := Indices(items, take);
      assert Covered(s, d, items, a, if d == Up then up else down);
    }
  }

  /** Two positions of the list that together hold a set of one or two of its
      elements */
  lemma Indices(items: seq<Item>, take: set<Item>) returns (a: nat, b: nat)
    requires 1 <= |take| <= 2 && take <= set x | x in items
    ensures a <= b < |items| && take == {items[a], items[b]}
  {
    var x :| x in take;
    assert x in items;
    var i :| 0 <= i < |items| && items[i] == x;
    if |take| == 1 {
      assert |take - {x}| == 0;
      assert take == {x};
      a, b := i, i;
    } else {
      assert |take - {x}| == 1;
      var y :| y in take - {x};
      assert y in items;
      var j :| 0 <= j < |items| && items[j] == y;
      assert take == {x, y} by {
        assert {x, y} <= take;
        assert |take - {x, y}| == 0;
      }
      if i <= j { a, b := i, j; } else { a, b := j, i; }
    }
  }

  /** The items of a set, each once, in some order */
  method Elements(items: set<Item>) returns (xs: seq<Item>)
    ensures (set x | x in xs) == items
  {
    xs := [];
    var rest := items;
    while rest != {}
      invariant rest <= items
      invariant (set x | x in xs) == items - rest
      decreases |rest|
    {
      var x :| x in rest;
      assert (set y | y in xs + [x]) == (set y | y in xs) + {x};
      xs := xs + [x];
      rest := rest - {x};
    }
  }

  /** Every trip with `items[a]` and an item at or after it that is safe is among
      the moves */
  predicate Covered(s: State, d: Direction, items: seq<Item>, a: nat, moves: seq<State>)
    requires Shaped(s)
  {
    forall b :: a <= b < |items| && Moved(s, d, {items[a], items[b]}).Some? ==>
      Moved(s, d, {items[a], items[b]}).value in moves
  }

  lemma CoveredGrows(s: State, d: Direction, items: seq<Item>, a: nat, moves: seq<State>, more: seq<State>)
    requires Shaped(s) && Covered(s, d, items, a, moves)
    ensures Covered(s, d, items, a, moves + more)
  {
    assert forall t :: t in moves ==> t in moves + more;
  }

  /** The trips in one direction: for each item, the item alone and then the item
      with each later one */
  method FromDirection(s: State, d: Direction, items: seq<Item>) returns (moves: seq<State>)
    requires Placed(s) && (set x | x in items) == s.floors[s.elevator]
    ensures forall t :: t in moves ==> Step(s, t)
    ensures forall a :: 0 <= a < |items| ==> Covered(s, d, items, a, moves)
  {
    moves := [];
    if NextFloor(s.elevator, d).None? {
      return;
    }
    for i := 0 to |items|
      invariant forall t :: t in moves ==> Step(s, t)
      invariant forall a :: 0 <= a < i ==> Covered(s, d, items, a, moves)
    {
      var more := WithItem(s, d, items, i);
      forall a | 0 <= a < i ensures Covered(s, d, items, a, moves + more) {
        CoveredGrows(s, d, items, a, moves, more);
      }
      assert Covered(s, d, items, i, moves + more) by {
        assert forall t :: t in more ==> t in moves + more;
      }
      moves := moves + more;
    }
  }

  /** The trips with `items[i]` alone and with `items[i]` and each later item */
  method WithItem(s: State, d: Direction, items: seq<Item>, i: nat) returns (moves: seq<State>)
    requires Placed(s) && (set x | x in items) == s.floors[s.elevator] && i < |items|
    ensures forall t :: t in moves ==> Step(s, t)
    ensures Covered(s, d, items, i, moves)
  {
    moves := [];
    var one := TryMove(s, d, {items[i]});
    assert {items[i]} == {items[i], items[i]};
    if one.Some? {
      assert Load(s, {items[i]});
      moves := moves + [one.value];
    }
    for j := i + 1 to |items|
      invariant forall t :: t in moves ==> Step(s, t)
      invariant forall b :: i <= b < j && Moved(s, d, {items[i], items[b]}).Some? ==>
                  Moved(s, d, {items[i], items[b]}).value in moves
    {
      var two := TryMove(s, d, {items[i], items[j]});
      if two.Some? {
        assert Load(s, {items[i], items[j]}) by {
          assert |{items[i], items[j]}| <= 2;
        }
        moves := moves + [two.value];
      }
    }
  }

  // ---------------------------------------------------------------------------
  // Goal and priority

  /** `is_complete`: the elevator is on the top floor, which holds everything */
  predicate IsComplete(s: State)
    requires Shaped(s)
  {
    s.elevator == 3 && s.floors[0] == {} && s.floors[1] == {} && s.floors[2] == {} && s.floors[3] != {}
  }

  /** `priority_heuristic`: items weigh 3 on the ground floor, 2 on the first and
      1 on the second, times 4 */
  function Heuristic(s: State): nat
    requires Shaped(s)
  {
    (|s.floors[0]| * 3 + |s.floors[1]| * 2 + |s.floors[2]|) * 4
  }

  /** The heuristic vanishes exactly when the three lower floors are empty, in
      particular on a complete state */
  lemma HeuristicZero(s: State)
    requires Shaped(s)
    ensures Heuristic(s) == 0 <==> s.floors[0] == {} && s.floors[1] == {} && s.floors[2] == {}
    ensures IsComplete(s) ==> Heuristic(s) == 0
  {
  }

  /** Bringing an item up from a lower floor to the top floor lowers the heuristic */
  lemma HeuristicFalls(s: State, t: State)
    requires Shaped(s) && Shaped(t)
    requires forall f :: 0 <= f < 3 ==> |t.floors[f]| <= |s.floors[f]|
    requires exists f :: 0 <= f < 3 && |t.floors[f]| < |s.floors[f]|
    ensures Heuristic(t) < Heuristic(s)
  {
  }

  /** A state in the queue with the trips taken to reach it */
  datatype Queued = Queued(steps: nat, state: State)

  /** The trips taken plus the heuristic */
  function Priority(q: Queued): nat
    requires Shaped(q.state)
  {
    q.steps + Heuristic(q.state)
  }

  datatype Ordering = Less | Equal | Greater

  /** `QueuedState::cmp`: the priorities compared, reversed, so that the max-heap
      pops the smallest priority first */
  function Compare(a: Queued, b: Queued): (r: Ordering)
    requires Shaped(a.state) && Shaped(b.state)
    ensures r == Greater <==> Priority(a) < Priority(b)
    ensures r == Less <==> Priority(b) < Priority(a)
    ensures r == Equal <==> Priority(a) == Priority(b)
  {
    var left, right := Priority(a), Priority(b);
    if left < right then Greater else if left == right then Equal else Less
  }

  /** `cmp` is a total preorder: swapping the arguments reverses it, and it is
      transitive */
  lemma CompareOrder(a: Queued, b: Queued, c: Queued)
    requires Shaped(a.state) && Shaped(b.state) && Shaped(c.state)
    ensures Compare(a, b) == Greater <==> Compare(b, a) == Less
    ensures Compare(a, b) == Equal <==> Compare(b, a) == Equal
    ensures Compare(a, b) != Less && Compare(b, c) != Less ==> Compare(a, c) != Less
  {
  }

  // ---------------------------------------------------------------------------
  // The search

  /** A sequence of states each reached from the one before by a trip */
  ghost predicate IsPath(p: seq<State>) {
    |p| > 0 && Placed(p[0]) &&
    forall k :: 0 <= k < |p| - 1 ==> Placed(p[k]) && Step(p[k], p[k + 1])
  }

  /** A path from `start` to the queued state with as many trips as it counts */
  ghost predicate Trail(start: State, p: seq<State>, q: Queued) {
    IsPath(p) && p[0] == start && |p| == q.steps + 1 && p[|p| - 1] == q.state
  }

  /** The states in the queue */
  function Holds(queue: seq<Queued>): set<State> {
    set q | q in queue :: q.state
  }

  /** Every trip from a visited state leads to a visited or a queued state */
  ghost predicate Closed(visited: set<State>, queue: seq<Queued>) {
    forall v, t :: v in visited && Placed(v) && Step(v, t) ==> t in visited || t in Holds(queue)
  }

  /** How `search` ends: with the trips of the first complete state it takes from
      the queue, with an empty queue (where the source panics), or still running
      when the fuel is spent */
  datatype Outcome = Trips(count: nat) | NoSolution | Unfinished

  /** Every queued state comes with a path from the start as long as its count */
  ghost predicate Tracked(start: State, queue: seq<Queued>, trails: seq<seq<State>>) {
    |trails| == |queue| &&
    forall k :: 0 <= k < |queue| ==> Placed(queue[k].state) && Trail(start, trails[k], queue[k])
  }

  /** The visited states are not complete, every trip from one of them leads to a
      visited or a queued state, and the start is visited or queued */
  ghost predicate Explored(start: State, visited: set<State>, queue: seq<Queued>) {
    (forall v :: v in visited ==> Placed(v) && !IsComplete(v)) &&
    Closed(visited, queue) &&
    (start in visited || start in Holds(queue))
  }

  /** `search`. A count it returns is the length of a real sequence of trips from
      the input to a complete state; it finds no solution only when no complete
      state can be reached at all */
  method Search(input: State, fuel: nat) returns (r: Outcome, ghost path: seq<State>)
    requires Placed(input)
    ensures r.Trips? ==> IsPath(path) && path[0] == input && |path| == r.count + 1 &&
                         Shaped(path[|path| - 1]) && IsComplete(path[|path| - 1])
    ensures r.NoSolution? ==>
              forall p :: IsPath(p) && p[0] == input ==> Shaped(p[|p| - 1]) && !IsComplete(p[|p| - 1])
  {
    var visited: set<State> := {};
    var queue := [Queued(0, input)];
    ghost var trails := [[input]];
    var n := 0;
    while n < fuel
      invariant Tracked(input, queue, trails) && Explored(input, visited, queue)
    {
      if |queue| == 0 {
        forall p | IsPath(p) && p[0] == input ensures Shaped(p[|p| - 1]) && !IsComplete(p[|p| - 1]) {
          ClosedPaths(visited, input, p);
        }
        return NoSolution, [];
      }
      var i := Best(queue);
      var q := queue[i];
      if IsComplete(q.state) {
        return Trips(q.steps), trails[i];
      }
      visited, queue, trails := Visit(input, visited, queue, trails, i);
      n := n + 1;
    }
    return Unfinished, [];
  }

  /** One pass of the search loop for the popped entry `i`, which is not
      complete: its unvisited successors are queued and it is marked visited */
  method Visit(ghost start: State, visited: set<State>, queue: seq<Queued>, ghost trails: seq<seq<State>>, i: nat)
    returns (visited': set<State>, queue': seq<Queued>, ghost trails': seq<seq<State>>)
    requires Tracked(start, queue, trails) && Explored(start, visited, queue)
    requires i < |queue| && !IsComplete(queue[i].state)
    ensures Tracked(start, queue', trails') && Explored(start, visited', queue')
  {
    var q := queue[i];
    var rest := queue[..i] + queue[i + 1..];
    ghost var restTrails := trails[..i] + trails[i + 1..];
    RemoveKeeps(queue, i);
    var moves := ValidMoves(q.state);
    var more;
    ghost var moreTrails;
    more, moreTrails := Fresh(start, q, trails[i], moves, visited);
    QueueGrows(rest, more);
    TrackedAfter(start, queue, trails, i, more, moreTrails);
    visited', queue', trails' := visited + {q.state}, rest + more, restTrails + moreTrails;
    ClosedAfter(visited, queue, rest, more, q.state, moves);
  }

  /** Dropping entry `i` and appending new entries with their paths keeps every
      queued state tracked */
  lemma TrackedAfter(start: State, queue: seq<Queued>, trails: seq<seq<State>>, i: nat,
                     more: seq<Queued>, moreTrails: seq<seq<State>>)
    requires Tracked(start, queue, trails) && i < |queue| && Tracked(start, more, moreTrails)
    ensures Tracked(start, queue[..i] + queue[i + 1..] + more, trails[..i] + trails[i + 1..] + moreTrails)
  {
    var q, t := queue[..i] + queue[i + 1..] + more, trails[..i] + trails[i + 1..] + moreTrails;
    forall k | 0 <= k < |q| ensures Placed(q[k].state) && Trail(start, t[k], q[k]) {
      if k < i {
        assert q[k] == queue[k] && t[k] == trails[k];
      } else if k < |queue| - 1 {
        assert q[k] == queue[k + 1] && t[k] == trails[k + 1];
      } else {
        assert q[k] == more[k - (|queue| - 1)] && t[k] == moreTrails[k - (|queue| - 1)];
      }
    }
  }

  /** Marking the popped state visited after queuing its unvisited successors
      keeps the visited states closed */
  lemma ClosedAfter(visited: set<State>, queue: seq<Queued>, rest: seq<Queued>, more: seq<Queued>,
                    s: State, moves: seq<State>)
    requires Closed(visited, queue) && Holds(queue) == Holds(rest) + {s}
    requires Placed(s) && forall t :: Step(s, t) ==> t in moves
    requires forall t :: t in moves && t !in visited ==> t in Holds(more)
    requires Holds(rest + more) == Holds(rest) + Holds(more)
    ensures Closed(visited + {s}, rest + more)
  {
  }

  /** Removing one entry of the queue keeps the states of all the others */
  lemma RemoveKeeps(queue: seq<Queued>, i: nat)
    requires i < |queue|
    ensures Holds(queue) == Holds(queue[..i] + queue[i + 1..]) + {queue[i].state}
  {
    var rest := queue[..i] + queue[i + 1..];
    forall t | t in Holds(queue) ensures t in Holds(rest) + {queue[i].state} {
      var k :| 0 <= k < |queue| && queue[k].state == t;
      if k < i {
        assert rest[k] == queue[k];
      } else if k > i {
        assert rest[k - 1] == queue[k];
      }
    }
    forall t | t in Holds(rest) ensures t in Holds(queue) {
      var k :| 0 <= k < |rest| && rest[k].state == t;
      if k < i {
        assert rest[k] == queue[k];
      } else {
        assert rest[k] == queue[k + 1];
      }
    }
  }

  lemma QueueGrows(queue: seq<Queued>, more: seq<Queued>)
    ensures Holds(queue + more) == Holds(queue) + Holds(more)
  {
    assert forall q :: q in queue + more <==> q in queue || q in more;
  }

  /** In a closed set of visited states that holds the start, every path from the
      start stays among the visited states */
  lemma ClosedPaths(visited: set<State>, start: State, p: seq<State>)
    requires Closed(visited, []) && start in visited
    requires forall v :: v in visited ==> Placed(v) && !IsComplete(v)
    requires IsPath(p) && p[0] == start
    ensures Shaped(p[|p| - 1]) && !IsComplete(p[|p| - 1])
  {
    var k := 0;
    while k < |p| - 1
      invariant 0 <= k < |p| && p[k] in visited
    {
      assert Placed(p[k]) && Step(p[k], p[k + 1]);
      k := k + 1;
    }
  }

  /** The queued entry with the smallest priority, the one the max-heap of the
      source pops under its reversed ordering (among equals, the first) */
  method Best(queue: seq<Queued>) returns (i: nat)
    requires |queue| > 0 && forall k :: 0 <= k < |queue| ==> Shaped(queue[k].state)
    ensures i < |queue| && forall k :: 0 <= k < |queue| ==> Compare(queue[i], queue[k]) != Less
  {
    i := 0;
    for k := 1 to |queue|
      invariant i < k && forall j :: 0 <= j < k ==> Priority(queue[i]) <= Priority(queue[j])
    {
      if Priority(queue[k]) < Priority(queue[i]) {
        i := k;
      }
    }
  }

  /** A trip from the end of a trail extends it to the reached state */
  lemma TrailExtend(start: State, trail: seq<State>, q: Queued, m: State)
    requires Placed(q.state) && Trail(start, trail, q) && Step(q.state, m)
    ensures Placed(m) && Trail(start, trail + [m], Queued(q.steps + 1, m))
  {
    var d, take :| Load(q.state, take) && Moved(q.state, d, take) == Some(m);
    MovedFacts(q.state, d, take);
    var p := trail + [m];
    forall j | 0 <= j < |p| - 1 ensures Placed(p[j]) && Step(p[j], p[j + 1]) {
      if j < |p| - 2 {
        assert p[j] == trail[j] && p[j + 1] == trail[j + 1];
      }
    }
  }

  /** The successors not visited yet, queued with one more trip than `q`: the
      source never queues a visited state */
  method Fresh(ghost start: State, q: Queued, ghost trail: seq<State>, moves: seq<State>, visited: set<State>)
    returns (more: seq<Queued>, ghost trails: seq<seq<State>>)
    requires Placed(q.state) && Trail(start, trail, q)
    requires forall t :: t in moves ==> Step(q.state, t)
    ensures Tracked(start, more, trails)
    ensures forall k :: 0 <= k < |more| ==>
              more[k].steps == q.steps + 1 && more[k].state in moves && more[k].state !in visited
    ensures forall t :: t in moves && t !in visited ==> t in Holds(more)
  {
    more, trails := [], [];
    for k := 0 to |moves|
      invariant Tracked(start, more, trails)
      invariant forall j :: 0 <= j < |more| ==>
                  more[j].steps == q.steps + 1 && more[j].state in moves && more[j].state !in visited
      invariant forall j :: 0 <= j < k && moves[j] !in visited ==> moves[j] in Holds(more)
    {
      var m := moves[k];
      if m !in visited {
        TrailExtend(start, trail, q, m);
        more, trails := more + [Queued(q.steps + 1, m)], trails + [trail + [m]];
      }
    }
  }

  // ---------------------------------------------------------------------------
  // The two parts

  /** The items part two adds to the ground floor; the source spells the second
      element with a trailing space, which keeps it distinct from any name read
      from the input */
  const Extras: set<Item> :=
    {Generator("elerium"), Microchip("elerium"), Generator("dilithium "), Microchip("dilithium ")}

  /** The input with the extra items on the ground floor */
  function WithExtras(s: State): (t: State)
    requires Shaped(s)
    ensures Shaped(t) && t.elevator == s.elevator && t.floors[0] == s.floors[0] + Extras
    ensures forall f :: 1 <= f < 4 ==> t.floors[f] == s.floors[f]
  {
    s.(floors := s.floors[0 := s.floors[0] + Extras])
  }

  /** With the extra generators the ground floor is safe exactly when each of its
      microchips has its own generator */
  lemma ExtrasOnFloor(items: set<Item>)
    ensures FloorValid(items + Extras) <==>
              forall i :: i in items && i.Microchip? ==> Generator(i.name) in items + Extras
  {
    assert Generator("elerium") in items + Extras;
  }

  method Part1(input: State, fuel: nat) returns (r: Outcome, ghost path: seq<State>)
    requires Placed(input)
    ensures r.Trips? ==> IsPath(path) && path[0] == input && |path| == r.count + 1 &&
                         Shaped(path[|path| - 1]) && IsComplete(path[|path| - 1])
    ensures r.NoSolution? ==>
              forall p :: IsPath(p) && p[0] == input ==> Shaped(p[|p| - 1]) && !IsComplete(p[|p| - 1])
  {
    r, path := Search(input, fuel);
  }

  method Part2(input: State, fuel: nat) returns (r: Outcome, ghost path: seq<State>)
    requires Placed(input)
    ensures r.Trips? ==> IsPath(path) && path[0] == WithExtras(input) && |path| == r.count + 1 &&
                         Shaped(path[|path| - 1]) && IsComplete(path[|path| - 1])
    ensures r.NoSolution? ==>
              forall p :: IsPath(p) && p[0] == WithExtras(input) ==> Shaped(p[|p| - 1]) && !IsComplete(p[|p| - 1])
  {
    r, path := Search(WithExtras(input), fuel);
  }
}
