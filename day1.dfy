/** Day 1: follow "turn, then walk" instructions on the grid from the origin, facing
    North. Part one is the taxicab distance of the end point; part two walks unit
    steps and reports the first point reached a second time. */
module Day1 {
  import opened Wrappers
  import opened Strings
  import opened Compass

  datatype Instruction = Instruction(turn: Turn, steps: int)

  /** Where the walker stands and which way it faces */
  datatype Heading = Heading(facing: Direction, at: Point)

  // ---------------------------------------------------------------------------
  // Parsing

  /** One token such as "R2" or "L13"; `None` where the generator panics */
  function ParseInstruction(token: string): (r: Option<Instruction>)
    ensures r.Some? <==> |token| > 0 && token[0] in "RL" && ParseInt(token[1..]).Some?
    ensures r.Some? ==> r.value.turn == (if token[0] == 'R' then Right else Left)
                        && r.value.steps == ParseInt(token[1..]).value
  {
    if |token| == 0 then None
    else
      match ParseInt(token[1..])
      case None => None
      case Some(n) =>
        if token[0] == 'R' then Some(Instruction(Right, n))
        else if token[0] == 'L' then Some(Instruction(Left, n))
        else None
  }

  function ParseAll(tokens: seq<string>): (r: Option<seq<Instruction>>)
    ensures r.Some? <==> forall i :: 0 <= i < |tokens| ==> ParseInstruction(tokens[i]).Some?
    ensures r.Some? ==> |r.value| == |tokens| &&
                        forall i :: 0 <= i < |tokens| ==> r.value[i] == ParseInstruction(tokens[i]).value
  {
    if |tokens| == 0 then Some([])
    else
      match (ParseInstruction(tokens[0]), ParseAll(tokens[1..]))
      case (Some(i), Some(rest)) => Some([i] + rest)
      case _ => None
  }

  /** The trimmed input split at ", ", each token parsed; `None` when some token is
      not an R/L turn followed by an integer */
  function Generator(input: string): (r: Option<seq<Instruction>>)
    ensures r.Some? ==> |r.value| == |SplitOn(Trim(input), ", ")|
    ensures r.Some? <==> forall t :: t in SplitOn(Trim(input), ", ") ==> ParseInstruction(t).Some?
  {
    var tokens := SplitOn(Trim(input), ", ");
    assert forall t :: t in tokens <==> exists i :: 0 <= i < |tokens| && tokens[i] == t;
    ParseAll(tokens)
  }

  // ---------------------------------------------------------------------------
  // Part one

  /** One instruction of part one: turn first, then move the (possibly negative)
      number of steps */
  function Step(h: Heading, i: Instruction): Heading
  {
    var facing := h.facing.Turned(i.turn);
    Heading(facing, h.at.MovedSteps(facing, i.steps))
  }

  /** The heading after all the instructions, starting at the origin facing North */
  function Walk(input: seq<Instruction>): Heading
  {
    if |input| == 0 then Heading(North, Origin)
    else Step(Walk(input[..|input| - 1]), input[|input| - 1])
  }

  lemma WalkAppend(input: seq<Instruction>, i: Instruction)
    ensures Walk(input + [i]) == Step(Walk(input), i)
  {
    assert (input + [i])[..|input|] == input;
  }

  /** Total distance the instructions ask to cover */
  function PathLength(input: seq<Instruction>): nat
  {
    if |input| == 0 then 0 else PathLength(input[..|input| - 1]) + Abs(input[|input| - 1].steps)
  }

  method Part1(input: seq<Instruction>) returns (distance: nat)
    ensures distance == Manhattan(Walk(input).at)
  {
    var current := Origin;
    var direction := North;
    for i := 0 to |input|
      invariant Walk(input[..i]) == Heading(direction, current)
    {
      assert input[..i + 1][..i] == input[..i];
      direction := direction.Turned(input[i].turn);
      current := current.MovedSteps(direction, input[i].steps);
    }
    assert input[..|input|] == input;
    distance := Abs(current.x) + Abs(current.y);
  }

  /** The end point is never further away than the steps walked */
  lemma {:induction false} WalkWithinPathLength(input: seq<Instruction>)
    ensures Manhattan(Walk(input).at) <= PathLength(input)
  {
    if |input| > 0 {
      WalkWithinPathLength(input[..|input| - 1]);
    }
  }

  /** The walk of a short literal list, one instruction at a time */
  lemma WalkUnfold(input: seq<Instruction>)
    requires |input| >= 1
    ensures Walk(input[..1]) == Step(Heading(North, Origin), input[0])
    ensures forall k :: 1 <= k < |input| ==> Walk(input[..k + 1]) == Step(Walk(input[..k]), input[k])
  {
    assert input[..1][..0] == [];
    forall k | 1 <= k < |input|
      ensures Walk(input[..k + 1]) == Step(Walk(input[..k]), input[k])
    {
      assert input[..k + 1][..k] == input[..k];
    }
  }

  /** The first sample of part one, "R2, L3": 5 blocks away */
  lemma Part1SampleA(input: seq<Instruction>)
    requires input == [Instruction(Right, 2), Instruction(Left, 3)]
    ensures Manhattan(Walk(input).at) == 5
  {
    WalkUnfold(input);
    assert Walk(input[..1]) == Heading(East, Point(2, 0));
    assert input[..2] == input;
    assert Walk(input).at == Point(2, 3);
  }

  /** The second sample of part one, "R2, R2, R2": 2 blocks away */
  lemma Part1SampleB(input: seq<Instruction>)
    requires input == [Instruction(Right, 2), Instruction(Right, 2), Instruction(Right, 2)]
    ensures Manhattan(Walk(input).at) == 2
  {
    WalkUnfold(input);
    assert Walk(input[..1]) == Heading(East, Point(2, 0));
    assert Walk(input[..2]) == Heading(South, Point(2, -2));
    assert input[..3] == input;
    assert Walk(input).at == Point(0, -2);
  }

  /** The third sample of part one, "R5, L5, R5, R3": 12 blocks away */
  lemma Part1SampleC(input: seq<Instruction>)
    requires input == [Instruction(Right, 5), Instruction(Left, 5), Instruction(Right, 5), Instruction(Right, 3)]
    ensures Manhattan(Walk(input).at) == 12
  {
    WalkUnfold(input);
    assert Walk(input[..1]) == Heading(East, Point(5, 0));
    assert Walk(input[..2]) == Heading(North, Point(5, 5));
    assert Walk(input[..3]) == Heading(East, Point(10, 5));
    assert input[..4] == input;
    assert Walk(input).at == Point(10, 2);
  }

  // ---------------------------------------------------------------------------
  // Part two

  /** The `n` points one step, two steps, ... `n` steps from `p` towards `d` */
  function Segment(p: Point, d: Direction, n: nat): (r: seq<Point>)
    ensures |r| == n
    ensures forall i :: 0 <= i < n ==> r[i] == p.MovedSteps(d, i + 1)
  {
    if n == 0 then [] else Segment(p, d, n - 1) + [p.MovedSteps(d, n)]
  }

  /** One instruction of part two: turn, then step `steps` times one block at a
      time, recording each point; zero or negative steps turn without moving (the
      step loop is empty) */
  function TraceStep(t: (Heading, seq<Point>), i: Instruction): (Heading, seq<Point>)
  {
    var facing := t.0.facing.Turned(i.turn);
    var n := if i.steps < 0 then 0 else i.steps;
    (Heading(facing, t.0.at.MovedSteps(facing, n)), t.1 + Segment(t.0.at, facing, n))
  }

  /** Part two's walk: the heading afterwards and every point stepped on, in order;
      the start is not among them */
  function Trace(input: seq<Instruction>): (Heading, seq<Point>)
  {
    if |input| == 0 then (Heading(North, Origin), [])
    else TraceStep(Trace(input[..|input| - 1]), input[|input| - 1])
  }

  lemma TraceAppend(input: seq<Instruction>, i: Instruction)
    ensures Trace(input + [i]) == TraceStep(Trace(input), i)
  {
    assert (input + [i])[..|input|] == input;
  }

  /** No point of `ps` occurs twice */
  ghost predicate NoRepeats(ps: seq<Point>) {
    forall j :: 0 <= j < |ps| ==> ps[j] !in ps[..j]
  }

  /** `ps[k]` is the first point of `ps` that was seen before */
  ghost predicate IsFirstRevisit(ps: seq<Point>, k: int) {
    0 <= k < |ps| && ps[k] in ps[..k] && NoRepeats(ps[..k])
  }

  lemma {:induction false} TracePrefix(input: seq<Instruction>, i: nat)
    requires i <= |input|
    ensures Trace(input[..i]).1 <= Trace(input).1
    decreases |input|
  {
    if i < |input| {
      assert input[..|input| - 1][..i] == input[..i];
      TracePrefix(input[..|input| - 1], i);
    } else {
      assert input[..i] == input;
    }
  }

  lemma SegmentSnoc(p: Point, d: Direction, k: nat)
    ensures Segment(p, d, k + 1) == Segment(p, d, k) + [p.MovedSteps(d, k).Moved(d)]
  {
    MoveAdditive(p, d, k, 1);
  }

  lemma NoRepeatsSnoc(ps: seq<Point>, p: Point)
    requires NoRepeats(ps) && p !in ps
    ensures NoRepeats(ps + [p])
  {
    forall j | 0 <= j < |ps| + 1
      ensures (ps + [p])[j] !in (ps + [p])[..j]
    {
      if j < |ps| {
        assert (ps + [p])[..j] == ps[..j];
      } else {
        assert (ps + [p])[..j] == ps;
      }
    }
  }

  lemma FoundRevisit(full: seq<Point>, trace: seq<Point>, p: Point)
    requires trace + [p] <= full && NoRepeats(trace) && p in trace
    ensures IsFirstRevisit(full, |trace|) && full[|trace|] == p
  {
    assert full[..|trace|] == trace;
    assert full[|trace|] == (trace + [p])[|trace|];
  }

  /** A point met again during the `i`-th instruction is the first revisit of the
      whole walk */
  lemma StepRevisit(input: seq<Instruction>, i: nat, before: seq<Point>, start: Point,
                    facing: Direction, k: nat, trace: seq<Point>, p: Point)
    requires i < |input|
    requires Trace(input[..i + 1]).1
             == before + Segment(start, facing, if input[i].steps < 0 then 0 else input[i].steps)
    requires k < input[i].steps
    requires trace == before + Segment(start, facing, k)
    requires p == start.MovedSteps(facing, k).Moved(facing)
    requires NoRepeats(trace) && p in trace
    ensures IsFirstRevisit(Trace(input).1, |trace|) && Trace(input).1[|trace|] == p
  {
    SegmentSnoc(start, facing, k);
    TracePrefix(input, i + 1);
    assert Segment(start, facing, k + 1) <= Segment(start, facing, input[i].steps);
    assert trace + [p] <= Trace(input).1;
    FoundRevisit(Trace(input).1, trace, p);
  }

  /** Walks unit steps, reporting the distance of the first point stepped on twice;
      `None` where the source panics because no point repeats */
  method Part2(input: seq<Instruction>) returns (distance: Option<nat>)
    ensures distance.None? ==> NoRepeats(Trace(input).1)
    ensures distance.Some? ==>
      exists k :: IsFirstRevisit(Trace(input).1, k) && distance.value == Manhattan(Trace(input).1[k])
  {
    var current := Origin;
    var direction := North;
    var seen: set<Point> := {};
    ghost var trace: seq<Point> := [];
    for i := 0 to |input|
      invariant Trace(input[..i]) == (Heading(direction, current), trace)
      invariant forall q :: q in seen <==> q in trace
      invariant NoRepeats(trace)
    {
      TraceAppend(input[..i], input[i]);
      assert input[..i] + [input[i]] == input[..i + 1];
      ghost var before := trace;
      ghost var start := current;
      direction := direction.Turned(input[i].turn);
      ghost var n := if input[i].steps < 0 then 0 else input[i].steps;
      var k := 0;
      while k < input[i].steps
        invariant 0 <= k <= n
        invariant current == start.MovedSteps(direction, k)
        invariant trace == before + Segment(start, direction, k)
        invariant forall q :: q in seen <==> q in trace
        invariant NoRepeats(trace)
      {
        SegmentSnoc(start, direction, k);
        current := current.Moved(direction);
        if current in seen {
          StepRevisit(input, i, before, start, direction, k, trace, current);
          return Some(Abs(current.x) + Abs(current.y));
        }
        NoRepeatsSnoc(trace, current);
        seen := seen + {current};
        trace := trace + [current];
        k := k + 1;
      }
    }
    assert input[..|input|] == input;
    return None;
  }

  lemma Trace4(a: Instruction, b: Instruction, c: Instruction, d: Instruction)
    ensures Trace([a, b, c, d])
            == TraceStep(TraceStep(TraceStep(TraceStep((Heading(North, Origin), []), a), b), c), d)
  {
    TraceAppend([], a);
    assert [] + [a] == [a];
    TraceAppend([a], b);
    assert [a] + [b] == [a, b];
    TraceAppend([a, b], c);
    assert [a, b] + [c] == [a, b, c];
    TraceAppend([a, b, c], d);
    assert [a, b, c] + [d] == [a, b, c, d];
  }

  /** The sample of part two, "R8, R4, R4, R8": the walk first crosses itself at
      (4, 0), 4 blocks away */
  lemma Part2Sample(input: seq<Instruction>)
    requires input == [Instruction(Right, 8), Instruction(Right, 4), Instruction(Right, 4), Instruction(Right, 8)]
    ensures IsFirstRevisit(Trace(input).1, 19) && Manhattan(Trace(input).1[19]) == 4
  {
    var prefix := SampleTrace(input);
    SamplePrefixDistinct(prefix);
    var t := Trace(input).1;
    assert t[..19] == prefix;
    assert t[19] == prefix[3];
  }

  /** The first twenty points of the sample's walk: East to (8, 0), South to
      (8, -4), West to (4, -4), then North through (4, 0) */
  lemma SampleTrace(input: seq<Instruction>) returns (prefix: seq<Point>)
    requires input == [Instruction(Right, 8), Instruction(Right, 4), Instruction(Right, 4), Instruction(Right, 8)]
    ensures prefix == [Point(1, 0), Point(2, 0), Point(3, 0), Point(4, 0),
                       Point(5, 0), Point(6, 0), Point(7, 0), Point(8, 0),
                       Point(8, -1), Point(8, -2), Point(8, -3), Point(8, -4),
                       Point(7, -4), Point(6, -4), Point(5, -4), Point(4, -4),
                       Point(4, -3), Point(4, -2), Point(4, -1)]
    ensures |Trace(input).1| >= 20 && Trace(input).1[..19] == prefix && Trace(input).1[19] == Point(4, 0)
  {
    var r8, r4 := Instruction(Right, 8), Instruction(Right, 4);
    Trace4(r8, r4, r4, r8);
    var s1 := [Point(1, 0), Point(2, 0), Point(3, 0), Point(4, 0),
               Point(5, 0), Point(6, 0), Point(7, 0), Point(8, 0)];
    var s2 := [Point(8, -1), Point(8, -2), Point(8, -3), Point(8, -4)];
    var s3 := [Point(7, -4), Point(6, -4), Point(5, -4), Point(4, -4)];
    var t1 := TraceStep((Heading(North, Origin), []), r8);
    assert Segment(Origin, East, 8) == s1;
    assert t1.0 == Heading(East, Point(8, 0)) && t1.1 == s1;
    var t2 := TraceStep(t1, r4);
    assert Segment(Point(8, 0), South, 4) == s2;
    assert t2.0 == Heading(South, Point(8, -4)) && t2.1 == s1 + s2;
    var t3 := TraceStep(t2, r4);
    assert Segment(Point(8, -4), West, 4) == s3;
    assert t3.0 == Heading(West, Point(4, -4)) && t3.1 == s1 + s2 + s3;
    var t4 := TraceStep(t3, r8);
    var seg := Segment(Point(4, -4), North, 8);
    assert t4.1 == s1 + s2 + s3 + seg;
    assert seg[..3] == [Point(4, -3), Point(4, -2), Point(4, -1)] && seg[3] == Point(4, 0);
    prefix := s1 + s2 + s3 + seg[..3];
    assert t4.1[..19] == prefix;
  }

  lemma SamplePrefixDistinct(prefix: seq<Point>)
    requires prefix == [Point(1, 0), Point(2, 0), Point(3, 0), Point(4, 0),
                        Point(5, 0), Point(6, 0), Point(7, 0), Point(8, 0),
                        Point(8, -1), Point(8, -2), Point(8, -3), Point(8, -4),
                        Point(7, -4), Point(6, -4), Point(5, -4), Point(4, -4),
                        Point(4, -3), Point(4, -2), Point(4, -1)]
    ensures NoRepeats(prefix)
  {
    forall j | 0 <= j < 19
      ensures prefix[j] !in prefix[..j]
    {
      assert forall q :: 0 <= q < j ==> prefix[q] != prefix[j];
    }
  }

  /** The origin is not recorded before walking: a square walk that comes back to
      it has no repeated point, so part two panics on it */
  lemma Part2OriginNotSeen(input: seq<Instruction>)
    requires input == [Instruction(Right, 1), Instruction(Right, 1), Instruction(Right, 1), Instruction(Right, 1)]
    ensures Trace(input).1 == [Point(1, 0), Point(1, -1), Point(0, -1), Point(0, 0)]
    ensures NoRepeats(Trace(input).1)
  {
    var r1 := Instruction(Right, 1);
    Trace4(r1, r1, r1, r1);
    var t1 := TraceStep((Heading(North, Origin), []), r1);
    assert t1.0 == Heading(East, Point(1, 0)) && t1.1 == [Point(1, 0)];
    var t2 := TraceStep(t1, r1);
    assert t2.0 == Heading(South, Point(1, -1)) && t2.1 == [Point(1, 0), Point(1, -1)];
    var t3 := TraceStep(t2, r1);
    assert t3.0 == Heading(West, Point(0, -1)) && t3.1 == [Point(1, 0), Point(1, -1), Point(0, -1)];
    var t := TraceStep(t3, r1).1;
    assert t == [Point(1, 0), Point(1, -1), Point(0, -1), Point(0, 0)];
    assert t[..1] == [Point(1, 0)] && t[..2] == [Point(1, 0), Point(1, -1)];
    assert t[..3] == [Point(1, 0), Point(1, -1), Point(0, -1)];
  }
}
