/** Day 19: elves numbered 1 to `count` sit in a circle and take turns stealing
    all the presents of another elf, who then leaves the circle. In part one the
    victim is the next elf round the circle, in part two the elf directly across
    it. The answer is the number of the last elf left. Circles are written with
    the elf whose turn it is first, in clockwise order. */
module Day19 {
  import opened Wrappers
  import opened Strings

  /** `(from..from + n).collect::<VecDeque<_>>()`: the numbers `from`, `from + 1`,
      ..., `from + n - 1` in order */
  function Numbered(from: nat, n: nat): seq<nat>
  {
    seq(n, k requires 0 <= k < n => from + k)
  }

  /** The elf whose turn it is moves from the front to the back */
  function Rotate(circle: seq<nat>): seq<nat>
    requires |circle| >= 1
  {
    circle[1..] + [circle[0]]
  }

  /** Powers of two and of three */
  predicate PowerOfTwo(p: nat)
    decreases p
  {
    p == 1 || (p >= 2 && p % 2 == 0 && PowerOfTwo(p / 2))
  }

  predicate PowerOfThree(p: nat)
    decreases p
  {
    p == 1 || (p >= 3 && p % 3 == 0 && PowerOfThree(p / 3))
  }

  /** The largest power of two that is at most `n` */
  function HighestPowerOfTwo(n: nat): (p: nat)
    requires n >= 1
    ensures PowerOfTwo(p) && p <= n < 2 * p
  {
    if n == 1 then 1 else 2 * HighestPowerOfTwo(n / 2)
  }

  /** The largest power of three that is at most `n` */
  function HighestPowerOfThree(n: nat): (p: nat)
    requires n >= 1
    ensures PowerOfThree(p) && p <= n < 3 * p
  {
    if n < 3 then 1 else 3 * HighestPowerOfThree(n / 3)
  }

  // ---------------------------------------------------------------------------
  // Part one: the next elf is robbed

  /** One turn of part one: the elf whose turn it is goes to the back, and the
      elf now at the front leaves */
  function Eliminate(circle: seq<nat>): seq<nat>
    requires |circle| >= 2
  {
    Rotate(circle)[1..]
  }

  /** The elf that is left when turns are taken until one remains */
  function Survivor(circle: seq<nat>): nat
    requires |circle| >= 1
    decreases |circle|
  {
    if |circle| == 1 then circle[0] else Survivor(Eliminate(circle))
  }

  /** The seat of the survivor in a circle of `n`, counting from the first
      player: the Josephus recurrence for every second elf, two seats on from
      the survivor's seat among `n - 1`, modulo `n` */
  function SurvivorSeat(n: nat): (i: nat)
    requires n >= 1
    ensures i < n
  {
    if n == 1 then 0
    else
      var j := SurvivorSeat(n - 1) + 2;
      if j < n then j else j - n
  }

  /** Who survives depends only on where the elves sit, not on their numbers */
  lemma {:induction false} SurvivorAt(circle: seq<nat>)
    requires |circle| >= 1
    ensures Survivor(circle) == circle[SurvivorSeat(|circle|)]
    decreases |circle|
  {
    var n := |circle|;
    if n > 1 {
      var next := Eliminate(circle);
      SurvivorAt(next);
      var j := SurvivorSeat(n - 1);
      if j < n - 2 {
        assert next[j] == circle[j + 2];
      } else {
        assert next[j] == circle[0];
      }
    }
  }

  /** The closed form of the recurrence: twice the distance above the largest
      power of two */
  lemma {:induction false} SurvivorSeatClosed(n: nat, p: nat)
    requires PowerOfTwo(p) && 1 <= p <= n < 2 * p
    ensures SurvivorSeat(n) == 2 * (n - p)
    decreases n
  {
    if n > 1 {
      if n == p {
        SurvivorSeatClosed(n - 1, p / 2);
      } else {
        SurvivorSeatClosed(n - 1, p);
      }
    }
  }

  /** The count of elves, `input.trim().parse::<usize>()` */
  function Count(input: string): Option<nat>
  {
    ParseNat(Trim(input))
  }

  /** `part1`: the elves take turns on a deque until one is left. `None` where
      the source panics: an input that is not a number, or no elves at all */
  method Part1(input: string) returns (winner: Option<nat>)
    ensures winner.Some? <==> Count(input).Some? && Count(input).value >= 1
    ensures winner.Some? ==>
              var count := Count(input).value;
              winner.value == Survivor(Numbered(1, count)) &&
              winner.value == 2 * (count - HighestPowerOfTwo(count)) + 1 &&
              1 <= winner.value <= count
  {
    var parsed := Count(input);
    if parsed.None? {
      return None;
    }
    var count := parsed.value;
    var elves := Numbered(1, count);
    ghost var turns := 0;
    while |elves| > 1
      invariant turns <= count && |elves| == count - turns
      invariant count >= 1 ==> |elves| >= 1 && Survivor(elves) == Survivor(Numbered(1, count))
      decreases |elves|
    {
      var current := elves[0];
      elves := elves[1..];
      elves := elves + [current];
      elves := elves[1..];
      turns := turns + 1;
    }
    if |elves| == 0 {
      return None;
    }
    winner := Some(elves[0]);
    SurvivorAt(Numbered(1, count));
    SurvivorSeatClosed(count, HighestPowerOfTwo(count));
  }

  // ---------------------------------------------------------------------------
  // Part two: the elf across the circle is robbed

  /** The circle without the elf in seat `i` */
  function RemoveAt(circle: seq<nat>, i: nat): seq<nat>
    requires i < |circle|
  {
    circle[..i] + circle[i + 1..]
  }

  /** One turn of part two: the elf across the circle leaves (of two elves
      across, the nearer one clockwise) and the turn passes on */
  function Steal(circle: seq<nat>): seq<nat>
    requires |circle| >= 2
  {
    Rotate(RemoveAt(circle, |circle| / 2))
  }

  /** The elf that is left when turns are taken until one remains */
  function Winner(circle: seq<nat>): nat
    requires |circle| >= 1
    decreases |circle|
  {
    if |circle| == 1 then circle[0] else Winner(Steal(circle))
  }

  /** The seat of the winner in a circle of `n`, counting from the first player:
      one seat on from the winner's seat among `n - 1`, modulo `n - 1`, and one
      further from the seat across onwards, which the robbed elf vacated */
  function WinnerSeat(n: nat): (i: nat)
    requires n >= 1
    ensures i < n
  {
    if n == 1 then 0
    else
      var j := WinnerSeat(n - 1) + 1;
      var i := if j < n - 1 then j else 0;
      if i < n / 2 then i else i + 1
  }

  /** Who wins depends only on where the elves sit, not on their numbers */
  lemma {:induction false} WinnerAt(circle: seq<nat>)
    requires |circle| >= 1
    ensures Winner(circle) == circle[WinnerSeat(|circle|)]
    decreases |circle|
  {
    var n := |circle|;
    if n > 1 {
      WinnerAt(Steal(circle));
      StealAt(circle, WinnerSeat(n - 1));
    }
  }

  /** Where the elf at seat `k` after a turn of part two sat before it */
  lemma StealAt(circle: seq<nat>, k: nat)
    requires |circle| >= 2 && k < |circle| - 1
    ensures var i := if k + 1 < |circle| - 1 then k + 1 else 0;
            Steal(circle)[k] == circle[if i < |circle| / 2 then i else i + 1]
  {
    var n := |circle|;
    var rest := RemoveAt(circle, n / 2);
    var i := if k + 1 < n - 1 then k + 1 else 0;
    assert Steal(circle)[k] == rest[i];
    if i < n / 2 {
      assert rest[i] == circle[i];
    } else {
      assert rest[i] == circle[i + 1];
    }
  }

  /** The closed form of the recurrence, by the largest power of three `p`: the
      last seat for a power of three, then seats counting up by one until twice
      `p`, and by two after that */
  lemma {:induction false} WinnerSeatClosed(n: nat, p: nat)
    requires PowerOfThree(p) && 1 <= p <= n < 3 * p
    ensures WinnerSeat(n) == if n == p then n - 1 else if n <= 2 * p then n - p - 1 else 2 * n - 3 * p - 1
    decreases n
  {
    if n > 1 {
      if n == p {
        WinnerSeatClosed(n - 1, p / 3);
      } else {
        WinnerSeatClosed(n - 1, p);
      }
    }
  }

  /** The elf across leaves: with `right` and `left` the two halves of the
      circle, right at most one longer, that is the tail of `right` when it is
      longer and the head of `left` otherwise */
  lemma Opposite(right: seq<nat>, left: seq<nat>)
    requires |left| <= |right| <= |left| + 1 && |right| + |left| >= 2
    ensures |right| > |left| ==> right[..|right| - 1] + left == RemoveAt(right + left, (|right| + |left|) / 2)
    ensures |right| == |left| ==> right + left[1..] == RemoveAt(right + left, (|right| + |left|) / 2)
  {
    var circle := right + left;
    if |right| > |left| {
      assert circle[..|right| - 1] == right[..|right| - 1];
      assert circle[|right|..] == left;
    } else {
      assert circle[..|right|] == right;
      assert circle[|right| + 1..] == left[1..];
    }
  }

  /** The head of `left` joining the tail of `right`, and the head of `right`
      the tail of `left`, turn the whole circle by one */
  lemma Regroup(right: seq<nat>, left: seq<nat>)
    requires |right| >= 1 && |left| >= 1
    ensures (right + [left[0]])[1..] + (left[1..] + [right[0]]) == Rotate(right + left)
  {
    assert (right + [left[0]])[1..] == right[1..] + [left[0]];
    assert (right + left)[1..] == right[1..] + left;
    assert [left[0]] + left[1..] == left;
  }

  /** Two elves left: the first robs the other and wins */
  lemma LastElf(count: nat, circle: seq<nat>)
    requires count >= 2 && |circle| == 2 && Winner(circle) == Winner(Numbered(1, count))
    ensures var p := HighestPowerOfThree(count);
      circle[0] == Winner(Numbered(1, count)) &&
      circle[0] == (if count == p then count else if count <= 2 * p then count - p else 2 * count - 3 * p) &&
      1 <= circle[0] <= count
  {
    assert Steal(circle) == [circle[0]];
    WinnerAt(Numbered(1, count));
    WinnerSeatClosed(count, HighestPowerOfThree(count));
  }

  /** `part2`: the circle is kept as two deques, `right` from the elf whose turn
      it is up to the elf across, and `left` the rest. `None` where the source
      panics: an input that is not a number, or fewer than two elves (a lone elf
      is popped from `right` before it can be named) */
  method Part2(input: string) returns (winner: Option<nat>)
    ensures winner.Some? <==> Count(input).Some? && Count(input).value >= 2
    ensures winner.Some? ==>
              var count := Count(input).value;
              var p := HighestPowerOfThree(count);
              winner.value == Winner(Numbered(1, count)) &&
              winner.value == (if count == p then count else if count <= 2 * p then count - p else 2 * count - 3 * p) &&
              1 <= winner.value <= count
  {
    var parsed := Count(input);
    if parsed.None? {
      return None;
    }
    var count := parsed.value;
    var half := (count + 1) / 2;
    var right := Numbered(1, half);
    var left := Numbered(half + 1, count - half);
    assert right + left == Numbered(1, count);
    ghost var turns := 0;
    while true
      invariant turns <= count && |right| + |left| == count - turns
      invariant |left| <= |right| <= |left| + 1
      invariant count >= 2 ==> |right| + |left| >= 2 && Winner(right + left) == Winner(Numbered(1, count))
      invariant count < 2 ==> turns == 0
      decreases |right| + |left|
    {
      ghost var circle, r0, l0 := right + left, right, left;
      if |right| > |left| {
        right := right[..|right| - 1];
      } else if |left| > 0 {
        // popping the front of an empty deque changes nothing
        left := left[1..];
      }
      assert count >= 2 ==> right + left == RemoveAt(circle, |circle| / 2) by {
        if count >= 2 {
          Opposite(r0, l0);
        }
      }
      if |left| == 0 {
        if |right| == 0 {
          return None;
        }
        LastElf(count, circle);
        return Some(right[0]);
      }
      assert (right + [left[0]])[1..] + (left[1..] + [right[0]]) == Steal(circle) by {
        Regroup(right, left);
      }
      var moved := left[0];
      left := left[1..];
      right := right + [moved];
      var front := right[0];
      right := right[1..];
      left := left + [front];
      turns := turns + 1;
    }
  }

  // ---------------------------------------------------------------------------
  // The puzzle's example

  /** Five elves: elf 3 is left in part one and elf 2 in part two */
  lemma Example()
    ensures Survivor(Numbered(1, 5)) == 3 && Winner(Numbered(1, 5)) == 2
  {
    SurvivorAt(Numbered(1, 5));
    SurvivorSeatClosed(5, 4);
    WinnerAt(Numbered(1, 5));
    WinnerSeatClosed(5, 3);
  }
}
