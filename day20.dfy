/** Day 20: a blacklist of inclusive ranges of 32-bit addresses. Part one finds
    the lowest address no range blocks; part two counts the addresses that no
    range blocks, by sorting the ranges, merging the overlapping and adjacent
    ones, and subtracting the merged lengths from 2^32. */
module Day20 {
  import opened Wrappers
  import opened Strings

  /** `u32` */
  type U32 = x: nat | x < 0x1_0000_0000

  /** `IpRange`: an inclusive range, `(start, end)` */
  datatype IpRange = IpRange(start: U32, end: U32)

  /** The numbers from `lo` to `hi` inclusive */
  function Span(lo: nat, hi: nat): set<nat>
    decreases hi + 1 - lo
  {
    if lo > hi then {} else {lo} + Span(lo + 1, hi)
  }

  lemma {:induction false} SpanMeans(lo: nat, hi: nat, v: nat)
    ensures v in Span(lo, hi) <==> lo <= v <= hi
    decreases hi + 1 - lo
  {
    if lo <= hi {
      SpanMeans(lo + 1, hi, v);
    }
  }

  /** `lo..=hi` holds `hi - lo + 1` numbers */
  lemma {:induction false} SpanCard(lo: nat, hi: nat)
    requires lo <= hi + 1
    ensures |Span(lo, hi)| == hi + 1 - lo
    decreases hi + 1 - lo
  {
    if lo <= hi {
      SpanCard(lo + 1, hi);
      SpanMeans(lo + 1, hi, lo);
    }
  }

  /** The numbers a range contains */
  function Interval(r: IpRange): set<nat>
  {
    Span(r.start, r.end)
  }

  /** Some range of the list contains `v` */
  ghost predicate Blocks(ranges: seq<IpRange>, v: nat) {
    exists r :: r in ranges && r.start <= v <= r.end
  }

  /** Every range starts no later than it ends */
  ghost predicate WellFormed(ranges: seq<IpRange>) {
    forall k :: 0 <= k < |ranges| ==> ranges[k].start <= ranges[k].end
  }

  // ---------------------------------------------------------------------------
  // Parsing

  /** `s.parse::<u32>()` */
  function ParseU32(s: string): Option<U32>
  {
    match ParseNat(s)
    case Some(n) => if n < 0x1_0000_0000 then Some(n) else None
    case None => None
  }

  /** One line `start-end`, cut at the first `-`; `None` where the source panics */
  function ParseRange(line: string): Option<IpRange>
  {
    match SplitOnce(line, '-')
    case None => None
    case Some((start, end)) =>
      match (ParseU32(start), ParseU32(end))
      case (Some(s), Some(e)) => Some(IpRange(s, e))
      case _ => None
  }

  /** `generator`: one range per line of the trimmed input */
  function Generator(input: string): (r: Option<seq<IpRange>>)
    ensures var lines := Lines(Trim(input));
      (r.Some? <==> forall k :: 0 <= k < |lines| ==> ParseRange(lines[k]).Some?) &&
      (r.Some? ==> |r.value| == |lines| &&
                   forall k :: 0 <= k < |lines| ==> ParseRange(lines[k]) == Some(r.value[k]))
  {
    TraverseAt(Lines(Trim(input)), ParseRange);
    Traverse(Lines(Trim(input)), ParseRange)
  }

  /** A range printed as `start-end` reads back as itself */
  lemma ParsePrinted(r: IpRange)
    ensures ParseRange(NatToString(r.start) + "-" + NatToString(r.end)) == Some(r)
  {
    SplitOnceAt(NatToString(r.start), NatToString(r.end), '-');
    ParseNatToString(r.start);
    ParseNatToString(r.end);
  }

  // ---------------------------------------------------------------------------
  // Part one: the lowest allowed address

  /** `input.iter().find(..)`: the first range that contains `candidate` */
  function FindBlocking(ranges: seq<IpRange>, candidate: nat): (r: Option<IpRange>)
    ensures r.None? <==> !Blocks(ranges, candidate)
    ensures r.Some? ==> r.value in ranges && r.value.start <= candidate <= r.value.end
    ensures r.Some? && !(ranges[0].start <= candidate <= ranges[0].end) ==> r.value in ranges[1..]
  {
    if |ranges| == 0 then None
    else if ranges[0].start <= candidate <= ranges[0].end then Some(ranges[0])
    else
      var rest := FindBlocking(ranges[1..], candidate);
      assert forall r :: r in ranges && r != ranges[0] ==> r in ranges[1..];
      rest
  }

  /** `v` is the lowest address that no range blocks */
  ghost predicate Lowest(ranges: seq<IpRange>, v: nat) {
    !Blocks(ranges, v) && forall u :: 0 <= u < v ==> Blocks(ranges, u)
  }

  /** There is only one lowest address */
  lemma LowestUnique(ranges: seq<IpRange>, a: nat, b: nat)
    requires Lowest(ranges, a) && Lowest(ranges, b)
    ensures a == b
  {
    assert a < b ==> Blocks(ranges, a);
    assert b < a ==> Blocks(ranges, b);
  }

  /** `part1`: from 0, the candidate jumps past the end of the first range that
      blocks it, until none does. `None` where every address is blocked and the
      source's `max + 1` overflows */
  method Part1(ranges: seq<IpRange>) returns (r: Option<U32>)
    ensures r.Some? ==> Lowest(ranges, r.value)
    ensures r.None? <==> forall v :: 0 <= v < 0x1_0000_0000 ==> Blocks(ranges, v)
  {
    var candidate: U32 := 0;
    while true
      invariant forall v :: 0 <= v < candidate ==> Blocks(ranges, v)
      decreases 0x1_0000_0000 - candidate
    {
      var blocking := FindBlocking(ranges, candidate);
      match blocking {
        case None =>
          return Some(candidate);
        case Some(rule) =>
          assert forall v :: candidate <= v <= rule.end ==> Blocks(ranges, v);
          if rule.end == 0xFFFF_FFFF {
            return None;
          }
          candidate := rule.end + 1;
      }
    }
  }

  /** The puzzle's example: with `5-8`, `0-2` and `4-7` the lowest allowed address
      is 3 */
  lemma Example()
    ensures Lowest([IpRange(5, 8), IpRange(0, 2), IpRange(4, 7)], 3)
  {
    var ranges := [IpRange(5, 8), IpRange(0, 2), IpRange(4, 7)];
    assert ranges[1] in ranges;
    forall u | 0 <= u < 3 ensures Blocks(ranges, u) {
      assert ranges[1].start <= u <= ranges[1].end;
    }
  }

  // ---------------------------------------------------------------------------
  // Sorting

  /** The tuple order on `(start, end)` */
  predicate LessEq(a: IpRange, b: IpRange) {
    a.start < b.start || (a.start == b.start && a.end <= b.end)
  }

  predicate Sorted(rs: seq<IpRange>) {
    forall i, j :: 0 <= i < j < |rs| ==> LessEq(rs[i], rs[j])
  }

  /** Insertion into a sorted list, before the first larger element */
  function Insert(x: IpRange, s: seq<IpRange>): (r: seq<IpRange>)
    ensures multiset(r) == multiset(s) + multiset{x}
  {
    if |s| == 0 || LessEq(x, s[0]) then [x] + s
    else
      assert s == [s[0]] + s[1..];
      [s[0]] + Insert(x, s[1..])
  }

  lemma {:induction false} InsertSorted(x: IpRange, s: seq<IpRange>)
    requires Sorted(s)
    ensures Sorted(Insert(x, s))
  {
    if |s| > 0 && !LessEq(x, s[0]) {
      var rest := Insert(x, s[1..]);
      InsertSorted(x, s[1..]);
      forall k | 0 <= k < |rest| ensures LessEq(s[0], rest[k]) {
        assert rest[k] in multiset(s[1..]) + multiset{x};
        if rest[k] != x {
          assert rest[k] in s[1..];
        }
      }
    }
  }

  /** `sorted_unstable`: the ranges in the tuple order, as a permutation */
  function Sort(rs: seq<IpRange>): (r: seq<IpRange>)
    ensures Sorted(r) && multiset(r) == multiset(rs)
  {
    if |rs| == 0 then []
    else
      assert rs == [rs[0]] + rs[1..];
      InsertSorted(rs[0], Sort(rs[1..]));
      Insert(rs[0], Sort(rs[1..]))
  }

  // ---------------------------------------------------------------------------
  // Merging

  /** The numbers that some range of the list contains */
  function Covered(rs: seq<IpRange>): set<nat>
  {
    if |rs| == 0 then {} else Interval(rs[0]) + Covered(rs[1..])
  }

  /** The covered set is exactly the blocked numbers */
  lemma {:induction false} CoveredMeans(rs: seq<IpRange>, v: nat)
    ensures v in Covered(rs) <==> Blocks(rs, v)
  {
    if |rs| > 0 {
      CoveredMeans(rs[1..], v);
      SpanMeans(rs[0].start, rs[0].end, v);
      assert forall r :: r in rs <==> r == rs[0] || r in rs[1..];
    }
  }

  /** Lists that are permutations of each other cover the same numbers */
  lemma CoveredPermutation(a: seq<IpRange>, b: seq<IpRange>)
    requires multiset(a) == multiset(b)
    ensures Covered(a) == Covered(b)
  {
    forall v ensures v in Covered(a) <==> v in Covered(b) {
      CoveredMeans(a, v);
      CoveredMeans(b, v);
      assert forall r :: r in a <==> r in multiset(a);
      assert forall r :: r in b <==> r in multiset(b);
    }
  }

  /** One more range adds its interval */
  lemma {:induction false} CoveredSnoc(rs: seq<IpRange>, x: IpRange)
    ensures Covered(rs + [x]) == Covered(rs) + Interval(x)
  {
    if |rs| > 0 {
      assert (rs + [x])[1..] == rs[1..] + [x];
      CoveredSnoc(rs[1..], x);
    } else {
      assert rs + [x] == [x];
    }
  }

  /** Well-formed, in order, and each range starts more than one past the end of
      the one before: disjoint and not even adjacent */
  ghost predicate Separated(rs: seq<IpRange>) {
    WellFormed(rs) && forall i :: 0 <= i < |rs| - 1 ==> rs[i].end + 1 < rs[i + 1].start
  }

  /** `saturating_add(1)` on a `u32` */
  function SaturatingIncrement(x: U32): (r: U32)
  {
    if x < 0xFFFF_FFFF then x + 1 else x
  }

  /** A range that starts inside `a`, or just after it, extends `a` */
  lemma IntervalJoin(a: IpRange, b: IpRange)
    requires a.start <= b.start <= a.end + 1
    ensures Interval(IpRange(a.start, if a.end >= b.end then a.end else b.end)) == Interval(a) + Interval(b)
  {
    var hi := if a.end >= b.end then a.end else b.end;
    forall v ensures v in Span(a.start, hi) <==> v in Interval(a) + Interval(b) {
      SpanMeans(a.start, hi, v);
      SpanMeans(a.start, a.end, v);
      SpanMeans(b.start, b.end, v);
    }
  }

  /** The invariant of the merging loop after the first `k` sorted ranges: the
      merged list is separated, covers what those ranges cover, and its last
      range starts no later than the next sorted one */
  ghost predicate MergeInv(sorted: seq<IpRange>, k: nat, merged: seq<IpRange>)
    requires k <= |sorted|
  {
    |merged| >= 1 && Separated(merged) && Covered(merged) == Covered(sorted[..k]) &&
    (k < |sorted| ==> merged[|merged| - 1].start <= sorted[k].start)
  }

  /** Pushing a range that starts more than one past the last end */
  lemma PushStep(sorted: seq<IpRange>, k: nat, merged: seq<IpRange>)
    requires Sorted(sorted) && WellFormed(sorted) && k < |sorted| && MergeInv(sorted, k, merged)
    requires sorted[k].start > SaturatingIncrement(merged[|merged| - 1].end)
    ensures MergeInv(sorted, k + 1, merged + [sorted[k]])
  {
    var rule := sorted[k];
    assert sorted[..k + 1] == sorted[..k] + [rule];
    CoveredSnoc(sorted[..k], rule);
    CoveredSnoc(merged, rule);
  }

  /** Extending the last range over one that starts inside it or just after it */
  lemma ExtendStep(sorted: seq<IpRange>, k: nat, merged: seq<IpRange>)
    requires Sorted(sorted) && WellFormed(sorted) && k < |sorted| && MergeInv(sorted, k, merged)
    requires sorted[k].start <= SaturatingIncrement(merged[|merged| - 1].end)
    ensures var current, rule := merged[|merged| - 1], sorted[k];
      MergeInv(sorted, k + 1, merged[..|merged| - 1] +
                              [IpRange(current.start, if current.end >= rule.end then current.end else rule.end)])
  {
    var current, rule := merged[|merged| - 1], sorted[k];
    var init := merged[..|merged| - 1];
    var extended := IpRange(current.start, if current.end >= rule.end then current.end else rule.end);
    assert sorted[..k + 1] == sorted[..k] + [rule];
    CoveredSnoc(sorted[..k], rule);
    assert merged == init + [current];
    CoveredSnoc(init, current);
    CoveredSnoc(init, extended);
    IntervalJoin(current, rule);
  }

  /** The merging loop of `part2`: `merged` starts with the first range; each
      later range either extends the last merged range in place, when it starts
      no more than one past its end, or is pushed as a new one */
  method Merge(sorted: seq<IpRange>) returns (merged: seq<IpRange>)
    requires |sorted| >= 1 && Sorted(sorted) && WellFormed(sorted)
    ensures |merged| >= 1 && Separated(merged) && Covered(merged) == Covered(sorted)
  {
    merged := [sorted[0]];
    assert sorted[..1] == [sorted[0]];
    for k := 1 to |sorted|
      invariant MergeInv(sorted, k, merged)
    {
      var rule := sorted[k];
      var current := merged[|merged| - 1];
      if rule.start > SaturatingIncrement(current.end) {
        PushStep(sorted, k, merged);
        merged := merged + [rule];
      } else {
        ExtendStep(sorted, k, merged);
        merged := merged[..|merged| - 1] + [IpRange(current.start, if current.end >= rule.end then current.end else rule.end)];
      }
    }
    assert sorted[..|sorted|] == sorted;
  }

  // ---------------------------------------------------------------------------
  // Counting

  /** The summed lengths of the ranges */
  function Total(rs: seq<IpRange>): int
  {
    if |rs| == 0 then 0 else (rs[0].end - rs[0].start + 1) + Total(rs[1..])
  }

  /** Separated ranges cover as many numbers as their summed lengths */
  lemma {:induction false} CoveredCard(rs: seq<IpRange>)
    requires Separated(rs)
    ensures |Covered(rs)| == Total(rs)
  {
    if |rs| > 0 {
      var rest := rs[1..];
      SeparatedTail(rs);
      CoveredCard(rest);
      SpanCard(rs[0].start, rs[0].end);
      if |rest| > 0 {
        CoveredFrom(rest);
      }
      forall v | v in Interval(rs[0]) ensures v !in Covered(rest) {
        SpanMeans(rs[0].start, rs[0].end, v);
      }
      assert Interval(rs[0]) * Covered(rest) == {};
    }
  }

  /** The ranges after the first are separated too */
  lemma SeparatedTail(rs: seq<IpRange>)
    requires Separated(rs) && |rs| > 0
    ensures Separated(rs[1..])
  {
  }

  /** Every covered number is at least the first start */
  lemma {:induction false} CoveredFrom(rs: seq<IpRange>)
    requires Separated(rs) && |rs| > 0
    ensures forall v :: v in Covered(rs) ==> rs[0].start <= v
  {
    var rest := rs[1..];
    if |rs| > 1 {
      SeparatedTail(rs);
      CoveredFrom(rest);
    }
    assert Covered(rs) == Interval(rs[0]) + Covered(rest);
    forall v | v in Covered(rs) ensures rs[0].start <= v {
      SpanMeans(rs[0].start, rs[0].end, v);
      if v !in Interval(rs[0]) {
        assert v in Covered(rest);
        assert |rs| > 1;
      }
    }
  }

  /** Separated ranges fit between the first start and the last end */
  lemma {:induction false} TotalBound(rs: seq<IpRange>)
    requires Separated(rs) && |rs| > 0
    ensures 1 <= Total(rs) <= rs[|rs| - 1].end + 1 - rs[0].start
  {
    if |rs| > 1 {
      var rest := rs[1..];
      SeparatedTail(rs);
      TotalBound(rest);
    }
  }

  /** `fold(0, |acc, rule| acc + (rule.1 - rule.0 + 1))` in `u32` arithmetic:
      `None` where a subtraction, an increment or an addition leaves the range */
  function BlockedCount(rs: seq<IpRange>, acc: U32): Option<U32>
  {
    if |rs| == 0 then Some(acc)
    else if rs[0].end < rs[0].start then None
    else
      var length := rs[0].end - rs[0].start + 1;
      if length > 0xFFFF_FFFF || acc + length > 0xFFFF_FFFF then None
      else BlockedCount(rs[1..], acc + length)
  }

  /** The fold overflows exactly when the summed lengths pass the largest `u32` */
  lemma {:induction false} BlockedCountTotal(rs: seq<IpRange>, acc: U32)
    requires WellFormed(rs)
    ensures Total(rs) >= 0
    ensures BlockedCount(rs, acc) == if acc + Total(rs) > 0xFFFF_FFFF then None else Some(acc + Total(rs))
  {
    if |rs| > 0 {
      var length := rs[0].end - rs[0].start + 1;
      if acc + length <= 0xFFFF_FFFF {
        BlockedCountTotal(rs[1..], acc + length);
      } else {
        BlockedCountTotal(rs[1..], 0);
      }
    }
  }

  /** `part2`: the number of addresses no range blocks. `None` where the source
      panics: an empty list (`first().unwrap()`), or a blacklist that blocks
      every address, whose length 2^32 overflows the fold */
  method Part2(input: seq<IpRange>) returns (r: Option<nat>)
    requires WellFormed(input)
    ensures |input| == 0 ==> r.None?
    ensures |input| > 0 ==> |Covered(input)| <= 0x1_0000_0000 && (r.None? <==> |Covered(input)| == 0x1_0000_0000)
    ensures r.Some? ==> r.value == 0x1_0000_0000 - |Covered(input)|
  {
    if |input| == 0 {
      return None;
    }
    var sorted := Sort(input);
    assert WellFormed(sorted) by {
      forall k | 0 <= k < |sorted| ensures sorted[k].start <= sorted[k].end {
        assert sorted[k] in multiset(input);
      }
    }
    var merged := Merge(sorted);
    var blocked := BlockedCount(merged, 0);
    CoveredPermutation(input, sorted);
    CoveredCard(merged);
    TotalBound(merged);
    BlockedCountTotal(merged, 0);
    if blocked.None? {
      return None;
    }
    r := Some((0xFFFF_FFFF - blocked.value) + 1);
  }
}
