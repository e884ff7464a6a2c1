/** Day 3: count the side triples that can form a triangle, once row by row and
    once down the columns in groups of three rows. */
module Day3 {
  import opened Wrappers
  import opened Strings

  // ---------------------------------------------------------------------------
  // Sorting

  predicate Sorted(s: seq<nat>) {
    forall i, j :: 0 <= i < j < |s| ==> s[i] <= s[j]
  }

  function Insert(x: nat, s: seq<nat>): (r: seq<nat>)
    requires Sorted(s)
    ensures |r| == |s| + 1 && (r[0] == x || (|s| > 0 && r[0] == s[0]))
    ensures Sorted(r)
  {
    if |s| == 0 then [x]
    else if x <= s[0] then [x] + s
    else
      assert s == [s[0]] + s[1..];
      [s[0]] + Insert(x, s[1..])
  }

  /** Ascending order, as `Itertools::sorted` and `sort_unstable` produce */
  function Sort(s: seq<nat>): (r: seq<nat>)
    ensures |r| == |s|
    ensures Sorted(r)
  {
    if |s| == 0 then []
    else
      assert s == [s[0]] + s[1..];
      Insert(s[0], Sort(s[1..]))
  }

  lemma {:induction false} InsertPermutes(x: nat, s: seq<nat>)
    requires Sorted(s)
    ensures multiset(Insert(x, s)) == multiset(s) + multiset{x}
  {
    if |s| > 0 && x > s[0] {
      InsertPermutes(x, s[1..]);
      assert s == [s[0]] + s[1..];
    }
  }

  /** Sorting only reorders: the result holds the same numbers, as often */
  lemma {:induction false} SortPermutes(s: seq<nat>)
    ensures multiset(Sort(s)) == multiset(s)
  {
    if |s| > 0 {
      SortPermutes(s[1..]);
      InsertPermutes(s[0], Sort(s[1..]));
      assert s == [s[0]] + s[1..];
    }
  }

  // ---------------------------------------------------------------------------
  // The triangle test

  /** The source's test: after sorting, the two smallest sides exceed the largest */
  predicate IsTriangle(sides: seq<nat>)
    requires |sides| >= 3
  {
    var s := Sort(sides);
    s[0] + s[1] > s[2]
  }

  /** Sorting a sorted pair and one more element */
  lemma InsertIntoPair(a: nat, p: nat, q: nat)
    requires p <= q
    ensures Insert(a, [p, q]) == if a <= p then [a, p, q] else if a <= q then [p, a, q] else [p, q, a]
  {
    assert [p, q][1..] == [q];
  }

  lemma SortTwo(b: nat, c: nat)
    ensures Sort([b, c]) == if b <= c then [b, c] else [c, b]
  {
    assert [b, c][1..] == [c];
    assert Sort([c]) == [c] by { assert [c][1..] == []; }
  }

  lemma SortThree(a: nat, b: nat, c: nat)
    ensures Sort([a, b, c]) == Insert(a, if b <= c then [b, c] else [c, b])
  {
    assert [a, b, c][1..] == [b, c];
    SortTwo(b, c);
  }

  /** For three sides the sorted test is the triangle inequality for every side, so
      the order in which the sides are listed does not matter */
  lemma TriangleTest(a: nat, b: nat, c: nat)
    ensures IsTriangle([a, b, c]) <==> a + b > c && a + c > b && b + c > a
  {
    SortThree(a, b, c);
    if b <= c {
      InsertIntoPair(a, b, c);
    } else {
      InsertIntoPair(a, c, b);
    }
  }

  // ---------------------------------------------------------------------------
  // Parsing

  /** Every word parsed as a `usize`; `None` where an `unwrap` panics */
  function ParseNumbers(words: seq<string>): (r: Option<seq<nat>>)
    ensures r.Some? <==> forall i :: 0 <= i < |words| ==> ParseNat(words[i]).Some?
    ensures r.Some? ==> |r.value| == |words|
  {
    if |words| == 0 then Some([])
    else
      match (ParseNat(words[0]), ParseNumbers(words[1..]))
      case (Some(n), Some(rest)) => Some([n] + rest)
      case _ => None
  }

  /** The numbers of one line, split at ASCII whitespace */
  function ParseRow(line: string): Option<seq<nat>>
  {
    ParseNumbers(Words(line))
  }

  // ---------------------------------------------------------------------------
  // Part one

  /** How many rows pass the triangle test; `None` when a row has fewer than three
      numbers, where indexing the sorted sides panics */
  function CountTriangles(rows: seq<seq<nat>>): (r: Option<nat>)
    ensures r.Some? <==> forall i :: 0 <= i < |rows| ==> |rows[i]| >= 3
    ensures r.Some? ==> r.value <= |rows|
  {
    if |rows| == 0 then Some(0)
    else
      var last := rows[|rows| - 1];
      match CountTriangles(rows[..|rows| - 1])
      case None => None
      case Some(n) =>
        if |last| < 3 then None
        else Some(n + if IsTriangle(last) then 1 else 0)
  }

  function ParseRows(lines: seq<string>): (r: Option<seq<seq<nat>>>)
    ensures r.Some? ==> |r.value| == |lines|
  {
    if |lines| == 0 then Some([])
    else
      match (ParseRow(Trim(lines[0])), ParseRows(lines[1..]))
      case (Some(row), Some(rest)) => Some([row] + rest)
      case _ => None
  }

  /** Part one: every trimmed line of the trimmed input is a side triple */
  function Part1(input: string): (r: Option<nat>)
    ensures r.Some? ==> r.value <= |Lines(Trim(input))|
  {
    match ParseRows(Lines(Trim(input)))
    case None => None
    case Some(rows) => CountTriangles(rows)
  }

  // ---------------------------------------------------------------------------
  // Part two

  /** The first three columns of three rows, each as a side triple */
  function Columns(a: seq<nat>, b: seq<nat>, c: seq<nat>): (r: seq<seq<nat>>)
    requires |a| >= 3 && |b| >= 3 && |c| >= 3
    ensures |r| == 3 && forall k :: 0 <= k < 3 ==> r[k] == [a[k], b[k], c[k]]
  {
    [[a[0], b[0], c[0]], [a[1], b[1], c[1]], [a[2], b[2], c[2]]]
  }

  function AddTo(n: nat, o: Option<nat>): Option<nat> {
    match o
    case None => None
    case Some(m) => Some(n + m)
  }

  /** The score of one group of three parsed lines: how many of its first three
      columns pass; `None` where a number did not parse or a line has fewer than
      three numbers */
  function GroupScore(n1: Option<seq<nat>>, n2: Option<seq<nat>>, n3: Option<seq<nat>>): (r: Option<nat>)
    ensures r.Some? ==> r.value <= 3
  {
    if n1.None? || n2.None? || n3.None? || |n1.value| < 3 || |n2.value| < 3 || |n3.value| < 3 then None
    else CountTriangles(Columns(n1.value, n2.value, n3.value))
  }

  /** Groups of three consecutive rows, each scored by `score`, summed; `None` when
      a group has no score or rows are left over that do not fill a group */
  function Groups(rows: seq<Option<seq<nat>>>,
                  score: (Option<seq<nat>>, Option<seq<nat>>, Option<seq<nat>>) -> Option<nat>): Option<nat>
    decreases |rows|
  {
    if |rows| == 0 then Some(0)
    else if |rows| < 3 then None
    else
      match score(rows[0], rows[1], rows[2])
      case None => None
      case Some(g) => AddTo(g, Groups(rows[3..], score))
  }

  /** Part two's reading of the parsed lines: groups of three, each of the first
      three columns of a group a side triple; `None` where the source panics,
      because the line count is not a multiple of three, a number does not parse
      or a line has fewer than three numbers */
  function ColumnCount(rows: seq<Option<seq<nat>>>): (r: Option<nat>)
    ensures r.Some? ==> r.value <= |rows|
  {
    GroupsBound(rows, GroupScore);
    Groups(rows, GroupScore)
  }

  /** Groups scored at most three each sum to at most the number of rows */
  lemma {:induction false} GroupsBound(rows: seq<Option<seq<nat>>>,
                                       score: (Option<seq<nat>>, Option<seq<nat>>, Option<seq<nat>>) -> Option<nat>)
    requires forall a, b, c :: score(a, b, c).Some? ==> score(a, b, c).value <= 3
    ensures Groups(rows, score).Some? ==> Groups(rows, score).value <= |rows|
    decreases |rows|
  {
    if |rows| >= 3 {
      GroupsBound(rows[3..], score);
    }
  }

  /** Every line parsed as a row of numbers */
  function ParsedLines(lines: seq<string>): (r: seq<Option<seq<nat>>>)
    ensures |r| == |lines|
  {
    if |lines| == 0 then [] else [ParseRow(lines[0])] + ParsedLines(lines[1..])
  }

  lemma {:induction false} ParsedLinesAt(lines: seq<string>, k: nat)
    requires k < |lines|
    ensures ParsedLines(lines)[k] == ParseRow(lines[k])
  {
    if k > 0 {
      ParsedLinesAt(lines[1..], k - 1);
    }
  }

  /** One group of part two's loop: a group that has a score moves the count on
      by that score; one that has none makes the whole count `None` */
  lemma GroupsStep(rows: seq<Option<seq<nat>>>,
                   score: (Option<seq<nat>>, Option<seq<nat>>, Option<seq<nat>>) -> Option<nat>,
                   i: nat, count: nat)
    requires i + 3 <= |rows|
    ensures score(rows[i], rows[i + 1], rows[i + 2]).None? ==>
              AddTo(count, Groups(rows[i..], score)).None?
    ensures score(rows[i], rows[i + 1], rows[i + 2]).Some? ==>
              AddTo(count, Groups(rows[i..], score)) ==
              AddTo(count + score(rows[i], rows[i + 1], rows[i + 2]).value, Groups(rows[i + 3..], score))
  {
    var tail := rows[i..];
    assert tail[0] == rows[i] && tail[1] == rows[i + 1] && tail[2] == rows[i + 2];
    assert tail[3..] == rows[i + 3..];
  }

  /** The column loop of part two: sort each column's three sides and test them */
  method CountColumns(a: seq<nat>, b: seq<nat>, c: seq<nat>) returns (count: nat)
    requires |a| >= 3 && |b| >= 3 && |c| >= 3
    ensures Some(count) == CountTriangles(Columns(a, b, c))
  {
    ghost var columns := Columns(a, b, c);
    count := 0;
    for col := 0 to 3
      invariant Some(count) == CountTriangles(columns[..col])
    {
      assert columns[..col + 1][..col] == columns[..col];
      var sides := Sort([a[col], b[col], c[col]]);
      if sides[0] + sides[1] > sides[2] {
        count := count + 1;
      }
    }
    assert columns[..3] == columns;
  }

  /** The body of part two's loop: parse three lines and count their columns */
  method ScoreGroup(l1: string, l2: string, l3: string) returns (score: Option<nat>)
    ensures score == GroupScore(ParseRow(l1), ParseRow(l2), ParseRow(l3))
  {
    var n1, n2, n3 := ParseRow(l1), ParseRow(l2), ParseRow(l3);
    if n1.None? || n2.None? || n3.None? || |n1.value| < 3 || |n2.value| < 3 || |n3.value| < 3 {
      return None;
    }
    var count := CountColumns(n1.value, n2.value, n3.value);
    return Some(count);
  }

  /** Part two: the lines of the trimmed input read three at a time */
  method Part2(input: string) returns (total: Option<nat>)
    ensures total == ColumnCount(ParsedLines(Lines(Trim(input))))
  {
    total := CountColumnTriangles(Lines(Trim(input)));
  }

  /** The loop of part two over the lines `row1`, with `row2` and `row3` the same
      lines without the first one and the first two */
  method CountColumnTriangles(row1: seq<string>) returns (total: Option<nat>)
    ensures total == ColumnCount(ParsedLines(row1))
  {
    var row2 := if |row1| >= 1 then row1[1..] else [];
    var row3 := if |row1| >= 2 then row1[2..] else [];
    ghost var rows := ParsedLines(row1);
    var count: nat := 0;
    var i := 0;
    while i < |row1|
      invariant i <= |row1|
      invariant ColumnCount(rows) == AddTo(count, Groups(rows[i..], GroupScore))
      decreases |row1| - i
    {
      if i >= |row2| || i >= |row3| {
        assert |rows[i..]| < 3;
        return None;
      }
      assert row2[i] == row1[i + 1] && row3[i] == row1[i + 2];
      var score := ScoreGroup(row1[i], row2[i], row3[i]);
      ParsedLinesAt(row1, i);
      ParsedLinesAt(row1, i + 1);
      ParsedLinesAt(row1, i + 2);
      GroupsStep(rows, GroupScore, i, count);
      if score.None? {
        return None;
      }
      count := count + score.value;
      i := i + 3;
    }
    assert rows[i..] == [];
    return Some(count);
  }

  /** Part two only succeeds on whole groups of three lines */
  lemma ColumnCountWholeGroups(rows: seq<Option<seq<nat>>>)
    ensures ColumnCount(rows).Some? ==> |rows| % 3 == 0
  {
    GroupsWholeGroups(rows, GroupScore);
  }

  lemma {:induction false} GroupsWholeGroups(rows: seq<Option<seq<nat>>>,
                                             score: (Option<seq<nat>>, Option<seq<nat>>, Option<seq<nat>>) -> Option<nat>)
    ensures Groups(rows, score).Some? ==> |rows| % 3 == 0
    decreases |rows|
  {
    if |rows| >= 3 {
      GroupsWholeGroups(rows[3..], score);
    }
  }

  /** Sides 5, 10 and 25 fail the test in any order */
  lemma NotATriangle()
    ensures !IsTriangle([5, 10, 25]) && !IsTriangle([25, 10, 5])
  {
    TriangleTest(5, 10, 25);
    TriangleTest(25, 10, 5);
  }
}
