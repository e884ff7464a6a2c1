/** Day 18: rows of safe tiles and traps. Each row follows from the one above:
    a tile is a trap exactly when the tiles above-left and above-right differ,
    counting tiles beyond the edges as safe. The answer is the number of safe
    tiles in a given number of rows, the input row included. */
module Day18 {
  import opened Strings
  import opened Lib

  /** A row of tiles; `true` is a trap */
  type Row = seq<bool>

  /** The trimmed input, `^` read as a trap and any other character as safe */
  function Parse(input: string): (r: Row)
    ensures |r| == |Trim(input)| && forall k :: 0 <= k < |r| ==> (r[k] <==> Trim(input)[k] == '^')
  {
    var s := Trim(input);
    seq(|s|, k requires 0 <= k < |s| => s[k] == '^')
  }

  /** `is_trap`: the tiles above-left and above-right differ, a missing one
      counting as safe */
  function IsTrap(i: nat, row: Row): bool
    requires i < |row|
  {
    var left := if i > 0 then row[i - 1] else false;
    var right := if i < |row| - 1 then row[i + 1] else false;
    left != right
  }

  /** The puzzle's four rules for a new trap, on the left, centre and right tiles
      above it */
  predicate Rule(left: bool, centre: bool, right: bool) {
    (left && centre && !right) || (!left && centre && right) ||
    (left && !centre && !right) || (!left && !centre && right)
  }

  /** The centre tile does not matter: the four rules say the sides differ */
  lemma IsTrapRule(i: nat, row: Row)
    requires i < |row|
    ensures IsTrap(i, row) == Rule(if i > 0 then row[i - 1] else false, row[i],
                                   if i < |row| - 1 then row[i + 1] else false)
  {
  }

  /** `transform`: the next row */
  function Transform(row: Row): (r: Row)
    ensures |r| == |row| && forall i :: 0 <= i < |r| ==> r[i] == IsTrap(i, row)
  {
    seq(|row|, i requires 0 <= i < |row| => IsTrap(i, row))
  }

  /** The safe tiles of one row */
  function Safe(row: Row): nat
  {
    CountWhere(row, (t: bool) => !t)
  }

  /** The safe tiles of `n` rows starting at `row` */
  function SafeTotal(row: Row, n: nat): nat
    decreases n
  {
    if n == 0 then 0 else Safe(row) + SafeTotal(Transform(row), n - 1)
  }

  /** No more safe tiles than tiles: at most n times the width */
  lemma {:induction false} SafeTotalBound(row: Row, n: nat)
    ensures SafeTotal(row, n) <= n * |row|
    decreases n
  {
    if n > 0 {
      SafeTotalBound(Transform(row), n - 1);
      assert (n - 1) * |row| + |row| == n * |row|;
    }
  }

  /** A row without traps never grows one: every tile of every row is safe */
  lemma {:induction false} SafeTotalSafeRow(row: Row, n: nat)
    requires forall k :: 0 <= k < |row| ==> !row[k]
    ensures SafeTotal(row, n) == n * |row|
    decreases n
  {
    if n > 0 {
      assert Transform(row) == row;
      CountWhereAll(row, (t: bool) => !t);
      SafeTotalSafeRow(row, n - 1);
      assert (n - 1) * |row| + |row| == n * |row|;
    }
  }

  /** One row off the front of a nonempty block */
  lemma SafeTotalUnfold(row: Row, n: nat)
    requires n >= 1
    ensures SafeTotal(row, n) == Safe(row) + SafeTotal(Transform(row), n - 1)
  {
  }

  /** `calculate_safe_tiles`, which needs at least one row */
  method CalculateSafeTiles(input: string, iterations: nat) returns (safe: nat)
    requires iterations >= 1
    ensures safe == SafeTotal(Parse(input), iterations)
  {
    var current := Parse(input);
    ghost var total := SafeTotal(current, iterations);
    safe := Safe(current);
    for k := 0 to iterations - 1
      invariant safe + SafeTotal(Transform(current), iterations - 1 - k) == total
    {
      SafeTotalUnfold(Transform(current), iterations - 1 - k);
      current := Transform(current);
      safe := safe + Safe(current);
    }
  }

  /** Part one: 40 rows */
  method Part1(input: string) returns (safe: nat)
    ensures safe == SafeTotal(Parse(input), 40) <= 40 * |Parse(input)|
  {
    safe := CalculateSafeTiles(input, 40);
    SafeTotalBound(Parse(input), 40);
  }

  /** Part two: 400000 rows */
  method Part2(input: string) returns (safe: nat)
    ensures safe == SafeTotal(Parse(input), 400000) <= 400000 * |Parse(input)|
  {
    safe := CalculateSafeTiles(input, 400000);
    SafeTotalBound(Parse(input), 400000);
  }

  /** The puzzle's small example: `..^^.` then `.^^^^` then `^^..^` */
  lemma ExampleRows()
    ensures Transform([false, false, true, true, false]) == [false, true, true, true, true]
    ensures Transform([false, true, true, true, true]) == [true, true, false, false, true]
  {
  }

  /** Those three rows hold six safe tiles */
  lemma ExampleCount()
    ensures SafeTotal([false, false, true, true, false], 3) == 6
  {
    var r0, r1, r2 := [false, false, true, true, false], [false, true, true, true, true], [true, true, false, false, true];
    ExampleRows();
    assert SafeTotal(r0, 3) == Safe(r0) + Safe(r1) + Safe(r2) + SafeTotal(Transform(r2), 0);
    SafeSplit([false, false], [true, true], [false]);
    SafeSplit([false], [true, true], [true, true]);
    SafeSplit([true, true], [false, false], [true]);
  }

  /** The safe tiles of three pieces of a row, each all safe or all traps */
  lemma SafeSplit(a: Row, b: Row, c: Row)
    requires forall k :: 0 <= k < |a| ==> a[k] == a[0]
    requires forall k :: 0 <= k < |b| ==> b[k] == b[0]
    requires forall k :: 0 <= k < |c| ==> c[k] == c[0]
    ensures Safe(a + b + c) == (if |a| > 0 && !a[0] then |a| else 0) + (if |b| > 0 && !b[0] then |b| else 0) +
                              (if |c| > 0 && !c[0] then |c| else 0)
  {
    CountWhereConcat(a + b, c, (t: bool) => !t);
    CountWhereConcat(a, b, (t: bool) => !t);
    CountWhereAll(a, (t: bool) => !t);
    CountWhereAll(b, (t: bool) => !t);
    CountWhereAll(c, (t: bool) => !t);
  }
}
