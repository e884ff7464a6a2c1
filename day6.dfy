/** Day 6: recover a password from a column-wise majority (or minority) vote over
    noisy copies of it. Every line is trimmed; character `i` of a line votes in
    column `i` of an eight-column tally, and each column contributes the character
    it saw most often (part one) or least often (part two). */
module Day6 {
  import opened Wrappers
  import opened Strings
  import opened Lib

  /** The number of columns, the length of the fixed array of tallies */
  const Width: nat := 8

  /** The trimmed lines of the input */
  function Rows(input: string): seq<string>
  {
    var lines := Lines(input);
    seq(|lines|, k requires 0 <= k < |lines| => Trim(lines[k]))
  }

  /** Column `i` read top to bottom, skipping the rows too short to reach it */
  function Column(rows: seq<string>, i: nat): (r: string)
    ensures |r| <= |rows|
  {
    if |rows| == 0 then []
    else
      var last := rows[|rows| - 1];
      Column(rows[..|rows| - 1], i) + (if i < |last| then [last[i]] else [])
  }

  /** The rows whose character `i` is `c` */
  function RowsWith(rows: seq<string>, i: nat, c: char): set<nat>
  {
    set k: nat | k < |rows| && i < |rows[k]| && rows[k][i] == c
  }

  /** A column's tally of a character is the number of rows that have that
      character in that column */
  lemma {:induction false} ColumnCounts(rows: seq<string>, i: nat, c: char)
    ensures multiset(Column(rows, i))[c] == |RowsWith(rows, i, c)|
  {
    if |rows| > 0 {
      ColumnCounts(rows[..|rows| - 1], i, c);
      ColumnCountSnoc(rows, i, c);
      RowsWithSnoc(rows, i, c);
    }
  }

  lemma ColumnCountSnoc(rows: seq<string>, i: nat, c: char)
    requires |rows| > 0
    ensures var n := |rows| - 1;
            multiset(Column(rows, i))[c] ==
            multiset(Column(rows[..n], i))[c] + (if i < |rows[n]| && rows[n][i] == c then 1 else 0)
  {
    var n := |rows| - 1;
    var extra := if i < |rows[n]| then [rows[n][i]] else [];
    assert Column(rows, i) == Column(rows[..n], i) + extra;
    assert multiset(Column(rows, i)) == multiset(Column(rows[..n], i)) + multiset(extra);
  }

  lemma RowsWithSnoc(rows: seq<string>, i: nat, c: char)
    requires |rows| > 0
    ensures var n := |rows| - 1;
            |RowsWith(rows, i, c)| ==
            |RowsWith(rows[..n], i, c)| + (if i < |rows[n]| && rows[n][i] == c then 1 else 0)
  {
    var n := |rows| - 1;
    var a := RowsWith(rows, i, c);
    var b := RowsWith(rows[..n], i, c);
    forall k | k in a && k < n
      ensures k in b
    {
      assert rows[..n][k] == rows[k];
    }
    forall k | k in b
      ensures k in a
    {
      assert rows[..n][k] == rows[k];
    }
    if i < |rows[n]| && rows[n][i] == c {
      assert a == b + {n};
    } else {
      assert a == b;
    }
  }

  /** `c` wins the vote of `counts`: the highest count in part one, the lowest in
      part two, among the characters seen */
  predicate Chosen(counts: map<char, nat>, part: Part, c: char) {
    c in counts &&
    forall d :: d in counts ==> AtLeastAsGood(part, counts[c], counts[d])
  }

  predicate AtLeastAsGood(part: Part, x: nat, y: nat) {
    if part == One then x >= y else x <= y
  }

  /** `max_by` over a map in its (unspecified) iteration order: the running winner
      is replaced by every later character at least as good */
  method Pick(counts: map<char, nat>, part: Part) returns (c: char)
    requires |counts| > 0
    ensures Chosen(counts, part, c)
  {
    var remaining := counts.Keys;
    c :| c in remaining;
    remaining := remaining - {c};
    while remaining != {}
      invariant remaining <= counts.Keys && c in counts
      invariant forall d :: d in counts && d !in remaining ==> AtLeastAsGood(part, counts[c], counts[d])
      decreases |remaining|
    {
      var d :| d in remaining;
      if AtLeastAsGood(part, counts[d], counts[c]) {
        c := d;
      }
      remaining := remaining - {d};
    }
  }

  /** Appending a row adds its character `i`, if it has one, to column `i` */
  lemma ColumnSnoc(rows: seq<string>, k: nat, i: nat)
    requires k < |rows|
    ensures Column(rows[..k + 1], i) == Column(rows[..k], i) + (if i < |rows[k]| then [rows[k][i]] else [])
  {
    assert rows[..k + 1][..k] == rows[..k];
  }

  /** The eight tallies: entry `i` counts the characters of column `i`; `None`
      where a row longer than eight characters indexes past the array */
  method CountColumns(rows: seq<string>) returns (counts: Option<array<map<char, nat>>>)
    ensures counts.Some? <==> forall k :: 0 <= k < |rows| ==> |rows[k]| <= Width
    ensures counts.Some? ==> counts.value.Length == Width && fresh(counts.value)
    ensures counts.Some? ==> forall i :: 0 <= i < Width ==> counts.value[i] == Tally(Column(rows, i))
  {
    var tallies := new map<char, nat>[Width](_ => map[]);
    ghost var columns: seq<string> := seq(Width, _ => []);
    assert forall i :: 0 <= i < Width ==> Column(rows[..0], i) == [];
    for k := 0 to |rows|
      invariant forall j :: 0 <= j < k ==> |rows[j]| <= Width
      invariant |columns| == Width
      invariant forall i :: 0 <= i < Width ==> columns[i] == Column(rows[..k], i)
      invariant forall i :: 0 <= i < Width ==> tallies[i] == Tally(columns[i])
    {
      var row := rows[k];
      if |row| > Width {
        return None;
      }
      AddRow(tallies, columns, row);
      ghost var before := columns;
      columns := Extended(columns, row);
      forall i | 0 <= i < Width
        ensures columns[i] == Column(rows[..k + 1], i)
        ensures tallies[i] == Tally(columns[i])
      {
        ColumnSnoc(rows, k, i);
        if i >= |row| {
          assert before[i] + [] == before[i];
        }
      }
    }
    assert rows[..|rows|] == rows;
    counts := Some(tallies);
  }

  /** The row's character `i` added to column `i` */
  function Extended(columns: seq<string>, row: string): (r: seq<string>)
    ensures |r| == |columns|
  {
    seq(|columns|, i requires 0 <= i < |columns| => columns[i] + (if i < |row| then [row[i]] else []))
  }

  /** Counts the characters of one row, character `i` in tally `i` */
  method AddRow(tallies: array<map<char, nat>>, ghost columns: seq<string>, row: string)
    requires tallies.Length == Width && |columns| == Width && |row| <= Width
    requires forall i :: 0 <= i < Width ==> tallies[i] == Tally(columns[i])
    modifies tallies
    ensures forall i :: 0 <= i < Width ==>
              tallies[i] == Tally(if i < |row| then columns[i] + [row[i]] else columns[i])
  {
    for j := 0 to |row|
      invariant forall i :: 0 <= i < j ==> tallies[i] == Tally(columns[i] + [row[i]])
      invariant forall i :: j <= i < Width ==> tallies[i] == Tally(columns[i])
    {
      var c := row[j];
      TallySnoc(columns[j], c);
      tallies[j] := tallies[j][c := (if c in tallies[j] then tallies[j][c] else 0) + 1];
    }
  }

  /** One winner per tally, in order; `None` at the first empty tally, where
      the source unwraps a missing maximum */
  method ChooseAll(tallies: seq<map<char, nat>>, part: Part) returns (chosen: Option<string>)
    ensures chosen.Some? <==> forall i :: 0 <= i < |tallies| ==> |tallies[i]| > 0
    ensures chosen.Some? ==> |chosen.value| == |tallies|
    ensures chosen.Some? ==> forall i :: 0 <= i < |tallies| ==> Chosen(tallies[i], part, chosen.value[i])
  {
    var password := "";
    for i := 0 to |tallies|
      invariant |password| == i
      invariant forall j :: 0 <= j < i ==> |tallies[j]| > 0
      invariant forall j :: 0 <= j < i ==> Chosen(tallies[j], part, password[j])
    {
      if |tallies[i]| == 0 {
        return None;
      }
      var c := Pick(tallies[i], part);
      password := password + [c];
    }
    chosen := Some(password);
  }

  /** The password, one character per column; `None` where the source panics: a
      row longer than eight characters indexes past the array, and an empty
      column has no winner to unwrap */
  method Calculate(rows: seq<string>, part: Part) returns (password: Option<string>)
    ensures password.Some? <==> (forall k :: 0 <= k < |rows| ==> |rows[k]| <= Width) &&
                                (forall i :: 0 <= i < Width ==> |Column(rows, i)| > 0)
    ensures password.Some? ==> |password.value| == Width
    ensures password.Some? ==> forall i :: 0 <= i < Width ==> Chosen(Tally(Column(rows, i)), part, password.value[i])
  {
    var counts := CountColumns(rows);
    if counts.None? {
      var k :| 0 <= k < |rows| && |rows[k]| > Width;
      return None;
    }
    var tallies := counts.value[..];
    assert |tallies| == Width;
    forall i | 0 <= i < Width
      ensures tallies[i] == Tally(Column(rows, i))
      ensures |tallies[i]| > 0 <==> |Column(rows, i)| > 0
    {
      var column := Column(rows, i);
      TallyMeans(column);
      if |column| > 0 {
        assert column[0] in tallies[i].Keys;
      } else {
        assert tallies[i] == map[];
      }
    }
    password := ChooseAll(tallies, part);
    if password.Some? {
      forall i | 0 <= i < Width
        ensures |Column(rows, i)| > 0
      {
        assert |tallies[i]| > 0;
      }
    } else {
      var i :| 0 <= i < Width && |tallies[i]| == 0;
      assert |Column(rows, i)| == 0;
    }
  }

  /** Part one: the most common character of each column */
  method Part1(input: string) returns (password: Option<string>)
    ensures var rows := Rows(input);
      password.Some? <==> (forall k :: 0 <= k < |rows| ==> |rows[k]| <= Width) &&
                          (forall i :: 0 <= i < Width ==> |Column(rows, i)| > 0)
    ensures password.Some? ==> |password.value| == Width
    ensures password.Some? ==>
      forall i :: 0 <= i < Width ==> Chosen(Tally(Column(Rows(input), i)), One, password.value[i])
  {
    password := Calculate(Rows(input), One);
  }

  /** Part two: the least common character of each column */
  method Part2(input: string) returns (password: Option<string>)
    ensures var rows := Rows(input);
      password.Some? <==> (forall k :: 0 <= k < |rows| ==> |rows[k]| <= Width) &&
                          (forall i :: 0 <= i < Width ==> |Column(rows, i)| > 0)
    ensures password.Some? ==> |password.value| == Width
    ensures password.Some? ==>
      forall i :: 0 <= i < Width ==> Chosen(Tally(Column(Rows(input), i)), Two, password.value[i])
  {
    password := Calculate(Rows(input), Two);
  }

  // ---------------------------------------------------------------------------
  // Properties

  /** A character with a strictly higher count than every other is the only
      possible winner of part one, whatever order the map is visited in; likewise
      a strictly lowest count in part two */
  lemma ChosenUnique(counts: map<char, nat>, part: Part, c: char, d: char)
    requires c in counts
    requires forall e :: e in counts && e != c ==> !AtLeastAsGood(part, counts[e], counts[c])
    ensures Chosen(counts, part, d) ==> d == c
  {
  }

  /** Both parts vote over the same characters: each winner is a character that
      occurs in its column */
  lemma ChosenOccurs(rows: seq<string>, i: nat, part: Part, c: char)
    requires Chosen(Tally(Column(rows, i)), part, c)
    ensures |RowsWith(rows, i, c)| > 0
  {
    TallyMeans(Column(rows, i));
    ColumnCounts(rows, i, c);
  }
}
