/** Day 2: walk a finger over a keypad, one line of moves per key; a move that
    would leave the keypad is ignored. Part one uses the 3x3 pad, part two the
    diamond-shaped pad; both start on the key '5'. */
module Day2 {
  import opened Wrappers
  import opened Strings
  import Compass

  datatype Move = Up | Down | Left | Right

  /** Keys by (column, row), both counted from 0 at the top left */
  type Keypad = map<(nat, nat), char>

  // ---------------------------------------------------------------------------
  // Parsing

  function ParseMove(c: char): (r: Option<Move>)
    ensures r.Some? <==> c in "UDLR"
  {
    match c
    case 'U' => Some(Up)
    case 'D' => Some(Down)
    case 'L' => Some(Left)
    case 'R' => Some(Right)
    case _ => None
  }

  function ParseMoves(line: string): (r: Option<seq<Move>>)
    ensures r.Some? <==> forall i :: 0 <= i < |line| ==> line[i] in "UDLR"
    ensures r.Some? ==> |r.value| == |line| &&
                        forall i :: 0 <= i < |line| ==> Some(r.value[i]) == ParseMove(line[i])
  {
    if |line| == 0 then Some([])
    else
      match (ParseMove(line[0]), ParseMoves(line[1..]))
      case (Some(m), Some(rest)) => Some([m] + rest)
      case _ => None
  }

  function ParseLines(lines: seq<string>): (r: Option<seq<seq<Move>>>)
    ensures r.Some? <==> forall i :: 0 <= i < |lines| ==> ParseMoves(lines[i]).Some?
    ensures r.Some? ==> |r.value| == |lines| &&
                        forall i :: 0 <= i < |lines| ==> Some(r.value[i]) == ParseMoves(lines[i])
  {
    if |lines| == 0 then Some([])
    else
      match (ParseMoves(lines[0]), ParseLines(lines[1..]))
      case (Some(m), Some(rest)) => Some([m] + rest)
      case _ => None
  }

  /** One list of moves per line of the trimmed input; `None` where the generator
      panics on a character other than U, D, L and R */
  function Generator(input: string): (r: Option<seq<seq<Move>>>)
    ensures var lines := Lines(Trim(input));
      (r.Some? <==> forall k, i :: 0 <= k < |lines| && 0 <= i < |lines[k]| ==> lines[k][i] in "UDLR") &&
      (r.Some? ==> |r.value| == |lines|)
  {
    ParseLines(Lines(Trim(input)))
  }

  // ---------------------------------------------------------------------------
  // Keypads

  /** The 3x3 keypad of part one */
  const Square: Keypad := map[(0, 0) := '1', (1, 0) := '2', (2, 0) := '3',
                              (0, 1) := '4', (1, 1) := '5', (2, 1) := '6',
                              (0, 2) := '7', (1, 2) := '8', (2, 2) := '9']

  /** The diamond keypad of part two */
  const Diamond: Keypad := map[(2, 0) := '1',
                               (1, 1) := '2', (2, 1) := '3', (3, 1) := '4',
                               (0, 2) := '5', (1, 2) := '6', (2, 2) := '7', (3, 2) := '8', (4, 2) := '9',
                               (1, 3) := 'A', (2, 3) := 'B', (3, 3) := 'C',
                               (2, 4) := 'D']

  const SquareStart: (nat, nat) := (1, 1)
  const DiamondStart: (nat, nat) := (0, 2)

  lemma StartOnFive()
    ensures SquareStart in Square && Square[SquareStart] == '5'
    ensures DiamondStart in Diamond && Diamond[DiamondStart] == '5'
  {
  }

  // ---------------------------------------------------------------------------
  // Moving

  /** The position a move aims at: Left and Up saturate at 0, Right and Down add 1 */
  function Target(p: (nat, nat), m: Move): (nat, nat)
  {
    match m
    case Left => (if p.0 == 0 then 0 else p.0 - 1, p.1)
    case Right => (p.0 + 1, p.1)
    case Up => (p.0, if p.1 == 0 then 0 else p.1 - 1)
    case Down => (p.0, p.1 + 1)
  }

  /** One move: taken when its target is a key, ignored otherwise */
  function StepKey(keys: Keypad, p: (nat, nat), m: Move): (r: (nat, nat))
    ensures Target(p, m) in keys ==> r == Target(p, m)
    ensures Target(p, m) !in keys ==> r == p
  {
    if Target(p, m) in keys then Target(p, m) else p
  }

  /** The position after all the moves */
  function Final(keys: Keypad, moves: seq<Move>, start: (nat, nat)): (r: (nat, nat))
    ensures start in keys ==> r in keys
  {
    if |moves| == 0 then start
    else StepKey(keys, Final(keys, moves[..|moves| - 1], start), moves[|moves| - 1])
  }

  lemma FinalAppend(keys: Keypad, moves: seq<Move>, m: Move, start: (nat, nat))
    ensures Final(keys, moves + [m], start) == StepKey(keys, Final(keys, moves, start), m)
  {
    assert (moves + [m])[..|moves|] == moves;
  }

  /** The key under the finger after the moves; `None` where the source's `expect`
      fails because the end position is not a key (only possible from a start off
      the keypad) */
  method GetKey(moves: seq<Move>, keys: Keypad, x: nat, y: nat) returns (key: Option<char>)
    ensures (x, y) in keys ==> key.Some?
    ensures key.Some? <==> Final(keys, moves, (x, y)) in keys
    ensures key.Some? ==> key.value == keys[Final(keys, moves, (x, y))]
  {
    var col, row := x, y;
    for i := 0 to |moves|
      invariant Final(keys, moves[..i], (x, y)) == (col, row)
    {
      FinalAppend(keys, moves[..i], moves[i], (x, y));
      assert moves[..i] + [moves[i]] == moves[..i + 1];
      var nextCol := match moves[i] case Left => (if col == 0 then 0 else col - 1) case Right => col + 1 case _ => col;
      var nextRow := match moves[i] case Up => (if row == 0 then 0 else row - 1) case Down => row + 1 case _ => row;
      if (nextCol, nextRow) in keys {
        col, row := nextCol, nextRow;
      }
    }
    assert moves[..|moves|] == moves;
    if (col, row) in keys {
      key := Some(keys[(col, row)]);
    } else {
      key := None;
    }
  }

  /** Part one: one key of the square pad per line, starting on '5' */
  function Part1(input: seq<seq<Move>>): (r: string)
    ensures |r| == |input|
    ensures forall i :: 0 <= i < |r| ==> r[i] in Square.Values
  {
    seq(|input|, i requires 0 <= i < |input| => Square[Final(Square, input[i], SquareStart)])
  }

  /** Part two: the same walk on the diamond pad, starting on its '5' */
  function Part2(input: seq<seq<Move>>): (r: string)
    ensures |r| == |input|
    ensures forall i :: 0 <= i < |r| ==> r[i] in Diamond.Values
  {
    seq(|input|, i requires 0 <= i < |input| => Diamond[Final(Diamond, input[i], DiamondStart)])
  }

  // ---------------------------------------------------------------------------
  // Properties

  /** Left and Up never go below 0; Right and Down always aim exactly one further */
  lemma TargetSaturates(p: (nat, nat))
    ensures p.0 == 0 ==> Target(p, Left) == p
    ensures p.1 == 0 ==> Target(p, Up) == p
    ensures Target(p, Right) == (p.0 + 1, p.1) && Target(p, Down) == (p.0, p.1 + 1)
  {
  }

  /** A move either stays put or moves to a key one step away */
  lemma StepIsLocal(keys: Keypad, p: (nat, nat), m: Move)
    ensures var q := StepKey(keys, p, m);
            q == p || (q in keys && Compass.Distance(Compass.Point(p.0, p.1), Compass.Point(q.0, q.1)) == 1)
  {
  }

  lemma FinalUnfold(keys: Keypad, moves: seq<Move>, start: (nat, nat))
    ensures Final(keys, moves[..0], start) == start
    ensures forall k :: 0 <= k < |moves| ==>
              Final(keys, moves[..k + 1], start) == StepKey(keys, Final(keys, moves[..k], start), moves[k])
  {
    forall k | 0 <= k < |moves|
      ensures Final(keys, moves[..k + 1], start) == StepKey(keys, Final(keys, moves[..k], start), moves[k])
    {
      assert moves[..k + 1][..k] == moves[..k];
    }
  }

  /** Every line starts over on '5' rather than on the previous line's key, so
      the lines "ULL", "RRDDD", "LURDL", "UUUUD" read 1945 */
  lemma Part1Sample(input: seq<seq<Move>>)
    requires input == [[Up, Left, Left], [Right, Right, Down, Down, Down],
                       [Left, Up, Right, Down, Left], [Up, Up, Up, Up, Down]]
    ensures Part1(input) == "1945"
  {
    var a, b, c, d := input[0], input[1], input[2], input[3];
    FinalUnfold(Square, a, (1, 1));
    assert Final(Square, a[..1], (1, 1)) == (1, 0);
    assert Final(Square, a[..2], (1, 1)) == (0, 0);
    assert Final(Square, a[..3], (1, 1)) == (0, 0);
    assert a[..3] == a;
    FinalUnfold(Square, b, (1, 1));
    assert Final(Square, b[..1], (1, 1)) == (2, 1);
    assert Final(Square, b[..2], (1, 1)) == (2, 1);
    assert Final(Square, b[..3], (1, 1)) == (2, 2);
    assert Final(Square, b[..4], (1, 1)) == (2, 2);
    assert Final(Square, b[..5], (1, 1)) == (2, 2);
    assert b[..5] == b;
    FinalUnfold(Square, c, (1, 1));
    assert Final(Square, c[..1], (1, 1)) == (0, 1);
    assert Final(Square, c[..2], (1, 1)) == (0, 0);
    assert Final(Square, c[..3], (1, 1)) == (1, 0);
    assert Final(Square, c[..4], (1, 1)) == (1, 1);
    assert Final(Square, c[..5], (1, 1)) == (0, 1);
    assert c[..5] == c;
    FinalUnfold(Square, d, (1, 1));
    assert Final(Square, d[..1], (1, 1)) == (1, 0);
    assert Final(Square, d[..2], (1, 1)) == (1, 0);
    assert Final(Square, d[..3], (1, 1)) == (1, 0);
    assert Final(Square, d[..4], (1, 1)) == (1, 0);
    assert Final(Square, d[..5], (1, 1)) == (1, 1);
    assert d[..5] == d;
    assert Part1(input) == [Square[(0, 0)], Square[(2, 2)], Square[(0, 1)], Square[(1, 1)]];
  }

  /** Because every line starts on the same key, the keys of concatenated move lists
      are the concatenated keys */
  lemma Part1Concat(a: seq<seq<Move>>, b: seq<seq<Move>>)
    ensures Part1(a + b) == Part1(a) + Part1(b)
    ensures Part2(a + b) == Part2(a) + Part2(b)
  {
  }
}
