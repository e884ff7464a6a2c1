/** Day 21: scrambling a password. A list of instructions (swap two positions,
    swap two letters, rotate, reverse a range, move one letter) is applied in
    order to a string of letters. Part one scrambles `abcdefgh`; part two looks,
    in the order of the permutations of `abcdefgh`, for the first one that
    scrambles to `fbgdceah`. */
module Day21 {
  import opened Wrappers
  import opened Strings
  import opened Orderings

  // ---------------------------------------------------------------------------
  // Instructions and their parser

  datatype Instruction =
    | SwapIndex(x: nat, y: nat)     // swap position X with position Y
    | SwapLetter(a: char, b: char)  // swap letter X with letter Y
    | RotateLeft(steps: nat)        // rotate left X steps
    | RotateRight(steps: nat)       // rotate right X steps
    | RotateIndex(letter: char)     // rotate based on position of letter X
    | Reverse(x: nat, y: nat)       // reverse positions X through Y
    | Move(x: nat, y: nat)          // move position X to position Y

  /** What `from_str` gives back for a line it does not panic on */
  datatype Parsed = Ok(instruction: Instruction) | Err(line: string)

  /** Both words parse as numbers */
  function Numbers(x: string, y: string, mk: (nat, nat) -> Instruction): Option<Parsed>
  {
    match (ParseNat(x), ParseNat(y))
    case (Some(a), Some(b)) => Some(Ok(mk(a, b)))
    case _ => None
  }

  /** `Instruction::from_str`: the words of the line against the seven shapes, in
      the source's order. A shape that matches but holds a word that does not
      parse (`x.parse().unwrap()`) is a panic, `None`; a line of no known shape is
      `Err` with the line. `rotate left _ step` means one step whatever the word. */
  function FromStr(s: string): (r: Option<Parsed>)
    ensures r.Some? && r.value.Err? ==> r.value.line == s
  {
    var w := Words(s);
    if |w| == 6 && w[0] == "swap" && w[1] == "position" && w[3] == "with" && w[4] == "position" then
      Numbers(w[2], w[5], (a: nat, b: nat) => SwapIndex(a, b))
    else if |w| == 6 && w[0] == "swap" && w[1] == "letter" && w[3] == "with" && w[4] == "letter" then
      match (ParseChar(w[2]), ParseChar(w[5]))
      case (Some(a), Some(b)) => Some(Ok(SwapLetter(a, b)))
      case _ => None
    else if |w| == 4 && w[0] == "rotate" && w[1] == "left" && w[3] == "steps" then
      match ParseNat(w[2])
      case Some(n) => Some(Ok(RotateLeft(n)))
      case None => None
    else if |w| == 4 && w[0] == "rotate" && w[1] == "left" && w[3] == "step" then
      Some(Ok(RotateLeft(1)))
    else if |w| == 4 && w[0] == "rotate" && w[1] == "right" && w[3] == "steps" then
      match ParseNat(w[2])
      case Some(n) => Some(Ok(RotateRight(n)))
      case None => None
    else if |w| == 4 && w[0] == "rotate" && w[1] == "right" && w[3] == "step" then
      Some(Ok(RotateRight(1)))
    else if |w| == 7 && w[0] == "rotate" && w[1] == "based" && w[2] == "on" && w[3] == "position" &&
            w[4] == "of" && w[5] == "letter" then
      match ParseChar(w[6])
      case Some(c) => Some(Ok(RotateIndex(c)))
      case None => None
    else if |w| == 5 && w[0] == "reverse" && w[1] == "positions" && w[3] == "through" then
      Numbers(w[2], w[4], (a: nat, b: nat) => Reverse(a, b))
    else if |w| == 6 && w[0] == "move" && w[1] == "position" && w[3] == "to" && w[4] == "position" then
      Numbers(w[2], w[5], (a: nat, b: nat) => Move(a, b))
    else
      Some(Err(s))
  }

  /** `line.parse().unwrap()`: an `Err` panics as well */
  function ParseLine(line: string): Option<Instruction>
  {
    match FromStr(line)
    case Some(Ok(i)) => Some(i)
    case _ => None
  }

  /** `generator`: one instruction per line of the trimmed input, or a panic */
  function Generator(input: string): (r: Option<seq<Instruction>>)
    ensures var lines := Lines(Trim(input));
      (r.Some? <==> forall k :: 0 <= k < |lines| ==> ParseLine(lines[k]).Some?) &&
      (r.Some? ==> |r.value| == |lines| &&
                   forall k :: 0 <= k < |lines| ==> ParseLine(lines[k]) == Some(r.value[k]))
  {
    TraverseAt(Lines(Trim(input)), ParseLine);
    Traverse(Lines(Trim(input)), ParseLine)
  }

  /** The words of the puzzle's line for an instruction */
  function Described(i: Instruction): seq<string>
  {
    match i
    case SwapIndex(x, y) => ["swap", "position", NatToString(x), "with", "position", NatToString(y)]
    case SwapLetter(a, b) => ["swap", "letter", [a], "with", "letter", [b]]
    case RotateLeft(n) => ["rotate", "left", NatToString(n), "steps"]
    case RotateRight(n) => ["rotate", "right", NatToString(n), "steps"]
    case RotateIndex(c) => ["rotate", "based", "on", "position", "of", "letter", [c]]
    case Reverse(x, y) => ["reverse", "positions", NatToString(x), "through", NatToString(y)]
    case Move(x, y) => ["move", "position", NatToString(x), "to", "position", NatToString(y)]
  }

  /** Letters in the instruction that the parser can read back */
  predicate Printable(i: Instruction) {
    match i
    case SwapLetter(a, b) => !IsAsciiWhitespace(a) && !IsAsciiWhitespace(b)
    case RotateIndex(c) => !IsAsciiWhitespace(c)
    case _ => true
  }

  /** Digits are never whitespace */
  lemma DigitsAreWords(s: string)
    requires AllDigits(s)
    ensures forall j :: 0 <= j < |s| ==> !IsAsciiWhitespace(s[j])
  {
  }

  /** The line describing an instruction reads back as that instruction */
  lemma ParseDescribed(i: Instruction)
    requires Printable(i)
    ensures FromStr(Join(Described(i), " ")) == Some(Ok(i))
  {
    match i
    case SwapIndex(x, y) => ParseSwapIndex(x, y);
    case SwapLetter(a, b) => ParseSwapLetter(a, b);
    case RotateLeft(n) => ParseRotateLeft(n);
    case RotateRight(n) => ParseRotateRight(n);
    case RotateIndex(c) => ParseRotateIndex(c);
    case Reverse(x, y) => ParseReverse(x, y);
    case Move(x, y) => ParseMove(x, y);
  }

  lemma ParseSwapIndex(x: nat, y: nat)
    ensures FromStr(Join(Described(SwapIndex(x, y)), " ")) == Some(Ok(SwapIndex(x, y)))
  {
    DigitsAreWords(NatToString(x));
    DigitsAreWords(NatToString(y));
    WordsJoin(Described(SwapIndex(x, y)));
    ParseNatToString(x);
    ParseNatToString(y);
  }

  lemma ParseSwapLetter(a: char, b: char)
    requires !IsAsciiWhitespace(a) && !IsAsciiWhitespace(b)
    ensures FromStr(Join(Described(SwapLetter(a, b)), " ")) == Some(Ok(SwapLetter(a, b)))
  {
    WordsJoin(Described(SwapLetter(a, b)));
  }

  lemma ParseRotateLeft(n: nat)
    ensures FromStr(Join(Described(RotateLeft(n)), " ")) == Some(Ok(RotateLeft(n)))
  {
    DigitsAreWords(NatToString(n));
    WordsJoin(Described(RotateLeft(n)));
    ParseNatToString(n);
  }

  lemma ParseRotateRight(n: nat)
    ensures FromStr(Join(Described(RotateRight(n)), " ")) == Some(Ok(RotateRight(n)))
  {
    DigitsAreWords(NatToString(n));
    WordsJoin(Described(RotateRight(n)));
    ParseNatToString(n);
  }

  lemma ParseRotateIndex(c: char)
    requires !IsAsciiWhitespace(c)
    ensures FromStr(Join(Described(RotateIndex(c)), " ")) == Some(Ok(RotateIndex(c)))
  {
    WordsJoin(Described(RotateIndex(c)));
  }

  lemma ParseReverse(x: nat, y: nat)
    ensures FromStr(Join(Described(Reverse(x, y)), " ")) == Some(Ok(Reverse(x, y)))
  {
    DigitsAreWords(NatToString(x));
    DigitsAreWords(NatToString(y));
    WordsJoin(Described(Reverse(x, y)));
    ParseNatToString(x);
    ParseNatToString(y);
  }

  lemma ParseMove(x: nat, y: nat)
    ensures FromStr(Join(Described(Move(x, y)), " ")) == Some(Ok(Move(x, y)))
  {
    DigitsAreWords(NatToString(x));
    DigitsAreWords(NatToString(y));
    WordsJoin(Described(Move(x, y)));
    ParseNatToString(x);
    ParseNatToString(y);
  }

  /** A single word: non-empty and without whitespace */
  predicate IsWord(w: string) {
    |w| > 0 && forall j :: 0 <= j < |w| ==> !IsAsciiWhitespace(w[j])
  }

  /** The singular `step` form means one step, whatever its count word */
  lemma ParseSingleStep(count: string)
    requires IsWord(count)
    ensures FromStr(Join(["rotate", "left", count, "step"], " ")) == Some(Ok(RotateLeft(1)))
    ensures FromStr(Join(["rotate", "right", count, "step"], " ")) == Some(Ok(RotateRight(1)))
  {
    WordsJoin(["rotate", "left", count, "step"]);
    WordsJoin(["rotate", "right", count, "step"]);
  }

  /** A count that is not a number panics */
  lemma ParseBadCount(count: string)
    requires IsWord(count) && ParseNat(count).None?
    ensures FromStr(Join(["rotate", "left", count, "steps"], " ")) == None
    ensures FromStr(Join(["rotate", "right", count, "steps"], " ")) == None
  {
    WordsJoin(["rotate", "left", count, "steps"]);
    WordsJoin(["rotate", "right", count, "steps"]);
  }

  /** A line that starts with none of the four verbs is rejected with the line */
  lemma ParseUnknownVerb(s: string)
    requires |Words(s)| == 0 || Words(s)[0] !in {"swap", "rotate", "reverse", "move"}
    ensures FromStr(s) == Some(Err(s))
  {
  }

  // ---------------------------------------------------------------------------
  // The seven operations. `None` is a panic of the Rust code.

  /** `find_position(|&c| c == x)`: the index of the first occurrence */
  function FirstIndex(s: string, c: char): (r: Option<nat>)
    ensures r.Some? <==> c in s
    ensures r.Some? ==> r.value < |s| && s[r.value] == c && forall k :: 0 <= k < r.value ==> s[k] != c
  {
    FirstIndexFrom(s, c, 0)
  }

  /** The scan of `find_position` from position i on */
  function FirstIndexFrom(s: string, c: char, i: nat): (r: Option<nat>)
    requires i <= |s|
    ensures r.Some? <==> c in s[i..]
    ensures r.Some? ==> i <= r.value < |s| && s[r.value] == c && forall k :: i <= k < r.value ==> s[k] != c
    decreases |s| - i
  {
    if i == |s| then None
    else if s[i] == c then Some(i)
    else
      assert s[i..] == [s[i]] + s[i + 1..];
      FirstIndexFrom(s, c, i + 1)
  }

  /** A position holding the letter with no earlier occurrence is the first one */
  lemma FirstIndexAt(s: string, c: char, i: nat)
    requires i < |s| && s[i] == c && forall k :: 0 <= k < i ==> s[k] != c
    ensures FirstIndex(s, c) == Some(i)
  {
  }

  /** `swap_index`: the text before the lower position, the character at the
      higher one, the text between, the character at the lower one, and the rest.
      A position past the end panics on `nth(..).unwrap()`, and equal positions
      panic on the slice `s[dx + 1..dy]` that would start after it ends. */
  function SwapPositions(s: string, x: nat, y: nat): (r: Option<string>)
    ensures r.Some? <==> x != y && x < |s| && y < |s|
  {
    var dx := if x < y then x else y;
    var dy := if x < y then y else x;
    if dy >= |s| || dx == dy then None
    else Some(s[..dx] + [s[dy]] + s[dx + 1..dy] + [s[dx]] + s[dy + 1..])
  }

  /** Exactly the two positions trade characters */
  lemma SwapPositionsAt(s: string, x: nat, y: nat)
    requires x != y && x < |s| && y < |s|
    ensures var t := SwapPositions(s, x, y).value;
      |t| == |s| && t[x] == s[y] && t[y] == s[x] &&
      forall k :: 0 <= k < |s| && k != x && k != y ==> t[k] == s[k]
  {
  }

  /** The order of the positions does not matter, and swapping again restores */
  lemma SwapPositionsSymmetric(s: string, x: nat, y: nat)
    ensures SwapPositions(s, x, y) == SwapPositions(s, y, x)
    ensures SwapPositions(s, x, y).Some? ==> SwapPositions(SwapPositions(s, x, y).value, x, y) == Some(s)
  {
    if SwapPositions(s, x, y).Some? {
      var t := SwapPositions(s, x, y).value;
      SwapPositionsAt(s, x, y);
      SwapPositionsAt(t, x, y);
      var u := SwapPositions(t, x, y).value;
      assert forall k :: 0 <= k < |s| ==> u[k] == s[k];
      assert u == s;
    }
  }

  /** `swap_letter`: the first occurrences of the two letters trade places; a
      missing letter panics, and so do two equal letters, through `swap_index` */
  function SwapLetters(s: string, a: char, b: char): (r: Option<string>)
    ensures r.Some? <==> a in s && b in s && a != b
  {
    match (FirstIndex(s, a), FirstIndex(s, b))
    case (Some(i), Some(j)) => SwapPositions(s, i, j)
    case _ => None
  }

  /** In a string of distinct letters every `a` becomes `b` and every `b`
      becomes `a` */
  lemma SwapLettersDistinct(s: string, a: char, b: char)
    requires forall i, j :: 0 <= i < j < |s| ==> s[i] != s[j]
    requires a in s && b in s && a != b
    ensures var t := SwapLetters(s, a, b).value;
      |t| == |s| && forall k :: 0 <= k < |s| ==> t[k] == (if s[k] == a then b else if s[k] == b then a else s[k])
  {
    var i, j := FirstIndex(s, a).value, FirstIndex(s, b).value;
    SwapPositionsAt(s, i, j);
  }

  /** `rotate_left`: the first `steps % len` characters move to the end. The
      remainder by the length panics on the empty string. */
  function RotatedLeft(s: string, steps: nat): (r: Option<string>)
    ensures r.Some? <==> |s| > 0
  {
    if |s| == 0 then None
    else
      var k := steps % |s|;
      Some(s[k..] + s[..k])
  }

  /** `rotate_right`: the last `steps % len` characters move to the front */
  function RotatedRight(s: string, steps: nat): (r: Option<string>)
    ensures r.Some? <==> |s| > 0
  {
    if |s| == 0 then None
    else
      var k := steps % |s|;
      Some(s[|s| - k..] + s[..|s| - k])
  }

  /** A left rotation moves every character `k` places towards the front, with
      wrap-around */
  lemma RotatedLeftAt(s: string, steps: nat)
    requires |s| > 0
    ensures var t, k := RotatedLeft(s, steps).value, steps % |s|;
      |t| == |s| &&
      (forall i :: 0 <= i < |s| - k ==> t[i] == s[i + k]) &&
      (forall i :: |s| - k <= i < |s| ==> t[i] == s[i - (|s| - k)])
  {
  }

  /** Rotating right by the same count undoes a left rotation, and the other way
      round */
  lemma RotateInverse(s: string, steps: nat)
    ensures RotatedLeft(s, steps).Some? ==> RotatedRight(RotatedLeft(s, steps).value, steps) == Some(s)
    ensures RotatedRight(s, steps).Some? ==> RotatedLeft(RotatedRight(s, steps).value, steps) == Some(s)
  {
    if |s| > 0 {
      var k := steps % |s|;
      var l := s[k..] + s[..k];
      assert |l| == |s|;
      assert l[|l| - k..] == s[..k] && l[..|l| - k] == s[k..];
      assert s[..k] + s[k..] == s;
      var r := s[|s| - k..] + s[..|s| - k];
      assert |r| == |s|;
      assert r[k..] == s[..|s| - k] && r[..k] == s[|s| - k..];
      assert s[..|s| - k] + s[|s| - k..] == s;
    }
  }

  /** `rotate_index`: rotate right one step more than the letter's first index,
      and one further when that index is at least 4; a missing letter panics */
  function RotatedByIndex(s: string, c: char): (r: Option<string>)
    ensures r.Some? <==> c in s
  {
    match FirstIndex(s, c)
    case None => None
    case Some(i) => RotatedRight(s, if i >= 4 then i + 2 else i + 1)
  }

  /** The reversal of a piece of text */
  function Rev(t: string): (r: string)
    ensures |r| == |t|
  {
    if |t| == 0 then "" else Rev(t[1..]) + [t[0]]
  }

  /** The i-th character of a reversal is the i-th from the end */
  lemma {:induction false} RevAt(t: string)
    ensures forall i :: 0 <= i < |t| ==> Rev(t)[i] == t[|t| - 1 - i]
  {
    if |t| > 0 {
      RevAt(t[1..]);
    }
  }

  lemma {:induction false} RevMultiset(t: string)
    ensures multiset(Rev(t)) == multiset(t)
  {
    if |t| > 0 {
      RevMultiset(t[1..]);
      assert t == [t[0]] + t[1..];
    }
  }

  /** `reverse`: positions x through y in reverse order, the rest in place. The
      slice `s[x..y + 1]` panics when it would start after its end or run past the
      string. */
  function Reversed(s: string, x: nat, y: nat): (r: Option<string>)
    ensures r.Some? <==> x <= y + 1 <= |s|
  {
    if x > y + 1 || y + 1 > |s| then None
    else Some(s[..x] + Rev(s[x..y + 1]) + s[y + 1..])
  }

  /** Each position of the range takes the character at its mirror image */
  lemma ReversedAt(s: string, x: nat, y: nat)
    requires x <= y + 1 <= |s|
    ensures var t := Reversed(s, x, y).value;
      |t| == |s| &&
      forall k :: 0 <= k < |s| ==> t[k] == (if x <= k <= y then s[x + y - k] else s[k])
  {
    RevAt(s[x..y + 1]);
  }

  /** Reversing the same range twice restores the string */
  lemma ReverseInvolution(s: string, x: nat, y: nat)
    requires x <= y + 1 <= |s|
    ensures Reversed(Reversed(s, x, y).value, x, y) == Some(s)
  {
    var t := Reversed(s, x, y).value;
    ReversedAt(s, x, y);
    ReversedAt(t, x, y);
    var u := Reversed(t, x, y).value;
    forall k | 0 <= k < |s|
      ensures u[k] == s[k]
    {
      if x <= k <= y {
        assert u[k] == t[x + y - k];
      }
    }
    assert u == s;
  }

  /** `reverse` as the source writes it: the prefix, then the range pushed one
      character at a time from its last position down, then the rest */
  method ReverseRange(s: string, x: nat, y: nat) returns (r: Option<string>)
    ensures r == Reversed(s, x, y)
  {
    if x > y + 1 || y + 1 > |s| {
      return None;
    }
    var temp := "";
    if x > 0 {
      temp := temp + s[..x];
    }
    var i := y + 1;
    while i > x
      invariant x <= i <= y + 1
      invariant temp == s[..x] + Rev(s[i..y + 1])
    {
      assert s[i - 1..y + 1][1..] == s[i..y + 1];
      i := i - 1;
      temp := temp + [s[i]];
    }
    if y < |s| + 1 {
      temp := temp + s[y + 1..];
    }
    return Some(temp);
  }

  /** `move_char`: `remove(x)` then `insert(y, c)`; either index out of range
      panics */
  function MoveChar(s: string, x: nat, y: nat): (r: Option<string>)
    ensures r.Some? <==> x < |s| && y < |s|
  {
    if x >= |s| then None
    else
      var rest := s[..x] + s[x + 1..];
      if y > |rest| then None
      else Some(rest[..y] + [s[x]] + rest[y..])
  }

  /** The moved character lands at y, and moving it back from y to x undoes the
      move */
  lemma MoveUndo(s: string, x: nat, y: nat)
    requires x < |s| && y < |s|
    ensures |MoveChar(s, x, y).value| == |s| && MoveChar(s, x, y).value[y] == s[x]
    ensures MoveChar(MoveChar(s, x, y).value, y, x) == Some(s)
  {
    var rest := s[..x] + s[x + 1..];
    var t := rest[..y] + [s[x]] + rest[y..];
    assert t[..y] + t[y + 1..] == rest;
    assert rest[..x] + [s[x]] + rest[x..] == s;
  }

  // ---------------------------------------------------------------------------
  // Scrambling

  /** One instruction */
  function Step(s: string, i: Instruction): Option<string>
  {
    match i
    case SwapIndex(x, y) => SwapPositions(s, x, y)
    case SwapLetter(a, b) => SwapLetters(s, a, b)
    case RotateLeft(n) => RotatedLeft(s, n)
    case RotateRight(n) => RotatedRight(s, n)
    case RotateIndex(c) => RotatedByIndex(s, c)
    case Reverse(x, y) => Reversed(s, x, y)
    case Move(x, y) => MoveChar(s, x, y)
  }

  /** The instructions in order; the first panic ends the run */
  function Scrambled(s: string, instructions: seq<Instruction>): Option<string>
    decreases |instructions|
  {
    if |instructions| == 0 then Some(s)
    else
      match Step(s, instructions[0])
      case None => None
      case Some(t) => Scrambled(t, instructions[1..])
  }

  /** Every operation only rearranges the characters */
  lemma StepPermutes(s: string, i: Instruction)
    requires Step(s, i).Some?
    ensures multiset(Step(s, i).value) == multiset(s)
  {
    match i
    case SwapIndex(x, y) =>
      SwapPermutes(s, x, y);
    case SwapLetter(a, b) =>
      SwapPermutes(s, FirstIndex(s, a).value, FirstIndex(s, b).value);
    case RotateLeft(n) =>
      RotatedLeftPermutes(s, n);
    case RotateRight(n) =>
      RotatedRightPermutes(s, n);
    case RotateIndex(c) =>
      var j := FirstIndex(s, c).value;
      RotatedRightPermutes(s, if j >= 4 then j + 2 else j + 1);
    case Reverse(x, y) =>
      ReversedPermutes(s, x, y);
    case Move(x, y) =>
      MovePermutes(s, x, y);
  }

  lemma SwapPermutes(s: string, x: nat, y: nat)
    requires SwapPositions(s, x, y).Some?
    ensures multiset(SwapPositions(s, x, y).value) == multiset(s)
  {
    var dx := if x < y then x else y;
    var dy := if x < y then y else x;
    var a, b, c := s[..dx], s[dx + 1..dy], s[dy + 1..];
    assert s == a + [s[dx]] + b + [s[dy]] + c;
    TradePermutes(a, s[dx], b, s[dy], c);
  }

  /** Two characters trading places leave the multiset alone */
  lemma TradePermutes(a: string, p: char, b: string, q: char, c: string)
    ensures multiset(a + [q] + b + [p] + c) == multiset(a + [p] + b + [q] + c)
  {
  }

  lemma RotatedLeftPermutes(s: string, steps: nat)
    requires |s| > 0
    ensures multiset(RotatedLeft(s, steps).value) == multiset(s)
  {
    var k := steps % |s|;
    assert s == s[..k] + s[k..];
  }

  lemma RotatedRightPermutes(s: string, steps: nat)
    requires |s| > 0
    ensures multiset(RotatedRight(s, steps).value) == multiset(s)
  {
    var k := steps % |s|;
    assert s == s[..|s| - k] + s[|s| - k..];
  }

  lemma ReversedPermutes(s: string, x: nat, y: nat)
    requires x <= y + 1 <= |s|
    ensures multiset(Reversed(s, x, y).value) == multiset(s)
  {
    RevMultiset(s[x..y + 1]);
    assert s == s[..x] + s[x..y + 1] + s[y + 1..];
  }

  lemma MovePermutes(s: string, x: nat, y: nat)
    requires x < |s| && y < |s|
    ensures multiset(MoveChar(s, x, y).value) == multiset(s)
  {
    var rest := s[..x] + s[x + 1..];
    assert s == s[..x] + [s[x]] + s[x + 1..];
    assert multiset(s) == multiset(rest) + multiset{s[x]};
    assert rest == rest[..y] + rest[y..];
  }

  /** A scramble that does not panic is a permutation of its input */
  lemma {:induction false} ScrambledPermutes(s: string, instructions: seq<Instruction>)
    requires Scrambled(s, instructions).Some?
    ensures multiset(Scrambled(s, instructions).value) == multiset(s)
    decreases |instructions|
  {
    if |instructions| > 0 {
      StepPermutes(s, instructions[0]);
      ScrambledPermutes(Step(s, instructions[0]).value, instructions[1..]);
    }
  }

  /** `scramble`: the string reassigned once per instruction */
  method Scramble(input: string, instructions: seq<Instruction>) returns (r: Option<string>)
    ensures r == Scrambled(input, instructions)
  {
    var scrambled := input;
    for k := 0 to |instructions|
      invariant Scrambled(scrambled, instructions[k..]) == Scrambled(input, instructions)
    {
      var next: Option<string>;
      if instructions[k].Reverse? {
        next := ReverseRange(scrambled, instructions[k].x, instructions[k].y);
      } else {
        next := Step(scrambled, instructions[k]);
      }
      if next.None? {
        return None;
      }
      assert instructions[k..][1..] == instructions[k + 1..];
      scrambled := next.value;
    }
    assert instructions[|instructions|..] == [];
    return Some(scrambled);
  }

  // ---------------------------------------------------------------------------
  // The two parts

  /** Part one: `abcdefgh` scrambled, a rearrangement of those letters */
  method Part1(instructions: seq<Instruction>) returns (r: Option<string>)
    ensures r == Scrambled("abcdefgh", instructions)
    ensures r.Some? ==> multiset(r.value) == multiset("abcdefgh")
  {
    r := Scramble("abcdefgh", instructions);
    if r.Some? {
      ScrambledPermutes("abcdefgh", instructions);
    }
  }

  /** The search of part two over a list of candidates: the first one that
      scrambles to the target, or `None` where the source reaches
      `unreachable!()` */
  method FirstUnscrambled(possible: seq<string>, target: string, instructions: seq<Instruction>)
    returns (r: Option<string>)
    ensures r.Some? ==> exists i :: 0 <= i < |possible| && possible[i] == r.value &&
                          Scrambled(possible[i], instructions) == Some(target) &&
                          forall j :: 0 <= j < i ==> Scrambled(possible[j], instructions) != Some(target)
    ensures r.None? ==> forall j :: 0 <= j < |possible| ==> Scrambled(possible[j], instructions) != Some(target)
  {
    for i := 0 to |possible|
      invariant forall j :: 0 <= j < i ==> Scrambled(possible[j], instructions) != Some(target)
    {
      var attempt := possible[i];
      var scrambled := Scramble(attempt, instructions);
      if scrambled == Some(target) {
        return Some(attempt);
      }
    }
    return None;
  }

  /** Part two: the first permutation of `letters`, in the enumeration order, that
      scrambles to `target`. It is a rearrangement of the letters, and `None`
      means no rearrangement at all scrambles to the target. */
  method Unscramble(letters: string, target: string, instructions: seq<Instruction>) returns (r: Option<string>)
    ensures r.Some? ==> multiset(r.value) == multiset(letters) && Scrambled(r.value, instructions) == Some(target)
    ensures r.Some? ==> exists i :: 0 <= i < |Permutations(letters)| && Permutations(letters)[i] == r.value &&
                          forall j :: 0 <= j < i ==> Scrambled(Permutations(letters)[j], instructions) != Some(target)
    ensures r.None? <==> forall t :: multiset(t) == multiset(letters) ==> Scrambled(t, instructions) != Some(target)
  {
    var possible := Permutations(letters);
    PermutationsPermute(letters);
    r := FirstUnscrambled(possible, target, instructions);
    if r.Some? {
      var i :| 0 <= i < |possible| && possible[i] == r.value;
      assert possible[i] in possible;
    } else {
      forall t | multiset(t) == multiset(letters)
        ensures Scrambled(t, instructions) != Some(target)
      {
        PermutationsComplete(letters, t);
        var j :| 0 <= j < |possible| && possible[j] == t;
      }
    }
  }

  /** Part two on the puzzle's letters and target */
  method Part2(instructions: seq<Instruction>) returns (r: Option<string>)
    ensures r.Some? ==> multiset(r.value) == multiset("abcdefgh") && Scrambled(r.value, instructions) == Some("fbgdceah")
    ensures r.Some? ==> exists i :: 0 <= i < |Permutations("abcdefgh")| && Permutations("abcdefgh")[i] == r.value &&
                          forall j :: 0 <= j < i ==> Scrambled(Permutations("abcdefgh")[j], instructions) != Some("fbgdceah")
    ensures r.None? <==> forall t :: multiset(t) == multiset("abcdefgh") ==> Scrambled(t, instructions) != Some("fbgdceah")
  {
    r := Unscramble("abcdefgh", "fbgdceah", instructions);
  }

  // ---------------------------------------------------------------------------
  // The examples of the source's documentation

  lemma SwapPositionsExample()
    ensures SwapPositions("abcdefg", 2, 5) == Some("abfdecg")
    ensures SwapPositions("abcdefg", 5, 2) == Some("abfdecg")
  {
    var s := "abcdefg";
    assert s[..2] == "ab" && s[3..5] == "de" && s[6..] == "g";
    assert s[..2] + [s[5]] + s[3..5] + [s[2]] + s[6..] == "abfdecg";
    assert SwapPositions("abcdefg", 2, 5).value == "abfdecg";
    assert SwapPositions("abcdefg", 5, 2).value == "abfdecg";
  }

  lemma SwapLettersExample()
    ensures SwapLetters("abcdefg", 'c', 'f') == Some("abfdecg")
  {
    var s := "abcdefg";
    assert SwapLetters(s, 'c', 'f') == SwapPositions(s, 2, 5) by {
      FirstIndexAt(s, 'c', 2);
      FirstIndexAt(s, 'f', 5);
    }
    SwapPositionsExample();
    assert SwapLetters("abcdefg", 'c', 'f').value == "abfdecg";
  }

  lemma RotateExamples()
    ensures RotatedLeft("abcde", 2) == Some("cdeab")
    ensures RotatedRight("abcde", 2) == Some("deabc")
  {
    var s := "abcde";
    assert s[2..] == "cde" && s[..2] == "ab";
    assert s[3..] == "de" && s[..3] == "abc";
    assert RotatedLeft("abcde", 2).value == "cdeab";
    assert RotatedRight("abcde", 2).value == "deabc";
  }

  lemma RotatedByIndexExample1()
    ensures RotatedByIndex("abcdefg", 'b') == Some("fgabcde")
  {
    var s := "abcdefg";
    FirstIndexAt(s, 'b', 1);
    assert s[5..] == "fg" && s[..5] == "abcde";
    assert RotatedByIndex(s, 'b').value == "fgabcde";
  }

  lemma RotatedByIndexExample4()
    ensures RotatedByIndex("abcdefg", 'e') == Some("bcdefga")
  {
    var s := "abcdefg";
    FirstIndexAt(s, 'e', 4);
    assert s[1..] == "bcdefg" && s[..1] == "a";
    assert RotatedByIndex(s, 'e').value == "bcdefga";
  }

  lemma ReversedExample()
    ensures Reversed("abcdef", 1, 4) == Some("aedcbf")
  {
    var s := "abcdef";
    assert s[..1] == "a" && s[1..5] == "bcde" && s[5..] == "f";
    assert Rev("bcde") == "edcb";
    assert Reversed("abcdef", 1, 4).value == "aedcbf";
  }

  lemma MoveCharExample()
    ensures MoveChar("abcdef", 1, 4) == Some("acdebf")
  {
    var s := "abcdef";
    assert s[..1] == "a" && s[2..] == "cdef";
    var rest := "acdef";
    assert rest[..4] == "acde" && rest[4..] == "f";
    assert MoveChar("abcdef", 1, 4).value == "acdebf";
  }

  /** The eight steps of the puzzle's example, one lemma each */
  lemma PuzzleStep1()
    ensures Step("abcde", SwapIndex(4, 0)) == Some("ebcda")
  {
    var s := "abcde";
    assert s[..0] == "" && s[1..4] == "bcd" && s[5..] == "";
    assert SwapPositions(s, 4, 0).value == "ebcda";
  }

  lemma PuzzleStep2()
    ensures Step("ebcda", SwapLetter('d', 'b')) == Some("edcba")
  {
    var s := "ebcda";
    FirstIndexAt(s, 'd', 3);
    FirstIndexAt(s, 'b', 1);
    assert s[..1] == "e" && s[2..3] == "c" && s[4..] == "a";
    assert SwapLetters(s, 'd', 'b').value == "edcba";
  }

  lemma PuzzleStep3()
    ensures Step("edcba", Reverse(0, 4)) == Some("abcde")
  {
    var s := "edcba";
    assert s[..0] == "" && s[0..5] == s && s[5..] == "";
    assert Rev("edcba") == "abcde";
    assert Reversed(s, 0, 4).value == "abcde";
  }

  lemma PuzzleStep4()
    ensures Step("abcde", RotateLeft(1)) == Some("bcdea")
  {
    var s := "abcde";
    assert s[1..] == "bcde" && s[..1] == "a";
    assert RotatedLeft(s, 1).value == "bcdea";
  }

  lemma PuzzleStep5()
    ensures Step("bcdea", Move(1, 4)) == Some("bdeac")
  {
    var s := "bcdea";
    assert s[..1] == "b" && s[2..] == "dea";
    var rest := "bdea";
    assert rest[..4] == rest && rest[4..] == "";
    assert MoveChar(s, 1, 4).value == "bdeac";
  }

  lemma PuzzleStep6()
    ensures Step("bdeac", Move(3, 0)) == Some("abdec")
  {
    var s := "bdeac";
    assert s[..3] == "bde" && s[4..] == "c";
    var rest := "bdec";
    assert rest[..0] == "" && rest[0..] == rest;
    assert MoveChar(s, 3, 0).value == "abdec";
  }

  lemma PuzzleStep7()
    ensures Step("abdec", RotateIndex('b')) == Some("ecabd")
  {
    var s := "abdec";
    FirstIndexAt(s, 'b', 1);
    assert s[3..] == "ec" && s[..3] == "abd";
    assert RotatedByIndex(s, 'b').value == "ecabd";
  }

  lemma PuzzleStep8()
    ensures Step("ecabd", RotateIndex('d')) == Some("decab")
  {
    var s := "ecabd";
    FirstIndexAt(s, 'd', 4);
    assert s[4..] == "d" && s[..4] == "ecab";
    assert RotatedByIndex(s, 'd').value == "decab";
  }

  /** One instruction off the front of what is left of a scramble */
  lemma ScrambledUnfold(s: string, program: seq<Instruction>, k: nat, t: string)
    requires k < |program| && Step(s, program[k]) == Some(t)
    ensures Scrambled(s, program[k..]) == Scrambled(t, program[k + 1..])
  {
    assert program[k..][1..] == program[k + 1..];
  }

  /** The instructions of the puzzle's example */
  function PuzzleInstructions(): seq<Instruction> {
    [SwapIndex(4, 0), SwapLetter('d', 'b'), Reverse(0, 4), RotateLeft(1),
     Move(1, 4), Move(3, 0), RotateIndex('b'), RotateIndex('d')]
  }

  /** The last four instructions of the example take `bcdea` to `decab` */
  lemma PuzzleExampleEnd()
    ensures Scrambled("bcdea", PuzzleInstructions()[4..]) == Some("decab")
  {
    var program := PuzzleInstructions();
    assert Scrambled("bcdea", program[4..]) == Scrambled("bdeac", program[5..]) by {
      PuzzleStep5();
      ScrambledUnfold("bcdea", program, 4, "bdeac");
    }
    assert Scrambled("bdeac", program[5..]) == Scrambled("abdec", program[6..]) by {
      PuzzleStep6();
      ScrambledUnfold("bdeac", program, 5, "abdec");
    }
    assert Scrambled("abdec", program[6..]) == Scrambled("ecabd", program[7..]) by {
      PuzzleStep7();
      ScrambledUnfold("abdec", program, 6, "ecabd");
    }
    assert Scrambled("ecabd", program[7..]) == Scrambled("decab", program[8..]) by {
      PuzzleStep8();
      ScrambledUnfold("ecabd", program, 7, "decab");
    }
    assert program[8..] == [];
  }

  /** The puzzle's own example: the five letters `abcde` through the eight
      instructions give `decab` */
  lemma PuzzleExample()
    ensures Scrambled("abcde", PuzzleInstructions()) == Some("decab")
  {
    var program := PuzzleInstructions();
    assert Scrambled("abcde", program[0..]) == Scrambled("ebcda", program[1..]) by {
      PuzzleStep1();
      ScrambledUnfold("abcde", program, 0, "ebcda");
    }
    assert Scrambled("ebcda", program[1..]) == Scrambled("edcba", program[2..]) by {
      PuzzleStep2();
      ScrambledUnfold("ebcda", program, 1, "edcba");
    }
    assert Scrambled("edcba", program[2..]) == Scrambled("abcde", program[3..]) by {
      PuzzleStep3();
      ScrambledUnfold("edcba", program, 2, "abcde");
    }
    assert Scrambled("abcde", program[3..]) == Scrambled("bcdea", program[4..]) by {
      PuzzleStep4();
      ScrambledUnfold("abcde", program, 3, "bcdea");
    }
    PuzzleExampleEnd();
    assert program[0..] == program;
  }
}
