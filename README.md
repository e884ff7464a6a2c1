# Advent of Code 2016, modelled in Dafny

This project models `advent-2016-rs`, a Rust crate of solutions to the 2016
Advent of Code puzzles. Each puzzle day is a small self-contained program: a
generator parses the puzzle input and one function per part maps it to the
answer. The model follows the crate file by file. There is one Dafny module per
source file (`Compass`, `Day1` … `Day25`, except the MD5 days). A few shared
modules stand in for the parts of the Rust standard library and of `itertools`
the days rely on:

- `Wrappers`: `Option`, and traversal of a list with a partial function.
- `Strings`: `trim`, `lines`, `split`, `split_ascii_whitespace` and integer
  parsing, with Rust's rules.
- `Lib`: counting the elements that satisfy a predicate.
- `Orderings`: the `permutations` enumeration.

Conventions used throughout:

- A panic in the source is a result of its own: `None` in an `Option`, or an
  outcome constructor. This covers `unwrap` on nothing, an index out of range,
  `panic!`, `unreachable!()`, an unsigned subtraction below zero and a
  remainder by zero. Preconditions are used only where the source has no
  error path worth modelling; those are named under "Left out".
- The source's iterator pipelines become functions.
- Its loops become methods with loop invariants.
- The register machines of days 12 and 23 are classes updated in place. On
  day 23 the instruction array is rewritten in place by `tgl`.
- Each method is proved against a specification function. The properties the
  puzzle promises are lemmas about that function. Examples:
  - scrambling only permutes the letters;
  - a rotation is undone by the opposite rotation;
  - the breadth-first searches of days 13 and 24 return shortest path lengths;
  - interval merging preserves the set of blocked addresses;
  - the Josephus variants of day 19 have closed forms.
- The examples in the source's doc comments and tests that do not depend on
  a puzzle input file are stated as lemmas.

## Model

| member | source | states |
|---|---|---|
| Compass.Direction.Turned | src/compass.rs:17-32 | a quarter turn always swaps a vertical heading for a horizontal one and back |
| Compass.TurnsCancel | src/compass.rs:17-32 | a left turn undoes a right turn and vice versa, whatever the heading |
| Compass.FourTurnsIdentity | src/compass.rs:17-32 | two turns the same way face the opposite direction; four come back to the start |
| Compass.TurnTable | src/compass.rs:100-112 | the full left/right turn table of the unit test, for all four headings |
| Compass.Point.Moved | src/compass.rs:54-56 | one step in the given direction: `move_direction_steps` with a count of 1 |
| Compass.Point.MovedSteps | src/compass.rs:59-78 | moving vertically keeps x, moving horizontally keeps y |
| Compass.MoveChangesOneCoordinate | src/compass.rs:59-78 | North adds the step count to y, South subtracts it, East adds it to x, West subtracts it |
| Compass.MoveDistance | src/compass.rs:54-78 | a move of `n` steps lands exactly `abs(n)` blocks away; a single move is one step |
| Compass.MoveBackwards | src/compass.rs:59-78 | a negative count walks the opposite way; out and back returns to the start |
| Compass.MoveAdditive | src/compass.rs:59-78 | `m` steps then `n` steps the same way equal `m + n` steps |
| Compass.MoveRoundTrip | src/compass.rs:115-138 | North, South, East, West by the same count (or one step each) returns to the start point |
| Compass.Point.Neighbours | src/compass.rs:81-92 | exactly the eight distinct points at Chebyshev distance one, none missing |
| Day1.ParseInstruction | src/day1.rs:15-25 | a token parses exactly when it is `R` or `L` followed by an integer; the turn and step count are those of the token |
| Day1.ParseAll | src/day1.rs:14-25 | the tokens parse exactly when each one does, giving one instruction per token, in order |
| Day1.Generator | src/day1.rs:11-27 | succeeds exactly when every `", "`-separated token of the trimmed input parses, one instruction per token |
| Day1.Part1 | src/day1.rs:30-40 | the loop's answer is the taxicab distance of the end point of the turn-then-move walk |
| Day1.WalkWithinPathLength | src/day1.rs:30-40 | the end point is never further than the total number of steps |
| Day1.Part1SampleA | src/day1.rs:76 | "R2, L3" ends 5 blocks away |
| Day1.Part1SampleB | src/day1.rs:77 | "R2, R2, R2" ends 2 blocks away |
| Day1.Part1SampleC | src/day1.rs:78 | "R5, L5, R5, R3" ends 12 blocks away |
| Day1.Part2 | src/day1.rs:43-61 | `Some(d)`: `d` is the distance of the first point of the unit-step walk that was stepped on before; `None` (the panic): no point repeats |
| Day1.StepRevisit | src/day1.rs:51-56 | a point met again inside one instruction's steps is the first revisit of the whole walk |
| Day1.Part2Sample | src/day1.rs:89 | "R8, R4, R4, R8" first crosses itself at its 20th point, 4 blocks away |
| Day1.Part2OriginNotSeen | src/day1.rs:44-56 | the start is not recorded as seen, so a square walk back to it has no repeated point |
| Day2.ParseMove | src/day2.rs:18-24 | a character is a move exactly when it is one of U, D, L, R |
| Day2.ParseMoves | src/day2.rs:17-25 | a line parses exactly when all its characters are moves, one move per character in order |
| Day2.Generator | src/day2.rs:12-28 | succeeds exactly when every character of every line of the trimmed input is U, D, L or R; one move list per line |
| Day2.StartOnFive | src/day2.rs:32-74 | both keypads have a key at the start position, and it is '5' |
| Day2.TargetSaturates | src/day2.rs:83-93 | Left and Up stop at 0 (saturating subtraction); Right and Down aim one further |
| Day2.StepKey | src/day2.rs:95-98 | a move is taken when its target is a key and ignored otherwise |
| Day2.StepIsLocal | src/day2.rs:82-98 | a move either stays put or lands on a key one block away |
| Day2.Final | src/day2.rs:82-99 | starting on a key, the finger never leaves the keypad |
| Day2.GetKey | src/day2.rs:78-104 | the loop ends on the key the moves lead to; the `expect` fails exactly when that position is not a key, which never happens from a key |
| Day2.Part1 | src/day2.rs:31-50 | one key of the square pad per line of moves |
| Day2.Part2 | src/day2.rs:53-76 | one key of the diamond pad per line of moves |
| Day2.Part1Concat | src/day2.rs:46-49 | each line starts over on '5', so the code of concatenated inputs is the concatenated codes |
| Day2.Part1Sample | src/day2.rs:78-104 | the lines "ULL", "RRDDD", "LURDL", "UUUUD" read 1945 on the square pad |
| Day3.Sort | src/day3.rs:13 | the sorted sides are in ascending order and as many as before |
| Day3.SortPermutes | src/day3.rs:13 | sorting only reorders the sides: same numbers, same multiplicities |
| Day3.Insert | src/day3.rs:13 | inserting into a sorted list keeps it sorted and adds one element |
| Day3.TriangleTest | src/day3.rs:16 | on three sides the sorted test holds exactly when every side is shorter than the other two together |
| Day3.NotATriangle | src/day3.rs:16 | sides 5, 10, 25 fail the test in either order |
| Day3.ParseNumbers | src/day3.rs:11-12 | a line's words all parse as non-negative integers or the line has no reading |
| Day3.CountTriangles | src/day3.rs:10-17 | defined exactly when every row has at least three numbers (indexing panics otherwise); never more than the number of rows |
| Day3.Part1 | src/day3.rs:5-18 | the count of passing lines is at most the number of lines |
| Day3.Columns | src/day3.rs:41-42 | column `k` of three rows is the triple of their `k`-th numbers |
| Day3.GroupScore | src/day3.rs:28-48 | a group of three lines scores at most three triangles |
| Day3.GroupsStep | src/day3.rs:27-49 | each group moves the count on by its score, and a group without a score makes the whole count undefined |
| Day3.ColumnCount | src/day3.rs:21-52 | part two's count is at most the number of lines |
| Day3.ColumnCountWholeGroups | src/day3.rs:22-27 | part two only succeeds when the line count is a multiple of three (otherwise `row2[i]` or `row3[i]` panics) |
| Day3.CountColumns | src/day3.rs:41-48 | the column loop counts exactly the column triples that pass the sorted test |
| Day3.ScoreGroup | src/day3.rs:28-48 | one pass of the outer loop computes the group's score |
| Day3.CountColumnTriangles | src/day3.rs:22-52 | the stepping loop over `row1`, `row2`, `row3` computes the column count of the parsed lines |
| Day3.Part2 | src/day3.rs:21-52 | the answer is the column count of the lines of the trimmed input, `None` where the source panics |
| Day4.ParseRoom | src/day4.rs:16-33 | the parsed name holds no dash and the checksum no `[`; a non-numeric sector or a missing `[` is the panic, `None` |
| Day4.ParseFormat | src/day4.rs:16-33 | formatting dash-free name pieces, a sector and a checksum and parsing the text back gives the joined pieces, the sector and the checksum |
| Day4.LastPart | src/day4.rs:20-26 | the part after the last dash splits back at `[` into the sector digits and the checksum once the trailing `]` are removed |
| Day4.TrailingBracket | src/day4.rs:21 | extra closing brackets at the end of a line change nothing |
| Day4.ParseExample | src/day4.rs:112-121 | `aczupnetwp-dnlgpyrpc-sfye-dstaatyr-561[patyc]` parses to the name without dashes, sector 561, checksum `patyc` |
| Day4.Generator | src/day4.rs:78-85 | succeeds exactly when every trimmed line of the trimmed input parses, one room per line in order |
| Day4.CountLetters | src/day4.rs:38-42 | the tally holds exactly the letters of the name, each with its number of occurrences |
| Day4.Best | src/day4.rs:44-53 | the letter chosen outranks (more occurrences, then alphabetically first) every remaining letter; `None` exactly when none remains |
| Day4.Top | src/day4.rs:44-55 | the letters taken are distinct letters of the name, at most `k`, each outranking every letter left out, and all of them when fewer than `k` exist |
| Day4.TopFiveMeans | src/day4.rs:44-57 | the five letters the source picks satisfy the ranking definition of a top five |
| Day4.TopFiveUnique | src/day4.rs:44-57 | any two top fives hold the same letters, so ties in the order cannot change the verdict |
| Day4.SortChars | src/day4.rs:56-59 | `sorted().collect::<String>()` gives the characters in ascending order, as many as before |
| Day4.SortCharsPermutes | src/day4.rs:56-59 | sorting keeps every character with its multiplicity |
| Day4.SortedUnique | src/day4.rs:56-61 | two sorted strings with the same characters are equal |
| Day4.SortCharsEqual | src/day4.rs:56-61 | the sorted strings are equal exactly when the strings hold the same characters equally often |
| Day4.IsValid | src/day4.rs:37-62 | the method's loop and sort compute the validity predicate of the room |
| Day4.ValidMeans | src/day4.rs:37-62 | a room is real exactly when its checksum is the top five letters of the name, each once, in any order |
| Day4.ValidAgainst | src/day4.rs:37-62 | any top five of the name decides validity in the same way |
| Day4.ForeignLetterInvalid | src/day4.rs:37-62 | a checksum letter absent from the name makes the room a decoy |
| Day4.RealExample1 | src/day4.rs:124-127 | `aaaaa-bbb-z-y-x-123[abxyz]` is real |
| Day4.RealExample2 | src/day4.rs:130-133 | `a-b-c-d-e-f-g-h-987[abcde]]` is real: all letters tie and the first five alphabetically win |
| Day4.RealExample3 | src/day4.rs:136-139 | `not-a-real-room-404[oarel]` is real |
| Day4.DecoyExample | src/day4.rs:142-145 | `totally-real-room-200[decoy]` is a decoy |
| Day4.Decrypt | src/day4.rs:64-74 | each letter rotates forward by the sector modulo 26 within `a`..`z`; names with characters below `a`, where the unsigned subtraction panics, are excluded |
| Day4.ShiftCompose | src/day4.rs:68-71 | rotations add up and a rotation by a multiple of 26 is the identity |
| Day4.DecryptInverse | src/day4.rs:64-74 | decrypting with the complementary sector gives a lowercase name back |
| Day4.DecryptPeriodic | src/day4.rs:64-74 | sectors that differ by a multiple of 26 decrypt alike |
| Day4.DecryptExample | src/day4.rs:148-151 | `qzmt-zixmtkozy-ivhz-343` decrypts to `veryencryptedname` |
| Day4.RealRooms | src/day4.rs:89-91 | the filtered rooms are exactly the real rooms of the input |
| Day4.Part1 | src/day4.rs:88-94 | the sum is at most the sum of all sectors |
| Day4.Part1SumsRealRooms | src/day4.rs:88-94 | part one adds the sectors of exactly the real rooms |
| Day4.Part1Concat | src/day4.rs:88-94 | part one over concatenated room lists is the sum of the two answers |
| Day4.Part2 | src/day4.rs:97-103 | `Some` exactly when some room decrypts to `northpoleobjectstorage` with every room before it decryptable, and then it is the sector of the first such room; `None` is the `expect` panic |
| Day4.FirstNorthPoleLater | src/day4.rs:98-101 | past a decryptable room that is not the storage, `find` goes on with the rest of the list |
| Day6.Column | src/day6.rs:28-32 | column `i` takes at most one character per row |
| Day6.ColumnCounts | src/day6.rs:28-32 | a column's tally of a character is the number of rows holding that character at that position |
| Day6.CountColumns | src/day6.rs:17-32 | the loops fill tally `i` with the characters of column `i`; `None` exactly when some row is longer than the eight tallies (the index panic) |
| Day6.AddRow | src/day6.rs:29-31 | one row adds its character `i` to tally `i` and changes nothing else |
| Day6.Pick | src/day6.rs:35-45 | `max_by` over a non-empty tally in any visiting order returns a character with the best count: highest for part one, lowest for part two |
| Day6.ChosenUnique | src/day6.rs:35-45 | a strictly best character is the only possible winner, whatever order the map is visited in |
| Day6.ChosenOccurs | src/day6.rs:28-45 | every winner occurs in its column |
| Day6.ChooseAll | src/day6.rs:34-48 | one winner per tally in order; `None` exactly when a tally is empty, where `unwrap` panics |
| Day6.Calculate | src/day6.rs:15-51 | `Some` exactly when no row exceeds eight characters and every column has a character; then the password has eight characters, each the winner of its column |
| Day6.Part1 | src/day6.rs:6-8 | the same, with each character the most common of its column |
| Day6.Part2 | src/day6.rs:11-13 | the same, with each character the least common of its column |
| Day7.SupportsTls | src/day7.rs:22-46 | the scan's verdict is TLS: some ABBA it looks at lies outside the brackets and none inside; `None` for fewer than three characters, where the loop bound underflows |
| Day7.TlsWithoutBrackets | src/day7.rs:22-46 | without brackets, TLS is simply the presence of an ABBA |
| Day7.SupportsSsl | src/day7.rs:48-75 | the two recorded sets intersect exactly when SSL holds; `None` for fewer than two characters |
| Day7.OuterWitness | src/day7.rs:62-70 | every recorded outer pair is spelled by an ABA outside the brackets |
| Day7.OuterHas | src/day7.rs:62-70 | every ABA outside the brackets is recorded |
| Day7.InnerWitness | src/day7.rs:62-66 | every recorded inner pair is spelled by a BAB inside the brackets, stored flipped |
| Day7.InnerHas | src/day7.rs:62-66 | every BAB inside the brackets is recorded, flipped |
| Day7.SslMeans | src/day7.rs:48-75 | SSL holds exactly when some ABA `xyx` outside the brackets has its BAB `yxy` inside them |
| Day7.Part1 | src/day7.rs:5-11 | defined exactly when every trimmed line has three characters; counts at most one per line |
| Day7.Part2 | src/day7.rs:14-20 | defined exactly when every trimmed line has two characters; counts at most one per line |
| Day7.SslExample1 | src/day7.rs:94-96 | `aba[bab]xyz` supports SSL |
| Day7.SslExample2 | src/day7.rs:99-101 | `xyx[xyx]xyx` does not |
| Day7.SslExample3 | src/day7.rs:104-106 | `aaa[kek]eke` supports SSL |
| Day7.SslExample4 | src/day7.rs:109-111 | `zazbz[bzb]cdb` supports SSL |
| Day8.ParseRect | src/day8.rs:18-24 | the `AxB` argument parses exactly when it has two `x`-separated pieces that are both numbers |
| Day8.ParseWords | src/day8.rs:17-34 | only the shapes `rect AxB`, `rotate row y=N by D` and `rotate column x=N by D` produce an instruction, of the matching kind |
| Day8.ParseInstruction | src/day8.rs:17-34 | a line is trimmed and split at single spaces, then read by `ParseWords` |
| Day8.Generator | src/day8.rs:11-37 | succeeds exactly when every line of the trimmed input parses, one instruction per line in order |
| Day8.ParseCoordinateFormat | src/day8.rs:26-30 | a coordinate written after its `y=` or `x=` prefix reads back as the number |
| Day8.ParseWordsOf | src/day8.rs:17-34 | the words of any instruction parse back to it |
| Day8.ParseFormat | src/day8.rs:17-34 | the written line of any instruction parses back to it |
| Day8.GeneratorFormat | src/day8.rs:11-37 | a one-line input holding an instruction's written form parses to that instruction alone |
| Day8.GeneratorExamples | src/day8.rs:133-146 | the three lines of the generator test parse to `rect 1x2`, `rotate row y=1 by 5` and `rotate column x=30 by 1` |
| Day8.Blank | src/day8.rs:40 | the starting screen is six rows of fifty pixels, all off |
| Day8.Apply | src/day8.rs:43-79 | each instruction keeps the screen six by fifty |
| Day8.Run | src/day8.rs:39-83 | the instructions applied in order to the blank screen, each by `Apply`; the screen stays six rows of fifty |
| Day8.FillRectangle | src/day8.rs:44-50 | the nested loops light the top left `x` by `y` block and leave the rest of the array as it was; a rectangle with no rows or no columns is accepted at any size and lights nothing |
| Day8.ShiftRow | src/day8.rs:52-59 | the row buffer holds at slot `j` the pixel from `(j - delta) mod 50`: every pixel moves `delta` places right, wrapping |
| Day8.ShiftColumn | src/day8.rs:66-73 | the column buffer holds at slot `j` the pixel from `(j - delta) mod 6` |
| Day8.CopyRow | src/day8.rs:61-63 | copying the buffer back changes row `row` only, to the buffer |
| Day8.CopyColumn | src/day8.rs:75-77 | copying the buffer back changes column `col` only, to the buffer |
| Day8.RotateRowOf | src/day8.rs:51-64 | the in-place row rotation leaves the array holding the rotated screen |
| Day8.RotateColumnOf | src/day8.rs:65-78 | the in-place column rotation leaves the array holding the rotated screen |
| Day8.RowShift | src/day8.rs:57 | the wrap-around index `(i + delta + len) % len` is undone by stepping back `delta`; a multiple of the length moves nothing |
| Day8.ColumnShift | src/day8.rs:71 | the same for columns of six |
| Day8.RotateRowCell | src/day8.rs:51-64 | after a row rotation, pixel `(row, c)` is the old `(row, (c - delta) mod 50)` and other rows are unchanged |
| Day8.RotateColumnCell | src/day8.rs:65-78 | after a column rotation, pixel `(r, col)` is the old `((r - delta) mod 6, col)` and other columns are unchanged |
| Day8.RotateRowMoves | src/day8.rs:56-59 | a row rotation moves the pixel at column `c` to column `(c + delta) mod 50` |
| Day8.RotateColumnMoves | src/day8.rs:70-73 | a column rotation moves the pixel at row `r` to row `(r + delta) mod 6` |
| Day8.FullRowTurn | src/day8.rs:51-64 | rotating a row by a multiple of 50 changes nothing |
| Day8.FullColumnTurn | src/day8.rs:65-78 | rotating a column by a multiple of 6 changes nothing |
| Day8.RectangleIdempotent | src/day8.rs:44-50 | lighting the same rectangle twice is lighting it once |
| Day8.RectanglesCommute | src/day8.rs:44-50 | two rectangles can be lit in either order |
| Day8.Execute | src/day8.rs:43-79 | one pass of the loop applies the instruction to the array |
| Day8.BuildGrid | src/day8.rs:39-83 | a fresh six by fifty array holding the screen after all the instructions in order |
| Day8.Part1 | src/day8.rs:86-92 | the count is the number of lit pixels of that screen, at most 300 |
| Day8.LitBound | src/day8.rs:89-91 | the first `n` rows hold at most `50 n` lit pixels |
| Day8.RotateRowKeepsLit | src/day8.rs:51-64 | a row rotation keeps the number of lit pixels |
| Day8.RotateColumnKeepsLit | src/day8.rs:65-78 | a column rotation keeps the number of lit pixels |
| Day8.ColumnRotationShape | src/day8.rs:65-78 | a column rotation changes only column `col`, which becomes the old column rotated |
| Day8.RectangleRaisesLit | src/day8.rs:44-50 | a rectangle never turns a pixel off, so it never lowers the count |
| Day8.RectangleOnBlank | src/day8.rs:40-50 | the first rectangle on a blank screen lights exactly `x * y` pixels |
| Day8.EmptyRectangle | src/day8.rs:44-50 | a rectangle with zero rows or zero columns leaves the screen as it was, whatever its other side |
| Day9.TakeUntil | src/day9.rs:28 | `take_while`: a prefix free of `)`, stopping at the first `)` when there is one |
| Day9.ParseMarker | src/day9.rs:31-33 | the marker text reads exactly when its first two `x`-separated pieces are numbers; otherwise `None`, the panic |
| Day9.ReadMarker | src/day9.rs:28-33 | a readable marker moves the index on by at least two |
| Day9.MarkerLength | src/day9.rs:28-29 | the index skips the marker and both parentheses: it lands just after the first `)`, or two past the end when none follows |
| Day9.Scaled | src/day9.rs:35-45 | a marker adds `B` times its inner score to the rest, and fails when either fails |
| Day9.PlainStep | src/day9.rs:21-25 | an ordinary character adds one |
| Day9.MarkerScore | src/day9.rs:27-47 | a `(` scores as its marker reading says |
| Day9.NoMarkers | src/day9.rs:14-51 | a chunk without `(` scores the length of its trimmed text in both parts |
| Day9.SameSuffix | src/day9.rs:20-48 | the score from an index depends only on the characters from there on |
| Day9.PartOneSkips | src/day9.rs:35-39 | in part one the repeated characters are skipped unread: the marker adds `A * B` whatever they are |
| Day9.PartTwoRecurses | src/day9.rs:40-44 | in part two a marker adds `B` times the score of the next `A` characters, and fails (the slice panics) when they run past the end |
| Day9.Repeat | src/day9.rs:35-45 | `n` copies of a text are `n` times as long |
| Day9.ScoreIsLength | src/day9.rs:14-51 | wherever the chunk decompresses, the score is the length of the decompressed text; in part two the score exists exactly when the decompression does |
| Day9.Step | src/day9.rs:20-48 | one pass of the loop moves the index forward and adds what the score from that index says, or fails where the source panics |
| Day9.Read | src/day9.rs:28-33 | reading the marker text at a `(` gives the marker reading |
| Day9.Repeated | src/day9.rs:35-47 | what the match adds, times `repeat`, followed by the score after the repeated characters |
| Day9.ScoreChars | src/day9.rs:17-50 | the while loop over the characters computes the score from index 0 |
| Day9.ScoreChunk | src/day9.rs:14-51 | `score_chunk` computes the score of the trimmed chunk, its recursion included |
| Day9.Part1 | src/day9.rs:5-7 | part one is the score with markers inside repeats copied |
| Day9.Part2 | src/day9.rs:10-12 | part two is the score with markers inside repeats expanded |
| Day10.ParseDestination | src/day10.rs:69-79 | a destination is read exactly for the words `bot` and `output`, with the given number |
| Day10.ParseWords | src/day10.rs:63-86 | only the twelve-word routing shape and the six-word input shape produce an instruction, of the matching kind |
| Day10.ParseInstruction | src/day10.rs:62-87 | a line is trimmed and split at single spaces, then read by `ParseWords` |
| Day10.Generator | src/day10.rs:62-88 | succeeds exactly when every line of the trimmed input parses, one instruction per line in order |
| Day10.ParseWordsOf | src/day10.rs:63-86 | the words of any instruction parse back to it |
| Day10.ParseFormat | src/day10.rs:63-86 | the written line of any instruction parses back to it |
| Day10.GeneratorFormat | src/day10.rs:62-88 | a one-line input holding an instruction's written form parses to that instruction alone |
| Day10.GeneratorExamples | src/day10.rs:181-205 | the three lines of the generator test parse to the expected instructions |
| Day10.AddValue | src/day10.rs:41-47 | a chip fills the first slot when it is free, otherwise the second, replacing any chip there |
| Day10.TakeValues | src/day10.rs:49-58 | defined exactly when both slots are full; gives the two chips, lower first |
| Day10.FillHolds | src/day10.rs:41-47 | a bot given chips from empty holds the first in slot one and the latest in slot two |
| Day10.AddTwiceThenThird | src/day10.rs:41-58 | two chips are both held, a third replaces the second, and taking sorts the pair |
| Day10.Load | src/day10.rs:105-114 | the setup loop computes the state the instructions define |
| Day10.SetupBots | src/day10.rs:105-114 | after setup each bot holds what its input chips give, is present exactly when it got one, and no output holds anything |
| Day10.SetupHasRule | src/day10.rs:110-112 | a bot has a rule exactly when some instruction routes it |
| Day10.SetupLastRule | src/day10.rs:111 | a later routing instruction replaces an earlier one for the same bot |
| Day10.Deliver | src/day10.rs:130-146 | handing a chip on with `entry(..).or_insert_with(..)` gives the state the model's delivery defines |
| Day10.Act | src/day10.rs:117-159 | one pass of the main loop with the ready bot computes the model's round |
| Day10.Pass | src/day10.rs:117-159 | the pass extends the played order by one bot, keeping the routing table |
| Day10.PlaySnoc | src/day10.rs:116-160 | playing one more ready bot is one more round |
| Day10.MainLoop | src/day10.rs:116-160 | the loop reports what the bots acting in the returned order give, each ready at its turn; `Unfinished` only when the fuel is spent |
| Day10.Run | src/day10.rs:100-161 | `run` reports the outcome of the main loop from the state after setup |
| Day10.Part1 | src/day10.rs:91-93 | the same with the part one rule |
| Day10.Part2 | src/day10.rs:96-98 | the same with the part two rule |
| Day10.RoundOneAnswer | src/day10.rs:122-126 | in part one a pass returns the bot's id exactly when it takes 17 and 61 |
| Day10.RoundPanics | src/day10.rs:124-128 | a pass panics exactly when the bot has no rule and is not part one's answer |
| Day10.RoundTwoAnswer | src/day10.rs:149-159 | in part two a pass ends once outputs 0, 1 and 2 all hold chips, with the product of their first chips, and carries on otherwise |
| Day10.DeliveredRoutes | src/day10.rs:130-146 | the high chip lands at its destination, the low one too unless both go to the same bot, the table is kept, uninvolved bots keep their chips and output bins only grow |
| Day10.PlayKeeps | src/day10.rs:116-160 | while the loop runs, the routing table stays as set up and output bins only grow |
| Day10.PlayEnded | src/day10.rs:116-160 | the loop ends with an answer only on a ready bot whose pass gives it |
| Day10.PlayOneAnswer | src/day10.rs:124-126 | part one's answer is the last bot to act, which held 17 and 61 |
| Day10.PlayTwoAnswer | src/day10.rs:149-159 | part two's answer is the product of the first chips in outputs 0, 1 and 2, the first time all three hold one |
| Day11.NextFloor | src/day11.rs:60-70 | there is a next floor exactly when going up from floors 0-2 or down from floors 1-3, and it is the adjacent floor |
| Day11.FloorIsValid | src/day11.rs:111-125 | the loop's verdict is the safety rule: no generator, or every microchip's own generator on the same floor |
| Day11.IsValid | src/day11.rs:103-108 | a state is valid exactly when all four floors are safe |
| Day11.MovedFacts | src/day11.rs:77-100 | a move succeeds exactly when there is a next floor and the resulting state is safe; then the taken items left the old floor for the new one and the other floors are unchanged |
| Day11.TryMove | src/day11.rs:77-100 | `try_move` computes that move |
| Day11.MovedKeepsItems | src/day11.rs:83-93 | carrying items from the elevator's floor keeps every item in the building |
| Day11.ValidMoves | src/day11.rs:26-53 | the moves listed are exactly the safe trips up or down with one or two distinct items from the elevator's floor |
| Day11.FromDirection | src/day11.rs:37-49 | in one direction, every listed state is a trip and every safe trip with each item (alone or with a later one) is listed |
| Day11.WithItem | src/day11.rs:38-48 | the trips with one item alone and with each later item are listed, and only trips |
| Day11.Indices | src/day11.rs:37-48 | any set of one or two items of the floor is visited by the two nested loops |
| Day11.IsComplete | src/day11.rs:128-134 | a state is complete when the elevator is on the top floor, the three lower floors are empty and the top floor holds something |
| Day11.Heuristic | src/day11.rs:137-144 | four times the sum of the items' weights: 3 per item on the ground floor, 2 on the first, 1 on the second and 0 on the top |
| Day11.HeuristicZero | src/day11.rs:137-144 | the heuristic is zero exactly when the three lower floors are empty, in particular on a complete state |
| Day11.HeuristicFalls | src/day11.rs:137-144 | removing an item from a lower floor, and adding none, lowers the heuristic |
| Day11.Compare | src/day11.rs:154-160 | `cmp` reverses the order of trips plus heuristic, so the max-heap pops the smallest first |
| Day11.CompareOrder | src/day11.rs:154-160 | `cmp` is antisymmetric and transitive, a total preorder |
| Day11.Best | src/day11.rs:178 | the entry popped has no other entry ranked above it |
| Day11.Fresh | src/day11.rs:186-193 | the queued successors are unvisited trips, each with one more step and a path from the start, and none is missing |
| Day11.Visit | src/day11.rs:178-196 | one pass of the loop keeps every queued state tracked by a path and keeps the visited states closed under trips |
| Day11.ClosedAfter | src/day11.rs:186-195 | marking the popped state visited after queuing its unvisited successors keeps the visited set closed |
| Day11.ClosedPaths | src/day11.rs:198 | once the queue is empty, every path from the start stays among visited, incomplete states |
| Day11.Search | src/day11.rs:170-199 | a returned count is the length of a real sequence of trips from the input to a complete state; `NoSolution` (the panic) only when no complete state is reachable at all |
| Day11.WithExtras | src/day11.rs:238-242 | part two's input adds the extra items to the ground floor and nothing else |
| Day11.ExtrasOnFloor | src/day11.rs:238-242 | with the extra generators, the ground floor is safe exactly when each of its microchips has its own generator |
| Day11.Part1 | src/day11.rs:232-234 | the search's guarantees from the input |
| Day11.Part2 | src/day11.rs:237-245 | the search's guarantees from the input with the extra items |
| Day12.ParseOperand | src/day12.rs:15-23 | `a`-`d` name registers 0-3; anything else is a raw value when it reads as an integer, and a parse error otherwise |
| Day12.ParseWords | src/day12.rs:102-107 | `cpy x y`, `inc x`, `dec x` and `jnz x y`, each operand a register or an integer and the jump offset an integer; any other shape or a bad operand is the panic, `None` |
| Day12.ParseLine | src/day12.rs:101-102 | a line is split at ASCII whitespace, then read by `ParseWords` |
| Day12.Generator | src/day12.rs:97-111 | succeeds exactly when every line of the trimmed input parses, one instruction per line in order |
| Day12.ParseExamples | src/day12.rs:102-108 | one line of each form parses as expected; a copy into a raw value parses, and a jump with a word as offset does not |
| Day12.Exec | src/day12.rs:49-73 | a successful instruction keeps four registers |
| Day12.ExecFacts | src/day12.rs:49-93 | a copy writes the value into its register, inc/dec change only their register by one, a raw value used as a register panics, a taken jump moves the pointer by the offset, every other instruction moves it on by one, and no other register changes |
| Day12.Run | src/day12.rs:47-75 | a halted run ends with the pointer outside the program |
| Day12.RunStops | src/day12.rs:48 | a machine outside the program halts at once; inside it, a run is one instruction then the rest |
| Day12.RunResumes | src/day12.rs:47-75 | a run cut short by the fuel goes on from where it stopped |
| Day12.RunEnded | src/day12.rs:47-75 | more fuel does not change a run that has ended |
| Day12.SampleProgram | src/day12.rs:47-75 | the countdown sample `cpy 41 a; inc a; inc a; dec a; jnz a 2; dec a` halts with 42 in `a` after five instructions |
| Day12.Computer.constructor | src/day12.rs:39-44 | a new computer has its pointer at 0 and every register 0 |
| Day12.Computer.GetValue | src/day12.rs:78-83 | a raw value, or the content of the register |
| Day12.Computer.Step | src/day12.rs:49-73 | one pass of the loop updates the fields to the model's next machine, or reports the panic |
| Day12.Computer.Execute | src/day12.rs:47-75 | the loop's outcome and final fields are the model's run within the fuel |
| Day12.Part1 | src/day12.rs:114-118 | register `a` of the run from zeroed registers |
| Day12.Part2 | src/day12.rs:121-126 | register `a` of the run with `c` set to 1 first |
| Day13.BinaryRoundTrip | src/day13.rs:92 | `format!("{:b}")` gives only `0` and `1`, `"0"` exactly for zero, a leading 1 otherwise, and reads back as the number |
| Day13.OnesPopcount | src/day13.rs:92-94 | counting the `1` characters of the binary form counts the one bits |
| Day13.IsOpen | src/day13.rs:85-95 | a point is open when x² + 3x + 2xy + y + y² plus the favourite number, taken as a 32-bit two's-complement pattern, has an even number of one bits |
| Day13.IsOpenMeans | src/day13.rs:85-95 | a square is open exactly when the `i32` sum, as its 32-bit pattern, shows an even number of ones |
| Day13.OpenWhen | src/day13.rs:85-95 | a sum that fits in 32 bits is its own pattern: open exactly when its popcount is even |
| Day13.OpenExample | src/day13.rs:85-95 | with favourite number 10, (0, 0) and (1, 1) are open |
| Day13.WallExample | src/day13.rs:85-95 | with favourite number 10, (1, 0) and (0, 2) are walls |
| Day13.Keep | src/day13.rs:78-79 | the filters keep exactly the candidates in the quarter plane that are open |
| Day13.Around | src/day13.rs:73-77 | the four deltas reach exactly the points one step away |
| Day13.Moves | src/day13.rs:72-81 | the valid moves are exactly the open points one orthogonal step away with both coordinates non-negative |
| Day13.Generator | src/day13.rs:97-100 | the trimmed input read as an unsigned number, `None` on a parse error |
| Day13.GeneratorRoundTrip | src/day13.rs:98-100 | a number written out reads back as itself |
| Day13.Best | src/day13.rs:14-18 | the entry popped has the fewest steps |
| Day13.Fresh | src/day13.rs:53-60 | the queued moves are unvisited, each with one more step and a walk from the start, and none is missing |
| Day13.Pop | src/day13.rs:36-63 | one pass of the loop, including part two's skip beyond 50 steps, keeps the search invariant |
| Day13.Expand | src/day13.rs:50-62 | queuing the unvisited moves and marking the point visited keeps the search invariant |
| Day13.SkipKeeps | src/day13.rs:43-46 | dropping an entry beyond the limit keeps part two's invariant |
| Day13.ClosedExpand | src/day13.rs:50-62 | every move from a visited point stays covered by a visited or queued point |
| Day13.LeveledExpand | src/day13.rs:36-62 | popping the fewest steps keeps the queue levelled and the start seeded |
| Day13.Frontier | src/day13.rs:36-63 | a walk that leaves the visited points passes an entry queued with no more steps than the walk |
| Day13.ShortestPath | src/day13.rs:27-69 | part one returns the fewest steps of any walk to the target, and panics only when no walk reaches it; part two returns the number of points at most 50 steps away and never panics |
| Day13.Part1 | src/day13.rs:103-105 | the fewest steps from (1, 1) to (31, 39), or the panic when it is unreachable |
| Day13.Part2 | src/day13.rs:108-110 | exactly the points at most 50 steps from (1, 1) are counted |
| Day15.ParseWords | src/day15.rs:18-25 | only the twelve-word disc sentence reads: the id is the number word after its first character, the position the last word before its last character, the size the fourth word; any other shape, an empty word there or a non-number is the panic, `None` |
| Day15.ParseLine | src/day15.rs:17-18 | a line is trimmed and split at single spaces, then read by `ParseWords` |
| Day15.Generator | src/day15.rs:14-28 | succeeds exactly when every line parses, one disc per line in order |
| Day15.ParseDescribed | src/day15.rs:17-26 | the line describing a disc (`Disc #N has S positions; at time=0, it is at position P.`) reads back as that disc |
| Day15.DescribedWords | src/day15.rs:17 | trimming and splitting that line at spaces gives back its words |
| Day15.ParseExamples | src/day15.rs:15-25 | the sample line reads as disc 1 with 5 positions at position 4; an empty position word panics |
| Day15.Check | src/day15.rs:31-39 | at time `i` the discs are checked in order: `Some(false)` at the first closed disc, `None` (the remainder by zero) at a zero-size disc reached first, and `Some(true)` when every disc is open |
| Day15.CheckMeans | src/day15.rs:33 | the `all` check passes exactly when every disc has a size and is at position zero when the capsule reaches it; with positive sizes it never panics |
| Day15.CheckPrefix | src/day15.rs:33 | a check that passes for a longer list passes for its prefix |
| Day15.FirstUnique | src/day15.rs:32-36 | there is only one first time at which every disc is open |
| Day15.Part1 | src/day15.rs:31-39 | a returned time is the first at which every disc is open; a panic comes from a size-zero disc reached by the check, every earlier time failing |
| Day15.Extended | src/day15.rs:43-51 | part two adds one disc numbered one past the count, at position 0, with 11 positions, after the others |
| Day15.Part2 | src/day15.rs:42-54 | the same guarantees for the extended list |
| Day15.Part2AfterPart1 | src/day15.rs:42-54 | part two's time satisfies every disc of part one and puts the extra disc at position zero, so it is never earlier than part one's |
| Day15.Example | src/day15.rs:15 | discs of 5 and 2 positions at 4 and 1 first let the capsule through at time 5 |
| Day16.Flip | src/day16.rs:21 | `1` becomes `0` and anything else `1` |
| Day16.Mirror | src/day16.rs:18-22 | the reversed complement of the data |
| Day16.StepShape | src/day16.rs:18-25 | a step keeps the data, adds `0`, then the reversed complement: length `2n + 1` |
| Day16.Expand | src/day16.rs:17-26 | the expansion loop stops once the data is at least the disk length |
| Day16.ExpandShape | src/day16.rs:17-26 | the expanded data starts with the input, and data long enough already is left alone |
| Day16.ExpandAlphabet | src/day16.rs:17-26 | everything added after the input is `0` or `1` |
| Day16.ReduceShape | src/day16.rs:31-35 | a round halves the length and each pair gives `1` exactly when its two characters are equal |
| Day16.ChecksumShape | src/day16.rs:28-38 | the checksum is as long as the odd part of the length, so odd; odd data is its own checksum |
| Day16.GenerateChecksum | src/day16.rs:14-39 | the two loops compute the checksum of the first `length` characters of the expanded data |
| Day16.Part1 | src/day16.rs:5-7 | the same for a disk of 272 |
| Day16.Part2 | src/day16.rs:10-12 | the same for a disk of 35651584 |
| Day16.StepExamples | src/day16.rs:17-26 | `1` becomes `100`, `0` becomes `001`, `11111` becomes `11111000000` |
| Day16.ChecksumExample | src/day16.rs:30-36 | the checksum of `110010110100` is `100` |
| Day16.DiskExample | src/day16.rs:14-39 | filling a disk of 20 from `10000` gives the checksum `01100` |
| Day18.Parse | src/day18.rs:14 | one tile per character of the trimmed input, a trap exactly for `^` |
| Day18.IsTrap | src/day18.rs:39-54 | tile `i` below is a trap when exactly one of the tiles left and right of `i` above is a trap, a tile past either edge counting as safe |
| Day18.IsTrapRule | src/day18.rs:30-54 | `left != right`, with missing neighbours safe, agrees with the puzzle's four trap rules on left, centre and right |
| Day18.Transform | src/day18.rs:26-28 | the next row has the same width and tile `i` is `is_trap(i)` |
| Day18.SafeTotalBound | src/day18.rs:13-23 | `n` rows hold at most `n` times the width of safe tiles |
| Day18.SafeTotalSafeRow | src/day18.rs:13-23 | a row without traps never grows one, so every tile of every row is safe |
| Day18.SafeTotalUnfold | src/day18.rs:17-20 | `n` rows are the first row's safe tiles plus those of the `n - 1` rows after it |
| Day18.CalculateSafeTiles | src/day18.rs:13-23 | the loop counts the safe tiles of the first `iterations` rows |
| Day18.Part1 | src/day18.rs:4-6 | the safe tiles of 40 rows, at most 40 per tile of the width |
| Day18.Part2 | src/day18.rs:9-11 | the safe tiles of 400000 rows, at most 400000 per tile of the width |
| Day18.ExampleRows | src/day18.rs:26-28 | `..^^.` becomes `.^^^^`, which becomes `^^..^` |
| Day18.ExampleCount | src/day18.rs:13-23 | those three rows hold six safe tiles |
| Day19.HighestPowerOfTwo | src/day19.rs:5-18 | the largest power of two `p` with `p <= n < 2p` |
| Day19.HighestPowerOfThree | src/day19.rs:21-47 | the largest power of three `p` with `p <= n < 3p` |
| Day19.SurvivorSeat | src/day19.rs:10-15 | the Josephus recurrence names a seat of the circle |
| Day19.SurvivorAt | src/day19.rs:10-17 | the elf left by the deque loop is the one in the recurrence's seat |
| Day19.SurvivorSeatClosed | src/day19.rs:10-17 | that seat is twice the distance above the largest power of two |
| Day19.Part1 | src/day19.rs:5-18 | defined exactly when the input is a count of at least one elf; the winner is the survivor of the deque loop, `2(n - 2^k) + 1`, between 1 and the count |
| Day19.WinnerSeat | src/day19.rs:28-46 | part two's recurrence names a seat of the circle |
| Day19.WinnerAt | src/day19.rs:28-46 | the elf left when each turn removes the elf across is the one in that seat |
| Day19.WinnerSeatClosed | src/day19.rs:28-46 | that seat in closed form by the largest power of three |
| Day19.Opposite | src/day19.rs:29-35 | popping the tail of `right` when it is longer, else the head of `left`, removes the elf across the circle |
| Day19.Regroup | src/day19.rs:41-45 | moving the head of `left` to `right` and the head of `right` to `left` turns the circle by one |
| Day19.LastElf | src/day19.rs:37-39 | with two elves left, the first is the winner, whose number has the closed form |
| Day19.Part2 | src/day19.rs:21-47 | defined exactly when the input is a count of at least two elves (a lone elf is popped before it is named); the winner is the elf across-stealing leaves, by the closed form |
| Day19.Example | src/day19.rs:4-47 | with five elves, elf 3 is left in part one and elf 2 in part two |
| Day20.SpanMeans | src/day20.rs:27 | the inclusive range `lo..=hi` holds exactly the numbers between its ends |
| Day20.SpanCard | src/day20.rs:56-59 | `lo..=hi` holds `hi - lo + 1` numbers |
| Day20.ParseU32 | src/day20.rs:14 | `parse::<u32>()`: a number below 2^32, `None` for anything else |
| Day20.ParseRange | src/day20.rs:13-14 | the line cut at its first `-` with both halves read as `u32`; a missing `-` or a bad half is the panic, `None` |
| Day20.Generator | src/day20.rs:8-17 | succeeds exactly when every line of the trimmed input is `start-end` with two `u32` numbers, one range per line in order |
| Day20.ParsePrinted | src/day20.rs:12-15 | a range printed as `start-end` reads back as itself |
| Day20.FindBlocking | src/day20.rs:25-27 | `find` returns a range of the list that contains the candidate, the first one, and nothing exactly when no range contains it |
| Day20.LowestUnique | src/day20.rs:20-34 | there is only one lowest unblocked address |
| Day20.Part1 | src/day20.rs:20-34 | the loop returns the lowest address no range blocks; `None` exactly when every `u32` is blocked and `max + 1` overflows |
| Day20.Example | src/day20.rs:20-34 | with `5-8`, `0-2` and `4-7` the lowest allowed address is 3 |
| Day20.Insert | src/day20.rs:39 | inserting keeps every range, with its multiplicity |
| Day20.InsertSorted | src/day20.rs:39 | inserting into a sorted list keeps it sorted by `(start, end)` |
| Day20.Sort | src/day20.rs:39 | `sorted_unstable` gives a sorted permutation of the ranges |
| Day20.CoveredMeans | src/day20.rs:41-54 | the covered set is exactly the blocked numbers |
| Day20.CoveredPermutation | src/day20.rs:39 | sorting does not change what is blocked |
| Day20.CoveredSnoc | src/day20.rs:44-54 | one more range adds its interval |
| Day20.IntervalJoin | src/day20.rs:50-53 | a range starting inside the current one, or just after it, extends it to the larger end |
| Day20.PushStep | src/day20.rs:47-49 | pushing a range that starts more than one past the last end keeps the merged list separated and covering the ranges seen |
| Day20.ExtendStep | src/day20.rs:50-53 | extending the last merged range keeps the same invariant |
| Day20.Merge | src/day20.rs:42-54 | the merged list is non-empty, separated (disjoint, not even adjacent) and blocks exactly what the input blocks |
| Day20.CoveredCard | src/day20.rs:56-59 | separated ranges cover as many numbers as their summed lengths |
| Day20.TotalBound | src/day20.rs:56-59 | separated ranges fit between the first start and the last end |
| Day20.BlockedCount | src/day20.rs:57-59 | the `u32` fold of `end - start + 1` over the ranges: `None` where a range is reversed, or a length or the running sum passes `u32::MAX` |
| Day20.BlockedCountTotal | src/day20.rs:57-59 | the `u32` fold overflows exactly when the summed lengths pass `u32::MAX`, and otherwise is the sum |
| Day20.Part2 | src/day20.rs:37-62 | the answer is `2^32` minus the number of blocked addresses; `None` on an empty list or when every address is blocked |
| Day21.FromStr | src/day21.rs:35-60 | a line of no known shape is rejected with the line itself as the error |
| Day21.ParseDescribed | src/day21.rs:35-60 | every instruction, written out as the puzzle words it, reads back as that instruction |
| Day21.ParseSwapIndex | src/day21.rs:39-41 | `swap position x with position y` reads back as the swap of those positions |
| Day21.ParseSwapLetter | src/day21.rs:42-44 | `swap letter a with letter b` reads back as the swap of those letters |
| Day21.ParseRotateLeft | src/day21.rs:45 | `rotate left n steps` reads back as the left rotation by `n` |
| Day21.ParseRotateRight | src/day21.rs:47 | `rotate right n steps` reads back as the right rotation by `n` |
| Day21.ParseRotateIndex | src/day21.rs:49-51 | `rotate based on position of letter c` reads back as the rotation on that letter |
| Day21.ParseReverse | src/day21.rs:52-54 | `reverse positions x through y` reads back as the reversal of that range |
| Day21.ParseMove | src/day21.rs:55-57 | `move position x to position y` reads back as that move |
| Day21.ParseSingleStep | src/day21.rs:46-48 | `rotate left/right _ step` means one step whatever the count word |
| Day21.ParseBadCount | src/day21.rs:45-47 | a `steps` rotation whose count is not a number panics |
| Day21.ParseUnknownVerb | src/day21.rs:58 | a line starting with none of the four verbs is rejected with the line |
| Day21.ParseLine | src/day21.rs:68 | `line.parse().unwrap()`: the instruction `FromStr` reads, with both its `Err` and its panics as `None` |
| Day21.Generator | src/day21.rs:64-70 | succeeds exactly when every line of the trimmed input parses, one instruction per line in order |
| Day21.FirstIndex | src/day21.rs:159-160 | `find_position` finds a letter exactly when it occurs, and returns the index of its first occurrence |
| Day21.SwapPositions | src/day21.rs:128-146 | defined exactly for two different positions inside the string |
| Day21.SwapPositionsAt | src/day21.rs:128-146 | the two positions trade characters and every other position keeps its own |
| Day21.SwapPositionsSymmetric | src/day21.rs:128-131 | the order of the two positions does not matter, and swapping twice restores the string |
| Day21.SwapLetters | src/day21.rs:158-163 | defined exactly when both letters occur and differ |
| Day21.SwapLettersDistinct | src/day21.rs:158-163 | in a string of distinct letters every `a` becomes `b`, every `b` becomes `a`, and nothing else changes |
| Day21.RotatedLeft | src/day21.rs:175-182 | defined exactly for a non-empty string |
| Day21.RotatedRight | src/day21.rs:194-201 | defined exactly for a non-empty string |
| Day21.RotatedLeftAt | src/day21.rs:175-182 | every character moves `steps % len` places towards the front, wrapping around |
| Day21.RotateInverse | src/day21.rs:175-201 | a right rotation by the same count undoes a left rotation, and the other way round |
| Day21.RotatedByIndex | src/day21.rs:216-221 | defined exactly when the letter occurs in the string |
| Day21.Reversed | src/day21.rs:233-249 | defined exactly when the range `x..=y` is a (possibly empty) slice of the string |
| Day21.ReversedAt | src/day21.rs:233-249 | each position of the range takes the character at its mirror image and the rest stay in place |
| Day21.ReverseInvolution | src/day21.rs:233-249 | reversing the same range twice restores the string |
| Day21.ReverseRange | src/day21.rs:233-249 | the loop that pushes the range from its last character down builds the same string as the reversal |
| Day21.MoveChar | src/day21.rs:261-267 | defined exactly when both indices are inside the string |
| Day21.MoveUndo | src/day21.rs:261-267 | the moved character lands at `y`, the length is kept, and moving it back from `y` to `x` restores the string |
| Day21.Step | src/day21.rs:99-107 | one instruction, sent to its operation (swap position or letter, rotate left, right or on a letter, reverse, move), `None` where that operation panics |
| Day21.Scrambled | src/day21.rs:95-111 | the instructions applied in order from the input string; the first panicking instruction ends the run in `None` |
| Day21.StepPermutes | src/day21.rs:100-108 | every instruction that does not panic only rearranges the characters |
| Day21.SwapPermutes | src/day21.rs:128-146 | swapping two positions keeps the multiset of characters |
| Day21.RotatedLeftPermutes | src/day21.rs:175-182 | a left rotation keeps the multiset of characters |
| Day21.RotatedRightPermutes | src/day21.rs:194-201 | a right rotation keeps the multiset of characters |
| Day21.ReversedPermutes | src/day21.rs:233-249 | reversing a range keeps the multiset of characters |
| Day21.MovePermutes | src/day21.rs:261-267 | moving a character keeps the multiset of characters |
| Day21.ScrambledPermutes | src/day21.rs:96-112 | a whole scramble that does not panic is a permutation of its input |
| Day21.Scramble | src/day21.rs:96-112 | the loop that reassigns the string once per instruction computes the scramble, panics included |
| Day21.Part1 | src/day21.rs:73-75 | `abcdefgh` scrambled, which is a rearrangement of those eight letters |
| Day21.FirstUnscrambled | src/day21.rs:84-92 | the first candidate of the list that scrambles to the target, and none when no candidate does |
| Day21.Unscramble | src/day21.rs:78-93 | the first permutation in enumeration order that scrambles to the target; none exactly when no rearrangement of the letters does |
| Day21.Part2 | src/day21.rs:78-93 | the first permutation of `abcdefgh` in enumeration order that scrambles to `fbgdceah`, and none exactly when no rearrangement does |
| Day21.SwapPositionsExample | src/day21.rs:120-126 | swapping positions 2 and 5 of `abcdefg`, in either order, gives `abfdecg` |
| Day21.SwapLettersExample | src/day21.rs:153-156 | swapping letters `c` and `f` of `abcdefg` gives `abfdecg` |
| Day21.RotateExamples | src/day21.rs:170-173 | `abcde` rotated two steps left is `cdeab` and two steps right is `deabc` |
| Day21.RotatedByIndexExample1 | src/day21.rs:208-211 | `abcdefg` rotated on `b` is `fgabcde` |
| Day21.RotatedByIndexExample4 | src/day21.rs:213-214 | `abcdefg` rotated on `e` is `bcdefga` |
| Day21.ReversedExample | src/day21.rs:228-231 | reversing positions 1 through 4 of `abcdef` gives `aedcbf` |
| Day21.MoveCharExample | src/day21.rs:256-259 | moving position 1 of `abcdef` to position 4 gives `acdebf` |
| Day21.PuzzleExample | src/day21.rs:96-112 | the puzzle's eight-instruction example takes `abcde` to `decab` |
| Day22.Tag | src/day22.rs:26 | `tag` succeeds exactly when the text starts with the literal, leaving what follows it |
| Day22.DigitRun | src/day22.rs:27 | the leading run of digits is maximal: all digits, and stopped by a non-digit or the end |
| Day22.SpaceRun | src/day22.rs:32 | the leading run of spaces and tabs is maximal |
| Day22.TagOf | src/day22.rs:26 | a literal followed by anything is consumed, leaving exactly the rest |
| Day22.DigitRunOf | src/day22.rs:27 | a block of digits followed by a non-digit is read up to that character |
| Day22.Digit1Of | src/day22.rs:27-30 | a printed number is read back as itself, up to the next non-digit |
| Day22.SpaceRunOf | src/day22.rs:32-35 | a block of padding is skipped up to the next non-space |
| Day22.FieldOf | src/day22.rs:32-35 | one padded amount with its unit reads back as that amount, leaving the rest |
| Day22.ParseNode | src/day22.rs:25-47 | reads `/dev/grid/node-x` and digits, `-y` and digits, then four fields, each spaces before digits and a suffix (`T`, `T`, `T`, `%`); gives the node with the unread rest, and `None` where any step fails |
| Day22.ParseLine | src/day22.rs:25-47 | the `df` line of a node, with any padding, reads back as that node, whatever follows it |
| Day22.NodeOf | src/day22.rs:55 | `parse(line).unwrap().1`: the node `ParseNode` reads, with the rest discarded, `None` where it fails |
| Day22.Generator | src/day22.rs:50-57 | succeeds exactly when every line after the two headings parses, one node per line in order |
| Day22.Row | src/day22.rs:63-64 | the row of `a` pairs it with every node in order |
| Day22.ProductSnoc | src/day22.rs:63-64 | the cartesian product grows by one row for each further outer node |
| Day22.Part1 | src/day22.rs:60-67 | the number of ordered pairs of nodes at distinct coordinates with `a.used > 0` and `a.used <= b.available` |
| Day22.Part1Loops | src/day22.rs:74-88 | the nested loops, skipping equal coordinates, count exactly the viable pairs of the iterator chain |
| Day22.RowBound | src/day22.rs:65-66 | a node is never viable with itself, so one row counts at most `n - 1` pairs |
| Day22.ProductBound | src/day22.rs:62-67 | rows of nodes from the list count at most `n - 1` pairs each |
| Day22.Part1Bound | src/day22.rs:60-67 | at most `n(n - 1)` pairs are viable |
| Day22.MaxX | src/day22.rs:93 | the largest x among the nodes: an upper bound that some node reaches |
| Day22.FirstEmpty | src/day22.rs:94 | finds a node exactly when one is empty, and the first empty one |
| Day22.WallEdge | src/day22.rs:96-101 | defined exactly when some node holds more than 100T, and then the least x among those nodes |
| Day22.Part2 | src/day22.rs:92-130 | defined exactly when there are nodes, an empty one and a wall, the hole is not left of the wall's edge and the grid is at least two columns wide; then the moves around the wall, to the top right, and five per remaining column |
| Day23.ParseOperand | src/day23.rs:17-25 | `a`-`d` name registers 0-3; anything else is a raw value when it reads as an integer, and a parse error otherwise |
| Day23.ParseWords | src/day23.rs:124-131 | `cpy`/`jnz` with two operands and `inc`/`dec`/`tgl` with one, each operand a register or an integer; any other shape or a bad operand is the panic, `None` |
| Day23.ParseLine | src/day23.rs:123-124 | a line is split at ASCII whitespace, then read by `ParseWords` |
| Day23.Generator | src/day23.rs:118-134 | succeeds exactly when every line of the trimmed input parses, one instruction per line in order |
| Day23.ParseExamples | src/day23.rs:124-130 | `tgl c` and a jump with a register offset parse as expected, and `tgl` without an operand is rejected |
| Day23.Toggled | src/day23.rs:84-90 | `tgl` turns `cpy` into `jnz` and back, `inc` into `dec` and back, and `tgl` into `inc`, keeping the operands |
| Day23.ToggledTwice | src/day23.rs:84-90 | toggling twice restores every instruction except a toggle, which becomes a decrement |
| Day23.Exec | src/day23.rs:52-96 | one step that does not panic keeps the machine well-formed (four registers) |
| Day23.ToggleFacts | src/day23.rs:79-92 | a toggle rewrites exactly its target, and only when the target is inside the program; registers and length are unchanged and the pointer moves on by one |
| Day23.ExecFacts | src/day23.rs:56-78 | a copy into a raw value only moves on; an increment or decrement panics exactly on a raw value; a taken jump adds its offset, which may be a register, instead of moving on by one; only a toggle changes the program |
| Day23.Run | src/day23.rs:51-97 | a run that halts ends with the pointer outside the program |
| Day23.ToggleProgram | src/day23.rs:51-97 | a seven-instruction program whose toggles turn its fourth instruction into `inc a` and its fifth into `jnz 1 a` halts after five steps at pointer 7, with 3 in register `a` and exactly those two instructions rewritten |
| Day23.RunKeepsLength | src/day23.rs:83-91 | the program keeps its length however often it is toggled |
| Day23.Computer.constructor | src/day23.rs:43-48 | a new computer has the pointer at 0 and all four registers 0 |
| Day23.Computer.GetValue | src/day23.rs:100-105 | a raw value is itself and a register operand reads that register |
| Day23.Computer.Step | src/day23.rs:53-95 | one pass of the loop updates pointer, registers and program in place exactly as one step of the machine, and fails exactly where the step panics |
| Day23.Computer.Execute | src/day23.rs:51-97 | the loop leaves the computer and the program in the state the run reaches |
| Day23.Part1 | src/day23.rs:136-144 | register `a` after running a copy of the program from `a = 7` |
| Day23.Factorial | src/day23.rs:161-167 | `factorial(0)` is 1 and `factorial(n)` is `n * factorial(n - 1)` |
| Day23.FactorialProduct | src/day23.rs:161-167 | `factorial(n)` is the product of the numbers 1 to n |
| Day23.FactorialTwelve | src/day23.rs:158 | `factorial(12)` is 479001600 |
| Day23.Part2 | src/day23.rs:146-159 | the closed form `81 * 94 + 12!` is 479009214 |
| Day24.ShortestUnique | src/day24.rs:147-148 | the fewest steps between two points, when there is a walk, is one number |
| Day24.ComputeDistance | src/day24.rs:148-168 | the breadth-first search answers the length of a walk to `end` that no walk beats, 0 from a point to itself; it fails only when no walk reaches `end` or a walk reaches a point without an entry, and on a complete graph exactly when `end` is unreachable |
| Day24.Init | src/day24.rs:149-152 | the search starts with its invariant: the start waiting with no steps and nothing visited |
| Day24.Found | src/day24.rs:157-159 | when the end is popped its length is the fewest steps of any walk to it |
| Day24.Exhausted | src/day24.rs:164-167 | when the frontier runs dry no walk reaches the end |
| Day24.Missing | src/day24.rs:161 | a popped point without an entry was reached by a walk from the start, so the lookup fails only on an incomplete graph |
| Day24.Expand | src/day24.rs:154-163 | one pass of the loop visits the popped point, pushes its unvisited neighbours, keeps the invariant and brings the search closer to its end |
| Day24.PushUnvisited | src/day24.rs:161-163 | the frontier grows by exactly the neighbours not yet visited, each with one more step, behind what was there |
| Day24.Advance | src/day24.rs:154-163 | popping, visiting and pushing the unvisited neighbours keeps the search invariant |
| Day24.OriginDistances | src/day24.rs:101-118 | one entry per target holding the fewest steps from the origin, or a target whose search fails |
| Day24.TargetDistances | src/day24.rs:121-145 | one entry per ordered pair of distinct targets holding the fewest steps between them, or a pair whose search fails |
| Day24.BeforeAll | src/day24.rs:128 | `permutations(2)` of distinct targets is every ordered pair of two different targets |
| Day24.TablesUnique | src/day24.rs:101-145 | the two distance tables are determined by the game |
| Day24.CostParts | src/day24.rs:82-90 | part two's cost of an ordering is part one's plus the way from its last target back to the origin |
| Day24.OrderingFits | src/day24.rs:81-86 | with both tables complete, every lookup the cost of an ordering of the targets makes succeeds |
| Day24.PermutationsFit | src/day24.rs:81-86 | every ordering the loop enumerates can be costed |
| Day24.PathLength | src/day24.rs:82-90 | the loop over `path.windows(2)`, with the way back in part two, computes the cost of the ordering |
| Day24.MinimumOver | src/day24.rs:79-95 | the loop's minimum starts at `usize::MAX` and ends no greater than any ordering's cost and equal to one of them, unless every cost is at least `usize::MAX` |
| Day24.MinimumOrderings | src/day24.rs:81-97 | the minimum over the enumerated orderings is the minimum over every rearrangement of the targets |
| Day24.ShortestPath | src/day24.rs:71-98 | when no search fails and there are targets, the tables of true distances and the cheapest visiting order's cost; it fails only with no targets or a failing search |
| Day24.Part1 | src/day24.rs:60-63 | the fewest steps of any order that visits every target from the origin; no answer only when there are no targets or some search fails: a target is unreachable from the origin or from another target, or a walk from the origin or from a target reaches a point with no entry |
| Day24.Part2 | src/day24.rs:65-68 | the fewest steps of any order that visits every target and returns to the origin; no answer only in the same cases as part one: no targets, or a target unreachable from the origin or from another target, or a walk from the origin or a target reaching a point with no entry |
| Day24.PartsOrdered | src/day24.rs:88-90 | returning to the origin never makes the tour shorter: part two's answer is at least part one's |
| Orderings.PermutationsPermute | src/day24.rs:81 | every sequence `permutations(len)` lists is a rearrangement of the elements |
| Orderings.PermutationsComplete | src/day24.rs:81 | every rearrangement of the elements is listed |
| Day25.RunProgram | src/day25.rs:28-42 | the loop prints the remainders of halving the number, least significant first, until it reaches zero |
| Day25.RemaindersValue | src/day25.rs:32-39 | the output read back as binary is the number, and it is canonical (no trailing zero) |
| Day25.ValueRemainders | src/day25.rs:32-39 | every canonical string of binary digits is the output of the number it denotes |
| Day25.RemaindersInjective | src/day25.rs:32-39 | different numbers print different outputs |
| Day25.RemaindersLength | src/day25.rs:32-39 | the output has one digit per binary digit of the number, none for 0 |
| Day25.SignalValue | src/day25.rs:20 | `010101010101` is the output of exactly 2730 |
| Day25.Part1 | src/day25.rs:14-26 | the smallest positive start whose output, after the program's offset of `14 * 182`, is the signal; it is 182 |

## Left out

- `src/day5.rs`, `src/day14.rs`, `src/day17.rs`: every decision these days make depends on MD5 digests (RFC 1321) from an external crate. Nothing of them is left once the hash is abstracted.
- `src/lib.rs`: only the harness macro. The `Part` enum it declares is a datatype in each module that branches on it.
- Input and output: the `aoc` runner attributes, the `include_str!` fixtures and their regression answers, and the `println!` progress lines of day 24. The answers depend on input files that are not part of this model.
- Unbounded loops take a `fuel` bound, with an outcome for fuel running out. These are the interpreters of days 12 and 23 (a `jnz` with offset 0 never halts), the chip routing of day 10, the searches of days 11 and 13, and the `0..` search of day 15. Day 25's search provably stops at 182 and needs none.
- Iteration order of `HashMap`, `HashSet` and `BinaryHeap` is left open: the model takes any qualifying element. This affects the `max_by` ties of day 6, which ready bot acts next on day 10, and which of several equal-priority states pops first on days 11 and 13.
- Integer widths are modelled in two places only: the `i32` arithmetic of day 13's `is_open`, and the `u32` addresses of day 20, whose parser rejects values of 2^32 and above. Everywhere else numbers are unbounded integers, with the three gaps below.
- Day13.IsOpen: takes the sum modulo 2^32, which is the wrap-around of a release build. A debug build panics on that `i32` overflow instead, and the model does not capture that panic.
- Range checks of `parse`: the model's parsers accept numbers of any size. The source's `parse().unwrap()` panics on a literal outside `i32` on day 1, outside `usize` on days 3, 4, 8, 9, 10, 13, 15, 19, 21 and 22, and outside `isize` in the programs of days 12 and 23.
- Arithmetic overflow: fixed-width overflow, which panics in a debug build and wraps in a release build, is not modelled. This covers:
  - day 1's `i32` coordinates;
  - day 3's `sides[0] + sides[1]`;
  - day 4's sum of sectors;
  - day 8's `i + delta + len`;
  - day 9's `size * repeat` and running score;
  - day 10's product of the three outputs;
  - day 15's `disc.id + i + disc.position`;
  - day 18's count of safe tiles;
  - the `isize` registers and pointer of days 12 and 23;
  - day 24's totals (see `Day24.PathLength`).
- Byte offsets: Rust indexes and measures strings in bytes; the model uses characters. The two agree on ASCII text, which every puzzle input is. Where they differ is non-ASCII text at these sites:
  - day 1's `i[1..]`;
  - day 6's `char_indices`;
  - day 9's `spec.len()`, which is added to a character index;
  - day 15's `id[1..]` and `position[..position.len() - 1]`;
  - day 16's `a.len()` and `a[..length]`;
  - day 21's slices.
- Day8.BuildGrid: requires every rotated row below 6 and every rotated column below 50, and every rectangle with both sides non-zero to fit in the 50×6 screen. Those are exactly the instructions on which the source indexes out of bounds and panics. A rectangle with a zero side is accepted at any size, as in the source, and changes nothing.
- Day8.Apply: carries the same precondition as `BuildGrid`.
- Day8.Execute: carries the same precondition as `BuildGrid`.
- Day8.FillRectangle: carries the same precondition as `BuildGrid`.
- Day8.Part1: carries the same precondition as `BuildGrid`.
- Day8.Run: carries the same precondition as `BuildGrid`.
- Day 8 part two returns a literal read off the printed screen, so it has no behaviour to model.
- Day4.Decrypt: requires every character of the name to be at least `a`, where the source's unsigned subtraction of `'a'` panics.
- Day 10: `Bot::add_value` and `Bot::take_values` act on a `Bot` value in the map of bots, not through `&mut self`. This changes nothing observable, since the map is the only owner.
- Day 11's generator, which relies on a regular expression, is not modelled: the model starts from a parsed `State`.
- Day11.Search: proved sound, not optimal. The steps it returns are the length of a real sequence of legal moves. The source's comment says its heuristic was tuned until it gave wrong answers, so it is not admissible.
- Day16.GenerateChecksum: requires a length of at least 1. With length 0 the checksum loop of the source never ends, since the empty string has even length.
- Day18.CalculateSafeTiles: requires at least one row, where `iterations - 1` underflows `usize`.
- Day20.Part2: requires every range to have `start <= end`. With a reversed range the source's count of each merged range underflows, or the range is silently absorbed.
- Day 22's `nom` combinators are restated as small parsers (`Tag`, `Digit1`, `Space1`, `Field`) over strings, not through the library.
- Day 23 part two is the closed form the source returns. The commented-out run of the program from `a = 12` is not modelled.
- Day23.FactorialProduct: `factorial` is modelled on natural numbers. The source loops on negative arguments, which it never passes.
- Day24.ShortestPath: requires the targets to be distinct, which holds because the source keeps them in a `HashSet`.
- Day24.Part1: carries the same distinct-targets precondition as `ShortestPath`.
- Day24.Part2: carries the same distinct-targets precondition as `ShortestPath`.
- Day24.TargetDistances: carries the same distinct-targets precondition as `ShortestPath`.
- Day24.PathLength: the totals of day 24 are unbounded integers. The `usize` overflow of `total +=` is not modelled, though the `usize::MAX` start of the minimum is.
- Day 24's generator is not modelled: it calls `neighbours_4`, which `src/compass.rs` does not define. The `rayon` parallel map of the distance tables is modelled as a sequential loop.
- Strings.Trim: whitespace is the ASCII set (space, tab, line feed, carriage return, vertical tab, form feed). The other Unicode whitespace that `str::trim` also removes is not modelled.

## Notes

- Day 2 starts every line of moves from the key `5` again, as the code does (`get_key(.., 1, 1)` and `get_key(.., 0, 2)` per line). It does not continue from the previous key.
- Day 9 part one adds `A × B` for a marker even when fewer than `A` characters follow it, as the code does.
- Day 22's part two panics on a grid without a wall node (more than 100T used). The model answers `None` there.
