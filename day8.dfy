/** Day 8: a 50x6 screen of pixels, all off at first, driven by three
    instructions: light a rectangle in the top left corner, rotate one row to the
    right, rotate one column down. Part one counts the lit pixels. */
module Day8 {
  import opened Wrappers
  import opened Strings

  datatype Instruction =
    | Rectangle(x: nat, y: nat)
    | RotateRow(row: nat, delta: nat)
    | RotateColumn(col: nat, delta: nat)

  // ---------------------------------------------------------------------------
  // Parsing

  /** The `AxB` argument of `rect`; only the first two pieces between `x`s are
      read, and `None` where the source panics on a missing piece or a bad number */
  function ParseRect(arg: string): (r: Option<Instruction>)
    ensures r.Some? <==> var parts := Split(arg, 'x');
              |parts| >= 2 && ParseNat(parts[0]).Some? && ParseNat(parts[1]).Some?
  {
    var parts := Split(arg, 'x');
    if |parts| < 2 then None
    else
      match (ParseNat(parts[0]), ParseNat(parts[1]))
      case (Some(x), Some(y)) => Some(Rectangle(x, y))
      case _ => None
  }

  /** `n` with every `y=` (or `x=`) removed, then read as a number */
  function ParseCoordinate(word: string, prefix: string): Option<nat>
    requires |prefix| > 0
  {
    ParseNat(RemoveAll(word, prefix))
  }

  /** The words of one line: `rect AxB`, `rotate row y=N by D` or
      `rotate column x=N by D`; `None` where the source panics */
  function ParseWords(words: seq<string>): (r: Option<Instruction>)
    ensures r.Some? ==>
              (|words| == 2 && words[0] == "rect" && r.value.Rectangle?) ||
              (|words| == 5 && words[0] == "rotate" && words[3] == "by" &&
               ((words[1] == "row" && r.value.RotateRow?) || (words[1] == "column" && r.value.RotateColumn?)))
  {
    if |words| == 2 && words[0] == "rect" then ParseRect(words[1])
    else if |words| == 5 && words[0] == "rotate" && words[1] == "row" && words[3] == "by" then
      match (ParseCoordinate(words[2], "y="), ParseNat(words[4]))
      case (Some(row), Some(delta)) => Some(RotateRow(row, delta))
      case _ => None
    else if |words| == 5 && words[0] == "rotate" && words[1] == "column" && words[3] == "by" then
      match (ParseCoordinate(words[2], "x="), ParseNat(words[4]))
      case (Some(col), Some(delta)) => Some(RotateColumn(col, delta))
      case _ => None
    else None
  }

  /** One line, trimmed and split at single spaces */
  function ParseInstruction(line: string): Option<Instruction>
  {
    ParseWords(Split(Trim(line), ' '))
  }

  /** One instruction per line of the trimmed input; `None` where the source
      panics on an unrecognised line */
  function Generator(input: string): (r: Option<seq<Instruction>>)
    ensures var lines := Lines(Trim(input));
      (r.Some? <==> forall k :: 0 <= k < |lines| ==> ParseInstruction(lines[k]).Some?) &&
      (r.Some? ==> |r.value| == |lines| &&
                   forall k :: 0 <= k < |lines| ==> ParseInstruction(lines[k]) == Some(r.value[k]))
  {
    TraverseAt(Lines(Trim(input)), ParseInstruction);
    Traverse(Lines(Trim(input)), ParseInstruction)
  }

  /** The words of an instruction as the puzzle writes them */
  function Written(i: Instruction): seq<string>
  {
    match i
    case Rectangle(x, y) => ["rect", NatToString(x) + "x" + NatToString(y)]
    case RotateRow(row, delta) => ["rotate", "row", "y=" + NatToString(row), "by", NatToString(delta)]
    case RotateColumn(col, delta) => ["rotate", "column", "x=" + NatToString(col), "by", NatToString(delta)]
  }

  /** The instruction as the puzzle writes it */
  function Format(i: Instruction): string
  {
    Join(Written(i), " ")
  }

  // ---------------------------------------------------------------------------
  // The screen as a value

  const Height: nat := 6
  const Width: nat := 50

  /** Rows top to bottom, each row left to right */
  type Screen = seq<seq<bool>>

  predicate WellFormed(g: Screen) {
    |g| == Height && forall r :: 0 <= r < Height ==> |g[r]| == Width
  }

  /** Every pixel off */
  function Blank(): (g: Screen)
    ensures WellFormed(g)
  {
    seq(Height, _ => seq(Width, _ => false))
  }

  /** The instruction indexes inside the screen; otherwise the source indexes past
      its arrays and panics. A rectangle with no rows or no columns indexes
      nothing, whatever its other side */
  predicate InBounds(i: Instruction) {
    match i
    case Rectangle(x, y) => x == 0 || y == 0 || (x <= Width && y <= Height)
    case RotateRow(row, _) => row < Height
    case RotateColumn(col, _) => col < Width
  }

  /** The effect of one instruction: a rectangle lights the top `y` rows of the
      first `x` columns; a row rotation moves the pixel at column `c` to column
      `(c + delta) mod 50`; a column rotation moves the pixel at row `r` to row
      `(r + delta) mod 6` */
  function Apply(g: Screen, i: Instruction): (h: Screen)
    requires WellFormed(g) && InBounds(i)
    ensures WellFormed(h)
  {
    match i
    case Rectangle(x, y) =>
      seq(Height, r requires 0 <= r < Height =>
        seq(Width, c requires 0 <= c < Width => (r < y && c < x) || g[r][c]))
    case RotateRow(row, delta) =>
      seq(Height, r requires 0 <= r < Height =>
        if r == row then seq(Width, c requires 0 <= c < Width => g[r][(c - delta) % Width]) else g[r])
    case RotateColumn(col, delta) =>
      seq(Height, r requires 0 <= r < Height =>
        seq(Width, c requires 0 <= c < Width => if c == col then g[(r - delta) % Height][c] else g[r][c]))
  }

  predicate AllInBounds(instrs: seq<Instruction>) {
    forall k :: 0 <= k < |instrs| ==> InBounds(instrs[k])
  }

  /** The screen after the instructions, in order, from a blank screen */
  function Run(instrs: seq<Instruction>): (g: Screen)
    requires AllInBounds(instrs)
    ensures WellFormed(g)
  {
    if |instrs| == 0 then Blank()
    else Apply(Run(instrs[..|instrs| - 1]), instrs[|instrs| - 1])
  }

  /** The number of lit pixels of a row */
  function Count(s: seq<bool>): (n: nat)
    ensures n <= |s|
  {
    if |s| == 0 then 0 else Count(s[..|s| - 1]) + (if s[|s| - 1] then 1 else 0)
  }

  /** The number of lit pixels of the first `n` rows */
  function Lit(g: Screen, n: nat): nat
    requires n <= |g|
  {
    if n == 0 then 0 else Lit(g, n - 1) + Count(g[n - 1])
  }

  /** The number of lit pixels on the screen */
  function LitPixels(g: Screen): nat
    requires WellFormed(g)
  {
    Lit(g, Height)
  }

  // ---------------------------------------------------------------------------
  // The screen as a 6x50 array

  predicate Sized(grid: array2<bool>) {
    grid.Length0 == Height && grid.Length1 == Width
  }

  /** The array read as a screen */
  function Contents(grid: array2<bool>): (g: Screen)
    requires Sized(grid)
    reads grid
    ensures WellFormed(g)
  {
    seq(Height, r requires 0 <= r < Height reads grid =>
      seq(Width, c requires 0 <= c < Width reads grid => grid[r, c]))
  }

  /** Two screens with the same pixels are the same screen */
  lemma SameScreen(g: Screen, h: Screen)
    requires WellFormed(g) && WellFormed(h)
    requires forall r, c :: 0 <= r < Height && 0 <= c < Width ==> g[r][c] == h[r][c]
    ensures g == h
  {
    forall r | 0 <= r < Height
      ensures g[r] == h[r]
    {
    }
  }

  /** `rect`: every pixel of the top left `x` by `y` block turned on */
  method FillRectangle(grid: array2<bool>, x: nat, y: nat)
    requires Sized(grid) && InBounds(Rectangle(x, y))
    modifies grid
    ensures Contents(grid) == Apply(old(Contents(grid)), Rectangle(x, y))
  {
    ghost var before := Contents(grid);
    for row := 0 to y
      invariant forall r, c :: 0 <= r < Height && 0 <= c < Width ==>
                  grid[r, c] == ((r < row && c < x) || old(grid[r, c]))
    {
      for col := 0 to x
        invariant forall r, c :: 0 <= r < Height && 0 <= c < Width ==>
                    grid[r, c] == ((r < row && c < x) || (r == row && c < col) || old(grid[r, c]))
      {
        grid[row, col] := true;
      }
    }
    SameScreen(Contents(grid), Apply(before, Rectangle(x, y)));
  }

  /** The buffer of a row rotation: pixel `i` written to slot `(i + delta + 50) mod 50` */
  method ShiftRow(current: seq<bool>, delta: nat) returns (next: array<bool>)
    requires |current| == Width
    ensures fresh(next) && next.Length == Width
    ensures forall j :: 0 <= j < Width ==> next[j] == current[(j - delta) % Width]
  {
    next := new bool[Width](_ => false);
    for i := 0 to Width
      invariant forall j :: 0 <= j < Width && (j - delta) % Width < i ==> next[j] == current[(j - delta) % Width]
    {
      assert ((i + delta + Width) % Width - delta) % Width == i by {
        RowShift(i, delta);
      }
      next[(i + delta + Width) % Width] := current[i];
    }
  }

  /** The buffer of a column rotation: pixel `i` written to slot `(i + delta + 6) mod 6` */
  method ShiftColumn(current: seq<bool>, delta: nat) returns (next: array<bool>)
    requires |current| == Height
    ensures fresh(next) && next.Length == Height
    ensures forall j :: 0 <= j < Height ==> next[j] == current[(j - delta) % Height]
  {
    next := new bool[Height](_ => false);
    for i := 0 to Height
      invariant forall j :: 0 <= j < Height && (j - delta) % Height < i ==> next[j] == current[(j - delta) % Height]
    {
      assert ((i + delta + Height) % Height - delta) % Height == i by {
        ColumnShift(i, delta);
      }
      next[(i + delta + Height) % Height] := current[i];
    }
  }

  /** `rotate row`: the row copied, shifted into a fresh buffer, and the buffer
      copied back */
  method RotateRowOf(grid: array2<bool>, row: nat, delta: nat)
    requires Sized(grid) && row < Height
    modifies grid
    ensures Contents(grid) == Apply(old(Contents(grid)), RotateRow(row, delta))
  {
    ghost var before := Contents(grid);
    var current := seq(Width, c requires 0 <= c < Width reads grid => grid[row, c]);
    var next := ShiftRow(current, delta);
    CopyRow(grid, row, next);
    forall r, c | 0 <= r < Height && 0 <= c < Width
      ensures Contents(grid)[r][c] == Apply(before, RotateRow(row, delta))[r][c]
    {
      RotateRowCell(before, row, delta, r, c);
      assert Contents(grid)[r][c] == grid[r, c];
    }
    SameScreen(Contents(grid), Apply(before, RotateRow(row, delta)));
  }

  /** A row rotation pixel by pixel */
  lemma RotateRowCell(g: Screen, row: nat, delta: nat, r: nat, c: nat)
    requires WellFormed(g) && row < Height && r < Height && c < Width
    ensures Apply(g, RotateRow(row, delta))[r][c] == if r == row then g[row][(c - delta) % Width] else g[r][c]
  {
  }

  /** The buffer copied back into row `row` */
  method CopyRow(grid: array2<bool>, row: nat, next: array<bool>)
    requires Sized(grid) && row < Height && next.Length == Width
    modifies grid
    ensures forall r, c :: 0 <= r < Height && 0 <= c < Width ==>
              grid[r, c] == if r == row then next[c] else old(grid[r, c])
  {
    for col := 0 to Width
      invariant forall r, c :: 0 <= r < Height && 0 <= c < Width ==>
                  grid[r, c] == if r == row && c < col then next[c] else old(grid[r, c])
    {
      grid[row, col] := next[col];
    }
  }

  /** `rotate column`: the column copied, shifted into a fresh buffer, and the
      buffer copied back */
  method RotateColumnOf(grid: array2<bool>, col: nat, delta: nat)
    requires Sized(grid) && col < Width
    modifies grid
    ensures Contents(grid) == Apply(old(Contents(grid)), RotateColumn(col, delta))
  {
    ghost var before := Contents(grid);
    var current := seq(Height, r requires 0 <= r < Height reads grid => grid[r, col]);
    var next := ShiftColumn(current, delta);
    CopyColumn(grid, col, next);
    forall r, c | 0 <= r < Height && 0 <= c < Width
      ensures Contents(grid)[r][c] == Apply(before, RotateColumn(col, delta))[r][c]
    {
      RotateColumnCell(before, col, delta, r, c);
      assert Contents(grid)[r][c] == grid[r, c];
    }
    SameScreen(Contents(grid), Apply(before, RotateColumn(col, delta)));
  }

  /** A column rotation pixel by pixel */
  lemma RotateColumnCell(g: Screen, col: nat, delta: nat, r: nat, c: nat)
    requires WellFormed(g) && col < Width && r < Height && c < Width
    ensures Apply(g, RotateColumn(col, delta))[r][c] == if c == col then g[(r - delta) % Height][col] else g[r][c]
  {
    var h := Apply(g, RotateColumn(col, delta));
    assert h[r] == seq(Width, c' requires 0 <= c' < Width => if c' == col then g[(r - delta) % Height][c'] else g[r][c']);
  }

  /** The buffer copied back into column `col` */
  method CopyColumn(grid: array2<bool>, col: nat, next: array<bool>)
    requires Sized(grid) && col < Width && next.Length == Height
    modifies grid
    ensures forall r, c :: 0 <= r < Height && 0 <= c < Width ==>
              grid[r, c] == if c == col then next[r] else old(grid[r, c])
  {
    for row := 0 to Height
      invariant forall r, c :: 0 <= r < Height && 0 <= c < Width ==>
                  grid[r, c] == if c == col && r < row then next[r] else old(grid[r, c])
    {
      grid[row, col] := next[row];
    }
  }

  /** Moving `delta` places forward and back again, modulo the row length; a
      multiple of the length moves nothing */
  lemma RowShift(i: nat, delta: nat)
    requires i < Width
    ensures ((i + delta + Width) % Width - delta) % Width == i
    ensures ((i + delta) % Width - delta) % Width == i
    ensures delta % Width == 0 ==> (i - delta) % Width == i
  {
    var q, k := delta / Width, delta % Width;
    assert delta == q * Width + k;
    if i + k < Width {
      assert (i + delta) % Width == i + k;
      assert (i + delta + Width) % Width == i + k;
      assert i + k - delta == i - q * Width;
    } else {
      assert (i + delta) % Width == i + k - Width;
      assert (i + delta + Width) % Width == i + k - Width;
      assert i + k - Width - delta == i - (q + 1) * Width;
    }
  }

  /** The same modulo the column length */
  lemma ColumnShift(i: nat, delta: nat)
    requires i < Height
    ensures ((i + delta + Height) % Height - delta) % Height == i
    ensures ((i + delta) % Height - delta) % Height == i
    ensures delta % Height == 0 ==> (i - delta) % Height == i
  {
    var q, k := delta / Height, delta % Height;
    assert delta == q * Height + k;
    if i + k < Height {
      assert (i + delta) % Height == i + k;
      assert (i + delta + Height) % Height == i + k;
      assert i + k - delta == i - q * Height;
    } else {
      assert (i + delta) % Height == i + k - Height;
      assert (i + delta + Height) % Height == i + k - Height;
      assert i + k - Height - delta == i - (q + 1) * Height;
    }
  }

  /** One instruction applied to the array */
  method Execute(grid: array2<bool>, i: Instruction)
    requires Sized(grid) && InBounds(i)
    modifies grid
    ensures Contents(grid) == Apply(old(Contents(grid)), i)
  {
    match i {
      case Rectangle(x, y) =>
        FillRectangle(grid, x, y);
      case RotateRow(row, delta) =>
        RotateRowOf(grid, row, delta);
      case RotateColumn(col, delta) =>
        RotateColumnOf(grid, col, delta);
    }
  }

  /** `build_grid`: the instructions run in order on a blank array */
  method BuildGrid(instrs: seq<Instruction>) returns (grid: array2<bool>)
    requires AllInBounds(instrs)
    ensures fresh(grid) && Sized(grid)
    ensures Contents(grid) == Run(instrs)
  {
    grid := new bool[Height, Width]((_, _) => false);
    SameScreen(Contents(grid), Blank());
    for k := 0 to |instrs|
      invariant Contents(grid) == Run(instrs[..k])
    {
      assert instrs[..k + 1][..k] == instrs[..k];
      Execute(grid, instrs[k]);
    }
    assert instrs[..|instrs|] == instrs;
  }

  /** Part one: the number of lit pixels after all the instructions */
  method Part1(instrs: seq<Instruction>) returns (lit: nat)
    requires AllInBounds(instrs)
    ensures lit == LitPixels(Run(instrs))
    ensures lit <= Height * Width
  {
    var grid := BuildGrid(instrs);
    LitBound(Contents(grid), Height);
    lit := LitPixels(Contents(grid));
  }

  // ---------------------------------------------------------------------------
  // Properties

  /** At most one lit pixel per cell */
  lemma {:induction false} LitBound(g: Screen, n: nat)
    requires WellFormed(g) && n <= Height
    ensures Lit(g, n) <= n * Width
  {
    if n > 0 {
      LitBound(g, n - 1);
    }
  }

  /** A row rotation moves the pixel at column `c` to column `(c + delta) mod 50` */
  lemma RotateRowMoves(g: Screen, row: nat, delta: nat, c: nat)
    requires WellFormed(g) && row < Height && c < Width
    ensures Apply(g, RotateRow(row, delta))[row][(c + delta) % Width] == g[row][c]
  {
    var j := (c + delta) % Width;
    assert (j - delta) % Width == c by {
      RowShift(c, delta);
    }
    RotateRowCell(g, row, delta, row, j);
  }

  /** A column rotation moves the pixel at row `r` to row `(r + delta) mod 6` */
  lemma RotateColumnMoves(g: Screen, col: nat, delta: nat, r: nat)
    requires WellFormed(g) && col < Width && r < Height
    ensures Apply(g, RotateColumn(col, delta))[(r + delta) % Height][col] == g[r][col]
  {
    var j := (r + delta) % Height;
    assert (j - delta) % Height == r by {
      ColumnShift(r, delta);
    }
    RotateColumnCell(g, col, delta, j, col);
  }

  /** Rotating a row by a multiple of its length changes nothing */
  lemma FullRowTurn(g: Screen, row: nat, delta: nat)
    requires WellFormed(g) && row < Height && delta % Width == 0
    ensures Apply(g, RotateRow(row, delta)) == g
  {
    forall r, c | 0 <= r < Height && 0 <= c < Width
      ensures Apply(g, RotateRow(row, delta))[r][c] == g[r][c]
    {
      assert (c - delta) % Width == c by {
        RowShift(c, delta);
      }
      RotateRowCell(g, row, delta, r, c);
    }
    SameScreen(Apply(g, RotateRow(row, delta)), g);
  }

  /** Rotating a column by a multiple of its length changes nothing */
  lemma FullColumnTurn(g: Screen, col: nat, delta: nat)
    requires WellFormed(g) && col < Width && delta % Height == 0
    ensures Apply(g, RotateColumn(col, delta)) == g
  {
    forall r, c | 0 <= r < Height && 0 <= c < Width
      ensures Apply(g, RotateColumn(col, delta))[r][c] == g[r][c]
    {
      assert (r - delta) % Height == r by {
        ColumnShift(r, delta);
      }
      RotateColumnCell(g, col, delta, r, c);
    }
    SameScreen(Apply(g, RotateColumn(col, delta)), g);
  }

  /** Lighting the same rectangle twice is lighting it once */
  lemma RectangleIdempotent(g: Screen, x: nat, y: nat)
    requires WellFormed(g) && InBounds(Rectangle(x, y))
    ensures var once := Apply(g, Rectangle(x, y));
            Apply(once, Rectangle(x, y)) == once
  {
    var once := Apply(g, Rectangle(x, y));
    SameScreen(Apply(once, Rectangle(x, y)), once);
  }

  /** Rectangles can be lit in either order */
  lemma RectanglesCommute(g: Screen, a: nat, b: nat, x: nat, y: nat)
    requires WellFormed(g) && InBounds(Rectangle(a, b)) && InBounds(Rectangle(x, y))
    ensures Apply(Apply(g, Rectangle(a, b)), Rectangle(x, y)) ==
            Apply(Apply(g, Rectangle(x, y)), Rectangle(a, b))
  {
    SameScreen(Apply(Apply(g, Rectangle(a, b)), Rectangle(x, y)),
               Apply(Apply(g, Rectangle(x, y)), Rectangle(a, b)));
  }

  // Counting lit pixels

  lemma {:induction false} CountConcat(a: seq<bool>, b: seq<bool>)
    ensures Count(a + b) == Count(a) + Count(b)
    decreases |b|
  {
    if |b| > 0 {
      var b' := b[..|b| - 1];
      CountConcat(a, b');
      assert (a + b)[..|a + b| - 1] == a + b';
      assert (a + b)[|a + b| - 1] == b[|b| - 1];
    } else {
      assert a + b == a;
    }
  }

  /** Swapping the two halves of a row keeps its count */
  lemma CountSwapped(s: seq<bool>, k: nat)
    requires k <= |s|
    ensures Count(s[k..] + s[..k]) == Count(s)
  {
    CountConcat(s[k..], s[..k]);
    CountConcat(s[..k], s[k..]);
    assert s[..k] + s[k..] == s;
  }

  /** Setting one pixel of a row changes its count by the difference */
  lemma CountSet(s: seq<bool>, c: nat, v: bool)
    requires c < |s|
    ensures Count(s[c := v]) + (if s[c] then 1 else 0) == Count(s) + (if v then 1 else 0)
  {
    assert s[c := v] == s[..c] + [v] + s[c + 1..];
    assert s == s[..c] + [s[c]] + s[c + 1..];
    CountConcat(s[..c] + [v], s[c + 1..]);
    CountConcat(s[..c], [v]);
    CountConcat(s[..c] + [s[c]], s[c + 1..]);
    CountConcat(s[..c], [s[c]]);
  }

  /** A rotated row is its two halves swapped */
  lemma RowRotationSwaps(s: seq<bool>, t: seq<bool>, delta: nat)
    requires |s| == Width && |t| == Width
    requires forall c :: 0 <= c < Width ==> t[c] == s[(c - delta) % Width]
    ensures var k := Width - delta % Width; t == s[k..] + s[..k]
  {
  }

  /** A rotated column is its two halves swapped */
  lemma ColumnRotationSwaps(s: seq<bool>, t: seq<bool>, delta: nat)
    requires |s| == Height && |t| == Height
    requires forall r :: 0 <= r < Height ==> t[r] == s[(r - delta) % Height]
    ensures var k := Height - delta % Height; t == s[k..] + s[..k]
  {
  }

  /** Replacing one row by a row with as many lit pixels keeps the total */
  lemma {:induction false} LitReplaceRow(g: Screen, row: nat, t: seq<bool>, n: nat)
    requires row < |g| && n <= |g| && Count(t) == Count(g[row])
    ensures Lit(g[row := t], n) == Lit(g, n)
  {
    if n > 0 {
      LitReplaceRow(g, row, t, n - 1);
    }
  }

  /** A row rotation keeps the number of lit pixels */
  lemma RotateRowKeepsLit(g: Screen, row: nat, delta: nat)
    requires WellFormed(g) && row < Height
    ensures LitPixels(Apply(g, RotateRow(row, delta))) == LitPixels(g)
  {
    var t := seq(Width, c requires 0 <= c < Width => g[row][(c - delta) % Width]);
    assert Apply(g, RotateRow(row, delta)) == g[row := t];
    RowRotationSwaps(g[row], t, delta);
    CountSwapped(g[row], Width - delta % Width);
    LitReplaceRow(g, row, t, Height);
  }

  /** The pixels of column `col`, top to bottom */
  function ColumnOf(g: Screen, col: nat): (s: seq<bool>)
    requires WellFormed(g) && col < Width
    ensures |s| == Height
  {
    seq(Height, r requires 0 <= r < Height => g[r][col])
  }

  /** Changing only column `col`: the totals differ by the two columns' counts */
  lemma {:induction false} LitReplaceColumn(g: Screen, h: Screen, col: nat, n: nat)
    requires WellFormed(g) && WellFormed(h) && col < Width && n <= Height
    requires forall r :: 0 <= r < Height ==> h[r] == g[r][col := h[r][col]]
    ensures Lit(h, n) + Count(ColumnOf(g, col)[..n]) == Lit(g, n) + Count(ColumnOf(h, col)[..n])
  {
    if n > 0 {
      LitReplaceColumn(g, h, col, n - 1);
      CountSet(g[n - 1], col, h[n - 1][col]);
      assert ColumnOf(g, col)[..n][..n - 1] == ColumnOf(g, col)[..n - 1];
      assert ColumnOf(h, col)[..n][..n - 1] == ColumnOf(h, col)[..n - 1];
    }
  }

  /** A column rotation changes only column `col`, which becomes the old column rotated */
  lemma ColumnRotationShape(g: Screen, col: nat, delta: nat)
    requires WellFormed(g) && col < Width
    ensures var h := Apply(g, RotateColumn(col, delta));
            (forall r :: 0 <= r < Height ==> h[r] == g[r][col := h[r][col]]) &&
            (forall r :: 0 <= r < Height ==> ColumnOf(h, col)[r] == ColumnOf(g, col)[(r - delta) % Height])
  {
    var h := Apply(g, RotateColumn(col, delta));
    forall r | 0 <= r < Height
      ensures h[r] == g[r][col := h[r][col]]
    {
      forall c | 0 <= c < Width
        ensures h[r][c] == g[r][col := h[r][col]][c]
      {
        RotateColumnCell(g, col, delta, r, c);
      }
    }
    forall r | 0 <= r < Height
      ensures ColumnOf(h, col)[r] == ColumnOf(g, col)[(r - delta) % Height]
    {
      RotateColumnCell(g, col, delta, r, col);
    }
  }

  /** A column rotation keeps the number of lit pixels */
  lemma RotateColumnKeepsLit(g: Screen, col: nat, delta: nat)
    requires WellFormed(g) && col < Width
    ensures LitPixels(Apply(g, RotateColumn(col, delta))) == LitPixels(g)
  {
    var h := Apply(g, RotateColumn(col, delta));
    var s := ColumnOf(g, col);
    ColumnRotationShape(g, col, delta);
    ColumnRotationSwaps(s, ColumnOf(h, col), delta);
    CountSwapped(s, Height - delta % Height);
    ColumnChangeKeepsLit(g, h, col);
  }

  /** Changing only column `col`, keeping its count, keeps the total */
  lemma ColumnChangeKeepsLit(g: Screen, h: Screen, col: nat)
    requires WellFormed(g) && WellFormed(h) && col < Width
    requires forall r :: 0 <= r < Height ==> h[r] == g[r][col := h[r][col]]
    requires Count(ColumnOf(h, col)) == Count(ColumnOf(g, col))
    ensures LitPixels(h) == LitPixels(g)
  {
    LitReplaceColumn(g, h, col, Height);
    assert ColumnOf(g, col)[..Height] == ColumnOf(g, col);
    assert ColumnOf(h, col)[..Height] == ColumnOf(h, col);
  }

  /** A rectangle never turns a pixel off, so it never lowers the count */
  lemma {:induction false} RectangleRaisesLit(g: Screen, x: nat, y: nat, n: nat)
    requires WellFormed(g) && InBounds(Rectangle(x, y)) && n <= Height
    ensures Lit(g, n) <= Lit(Apply(g, Rectangle(x, y)), n)
  {
    if n > 0 {
      RectangleRaisesLit(g, x, y, n - 1);
      CountMonotone(g[n - 1], Apply(g, Rectangle(x, y))[n - 1]);
    }
  }

  /** A row lit wherever another is lit has at least its count */
  lemma {:induction false} CountMonotone(s: seq<bool>, t: seq<bool>)
    requires |s| == |t| && forall c :: 0 <= c < |s| && s[c] ==> t[c]
    ensures Count(s) <= Count(t)
  {
    if |s| > 0 {
      CountMonotone(s[..|s| - 1], t[..|t| - 1]);
    }
  }

  /** A row whose first `x` pixels are lit and the rest off counts `x` */
  lemma {:induction false} CountPrefixLit(s: seq<bool>, x: nat)
    requires x <= |s| && forall c :: 0 <= c < |s| ==> s[c] == (c < x)
    ensures Count(s) == x
  {
    if |s| > x {
      CountPrefixLit(s[..|s| - 1], x);
    } else if |s| > 0 {
      CountPrefixLit(s[..|s| - 1], x - 1);
    }
  }

  /** A screen lit exactly on the top left `x` by `y` block counts `x` per row of
      the block */
  lemma {:induction false} BlockLit(g: Screen, x: nat, y: nat, n: nat)
    requires WellFormed(g) && x <= Width && y <= Height && n <= Height
    requires forall r, c :: 0 <= r < Height && 0 <= c < Width ==> g[r][c] == (r < y && c < x)
    ensures Lit(g, n) == (if n < y then n else y) * x
  {
    if n > 0 {
      BlockLit(g, x, y, n - 1);
      if n - 1 < y {
        CountPrefixLit(g[n - 1], x);
      } else {
        CountPrefixLit(g[n - 1], 0);
      }
    }
  }

  /** The first rectangle on a blank screen lights exactly `x * y` pixels */
  lemma RectangleOnBlank(x: nat, y: nat)
    requires InBounds(Rectangle(x, y))
    ensures LitPixels(Apply(Blank(), Rectangle(x, y))) == x * y
  {
    if x == 0 || y == 0 {
      EmptyRectangle(Blank(), x, y);
      BlockLit(Blank(), 0, 0, Height);
    } else {
      BlockLit(Apply(Blank(), Rectangle(x, y)), x, y, Height);
    }
  }

  /** A rectangle with no rows or no columns changes nothing, however far its
      other side reaches */
  lemma EmptyRectangle(g: Screen, x: nat, y: nat)
    requires WellFormed(g) && (x == 0 || y == 0)
    ensures Apply(g, Rectangle(x, y)) == g
  {
    SameScreen(Apply(g, Rectangle(x, y)), g);
  }

  /** The words of an instruction are non-empty and free of spaces and line feeds */
  lemma WordsShape(i: Instruction)
    ensures |Written(i)| >= 1 && forall k :: 0 <= k < |Written(i)| ==> |Written(i)[k]| > 0
    ensures forall k, j :: 0 <= k < |Written(i)| && 0 <= j < |Written(i)[k]| ==>
              Written(i)[k][j] != ' ' && Written(i)[k][j] != '\n'
    ensures Written(i)[0][0] == 'r'
    ensures var last := Written(i)[|Written(i)| - 1]; IsDigit(last[|last| - 1])
  {
  }

  /** The written form starts with `r`, ends with a digit and has no line feed */
  lemma FormatShape(i: Instruction)
    ensures |Format(i)| > 0 && Format(i)[0] == 'r' && IsDigit(Format(i)[|Format(i)| - 1])
    ensures forall j :: 0 <= j < |Format(i)| ==> Format(i)[j] != '\n'
  {
    WordsShape(i);
    JoinEnds(Written(i), " ");
    JoinAvoids(Written(i), " ", '\n');
  }

  /** Reading a coordinate written after its prefix gives the number back */
  lemma ParseCoordinateFormat(prefix: string, n: nat)
    requires |prefix| > 0 && !IsDigit(prefix[0])
    ensures ParseCoordinate(prefix + NatToString(n), prefix) == Some(n)
  {
    RemoveAbsent(NatToString(n), prefix);
    RemovePrefix(prefix, NatToString(n));
    ParseNatToString(n);
  }

  /** Reading the words of an instruction gives the instruction back */
  lemma ParseWordsOf(i: Instruction)
    ensures ParseWords(Written(i)) == Some(i)
  {
    match i
    case Rectangle(x, y) => ParseRectangleWords(x, y);
    case RotateRow(row, delta) => ParseRowWords(row, delta);
    case RotateColumn(col, delta) => ParseColumnWords(col, delta);
  }

  lemma ParseRectangleWords(x: nat, y: nat)
    ensures ParseWords(Written(Rectangle(x, y))) == Some(Rectangle(x, y))
  {
    var a, b := NatToString(x), NatToString(y);
    assert Join([a, b], "x") == a + "x" + b;
    SplitJoin([a, b], 'x');
    ParseNatToString(x);
    ParseNatToString(y);
  }

  lemma ParseRowWords(row: nat, delta: nat)
    ensures ParseWords(Written(RotateRow(row, delta))) == Some(RotateRow(row, delta))
  {
    ParseCoordinateFormat("y=", row);
    ParseNatToString(delta);
  }

  lemma ParseColumnWords(col: nat, delta: nat)
    ensures ParseWords(Written(RotateColumn(col, delta))) == Some(RotateColumn(col, delta))
  {
    ParseCoordinateFormat("x=", col);
    ParseNatToString(delta);
  }

  /** Parsing the written form of an instruction gives the instruction back */
  lemma ParseFormat(i: Instruction)
    ensures ParseInstruction(Format(i)) == Some(i)
  {
    FormatShape(i);
    TrimUnchanged(Format(i));
    WordsShape(i);
    SplitJoin(Written(i), ' ');
    ParseWordsOf(i);
  }

  /** A one-line input holding the written form of an instruction parses to that
      instruction alone */
  lemma GeneratorFormat(i: Instruction)
    ensures Generator(Format(i)) == Some([i])
  {
    var line := Format(i);
    FormatShape(i);
    TrimUnchanged(line);
    SingleLine(line);
    ParseFormat(i);
    var lines := Lines(Trim(line));
    assert lines == [line];
    var r := Generator(line);
    assert r.Some? && |r.value| == 1;
    assert ParseInstruction(lines[0]) == Some(r.value[0]);
    assert r.value == [i];
  }

  /** How the three instructions of the generator's regression test are written */
  lemma FormatRectangleExample()
    ensures Format(Rectangle(1, 2)) == "rect 1x2"
  {
    assert NatToString(1) == "1" && NatToString(2) == "2";
    assert NatToString(1) + "x" + NatToString(2) == "1x2";
    assert Written(Rectangle(1, 2)) == ["rect", "1x2"];
  }

  lemma FormatRowExample()
    ensures Format(RotateRow(1, 5)) == "rotate row y=1 by 5"
  {
    WrittenRowExample();
    JoinFive("rotate", "row", "y=1", "by", "5");
  }

  lemma WrittenRowExample()
    ensures Written(RotateRow(1, 5)) == ["rotate", "row", "y=1", "by", "5"]
  {
    assert NatToString(1) == "1" && NatToString(5) == "5";
    assert "y=" + NatToString(1) == "y=1";
  }

  lemma FormatColumnExample()
    ensures Format(RotateColumn(30, 1)) == "rotate column x=30 by 1"
  {
    WrittenColumnExample();
    JoinFive("rotate", "column", "x=30", "by", "1");
  }

  lemma WrittenColumnExample()
    ensures Written(RotateColumn(30, 1)) == ["rotate", "column", "x=30", "by", "1"]
  {
    assert NatToString(30) == "30" && NatToString(1) == "1";
    assert "x=" + NatToString(30) == "x=30";
  }

  /** Five words joined with single spaces */
  lemma JoinFive(a: string, b: string, c: string, d: string, e: string)
    ensures Join([a, b, c, d, e], " ") == a + " " + b + " " + c + " " + d + " " + e
  {
    assert [d, e][1..] == [e];
    assert Join([d, e], " ") == d + " " + e;
    assert [c, d, e][1..] == [d, e];
    assert Join([c, d, e], " ") == c + " " + (d + " " + e);
    assert [b, c, d, e][1..] == [c, d, e];
    assert Join([b, c, d, e], " ") == b + " " + (c + " " + (d + " " + e));
    assert [a, b, c, d, e][1..] == [b, c, d, e];
  }

  /** The three instructions of the generator's regression test */
  lemma GeneratorExamples()
    ensures Generator("rect 1x2") == Some([Rectangle(1, 2)])
    ensures Generator("rotate row y=1 by 5") == Some([RotateRow(1, 5)])
    ensures Generator("rotate column x=30 by 1") == Some([RotateColumn(30, 1)])
  {
    FormatRectangleExample();
    FormatRowExample();
    FormatColumnExample();
    GeneratorFormat(Rectangle(1, 2));
    GeneratorFormat(RotateRow(1, 5));
    GeneratorFormat(RotateColumn(30, 1));
  }
}
