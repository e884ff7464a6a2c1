/** Day 22: a grid of storage nodes, one `df` line each. Part one counts the
    viable pairs: ordered pairs of nodes at different coordinates where the
    first holds some data and all of it fits into the free space of the second.
    Part two is a closed formula for the moves that bring the data in the top
    right corner to the top left, steering the one empty node round a wall of
    oversized nodes. */
module Day22 {
  import opened Wrappers
  import opened Strings
  import opened Lib

  datatype DiskNode = DiskNode(x: nat, y: nat, size: nat, used: nat, available: nat, percent: nat)

  // ---------------------------------------------------------------------------
  // The line grammar, as parser combinators: each one gives the value it read
  // and the rest of the input, or `None` when the input does not match

  /** `tag(t)`: the literal text */
  function Tag(s: string, t: string): (r: Option<string>)
    ensures r.Some? <==> t <= s
    ensures r.Some? ==> s == t + r.value
  {
    if t <= s then Some(s[|t|..]) else None
  }

  /** The length of the leading run of ASCII digits */
  function DigitRun(s: string): (n: nat)
    ensures n <= |s| && AllDigits(s[..n])
    ensures n < |s| ==> !IsDigit(s[n])
  {
    if |s| == 0 || !IsDigit(s[0]) then 0
    else
      var n := 1 + DigitRun(s[1..]);
      assert s[..n] == [s[0]] + s[1..][..n - 1];
      n
  }

  /** `digit1` then `parse().unwrap()`: at least one digit, as a number */
  function Digit1(s: string): Option<(nat, string)>
  {
    var n := DigitRun(s);
    if n == 0 then None
    else
      match DigitsOf(s[..n])
      case Some(v) => Some((v, s[n..]))
      case None => None
  }

  predicate IsSpace(c: char) {
    c == ' ' || c == '\t'
  }

  /** The length of the leading run of spaces and tabs */
  function SpaceRun(s: string): (n: nat)
    ensures n <= |s| && forall i :: 0 <= i < n ==> IsSpace(s[i])
    ensures n < |s| ==> !IsSpace(s[n])
  {
    if |s| == 0 || !IsSpace(s[0]) then 0 else 1 + SpaceRun(s[1..])
  }

  /** `space1`: at least one space or tab */
  function Space1(s: string): Option<string>
  {
    var n := SpaceRun(s);
    if n == 0 then None else Some(s[n..])
  }

  /** `preceded(space1, terminated(digit1, tag(unit)))` */
  function Field(s: string, unit: string): Option<(nat, string)>
  {
    match Space1(s)
    case None => None
    case Some(s1) =>
      match Digit1(s1)
      case None => None
      case Some((v, s2)) =>
        match Tag(s2, unit)
        case None => None
        case Some(s3) => Some((v, s3))
  }

  /** `parse`: `/dev/grid/node-x`, the x digits, `-y`, the y digits, then the
      size, used and available amounts in `T` and the use in `%`, each after
      spaces; the node and the unconsumed rest of the line */
  function ParseNode(s: string): Option<(string, DiskNode)>
  {
    match Tag(s, "/dev/grid/node-x")
    case None => None
    case Some(s1) =>
      match Digit1(s1)
      case None => None
      case Some((x, s2)) =>
        match Tag(s2, "-y")
        case None => None
        case Some(s3) =>
          match Digit1(s3)
          case None => None
          case Some((y, s4)) =>
            match Field(s4, "T")
            case None => None
            case Some((size, s5)) =>
              match Field(s5, "T")
              case None => None
              case Some((used, s6)) =>
                match Field(s6, "T")
                case None => None
                case Some((available, s7)) =>
                  match Field(s7, "%")
                  case None => None
                  case Some((percent, s8)) => Some((s8, DiskNode(x, y, size, used, available, percent)))
  }

  /** `parse(line).unwrap().1`: the node, or a panic */
  function NodeOf(line: string): Option<DiskNode>
  {
    match ParseNode(line)
    case Some((_, node)) => Some(node)
    case None => None
  }

  /** The lines after the first two (the command and the column headings) */
  function Body(input: string): seq<string>
  {
    var lines := Lines(Trim(input));
    if |lines| <= 2 then [] else lines[2..]
  }

  /** `generator`: each line of the body parsed, a failure being a panic */
  function Generator(input: string): (r: Option<seq<DiskNode>>)
    ensures var body := Body(input);
      (r.Some? <==> forall k :: 0 <= k < |body| ==> NodeOf(body[k]).Some?) &&
      (r.Some? ==> |r.value| == |body| && forall k :: 0 <= k < |body| ==> NodeOf(body[k]) == Some(r.value[k]))
  {
    TraverseAt(Body(input), NodeOf);
    Traverse(Body(input), NodeOf)
  }

  // ---------------------------------------------------------------------------
  // The grammar reads back what it describes

  /** Spaces or tabs, at least one */
  predicate IsPadding(p: string) {
    |p| > 0 && forall i :: 0 <= i < |p| ==> IsSpace(p[i])
  }

  /** One amount with its padding and unit, followed by `rest` */
  function FieldText(pad: string, v: nat, unit: string, rest: string): string
  {
    pad + (NatToString(v) + (unit + rest))
  }

  /** The `df` line of a node, with the given paddings before the four amounts,
      followed by `rest` */
  function Line(n: DiskNode, pads: seq<string>, rest: string): string
    requires |pads| == 4
  {
    "/dev/grid/node-x" + (NatToString(n.x) + ("-y" + (NatToString(n.y) +
      FieldText(pads[0], n.size, "T", FieldText(pads[1], n.used, "T",
        FieldText(pads[2], n.available, "T", FieldText(pads[3], n.percent, "%", rest)))))))
  }

  lemma TagOf(t: string, rest: string)
    ensures Tag(t + rest, t) == Some(rest)
  {
    assert t <= t + rest;
    assert (t + rest)[|t|..] == rest;
  }

  lemma {:induction false} DigitRunOf(d: string, t: string)
    requires AllDigits(d)
    requires |t| == 0 || !IsDigit(t[0])
    ensures DigitRun(d + t) == |d|
  {
    if |d| > 0 {
      DigitRunOf(d[1..], t);
      assert (d + t)[1..] == d[1..] + t;
    }
  }

  /** A printed number is read back, up to the next non-digit */
  lemma Digit1Of(v: nat, t: string)
    requires |t| == 0 || !IsDigit(t[0])
    ensures Digit1(NatToString(v) + t) == Some((v, t))
  {
    var d := NatToString(v);
    DigitRunOf(d, t);
    assert (d + t)[..|d|] == d;
    assert (d + t)[|d|..] == t;
    DigitsOfNatToString(v);
  }

  lemma {:induction false} SpaceRunOf(p: string, t: string)
    requires forall i :: 0 <= i < |p| ==> IsSpace(p[i])
    requires |t| == 0 || !IsSpace(t[0])
    ensures SpaceRun(p + t) == |p|
  {
    if |p| > 0 {
      SpaceRunOf(p[1..], t);
      assert (p + t)[1..] == p[1..] + t;
    }
  }

  /** One padded amount with its unit is read back */
  lemma FieldOf(pad: string, v: nat, unit: string, rest: string)
    requires IsPadding(pad)
    requires |unit| > 0 && !IsDigit(unit[0])
    ensures Field(FieldText(pad, v, unit, rest), unit) == Some((v, rest))
  {
    var d := NatToString(v);
    var after := d + (unit + rest);
    SpaceRunOf(pad, after);
    assert (pad + after)[|pad|..] == after;
    Digit1Of(v, unit + rest);
    TagOf(unit, rest);
  }

  /** A node's line reads back as that node, whatever follows it */
  lemma ParseLine(n: DiskNode, pads: seq<string>, rest: string)
    requires |pads| == 4 && forall k :: 0 <= k < 4 ==> IsPadding(pads[k])
    ensures ParseNode(Line(n, pads, rest)) == Some((rest, n))
  {
    var f4 := FieldText(pads[3], n.percent, "%", rest);
    var f3 := FieldText(pads[2], n.available, "T", f4);
    var f2 := FieldText(pads[1], n.used, "T", f3);
    var f1 := FieldText(pads[0], n.size, "T", f2);
    TagOf("/dev/grid/node-x", NatToString(n.x) + ("-y" + (NatToString(n.y) + f1)));
    Digit1Of(n.x, "-y" + (NatToString(n.y) + f1));
    TagOf("-y", NatToString(n.y) + f1);
    assert pads[0][0] == f1[0];
    Digit1Of(n.y, f1);
    FieldOf(pads[0], n.size, "T", f2);
    FieldOf(pads[1], n.used, "T", f3);
    FieldOf(pads[2], n.available, "T", f4);
    FieldOf(pads[3], n.percent, "%", rest);
  }

  // ---------------------------------------------------------------------------
  // Part one

  /** The two filters of part one: different coordinates, and the first node's
      data is there and fits into the second's free space */
  predicate Viable(p: (DiskNode, DiskNode)) {
    (p.0.x != p.1.x || p.0.y != p.1.y) && p.0.used > 0 && p.0.used <= p.1.available
  }

  /** The pairs of `a` with each node in turn */
  function Row(a: DiskNode, nodes: seq<DiskNode>): (r: seq<(DiskNode, DiskNode)>)
    ensures |r| == |nodes| && forall j :: 0 <= j < |nodes| ==> r[j] == (a, nodes[j])
  {
    seq(|nodes|, j requires 0 <= j < |nodes| => (a, nodes[j]))
  }

  /** `xs.iter().cartesian_product(ys.iter())`: rows in the order of `xs` */
  function Product(xs: seq<DiskNode>, ys: seq<DiskNode>): seq<(DiskNode, DiskNode)>
    decreases |xs|
  {
    if |xs| == 0 then [] else Row(xs[0], ys) + Product(xs[1..], ys)
  }

  /** `part1`: the viable pairs among all ordered pairs */
  function Part1(nodes: seq<DiskNode>): nat
  {
    CountWhere(Product(nodes, nodes), Viable)
  }

  /** One more node of the outer sequence adds its row at the end */
  lemma {:induction false} ProductSnoc(xs: seq<DiskNode>, x: DiskNode, ys: seq<DiskNode>)
    ensures Product(xs + [x], ys) == Product(xs, ys) + Row(x, ys)
    decreases |xs|
  {
    if |xs| == 0 {
      assert Product([x], ys) == Row(x, ys) + Product([], ys);
    } else {
      ProductSnoc(xs[1..], x, ys);
      assert (xs + [x])[1..] == xs[1..] + [x];
    }
  }

  /** The nested loops of the explicit version of part one (kept in the source as
      a comment): skip equal coordinates, then count the pairs that fit. They
      count the same pairs as the iterator chain. */
  method Part1Loops(nodes: seq<DiskNode>) returns (count: nat)
    ensures count == Part1(nodes)
  {
    count := 0;
    for i := 0 to |nodes|
      invariant count == CountWhere(Product(nodes[..i], nodes), Viable)
    {
      var a := nodes[i];
      for j := 0 to |nodes|
        invariant count == CountWhere(Product(nodes[..i], nodes), Viable) + CountWhere(Row(a, nodes[..j]), Viable)
      {
        var b := nodes[j];
        assert Row(a, nodes[..j + 1]) == Row(a, nodes[..j]) + [(a, b)];
        CountWhereConcat(Row(a, nodes[..j]), [(a, b)], Viable);
        if a.x == b.x && a.y == b.y {
          continue;
        }
        if a.used > 0 && a.used <= b.available {
          count := count + 1;
        }
      }
      assert nodes[..|nodes|] == nodes;
      assert nodes[..i + 1] == nodes[..i] + [a];
      ProductSnoc(nodes[..i], a, nodes);
      CountWhereConcat(Product(nodes[..i], nodes), Row(a, nodes), Viable);
    }
    assert nodes[..|nodes|] == nodes;
  }

  /** A node is never viable with itself, so its row counts at most n - 1 */
  lemma RowBound(a: DiskNode, ys: seq<DiskNode>)
    requires a in ys
    ensures CountWhere(Row(a, ys), Viable) <= |ys| - 1
  {
    var k :| 0 <= k < |ys| && ys[k] == a;
    assert !Viable(Row(a, ys)[k]);
    CountWhereAll(Row(a, ys), Viable);
  }

  lemma {:induction false} ProductBound(xs: seq<DiskNode>, ys: seq<DiskNode>)
    requires forall k :: 0 <= k < |xs| ==> xs[k] in ys
    ensures CountWhere(Product(xs, ys), Viable) <= |xs| * (|ys| - 1)
    decreases |xs|
  {
    if |xs| > 0 {
      RowBound(xs[0], ys);
      ProductBound(xs[1..], ys);
      CountWhereConcat(Row(xs[0], ys), Product(xs[1..], ys), Viable);
      assert (|xs| - 1) * (|ys| - 1) + (|ys| - 1) == |xs| * (|ys| - 1);
    }
  }

  /** At most n(n - 1) pairs are viable */
  lemma Part1Bound(nodes: seq<DiskNode>)
    ensures Part1(nodes) <= |nodes| * (|nodes| - 1)
  {
    ProductBound(nodes, nodes);
  }

  // ---------------------------------------------------------------------------
  // Part two

  /** `map(|x| x.x).max().unwrap()`: the largest x */
  function MaxX(nodes: seq<DiskNode>): (r: nat)
    requires |nodes| > 0
    ensures forall k :: 0 <= k < |nodes| ==> nodes[k].x <= r
    ensures exists k :: 0 <= k < |nodes| && nodes[k].x == r
  {
    if |nodes| == 1 then nodes[0].x
    else
      var m := MaxX(nodes[1..]);
      assert forall k :: 1 <= k < |nodes| ==> nodes[k] == nodes[1..][k - 1];
      if nodes[0].x >= m then nodes[0].x else m
  }

  /** `find_position(|n| n.used == 0)`: the first empty node */
  function FirstEmpty(nodes: seq<DiskNode>): (r: Option<nat>)
    ensures r.Some? <==> exists k :: 0 <= k < |nodes| && nodes[k].used == 0
    ensures r.Some? ==> r.value < |nodes| && nodes[r.value].used == 0 &&
                        forall k :: 0 <= k < r.value ==> nodes[k].used != 0
  {
    if |nodes| == 0 then None
    else if nodes[0].used == 0 then Some(0)
    else
      match FirstEmpty(nodes[1..])
      case None =>
        assert forall k :: 1 <= k < |nodes| ==> nodes[k] == nodes[1..][k - 1];
        None
      case Some(i) => Some(i + 1)
  }

  /** A wall node holds more than 100T */
  predicate IsWall(n: DiskNode) {
    n.used > 100
  }

  /** `filter(|n| n.used > 100).map(|wall| wall.x).min()`: the smallest x among
      the wall nodes, if there are any */
  function WallEdge(nodes: seq<DiskNode>): (r: Option<nat>)
    ensures r.Some? <==> exists k :: 0 <= k < |nodes| && IsWall(nodes[k])
    ensures r.Some? ==> (forall k :: 0 <= k < |nodes| && IsWall(nodes[k]) ==> r.value <= nodes[k].x) &&
                        exists k :: 0 <= k < |nodes| && IsWall(nodes[k]) && nodes[k].x == r.value
  {
    if |nodes| == 0 then None
    else
      var rest := WallEdge(nodes[1..]);
      assert forall k :: 1 <= k < |nodes| ==> nodes[k] == nodes[1..][k - 1];
      if !IsWall(nodes[0]) then rest
      else if rest.Some? && rest.value < nodes[0].x then rest
      else Some(nodes[0].x)
  }

  /** `part2`: twice the way from the empty node left past the wall's edge, the
      way from there to the top right, and five moves for each further column.
      Every `unwrap` on nothing panics, and so does each `usize` subtraction that
      would go below zero: the empty node left of the wall's edge, or a grid one
      column wide. */
  function Part2(nodes: seq<DiskNode>): (r: Option<nat>)
    ensures r.Some? <==>
      |nodes| > 0 && FirstEmpty(nodes).Some? && WallEdge(nodes).Some? &&
      WallEdge(nodes).value <= nodes[FirstEmpty(nodes).value].x && MaxX(nodes) >= 1
    ensures r.Some? ==>
      var width, hole, wall := MaxX(nodes), nodes[FirstEmpty(nodes).value], WallEdge(nodes).value;
      r.value == 2 * (hole.x - wall + 1) + hole.y + (width - hole.x) + 5 * (width - 1)
  {
    if |nodes| == 0 then None
    else
      var width := MaxX(nodes);
      match FirstEmpty(nodes)
      case None => None
      case Some(h) =>
        match WallEdge(nodes)
        case None => None
        case Some(wallEdge) =>
          var hole := nodes[h];
          if hole.x < wallEdge then None
          else
            var navigateWall := (hole.x - wallEdge + 1) * 2;
            var moveToTarget := hole.y + (width - hole.x);
            if width < 1 then None
            else
              var topRowPattern := 5 * (width - 1);
              Some(navigateWall + moveToTarget + topRowPattern)
  }
}
