/** Day 15: discs with slots spin one position per second; a capsule dropped at
    time `i` reaches disc `id` at time `id + i`. The answer is the first time at
    which every disc shows position zero as the capsule arrives, found by
    counting upwards. Part two adds one more disc. */
module Day15 {
  import opened Wrappers
  import opened Strings

  /** `Disc`: its number from the top, its current position and its number of
      positions */
  datatype Disc = Disc(id: nat, position: nat, size: nat)

  // ---------------------------------------------------------------------------
  // Parsing

  /** The words of one trimmed line split at single spaces; `None` where the
      source panics. The first character of the number word (written `#`) and the
      last character of the position word (written `.`) are dropped unseen */
  function ParseWords(w: seq<string>): Option<Disc>
  {
    if |w| == 12 && w[0] == "Disc" && w[2] == "has" && w[4] == "positions;" && w[5] == "at" &&
       w[6] == "time=0," && w[7] == "it" && w[8] == "is" && w[9] == "at" && w[10] == "position" &&
       |w[1]| > 0 && |w[11]| > 0
    then
      match (ParseNat(w[1][1..]), ParseNat(w[11][..|w[11]| - 1]), ParseNat(w[3]))
      case (Some(id), Some(position), Some(size)) => Some(Disc(id, position, size))
      case _ => None
    else None
  }

  function ParseLine(line: string): Option<Disc>
  {
    ParseWords(Split(Trim(line), ' '))
  }

  /** `generator`: one disc per line */
  function Generator(input: string): (r: Option<seq<Disc>>)
    ensures var lines := Lines(input);
      (r.Some? <==> forall k :: 0 <= k < |lines| ==> ParseLine(lines[k]).Some?) &&
      (r.Some? ==> |r.value| == |lines| &&
                   forall k :: 0 <= k < |lines| ==> ParseLine(lines[k]) == Some(r.value[k]))
  {
    TraverseAt(Lines(input), ParseLine);
    Traverse(Lines(input), ParseLine)
  }

  /** The words of the line that describes a disc */
  function Described(d: Disc): seq<string>
  {
    ["Disc", "#" + NatToString(d.id), "has", NatToString(d.size), "positions;", "at", "time=0,",
     "it", "is", "at", "position", NatToString(d.position) + "."]
  }

  /** The line describing a disc reads back as that disc */
  lemma ParseDescribed(d: Disc)
    ensures ParseLine(Join(Described(d), " ")) == Some(d)
  {
    var w := Described(d);
    DescribedWords(d);
    assert w[1][1..] == NatToString(d.id);
    assert w[11][..|w[11]| - 1] == NatToString(d.position);
    ParseNatToString(d.id);
    ParseNatToString(d.position);
    ParseNatToString(d.size);
  }

  /** Trimming and splitting the line describing a disc gives back its words */
  lemma DescribedWords(d: Disc)
    ensures Split(Trim(Join(Described(d), " ")), ' ') == Described(d)
  {
    var w := Described(d);
    var line := Join(w, " ");
    assert forall k, i :: 0 <= k < |w| && 0 <= i < |w[k]| ==> w[k][i] != ' ' by {
      forall k, i | 0 <= k < |w| && 0 <= i < |w[k]| ensures w[k][i] != ' ' {
        if k == 1 && i > 0 {
          assert w[k][i] == NatToString(d.id)[i - 1];
        } else if k == 11 && i < |w[k]| - 1 {
          assert w[k][i] == NatToString(d.position)[i];
        }
      }
    }
    JoinEnds(w, " ");
    TrimUnchanged(line);
    SplitJoin(w, ' ');
  }

  /** The first line of a puzzle input, and a line whose last word is too short */
  lemma ParseExamples()
    ensures ParseWords(["Disc", "#1", "has", "5", "positions;", "at", "time=0,", "it", "is", "at", "position", "4."])
            == Some(Disc(1, 4, 5))
    ensures ParseWords(["Disc", "#1", "has", "5", "positions;", "at", "time=0,", "it", "is", "at", "position", ""])
            == None
  {
    var w := ["Disc", "#1", "has", "5", "positions;", "at", "time=0,", "it", "is", "at", "position", "4."];
    assert w[1][1..] == "1" && w[11][..|w[11]| - 1] == "4";
    assert DigitsOf("1") == Some(1) && DigitsOf("4") == Some(4) && DigitsOf("5") == Some(5);
  }

  // ---------------------------------------------------------------------------
  // Alignment

  /** The slot of `d` is at position zero when a capsule dropped at time `i`
      reaches it */
  predicate Open(d: Disc, i: nat)
    requires d.size > 0
  {
    (d.id + i + d.position) % d.size == 0
  }

  /** `input.iter().all(..)` at time `i`: checked disc by disc in order, stopping
      at the first closed one; `None` where a disc of size zero is reached, at
      which the source's `%` panics */
  function Check(discs: seq<Disc>, i: nat): Option<bool>
  {
    if |discs| == 0 then Some(true)
    else if discs[0].size == 0 then None
    else if !Open(discs[0], i) then Some(false)
    else Check(discs[1..], i)
  }

  /** Every disc open: the check passes exactly then, and it fails rather than
      panics when all sizes are positive */
  lemma {:induction false} CheckMeans(discs: seq<Disc>, i: nat)
    ensures Check(discs, i) == Some(true) <==>
              forall k :: 0 <= k < |discs| ==> discs[k].size > 0 && Open(discs[k], i)
    ensures (forall k :: 0 <= k < |discs| ==> discs[k].size > 0) ==> Check(discs, i).Some?
  {
    if |discs| > 0 {
      CheckMeans(discs[1..], i);
      assert forall k :: 1 <= k < |discs| ==> discs[k] == discs[1..][k - 1];
    }
  }

  /** A check that passes for a longer list passes for its prefix */
  lemma {:induction false} CheckPrefix(discs: seq<Disc>, more: seq<Disc>, i: nat)
    requires Check(discs + more, i) == Some(true)
    ensures Check(discs, i) == Some(true)
  {
    if |discs| > 0 {
      assert (discs + more)[1..] == discs[1..] + more;
      CheckPrefix(discs[1..], more, i);
    }
  }

  /** `t` is the first time at which every disc is open */
  ghost predicate IsFirst(discs: seq<Disc>, t: nat) {
    Check(discs, t) == Some(true) && forall j :: 0 <= j < t ==> Check(discs, j) == Some(false)
  }

  /** There is only one first time */
  lemma FirstUnique(discs: seq<Disc>, a: nat, b: nat)
    requires IsFirst(discs, a) && IsFirst(discs, b)
    ensures a == b
  {
    assert a < b ==> Check(discs, a) == Some(false);
    assert b < a ==> Check(discs, b) == Some(false);
  }

  /** How the search ends: the first aligned time, the time at which a disc of
      size zero makes the source panic, or still counting when the fuel is spent */
  datatype Outcome = Found(time: nat) | Panicked(at: nat) | Unfinished

  /** `part1`: the times 0, 1, 2, ... are tried in turn, at most `fuel` of them */
  method Part1(discs: seq<Disc>, fuel: nat) returns (r: Outcome)
    ensures r.Found? ==> IsFirst(discs, r.time)
    ensures r.Panicked? ==>
              Check(discs, r.at) == None && forall j :: 0 <= j < r.at ==> Check(discs, j) == Some(false)
    ensures r.Unfinished? ==> forall j :: 0 <= j < fuel ==> Check(discs, j) == Some(false)
  {
    var i := 0;
    while i < fuel
      invariant i <= fuel
      invariant forall j :: 0 <= j < i ==> Check(discs, j) == Some(false)
    {
      var c := Check(discs, i);
      match c {
        case Some(true) => return Found(i);
        case None => return Panicked(i);
        case Some(false) =>
      }
      i := i + 1;
    }
    return Unfinished;
  }

  /** The input with the disc part two adds below the others: numbered one past
      the count, at position 0, with 11 positions */
  function Extended(discs: seq<Disc>): (r: seq<Disc>)
    ensures |r| == |discs| + 1 && r[..|discs|] == discs && r[|discs|] == Disc(|discs| + 1, 0, 11)
  {
    discs + [Disc(|discs| + 1, 0, 11)]
  }

  /** `part2` */
  method Part2(discs: seq<Disc>, fuel: nat) returns (r: Outcome)
    ensures r.Found? ==> IsFirst(Extended(discs), r.time)
    ensures r.Panicked? ==>
              Check(Extended(discs), r.at) == None &&
              forall j :: 0 <= j < r.at ==> Check(Extended(discs), j) == Some(false)
    ensures r.Unfinished? ==> forall j :: 0 <= j < fuel ==> Check(Extended(discs), j) == Some(false)
  {
    r := Part1(Extended(discs), fuel);
  }

  /** A time that satisfies part two satisfies every disc of part one and puts
      the extra disc at position zero; so part two never answers before part one */
  lemma Part2AfterPart1(discs: seq<Disc>, t1: nat, t2: nat)
    requires IsFirst(discs, t1) && IsFirst(Extended(discs), t2)
    ensures Check(discs, t2) == Some(true) && (|discs| + 1 + t2) % 11 == 0
    ensures t1 <= t2
  {
    CheckPrefix(discs, [Disc(|discs| + 1, 0, 11)], t2);
    CheckMeans(Extended(discs), t2);
    assert Open(Extended(discs)[|discs|], t2);
    assert t2 < t1 ==> Check(discs, t2) == Some(false);
  }

  /** The puzzle's example: discs of 5 and 2 positions at positions 4 and 1 first
      let the capsule through at time 5 */
  lemma Example()
    ensures IsFirst([Disc(1, 4, 5), Disc(2, 1, 2)], 5)
  {
    var discs := [Disc(1, 4, 5), Disc(2, 1, 2)];
    assert discs[1..] == [Disc(2, 1, 2)] && discs[1..][1..] == [];
    forall j | 0 <= j < 5 ensures Check(discs, j) == Some(false) {
      if j == 0 {
        assert (2 + j + 1) % 2 == 1;
      } else {
        assert (1 + j + 4) % 5 != 0;
      }
    }
    assert (1 + 5 + 4) % 5 == 0 && (2 + 5 + 1) % 2 == 0;
  }
}
