/** Day 9: the decompressed length of a text with repetition markers. A marker
    `(AxB)` repeats the next `A` characters `B` times. Part one copies those
    characters as they are; part two decompresses them again first. The length is
    computed without building the text. */
module Day9 {
  import opened Wrappers
  import opened Strings
  import opened Lib

  // ---------------------------------------------------------------------------
  // Markers

  /** The characters before the first `c`, or all of `s` when there is none */
  function TakeUntil(s: string, c: char): (r: string)
    ensures r <= s
    ensures forall k :: 0 <= k < |r| ==> r[k] != c
    ensures |r| < |s| ==> s[|r|] == c
  {
    if |s| == 0 || s[0] == c then [] else [s[0]] + TakeUntil(s[1..], c)
  }

  /** The two numbers of the text `AxB` of a marker; pieces after a second `x` are
      ignored, and `None` where the source panics on a missing piece or a bad number */
  function ParseMarker(spec: string): (r: Option<(nat, nat)>)
    ensures r.Some? <==> var parts := Split(spec, 'x');
              |parts| >= 2 && ParseNat(parts[0]).Some? && ParseNat(parts[1]).Some?
  {
    var parts := Split(spec, 'x');
    if |parts| < 2 then None
    else
      match (ParseNat(parts[0]), ParseNat(parts[1]))
      case (Some(size), Some(repeat)) => Some((size, repeat))
      case _ => None
  }

  /** `n` added to a score, a failure staying a failure */
  function AddTo(n: nat, r: Option<nat>): (s: Option<nat>)
    ensures s.Some? <==> r.Some?
    ensures s.Some? ==> s.value == n + r.value
  {
    match r
    case Some(v) => Some(n + v)
    case None => None
  }

  lemma AddToAdd(a: nat, b: nat, r: Option<nat>)
    ensures AddTo(a, AddTo(b, r)) == AddTo(a + b, r)
  {
  }

  // ---------------------------------------------------------------------------
  // Scoring

  /** The length of `b` copies of `a` characters */
  function Times(a: nat, b: nat): nat
  {
    if b == 0 then 0 else Times(a, b - 1) + a
  }

  lemma {:induction false} TimesIsProduct(a: nat, b: nat)
    ensures Times(a, b) == a * b
  {
    if b > 0 {
      TimesIsProduct(a, b - 1);
    }
  }

  /** `repeat` copies of an inner score followed by the rest; a failure on either
      side is a failure */
  function Scaled(inner: Option<nat>, repeat: nat, rest: Option<nat>): (r: Option<nat>)
    ensures r.Some? <==> inner.Some? && rest.Some?
    ensures r.Some? ==> r.value == Times(inner.value, repeat) + rest.value
  {
    match inner
    case None => None
    case Some(v) => AddTo(Times(v, repeat), rest)
  }

  /** The score of a chunk: its trimmed characters scored from the start; `None`
      where the source panics */
  function Score(chunk: string, part: Part): Option<nat>
    decreases |chunk|, |chunk| + 1, 3
  {
    ScoreFrom(Trim(chunk), 0, part)
  }

  /** The score of the characters from index `i`: an ordinary character counts 1 */
  function ScoreFrom(chars: string, i: nat, part: Part): Option<nat>
    decreases |chars|, |chars| - i, 2
  {
    if i >= |chars| then Some(0)
    else if chars[i] != '(' then AddTo(1, ScoreFrom(chars, i + 1, part))
    else ScoreMarker(chars, i, part)
  }

  /** The marker `(AxB)` at index `i`: the index just after its `)` and its two
      numbers; `None` where the source panics on its text */
  function ReadMarker(chars: string, i: nat): (r: Option<(nat, nat, nat)>)
    requires i < |chars|
    ensures r.Some? ==> r.value.0 >= i + 2
  {
    var spec := TakeUntil(chars[i + 1..], ')');
    match ParseMarker(spec)
    case None => None
    case Some((size, repeat)) => Some((i + |spec| + 2, size, repeat))
  }

  /** The score from a marker at index `i` */
  function ScoreMarker(chars: string, i: nat, part: Part): Option<nat>
    requires i < |chars|
    decreases |chars|, |chars| - i, 1
  {
    ScoreRead(chars, i, ReadMarker(chars, i), part)
  }

  /** The score from a marker at index `i` once it is read: the marker counts
      nothing itself; in part one it adds `A * B` and skips `A` characters unread
      (even past the end); in part two it adds `B` times the score of the next `A`
      characters, which must all exist */
  function ScoreRead(chars: string, i: nat, marker: Option<(nat, nat, nat)>, part: Part): Option<nat>
    requires marker.Some? ==> marker.value.0 > i
    requires i < |chars|
    decreases |chars|, |chars| - i, 0
  {
    match marker
    case None => None
    case Some((j, size, repeat)) =>
      match part
      case One => AddTo(Times(size, repeat), ScoreFrom(chars, j + size, part))
      case Two =>
        if j + size > |chars| then None
        else Scaled(Score(chars[j..j + size], part), repeat, ScoreFrom(chars, j + size, part))
  }

  /** An ordinary character scores one */
  lemma PlainStep(chars: string, i: nat, part: Part)
    requires i < |chars| && chars[i] != '('
    ensures ScoreFrom(chars, i, part) == AddTo(1, ScoreFrom(chars, i + 1, part))
  {
  }

  /** A marker scores as its reading says */
  lemma MarkerScore(chars: string, i: nat, part: Part)
    requires i < |chars| && chars[i] == '('
    ensures ScoreFrom(chars, i, part) == ScoreRead(chars, i, ReadMarker(chars, i), part)
  {
  }

  // ---------------------------------------------------------------------------
  // Properties of the score

  /** Text without markers scores its length */
  lemma {:induction false} NoMarkersFrom(chars: string, i: nat, part: Part)
    requires i <= |chars|
    requires forall k :: i <= k < |chars| ==> chars[k] != '('
    ensures ScoreFrom(chars, i, part) == Some(|chars| - i)
    decreases |chars| - i
  {
    if i < |chars| {
      NoMarkersFrom(chars, i + 1, part);
    }
  }

  /** A chunk without `(` scores the length of its trimmed text, in both parts */
  lemma NoMarkers(chunk: string, part: Part)
    requires '(' !in Trim(chunk)
    ensures Score(chunk, part) == Some(|Trim(chunk)|)
  {
    NoMarkersFrom(Trim(chunk), 0, part);
  }

  /** The text of a marker is read only up to its `)` */
  lemma {:induction false} TakeUntilPrefix(s: string, t: string, c: char)
    requires |TakeUntil(s, c)| < |s| < |t| + 1
    requires s[..|TakeUntil(s, c)| + 1] == t[..|TakeUntil(s, c)| + 1]
    ensures TakeUntil(t, c) == TakeUntil(s, c)
  {
    if s[0] != c {
      assert s[1..][..|TakeUntil(s[1..], c)| + 1] == t[1..][..|TakeUntil(s[1..], c)| + 1];
      TakeUntilPrefix(s[1..], t[1..], c);
    }
  }

  /** The score from index `i` depends only on the characters from `i` on */
  lemma {:induction false} SameSuffix(a: string, b: string, i: nat, part: Part)
    requires |a| == |b| && i <= |a| && a[i..] == b[i..]
    ensures ScoreFrom(a, i, part) == ScoreFrom(b, i, part)
    decreases |a| - i, 1
  {
    if i < |a| {
      assert a[i] == a[i..][0] == b[i];
      assert a[i + 1..] == a[i..][1..] == b[i + 1..];
      if a[i] != '(' {
        SameSuffix(a, b, i + 1, part);
      } else {
        assert ReadMarker(a, i) == ReadMarker(b, i);
        MarkerScore(a, i, part);
        MarkerScore(b, i, part);
        SameSuffixRead(a, b, i, ReadMarker(a, i), part);
      }
    }
  }

  lemma {:induction false} SameSuffixRead(a: string, b: string, i: nat, marker: Option<(nat, nat, nat)>, part: Part)
    requires |a| == |b| && i < |a| && a[i..] == b[i..]
    requires marker.Some? ==> marker.value.0 > i
    ensures ScoreRead(a, i, marker, part) == ScoreRead(b, i, marker, part)
    decreases |a| - i, 0
  {
    if marker.Some? {
      var (j, size, repeat) := marker.value;
      if j + size <= |a| {
        assert a[j + size..] == a[i..][j + size - i..] == b[j + size..];
        SameSuffix(a, b, j + size, part);
        assert a[j..j + size] == a[i..][j - i..j + size - i] == b[j..j + size];
      }
    }
  }

  /** In part one the characters a marker repeats are skipped unread: changing
      them does not change the score, which is `A * B` plus the score after them */
  lemma PartOneSkips(a: string, b: string, i: nat, j: nat, size: nat, repeat: nat)
    requires |a| == |b| && i < |a| && a[i] == '('
    requires ReadMarker(a, i) == Some((j, size, repeat))
    requires j + size <= |a| && a[..j] == b[..j] && a[j + size..] == b[j + size..]
    ensures ScoreFrom(a, i, One) == ScoreFrom(b, i, One) == AddTo(size * repeat, ScoreFrom(a, j + size, One))
  {
    var spec := TakeUntil(a[i + 1..], ')');
    assert |spec| + 1 == j - i - 1 <= |a[i + 1..]|;
    assert a[i + 1..][..|spec| + 1] == a[i + 1..j] == b[i + 1..][..|spec| + 1];
    TakeUntilPrefix(a[i + 1..], b[i + 1..], ')');
    assert b[i] == a[..j][i] == a[i];
    assert ReadMarker(b, i) == ReadMarker(a, i);
    MarkerScore(a, i, One);
    MarkerScore(b, i, One);
    SameSuffix(a, b, j + size, One);
    TimesIsProduct(size, repeat);
  }

  /** In part two a marker adds `B` times the score of the next `A` characters,
      and fails when they run past the end */
  lemma PartTwoRecurses(chars: string, i: nat, j: nat, size: nat, repeat: nat)
    requires i < |chars| && chars[i] == '('
    requires ReadMarker(chars, i) == Some((j, size, repeat))
    ensures j + size > |chars| ==> ScoreFrom(chars, i, Two) == None
    ensures j + size <= |chars| ==>
              ScoreFrom(chars, i, Two) ==
                (match Score(chars[j..j + size], Two)
                 case None => None
                 case Some(inner) => AddTo(inner * repeat, ScoreFrom(chars, j + size, Two)))
  {
    MarkerScore(chars, i, Two);
    if j + size <= |chars| {
      var inner := Score(chars[j..j + size], Two);
      if inner.Some? {
        TimesIsProduct(inner.value, repeat);
      }
    }
  }

  /** A marker is skipped with its parentheses: it ends just after the first `)`
      that follows it, or two past the end when there is none */
  lemma MarkerLength(chars: string, i: nat)
    requires i < |chars| && ReadMarker(chars, i).Some?
    ensures var j := ReadMarker(chars, i).value.0;
            var spec := chars[i + 1..j - 1];
            j <= |chars| + 1 && ')' !in spec && (j <= |chars| ==> chars[j - 1] == ')')
  {
  }

  // ---------------------------------------------------------------------------
  // The decompressed text, as a reference for the score

  /** `n` copies of `s` */
  function Repeat(s: string, n: nat): (r: string)
    ensures |r| == Times(|s|, n)
  {
    if n == 0 then [] else Repeat(s, n - 1) + s
  }

  /** The decompressed text of a chunk, trimmed like the scored one; `None` where
      the chunk has a malformed marker or a marker whose characters run past the
      end */
  function Expand(chunk: string, part: Part): Option<string>
    decreases |chunk|, |chunk| + 1, 3
  {
    ExpandFrom(Trim(chunk), 0, part)
  }

  function ExpandFrom(chars: string, i: nat, part: Part): Option<string>
    decreases |chars|, |chars| - i, 2
  {
    if i >= |chars| then Some([])
    else if chars[i] != '(' then
      match ExpandFrom(chars, i + 1, part)
      case None => None
      case Some(rest) => Some([chars[i]] + rest)
    else ExpandMarker(chars, i, part)
  }

  function ExpandMarker(chars: string, i: nat, part: Part): Option<string>
    requires i < |chars|
    decreases |chars|, |chars| - i, 1
  {
    ExpandRead(chars, i, ReadMarker(chars, i), part)
  }

  /** A marker is replaced by `B` copies of the next `A` characters: as they are in
      part one, decompressed themselves in part two */
  function ExpandRead(chars: string, i: nat, marker: Option<(nat, nat, nat)>, part: Part): Option<string>
    requires marker.Some? ==> marker.value.0 > i
    requires i < |chars|
    decreases |chars|, |chars| - i, 0
  {
    match marker
    case None => None
    case Some((j, size, repeat)) =>
      if j + size > |chars| then None
      else
        var piece := match part case One => Some(chars[j..j + size]) case Two => Expand(chars[j..j + size], part);
        match (piece, ExpandFrom(chars, j + size, part))
        case (Some(p), Some(rest)) => Some(Repeat(p, repeat) + rest)
        case _ => None
  }

  /** Where the text decompresses, the score is its length; in part two the score
      exists exactly where the text does */
  lemma {:induction false} ScoreIsLength(chunk: string, part: Part)
    ensures Expand(chunk, part).Some? ==> Score(chunk, part) == Some(|Expand(chunk, part).value|)
    ensures part == Two ==> (Score(chunk, part).Some? <==> Expand(chunk, part).Some?)
    decreases |chunk|, |chunk| + 1, 3
  {
    ScoreIsLengthFrom(Trim(chunk), 0, part);
  }

  lemma {:induction false} ScoreIsLengthFrom(chars: string, i: nat, part: Part)
    ensures ExpandFrom(chars, i, part).Some? ==> ScoreFrom(chars, i, part) == Some(|ExpandFrom(chars, i, part).value|)
    ensures part == Two ==> (ScoreFrom(chars, i, part).Some? <==> ExpandFrom(chars, i, part).Some?)
    decreases |chars|, |chars| - i, 2
  {
    if i < |chars| {
      if chars[i] != '(' {
        ScoreIsLengthFrom(chars, i + 1, part);
      } else {
        ScoreIsLengthMarker(chars, i, ReadMarker(chars, i), part);
      }
    }
  }

  lemma {:induction false} ScoreIsLengthMarker(chars: string, i: nat, marker: Option<(nat, nat, nat)>, part: Part)
    requires marker.Some? ==> marker.value.0 > i
    requires i < |chars|
    ensures ExpandRead(chars, i, marker, part).Some? ==>
              ScoreRead(chars, i, marker, part) == Some(|ExpandRead(chars, i, marker, part).value|)
    ensures part == Two ==> (ScoreRead(chars, i, marker, part).Some? <==> ExpandRead(chars, i, marker, part).Some?)
    decreases |chars|, |chars| - i, 1
  {
    if marker.Some? {
      var (j, size, repeat) := marker.value;
      ScoreIsLengthFrom(chars, j + size, part);
      if part == Two && j + size <= |chars| {
        ScoreIsLength(chars[j..j + size], part);
      }
    }
  }

  /** `score_chunk`: a loop over the trimmed characters advancing an index and
      adding to a running score; part two calls itself on the repeated characters */
  method ScoreChunk(chunk: string, part: Part) returns (score: Option<nat>)
    ensures score == Score(chunk, part)
    decreases |chunk|, 3
  {
    score := ScoreChars(Trim(chunk), part);
  }

  /** The loop of `score_chunk` over the already trimmed characters */
  method ScoreChars(chars: string, part: Part) returns (score: Option<nat>)
    ensures score == ScoreFrom(chars, 0, part)
    decreases |chars|, 2
  {
    var total: nat := 0;
    var i: nat := 0;
    ghost var whole := ScoreFrom(chars, 0, part);
    while i < |chars|
      invariant whole == AddTo(total, ScoreFrom(chars, i, part))
      decreases |chars| - i
    {
      var added, next := Step(chars, i, part);
      if added.None? {
        return None;
      }
      AddToAdd(total, added.value, ScoreFrom(chars, next, part));
      total := total + added.value;
      i := next;
    }
    score := Some(total);
  }

  /** One pass of the loop of `score_chunk` at index `i`: what it adds to the score
      and the index it moves on to, or `None` where the source panics. An ordinary
      character adds 1; a marker is read and skipped with its parentheses */
  method Step(chars: string, i: nat, part: Part) returns (added: Option<nat>, next: nat)
    requires i < |chars|
    ensures next > i
    ensures added.None? ==> ScoreFrom(chars, i, part) == None
    ensures added.Some? ==> ScoreFrom(chars, i, part) == AddTo(added.value, ScoreFrom(chars, next, part))
    decreases |chars|, 1
  {
    if chars[i] != '(' {
      PlainStep(chars, i, part);
      return Some(1), i + 1;
    }
    var marker := Read(chars, i, part);
    if marker.None? {
      return None, i + 1;
    }
    var j, size, repeat := marker.value.0, marker.value.1, marker.value.2;
    added := Repeated(chars, i, j, size, repeat, part);
    next := j + size;
  }

  /** Reads the marker at index `i`: the text up to the first `)` after it,
      split at `x` into two numbers */
  method Read(chars: string, i: nat, part: Part) returns (marker: Option<(nat, nat, nat)>)
    requires i < |chars| && chars[i] == '('
    ensures marker == ReadMarker(chars, i)
    ensures marker.Some? ==> marker.value.0 > i
    ensures ScoreFrom(chars, i, part) == ScoreRead(chars, i, marker, part)
  {
    var spec := TakeUntil(chars[i + 1..], ')');
    var numbers := ParseMarker(spec);
    marker := if numbers.None? then None else Some((i + |spec| + 2, numbers.value.0, numbers.value.1));
    MarkerScore(chars, i, part);
  }

  /** What a marker `(AxB)` at index `i`, whose `)` ends just before index `j`,
      adds to the score */
  method Repeated(chars: string, i: nat, j: nat, size: nat, repeat: nat, part: Part) returns (added: Option<nat>)
    requires i < |chars| && j > i
    ensures var score := ScoreRead(chars, i, Some((j, size, repeat)), part);
            if added.Some? then score == AddTo(added.value, ScoreFrom(chars, j + size, part)) else score == None
    decreases |chars|, 0
  {
    match part {
      case One =>
        added := Some(Times(size, repeat));
      case Two =>
        if j + size > |chars| {
          return None;
        }
        var inner := ScoreChunk(chars[j..j + size], part);
        if inner.None? {
          return None;
        }
        added := Some(Times(inner.value, repeat));
    }
  }

  /** Part one: markers inside repeated characters are copied, not expanded */
  method Part1(input: string) returns (score: Option<nat>)
    ensures score == Score(input, One)
  {
    score := ScoreChunk(input, One);
  }

  /** Part two: markers inside repeated characters are expanded too */
  method Part2(input: string) returns (score: Option<nat>)
    ensures score == Score(input, Two)
  {
    score := ScoreChunk(input, Two);
  }
}
