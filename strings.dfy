/** The parts of Rust's `str` API that the puzzle parsers rely on: splitting on a
    character or a separator string, splitting on ASCII whitespace, `lines`, `trim`,
    `trim_end_matches`, and the `FromStr` parsers for unsigned and signed integers
    and for `char`. Strings are sequences of Unicode scalar values. */
module Strings {
  import opened Wrappers

  // ---------------------------------------------------------------------------
  // Character classes

  /** `char::is_whitespace`, restricted to the ASCII range (tab, line feed, vertical
      tab, form feed, carriage return, space) */
  predicate IsWhitespace(c: char) {
    c == ' ' || c == '\t' || c == '\n' || c == '\r' || c == '\U{B}' || c == '\U{C}'
  }

  /** `char::is_ascii_whitespace`: the same set without vertical tab */
  predicate IsAsciiWhitespace(c: char) {
    c == ' ' || c == '\t' || c == '\n' || c == '\r' || c == '\U{C}'
  }

  predicate IsDigit(c: char) {
    '0' <= c <= '9'
  }

  predicate AllDigits(s: string) {
    forall i :: 0 <= i < |s| ==> IsDigit(s[i])
  }

  // ---------------------------------------------------------------------------
  // Splitting

  /** Concatenates the pieces with `sep` between consecutive pieces */
  function Join(pieces: seq<string>, sep: string): string
    decreases |pieces|
  {
    if |pieces| == 0 then ""
    else if |pieces| == 1 then pieces[0]
    else pieces[0] + sep + Join(pieces[1..], sep)
  }

  /** The first and last characters of a join, and the characters it can hold */
  lemma {:induction false} JoinEnds(pieces: seq<string>, sep: string)
    requires |pieces| >= 1 && forall k :: 0 <= k < |pieces| ==> |pieces[k]| > 0
    ensures var s := Join(pieces, sep);
            |s| > 0 && s[0] == pieces[0][0] && s[|s| - 1] == pieces[|pieces| - 1][|pieces[|pieces| - 1]| - 1]
    decreases |pieces|
  {
    if |pieces| > 1 {
      var rest := pieces[1..];
      JoinEnds(rest, sep);
      assert rest[|rest| - 1] == pieces[|pieces| - 1];
    }
  }

  /** A character in neither the pieces nor the separator is not in the join */
  lemma {:induction false} JoinAvoids(pieces: seq<string>, sep: string, c: char)
    requires forall k, j :: 0 <= k < |pieces| && 0 <= j < |pieces[k]| ==> pieces[k][j] != c
    requires forall j :: 0 <= j < |sep| ==> sep[j] != c
    ensures forall j :: 0 <= j < |Join(pieces, sep)| ==> Join(pieces, sep)[j] != c
    decreases |pieces|
  {
    if |pieces| > 1 {
      JoinAvoids(pieces[1..], sep, c);
      var s, rest := Join(pieces, sep), Join(pieces[1..], sep);
      assert s == pieces[0] + sep + rest;
      forall j | 0 <= j < |s|
        ensures s[j] != c
      {
        if j < |pieces[0]| {
          assert s[j] == pieces[0][j];
        } else if j < |pieces[0]| + |sep| {
          assert s[j] == sep[j - |pieces[0]|];
        } else {
          assert s[j] == rest[j - |pieces[0]| - |sep|];
        }
      }
    }
  }

  /** `s.split(c)`: the maximal runs between occurrences of `c`; always at least one
      piece, empty pieces are kept */
  function Split(s: string, c: char): (r: seq<string>)
    ensures |r| >= 1
    ensures forall i, j :: 0 <= i < |r| && 0 <= j < |r[i]| ==> r[i][j] != c
    ensures Join(r, [c]) == s
  {
    if |s| == 0 then [""]
    else
      var rest := Split(s[1..], c);
      if s[0] == c then
        assert Join([""] + rest, [c]) == [c] + Join(rest, [c]);
        [""] + rest
      else
        var r := [[s[0]] + rest[0]] + rest[1..];
        assert Join(r, [c]) == [s[0]] + Join(rest, [c]) by {
          if |rest| > 1 {
            assert r[1..] == rest[1..];
          }
        }
        r
  }

  /** A string without the separator is a single piece */
  lemma {:induction false} SplitWithoutSeparator(s: string, c: char)
    requires forall i :: 0 <= i < |s| ==> s[i] != c
    ensures Split(s, c) == [s]
  {
    if |s| > 0 {
      SplitWithoutSeparator(s[1..], c);
      assert [s[0]] + s[1..] == s;
    }
  }

  /** A leading character other than the separator joins the first piece */
  lemma SplitCons(x: char, s: string, c: char)
    requires x != c
    ensures Split([x] + s, c) == [[x] + Split(s, c)[0]] + Split(s, c)[1..]
  {
    assert ([x] + s)[1..] == s;
  }

  /** A leading separator ends an empty first piece */
  lemma SplitSep(s: string, c: char)
    ensures Split([c] + s, c) == [""] + Split(s, c)
  {
    assert ([c] + s)[1..] == s;
  }

  /** Splitting cuts at the first separator */
  lemma {:induction false} SplitAtFirst(a: string, b: string, c: char)
    requires c !in a
    ensures Split(a + [c] + b, c) == [a] + Split(b, c)
  {
    if |a| == 0 {
      assert a + [c] + b == [c] + b;
      SplitSep(b, c);
    } else {
      var t := a[1..];
      assert c !in t by {
        assert forall i :: 0 <= i < |t| ==> t[i] == a[i + 1];
      }
      SplitAtFirst(t, b, c);
      assert a + [c] + b == [a[0]] + (t + [c] + b);
      SplitCons(a[0], t + [c] + b, c);
      assert [a[0]] + t == a;
    }
  }

  /** Joining pieces that do not contain the separator and splitting again gives
      the pieces back */
  lemma {:induction false} SplitJoin(pieces: seq<string>, c: char)
    requires |pieces| >= 1
    requires forall k, i :: 0 <= k < |pieces| && 0 <= i < |pieces[k]| ==> pieces[k][i] != c
    ensures Split(Join(pieces, [c]), c) == pieces
  {
    if |pieces| == 1 {
      SplitWithoutSeparator(pieces[0], c);
    } else {
      SplitJoin(pieces[1..], c);
      assert Join(pieces, [c]) == pieces[0] + [c] + Join(pieces[1..], [c]);
      assert c !in pieces[0] by {
        assert forall i :: 0 <= i < |pieces[0]| ==> pieces[0][i] != c;
      }
      SplitAtFirst(pieces[0], Join(pieces[1..], [c]), c);
      assert [pieces[0]] + pieces[1..] == pieces;
    }
  }

  /** A character other than the separator appended to the string extends the last
      piece */
  lemma {:induction false} SplitSnoc(s: string, x: char, c: char)
    requires x != c
    ensures var r := Split(s, c);
            Split(s + [x], c) == r[..|r| - 1] + [r[|r| - 1] + [x]]
  {
    if |s| > 0 {
      var t := s + [x];
      var r1 := Split(s[1..], c);
      SplitSnoc(s[1..], x, c);
      assert t[1..] == s[1..] + [x];
      var r2 := Split(t[1..], c);
      assert r2 == r1[..|r1| - 1] + [r1[|r1| - 1] + [x]];
      if s[0] != c {
        if |r1| == 1 {
          assert Split(s, c) == [[s[0]] + r1[0]];
          assert Split(t, c) == [[s[0]] + r1[0] + [x]];
        } else {
          assert Split(s, c) == [[s[0]] + r1[0]] + r1[1..];
          assert Split(t, c) == [[s[0]] + r1[0]] + r1[1..|r1| - 1] + [r1[|r1| - 1] + [x]];
        }
      }
    }
  }

  /** `s.split(sep)` for a non-empty separator string: the leftmost occurrences of
      `sep` are the cut points, scanning from the start */
  function SplitOn(s: string, sep: string): (r: seq<string>)
    requires |sep| > 0
    ensures |r| >= 1
    ensures Join(r, sep) == s
    decreases |s|
  {
    if |s| < |sep| then [s]
    else if s[..|sep|] == sep then
      var rest := SplitOn(s[|sep|..], sep);
      assert Join([""] + rest, sep) == sep + Join(rest, sep);
      assert s == sep + s[|sep|..];
      [""] + rest
    else
      var rest := SplitOn(s[1..], sep);
      var r := [[s[0]] + rest[0]] + rest[1..];
      assert Join(r, sep) == [s[0]] + Join(rest, sep) by {
        if |rest| > 1 {
          assert r[1..] == rest[1..];
        }
      }
      assert s == [s[0]] + s[1..];
      r
  }

  /** `s.split_once(c)`: the text before the first `c` and the text after it, or
      `None` when `c` does not occur */
  function SplitOnce(s: string, c: char): (r: Option<(string, string)>)
    ensures r.None? <==> c !in s
    ensures r.Some? ==> r.value.0 + [c] + r.value.1 == s && c !in r.value.0
  {
    if |s| == 0 then None
    else if s[0] == c then Some(([], s[1..]))
    else
      match SplitOnce(s[1..], c)
      case None => None
      case Some((before, after)) => Some(([s[0]] + before, after))
  }

  /** The cut is at the separator that follows a piece without one */
  lemma {:induction false} SplitOnceAt(a: string, b: string, c: char)
    requires c !in a
    ensures SplitOnce(a + [c] + b, c) == Some((a, b))
  {
    if |a| == 0 {
      assert a + [c] + b == [c] + b;
    } else {
      SplitOnceAt(a[1..], b, c);
      assert (a + [c] + b)[1..] == a[1..] + [c] + b;
      assert [a[0]] + a[1..] == a;
    }
  }

  /** `s.replace(pat, "")` for a non-empty pattern: every occurrence of `pat`,
      found left to right without overlaps, removed */
  function RemoveAll(s: string, pat: string): (r: string)
    requires |pat| > 0
    ensures |r| <= |s|
    decreases |s|
  {
    if |s| < |pat| then s
    else if s[..|pat|] == pat then RemoveAll(s[|pat|..], pat)
    else [s[0]] + RemoveAll(s[1..], pat)
  }

  /** Removing a prefix that occurs once, from a string without other occurrences */
  lemma RemovePrefix(pat: string, t: string)
    requires |pat| > 0
    requires RemoveAll(t, pat) == t
    ensures RemoveAll(pat + t, pat) == t
  {
    assert (pat + t)[..|pat|] == pat;
    assert (pat + t)[|pat|..] == t;
  }

  /** A string without the first character of the pattern has nothing to remove */
  lemma {:induction false} RemoveAbsent(s: string, pat: string)
    requires |pat| > 0
    requires forall i :: 0 <= i < |s| ==> s[i] != pat[0]
    ensures RemoveAll(s, pat) == s
    decreases |s|
  {
    if |s| >= |pat| {
      assert s[..|pat|][0] != pat[0];
      RemoveAbsent(s[1..], pat);
      assert s == [s[0]] + s[1..];
    }
  }

  /** The length of the leading run of non-whitespace characters */
  function WordLength(s: string): (n: nat)
    ensures n <= |s|
    ensures forall i :: 0 <= i < n ==> !IsAsciiWhitespace(s[i])
    ensures n < |s| ==> IsAsciiWhitespace(s[n])
  {
    if |s| == 0 || IsAsciiWhitespace(s[0]) then 0 else 1 + WordLength(s[1..])
  }

  /** `s.split_ascii_whitespace()`: the non-empty maximal runs of non-whitespace */
  function Words(s: string): (r: seq<string>)
    ensures forall i :: 0 <= i < |r| ==> |r[i]| > 0
    ensures forall i, j :: 0 <= i < |r| && 0 <= j < |r[i]| ==> !IsAsciiWhitespace(r[i][j])
    decreases |s|
  {
    if |s| == 0 then []
    else if IsAsciiWhitespace(s[0]) then Words(s[1..])
    else
      var n := WordLength(s);
      [s[..n]] + Words(s[n..])
  }

  /** A word runs up to the first whitespace after it */
  lemma {:induction false} WordLengthOf(w: string, t: string)
    requires forall i :: 0 <= i < |w| ==> !IsAsciiWhitespace(w[i])
    requires |t| == 0 || IsAsciiWhitespace(t[0])
    ensures WordLength(w + t) == |w|
  {
    if |w| > 0 {
      WordLengthOf(w[1..], t);
      assert (w + t)[1..] == w[1..] + t;
    }
  }

  /** Words joined by single spaces split back into the same words */
  lemma {:induction false} WordsJoin(words: seq<string>)
    requires forall k :: 0 <= k < |words| ==> |words[k]| > 0
    requires forall k, i :: 0 <= k < |words| && 0 <= i < |words[k]| ==> !IsAsciiWhitespace(words[k][i])
    ensures Words(Join(words, " ")) == words
  {
    if |words| == 1 {
      WordLengthOf(words[0], "");
      assert words[0] + "" == words[0];
      assert words[0][|words[0]|..] == "";
    } else if |words| > 1 {
      var w, rest := words[0], Join(words[1..], " ");
      var s := Join(words, " ");
      assert s == w + (" " + rest);
      WordLengthOf(w, " " + rest);
      assert s[..|w|] == w;
      assert s[|w|..] == " " + rest;
      assert (" " + rest)[1..] == rest;
      WordsJoin(words[1..]);
      assert [w] + words[1..] == words;
    }
  }

  /** `s.lines()`: the pieces between line feeds, each without a trailing carriage
      return, and without the empty piece after a final line feed */
  function Lines(s: string): (r: seq<string>)
    ensures forall i, j :: 0 <= i < |r| && 0 <= j < |r[i]| ==> r[i][j] != '\n'
  {
    var parts := Split(s, '\n');
    var kept := if parts[|parts| - 1] == "" then parts[..|parts| - 1] else parts;
    seq(|kept|, i requires 0 <= i < |kept| => DropCarriageReturn(kept[i]))
  }

  function DropCarriageReturn(s: string): (r: string)
    ensures r <= s
  {
    if |s| > 0 && s[|s| - 1] == '\r' then s[..|s| - 1] else s
  }

  // ---------------------------------------------------------------------------
  // Trimming

  /** `s.trim_start()`: without leading whitespace */
  function TrimStart(s: string): (r: string)
    ensures |r| <= |s|
  {
    if |s| > 0 && IsWhitespace(s[0]) then TrimStart(s[1..]) else s
  }

  /** `s.trim_end()`: without trailing whitespace */
  function TrimEnd(s: string): (r: string)
    ensures |r| <= |s|
  {
    if |s| > 0 && IsWhitespace(s[|s| - 1]) then TrimEnd(s[..|s| - 1]) else s
  }

  /** `s.trim()`: without leading and trailing whitespace */
  function Trim(s: string): (r: string)
    ensures |r| <= |s|
  {
    TrimEnd(TrimStart(s))
  }

  lemma {:induction false} TrimStartMeans(s: string)
    ensures var r := TrimStart(s);
            r == s[|s| - |r|..] && (|r| > 0 ==> !IsWhitespace(r[0])) &&
            forall i :: 0 <= i < |s| - |r| ==> IsWhitespace(s[i])
  {
    if |s| > 0 && IsWhitespace(s[0]) {
      TrimStartMeans(s[1..]);
    }
  }

  lemma {:induction false} TrimEndMeans(s: string)
    ensures var r := TrimEnd(s);
            r <= s && (|r| > 0 ==> !IsWhitespace(r[|r| - 1])) &&
            forall i :: |r| <= i < |s| ==> IsWhitespace(s[i])
  {
    if |s| > 0 && IsWhitespace(s[|s| - 1]) {
      TrimEndMeans(s[..|s| - 1]);
    }
  }

  /** The trim is a slice of `s` with only whitespace around it, and it neither
      starts nor ends with whitespace */
  lemma TrimMeans(s: string)
    ensures var r, k := Trim(s), |s| - |TrimStart(s)|;
            k + |r| <= |s| && r == s[k..k + |r|] &&
            (|r| > 0 ==> !IsWhitespace(r[0]) && !IsWhitespace(r[|r| - 1])) &&
            (forall i :: 0 <= i < k ==> IsWhitespace(s[i])) &&
            (forall i :: k + |r| <= i < |s| ==> IsWhitespace(s[i]))
  {
    TrimStartMeans(s);
    TrimEndMeans(TrimStart(s));
  }

  /** A string that starts and ends with non-whitespace is its own trim */
  lemma TrimUnchanged(s: string)
    requires |s| > 0 && !IsWhitespace(s[0]) && !IsWhitespace(s[|s| - 1])
    ensures Trim(s) == s
  {
    assert TrimStart(s) == s;
    assert TrimEnd(s) == s;
  }

  /** One line without line feeds or a final carriage return reads as that line */
  lemma SingleLine(s: string)
    requires |s| > 0 && s[|s| - 1] != '\r'
    requires forall i :: 0 <= i < |s| ==> s[i] != '\n'
    ensures Lines(s) == [s]
  {
    SplitWithoutSeparator(s, '\n');
    assert DropCarriageReturn(s) == s;
    assert Lines(s) == [DropCarriageReturn(s)];
  }

  /** `s.trim_end_matches(c)`: every trailing `c` removed */
  function TrimEndMatches(s: string, c: char): (r: string)
    ensures r <= s
    ensures |r| > 0 ==> r[|r| - 1] != c
    ensures forall i :: |r| <= i < |s| ==> s[i] == c
  {
    if |s| > 0 && s[|s| - 1] == c then TrimEndMatches(s[..|s| - 1], c) else s
  }

  // ---------------------------------------------------------------------------
  // Counting

  /** How often each character of `s` occurs, for exactly the characters of `s`,
      counted left to right */
  function Tally(s: string): map<char, nat>
  {
    if |s| == 0 then map[]
    else
      var m := Tally(s[..|s| - 1]);
      var c := s[|s| - 1];
      m[c := (if c in m then m[c] else 0) + 1]
  }

  /** The tally has an entry for exactly the characters of `s`, and each entry is
      that character's number of occurrences */
  lemma {:induction false} TallyMeans(s: string)
    ensures forall c :: c in Tally(s) <==> c in s
    ensures forall c :: c in Tally(s) ==> Tally(s)[c] == multiset(s)[c]
  {
    if |s| > 0 {
      var init := s[..|s| - 1];
      TallyMeans(init);
      assert s == init + [s[|s| - 1]];
    }
  }

  /** Counting one more character bumps its entry, starting from 0 */
  lemma TallySnoc(s: string, c: char)
    ensures var m := Tally(s);
            Tally(s + [c]) == m[c := (if c in m then m[c] else 0) + 1]
  {
    assert (s + [c])[..|s|] == s;
  }

  // ---------------------------------------------------------------------------
  // Number parsing and printing

  /** The value of a string of decimal digits, most significant first (0 for the
      empty string); `None` when a character is not a digit */
  function DigitsOf(s: string): Option<nat>
  {
    if |s| == 0 then Some(0)
    else if !IsDigit(s[|s| - 1]) then None
    else
      match DigitsOf(s[..|s| - 1])
      case None => None
      case Some(v) => Some(v * 10 + ((s[|s| - 1] as int) - ('0' as int)))
  }

  lemma {:induction false} DigitsOfMeans(s: string)
    ensures DigitsOf(s).Some? <==> AllDigits(s)
  {
    if |s| > 0 {
      DigitsOfMeans(s[..|s| - 1]);
    }
  }

  /** `s.parse::<usize>()`: an optional `+` followed by at least one decimal digit;
      nothing else is accepted */
  function ParseNat(s: string): Option<nat>
  {
    var body := if |s| > 0 && s[0] == '+' then s[1..] else s;
    if |body| == 0 then None else DigitsOf(body)
  }

  lemma ParseNatMeans(s: string)
    ensures ParseNat(s).Some? <==> var body := if |s| > 0 && s[0] == '+' then s[1..] else s;
                                   |body| > 0 && AllDigits(body)
  {
    var body := if |s| > 0 && s[0] == '+' then s[1..] else s;
    DigitsOfMeans(body);
  }

  /** `s.parse::<isize>()` (and `i32`): an optional sign followed by at least one
      decimal digit */
  function ParseInt(s: string): (r: Option<int>)
    ensures r.Some? ==> |s| > 0
    ensures |s| > 0 && s[0] == '-' ==>
              (r.Some? <==> |s| > 1 && DigitsOf(s[1..]).Some?) &&
              (r.Some? ==> r.value == 0 - DigitsOf(s[1..]).value)
    ensures (|s| == 0 || s[0] != '-') ==>
              (r.Some? <==> ParseNat(s).Some?) && (r.Some? ==> r.value == ParseNat(s).value)
  {
    if |s| > 0 && s[0] == '-' then
      if |s| == 1 then None
      else
        match DigitsOf(s[1..])
        case Some(n) => Some(0 - n)
        case None => None
    else
      match ParseNat(s)
      case Some(n) => Some(n)
      case None => None
  }

  /** `s.parse::<char>()`: exactly one character */
  function ParseChar(s: string): (r: Option<char>)
    ensures r.Some? <==> |s| == 1
    ensures r.Some? ==> r.value == s[0]
  {
    if |s| == 1 then Some(s[0]) else None
  }

  /** The decimal representation of `n`, most significant digit first, as Rust's
      `Display` for unsigned integers writes it */
  function NatToString(n: nat): (r: string)
    ensures |r| > 0 && AllDigits(r)
  {
    var d := [('0' as int + n % 10) as char];
    if n < 10 then d else NatToString(n / 10) + d
  }

  /** Printing then parsing gives back the number */
  lemma ParseNatToString(n: nat)
    ensures ParseNat(NatToString(n)) == Some(n)
  {
    DigitsOfNatToString(n);
  }

  lemma {:induction false} DigitsOfNatToString(n: nat)
    ensures DigitsOf(NatToString(n)) == Some(n)
  {
    var s := NatToString(n);
    if n >= 10 {
      DigitsOfNatToString(n / 10);
      assert s[..|s| - 1] == NatToString(n / 10);
    } else {
      assert s[..0] == [];
    }
  }
}
