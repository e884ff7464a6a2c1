/** Day 7: classify IPv7-style addresses. Square brackets alternately open and
    close "hypernet" sections (nesting is not considered: every bracket flips the
    state). An address supports TLS when an ABBA (`xyyx`, `x != y`) starts outside
    the brackets and none starts inside; it supports SSL when an ABA (`xyx`) outside
    the brackets has its matching BAB (`yxy`) inside. */
module Day7 {
  import opened Strings
  import opened Lib
  import opened Wrappers

  predicate IsBracket(c: char) {
    c == '[' || c == ']'
  }

  /** Position `i` lies in a hypernet section: an odd number of brackets precede it */
  function Inside(s: string, i: nat): bool
    requires i <= |s|
  {
    if i == 0 then false else Inside(s, i - 1) != IsBracket(s[i - 1])
  }

  // ---------------------------------------------------------------------------
  // TLS

  /** Four characters `xyyx` with `x != y` start at `i` */
  predicate AbbaAt(s: string, i: nat)
    requires i + 3 < |s|
  {
    s[i] != s[i + 1] && s[i] == s[i + 3] && s[i + 1] == s[i + 2]
  }

  /** An ABBA that the scan looks at: the scan skips bracket positions */
  predicate ScannedAbba(s: string, i: nat)
    requires i + 3 < |s|
  {
    !IsBracket(s[i]) && AbbaAt(s, i)
  }

  /** Some scanned ABBA lies outside the brackets and none inside */
  predicate Tls(s: string) {
    (exists i: nat :: i + 3 < |s| && ScannedAbba(s, i) && !Inside(s, i)) &&
    (forall i: nat :: i + 3 < |s| && ScannedAbba(s, i) ==> !Inside(s, i))
  }

  /** `supports_tls`: one scan over the positions that have three characters after
      them, flipping the bracket state at each bracket and stopping at the first
      ABBA inside brackets. `None` for fewer than three characters, where the
      bound underflows and the source panics. */
  method SupportsTls(s: string) returns (supported: Option<bool>)
    ensures supported.Some? <==> |s| >= 3
    ensures supported.Some? ==> supported.value == Tls(s)
  {
    if |s| < 3 {
      return None;
    }
    var inBrackets := false;
    var outerFound := false;
    for i := 0 to |s| - 3
      invariant inBrackets == Inside(s, i)
      invariant outerFound <==> exists j: nat :: j < i && ScannedAbba(s, j) && !Inside(s, j)
      invariant forall j: nat :: j < i && ScannedAbba(s, j) ==> !Inside(s, j)
    {
      if IsBracket(s[i]) {
        inBrackets := !inBrackets;
        continue;
      }
      if s[i] != s[i + 1] && s[i] == s[i + 3] && s[i + 1] == s[i + 2] {
        if inBrackets {
          assert ScannedAbba(s, i) && Inside(s, i);
          return Some(false);
        }
        outerFound := true;
      }
    }
    supported := Some(outerFound);
  }

  /** Outside any brackets, TLS is simply the presence of an ABBA */
  lemma TlsWithoutBrackets(s: string)
    requires forall i :: 0 <= i < |s| ==> !IsBracket(s[i])
    ensures Tls(s) <==> exists i: nat :: i + 3 < |s| && AbbaAt(s, i)
  {
    NoBracketsOutside(s, |s|);
    if exists i: nat :: i + 3 < |s| && AbbaAt(s, i) {
      var i: nat :| i + 3 < |s| && AbbaAt(s, i);
      assert ScannedAbba(s, i) && !Inside(s, i);
    }
  }

  lemma {:induction false} NoBracketsOutside(s: string, n: nat)
    requires n <= |s|
    requires forall i :: 0 <= i < |s| ==> !IsBracket(s[i])
    ensures forall i :: 0 <= i <= n ==> !Inside(s, i)
  {
    if n > 0 {
      NoBracketsOutside(s, n - 1);
    }
  }

  // ---------------------------------------------------------------------------
  // SSL

  /** Three characters `xyx` with `x != y` start at `i` */
  predicate AbaAt(s: string, i: nat)
    requires i + 2 < |s|
  {
    s[i] != s[i + 1] && s[i] == s[i + 2]
  }

  /** An ABA the scan records as outer: not at a bracket, outside the brackets */
  predicate OuterAba(s: string, i: nat) {
    i + 2 < |s| && !IsBracket(s[i]) && AbaAt(s, i) && !Inside(s, i)
  }

  /** A BAB the scan records as inner: not at a bracket, inside the brackets */
  predicate InnerBab(s: string, j: nat) {
    j + 2 < |s| && !IsBracket(s[j]) && AbaAt(s, j) && Inside(s, j)
  }

  /** The ABA patterns outside brackets among the first `n` positions, each as the
      pair (x, y) of `xyx` */
  function Outer(s: string, n: nat): set<(char, char)>
    requires n + 2 <= |s|
  {
    if n == 0 then {}
    else
      var i := n - 1;
      Outer(s, i) + (if OuterAba(s, i) then {(s[i], s[i + 1])} else {})
  }

  /** The BAB patterns inside brackets among the first `n` positions, each stored
      as the pair (x, y) of the ABA it answers: `yxy` gives (x, y) */
  function Inner(s: string, n: nat): set<(char, char)>
    requires n + 2 <= |s|
  {
    if n == 0 then {}
    else
      var i := n - 1;
      Inner(s, i) + (if InnerBab(s, i) then {(s[i + 1], s[i])} else {})
  }

  /** Some outer ABA is answered by an inner BAB */
  predicate Ssl(s: string)
    requires |s| >= 2
  {
    Outer(s, |s| - 2) * Inner(s, |s| - 2) != {}
  }

  /** `supports_ssl`: one scan that records the outer ABAs and inner BABs in two
      sets and intersects them. `None` for fewer than two characters, where the
      bound underflows and the source panics. */
  method SupportsSsl(s: string) returns (supported: Option<bool>)
    ensures supported.Some? <==> |s| >= 2
    ensures supported.Some? ==> supported.value == Ssl(s)
  {
    if |s| < 2 {
      return None;
    }
    var outerMatches: set<(char, char)> := {};
    var innerMatches: set<(char, char)> := {};
    var inBrackets := false;
    for i := 0 to |s| - 2
      invariant inBrackets == Inside(s, i)
      invariant outerMatches == Outer(s, i)
      invariant innerMatches == Inner(s, i)
    {
      if IsBracket(s[i]) {
        inBrackets := !inBrackets;
        continue;
      }
      if s[i] != s[i + 1] && s[i] == s[i + 2] {
        if inBrackets {
          innerMatches := innerMatches + {(s[i + 1], s[i])};
        } else {
          outerMatches := outerMatches + {(s[i], s[i + 1])};
        }
      }
    }
    supported := Some(outerMatches * innerMatches != {});
  }

  /** Every recorded outer pair is spelled by an ABA outside brackets */
  lemma {:induction false} OuterWitness(s: string, n: nat, p: (char, char)) returns (i: nat)
    requires n + 2 <= |s| && p in Outer(s, n)
    ensures i < n && OuterAba(s, i) && p == (s[i], s[i + 1])
  {
    if p in Outer(s, n - 1) {
      i := OuterWitness(s, n - 1, p);
    } else {
      i := n - 1;
    }
  }

  /** Every ABA outside brackets is recorded */
  lemma {:induction false} OuterHas(s: string, n: nat, i: nat)
    requires n + 2 <= |s| && i < n && OuterAba(s, i)
    ensures (s[i], s[i + 1]) in Outer(s, n)
  {
    if i < n - 1 {
      OuterHas(s, n - 1, i);
    }
  }

  /** Every recorded inner pair (x, y) is spelled by a BAB `yxy` inside brackets */
  lemma {:induction false} InnerWitness(s: string, n: nat, p: (char, char)) returns (j: nat)
    requires n + 2 <= |s| && p in Inner(s, n)
    ensures j < n && InnerBab(s, j) && p == (s[j + 1], s[j])
  {
    if p in Inner(s, n - 1) {
      j := InnerWitness(s, n - 1, p);
    } else {
      j := n - 1;
    }
  }

  /** Every BAB inside brackets is recorded */
  lemma {:induction false} InnerHas(s: string, n: nat, j: nat)
    requires n + 2 <= |s| && j < n && InnerBab(s, j)
    ensures (s[j + 1], s[j]) in Inner(s, n)
  {
    if j < n - 1 {
      InnerHas(s, n - 1, j);
    }
  }

  /** The BAB at `j` answers the ABA at `i` */
  predicate Answers(s: string, i: nat, j: nat)
    requires i + 1 < |s| && j + 1 < |s|
  {
    s[j] == s[i + 1] && s[j + 1] == s[i]
  }

  /** SSL holds exactly when an ABA `xyx` outside brackets and a BAB `yxy` inside
      brackets both occur */
  lemma SslMeans(s: string)
    requires |s| >= 2
    ensures Ssl(s) <==> exists i: nat, j: nat :: OuterAba(s, i) && InnerBab(s, j) && Answers(s, i, j)
  {
    if Ssl(s) {
      var i, j := SslWitness(s);
    }
    if exists i: nat, j: nat :: OuterAba(s, i) && InnerBab(s, j) && Answers(s, i, j) {
      var i: nat, j: nat :| OuterAba(s, i) && InnerBab(s, j) && Answers(s, i, j);
      SslFromWitness(s, i, j);
    }
  }

  lemma SslWitness(s: string) returns (i: nat, j: nat)
    requires |s| >= 2 && Ssl(s)
    ensures OuterAba(s, i) && InnerBab(s, j) && Answers(s, i, j)
  {
    var n := |s| - 2;
    var p :| p in Outer(s, n) * Inner(s, n);
    i := OuterWitness(s, n, p);
    j := InnerWitness(s, n, p);
  }

  lemma SslFromWitness(s: string, i: nat, j: nat)
    requires |s| >= 2
    requires OuterAba(s, i) && InnerBab(s, j) && Answers(s, i, j)
    ensures Ssl(s)
  {
    var n := |s| - 2;
    OuterHas(s, n, i);
    InnerHas(s, n, j);
    assert (s[i], s[i + 1]) == (s[j + 1], s[j]);
  }

  // ---------------------------------------------------------------------------
  // Counting addresses

  /** Every trimmed line has at least `n` characters, as a scan needs */
  predicate LongEnough(lines: seq<string>, n: nat) {
    forall k :: 0 <= k < |lines| ==> |Trim(lines[k])| >= n
  }

  /** Part one: how many trimmed lines of the trimmed input support TLS;
      `None` where the scan of a line shorter than three characters underflows
      its bound and panics */
  function Part1(input: string): (r: Option<nat>)
    ensures r.Some? <==> LongEnough(Lines(Trim(input)), 3)
    ensures r.Some? ==> r.value <= |Lines(Trim(input))|
  {
    var lines := Lines(Trim(input));
    if LongEnough(lines, 3) then Some(CountWhere(lines, TlsLine)) else None
  }

  /** A line that supports TLS once trimmed */
  predicate TlsLine(line: string) {
    Tls(Trim(line))
  }

  /** Part two: how many trimmed lines of the trimmed input support SSL;
      `None` where the scan of a line shorter than two characters panics */
  function Part2(input: string): (r: Option<nat>)
    ensures r.Some? <==> LongEnough(Lines(Trim(input)), 2)
    ensures r.Some? ==> r.value <= |Lines(Trim(input))|
  {
    var lines := Lines(Trim(input));
    if LongEnough(lines, 2) then Some(CountWhere(lines, SslLine)) else None
  }

  /** A line that supports SSL once trimmed */
  predicate SslLine(line: string) {
    |Trim(line)| >= 2 && Ssl(Trim(line))
  }

  // ---------------------------------------------------------------------------
  // Examples

  /** `aba[bab]xyz` supports SSL: `aba` outside, `bab` inside */
  lemma SslExample1(s: string)
    requires s == "aba[bab]xyz"
    ensures Ssl(s)
  {
    SslMeans(s);
    assert !Inside(s, 1);
    assert !Inside(s, 2);
    assert !Inside(s, 3);
    assert Inside(s, 4);
    assert OuterAba(s, 0) && InnerBab(s, 4) && Answers(s, 0, 4);
  }

  /** `xyx[xyx]xyx` does not: the inner `xyx` would need an outer `yxy` */
  lemma SslExample2(s: string)
    requires s == "xyx[xyx]xyx"
    ensures !Ssl(s)
  {
    assert !Inside(s, 1);
    assert !Inside(s, 2);
    assert !Inside(s, 3);
    assert Inside(s, 4);
    assert Inside(s, 5);
    assert Inside(s, 6);
    assert Inside(s, 7);
    assert !Inside(s, 8);
    assert !Inside(s, 9);
    assert Outer(s, 1) == {('x', 'y')};
    assert Inner(s, 1) == {};
    assert Outer(s, 2) == {('x', 'y')};
    assert Inner(s, 2) == {};
    assert Outer(s, 3) == {('x', '['), ('x', 'y')};
    assert Inner(s, 3) == {};
    assert Outer(s, 4) == {('x', '['), ('x', 'y')};
    assert Inner(s, 4) == {};
    assert Outer(s, 5) == {('x', '['), ('x', 'y')};
    assert Inner(s, 5) == {('y', 'x')};
    assert Outer(s, 6) == {('x', '['), ('x', 'y')};
    assert Inner(s, 6) == {('y', 'x')};
    assert Outer(s, 7) == {('x', '['), ('x', 'y')};
    assert Inner(s, 7) == {(']', 'x'), ('y', 'x')};
    assert Outer(s, 8) == {('x', '['), ('x', 'y')};
    assert Inner(s, 8) == {(']', 'x'), ('y', 'x')};
    assert Outer(s, 9) == {('x', '['), ('x', 'y')};
    assert Inner(s, 9) == {(']', 'x'), ('y', 'x')};
  }

  /** `aaa[kek]eke` supports SSL: `aaa` is no ABA, but `eke` answers `kek` */
  lemma SslExample3(s: string)
    requires s == "aaa[kek]eke"
    ensures Ssl(s)
  {
    SslMeans(s);
    assert !Inside(s, 1);
    assert !Inside(s, 2);
    assert !Inside(s, 3);
    assert Inside(s, 4);
    assert Inside(s, 5);
    assert Inside(s, 6);
    assert Inside(s, 7);
    assert !Inside(s, 8);
    assert OuterAba(s, 8) && InnerBab(s, 4) && Answers(s, 8, 4);
  }

  /** `zazbz[bzb]cdb` supports SSL: `zbz` outside answers `bzb` inside */
  lemma SslExample4(s: string)
    requires s == "zazbz[bzb]cdb"
    ensures Ssl(s)
  {
    SslMeans(s);
    assert !Inside(s, 1);
    assert !Inside(s, 2);
    assert !Inside(s, 3);
    assert !Inside(s, 4);
    assert !Inside(s, 5);
    assert Inside(s, 6);
    assert OuterAba(s, 2) && InnerBab(s, 6) && Answers(s, 2, 6);
  }
}
