/** Day 4: room names with a sector number and a checksum. A room is real when its
    checksum lists the five most common letters of its name (ties broken
    alphabetically); real room names decrypt with a Caesar shift by the sector. */
module Day4 {
  import opened Wrappers
  import opened Strings

  datatype Room = Room(name: string, sector: nat, checksum: string)

  // ---------------------------------------------------------------------------
  // Parsing

  /** `Room::from_str`: the dash-separated parts but the last, joined without the
      dashes, form the name; the last part, with every trailing `]` removed and
      split at `[`, gives the sector and the checksum. `None` where the source
      panics: a sector that is not a number, or no `[` after the last dash. */
  function ParseRoom(s: string): (r: Option<Room>)
    ensures r.Some? ==> forall i :: 0 <= i < |r.value.name| ==> r.value.name[i] != '-'
    ensures r.Some? ==> forall i :: 0 <= i < |r.value.checksum| ==> r.value.checksum[i] != '['
  {
    var parts := Split(s, '-');
    var name := Concat(parts[..|parts| - 1]);
    ConcatAvoids(parts[..|parts| - 1], '-');
    var tail := Split(TrimEndMatches(parts[|parts| - 1], ']'), '[');
    match ParseNat(tail[0])
    case None => None
    case Some(sector) =>
      if |tail| < 2 then None else Some(Room(name, sector, tail[1]))
  }

  /** `join("")` */
  function Concat(pieces: seq<string>): (r: string)
    ensures |pieces| == 1 ==> r == pieces[0]
  {
    if |pieces| == 0 then "" else pieces[0] + Concat(pieces[1..])
  }

  /** A character in none of the pieces is not in their concatenation */
  lemma {:induction false} ConcatAvoids(pieces: seq<string>, c: char)
    requires forall k, i :: 0 <= k < |pieces| && 0 <= i < |pieces[k]| ==> pieces[k][i] != c
    ensures forall i :: 0 <= i < |Concat(pieces)| ==> Concat(pieces)[i] != c
  {
    if |pieces| > 0 {
      ConcatAvoids(pieces[1..], c);
      assert forall k, i :: 1 <= k < |pieces| && 0 <= i < |pieces[k]| ==> pieces[k][i] == pieces[1..][k - 1][i];
    }
  }

  /** The text the parser reads: name pieces joined by dashes, then the sector and
      the checksum in brackets */
  function Format(pieces: seq<string>, sector: nat, checksum: string): string {
    Join(pieces + [NatToString(sector) + "[" + checksum + "]"], "-")
  }

  /** One line of the generator: trimmed, then parsed */
  function ParseLine(line: string): Option<Room> {
    ParseRoom(Trim(line))
  }

  /** The generator: one room per line of the trimmed input */
  function Generator(input: string): (r: Option<seq<Room>>)
    ensures var lines := Lines(Trim(input));
      (r.Some? <==> forall k :: 0 <= k < |lines| ==> ParseLine(lines[k]).Some?) &&
      (r.Some? ==> |r.value| == |lines| &&
                   forall k :: 0 <= k < |lines| ==> ParseLine(lines[k]) == Some(r.value[k]))
  {
    TraverseAt(Lines(Trim(input)), ParseLine);
    Traverse(Lines(Trim(input)), ParseLine)
  }

  // ---------------------------------------------------------------------------
  // Checksum

  /** No character occurs twice */
  predicate Distinct(t: string) {
    |t| == 0 || (t[0] !in t[1..] && Distinct(t[1..]))
  }

  /** The order the source sorts the tally in: count descending, then character
      ascending; a strict total order on the tallied characters */
  predicate Before(counts: map<char, nat>, c: char, d: char)
    requires c in counts && d in counts
  {
    counts[c] > counts[d] || (counts[c] == counts[d] && c < d)
  }

  /** The first character of `s` outside `excluded` in that order */
  function Best(counts: map<char, nat>, s: string, excluded: set<char>): (r: Option<char>)
    requires forall i :: 0 <= i < |s| ==> s[i] in counts
    ensures r.None? <==> forall i :: 0 <= i < |s| ==> s[i] in excluded
    ensures r.Some? ==> r.value in s && r.value in counts && r.value !in excluded
    ensures r.Some? ==> forall i :: 0 <= i < |s| && s[i] !in excluded && s[i] != r.value ==>
                          Before(counts, r.value, s[i])
  {
    if |s| == 0 then None
    else
      var rest := Best(counts, s[1..], excluded);
      assert forall i :: 1 <= i < |s| ==> s[i] == s[1..][i - 1];
      if s[0] in excluded then rest
      else
        match rest
        case None => Some(s[0])
        case Some(b) => if b == s[0] || Before(counts, b, s[0]) then Some(b) else Some(s[0])
  }

  /** The first `k` distinct characters of `s` outside `excluded` in that order:
      the source's `sorted_by(..).take(k)` over the tally */
  function Top(counts: map<char, nat>, s: string, k: nat, excluded: set<char>): (r: seq<char>)
    requires forall i :: 0 <= i < |s| ==> s[i] in counts
    ensures |r| <= k
    ensures forall i :: 0 <= i < |r| ==> r[i] in s && r[i] in counts && r[i] !in excluded
    ensures Distinct(r)
    ensures |r| < k ==> forall j :: 0 <= j < |s| ==> s[j] in excluded || s[j] in r
    ensures forall i, j :: 0 <= i < |r| && 0 <= j < |s| && s[j] !in excluded && s[j] !in r ==>
              Before(counts, r[i], s[j])
    decreases k
  {
    if k == 0 then []
    else
      match Best(counts, s, excluded)
      case None => []
      case Some(b) =>
        var rest := Top(counts, s, k - 1, excluded + {b});
        assert ([b] + rest)[1..] == rest;
        [b] + rest
  }

  /** The five most common letters of the name, in that order */
  function TopFive(name: string): (r: seq<char>)
  {
    TallyMeans(name);
    Top(Tally(name), name, 5, {})
  }

  /** A room is real when its top five letters, sorted, equal its checksum sorted */
  predicate Valid(room: Room) {
    SortChars(TopFive(room.name)) == SortChars(room.checksum)
  }

  /** The loop of `is_valid` that fills the tally map one character at a time */
  method CountLetters(name: string) returns (counts: map<char, nat>)
    ensures counts == Tally(name)
    ensures forall c :: c in counts <==> c in name
    ensures forall c :: c in counts ==> counts[c] == multiset(name)[c]
  {
    counts := map[];
    for i := 0 to |name|
      invariant counts == Tally(name[..i])
    {
      var c := name[i];
      assert name[..i + 1] == name[..i] + [c];
      TallySnoc(name[..i], c);
      counts := counts[c := (if c in counts then counts[c] else 0) + 1];
    }
    assert name[..|name|] == name;
    TallyMeans(name);
  }

  /** `Room::is_valid` */
  method IsValid(room: Room) returns (valid: bool)
    ensures valid == Valid(room)
  {
    var counts := CountLetters(room.name);
    TallyMeans(room.name);
    var biggest := SortChars(Top(counts, room.name, 5, {}));
    var checksum := SortChars(room.checksum);
    valid := biggest == checksum;
  }

  // ---------------------------------------------------------------------------
  // Sorting characters

  predicate SortedChars(s: string) {
    forall i, j :: 0 <= i < j < |s| ==> s[i] <= s[j]
  }

  function InsertChar(c: char, s: string): (r: string)
    requires SortedChars(s)
    ensures |r| == |s| + 1 && SortedChars(r)
    ensures r[0] == c || (|s| > 0 && r[0] == s[0])
  {
    if |s| == 0 || c <= s[0] then [c] + s
    else [s[0]] + InsertChar(c, s[1..])
  }

  /** `chars().sorted().collect::<String>()` */
  function SortChars(s: string): (r: string)
    ensures |r| == |s| && SortedChars(r)
  {
    if |s| == 0 then "" else InsertChar(s[0], SortChars(s[1..]))
  }

  lemma {:induction false} InsertCharPermutes(c: char, s: string)
    requires SortedChars(s)
    ensures multiset(InsertChar(c, s)) == multiset(s) + multiset{c}
  {
    if |s| > 0 && c > s[0] {
      InsertCharPermutes(c, s[1..]);
      assert s == [s[0]] + s[1..];
    }
  }

  lemma {:induction false} SortCharsPermutes(s: string)
    ensures multiset(SortChars(s)) == multiset(s)
  {
    if |s| > 0 {
      SortCharsPermutes(s[1..]);
      InsertCharPermutes(s[0], SortChars(s[1..]));
      assert SortChars(s) == InsertChar(s[0], SortChars(s[1..]));
      assert s == [s[0]] + s[1..];
      assert multiset(s) == multiset(s[1..]) + multiset{s[0]};
    }
  }

  lemma SortedHeadIsLeast(s: string, c: char)
    requires SortedChars(s) && c in multiset(s)
    ensures |s| > 0 && s[0] <= c
  {
    var j :| 0 <= j < |s| && s[j] == c;
  }

  lemma SameTail(a: string, b: string)
    requires |a| > 0 && |b| > 0 && a[0] == b[0] && multiset(a) == multiset(b)
    ensures multiset(a[1..]) == multiset(b[1..])
  {
    assert a == [a[0]] + a[1..] && b == [b[0]] + b[1..];
    assert multiset(a[1..]) == multiset(a) - multiset{a[0]};
    assert multiset(b[1..]) == multiset(b) - multiset{b[0]};
  }

  /** Two sorted strings with the same characters are equal */
  lemma {:induction false} SortedUnique(a: string, b: string)
    requires SortedChars(a) && SortedChars(b) && multiset(a) == multiset(b)
    ensures a == b
  {
    if |a| > 0 {
      assert a[0] in multiset(b);
      SortedHeadIsLeast(a, b[0]);
      SortedHeadIsLeast(b, a[0]);
      SameTail(a, b);
      SortedUnique(a[1..], b[1..]);
    } else {
      assert |b| == |multiset(b)| == 0;
    }
  }

  /** Sorting both sides compares characters with their multiplicities */
  lemma SortCharsEqual(a: string, b: string)
    ensures SortChars(a) == SortChars(b) <==> multiset(a) == multiset(b)
  {
    SortCharsPermutes(a);
    SortCharsPermutes(b);
    if multiset(a) == multiset(b) {
      SortedUnique(SortChars(a), SortChars(b));
    }
  }

  // ---------------------------------------------------------------------------
  // Properties of the checksum

  /** `c` comes before `d` in the source's order over the letters of `name`: more
      occurrences, or as many and earlier in the alphabet */
  predicate Outranks(name: string, c: char, d: char) {
    multiset(name)[c] > multiset(name)[d] ||
    (multiset(name)[c] == multiset(name)[d] && c < d)
  }


  /** `t` is a top five of `name`: at most five distinct letters of the name, all of
      them when the name has fewer, each outranking every letter left out */
  predicate IsTopFive(name: string, t: string) {
    |t| <= 5 && Distinct(t) &&
    (forall c :: c in t ==> c in name) &&
    (|t| < 5 ==> forall c :: c in name ==> c in t) &&
    (forall c, d :: c in t && d in name && d !in t ==> Outranks(name, c, d))
  }

  /** The five letters the source picks are a top five */
  lemma TopFiveMeans(name: string)
    ensures IsTopFive(name, TopFive(name))
  {
    var t := TopFive(name);
    TallyMeans(name);
    forall c, d | c in t && d in name && d !in t
      ensures Outranks(name, c, d)
    {
      var i :| 0 <= i < |t| && t[i] == c;
      var j :| 0 <= j < |name| && name[j] == d;
      assert Before(Tally(name), t[i], name[j]);
    }
    forall c | |t| < 5 && c in name
      ensures c in t
    {
      var j :| 0 <= j < |name| && name[j] == c;
    }
  }

  /** There is only one top five, up to order */
  lemma TopFiveUnique(name: string, t: string, u: string)
    requires IsTopFive(name, t) && IsTopFive(name, u)
    ensures multiset(t) == multiset(u)
  {
    var tSet := set c | c in t;
    var uSet := set c | c in u;
    DistinctCard(t);
    DistinctCard(u);
    forall c | c in t
      ensures c in u
    {
      Shared(name, t, u, c);
    }
    forall c | c in u
      ensures c in t
    {
      Shared(name, u, t, c);
    }
    DistinctMultiset(t);
    DistinctMultiset(u);
    assert forall c :: multiset(t)[c] == multiset(u)[c];
  }

  /** A letter of one top five is in every other: otherwise the other holds a
      letter outside the first, and each of the two would outrank the other */
  lemma Shared(name: string, t: string, u: string, c: char)
    requires IsTopFive(name, t) && IsTopFive(name, u) && c in t
    ensures c in u
  {
    if c !in u {
      var tSet := set x | x in t;
      var uSet := set x | x in u;
      DistinctCard(t);
      DistinctCard(u);
      assert c in name && c in tSet;
      assert |u| == 5;
      if uSet <= tSet {
        SubsetCard(uSet, tSet);
        assert false;
      }
    }
  }

  lemma {:induction false} DistinctCard(t: string)
    requires Distinct(t)
    ensures |set c | c in t| == |t|
  {
    if |t| > 0 {
      DistinctCard(t[1..]);
      assert (set c | c in t) == {t[0]} + (set c | c in t[1..]);
    }
  }

  lemma {:induction false} DistinctMultiset(t: string)
    requires Distinct(t)
    ensures forall c :: multiset(t)[c] == if c in t then 1 else 0
  {
    if |t| > 0 {
      DistinctMultiset(t[1..]);
      assert t == [t[0]] + t[1..];
    }
  }

  /** A subset is no larger, and a subset as large is the whole set */
  lemma SubsetCard(a: set<char>, b: set<char>)
    requires a <= b
    ensures |a| <= |b|
    ensures |a| == |b| ==> a == b
  {
    assert b == a + (b - a);
    assert a * (b - a) == {};
    if |a| == |b| {
      assert |b - a| == 0;
    }
  }

  /** Any top five decides validity: the checksum must be it, each letter once */
  lemma ValidAgainst(room: Room, t: string)
    requires IsTopFive(room.name, t)
    ensures Valid(room) <==> multiset(room.checksum) == multiset(t)
  {
    ValidMeans(room);
    TopFiveMeans(room.name);
    TopFiveUnique(room.name, t, TopFive(room.name));
  }

  /** A room is real exactly when its checksum holds the top five letters, each
      once, in some order */
  lemma ValidMeans(room: Room)
    ensures Valid(room) <==> multiset(room.checksum) == multiset(TopFive(room.name))
  {
    SortCharsEqual(TopFive(room.name), room.checksum);
  }

  /** A checksum letter that does not occur in the name makes the room a decoy */
  lemma ForeignLetterInvalid(room: Room, c: char)
    requires c in room.checksum && c !in room.name
    ensures !Valid(room)
  {
    ValidMeans(room);
    var t := TopFive(room.name);
    assert c !in multiset(t);
    assert c in multiset(room.checksum);
  }

  // ---------------------------------------------------------------------------
  // Decryption

  /** A name the source can decrypt: it subtracts `'a'` in unsigned arithmetic, which
      panics below `'a'` */
  predicate Decryptable(name: string) {
    forall i :: 0 <= i < |name| ==> name[i] >= 'a'
  }

  predicate Lowercase(s: string) {
    forall i :: 0 <= i < |s| ==> 'a' <= s[i] <= 'z'
  }

  function Shift(c: char, n: nat): (r: char)
    requires c >= 'a'
  {
    ('a' as int + ((c as int - 'a' as int) + n) % 26) as char
  }

  /** `Room::decrypt`: every character rotated forward by the sector within `a`..`z` */
  function Decrypt(room: Room): (r: string)
    requires Decryptable(room.name)
    ensures |r| == |room.name| && Lowercase(r)
    ensures forall i :: 0 <= i < |r| ==>
              r[i] as int - 'a' as int == (room.name[i] as int - 'a' as int + room.sector) % 26
  {
    seq(|room.name|, i requires 0 <= i < |room.name| => Shift(room.name[i], room.sector))
  }

  /** Rotations add up, and a full turn of 26 is no rotation */
  lemma ShiftCompose(c: char, m: nat, n: nat)
    requires 'a' <= c <= 'z'
    ensures Shift(Shift(c, m), n) == Shift(c, m + n)
    ensures Shift(c, 26 * n) == c
  {
  }

  /** Decrypting with the complementary shift gives a lowercase name back */
  lemma DecryptInverse(room: Room)
    requires Lowercase(room.name)
    ensures Decrypt(Room(Decrypt(room), 26 - room.sector % 26, room.checksum)) == room.name
  {
    var back := Decrypt(Room(Decrypt(room), 26 - room.sector % 26, room.checksum));
    forall i | 0 <= i < |room.name|
      ensures back[i] == room.name[i]
    {
      UndoShift(room.name[i] as int - 'a' as int, room.sector);
    }
  }

  /** A shift by `n` followed by one by `26 - n % 26` is a whole number of turns */
  lemma UndoShift(x: int, n: nat)
    requires 0 <= x < 26
    ensures ((x + n) % 26 + (26 - n % 26)) % 26 == x
  {
    var q, r := n / 26, n % 26;
    assert n == 26 * q + r;
    assert (x + n) % 26 == (x + r) % 26 by {
      assert x + n == (x + r) + 26 * q;
    }
    if x + r < 26 {
      assert (x + r) % 26 == x + r;
      assert (x + r + (26 - r)) % 26 == (x + 26) % 26 == x;
    } else {
      assert (x + r) % 26 == x + r - 26;
    }
  }

  /** Sectors that differ by a multiple of 26 decrypt alike */
  lemma DecryptPeriodic(room: Room, k: nat)
    requires Decryptable(room.name)
    ensures Decrypt(Room(room.name, room.sector + 26 * k, room.checksum)) == Decrypt(room)
  {
    var a := Decrypt(Room(room.name, room.sector + 26 * k, room.checksum));
    var b := Decrypt(room);
    forall i | 0 <= i < |a|
      ensures a[i] == b[i]
    {
      var d := room.name[i] as int - 'a' as int;
      assert (d + room.sector + 26 * k) % 26 == (d + room.sector) % 26;
    }
  }

  // ---------------------------------------------------------------------------
  // Parts

  /** The sum of all sectors */
  function TotalSectors(rooms: seq<Room>): nat {
    if |rooms| == 0 then 0 else TotalSectors(rooms[..|rooms| - 1]) + rooms[|rooms| - 1].sector
  }

  /** The real rooms, in order */
  function RealRooms(rooms: seq<Room>): (r: seq<Room>)
    ensures forall x :: x in r ==> Valid(x) && x in rooms
    ensures forall x :: x in rooms && Valid(x) ==> x in r
  {
    if |rooms| == 0 then []
    else
      var init := rooms[..|rooms| - 1];
      var last := rooms[|rooms| - 1];
      assert forall x :: x in rooms ==> x in init || x == last;
      RealRooms(init) + (if Valid(last) then [last] else [])
  }

  /** Part one: the sum of the sectors of the real rooms */
  function Part1(rooms: seq<Room>): (r: nat)
    ensures r <= TotalSectors(rooms)
  {
    if |rooms| == 0 then 0
    else
      var last := rooms[|rooms| - 1];
      Part1(rooms[..|rooms| - 1]) + (if Valid(last) then last.sector else 0)
  }

  /** Part one adds up the sectors of exactly the real rooms */
  lemma {:induction false} Part1SumsRealRooms(rooms: seq<Room>)
    ensures Part1(rooms) == TotalSectors(RealRooms(rooms))
  {
    if |rooms| > 0 {
      var init := rooms[..|rooms| - 1];
      var last := rooms[|rooms| - 1];
      Part1SumsRealRooms(init);
      TotalSectorsConcat(RealRooms(init), if Valid(last) then [last] else []);
    }
  }

  lemma {:induction false} TotalSectorsConcat(a: seq<Room>, b: seq<Room>)
    ensures TotalSectors(a + b) == TotalSectors(a) + TotalSectors(b)
    decreases |b|
  {
    if |b| > 0 {
      TotalSectorsConcat(a, b[..|b| - 1]);
      assert (a + b)[..|a + b| - 1] == a + b[..|b| - 1];
    } else {
      assert a + b == a;
    }
  }

  /** Part one over a concatenation is the sum of the parts */
  lemma {:induction false} Part1Concat(a: seq<Room>, b: seq<Room>)
    ensures Part1(a + b) == Part1(a) + Part1(b)
    decreases |b|
  {
    if |b| > 0 {
      Part1Concat(a, b[..|b| - 1]);
      assert (a + b)[..|a + b| - 1] == a + b[..|b| - 1];
    } else {
      assert a + b == a;
    }
  }

  const NorthPole := "northpoleobjectstorage"

  /** Room `i` is the first whose name decrypts to the North Pole storage, and every
      room before it decrypts without panicking */
  predicate FirstNorthPole(rooms: seq<Room>, i: int) {
    0 <= i < |rooms| &&
    (forall j :: 0 <= j <= i ==> Decryptable(rooms[j].name)) &&
    Decrypt(rooms[i]) == NorthPole &&
    (forall j :: 0 <= j < i ==> Decrypt(rooms[j]) != NorthPole)
  }

  /** Part two: the sector of the first room named for the North Pole storage;
      `None` where the source panics (no such room, or an undecryptable name before
      it) */
  function Part2(rooms: seq<Room>): (r: Option<nat>)
    ensures r.Some? <==> exists i :: FirstNorthPole(rooms, i)
    ensures forall i :: FirstNorthPole(rooms, i) ==> r == Some(rooms[i].sector)
  {
    if |rooms| == 0 then None
    else if !Decryptable(rooms[0].name) then None
    else if Decrypt(rooms[0]) == NorthPole then
      assert FirstNorthPole(rooms, 0);
      Some(rooms[0].sector)
    else
      FirstNorthPoleLater(rooms);
      Part2(rooms[1..])
  }

  /** Past a decryptable room that is not the storage, the first storage room of
      the rest is the first of the whole list */
  lemma FirstNorthPoleLater(rooms: seq<Room>)
    requires |rooms| > 0 && Decryptable(rooms[0].name) && Decrypt(rooms[0]) != NorthPole
    ensures forall i :: FirstNorthPole(rooms[1..], i) ==> FirstNorthPole(rooms, i + 1)
    ensures forall i :: FirstNorthPole(rooms, i) ==> i > 0 && FirstNorthPole(rooms[1..], i - 1)
  {
    forall i | FirstNorthPole(rooms[1..], i)
      ensures FirstNorthPole(rooms, i + 1)
    {
      assert forall j :: 1 <= j <= i + 1 ==> rooms[j] == rooms[1..][j - 1];
    }
    forall i | FirstNorthPole(rooms, i)
      ensures i > 0 && FirstNorthPole(rooms[1..], i - 1)
    {
      assert forall j :: 0 <= j < i ==> rooms[1..][j] == rooms[j + 1];
    }
  }

  // ---------------------------------------------------------------------------
  // Parsing properties

  /** Formatting a room and parsing it back gives the pieces joined, the sector and
      the checksum */
  lemma ParseFormat(pieces: seq<string>, sector: nat, checksum: string)
    requires forall k, i :: 0 <= k < |pieces| && 0 <= i < |pieces[k]| ==> pieces[k][i] != '-'
    requires forall i :: 0 <= i < |checksum| ==>
               checksum[i] != '-' && checksum[i] != '[' && checksum[i] != ']'
    ensures ParseRoom(Format(pieces, sector, checksum)) == Some(Room(Concat(pieces), sector, checksum))
  {
    var last := NatToString(sector) + "[" + checksum + "]";
    var all := pieces + [last];
    LastPart(sector, checksum);
    SplitJoin(all, '-');
    assert all[..|all| - 1] == pieces;
    ParseNatToString(sector);
  }

  /** The part after the last dash: free of dashes, and it splits back into the
      digits and the checksum */
  lemma LastPart(sector: nat, checksum: string)
    requires forall i :: 0 <= i < |checksum| ==>
               checksum[i] != '-' && checksum[i] != '[' && checksum[i] != ']'
    ensures var last := NatToString(sector) + "[" + checksum + "]";
      (forall i :: 0 <= i < |last| ==> last[i] != '-') &&
      Split(TrimEndMatches(last, ']'), '[') == [NatToString(sector), checksum]
  {
    var digits := NatToString(sector);
    var last := digits + "[" + checksum + "]";
    assert forall i :: 0 <= i < |digits| ==> IsDigit(digits[i]);
    forall i | 0 <= i < |last|
      ensures last[i] != '-'
    {
      if i < |digits| {
        assert last[i] == digits[i];
      } else if i > |digits| && i < |last| - 1 {
        assert last[i] == checksum[i - |digits| - 1];
      }
    }
    assert TrimEndMatches(last, ']') == digits + "[" + checksum by {
      assert last[..|last| - 1] == digits + "[" + checksum;
    }
    assert digits + "[" + checksum == Join([digits, checksum], "[");
    SplitJoin([digits, checksum], '[');
  }

  /** Extra closing brackets at the end change nothing */
  lemma TrailingBracket(s: string)
    ensures ParseRoom(s + "]") == ParseRoom(s)
  {
    SplitSnoc(s, ']', '-');
    var parts := Split(s, '-');
    var parts' := Split(s + "]", '-');
    assert parts'[..|parts'| - 1] == parts[..|parts| - 1];
    assert parts'[|parts'| - 1] == parts[|parts| - 1] + "]";
  }

  // ---------------------------------------------------------------------------
  // The source's examples

  /** The source's parsing example: the pieces formatted as
      `aczupnetwp-dnlgpyrpc-sfye-dstaatyr-561[patyc]` */
  lemma ParseExample(pieces: seq<string>)
    requires pieces == ["aczupnetwp", "dnlgpyrpc", "sfye", "dstaatyr"]
    ensures ParseRoom(Format(pieces, 561, "patyc")) ==
            Some(Room("aczupnetwpdnlgpyrpcsfyedstaatyr", 561, "patyc"))
  {
    ParseFormat(pieces, 561, "patyc");
    ExampleName(pieces);
  }

  lemma ExampleName(pieces: seq<string>)
    requires pieces == ["aczupnetwp", "dnlgpyrpc", "sfye", "dstaatyr"]
    ensures Concat(pieces) == "aczupnetwpdnlgpyrpcsfyedstaatyr"
  {
    assert pieces[1..][1..][1..] == ["dstaatyr"];
    assert Concat(pieces[1..][1..]) == "sfye" + "dstaatyr";
    assert Concat(pieces[1..]) == "dnlgpyrpc" + ("sfye" + "dstaatyr");
    assert Concat(pieces) == "aczupnetwp" + ("dnlgpyrpc" + ("sfye" + "dstaatyr"));
  }

  /** `aaaaa-bbb-z-y-x-123[abxyz]` is real: the name has only five letters */
  lemma RealExample1(room: Room)
    requires room == Room("aaaaabbbzyx", 123, "abxyz")
    ensures Valid(room)
  {
    Letters1(room.name);
    Counts1(room.name);
    Top1(room.name);
    ValidAgainst(room, room.checksum);
  }

  lemma Letters1(name: string)
    requires name == "aaaaabbbzyx"
    ensures multiset(name) == multiset{'a', 'a', 'a', 'a', 'a', 'b', 'b', 'b', 'x', 'y', 'z'}
  {
  }

  lemma Counts1(name: string)
    requires multiset(name) == multiset{'a', 'a', 'a', 'a', 'a', 'b', 'b', 'b', 'x', 'y', 'z'}
    ensures forall c :: c in name <==> c in "abxyz"
  {
    assert forall c :: c in name <==> c in multiset(name);
  }

  lemma Top1(name: string)
    requires forall c :: c in name <==> c in "abxyz"
    ensures IsTopFive(name, "abxyz")
  {
    assert Distinct("abxyz");
  }

  /** `a-b-c-d-e-f-g-h-987[abcde]]` is real: all eight letters tie, and the first
      five in the alphabet win */
  lemma RealExample2(room: Room)
    requires room == Room("abcdefgh", 987, "abcde")
    ensures Valid(room)
  {
    Letters2(room.name);
    Counts2(room.name);
    Top2(room.name);
    ValidAgainst(room, room.checksum);
  }

  lemma Letters2(name: string)
    requires name == "abcdefgh"
    ensures multiset(name) == multiset{'a', 'b', 'c', 'd', 'e', 'f', 'g', 'h'}
  {
  }

  lemma Counts2(name: string)
    requires multiset(name) == multiset{'a', 'b', 'c', 'd', 'e', 'f', 'g', 'h'}
    ensures forall c :: c in name <==> c in "abcdefgh"
    ensures forall c :: c in name ==> multiset(name)[c] == 1
  {
    assert forall c :: c in name <==> c in multiset(name);
  }

  lemma Top2(name: string)
    requires forall c :: c in name <==> c in "abcdefgh"
    requires forall c :: c in name ==> multiset(name)[c] == 1
    ensures IsTopFive(name, "abcde")
  {
    assert Distinct("abcde");
  }

  /** `not-a-real-room-404[oarel]` is real: `o` three times, `a` and `r` twice, then
      `e` and `l` first among the letters seen once */
  lemma RealExample3(room: Room)
    requires room == Room("notarealroom", 404, "oarel")
    ensures Valid(room)
  {
    Letters3(room.name);
    Counts3(room.name);
    Top3(room.name);
    ValidAgainst(room, room.checksum);
  }

  lemma Letters3(name: string)
    requires name == "notarealroom"
    ensures multiset(name) == multiset{'o', 'o', 'o', 'r', 'r', 'a', 'a', 'e', 'l', 'n', 't', 'm'}
  {
  }

  lemma Counts3(name: string)
    requires multiset(name) == multiset{'o', 'o', 'o', 'r', 'r', 'a', 'a', 'e', 'l', 'n', 't', 'm'}
    ensures forall c :: c in name <==> c in "oarelntm"
    ensures multiset(name)['o'] == 3 && multiset(name)['r'] == 2 && multiset(name)['a'] == 2
    ensures multiset(name)['e'] == 1 && multiset(name)['l'] == 1
    ensures multiset(name)['n'] == 1 && multiset(name)['t'] == 1 && multiset(name)['m'] == 1
  {
    assert forall c :: c in name <==> c in multiset(name);
  }

  lemma Top3(name: string)
    requires forall c :: c in name <==> c in "oarelntm"
    requires multiset(name)['o'] == 3 && multiset(name)['r'] == 2 && multiset(name)['a'] == 2
    requires multiset(name)['e'] == 1 && multiset(name)['l'] == 1
    requires multiset(name)['n'] == 1 && multiset(name)['t'] == 1 && multiset(name)['m'] == 1
    ensures IsTopFive(name, "oarel")
  {
    assert Distinct("oarel");
  }

  /** `totally-real-room-200[decoy]` is a decoy: there is no `d` in its name */
  lemma DecoyExample(room: Room)
    requires room == Room("totallyrealroom", 200, "decoy")
    ensures !Valid(room)
  {
    assert room.checksum[0] == 'd';
    ForeignLetterInvalid(room, 'd');
  }

  /** `qzmt-zixmtkozy-ivhz-343` decrypts to `veryencryptedname` */
  lemma DecryptExample(room: Room)
    requires room == Room("qzmtzixmtkozyivhz", 343, "abcde")
    ensures Decrypt(room) == "veryencryptedname"
  {
    DecryptPeriodic(Room(room.name, 5, room.checksum), 13);
    DecryptFive(Room(room.name, 5, room.checksum));
  }

  lemma DecryptFive(room: Room)
    requires room == Room("qzmtzixmtkozyivhz", 5, "abcde")
    ensures Decrypt(room) == "veryencryptedname"
  {
  }
}
