/** Day 16: dragon-curve data and its checksum. The data grows by appending a
    zero and the reversed, complemented copy of itself until it is long enough;
    it is cut to the disk length, and the checksum pairs up characters (equal
    pairs give `1`, different ones `0`) for as long as its length is even. */
module Day16 {
  import opened Strings

  // ---------------------------------------------------------------------------
  // The dragon curve

  /** The complement of one character: `'1'` becomes `'0'`, anything else `'1'` */
  function Flip(c: char): (r: char)
    ensures r == '0' <==> c == '1'
    ensures r in {'0', '1'}
  {
    if c == '1' then '0' else '1'
  }

  /** `a.chars().rev().map(flip)`: the reversed complement */
  function Mirror(a: string): (b: string)
    ensures |b| == |a| && forall k :: 0 <= k < |a| ==> b[k] == Flip(a[|a| - 1 - k])
  {
    seq(|a|, k requires 0 <= k < |a| => Flip(a[|a| - 1 - k]))
  }

  /** One pass of the expansion loop */
  function Step(a: string): string
  {
    a + "0" + Mirror(a)
  }

  /** A step keeps the data as a prefix, adds a zero, then the reversed
      complement: its length is 2|a| + 1 */
  lemma StepShape(a: string)
    ensures |Step(a)| == 2 * |a| + 1
    ensures Step(a)[..|a|] == a && Step(a)[|a|] == '0'
    ensures forall k :: |a| < k < 2 * |a| + 1 ==> Step(a)[k] == Flip(a[2 * |a| - k])
  {
  }

  /** The expansion loop: steps until the data is at least `length` long */
  function Expand(a: string, length: nat): (r: string)
    ensures |r| >= length
    decreases length - |a|
  {
    if |a| >= length then a else Expand(Step(a), length)
  }

  /** The expanded data still starts with the input, and data already long
      enough is left alone */
  lemma {:induction false} ExpandShape(a: string, length: nat)
    ensures a <= Expand(a, length)
    ensures |a| >= length ==> Expand(a, length) == a
    decreases length - |a|
  {
    if |a| < length {
      StepShape(a);
      ExpandShape(Step(a), length);
    }
  }

  /** Expanding never loses the complement rule: every character after the input
      is `0` or `1` */
  lemma {:induction false} ExpandAlphabet(a: string, length: nat)
    ensures forall k :: |a| <= k < |Expand(a, length)| ==> Expand(a, length)[k] in {'0', '1'}
    decreases length - |a|
  {
    if |a| < length {
      var s := Step(a);
      StepShape(a);
      ExpandAlphabet(s, length);
      ExpandShape(s, length);
      forall k | |a| <= k < |Expand(a, length)| ensures Expand(a, length)[k] in {'0', '1'} {
        if k < |s| {
          assert Expand(a, length)[k] == s[k];
        }
      }
    }
  }

  // ---------------------------------------------------------------------------
  // The checksum

  /** One checksum round: each pair of characters becomes `1` when they are equal
      and `0` otherwise */
  function Reduce(s: string): (r: string)
  {
    seq(|s| / 2, k requires 0 <= k < |s| / 2 => if s[2 * k] == s[2 * k + 1] then '1' else '0')
  }

  /** A round halves the length, and each pair of the input decides one character */
  lemma ReduceShape(s: string)
    ensures |Reduce(s)| == |s| / 2
    ensures forall k :: 0 <= k < |s| / 2 ==> (Reduce(s)[k] == '1' <==> s[2 * k] == s[2 * k + 1])
    ensures forall k :: 0 <= k < |Reduce(s)| ==> Reduce(s)[k] in {'0', '1'}
  {
  }

  /** Rounds repeat while the length is even */
  function Checksum(s: string): string
    requires |s| > 0
    decreases |s|
  {
    if |s| % 2 == 0 then Checksum(Reduce(s)) else s
  }

  /** The largest odd divisor of n */
  function OddPart(n: nat): nat
    requires n > 0
  {
    if n % 2 == 0 then OddPart(n / 2) else n
  }

  /** The checksum is as long as the odd part of the data's length, so it is odd;
      an odd-length input is its own checksum, and any round leaves only `0`
      and `1` */
  lemma {:induction false} ChecksumShape(s: string)
    requires |s| > 0
    ensures |Checksum(s)| == OddPart(|s|) && |Checksum(s)| % 2 == 1
    ensures |s| % 2 == 1 ==> Checksum(s) == s
    ensures |s| % 2 == 0 ==> forall k :: 0 <= k < |Checksum(s)| ==> Checksum(s)[k] in {'0', '1'}
    decreases |s|
  {
    if |s| % 2 == 0 {
      ReduceShape(s);
      ChecksumShape(Reduce(s));
      if |Reduce(s)| % 2 == 1 {
        assert Checksum(Reduce(s)) == Reduce(s);
      }
    }
  }

  /** `generate_checksum`: the data is grown in place until it covers the disk,
      cut to `length`, and reduced round by round. A length of zero would make
      the source loop for ever on the empty checksum */
  method GenerateChecksum(input: string, length: nat) returns (checksum: string)
    requires length >= 1
    ensures checksum == Checksum(Expand(Trim(input), length)[..length])
  {
    var a := Trim(input);
    while |a| < length
      invariant Expand(a, length) == Expand(Trim(input), length)
      decreases length - |a|
    {
      var b := Mirror(a);
      a := a + ['0'];
      a := a + b;
    }
    checksum := a[..length];
    while |checksum| % 2 == 0
      invariant |checksum| > 0 && Checksum(checksum) == Checksum(a[..length])
      decreases |checksum|
    {
      checksum := Reduce(checksum);
    }
  }

  /** Part one: a disk of 272 characters */
  method Part1(input: string) returns (checksum: string)
    ensures checksum == Checksum(Expand(Trim(input), 272)[..272])
  {
    checksum := GenerateChecksum(input, 272);
  }

  /** Part two: a disk of 35651584 characters */
  method Part2(input: string) returns (checksum: string)
    ensures checksum == Checksum(Expand(Trim(input), 35651584)[..35651584])
  {
    checksum := GenerateChecksum(input, 35651584);
  }

  // ---------------------------------------------------------------------------
  // The puzzle's examples

  lemma StepExamples()
    ensures Step("1") == "100"
    ensures Step("0") == "001"
    ensures Step("11111") == "11111000000"
  {
  }

  lemma ChecksumExample()
    ensures Checksum("110010110100") == "100"
  {
    assert Reduce("110010110100") == "110101";
    assert Reduce("110101") == "100";
  }

  /** Filling a disk of 20 from `10000` */
  lemma DiskExample()
    ensures Checksum(Expand("10000", 20)[..20]) == "01100"
  {
    assert Step("10000") == "10000011110";
    assert Step("10000011110") == "10000011110010000111110";
    assert Expand("10000", 20) == "10000011110010000111110";
    assert Expand("10000", 20)[..20] == "10000011110010000111";
    assert Reduce("10000011110010000111") == "0111110101";
    assert Reduce("0111110101") == "01100";
  }
}
