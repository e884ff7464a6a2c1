/** Day 25: a clock signal. The puzzle's assembunny program adds 14 * 182 to
    the starting value of register `a`, then repeatedly prints the remainder of
    halving it until it reaches zero. Part one looks for the smallest positive
    start whose output is the alternating signal `010101010101`. */
module Day25 {

  /** The constant the program adds to the start value */
  const Offset: nat := 14 * 182

  /** The signal part one looks for */
  const Signal: string := "010101010101"

  /** The digit of a remainder */
  function Digit(b: nat): char
    requires b < 2
  {
    if b == 0 then '0' else '1'
  }

  /** What `run_program` prints for `d`: the remainders of halving, least
      significant first, until zero */
  function Remainders(d: nat): string
    decreases d
  {
    if d == 0 then "" else [Digit(d % 2)] + Remainders(d / 2)
  }

  /** The number a string of binary digits denotes, least significant first */
  function Value(s: string): nat
  {
    if |s| == 0 then 0 else (if s[0] == '1' then 1 else 0) + 2 * Value(s[1..])
  }

  /** Made of `0` and `1`, without a trailing (most significant) zero */
  predicate Canonical(s: string) {
    (forall k :: 0 <= k < |s| ==> s[k] in {'0', '1'}) && (|s| > 0 ==> s[|s| - 1] == '1')
  }

  function Pow2(n: nat): nat
  {
    if n == 0 then 1 else 2 * Pow2(n - 1)
  }

  /** `run_program`: the remainder the loop prints, `2 - (2 - a % 2)`, is
      `a % 2`, and every pass halves `a` */
  method RunProgram(d: nat) returns (output: string)
    ensures output == Remainders(d)
  {
    output := "";
    var a := d;
    while a != 0
      invariant output + Remainders(a) == Remainders(d)
      decreases a
    {
      var c := 2 - a % 2;
      a := a / 2;
      var b := 2 - c;
      assert [Digit(b)] + Remainders(a) == Remainders(2 * a + b);
      output := output + [Digit(b)];
    }
    assert output + "" == output;
  }

  /** The output reads back as the number, and is canonical */
  lemma {:induction false} RemaindersValue(d: nat)
    ensures Value(Remainders(d)) == d
    ensures Canonical(Remainders(d))
    decreases d
  {
    if d > 0 {
      RemaindersValue(d / 2);
      var s := Remainders(d);
      assert s[1..] == Remainders(d / 2);
    }
  }

  /** Every canonical string is the output of the number it denotes */
  lemma {:induction false} ValueRemainders(s: string)
    requires Canonical(s)
    ensures Remainders(Value(s)) == s
  {
    if |s| > 0 {
      var t := s[1..];
      assert Canonical(t) by {
        assert forall k :: 0 <= k < |t| ==> t[k] == s[k + 1];
      }
      ValueRemainders(t);
      if |t| > 0 {
        ValuePositive(t);
      }
      var bit := if s[0] == '1' then 1 else 0;
      var v := Value(s);
      Halve(bit, Value(t));
      assert v > 0 && Digit(v % 2) == s[0];
      assert Remainders(v) == [s[0]] + Remainders(Value(t));
      assert [s[0]] + t == s;
    }
  }

  /** Halving `bit + 2 * w` leaves the remainder `bit` and the quotient `w` */
  lemma Halve(bit: nat, w: nat)
    requires bit < 2
    ensures (bit + 2 * w) % 2 == bit && (bit + 2 * w) / 2 == w
  {
  }

  /** A canonical string that is not empty denotes a positive number */
  lemma {:induction false} ValuePositive(s: string)
    requires Canonical(s) && |s| > 0
    ensures Value(s) > 0
  {
    if s[0] != '1' {
      var t := s[1..];
      assert Canonical(t) by {
        assert forall k :: 0 <= k < |t| ==> t[k] == s[k + 1];
      }
      assert |t| > 0;
      ValuePositive(t);
    }
  }

  /** Different numbers print different outputs */
  lemma RemaindersInjective(d: nat, e: nat)
    requires Remainders(d) == Remainders(e)
    ensures d == e
  {
    RemaindersValue(d);
    RemaindersValue(e);
  }

  /** The output has one digit per binary digit of the number: nothing for 0,
      otherwise `n` digits where `2^(n-1) <= d < 2^n` */
  lemma {:induction false} RemaindersLength(d: nat)
    ensures d == 0 <==> |Remainders(d)| == 0
    ensures d > 0 ==> Pow2(|Remainders(d)| - 1) <= d < Pow2(|Remainders(d)|)
    decreases d
  {
    if d > 0 {
      RemaindersLength(d / 2);
    }
  }

  /** The signal is the output of `0b101010101010`, that is 2730 */
  lemma SignalValue()
    ensures Remainders(2730) == Signal
  {
    assert Canonical(Signal);
    assert Value(Signal) == 2730;
    ValueRemainders(Signal);
  }

  /** The output of the puzzle's program started with `a` */
  function Output(a: nat): string
  {
    Remainders(a + Offset)
  }

  /** Part one: the smallest positive `a` whose output, after the program adds
      `Offset`, is the signal. The loop of the source is unbounded; it stops at
      182, since only 2730 prints the signal. */
  method Part1() returns (r: nat)
    ensures r >= 1 && Output(r) == Signal
    ensures forall a :: 1 <= a < r ==> Output(a) != Signal
    ensures r == 182
  {
    SignalValue();
    var a := 1;
    while true
      invariant 1 <= a <= 182
      invariant forall b :: 1 <= b < a ==> Output(b) != Signal
      decreases 182 - a
    {
      var d := a + Offset;
      var output := RunProgram(d);
      if output == Signal {
        RemaindersInjective(d, 2730);
        return a;
      }
      assert Output(a) != Signal;
      a := a + 1;
    }
  }
}
