/** Day 23: the interpreter of day 12 with a fifth instruction, `tgl`, which
    rewrites another instruction of the running program in place. A copy into a
    raw value is now skipped instead of panicking, and the jump offset may come
    from a register. Part two is computed in closed form. */
module Day23 {
  import opened Wrappers
  import opened Strings

  /** A register number: 0 to 3 for `a` to `d` */
  type Reg = r: nat | r < 4

  datatype Operand = Raw(value: int) | Register(index: Reg)

  datatype Instruction =
    | Copy(source: Operand, target: Operand)
    | Inc(x: Operand)
    | Dec(x: Operand)
    | JumpNonZero(test: Operand, offset: Operand)
    | Toggle(x: Operand)

  // ---------------------------------------------------------------------------
  // Parsing

  /** `Operand::from_str`: a register letter, or else an integer */
  function ParseOperand(s: string): (r: Option<Operand>)
    ensures s == "a" ==> r == Some(Register(0))
    ensures s == "b" ==> r == Some(Register(1))
    ensures s == "c" ==> r == Some(Register(2))
    ensures s == "d" ==> r == Some(Register(3))
    ensures s !in {"a", "b", "c", "d"} ==>
              (r.Some? <==> ParseInt(s).Some?) && (r.Some? ==> r == Some(Raw(ParseInt(s).value)))
  {
    if s == "a" then Some(Register(0))
    else if s == "b" then Some(Register(1))
    else if s == "c" then Some(Register(2))
    else if s == "d" then Some(Register(3))
    else
      match ParseInt(s)
      case Some(v) => Some(Raw(v))
      case None => None
  }

  /** The words of one line; `None` where the source panics */
  function ParseWords(words: seq<string>): Option<Instruction>
  {
    if |words| == 3 && (words[0] == "cpy" || words[0] == "jnz") then
      match (ParseOperand(words[1]), ParseOperand(words[2]))
      case (Some(x), Some(y)) => if words[0] == "cpy" then Some(Copy(x, y)) else Some(JumpNonZero(x, y))
      case _ => None
    else if |words| == 2 && words[0] in {"inc", "dec", "tgl"} then
      match ParseOperand(words[1])
      case Some(x) =>
        if words[0] == "inc" then Some(Inc(x)) else if words[0] == "dec" then Some(Dec(x)) else Some(Toggle(x))
      case None => None
    else None
  }

  function ParseLine(line: string): Option<Instruction>
  {
    ParseWords(Words(line))
  }

  /** One instruction per line of the trimmed input, split at ASCII whitespace */
  function Generator(input: string): (r: Option<seq<Instruction>>)
    ensures var lines := Lines(Trim(input));
      (r.Some? <==> forall k :: 0 <= k < |lines| ==> ParseLine(lines[k]).Some?) &&
      (r.Some? ==> |r.value| == |lines| &&
                   forall k :: 0 <= k < |lines| ==> ParseLine(lines[k]) == Some(r.value[k]))
  {
    TraverseAt(Lines(Trim(input)), ParseLine);
    Traverse(Lines(Trim(input)), ParseLine)
  }

  /** The new instruction and the jump with a register offset */
  lemma ParseExamples()
    ensures ParseWords(["tgl", "c"]) == Some(Toggle(Register(2)))
    ensures ParseWords(["jnz", "1", "c"]) == Some(JumpNonZero(Raw(1), Register(2)))
    ensures ParseWords(["tgl"]) == None
  {
    assert ParseInt("1") == Some(1) by {
      assert DigitsOf("1") == Some(1);
    }
  }

  // ---------------------------------------------------------------------------
  // Semantics

  /** `tgl`: copies and jumps trade places, increments and decrements trade
      places, and a toggle becomes an increment */
  function Toggled(i: Instruction): Instruction
  {
    match i
    case Copy(x, y) => JumpNonZero(x, y)
    case Inc(x) => Dec(x)
    case Dec(x) => Inc(x)
    case JumpNonZero(x, y) => Copy(x, y)
    case Toggle(x) => Inc(x)
  }

  /** Toggling twice gives back every instruction except a toggle, which ends up
      a decrement */
  lemma ToggledTwice(i: Instruction)
    ensures !i.Toggle? ==> Toggled(Toggled(i)) == i
    ensures i.Toggle? ==> Toggled(Toggled(i)) == Dec(i.x) != i
  {
  }

  /** The instruction pointer, the four registers and the program, which `tgl`
      rewrites */
  datatype Machine = Machine(pointer: int, registers: seq<int>, program: seq<Instruction>)

  predicate Sized(m: Machine) {
    |m.registers| == 4
  }

  /** The instruction pointer is inside the program */
  predicate Running(m: Machine) {
    0 <= m.pointer < |m.program|
  }

  /** `get_value`: a raw value, or the content of a register */
  function Get(m: Machine, op: Operand): int
    requires Sized(m)
  {
    match op
    case Raw(v) => v
    case Register(r) => m.registers[r]
  }

  /** The instruction at the pointer; `None` where the source panics on a raw
      value given to an increment or a decrement */
  function Exec(m: Machine): (r: Option<Machine>)
    requires Sized(m) && Running(m)
    ensures r.Some? ==> Sized(r.value)
  {
    match m.program[m.pointer]
    case Copy(x, y) =>
      if y.Register? then Some(m.(pointer := m.pointer + 1, registers := m.registers[y.index := Get(m, x)]))
      else Some(m.(pointer := m.pointer + 1))
    case Inc(x) =>
      if x.Register? then Some(m.(pointer := m.pointer + 1, registers := m.registers[x.index := m.registers[x.index] + 1]))
      else None
    case Dec(x) =>
      if x.Register? then Some(m.(pointer := m.pointer + 1, registers := m.registers[x.index := m.registers[x.index] - 1]))
      else None
    case JumpNonZero(x, y) =>
      if Get(m, x) != 0 then Some(m.(pointer := m.pointer + Get(m, y))) else Some(m.(pointer := m.pointer + 1))
    case Toggle(x) =>
      var target := m.pointer + Get(m, x);
      if 0 <= target < |m.program| then
        Some(m.(pointer := m.pointer + 1, program := m.program[target := Toggled(m.program[target])]))
      else Some(m.(pointer := m.pointer + 1))
  }

  /** A toggle rewrites only its target, and only when the target is inside the
      program; it changes no register and never the program's length */
  lemma ToggleFacts(m: Machine)
    requires Sized(m) && Running(m) && m.program[m.pointer].Toggle?
    ensures var n, target := Exec(m).value, m.pointer + Get(m, m.program[m.pointer].x);
            n.pointer == m.pointer + 1 && n.registers == m.registers && |n.program| == |m.program| &&
            (forall k :: 0 <= k < |m.program| && k != target ==> n.program[k] == m.program[k]) &&
            (0 <= target < |m.program| ==> n.program[target] == Toggled(m.program[target])) &&
            (!(0 <= target < |m.program|) ==> n.program == m.program)
  {
  }

  /** A copy into a raw value does nothing but move on; an increment or decrement
      of a raw value panics; a jump reads its offset, which may be a register,
      and a taken jump does not move on by one as well */
  lemma ExecFacts(m: Machine)
    requires Sized(m) && Running(m)
    ensures var i := m.program[m.pointer];
            (i.Copy? && i.target.Raw? ==> Exec(m) == Some(m.(pointer := m.pointer + 1))) &&
            ((i.Inc? || i.Dec?) ==> (Exec(m).Some? <==> i.x.Register?)) &&
            (i.JumpNonZero? ==>
               Exec(m) == Some(m.(pointer := if Get(m, i.test) != 0 then m.pointer + Get(m, i.offset) else m.pointer + 1)))
    ensures !m.program[m.pointer].Toggle? && Exec(m).Some? ==> Exec(m).value.program == m.program
  {
  }

  /** How a run ends: halted with the pointer outside the program, panicked, or
      still running when the fuel is spent */
  datatype Status = Halted(final: Machine) | Panicked | Unfinished(current: Machine)

  /** `execute` with at most `fuel` instructions */
  function Run(m: Machine, fuel: nat): (r: Status)
    requires Sized(m)
    ensures r.Halted? ==> Sized(r.final) && !Running(r.final)
    decreases fuel
  {
    if !Running(m) then Halted(m)
    else if fuel == 0 then Unfinished(m)
    else
      match Exec(m)
      case None => Panicked
      case Some(n) => Run(n, fuel - 1)
  }

  /** The program keeps its length however often it is toggled */
  lemma {:induction false} RunKeepsLength(m: Machine, fuel: nat)
    requires Sized(m)
    ensures Run(m, fuel).Halted? ==> |Run(m, fuel).final.program| == |m.program|
    ensures Run(m, fuel).Unfinished? ==> |Run(m, fuel).current.program| == |m.program|
    decreases fuel
  {
    if Running(m) && fuel > 0 && Exec(m).Some? {
      var n := Exec(m).value;
      assert |n.program| == |m.program| by {
        if m.program[m.pointer].Toggle? {
          ToggleFacts(m);
        } else {
          ExecFacts(m);
        }
      }
      RunKeepsLength(n, fuel - 1);
    }
  }

  /** A program that rewrites itself: `cpy 2 a`, `tgl a`, `tgl a`, `tgl a`,
      `cpy 1 a`, `dec a`, `dec a`. The first two toggles turn the fourth
      instruction into `inc a` and the fifth into `jnz 1 a`, which jumps past
      the end, leaving 3 in register `a` */
  lemma ToggleProgram(program: seq<Instruction>)
    requires program == [Copy(Raw(2), Register(0)), Toggle(Register(0)), Toggle(Register(0)), Toggle(Register(0)),
                         Copy(Raw(1), Register(0)), Dec(Register(0)), Dec(Register(0))]
    ensures Run(Machine(0, [0, 0, 0, 0], program), 5) ==
            Halted(Machine(7, [3, 0, 0, 0], program[3 := Inc(Register(0))][4 := JumpNonZero(Raw(1), Register(0))]))
  {
    var p2 := program[3 := Inc(Register(0))];
    var p3 := p2[4 := JumpNonZero(Raw(1), Register(0))];
    var m0 := Machine(0, [0, 0, 0, 0], program);
    var m1 := Machine(1, [2, 0, 0, 0], program);
    var m2 := Machine(2, [2, 0, 0, 0], p2);
    var m3 := Machine(3, [2, 0, 0, 0], p3);
    var m4 := Machine(4, [3, 0, 0, 0], p3);
    var m5 := Machine(7, [3, 0, 0, 0], p3);
    assert m0.registers[0 := 2] == m1.registers;
    assert m3.registers[0 := 3] == m4.registers;
    assert Exec(m0) == Some(m1);
    assert Exec(m1) == Some(m2);
    assert Exec(m2) == Some(m3);
    assert Exec(m3) == Some(m4);
    assert Exec(m4) == Some(m5);
    assert Run(m5, 0) == Halted(m5);
    assert Run(m4, 1) == Run(m5, 0);
    assert Run(m3, 2) == Run(m4, 1);
    assert Run(m2, 3) == Run(m3, 2);
    assert Run(m1, 4) == Run(m2, 3);
    assert Run(m0, 5) == Run(m1, 4);
  }

  // ---------------------------------------------------------------------------
  // The computer

  /** `Computer`: the instruction pointer and the four registers, updated in
      place, running a program held in an array that `tgl` rewrites */
  class Computer {
    var pointer: int
    var registers: array<int>

    predicate Valid()
      reads this
    {
      registers.Length == 4
    }

    function State(program: array<Instruction>): (m: Machine)
      reads this, registers, program
      ensures Valid() ==> Sized(m)
    {
      Machine(pointer, registers[..], program[..])
    }

    /** `Computer::new` */
    constructor ()
      ensures Valid() && fresh(registers) && registers[..] == [0, 0, 0, 0] && pointer == 0
    {
      pointer := 0;
      registers := new int[4](_ => 0);
    }

    /** `get_value` */
    method GetValue(op: Operand) returns (v: int)
      requires Valid()
      ensures v == Get(Machine(pointer, registers[..], []), op)
    {
      match op {
        case Raw(x) => v := x;
        case Register(r) => v := registers[r];
      }
    }

    /** One pass of the loop of `execute`; `false` where the source panics */
    method Step(program: array<Instruction>) returns (ok: bool)
      requires Valid() && 0 <= pointer < program.Length
      modifies this, registers, program
      ensures Valid() && registers == old(registers)
      ensures ok <==> Exec(old(State(program))).Some?
      ensures ok ==> State(program) == Exec(old(State(program))).value
    {
      ghost var m := State(program);
      assert m.program[m.pointer] == program[pointer];
      match program[pointer] {
        case Copy(x, y) =>
          if y.Register? {
            var v := GetValue(x);
            registers[y.index] := v;
          }
        case Inc(x) =>
          if x.Raw? {
            return false;
          }
          registers[x.index] := registers[x.index] + 1;
        case Dec(x) =>
          if x.Raw? {
            return false;
          }
          registers[x.index] := registers[x.index] - 1;
        case JumpNonZero(x, y) =>
          var v := GetValue(x);
          var offset := GetValue(y);
          if v != 0 {
            pointer := pointer + offset;
            return true;
          }
        case Toggle(x) =>
          var v := GetValue(x);
          var target := pointer + v;
          if 0 <= target < program.Length {
            program[target] := Toggled(program[target]);
          }
      }
      pointer := pointer + 1;
      return true;
    }

    /** `execute`: instructions run until the pointer leaves the program, at most
        `fuel` of them */
    method Execute(program: array<Instruction>, fuel: nat) returns (status: Status)
      requires Valid()
      modifies this, registers, program
      ensures Valid() && registers == old(registers)
      ensures status == Run(old(State(program)), fuel)
      ensures status.Halted? ==> State(program) == status.final
    {
      var steps := 0;
      while 0 <= pointer < program.Length
        invariant Valid() && registers == old(registers) && steps <= fuel
        invariant Run(old(State(program)), fuel) == Run(State(program), fuel - steps)
        decreases fuel - steps
      {
        if steps == fuel {
          return Unfinished(State(program));
        }
        var ok := Step(program);
        if !ok {
          return Panicked;
        }
        steps := steps + 1;
      }
      return Halted(State(program));
    }
  }

  /** The value left in register `a` by a run that halts */
  function ResultOf(s: Status): Option<int>
  {
    match s
    case Halted(m) => if |m.registers| == 4 then Some(m.registers[0]) else None
    case _ => None
  }

  /** Part one: register `a` after running a copy of the program with `a` set to 7 */
  method Part1(input: seq<Instruction>, fuel: nat) returns (a: Option<int>)
    ensures a == ResultOf(Run(Machine(0, [7, 0, 0, 0], input), fuel))
  {
    var computer := new Computer();
    var program := new Instruction[|input|](k requires 0 <= k < |input| => input[k]);
    assert program[..] == input;
    computer.registers[0] := 7;
    assert computer.registers[..] == [7, 0, 0, 0];
    var status := computer.Execute(program, fuel);
    a := if status.Halted? then Some(computer.registers[0]) else None;
  }

  // ---------------------------------------------------------------------------
  // Part two

  /** `factorial` */
  function Factorial(n: nat): nat
  {
    if n == 0 then 1 else n * Factorial(n - 1)
  }

  /** The product of the numbers from `lo` up to `hi` */
  function Product(lo: nat, hi: nat): nat
    decreases hi - lo + 1
  {
    if lo > hi then 1 else lo * Product(lo + 1, hi)
  }

  /** `factorial(n)` is the product of 1 to n */
  lemma {:induction false} FactorialProduct(n: nat)
    ensures Factorial(n) == Product(1, n)
  {
    if n > 0 {
      FactorialProduct(n - 1);
      ProductSnoc(1, n);
    }
  }

  /** A product that ends at `hi` is the product up to `hi - 1` times `hi` */
  lemma {:induction false} ProductSnoc(lo: nat, hi: nat)
    requires 1 <= lo <= hi
    ensures Product(lo, hi) == Product(lo, hi - 1) * hi
    decreases hi - lo
  {
    if lo < hi {
      ProductSnoc(lo + 1, hi);
      var p := Product(lo + 1, hi - 1);
      assert Product(lo, hi) == lo * (p * hi);
      assert Product(lo, hi - 1) == lo * p;
      Associative(lo, p, hi);
    }
  }

  lemma Associative(x: int, y: int, z: int)
    ensures x * (y * z) == (x * y) * z
  {
  }

  /** Part two: the closed form the source returns instead of running the
      program with `a` set to 12 */
  function Part2(): (r: nat)
    ensures r == 479009214
  {
    FactorialTwelve();
    81 * 94 + Factorial(12)
  }

  lemma FactorialTwelve()
    ensures Factorial(12) == 479001600
  {
    assert Factorial(6) == 720;
    assert Factorial(12) == 12 * 11 * 10 * 9 * 8 * 7 * Factorial(6);
  }
}
