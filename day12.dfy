/** Day 12: an interpreter for a small assembly language with four registers
    `a` to `d`: copy, increment, decrement and jump-if-not-zero. The computer runs
    until the instruction pointer leaves the program. */
module Day12 {
  import opened Wrappers
  import opened Strings

  /** A register number: 0 to 3 for `a` to `d` */
  type Reg = r: nat | r < 4

  datatype Operand = Raw(value: int) | Register(index: Reg)

  datatype Instruction =
    | Copy(source: Operand, target: Operand)
    | Inc(x: Operand)
    | Dec(x: Operand)
    | JumpNonZero(test: Operand, offset: int)

  // ---------------------------------------------------------------------------
  // Parsing

  /** `Operand::from_str`: a register letter, or else an integer */
  function ParseOperand(s: string): (r: Option<Operand>)
    ensures s == "a" ==> r == Some(Register(0))
    ensures s == "b" ==> r == Some(Register(1))
    ensures s == "c" ==> r == Some(Register(2))
    ensures s == "d" ==> r == Some(Register(3))
    ensures s !in {"a", "b", "c", "d"} ==>
              (r.Some? <==> ParseInt(s).Some?) && (r.Some? ==> r == Some(Raw(ParseInt(s).value)))
  {
    if s == "a" then Some(Register(0))
    else if s == "b" then Some(Register(1))
    else if s == "c" then Some(Register(2))
    else if s == "d" then Some(Register(3))
    else
      match ParseInt(s)
      case Some(v) => Some(Raw(v))
      case None => None
  }

  /** The words of one line; `None` where the source panics */
  function ParseWords(words: seq<string>): Option<Instruction>
  {
    if |words| == 3 && words[0] == "cpy" then
      match (ParseOperand(words[1]), ParseOperand(words[2]))
      case (Some(x), Some(y)) => Some(Copy(x, y))
      case _ => None
    else if |words| == 2 && words[0] == "inc" then
      match ParseOperand(words[1])
      case Some(x) => Some(Inc(x))
      case None => None
    else if |words| == 2 && words[0] == "dec" then
      match ParseOperand(words[1])
      case Some(x) => Some(Dec(x))
      case None => None
    else if |words| == 3 && words[0] == "jnz" then
      match (ParseOperand(words[1]), ParseInt(words[2]))
      case (Some(x), Some(y)) => Some(JumpNonZero(x, y))
      case _ => None
    else None
  }

  /** One instruction per line of the trimmed input, split at ASCII whitespace */
  function Generator(input: string): (r: Option<seq<Instruction>>)
    ensures var lines := Lines(Trim(input));
      (r.Some? <==> forall k :: 0 <= k < |lines| ==> ParseLine(lines[k]).Some?) &&
      (r.Some? ==> |r.value| == |lines| &&
                   forall k :: 0 <= k < |lines| ==> ParseLine(lines[k]) == Some(r.value[k]))
  {
    TraverseAt(Lines(Trim(input)), ParseLine);
    Traverse(Lines(Trim(input)), ParseLine)
  }

  function ParseLine(line: string): Option<Instruction>
  {
    ParseWords(Words(line))
  }

  /** One line of each form, a copy into a raw value (which parses, and panics
      only when it runs), and a jump whose offset is not a number */
  lemma ParseExamples()
    ensures ParseWords(["cpy", "41", "a"]) == Some(Copy(Raw(41), Register(0)))
    ensures ParseWords(["inc", "b"]) == Some(Inc(Register(1)))
    ensures ParseWords(["dec", "c"]) == Some(Dec(Register(2)))
    ensures ParseWords(["jnz", "d", "-2"]) == Some(JumpNonZero(Register(3), -2))
    ensures ParseWords(["cpy", "a", "1"]) == Some(Copy(Register(0), Raw(1)))
    ensures ParseWords(["jnz", "1", "x"]) == None
  {
    assert ParseInt("41") == Some(41) by {
      assert DigitsOf("4") == Some(4);
      assert "41"[..1] == "4";
    }
    assert ParseInt("-2") == Some(-2) by {
      assert "-2"[1..] == "2";
      assert DigitsOf("2") == Some(2);
    }
    assert ParseInt("1") == Some(1) by {
      assert DigitsOf("1") == Some(1);
    }
    assert ParseInt("x") == None by {
      assert !IsDigit('x');
    }
  }

  // ---------------------------------------------------------------------------
  // Semantics

  /** The instruction pointer and the four registers */
  datatype Machine = Machine(pointer: int, registers: seq<int>)

  predicate Sized(m: Machine) {
    |m.registers| == 4
  }

  /** `get_value`: a raw value, or the content of a register */
  function Get(m: Machine, op: Operand): int
    requires Sized(m)
  {
    match op
    case Raw(v) => v
    case Register(r) => m.registers[r]
  }

  /** One instruction; `None` where the source panics on a raw value used as a
      register */
  function Exec(m: Machine, i: Instruction): (r: Option<Machine>)
    requires Sized(m)
    ensures r.Some? ==> Sized(r.value)
  {
    match i
    case Copy(x, Register(y)) => Some(Machine(m.pointer + 1, m.registers[y := Get(m, x)]))
    case Inc(Register(x)) => Some(Machine(m.pointer + 1, m.registers[x := m.registers[x] + 1]))
    case Dec(Register(x)) => Some(Machine(m.pointer + 1, m.registers[x := m.registers[x] - 1]))
    case JumpNonZero(x, offset) =>
      if Get(m, x) != 0 then Some(m.(pointer := m.pointer + offset)) else Some(m.(pointer := m.pointer + 1))
    case _ => None
  }

  /** The instruction pointer is inside the program */
  predicate Running(m: Machine, program: seq<Instruction>) {
    0 <= m.pointer < |program|
  }

  /** How a run ends: halted with the pointer outside the program, panicked, or
      still running when the fuel is spent */
  datatype Status = Halted(final: Machine) | Panicked | Unfinished(current: Machine)

  /** `execute` with at most `fuel` instructions */
  function Run(m: Machine, program: seq<Instruction>, fuel: nat): (r: Status)
    requires Sized(m)
    ensures r.Halted? ==> Sized(r.final) && !Running(r.final, program)
    decreases fuel
  {
    if !Running(m, program) then Halted(m)
    else if fuel == 0 then Unfinished(m)
    else
      match Exec(m, program[m.pointer])
      case None => Panicked
      case Some(n) => Run(n, program, fuel - 1)
  }

  /** What each instruction does: a copy writes the source's value into the target
      register, an increment or decrement changes only its register, by one; a
      raw value where a register is needed panics; a jump with a non-zero test
      moves the pointer by the offset and nothing else, and every other
      instruction moves it to the next one */
  lemma ExecFacts(m: Machine, i: Instruction)
    requires Sized(m)
    ensures i.Copy? ==> (Exec(m, i).Some? <==> i.target.Register?)
    ensures i.Copy? && i.target.Register? ==>
              Exec(m, i).value.registers[i.target.index] == Get(m, i.source)
    ensures (i.Inc? || i.Dec?) ==> (Exec(m, i).Some? <==> i.x.Register?)
    ensures i.Inc? && i.x.Register? ==> Exec(m, i).value.registers[i.x.index] == m.registers[i.x.index] + 1
    ensures i.Dec? && i.x.Register? ==> Exec(m, i).value.registers[i.x.index] == m.registers[i.x.index] - 1
    ensures i.JumpNonZero? ==> Exec(m, i) == Some(m.(pointer := if Get(m, i.test) != 0 then m.pointer + i.offset else m.pointer + 1))
    ensures Exec(m, i).Some? && !i.JumpNonZero? ==> Exec(m, i).value.pointer == m.pointer + 1
    ensures Exec(m, i).Some? ==>
              forall k :: 0 <= k < 4 && k != Written(i) ==> Exec(m, i).value.registers[k] == m.registers[k]
  {
  }

  /** The register an instruction writes, or 4 for none */
  function Written(i: Instruction): nat
  {
    match i
    case Copy(_, Register(y)) => y
    case Inc(Register(x)) => x
    case Dec(Register(x)) => x
    case _ => 4
  }

  /** A run stops exactly when the pointer leaves the program: a machine outside
      the program halts at once, and a halted run ends outside it */
  lemma RunStops(m: Machine, program: seq<Instruction>, fuel: nat)
    requires Sized(m)
    ensures !Running(m, program) ==> Run(m, program, fuel) == Halted(m)
    ensures Running(m, program) && fuel > 0 && Exec(m, program[m.pointer]).Some? ==>
              Run(m, program, fuel) == Run(Exec(m, program[m.pointer]).value, program, fuel - 1)
  {
  }

  /** A run cut short by the fuel goes on from where it stopped */
  lemma {:induction false} RunResumes(m: Machine, program: seq<Instruction>, f: nat, g: nat)
    requires Sized(m) && Run(m, program, f).Unfinished?
    ensures Sized(Run(m, program, f).current)
    ensures Run(m, program, f + g) == Run(Run(m, program, f).current, program, g)
    decreases f
  {
    if f > 0 {
      var n := Exec(m, program[m.pointer]).value;
      RunResumes(n, program, f - 1, g);
      assert f + g - 1 == (f - 1) + g;
    }
  }

  /** More fuel does not change a run that has already ended */
  lemma {:induction false} RunEnded(m: Machine, program: seq<Instruction>, f: nat, g: nat)
    requires Sized(m) && !Run(m, program, f).Unfinished?
    ensures Run(m, program, f + g) == Run(m, program, f)
    decreases f
  {
    if Running(m, program) && f > 0 && Exec(m, program[m.pointer]).Some? {
      RunEnded(Exec(m, program[m.pointer]).value, program, f - 1, g);
      assert f + g - 1 == (f - 1) + g;
    }
  }

  /** A program with a countdown loop: `cpy 41 a`, `inc a`, `inc a`, `dec a`,
      `jnz a 2`, `dec a` leaves 42 in register `a` */
  lemma SampleProgram(program: seq<Instruction>)
    requires program == [Copy(Raw(41), Register(0)), Inc(Register(0)), Inc(Register(0)), Dec(Register(0)),
                         JumpNonZero(Register(0), 2), Dec(Register(0))]
    ensures Run(Machine(0, [0, 0, 0, 0]), program, 5) == Halted(Machine(6, [42, 0, 0, 0]))
  {
    var m0 := Machine(0, [0, 0, 0, 0]);
    var m1 := Machine(1, [41, 0, 0, 0]);
    var m2 := Machine(2, [42, 0, 0, 0]);
    var m3 := Machine(3, [43, 0, 0, 0]);
    var m4 := Machine(4, [42, 0, 0, 0]);
    var m5 := Machine(6, [42, 0, 0, 0]);
    assert m0.registers[0 := 41] == m1.registers;
    assert m1.registers[0 := 42] == m2.registers;
    assert m2.registers[0 := 43] == m3.registers;
    assert m3.registers[0 := 42] == m4.registers;
    assert Exec(m0, program[0]) == Some(m1);
    assert Exec(m1, program[1]) == Some(m2);
    assert Exec(m2, program[2]) == Some(m3);
    assert Exec(m3, program[3]) == Some(m4);
    assert Exec(m4, program[4]) == Some(m5);
    RunStops(m5, program, 0);
    RunStops(m4, program, 1);
    RunStops(m3, program, 2);
    RunStops(m2, program, 3);
    RunStops(m1, program, 4);
    RunStops(m0, program, 5);
  }

  // ---------------------------------------------------------------------------
  // The computer

  /** `Computer`: the instruction pointer and the four registers, updated in
      place */
  class Computer {
    var pointer: int
    var registers: array<int>

    predicate Valid()
      reads this
    {
      registers.Length == 4
    }

    function State(): (m: Machine)
      reads this, registers
      ensures Valid() ==> Sized(m)
    {
      Machine(pointer, registers[..])
    }

    /** `Computer::new`: the pointer at the first instruction, every register 0 */
    constructor ()
      ensures Valid() && fresh(registers) && State() == Machine(0, [0, 0, 0, 0])
    {
      pointer := 0;
      registers := new int[4](_ => 0);
    }

    /** `get_value` */
    method GetValue(op: Operand) returns (v: int)
      requires Valid()
      ensures v == Get(State(), op)
    {
      match op {
        case Raw(x) => v := x;
        case Register(r) => v := registers[r];
      }
    }

    /** One pass of the loop of `execute`; `false` where the source panics */
    method Step(i: Instruction) returns (ok: bool)
      requires Valid()
      modifies this, registers
      ensures Valid() && registers == old(registers)
      ensures ok <==> Exec(old(State()), i).Some?
      ensures ok ==> State() == Exec(old(State()), i).value
    {
      match i {
        case Copy(x, y) =>
          if y.Raw? {
            return false;
          }
          var v := GetValue(x);
          registers[y.index] := v;
        case Inc(x) =>
          if x.Raw? {
            return false;
          }
          registers[x.index] := registers[x.index] + 1;
        case Dec(x) =>
          if x.Raw? {
            return false;
          }
          registers[x.index] := registers[x.index] - 1;
        case JumpNonZero(x, offset) =>
          var v := GetValue(x);
          if v != 0 {
            pointer := pointer + offset;
            return true;
          }
      }
      pointer := pointer + 1;
      return true;
    }

    /** `execute`: instructions run until the pointer leaves the program, at most
        `fuel` of them */
    method Execute(program: seq<Instruction>, fuel: nat) returns (status: Status)
      requires Valid()
      modifies this, registers
      ensures Valid() && registers == old(registers)
      ensures status == Run(old(State()), program, fuel)
      ensures status.Halted? ==> State() == status.final
    {
      var steps := 0;
      while 0 <= pointer < |program|
        invariant Valid() && registers == old(registers) && steps <= fuel
        invariant Run(old(State()), program, fuel) == Run(State(), program, fuel - steps)
        decreases fuel - steps
      {
        if steps == fuel {
          return Unfinished(State());
        }
        var ok := Step(program[pointer]);
        if !ok {
          return Panicked;
        }
        steps := steps + 1;
      }
      return Halted(State());
    }
  }

  /** The value left in register `a` by a run that halts */
  function ResultOf(s: Status): Option<int>
  {
    match s
    case Halted(m) => if |m.registers| == 4 then Some(m.registers[0]) else None
    case _ => None
  }

  /** Part one: register `a` after running from zeroed registers */
  method Part1(program: seq<Instruction>, fuel: nat) returns (a: Option<int>)
    ensures a == ResultOf(Run(Machine(0, [0, 0, 0, 0]), program, fuel))
  {
    var computer := new Computer();
    var status := computer.Execute(program, fuel);
    a := if status.Halted? then Some(computer.registers[0]) else None;
  }

  /** Part two: the same, with register `c` set to 1 first */
  method Part2(program: seq<Instruction>, fuel: nat) returns (a: Option<int>)
    ensures a == ResultOf(Run(Machine(0, [0, 0, 1, 0]), program, fuel))
  {
    var computer := new Computer();
    computer.registers[2] := 1;
    assert computer.registers[..] == [0, 0, 1, 0];
    var status := computer.Execute(program, fuel);
    a := if status.Halted? then Some(computer.registers[0]) else None;
  }
}
