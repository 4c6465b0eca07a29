/** The TM target machine: instructions, one step, and a run of steps.
    `Step` is the meaning of one call of stepTM; the class performs it on the
    register, data and instruction arrays. */
module TinyMachine {
  import opened CInt

  const IADDR_SIZE := 1024
  const DADDR_SIZE := 1024
  const NO_REGS := 8
  const PC_REG := 7

  datatype OpCode =
    | HALT | IN | OUT | ADD | SUB | MUL | DIV
    | LD | ST
    | LDA | LDC | JLT | JLE | JGT | JGE | JEQ | JNE

  datatype Instruction = Instruction(iop: OpCode, iarg1: int, iarg2: int, iarg3: int)

  // What one line of the code file says: the instruction for one location.
  datatype Line = Line(loc: int, instr: Instruction)

  // OKAY to ZERODIVIDE are the results that stepTM returns.  AWAIT stands for the
  // prompt loop of IN once no more input comes, UNDEFINED for an access one past
  // the end of an array, which the range checks of stepTM let through.
  datatype StepResult = OKAY | HALTED | IMEM_ERR | DMEM_ERR | ZERODIVIDE | AWAIT | UNDEFINED

  type Registers = r: seq<int> | |r| == NO_REGS witness seq(NO_REGS, _ => 0)
  type DataMemory = d: seq<int> | |d| == DADDR_SIZE witness seq(DADDR_SIZE, _ => 0)
  type Program = p: seq<Instruction> | IsProgram(p) witness Blank()

  datatype State = State(reg: Registers, dMem: DataMemory, input: seq<int>, output: seq<int>)

  predicate IsRegister(r: int) { 0 <= r < NO_REGS }

  predicate RegisterOnly(op: OpCode) {
    op in {HALT, IN, OUT, ADD, SUB, MUL, DIV}
  }

  // The loader accepts an instruction only when its register fields name registers.
  predicate Acceptable(i: Instruction) {
    && IsRegister(i.iarg1)
    && IsRegister(i.iarg3)
    && (RegisterOnly(i.iop) ==> IsRegister(i.iarg2))
  }

  predicate IsProgram(iMem: seq<Instruction>) {
    |iMem| == IADDR_SIZE && forall k :: 0 <= k < IADDR_SIZE ==> Acceptable(iMem[k])
  }

  function Taken(op: OpCode, v: int): bool {
    match op
    case JLT => v < 0
    case JLE => v <= 0
    case JGT => v > 0
    case JGE => v >= 0
    case JEQ => v == 0
    case JNE => v != 0
    case _ => false
  }

  // Executes instruction i; the program counter of m is already past it.
  function Execute(i: Instruction, m: State): (State, StepResult)
    requires Acceptable(i)
  {
    var r, s := i.iarg1, i.iarg3;
    match i.iop
    case HALT => (m, HALTED)
    case IN =>
      if m.input == [] then (m, AWAIT)
      else (m.(reg := m.reg[r := m.input[0]], input := m.input[1..]), OKAY)
    case OUT => (m.(output := m.output + [m.reg[r]]), OKAY)
    case ADD => (m.(reg := m.reg[r := m.reg[i.iarg2] + m.reg[i.iarg3]]), OKAY)
    case SUB => (m.(reg := m.reg[r := m.reg[i.iarg2] - m.reg[i.iarg3]]), OKAY)
    case MUL => (m.(reg := m.reg[r := m.reg[i.iarg2] * m.reg[i.iarg3]]), OKAY)
    case DIV =>
      if m.reg[i.iarg3] == 0 then (m, ZERODIVIDE)
      else (m.(reg := m.reg[r := TruncDiv(m.reg[i.iarg2], m.reg[i.iarg3])]), OKAY)
    case LD =>
      var a := i.iarg2 + m.reg[s];
      if a < 0 || a > DADDR_SIZE then (m, DMEM_ERR)
      else if a == DADDR_SIZE then (m, UNDEFINED)
      else (m.(reg := m.reg[r := m.dMem[a]]), OKAY)
    case ST =>
      var a := i.iarg2 + m.reg[s];
      if a < 0 || a > DADDR_SIZE then (m, DMEM_ERR)
      else if a == DADDR_SIZE then (m, UNDEFINED)
      else (m.(dMem := m.dMem[a := m.reg[r]]), OKAY)
    case LDA => (m.(reg := m.reg[r := i.iarg2 + m.reg[s]]), OKAY)
    case LDC => (m.(reg := m.reg[r := i.iarg2]), OKAY)
    case jump =>
      (if Taken(jump, m.reg[r]) then m.(reg := m.reg[PC_REG := i.iarg2 + m.reg[s]]) else m, OKAY)
  }

  // One call of stepTM.
  function Step(iMem: Program, m: State): (r: (State, StepResult))
  {
    var pc := m.reg[PC_REG];
    if pc < 0 || pc > IADDR_SIZE then (m, IMEM_ERR)
    else
      var m1 := m.(reg := m.reg[PC_REG := pc + 1]);
      if pc == IADDR_SIZE then (m1, UNDEFINED) else Execute(iMem[pc], m1)
  }

  // The instruction that is fetched, and the state with the program counter past it.
  predicate Fetches(iMem: Program, m: State, i: Instruction, m1: State) {
    && 0 <= m.reg[PC_REG] < IADDR_SIZE && i == iMem[m.reg[PC_REG]]
    && m1 == m.(reg := m.reg[PC_REG := m.reg[PC_REG] + 1])
  }

  // What a step leaves, by arithmetic alone, where it is more than the instruction says.
  lemma DivExactly(iMem: Program, m: State, i: Instruction, m1: State)
    requires Fetches(iMem, m, i, m1) && i.iop == DIV
    ensures var (n, res) := Step(iMem, m); var b := m1.reg[i.iarg3];
            if b == 0 then n == m1 && res == ZERODIVIDE
            else res == OKAY && n == m1.(reg := m1.reg[i.iarg1 := n.reg[i.iarg1]]) && IsQuotient(m1.reg[i.iarg2], b, n.reg[i.iarg1])
  {
    if m1.reg[i.iarg3] != 0 {
      QuotientExactly(m1.reg[i.iarg2], m1.reg[i.iarg3], TruncDiv(m1.reg[i.iarg2], m1.reg[i.iarg3]));
    }
  }

  lemma JumpsExactly(iMem: Program, m: State, i: Instruction, m1: State)
    requires Fetches(iMem, m, i, m1) && i.iop in {JLT, JLE, JGT, JGE, JEQ, JNE}
    ensures var v := m1.reg[i.iarg1];
            var goes := (v < 0 && i.iop in {JLT, JLE, JNE}) || (v == 0 && i.iop in {JLE, JGE, JEQ}) || (v > 0 && i.iop in {JGT, JGE, JNE});
            Step(iMem, m) == (if goes then m1.(reg := m1.reg[PC_REG := i.iarg2 + m1.reg[i.iarg3]]) else m1, OKAY)
  {
  }

  // The range checks: an address or a counter equal to the size of its array passes them.
  lemma ChecksExactly(iMem: Program, m: State)
    ensures var (n, res) := Step(iMem, m); var p := m.reg[PC_REG];
            && (res == IMEM_ERR <==> p < 0 || p > IADDR_SIZE)
            && (res == IMEM_ERR ==> n == m)
            && (p == IADDR_SIZE ==> res == UNDEFINED)
  {
  }

  lemma AddressesExactly(iMem: Program, m: State, i: Instruction, m1: State)
    requires Fetches(iMem, m, i, m1)
    ensures var (n, res) := Step(iMem, m); var a := i.iarg2 + m1.reg[i.iarg3];
            && (res == DMEM_ERR <==> i.iop in {LD, ST} && (a < 0 || a > DADDR_SIZE))
            && (res == UNDEFINED <==> i.iop in {LD, ST} && a == DADDR_SIZE)
            && (res == HALTED <==> i.iop == HALT) && (res == AWAIT <==> i.iop == IN && m1.input == [])
            && (res != OKAY ==> n == m1)
            && (i.iop == LD && res == OKAY ==> n == m1.(reg := m1.reg[i.iarg1 := m1.dMem[a]]))
            && (i.iop == ST && res == OKAY ==> n == m1.(dMem := m1.dMem[a := m1.reg[i.iarg1]]))
  {
  }

  // At most n steps, stopping at the first that does not return OKAY: the machine
  // commands "s n" and "g".
  function Run(iMem: Program, m: State, n: nat): (r: (State, StepResult))
    decreases n
  {
    if n == 0 then (m, OKAY)
    else
      var (m1, res) := Step(iMem, m);
      if res == OKAY then Run(iMem, m1, n - 1) else (m1, res)
  }

  // n steps, all OKAY, lead from m to m1.
  ghost predicate Reaches(iMem: Program, m: State, n: nat, m1: State)
  {
    Run(iMem, m, n) == (m1, OKAY)
  }

  lemma {:induction false} RunAdds(iMem: Program, m: State, a: nat, m1: State, b: nat)
    requires Reaches(iMem, m, a, m1)
    ensures Run(iMem, m, a + b) == Run(iMem, m1, b)
    decreases a
  {
    if a > 0 {
      RunAdds(iMem, Step(iMem, m).0, a - 1, m1, b);
    }
  }

  // A run that stopped stays stopped; so a run has at most one end.
  lemma {:induction false} RunStops(iMem: Program, m: State, a: nat, b: nat)
    requires a <= b && Run(iMem, m, a).1 != OKAY
    ensures Run(iMem, m, b) == Run(iMem, m, a)
    decreases a
  {
    if Step(iMem, m).1 == OKAY {
      RunStops(iMem, Step(iMem, m).0, a - 1, b - 1);
    }
  }

  // ---------- loading ----------

  datatype LoadResult = Loaded(iMem: Program) | Rejected | OutOfArray

  const EmptyInstr := Instruction(HALT, 0, 0, 0)

  function Blank(): seq<Instruction> {
    seq(IADDR_SIZE, _ => EmptyInstr)
  }

  // The lines are taken in file order; a later line for a location overwrites an
  // earlier one.  A location equal to IADDR_SIZE, or a negative one, passes the
  // loader's check but is not an element of the array.
  function Load(lines: seq<Line>): (r: LoadResult)
  {
    if lines == [] then Loaded(Blank())
    else
      var k := |lines| - 1;
      match Load(lines[..k]) {
        case Loaded(iMem) =>
          var l := lines[k];
          if l.loc > IADDR_SIZE || !Acceptable(l.instr) then Rejected
          else if l.loc < 0 || l.loc == IADDR_SIZE then OutOfArray
          else Loaded(iMem[l.loc := l.instr])
        case stopped => stopped
      }
  }

  // A line for a location that there is, with registers that there are.
  predicate GoodLine(l: Line) {
    && 0 <= l.loc < IADDR_SIZE && 0 <= l.instr.iarg1 < NO_REGS && 0 <= l.instr.iarg3 < NO_REGS
    && (l.instr.iop in {HALT, IN, OUT, ADD, SUB, MUL, DIV} ==> 0 <= l.instr.iarg2 < NO_REGS)
  }

  predicate IsLast(lines: seq<Line>, loc: int, k: int) {
    0 <= k < |lines| && lines[k].loc == loc && forall j :: k < j < |lines| ==> lines[j].loc != loc
  }

  // What memory has at a place: the last line for it, or HALT.
  ghost predicate LoadedAt(lines: seq<Line>, iMem: Program, a: int)
    requires 0 <= a < IADDR_SIZE
  {
    && (forall k :: IsLast(lines, a, k) ==> iMem[a] == lines[k].instr)
    && ((forall k :: 0 <= k < |lines| ==> lines[k].loc != a) ==> iMem[a] == Instruction(HALT, 0, 0, 0))
  }

  // A file loads exactly if all its lines are good; what memory has then.
  lemma {:induction false} LoadExactly(lines: seq<Line>)
    ensures Load(lines).Loaded? <==> forall k :: 0 <= k < |lines| ==> GoodLine(lines[k])
    ensures Load(lines).Loaded? ==> forall a :: 0 <= a < IADDR_SIZE ==> LoadedAt(lines, Load(lines).iMem, a)
  {
    if lines != [] {
      var n := |lines| - 1;
      var before, l := lines[..n], lines[n];
      LoadExactly(before);
      assert Load(lines).Loaded? <==> Load(before).Loaded? && GoodLine(l);
      if Load(lines).Loaded? {
        forall a | 0 <= a < IADDR_SIZE
          ensures LoadedAt(lines, Load(lines).iMem, a)
        {
          LineMore(lines, Load(before).iMem, Load(lines).iMem, a);
        }
      }
    }
  }

  lemma LineMore(lines: seq<Line>, was: Program, now: Program, a: int)
    requires lines != [] && 0 <= a < IADDR_SIZE
    requires var l := lines[|lines| - 1]; 0 <= l.loc < IADDR_SIZE && now == was[l.loc := l.instr]
    requires LoadedAt(lines[..|lines| - 1], was, a)
    ensures LoadedAt(lines, now, a)
  {
    var n := |lines| - 1;
    forall k | IsLast(lines, a, k)
      ensures now[a] == lines[k].instr
    {
      assert lines[n].loc == a ==> k == n;
      assert k < n ==> IsLast(lines[..n], a, k);
    }
    if forall k :: 0 <= k < |lines| ==> lines[k].loc != a {
      assert lines[n].loc != a;
      assert forall k :: 0 <= k < n ==> lines[..n][k].loc == lines[k].loc;
    }
  }

  // If not, what is said of the first bad line.
  lemma {:induction false} LoadRefused(lines: seq<Line>, k: nat)
    requires k < |lines| && !GoodLine(lines[k]) && forall j :: 0 <= j < k ==> GoodLine(lines[j])
    ensures Load(lines) == if lines[k].loc > IADDR_SIZE || !GoodLine(lines[k].(loc := 0)) then Rejected else OutOfArray
  {
    LoadExactly(lines[..k]);
    assert lines[..k + 1][..k] == lines[..k];
    LoadStuck(lines, k + 1);
  }

  function InitialState(input: seq<int>): (m: State)
  {
    State(seq(NO_REGS, _ => 0), seq(DADDR_SIZE, k => if k == 0 then DADDR_SIZE - 1 else 0), input, [])
  }

  /** The simulator's global arrays. */
  class Machine {
    const iMem: array<Instruction>
    const dMem: array<int>
    const reg: array<int>
    var input: seq<int>
    var output: seq<int>

    ghost predicate Valid()
      reads this, iMem
    {
      && iMem.Length == IADDR_SIZE && dMem.Length == DADDR_SIZE && reg.Length == NO_REGS
      && dMem != reg
      && IsProgram(iMem[..])
    }

    ghost function Now(): (m: State)
      requires Valid()
      reads this, iMem, dMem, reg
      {
      State(reg[..], dMem[..], input, output)
    }

    constructor (typed: seq<int>)
      ensures Valid() && fresh(iMem) && fresh(dMem) && fresh(reg)
      ensures Now() == InitialState(typed) && iMem[..] == Blank()
      ensures dMem[0] == 1023 && input == typed && output == []
      ensures (forall k :: 0 <= k < 8 ==> reg[k] == 0) && forall k :: 1 <= k < 1024 ==> dMem[k] == 0
      ensures forall k :: 0 <= k < 1024 ==> iMem[k] == Instruction(HALT, 0, 0, 0)
    {
      iMem := new Instruction[IADDR_SIZE];
      dMem := new int[DADDR_SIZE];
      reg := new int[NO_REGS];
      input, output := typed, [];
      new;
      for regNo := 0 to NO_REGS
        invariant forall k :: 0 <= k < regNo ==> reg[k] == 0
        modifies reg
      {
        reg[regNo] := 0;
      }
      dMem[0] := DADDR_SIZE - 1;
      for loc := 1 to DADDR_SIZE
        invariant dMem[0] == DADDR_SIZE - 1
        invariant forall k :: 1 <= k < loc ==> dMem[k] == 0
        invariant reg[..] == seq(NO_REGS, _ => 0)
        modifies dMem
      {
        dMem[loc] := 0;
      }
      for loc := 0 to IADDR_SIZE
        invariant forall k :: 0 <= k < loc ==> iMem[k] == EmptyInstr
        invariant reg[..] == seq(NO_REGS, _ => 0)
        invariant dMem[..] == InitialState(typed).dMem
        modifies iMem
      {
        iMem[loc] := EmptyInstr;
      }
      assert iMem[..] == Blank();
    }

    // The line loop of readInstructions.
    method ReadInstructions(lines: seq<Line>) returns (res: LoadResult)
      requires Valid() && iMem[..] == Blank()
      modifies iMem
      ensures Valid()
      ensures Load(lines).Loaded? ==> res == Load(lines) && iMem[..] == res.iMem
      ensures !Load(lines).Loaded? ==> res == Load(lines)
    {
      var k := 0;
      assert lines[..0] == [];
      while k < |lines|
        invariant 0 <= k <= |lines|
        invariant Valid() && Load(lines[..k]) == Loaded(iMem[..])
      {
        var l := lines[k];
        assert lines[..k + 1][..k] == lines[..k];
        if l.loc > IADDR_SIZE || !Acceptable(l.instr) {
          LoadStuck(lines, k + 1);
          return Rejected;
        }
        if l.loc < 0 || l.loc == IADDR_SIZE {
          LoadStuck(lines, k + 1);
          return OutOfArray;
        }
        iMem[l.loc] := l.instr;
        k := k + 1;
      }
      assert lines[..|lines|] == lines;
      return Loaded(iMem[..]);
    }

    method StepTM() returns (res: StepResult)
      requires Valid()
      modifies this`input, this`output, dMem, reg
      ensures Valid()
      ensures (Now(), res) == old(Step(iMem[..], Now()))
    {
      var pc := reg[PC_REG];
      if pc < 0 || pc > IADDR_SIZE {
        return IMEM_ERR;
      }
      reg[PC_REG] := pc + 1;
      if pc == IADDR_SIZE {
        return UNDEFINED;
      }
      var i := iMem[pc];
      assert Acceptable(iMem[..][pc]);
      var r, s := i.iarg1, i.iarg3;
      var a := i.iarg2 + reg[s];
      if i.iop == LD || i.iop == ST {
        if a < 0 || a > DADDR_SIZE {
          return DMEM_ERR;
        }
        if a == DADDR_SIZE {
          return UNDEFINED;
        }
      }
      match i.iop {
        case HALT => return HALTED;
        case IN =>
          if input == [] {
            return AWAIT;
          }
          reg[r] := input[0];
          input := input[1..];
        case OUT => output := output + [reg[r]];
        case ADD => reg[r] := reg[i.iarg2] + reg[i.iarg3];
        case SUB => reg[r] := reg[i.iarg2] - reg[i.iarg3];
        case MUL => reg[r] := reg[i.iarg2] * reg[i.iarg3];
        case DIV =>
          if reg[i.iarg3] == 0 {
            return ZERODIVIDE;
          }
          reg[r] := TruncDiv(reg[i.iarg2], reg[i.iarg3]);
        case LD => reg[r] := dMem[a];
        case ST => dMem[a] := reg[r];
        case LDA => reg[r] := a;
        case LDC => reg[r] := i.iarg2;
        case jump =>
          if Taken(jump, reg[r]) {
            reg[PC_REG] := a;
          }
      }
      return OKAY;
    }

    // The command "s n".
    method StepMany(n: nat) returns (res: StepResult)
      requires Valid()
      modifies this`input, this`output, dMem, reg
      ensures Valid()
      ensures (Now(), res) == old(Run(iMem[..], Now(), n))
    {
      var stepcnt := n;
      res := OKAY;
      ghost var start := Now();
      while stepcnt > 0 && res == OKAY
        invariant 0 <= stepcnt <= n
        invariant Valid() && iMem[..] == old(iMem[..])
        invariant if res == OKAY then Run(iMem[..], start, n) == Run(iMem[..], Now(), stepcnt)
                  else Run(iMem[..], start, n) == (Now(), res)
      {
        res := StepTM();
        stepcnt := stepcnt - 1;
      }
    }
  }

  lemma {:induction false} LoadStuck(lines: seq<Line>, k: nat)
    requires k <= |lines| && !Load(lines[..k]).Loaded?
    ensures Load(lines) == Load(lines[..k])
    decreases |lines| - k
  {
    if k == |lines| {
      assert lines[..k] == lines;
    } else {
      assert lines[..k + 1][..k] == lines[..k];
      LoadStuck(lines, k + 1);
    }
  }
}
