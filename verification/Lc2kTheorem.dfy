/** Assembled programs do what their source says: as long as a line has not been written over,
    it is executed with its labels standing for their lines. */
module Lc2kTheorem {
  import opened Lc2k
  import opened Lc2kAssembler

  // The words are what the assembler makes of the program.
  ghost predicate Assembled(lines: seq<Line>, words: seq<int>) {
    |words| == |lines| <= MAXLINES && forall i: nat :: i < |lines| ==> Assembles(lines, i, words[i])
  }

  // At this address there is still an instruction of the program, not data and not something stored later.
  predicate Untouched(lines: seq<Line>, touched: set<int>, at: int) {
    0 <= at < |lines| && at !in touched && lines[at].opcode != ".fill"
  }

  lemma OneMeaning(lines: seq<Line>, i: nat, x: Instr, y: Instr)
    requires i < |lines| && Means(lines, i, x) && Means(lines, i, y)
    ensures x == y
  {
  }

  // What the source says at an address, if it says something there.
  ghost function LineInstr(lines: seq<Line>, i: nat): (x: Instr)
    requires i < |lines| && exists x :: Means(lines, i, x)
    ensures Means(lines, i, x) && InRange(x)
  {
    var x :| Means(lines, i, x);
    x
  }

  // The instruction to be executed: of the source where it is untouched, otherwise in the word.
  ghost function Next(lines: seq<Line>, touched: set<int>, c: Cpu): (x: Instr)
    requires Complete(c) && 0 <= c.pc < NUMMEMORY
    requires Untouched(lines, touched, c.pc) ==> exists x :: Means(lines, c.pc, x)
    ensures InRange(x)
  {
    if Untouched(lines, touched, c.pc) then LineInstr(lines, c.pc) else Decode(c.mem[c.pc], c.pc)
  }

  function Stored(x: Instr, c: Cpu): set<int>
    requires InRange(x) && Complete(c)
  {
    if x.Sw? then {c.reg[x.a] + x.offset} else {}
  }

  ghost predicate Meaningful(lines: seq<Line>) {
    forall i: nat :: i < |lines| && lines[i].opcode != ".fill" ==> exists x :: Means(lines, i, x)
  }

  // A run by the source.
  ghost function SourceRun(lines: seq<Line>, touched: set<int>, c: Cpu, count: nat): (f: Final)
    requires Meaningful(lines) && Complete(c) && count <= 200
    decreases 200 - count
  {
    if !(0 <= c.pc < NUMMEMORY) then Failed(Outside)
    else if count == 200 then InfiniteLoop
    else
      var x := Next(lines, touched, c);
      match Exec(x, c)
      case Runs(d) => SourceRun(lines, touched + Stored(x, c), d, count + 1)
      case Halts(d) => Halted(d, count + 1)
      case o => Failed(o)
  }

  // Lines not written over are in memory as they were assembled.
  ghost predicate InMemory(lines: seq<Line>, words: seq<int>, touched: set<int>, c: Cpu)
    requires |words| == |lines|
  {
    Complete(c) && forall at :: Untouched(lines, touched, at) && at < NUMMEMORY ==> c.mem[at] == words[at]
  }

  lemma AssembledMeans(lines: seq<Line>, words: seq<int>)
    requires Assembled(lines, words)
    ensures Meaningful(lines)
  {
    forall i: nat | i < |lines| && lines[i].opcode != ".fill"
      ensures exists x :: Means(lines, i, x)
    {
      assert Means(lines, i, Decode(words[i], i));
    }
  }

  // The word at the program counter decodes to what the source says there.
  lemma SameInstruction(lines: seq<Line>, words: seq<int>, touched: set<int>, c: Cpu)
    requires Assembled(lines, words) && InMemory(lines, words, touched, c) && 0 <= c.pc < NUMMEMORY && Meaningful(lines)
    ensures Next(lines, touched, c) == Decode(c.mem[c.pc], c.pc)
  {
    if Untouched(lines, touched, c.pc) {
      OneMeaning(lines, c.pc, LineInstr(lines, c.pc), Decode(words[c.pc], c.pc));
    }
  }

  // The simulator on the assembled words does what the source says, step by step, up to the same end.
  lemma {:induction false} SimulatesSource(lines: seq<Line>, words: seq<int>, touched: set<int>, c: Cpu, count: nat)
    requires Assembled(lines, words) && InMemory(lines, words, touched, c) && count <= 200
    ensures Meaningful(lines) && SourceRun(lines, touched, c, count) == Run(c, count)
    decreases 200 - count
  {
    AssembledMeans(lines, words);
    if 0 <= c.pc < NUMMEMORY && count < 200 {
      SameInstruction(lines, words, touched, c);
      var x := Next(lines, touched, c);
      var o := Exec(x, c);
      if o.Runs? {
        SimulatesSource(lines, words, touched + Stored(x, c), o.cpu, count + 1);
      }
    }
  }

  // From the file to the end of the run.
  lemma AssembleAndSimulate(lines: seq<Line>, words: seq<int>, rest: seq<int>, start: int)
    requires Assembled(lines, words) && |words| + |rest| == NUMMEMORY
    ensures var c := Cpu(start, Zeros(NUMREGS), words + rest); Meaningful(lines) && SourceRun(lines, {}, c, 0) == Run(c, 0)
  {
    SimulatesSource(lines, words, {}, Cpu(start, Zeros(NUMREGS), words + rest), 0);
  }

  // A branch that is taken lands on the line of its label.
  lemma BranchLands(lines: seq<Line>, words: seq<int>, touched: set<int>, c: Cpu, at: int)
    requires Assembled(lines, words) && InMemory(lines, words, touched, c) && Untouched(lines, touched, c.pc)
    requires lines[c.pc].opcode == "beq" && !IsNumber(lines[c.pc].arg2) && IsAddr(lines, lines[c.pc].arg2, at)
    ensures var a, b := Atoi(lines[c.pc].arg0), Atoi(lines[c.pc].arg1);
            && 0 <= a < NUMREGS && 0 <= b < NUMREGS
            && Step(c) == Runs(c.(pc := if c.reg[a] == c.reg[b] then at else c.pc + 1))
  {
    AssembledMeans(lines, words);
    SameInstruction(lines, words, touched, c);
    var x := LineInstr(lines, c.pc);
    OneAddr(lines, lines[c.pc].arg2, at, x.target);
  }

  // A load by label gets the word of that line, from a register that is zero.
  lemma LoadsLabel(lines: seq<Line>, words: seq<int>, touched: set<int>, c: Cpu, at: int)
    requires Assembled(lines, words) && InMemory(lines, words, touched, c) && Untouched(lines, touched, c.pc)
    requires lines[c.pc].opcode == "lw" && !IsNumber(lines[c.pc].arg2) && IsAddr(lines, lines[c.pc].arg2, at)
    ensures var a, b := Atoi(lines[c.pc].arg0), Atoi(lines[c.pc].arg1);
            && 0 <= a < NUMREGS && 0 <= b < NUMREGS
            && (c.reg[a] == 0 ==> Step(c) == Runs(c.(pc := c.pc + 1, reg := c.reg[b := c.mem[at]])))
  {
    AssembledMeans(lines, words);
    SameInstruction(lines, words, touched, c);
    var x := LineInstr(lines, c.pc);
    OneAddr(lines, lines[c.pc].arg2, at, x.offset);
  }
}
