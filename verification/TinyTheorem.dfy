/** Compiling, loading and running a TINY program: the machine shows every
    behaviour of the program and no other. */
module TinyTheorem {
  import opened TinySyntax
  import opened TinyMachine
  import opened TinySymbols
  import opened TinyCode
  import opened TinyCorrect
  import opened TinyEmit

  function Locations(p: Stmts): (locs: Layout) {
    AddStmtsDense(p, map[]);
    AddStmts(p, map[])
  }

  // The memory bounds: variables and temporaries in data memory, code in
  // instruction memory.
  predicate FitsMachine(p: Stmts) {
    && |Locations(p)| + StmtsDepth(p) <= DADDR_SIZE
    && |ProgramCode(p, Locations(p))| <= IADDR_SIZE
  }

  function Meaning(p: Stmts, input: seq<int>, fuel: nat): Behaviour {
    ExecStmts(p, Store(map[], input, []), fuel)
  }

  // What the loader makes of the code file.
  function Image(p: Stmts): LoadResult {
    Load(ProgramFile(p, Locations(p)))
  }

  // The code of a program loads exactly when it is no longer than the memory.
  lemma ImageLoads(p: Stmts)
    ensures Image(p).Loaded? <==> |ProgramCode(p, Locations(p))| <= IADDR_SIZE
    ensures Image(p).Loaded? ==> CodeAt(Image(p).iMem, 0, ProgramCode(p, Locations(p)))
  {
    var locs := Locations(p);
    ProgramAcceptable(p, locs);
    EveryLocationOnce(p, locs);
    LoadsIfShort(ProgramFile(p, locs), ProgramCode(p, locs));
  }

  lemma ProgramAcceptable(p: Stmts, locs: map<string, int>)
    ensures AllAcceptable(ProgramCode(p, locs))
  {
    StmtsAcceptable(p, locs, 0);
  }

  lemma LoadsIfShort(lines: seq<Line>, c: seq<Instruction>)
    requires multiset(lines) == multiset(LinesAt(0, c)) && AllAcceptable(c)
    ensures Load(lines).Loaded? <==> |c| <= IADDR_SIZE
    ensures Load(lines).Loaded? ==> CodeAt(Load(lines).iMem, 0, c)
  {
    if |c| <= IADDR_SIZE {
      LoadGenerated(lines, c);
    } else {
      LoadTooLong(lines, c);
    }
  }

  ghost predicate FinalValues(m: State, p: Stmts, st: Store) {
    forall x :: x in Locations(p) ==>
      0 <= Locations(p)[x] < DADDR_SIZE && m.dMem[Locations(p)[x]] == Get(st.vars, x)
  }

  // After n steps the machine has done what r says: it stands at HALT with the
  // same output, unread input and variables; or it stopped at a division by zero
  // or at an input that does not come; or it still runs, after at least fuel steps.
  ghost predicate Shown(iMem: Program, p: Stmts, input: seq<int>, n: nat, m: State, r: Behaviour, fuel: nat) {
    match r
    case Ends(st) =>
      Run(iMem, InitialState(input), n) == (m, HALTED)
      && m.output == st.output && m.input == st.input && FinalValues(m, p, st)
    case DividesByZero(st) =>
      Run(iMem, InitialState(input), n) == (m, ZERODIVIDE) && m.output == st.output && m.input == st.input
    case AwaitsInput(st) =>
      Run(iMem, InitialState(input), n) == (m, AWAIT) && m.output == st.output && m.input == st.input
    case RunsOn =>
      Run(iMem, InitialState(input), n) == (m, OKAY) && n >= fuel
  }

  // The prelude sets mp and clears location 0.
  lemma SimPrelude(iMem: Program, locs: Layout, input: seq<int>) returns (m: State)
    requires CodeAt(iMem, 0, Prelude) && |locs| <= DADDR_SIZE
    ensures Reaches(iMem, InitialState(input), 2, m)
    ensures Matches(m, 2, locs, Store(map[], input, []))
  {
    var m0 := InitialState(input);
    assert iMem[0] == Prelude[0] && iMem[1] == Prelude[1];
    var m1 := Step(iMem, m0).0;
    Then(iMem, m0, 0, m0);
    assert m1 == m0.(reg := m0.reg[pc := 1][mp := TOP]);
    m := Step(iMem, m1).0;
    Then(iMem, m0, 1, m1);
    assert m == State(m1.reg[pc := 2], m0.dMem[0 := 0], input, []);
  }

  // The machine shows every behaviour of the program.
  lemma Preservation(p: Stmts, input: seq<int>, fuel: nat) returns (n: nat, m: State)
    requires FitsMachine(p)
    ensures Image(p).Loaded?
    ensures Shown(Image(p).iMem, p, input, n, m, Meaning(p, input, fuel), fuel)
  {
    ImageLoads(p);
    var iMem, locs := Image(p).iMem, Locations(p);
    var c := StmtsCode(p, locs, 0);
    var halt := RO(HALT, 0, 0, 0);
    CodeAtSplit(iMem, 0, Prelude, c + [halt]);
    CodeAtSplit(iMem, 2, c, [halt]);
    CodeAtHead(iMem, 2 + |c|, halt, []);
    AddStmtsNames(p);
    StmtsNamesDeclared(p, locs);
    var m2 := SimPrelude(iMem, locs, input);
    n, m := SimRest(p, Store(map[], input, []), fuel, locs, iMem, 2, InitialState(input), 2, m2);
    if Meaning(p, input, fuel).Ends? {
      n, m := SimHalt(iMem, p, input, n, m, 2 + |c|, Meaning(p, input, fuel).store);
    }
  }

  lemma SimHalt(iMem: Program, p: Stmts, input: seq<int>, n: nat, m: State, a: int, st: Store) returns (n1: nat, m1: State)
    requires 0 <= a < IADDR_SIZE && iMem[a] == RO(HALT, 0, 0, 0)
    requires Reaches(iMem, InitialState(input), n, m) && Matches(m, a, Locations(p), st)
    ensures Run(iMem, InitialState(input), n1) == (m1, HALTED)
    ensures m1.output == st.output && m1.input == st.input && FinalValues(m1, p, st)
  {
    Then(iMem, InitialState(input), n, m);
    n1, m1 := n + 1, Step(iMem, m).0;
  }

  // And no other: whatever ends a run of the machine is how the program ends.
  lemma Reflection(p: Stmts, input: seq<int>, n: nat)
    requires FitsMachine(p) && Image(p).Loaded?
    requires Run(Image(p).iMem, InitialState(input), n).1 != OKAY
    ensures Meaning(p, input, n + 1) != RunsOn
    ensures Shown(Image(p).iMem, p, input, n, Run(Image(p).iMem, InitialState(input), n).0, Meaning(p, input, n + 1), n + 1)
  {
    var iMem := Image(p).iMem;
    var k, m := Preservation(p, input, n + 1);
    if k <= n {
      if Meaning(p, input, n + 1) != RunsOn {
        RunStops(iMem, InitialState(input), k, n);
      }
    } else {
      RunStops(iMem, InitialState(input), n, k);
    }
  }

  ghost predicate MachineRunsOn(iMem: Program, input: seq<int>) {
    forall n: nat :: Run(iMem, InitialState(input), n).1 == OKAY
  }

  ghost predicate ProgramRunsOn(p: Stmts, input: seq<int>) {
    forall fuel: nat :: Meaning(p, input, fuel) == RunsOn
  }

  // The machine runs for ever exactly when the program does.
  lemma DivergesAlike(p: Stmts, input: seq<int>)
    requires FitsMachine(p) && Image(p).Loaded?
    ensures MachineRunsOn(Image(p).iMem, input) <==> ProgramRunsOn(p, input)
  {
    var iMem, m0 := Image(p).iMem, InitialState(input);
    if MachineRunsOn(iMem, input) {
      forall fuel: nat
        ensures Meaning(p, input, fuel) == RunsOn
      {
        var n, m := Preservation(p, input, fuel);
        assert Run(iMem, m0, n).1 == OKAY;
      }
    }
    if ProgramRunsOn(p, input) {
      forall n: nat
        ensures Run(iMem, m0, n).1 == OKAY
      {
        if Run(iMem, m0, n).1 != OKAY {
          Reflection(p, input, n);
        }
      }
    }
  }

  // Generated code never leaves its memories.
  lemma NeverFaults(p: Stmts, input: seq<int>, n: nat)
    requires FitsMachine(p) && Image(p).Loaded?
    ensures Run(Image(p).iMem, InitialState(input), n).1 in {OKAY, HALTED, ZERODIVIDE, AWAIT}
  {
    if Run(Image(p).iMem, InitialState(input), n).1 != OKAY {
      Reflection(p, input, n);
    }
  }

  // What a run of at most n steps with result res says about the program.
  ghost predicate Explained(p: Stmts, input: seq<int>, n: nat, res: StepResult, m: State) {
    match res
    case OKAY => true
    case HALTED =>
      var r := Meaning(p, input, n + 1);
      r.Ends? && m.output == r.store.output && m.input == r.store.input && FinalValues(m, p, r.store)
    case ZERODIVIDE =>
      var r := Meaning(p, input, n + 1);
      r.DividesByZero? && m.output == r.store.output && m.input == r.store.input
    case AWAIT =>
      var r := Meaning(p, input, n + 1);
      r.AwaitsInput? && m.output == r.store.output && m.input == r.store.input
    case _ => false
  }

  lemma RunExplained(p: Stmts, input: seq<int>, n: nat)
    requires FitsMachine(p) && Image(p).Loaded?
    ensures var (m, res) := Run(Image(p).iMem, InitialState(input), n); Explained(p, input, n, res, m)
  {
    if Run(Image(p).iMem, InitialState(input), n).1 != OKAY {
      Reflection(p, input, n);
    }
  }

  // Analysis, code generation, loading and execution, each by its own component.
  method CompileAndRun(p: Stmts, input: seq<int>, n: nat) returns (loaded: bool, machine: Machine, res: StepResult)
    ensures loaded <==> |ProgramCode(p, Locations(p))| <= IADDR_SIZE
    ensures loaded ==> Image(p).Loaded? && machine.Valid() && (machine.Now(), res) == Run(Image(p).iMem, InitialState(input), n)
    ensures FitsMachine(p) ==> loaded && Explained(p, input, n, res, machine.Now())
  {
    var analyzer := new Analyzer();
    analyzer.BuildSymtab(p);
    var generator := new CodeGenerator(analyzer.table);
    generator.CodeGen(p);
    machine := new Machine(input);
    var file := generator.code;
    var r := machine.ReadInstructions(file);
    ImageLoads(p);
    loaded, res := r.Loaded?, OKAY;
    if loaded {
      res := machine.StepMany(n);
      if FitsMachine(p) {
        RunExplained(p, input, n);
      }
    }
  }
}
