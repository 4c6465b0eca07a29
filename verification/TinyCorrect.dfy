/** The generated code behaves as the program: a forward simulation of every
    outcome of the source semantics by steps of the machine. */
module TinyCorrect {
  import opened TinySyntax
  import opened TinyMachine
  import opened TinySymbols
  import opened TinyCode
  import opened CInt

  const TOP := 1023  // the address that the prelude leaves in mp

  ghost predicate CodeAt(iMem: Program, a: int, c: seq<Instruction>) {
    && 0 <= a && a + |c| <= IADDR_SIZE
    && forall k {:trigger c[k]} :: 0 <= k < |c| ==> iMem[a + k] == c[k]
  }

  lemma CodeAtSplit(iMem: Program, a: int, c1: seq<Instruction>, c2: seq<Instruction>)
    requires CodeAt(iMem, a, c1 + c2)
    ensures CodeAt(iMem, a, c1) && CodeAt(iMem, a + |c1|, c2)
  {
    forall k | 0 <= k < |c1|
      ensures iMem[a + k] == c1[k]
    {
      assert (c1 + c2)[k] == c1[k];
    }
    forall k | 0 <= k < |c2|
      ensures iMem[a + |c1| + k] == c2[k]
    {
      assert (c1 + c2)[|c1| + k] == c2[k];
    }
  }

  lemma CodeAtHead(iMem: Program, a: int, i: Instruction, c: seq<Instruction>)
    requires CodeAt(iMem, a, [i] + c)
    ensures a < IADDR_SIZE && iMem[a] == i && CodeAt(iMem, a + 1, c)
  {
    assert ([i] + c)[0] == i;
    CodeAtSplit(iMem, a, [i], c);
  }

  // The data memory shows vars at the locations locs.
  ghost predicate Shows(dMem: DataMemory, locs: Layout, vars: map<string, int>)
  {
    forall x :: x in locs ==> 0 <= locs[x] < DADDR_SIZE && dMem[locs[x]] == Get(vars, x)
  }

  // The machine stands at address a with the pointers mp and gp set up.
  ghost predicate Standing(m: State, a: int) {
    m.reg[pc] == a && m.reg[mp] == TOP && m.reg[gp] == 0
  }

  // The data memories differ at most at the addresses lo..hi.
  ghost predicate SameOutside(d1: DataMemory, d2: DataMemory, lo: int, hi: int) {
    forall k :: 0 <= k < DADDR_SIZE && !(lo <= k <= hi) ==> d1[k] == d2[k]
  }

  // All variables lie below the temporaries that depth operands at tmp use.
  ghost predicate Fits(locs: Layout, tmp: int, depth: nat) {
    tmp <= 0 && |locs| + depth <= DADDR_SIZE + tmp
  }

  ghost predicate SameStreams(m: State, m1: State) {
    m1.input == m.input && m1.output == m.output
  }

  // What a value-producing piece of code does: it leaves v in ac at the address
  // end and touches only the temporaries of its own depth.
  ghost predicate Produces(iMem: Program, m: State, n: nat, m1: State, end: int, v: int, tmp: int, depth: nat)
  {
    && Reaches(iMem, m, n, m1)
    && Standing(m1, end)
    && m1.reg[ac] == v
    && SameStreams(m, m1)
    && SameOutside(m.dMem, m1.dMem, TOP + tmp - depth + 1, TOP + tmp)
  }

  ghost predicate Divides(iMem: Program, m: State, n: nat, m1: State)
  {
    && Run(iMem, m, n) == (m1, ZERODIVIDE)
    && SameStreams(m, m1)
  }

  // One more step after n.
  lemma Then(iMem: Program, m: State, n: nat, m1: State)
    requires Reaches(iMem, m, n, m1)
    ensures Run(iMem, m, n + 1) == Step(iMem, m1)
  {
    RunAdds(iMem, m, n, m1, 1);
    assert Run(iMem, Step(iMem, m1).0, 0) == (Step(iMem, m1).0, OKAY);
  }

  // From m the machine has come to address a with v in ac; all else is as in m.
  ghost predicate Moved(m: State, m1: State, a: int, v: int) {
    Standing(m1, a) && m1.reg[ac] == v && m1.dMem == m.dMem && SameStreams(m, m1)
  }

  lemma StepAlu(iMem: Program, a: int, m: State, op: Operator)
    requires Standing(m, a) && 0 <= a < IADDR_SIZE && iMem[a] == OperatorCode(op)[0]
    requires !op.Over? || m.reg[ac] != 0
    ensures Step(iMem, m).1 == OKAY
    ensures op == Over ==> Moved(m, Step(iMem, m).0, a + 1, TruncDiv(m.reg[ac1], m.reg[ac]))
    ensures op == Plus ==> Moved(m, Step(iMem, m).0, a + 1, m.reg[ac1] + m.reg[ac])
    ensures op == Times ==> Moved(m, Step(iMem, m).0, a + 1, m.reg[ac1] * m.reg[ac])
    ensures op in {Minus, Lt, Eq} ==> Moved(m, Step(iMem, m).0, a + 1, m.reg[ac1] - m.reg[ac])
  {
  }

  lemma StepJump(iMem: Program, a: int, m: State, jump: OpCode, d: int)
    requires Standing(m, a) && 0 <= a < IADDR_SIZE && iMem[a] == RM(jump, ac, d, pc)
    requires jump == JLT || jump == JEQ
    ensures Step(iMem, m).1 == OKAY
    ensures Moved(m, Step(iMem, m).0, if Taken(jump, m.reg[ac]) then a + 1 + d else a + 1, m.reg[ac])
  {
  }

  lemma StepGo(iMem: Program, a: int, m: State, d: int)
    requires Standing(m, a) && 0 <= a < IADDR_SIZE && iMem[a] == RM(LDA, pc, d, pc)
    ensures Step(iMem, m).1 == OKAY && Moved(m, Step(iMem, m).0, a + 1 + d, m.reg[ac])
  {
  }

  lemma StepConst(iMem: Program, a: int, m: State, v: int, s: int)
    requires Standing(m, a) && 0 <= a < IADDR_SIZE && iMem[a] == RM(LDC, ac, v, s)
    ensures Step(iMem, m).1 == OKAY && Moved(m, Step(iMem, m).0, a + 1, v)
  {
  }

  // The instructions for an operator, with the left operand in ac1.
  lemma SimOperator(op: Operator, iMem: Program, a: int, m: State) returns (n: nat, m1: State)
    requires CodeAt(iMem, a, OperatorCode(op)) && Standing(m, a)
    ensures var v := Apply(op, m.reg[ac1], m.reg[ac]);
            if v.Some? then
              Reaches(iMem, m, n, m1) && Moved(m, m1, a + |OperatorCode(op)|, v.value)
            else
              Divides(iMem, m, n, m1)
  {
    if op.Lt? || op.Eq? {
      n, m1 := SimComparison(op, if op.Lt? then JLT else JEQ, iMem, a, m);
    } else {
      n, m1 := 1, Step(iMem, m).0;
      assert iMem[a] == OperatorCode(op)[0];
      Then(iMem, m, 0, m);
      if !op.Over? || m.reg[ac] != 0 {
        StepAlu(iMem, a, m, op);
      }
    }
  }

  // A step that goes well, after n steps.
  lemma OneMore(iMem: Program, m: State, n: nat, s: State)
    requires Reaches(iMem, m, n, s) && Step(iMem, s).1 == OKAY
    ensures Reaches(iMem, m, n + 1, Step(iMem, s).0)
  {
    Then(iMem, m, n, s);
  }

  lemma SimComparison(op: Operator, jump: OpCode, iMem: Program, a: int, m: State) returns (n: nat, m1: State)
    requires (op == Lt && jump == JLT) || (op == Eq && jump == JEQ)
    requires CodeAt(iMem, a, Comparison(jump)) && Standing(m, a)
    ensures Reaches(iMem, m, n, m1)
    ensures Moved(m, m1, a + 5, if Taken(jump, m.reg[ac1] - m.reg[ac]) then 1 else 0)
  {
    var c := Comparison(jump);
    assert iMem[a] == c[0] && iMem[a + 1] == c[1] && iMem[a + 2] == c[2] && iMem[a + 3] == c[3] && iMem[a + 4] == c[4];
    var s1 := Step(iMem, m).0;
    StepAlu(iMem, a, m, op);
    OneMore(iMem, m, 0, m);
    var s2 := Step(iMem, s1).0;
    StepJump(iMem, a + 1, s1, jump, 2);
    OneMore(iMem, m, 1, s1);
    if Taken(jump, s1.reg[ac]) {
      StepConst(iMem, a + 4, s2, 1, ac);
      OneMore(iMem, m, 2, s2);
      n, m1 := 3, Step(iMem, s2).0;
    } else {
      n, m1 := SimZero(iMem, a + 2, m, 2, s2);
    }
  }

  // Zero, and past the next instruction.
  lemma SimZero(iMem: Program, a: int, m: State, k: nat, s: State) returns (n: nat, m1: State)
    requires Reaches(iMem, m, k, s) && Standing(s, a) && 0 <= a && a + 1 < IADDR_SIZE
    requires iMem[a] == RM(LDC, ac, 0, ac) && iMem[a + 1] == RM(LDA, pc, 1, pc)
    ensures Reaches(iMem, m, n, m1) && Moved(s, m1, a + 3, 0)
  {
    var s3 := Step(iMem, s).0;
    StepConst(iMem, a, s, 0, ac);
    OneMore(iMem, m, k, s);
    StepGo(iMem, a + 1, s3, 1);
    OneMore(iMem, m, k + 1, s3);
    n, m1 := k + 2, Step(iMem, s3).0;
  }

  // Evaluation of an expression, at every offset of the temporaries.
  lemma {:induction false} SimExp(e: Exp, vars: map<string, int>, locs: Layout, tmp: int,
                                  iMem: Program, a: int, m: State)
    returns (n: nat, m1: State)
    requires CodeAt(iMem, a, ExpCode(e, locs, tmp)) && Standing(m, a)
    requires Fits(locs, tmp, ExpDepth(e)) && ExpDeclared(e, locs) && Shows(m.dMem, locs, vars)
    ensures var v := Eval(e, vars);
            if v.Some? then
              Produces(iMem, m, n, m1, a + |ExpCode(e, locs, tmp)|, v.value, tmp, ExpDepth(e))
            else
              Divides(iMem, m, n, m1)
    decreases e, 1
  {
    match e
    case ConstK(v) =>
      CodeAtHead(iMem, a, RM(LDC, ac, v, 0), []);
      Then(iMem, m, 0, m);
      n, m1 := 1, Step(iMem, m).0;
    case IdK(x) =>
      CodeAtHead(iMem, a, RM(LD, ac, Lookup(locs, x), gp), []);
      Then(iMem, m, 0, m);
      n, m1 := 1, Step(iMem, m).0;
    case OpK(op, l, r) =>
      n, m1 := SimOp(op, l, r, vars, locs, tmp, iMem, a, m);
  }

  // The parts of the code of an operation: left operand, push, right operand,
  // pop, operator.
  ghost predicate OpParts(op: Operator, l: Exp, r: Exp, locs: Layout, tmp: int,
                          iMem: Program, a: int, a1: int, a2: int, end: int) {
    && CodeAt(iMem, a, ExpCode(l, locs, tmp))
    && a1 == a + |ExpCode(l, locs, tmp)| < IADDR_SIZE
    && iMem[a1] == RM(ST, ac, tmp, mp)
    && CodeAt(iMem, a1 + 1, ExpCode(r, locs, tmp - 1))
    && a2 == a1 + 1 + |ExpCode(r, locs, tmp - 1)| < IADDR_SIZE
    && iMem[a2] == RM(LD, ac1, tmp, mp)
    && CodeAt(iMem, a2 + 1, OperatorCode(op))
    && end == a2 + 1 + |OperatorCode(op)|
  }

  lemma SplitOp(op: Operator, l: Exp, r: Exp, locs: Layout, tmp: int, iMem: Program, a: int)
    returns (a1: int, a2: int, end: int)
    requires CodeAt(iMem, a, ExpCode(OpK(op, l, r), locs, tmp))
    ensures OpParts(op, l, r, locs, tmp, iMem, a, a1, a2, end)
    ensures end == a + |ExpCode(OpK(op, l, r), locs, tmp)|
  {
    var cl, cr := ExpCode(l, locs, tmp), ExpCode(r, locs, tmp - 1);
    var push, pop := RM(ST, ac, tmp, mp), RM(LD, ac1, tmp, mp);
    CodeAtSplit(iMem, a, cl, [push] + (cr + ([pop] + OperatorCode(op))));
    a1 := a + |cl|;
    CodeAtHead(iMem, a1, push, cr + ([pop] + OperatorCode(op)));
    CodeAtSplit(iMem, a1 + 1, cr, [pop] + OperatorCode(op));
    a2 := a1 + 1 + |cr|;
    CodeAtHead(iMem, a2, pop, OperatorCode(op));
    end := a2 + 1 + |OperatorCode(op)|;
  }

  lemma {:induction false} SimOp(op: Operator, l: Exp, r: Exp, vars: map<string, int>, locs: Layout, tmp: int,
                                 iMem: Program, a: int, m: State)
    returns (n: nat, m1: State)
    requires var e := OpK(op, l, r);
             CodeAt(iMem, a, ExpCode(e, locs, tmp)) && Standing(m, a) &&
             Fits(locs, tmp, ExpDepth(e)) && ExpDeclared(e, locs) && Shows(m.dMem, locs, vars)
    ensures var e := OpK(op, l, r);
            var v := Eval(e, vars);
            if v.Some? then
              Produces(iMem, m, n, m1, a + |ExpCode(e, locs, tmp)|, v.value, tmp, ExpDepth(e))
            else
              Divides(iMem, m, n, m1)
    decreases OpK(op, l, r), 0
  {
    var a1, a2, end := SplitOp(op, l, r, locs, tmp, iMem, a);
    var depth := ExpDepth(OpK(op, l, r));
    n, m1 := SimExp(l, vars, locs, tmp, iMem, a, m);
    if Eval(l, vars).Some? {
      var x := Eval(l, vars).value;
      var n2, s2 := Push(iMem, m, n, m1, a1, x, tmp, depth, vars, locs);
      n, m1 := SimRight(r, vars, locs, tmp, iMem, a1 + 1, m, n2, s2, x, depth);
      if Eval(r, vars).Some? {
        n, m1 := PopAndApply(op, iMem, m, n, m1, a2, x, tmp, depth);
      }
    }
  }

  // The right operand is evaluated below the pushed x.
  lemma {:induction false} SimRight(r: Exp, vars: map<string, int>, locs: Layout, tmp: int,
                                    iMem: Program, a: int, m: State, n1: nat, m1: State, x: int, depth: nat)
    returns (n2: nat, m2: State)
    requires CodeAt(iMem, a, ExpCode(r, locs, tmp - 1)) && ExpDepth(r) < depth && ExpDeclared(r, locs)
    requires Fits(locs, tmp, depth)
    requires Reaches(iMem, m, n1, m1) && Standing(m1, a) && SameStreams(m, m1)
    requires SameOutside(m.dMem, m1.dMem, TOP + tmp - depth + 1, TOP + tmp)
    requires m1.dMem[TOP + tmp] == x && Shows(m1.dMem, locs, vars)
    ensures var v := Eval(r, vars);
            if v.Some? then
              Reaches(iMem, m, n2, m2) && Standing(m2, a + |ExpCode(r, locs, tmp - 1)|) && SameStreams(m, m2)
              && m2.reg[ac] == v.value
              && SameOutside(m.dMem, m2.dMem, TOP + tmp - depth + 1, TOP + tmp) && m2.dMem[TOP + tmp] == x
            else
              Divides(iMem, m, n2, m2)
    decreases r, 2
  {
    n2, m2 := SimExp(r, vars, locs, tmp - 1, iMem, a, m1);
    RunAdds(iMem, m, n1, m1, n2);
    n2 := n1 + n2;
  }

  // After the left operand, it is pushed.
  lemma Push(iMem: Program, m: State, n: nat, m1: State, a: int, x: int, tmp: int, depth: nat,
             vars: map<string, int>, locs: Layout)
    returns (n2: nat, m2: State)
    requires 0 <= a < IADDR_SIZE && iMem[a] == RM(ST, ac, tmp, mp)
    requires depth > 0 && Fits(locs, tmp, depth) && Shows(m.dMem, locs, vars)
    requires Produces(iMem, m, n, m1, a, x, tmp, depth)
    ensures Reaches(iMem, m, n2, m2) && Standing(m2, a + 1) && SameStreams(m, m2)
    ensures SameOutside(m.dMem, m2.dMem, TOP + tmp - depth + 1, TOP + tmp)
    ensures m2.dMem[TOP + tmp] == x && Shows(m2.dMem, locs, vars)
  {
    Then(iMem, m, n, m1);
    n2, m2 := n + 1, Step(iMem, m1).0;
    StepPush(iMem, a, m1, tmp);
    StillShown(m.dMem, m2.dMem, locs, vars, TOP + tmp - depth + 1, TOP + tmp);
  }

  // After the right operand, the left one is popped and the operator applied.
  lemma PopAndApply(op: Operator, iMem: Program, m: State, n: nat, m1: State, a: int, x: int, tmp: int, depth: nat)
    returns (n2: nat, m2: State)
    requires 0 <= a < IADDR_SIZE && iMem[a] == RM(LD, ac1, tmp, mp)
    requires CodeAt(iMem, a + 1, OperatorCode(op)) && 0 <= TOP + tmp <= TOP
    requires Reaches(iMem, m, n, m1) && Standing(m1, a) && SameStreams(m, m1) && m1.dMem[TOP + tmp] == x
    requires SameOutside(m.dMem, m1.dMem, TOP + tmp - depth + 1, TOP + tmp)
    ensures var v := Apply(op, x, m1.reg[ac]);
            if v.Some? then
              Produces(iMem, m, n2, m2, a + 1 + |OperatorCode(op)|, v.value, tmp, depth)
            else
              Divides(iMem, m, n2, m2)
  {
    Then(iMem, m, n, m1);
    var s := Step(iMem, m1).0;
    StepPop(iMem, a, m1, tmp, x);
    n2, m2 := SimOperator(op, iMem, a + 1, s);
    RunAdds(iMem, m, n + 1, s, n2);
    n2 := n + 1 + n2;
  }

  lemma StepPush(iMem: Program, a: int, m: State, tmp: int)
    requires Standing(m, a) && 0 <= a < IADDR_SIZE && iMem[a] == RM(ST, ac, tmp, mp)
    requires 0 <= TOP + tmp <= TOP
    ensures Step(iMem, m).1 == OKAY
    ensures var m1 := Step(iMem, m).0;
            Standing(m1, a + 1) && SameStreams(m, m1) && m1.dMem == m.dMem[TOP + tmp := m.reg[ac]]
  {
  }

  lemma StepPop(iMem: Program, a: int, m: State, tmp: int, x: int)
    requires Standing(m, a) && 0 <= a < IADDR_SIZE && iMem[a] == RM(LD, ac1, tmp, mp)
    requires 0 <= TOP + tmp <= TOP && m.dMem[TOP + tmp] == x
    ensures Step(iMem, m).1 == OKAY
    ensures Moved(m, Step(iMem, m).0, a + 1, m.reg[ac]) && Step(iMem, m).0.reg[ac1] == x
  {
  }

  lemma StillShown(d: DataMemory, d1: DataMemory, locs: Layout, vars: map<string, int>, lo: int, hi: int)
    requires SameOutside(d, d1, lo, hi) && Shows(d, locs, vars) && |locs| <= lo
    ensures Shows(d1, locs, vars)
  {
  }

  // ---------- statements ----------

  ghost predicate Matches(m: State, a: int, locs: Layout, st: Store) {
    Standing(m, a) && Shows(m.dMem, locs, st.vars) && m.input == st.input && m.output == st.output
  }

  // The run from m does in n steps what the behaviour r tells.
  ghost predicate Mirrors(iMem: Program, m: State, n: nat, m1: State, end: int, locs: Layout,
                          r: Behaviour, fuel: nat)
  {
    match r
    case Ends(st1) => Reaches(iMem, m, n, m1) && Matches(m1, end, locs, st1)
    case DividesByZero(st1) => Run(iMem, m, n) == (m1, ZERODIVIDE) && m1.input == st1.input && m1.output == st1.output
    case AwaitsInput(st1) => Run(iMem, m, n) == (m1, AWAIT) && m1.input == st1.input && m1.output == st1.output
    case RunsOn => Reaches(iMem, m, n, m1) && n >= fuel
  }

  // A value, computed after k steps from m; the store stays.
  lemma SimValue(e: Exp, st: Store, depth: int, locs: Layout, iMem: Program, a: int, m: State, k: nat, s: State)
    returns (n: nat, m1: State)
    requires CodeAt(iMem, a, ExpCode(e, locs, 0)) && Reaches(iMem, m, k, s) && Matches(s, a, locs, st)
    requires ExpDepth(e) <= depth && Fits(locs, 0, depth) && ExpDeclared(e, locs)
    ensures var v := Eval(e, st.vars);
            if v.Some? then
              n >= k && Reaches(iMem, m, n, m1) && Matches(m1, a + |ExpCode(e, locs, 0)|, locs, st) && m1.reg[ac] == v.value
            else
              Run(iMem, m, n) == (m1, ZERODIVIDE) && m1.input == st.input && m1.output == st.output
  {
    n, m1 := SimExp(e, st.vars, locs, 0, iMem, a, s);
    RunAdds(iMem, m, k, s, n);
    n := k + n;
    if Eval(e, st.vars).Some? {
      StillShown(s.dMem, m1.dMem, locs, st.vars, TOP - ExpDepth(e) + 1, TOP);
    }
  }

  // A test and the jump behind it: a zero value takes the jump over d instructions.
  lemma SimTest(e: Exp, st: Store, d: int, depth: nat, locs: Layout, iMem: Program, a: int, m: State, k: nat, s: State)
    returns (n: nat, m1: State)
    requires CodeAt(iMem, a, ExpCode(e, locs, 0)) && Reaches(iMem, m, k, s) && Matches(s, a, locs, st)
    requires ExpDepth(e) <= depth && Fits(locs, 0, depth) && ExpDeclared(e, locs)
    requires var b := a + |ExpCode(e, locs, 0)|; b < IADDR_SIZE && iMem[b] == RM(JEQ, ac, d, pc)
    ensures var v := Eval(e, st.vars);
            var b := a + |ExpCode(e, locs, 0)| + 1;
            if v.Some? then
              n > k && Reaches(iMem, m, n, m1) && Matches(m1, if v.value == 0 then b + d else b, locs, st)
            else
              Run(iMem, m, n) == (m1, ZERODIVIDE) && m1.input == st.input && m1.output == st.output
  {
    n, m1 := SimValue(e, st, depth, locs, iMem, a, m, k, s);
    if Eval(e, st.vars).Some? {
      n, m1 := TakeTest(st, d, locs, iMem, a + |ExpCode(e, locs, 0)|, m, n, m1);
    }
  }

  lemma TakeTest(st: Store, d: int, locs: Layout, iMem: Program, a: int, m: State, k: nat, s: State)
    returns (n: nat, m1: State)
    requires 0 <= a < IADDR_SIZE && iMem[a] == RM(JEQ, ac, d, pc)
    requires Reaches(iMem, m, k, s) && Matches(s, a, locs, st)
    ensures n == k + 1 && Reaches(iMem, m, n, m1)
    ensures Matches(m1, if s.reg[ac] == 0 then a + 1 + d else a + 1, locs, st)
  {
    Then(iMem, m, k, s);
    StepJump(iMem, a, s, JEQ, d);
    n, m1 := k + 1, Step(iMem, s).0;
  }

  lemma SimAssign(x: string, e: Exp, st: Store, fuel: nat, locs: Layout, iMem: Program, a: int, m: State)
    returns (n: nat, m1: State)
    requires var s := AssignK(x, e);
             CodeAt(iMem, a, StmtCode(s, locs, 0)) && Matches(m, a, locs, st) &&
             Fits(locs, 0, StmtDepth(s)) && StmtDeclared(s, locs)
    ensures var s := AssignK(x, e);
            Mirrors(iMem, m, n, m1, a + |StmtCode(s, locs, 0)|, locs, ExecStmt(s, st, fuel), fuel)
  {
    var c, store := ExpCode(e, locs, 0), RM(ST, ac, Lookup(locs, x), gp);
    CodeAtSplit(iMem, a, c, [store]);
    CodeAtHead(iMem, a + |c|, store, []);
    n, m1 := SimValue(e, st, ExpDepth(e), locs, iMem, a, m, 0, m);
    if Eval(e, st.vars).Some? {
      Then(iMem, m, n, m1);
      StepStore(iMem, a + |c|, m1, x, locs, st.vars);
      n, m1 := n + 1, Step(iMem, m1).0;
    }
  }

  // Storing ac at the location of x.
  lemma StepStore(iMem: Program, a: int, m: State, x: string, locs: Layout, vars: map<string, int>)
    requires Standing(m, a) && 0 <= a < IADDR_SIZE && iMem[a] == RM(ST, ac, Lookup(locs, x), gp)
    requires x in locs && Shows(m.dMem, locs, vars)
    ensures Step(iMem, m).1 == OKAY
    ensures var m1 := Step(iMem, m).0;
            Standing(m1, a + 1) && SameStreams(m, m1) && Shows(m1.dMem, locs, vars[x := m.reg[ac]])
  {
    assert Step(iMem, m).0.dMem == m.dMem[locs[x] := m.reg[ac]];
  }

  lemma SimRead(x: string, st: Store, fuel: nat, locs: Layout, iMem: Program, a: int, m: State)
    returns (n: nat, m1: State)
    requires var s := ReadK(x);
             CodeAt(iMem, a, StmtCode(s, locs, 0)) && Matches(m, a, locs, st) &&
             Fits(locs, 0, StmtDepth(s)) && StmtDeclared(s, locs)
    ensures var s := ReadK(x);
            Mirrors(iMem, m, n, m1, a + |StmtCode(s, locs, 0)|, locs, ExecStmt(s, st, fuel), fuel)
  {
    var read, store := RO(IN, ac, 0, 0), RM(ST, ac, Lookup(locs, x), gp);
    assert StmtCode(ReadK(x), locs, 0) == [read] + ([store] + []);
    CodeAtHead(iMem, a, read, [store] + []);
    CodeAtHead(iMem, a + 1, store, []);
    Then(iMem, m, 0, m);
    n, m1 := 1, Step(iMem, m).0;
    if st.input != [] {
      Then(iMem, m, 1, m1);
      StepStore(iMem, a + 1, m1, x, locs, st.vars);
      n, m1 := 2, Step(iMem, m1).0;
    }
  }

  lemma SimWrite(e: Exp, st: Store, fuel: nat, locs: Layout, iMem: Program, a: int, m: State)
    returns (n: nat, m1: State)
    requires var s := WriteK(e);
             CodeAt(iMem, a, StmtCode(s, locs, 0)) && Matches(m, a, locs, st) &&
             Fits(locs, 0, StmtDepth(s)) && StmtDeclared(s, locs)
    ensures var s := WriteK(e);
            Mirrors(iMem, m, n, m1, a + |StmtCode(s, locs, 0)|, locs, ExecStmt(s, st, fuel), fuel)
  {
    var c, out := ExpCode(e, locs, 0), RO(OUT, ac, 0, 0);
    CodeAtSplit(iMem, a, c, [out]);
    CodeAtHead(iMem, a + |c|, out, []);
    n, m1 := SimValue(e, st, ExpDepth(e), locs, iMem, a, m, 0, m);
    if Eval(e, st.vars).Some? {
      Then(iMem, m, n, m1);
      n, m1 := n + 1, Step(iMem, m1).0;
    }
  }

  lemma {:induction false} SimStmt(s: Stmt, st: Store, fuel: nat, locs: Layout,
                                   iMem: Program, a: int, m: State)
    returns (n: nat, m1: State)
    requires CodeAt(iMem, a, StmtCode(s, locs, 0)) && Matches(m, a, locs, st)
    requires Fits(locs, 0, StmtDepth(s)) && StmtDeclared(s, locs)
    ensures Mirrors(iMem, m, n, m1, a + |StmtCode(s, locs, 0)|, locs, ExecStmt(s, st, fuel), fuel)
    decreases fuel, s, 2
  {
    match s
    case AssignK(x, e) => n, m1 := SimAssign(x, e, st, fuel, locs, iMem, a, m);
    case ReadK(x) => n, m1 := SimRead(x, st, fuel, locs, iMem, a, m);
    case WriteK(e) => n, m1 := SimWrite(e, st, fuel, locs, iMem, a, m);
    case IfK(e, s1, s2) => n, m1 := SimIf(e, s1, s2, st, fuel, locs, iMem, a, m);
    case RepeatK(body, e) =>
      n, m1 := SimRepeat(body, e, st, fuel, locs, iMem, a, m);
  }

  // The parts of an if: test, jump to the else part, then part, jump to the end,
  // else part.
  ghost predicate IfParts(e: Exp, s1: Stmts, s2: Stmts, locs: Layout, iMem: Program, a: int, a1: int, a2: int) {
    var n1, n2 := |StmtsCode(s1, locs, 0)|, |StmtsCode(s2, locs, 0)|;
    && CodeAt(iMem, a, ExpCode(e, locs, 0))
    && a1 == a + |ExpCode(e, locs, 0)| < IADDR_SIZE
    && iMem[a1] == RM(JEQ, ac, n1 + 1, pc)
    && CodeAt(iMem, a1 + 1, StmtsCode(s1, locs, 0))
    && a2 == a1 + 1 + n1 < IADDR_SIZE
    && iMem[a2] == RM(LDA, pc, n2, pc)
    && CodeAt(iMem, a2 + 1, StmtsCode(s2, locs, 0))
  }

  lemma SplitIf(e: Exp, s1: Stmts, s2: Stmts, locs: Layout, iMem: Program, a: int) returns (a1: int, a2: int)
    requires CodeAt(iMem, a, IfCode(e, s1, s2, locs, 0))
    ensures IfParts(e, s1, s2, locs, iMem, a, a1, a2)
    ensures a2 + 1 + |StmtsCode(s2, locs, 0)| == a + |IfCode(e, s1, s2, locs, 0)|
  {
    var c, c1, c2 := ExpCode(e, locs, 0), StmtsCode(s1, locs, 0), StmtsCode(s2, locs, 0);
    var toElse, toEnd := RM(JEQ, ac, |c1| + 1, pc), RM(LDA, pc, |c2|, pc);
    CodeAtSplit(iMem, a, c, [toElse] + (c1 + ([toEnd] + c2)));
    a1 := a + |c|;
    CodeAtHead(iMem, a1, toElse, c1 + ([toEnd] + c2));
    CodeAtSplit(iMem, a1 + 1, c1, [toEnd] + c2);
    a2 := a1 + 1 + |c1|;
    CodeAtHead(iMem, a2, toEnd, c2);
  }

  lemma IfMeans(e: Exp, s1: Stmts, s2: Stmts, st: Store, fuel: nat)
    ensures ExecStmt(IfK(e, s1, s2), st, fuel) ==
            match Eval(e, st.vars) {
              case None => DividesByZero(st)
              case Some(v) => if v != 0 then ExecStmts(s1, st, fuel) else ExecStmts(s2, st, fuel)
            }
  {
  }

  lemma {:induction false} SimIf(e: Exp, s1: Stmts, s2: Stmts, st: Store, fuel: nat, locs: Layout,
                                 iMem: Program, a: int, m: State)
    returns (n: nat, m1: State)
    requires var s := IfK(e, s1, s2);
             CodeAt(iMem, a, IfCode(e, s1, s2, locs, 0)) && Matches(m, a, locs, st) &&
             Fits(locs, 0, StmtDepth(s)) && StmtDeclared(s, locs)
    ensures var s := IfK(e, s1, s2);
            Mirrors(iMem, m, n, m1, a + |IfCode(e, s1, s2, locs, 0)|, locs, ExecStmt(s, st, fuel), fuel)
    decreases fuel, IfK(e, s1, s2), 1
  {
    IfMeans(e, s1, s2, st, fuel);
    var a1, a2 := SplitIf(e, s1, s2, locs, iMem, a);
    n, m1 := SimTest(e, st, |StmtsCode(s1, locs, 0)| + 1, StmtDepth(IfK(e, s1, s2)), locs, iMem, a, m, 0, m);
    if Eval(e, st.vars).Some? {
      n, m1 := SimBranches(e, s1, s2, Eval(e, st.vars).value, st, fuel, locs, iMem, a, a1, a2, m, n, m1);
    }
  }

  // The branches of an if whose test has left v in ac after k steps.
  lemma {:induction false} SimBranches(e: Exp, s1: Stmts, s2: Stmts, v: int, st: Store, fuel: nat, locs: Layout, iMem: Program,
                                       a: int, a1: int, a2: int, m: State, k: nat, s: State)
    returns (n: nat, m1: State)
    requires IfParts(e, s1, s2, locs, iMem, a, a1, a2) && Reaches(iMem, m, k, s)
    requires Matches(s, if v == 0 then a2 + 1 else a1 + 1, locs, st)
    requires Fits(locs, 0, Max(StmtsDepth(s1), StmtsDepth(s2))) && StmtsDeclared(s1, locs) && StmtsDeclared(s2, locs)
    ensures var r := if v != 0 then ExecStmts(s1, st, fuel) else ExecStmts(s2, st, fuel);
            Mirrors(iMem, m, n, m1, a2 + 1 + |StmtsCode(s2, locs, 0)|, locs, r, fuel)
    decreases fuel, IfK(e, s1, s2), 0
  {
    if v != 0 {
      n, m1 := SimThen(s1, |StmtsCode(s2, locs, 0)|, st, fuel, locs, iMem, a1 + 1, m, k, s);
    } else {
      n, m1 := SimRest(s2, st, fuel, locs, iMem, a2 + 1, m, k, s);
    }
  }

  // The then part, reached after k steps, and the jump over the d instructions
  // of the else part.
  lemma {:induction false} SimThen(s1: Stmts, d: nat, st: Store, fuel: nat, locs: Layout,
                                   iMem: Program, a: int, m: State, k: nat, s: State)
    returns (n: nat, m1: State)
    requires CodeAt(iMem, a, StmtsCode(s1, locs, 0)) && Reaches(iMem, m, k, s) && Matches(s, a, locs, st)
    requires Fits(locs, 0, StmtsDepth(s1)) && StmtsDeclared(s1, locs)
    requires var b := a + |StmtsCode(s1, locs, 0)|; b < IADDR_SIZE && iMem[b] == RM(LDA, pc, d, pc)
    ensures Mirrors(iMem, m, n, m1, a + |StmtsCode(s1, locs, 0)| + 1 + d, locs, ExecStmts(s1, st, fuel), fuel)
    decreases fuel, s1, 3
  {
    n, m1 := SimRest(s1, st, fuel, locs, iMem, a, m, k, s);
    if ExecStmts(s1, st, fuel).Ends? {
      Then(iMem, m, n, m1);
      StepGo(iMem, a + |StmtsCode(s1, locs, 0)|, m1, d);
      n, m1 := n + 1, Step(iMem, m1).0;
    }
  }

  // The parts of a repeat: body, test, jump back.
  lemma SplitRepeat(body: Stmts, e: Exp, locs: Layout, iMem: Program, a: int) returns (a1: int, a2: int)
    requires CodeAt(iMem, a, RepeatCode(body, e, locs, 0))
    ensures CodeAt(iMem, a, StmtsCode(body, locs, 0)) && a1 == a + |StmtsCode(body, locs, 0)|
    ensures CodeAt(iMem, a1, ExpCode(e, locs, 0)) && a2 == a1 + |ExpCode(e, locs, 0)| < IADDR_SIZE
    ensures iMem[a2] == RM(JEQ, ac, a - (a2 + 1), pc)
    ensures a2 + 1 == a + |RepeatCode(body, e, locs, 0)|
  {
    var cb, ce := StmtsCode(body, locs, 0), ExpCode(e, locs, 0);
    var back := RM(JEQ, ac, -(|cb| + |ce| + 1), pc);
    CodeAtSplit(iMem, a, cb, ce + [back]);
    a1 := a + |cb|;
    CodeAtSplit(iMem, a1, ce, [back]);
    a2 := a1 + |ce|;
    CodeAtHead(iMem, a2, back, []);
  }

  lemma {:induction false} SimRepeat(body: Stmts, e: Exp, st: Store, fuel: nat, locs: Layout,
                                     iMem: Program, a: int, m: State)
    returns (n: nat, m1: State)
    requires var s := RepeatK(body, e);
             CodeAt(iMem, a, RepeatCode(body, e, locs, 0)) && Matches(m, a, locs, st) &&
             Fits(locs, 0, StmtDepth(s)) && StmtDeclared(s, locs)
    ensures var s := RepeatK(body, e);
            Mirrors(iMem, m, n, m1, a + |RepeatCode(body, e, locs, 0)|, locs, ExecStmt(s, st, fuel), fuel)
    decreases fuel, RepeatK(body, e), 1
  {
    if fuel == 0 {
      n, m1 := 0, m;
      return;
    }
    var a1, a2 := SplitRepeat(body, e, locs, iMem, a);
    n, m1 := SimStmts(body, st, fuel, locs, iMem, a, m);
    var r := ExecStmts(body, st, fuel);
    if r.Ends? {
      n, m1 := SimUntil(body, e, r.store, fuel, locs, iMem, a, a1, a2, m, n, m1);
    }
  }

  // The test of a loop whose body has ended in st after k steps.
  lemma {:induction false} SimUntil(body: Stmts, e: Exp, st: Store, fuel: nat, locs: Layout, iMem: Program,
                                    a: int, a1: int, a2: int, m: State, k: nat, s: State)
    returns (n: nat, m1: State)
    requires var loop := RepeatK(body, e);
             CodeAt(iMem, a, RepeatCode(body, e, locs, 0)) && Fits(locs, 0, StmtDepth(loop)) && StmtDeclared(loop, locs)
             && a2 + 1 == a + |RepeatCode(body, e, locs, 0)|
    requires fuel > 0 && Reaches(iMem, m, k, s) && Matches(s, a1, locs, st)
    requires CodeAt(iMem, a1, ExpCode(e, locs, 0)) && a2 == a1 + |ExpCode(e, locs, 0)| < IADDR_SIZE
    requires iMem[a2] == RM(JEQ, ac, a - (a2 + 1), pc)
    ensures var r := match Eval(e, st.vars) {
                       case None => DividesByZero(st)
                       case Some(v) => if v != 0 then Ends(st) else ExecStmt(RepeatK(body, e), st, fuel - 1)
                     };
            Mirrors(iMem, m, n, m1, a2 + 1, locs, r, fuel)
    decreases fuel, RepeatK(body, e), 0
  {
    var loop := RepeatK(body, e);
    n, m1 := SimTest(e, st, a - (a2 + 1), StmtDepth(loop), locs, iMem, a1, m, k, s);
    if Eval(e, st.vars) == Some(0) {
      n, m1 := SimAgain(loop, st, fuel - 1, locs, iMem, a, m, n, m1);
    }
  }

  // The loop once more, after k > 0 steps.
  lemma {:induction false} SimAgain(s: Stmt, st: Store, fuel: nat, locs: Layout, iMem: Program, a: int, m: State, k: nat, m1: State)
    returns (n: nat, m2: State)
    requires k > 0 && Reaches(iMem, m, k, m1) && Matches(m1, a, locs, st)
    requires CodeAt(iMem, a, StmtCode(s, locs, 0)) && Fits(locs, 0, StmtDepth(s)) && StmtDeclared(s, locs)
    ensures Mirrors(iMem, m, n, m2, a + |StmtCode(s, locs, 0)|, locs, ExecStmt(s, st, fuel), fuel + 1)
    decreases fuel, s, 3
  {
    n, m2 := SimStmt(s, st, fuel, locs, iMem, a, m1);
    RunAdds(iMem, m, k, m1, n);
    n := k + n;
  }

  lemma {:induction false} SimStmts(ss: Stmts, st: Store, fuel: nat, locs: Layout,
                                    iMem: Program, a: int, m: State)
    returns (n: nat, m1: State)
    requires CodeAt(iMem, a, StmtsCode(ss, locs, 0)) && Matches(m, a, locs, st)
    requires Fits(locs, 0, StmtsDepth(ss)) && StmtsDeclared(ss, locs)
    ensures Mirrors(iMem, m, n, m1, a + |StmtsCode(ss, locs, 0)|, locs, ExecStmts(ss, st, fuel), fuel)
    decreases fuel, ss, 1
  {
    match ss
    case NoStmt => n, m1 := 0, m;
    case Chain(s, rest) =>
      var c := StmtCode(s, locs, 0);
      CodeAtSplit(iMem, a, c, StmtsCode(rest, locs, 0));
      n, m1 := SimStmt(s, st, fuel, locs, iMem, a, m);
      var r := ExecStmt(s, st, fuel);
      if r.Ends? {
        n, m1 := SimRest(rest, r.store, fuel, locs, iMem, a + |c|, m, n, m1);
      }
  }

  lemma {:induction false} SimRest(rest: Stmts, st: Store, fuel: nat, locs: Layout,
                                   iMem: Program, a: int, m: State, k: nat, s: State)
    returns (n: nat, m1: State)
    requires CodeAt(iMem, a, StmtsCode(rest, locs, 0)) && Reaches(iMem, m, k, s) && Matches(s, a, locs, st)
    requires Fits(locs, 0, StmtsDepth(rest)) && StmtsDeclared(rest, locs)
    ensures Mirrors(iMem, m, n, m1, a + |StmtsCode(rest, locs, 0)|, locs, ExecStmts(rest, st, fuel), fuel)
    decreases fuel, rest, 2
  {
    n, m1 := SimStmts(rest, st, fuel, locs, iMem, a, s);
    RunAdds(iMem, m, k, s, n);
    n := k + n;
  }
}
