/** The code that belongs to each construct of a TINY program.  It is
    position-independent: absolute targets are turned into distances from pc. */
module TinyCode {
  import opened TinySyntax
  import opened TinyMachine
  import opened TinySymbols

  const pc := 7
  const mp := 6
  const gp := 5
  const ac := 0
  const ac1 := 1

  function RO(op: OpCode, r: int, s: int, t: int): Instruction {
    Instruction(op, r, s, t)
  }

  function RM(op: OpCode, r: int, d: int, s: int): Instruction {
    Instruction(op, r, d, s)
  }

  function OperatorCode(op: Operator): seq<Instruction> {
    match op
    case Plus => [RO(ADD, ac, ac1, ac)]
    case Minus => [RO(SUB, ac, ac1, ac)]
    case Times => [RO(MUL, ac, ac1, ac)]
    case Over => [RO(DIV, ac, ac1, ac)]
    case Lt => Comparison(JLT)
    case Eq => Comparison(JEQ)
  }

  function Comparison(jump: OpCode): seq<Instruction> {
    [RO(SUB, ac, ac1, ac), RM(jump, ac, 2, pc), RM(LDC, ac, 0, ac), RM(LDA, pc, 1, pc), RM(LDC, ac, 1, ac)]
  }

  // tmp is the value of tmpOffset when the code is generated.
  function ExpCode(e: Exp, locs: map<string, int>, tmp: int): seq<Instruction> {
    match e
    case ConstK(v) => [RM(LDC, ac, v, 0)]
    case IdK(x) => [RM(LD, ac, Lookup(locs, x), gp)]
    case OpK(op, l, r) =>
      ExpCode(l, locs, tmp) + ([RM(ST, ac, tmp, mp)] +
      (ExpCode(r, locs, tmp - 1) + ([RM(LD, ac1, tmp, mp)] + OperatorCode(op))))
  }

  function StmtCode(s: Stmt, locs: map<string, int>, tmp: int): seq<Instruction>
    decreases s, 1
  {
    match s
    case AssignK(x, e) => ExpCode(e, locs, tmp) + [RM(ST, ac, Lookup(locs, x), gp)]
    case ReadK(x) => [RO(IN, ac, 0, 0), RM(ST, ac, Lookup(locs, x), gp)]
    case WriteK(e) => ExpCode(e, locs, tmp) + [RO(OUT, ac, 0, 0)]
    case IfK(e, s1, s2) => IfCode(e, s1, s2, locs, tmp)
    case RepeatK(body, e) => RepeatCode(body, e, locs, tmp)
  }

  function IfCode(e: Exp, s1: Stmts, s2: Stmts, locs: map<string, int>, tmp: int): seq<Instruction>
    decreases IfK(e, s1, s2), 0
  {
    var c1, c2 := StmtsCode(s1, locs, tmp), StmtsCode(s2, locs, tmp);
    ExpCode(e, locs, tmp) + ([RM(JEQ, ac, |c1| + 1, pc)] + (c1 + ([RM(LDA, pc, |c2|, pc)] + c2)))
  }

  function RepeatCode(body: Stmts, e: Exp, locs: map<string, int>, tmp: int): seq<Instruction>
    decreases RepeatK(body, e), 0
  {
    var c1, c2 := StmtsCode(body, locs, tmp), ExpCode(e, locs, tmp);
    c1 + (c2 + [RM(JEQ, ac, -(|c1| + |c2| + 1), pc)])
  }

  function StmtsCode(ss: Stmts, locs: map<string, int>, tmp: int): seq<Instruction> {
    match ss
    case NoStmt => []
    case Chain(s, rest) => StmtCode(s, locs, tmp) + StmtsCode(rest, locs, tmp)
  }

  const Prelude: seq<Instruction> := [RM(LD, mp, 0, ac), RM(ST, ac, 0, ac)]

  function ProgramCode(p: Stmts, locs: map<string, int>): seq<Instruction> {
    Prelude + (StmtsCode(p, locs, 0) + [RO(HALT, 0, 0, 0)])
  }

  predicate AllAcceptable(c: seq<Instruction>) {
    forall k :: 0 <= k < |c| ==> Acceptable(c[k])
  }

  lemma {:induction false} ExpAcceptable(e: Exp, locs: map<string, int>, tmp: int)
    ensures AllAcceptable(ExpCode(e, locs, tmp))
  {
    match e
    case ConstK(_) =>
    case IdK(_) =>
    case OpK(_, l, r) =>
      ExpAcceptable(l, locs, tmp);
      ExpAcceptable(r, locs, tmp - 1);
  }

  lemma {:induction false} StmtAcceptable(s: Stmt, locs: map<string, int>, tmp: int)
    ensures AllAcceptable(StmtCode(s, locs, tmp))
  {
    match s
    case AssignK(_, e) => ExpAcceptable(e, locs, tmp);
    case ReadK(_) =>
    case WriteK(e) => ExpAcceptable(e, locs, tmp);
    case IfK(e, s1, s2) =>
      ExpAcceptable(e, locs, tmp);
      StmtsAcceptable(s1, locs, tmp);
      StmtsAcceptable(s2, locs, tmp);
    case RepeatK(b, e) =>
      StmtsAcceptable(b, locs, tmp);
      ExpAcceptable(e, locs, tmp);
  }

  lemma {:induction false} StmtsAcceptable(ss: Stmts, locs: map<string, int>, tmp: int)
    ensures AllAcceptable(StmtsCode(ss, locs, tmp))
  {
    match ss
    case NoStmt =>
    case Chain(s, rest) =>
      StmtAcceptable(s, locs, tmp);
      StmtsAcceptable(rest, locs, tmp);
  }
}
