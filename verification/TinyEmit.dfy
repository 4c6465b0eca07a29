/** The code generator: the emission cursor with backpatching, and the traversal
    that drives it.  Lines reach the code file out of address order; every method
    says which lines it adds. */
module TinyEmit {
  import opened TinySyntax
  import opened TinyMachine
  import opened TinySymbols
  import opened TinyCode

  // One line for each instruction of c, from location start on.
  function LinesAt(start: int, c: seq<Instruction>): (ls: seq<Line>)
    ensures |ls| == |c| && forall k :: 0 <= k < |c| ==> ls[k] == Line(start + k, c[k])
  {
    seq(|c|, k requires 0 <= k < |c| => Line(start + k, c[k]))
  }

  // How often a line occurs in the code file.
  ghost function Count(file: seq<Line>, l: Line): nat {
    |Occurrences(file, l)|
  }

  ghost function Occurrences(file: seq<Line>, l: Line): set<int> {
    set i | 0 <= i < |file| && file[i] == l
  }

  lemma CountNext(file: seq<Line>, x: Line, l: Line)
    ensures Count(file + [x], l) == Count(file, l) + (if x == l then 1 else 0)
  {
    if x == l {
      assert Occurrences(file + [x], l) == Occurrences(file, l) + {|file|};
    } else {
      assert Occurrences(file + [x], l) == Occurrences(file, l);
    }
  }

  // 1 for the lines that place c at start, 0 for all others.
  function Places(start: int, c: seq<Instruction>, l: Line): nat {
    if start <= l.loc < start + |c| && c[l.loc - start] == l.instr then 1 else 0
  }

  lemma PlacesConcat(start: int, c1: seq<Instruction>, c2: seq<Instruction>, l: Line)
    ensures Places(start, c1 + c2, l) == Places(start, c1, l) + Places(start + |c1|, c2, l)
  {
  }

  // Two pieces of code, an instruction behind each of them, and a third piece.
  lemma PlacesFive(a: int, c: seq<Instruction>, i1: Instruction, c1: seq<Instruction>, i2: Instruction, c2: seq<Instruction>, l: Line)
    returns (n: nat, n1: nat, n2: nat, k1: nat, k2: nat)
    ensures n == Places(a, c, l)
    ensures n1 == Places(a + |c| + 1, c1, l)
    ensures n2 == Places(a + |c| + 1 + |c1| + 1, c2, l)
    ensures k1 == if Line(a + |c|, i1) == l then 1 else 0
    ensures k2 == if Line(a + |c| + 1 + |c1|, i2) == l then 1 else 0
    ensures Places(a, c + ([i1] + (c1 + ([i2] + c2))), l) == n + k1 + n1 + k2 + n2
  {
    n, n1, n2 := Places(a, c, l), Places(a + |c| + 1, c1, l), Places(a + |c| + 1 + |c1| + 1, c2, l);
    k1, k2 := Places(a + |c|, [i1], l), Places(a + |c| + 1 + |c1|, [i2], l);
    PlacesConcat(a, c, [i1] + (c1 + ([i2] + c2)), l);
    PlacesConcat(a + |c|, [i1], c1 + ([i2] + c2), l);
    PlacesConcat(a + |c| + 1, c1, [i2] + c2, l);
    PlacesConcat(a + |c| + 1 + |c1|, [i2], c2, l);
  }

  lemma {:induction false} CountBag(file: seq<Line>, l: Line)
    ensures multiset(file)[l] == Count(file, l)
  {
    if file != [] {
      var k := |file| - 1;
      CountBag(file[..k], l);
      CountNext(file[..k], file[k], l);
      assert file == file[..k] + [file[k]];
    }
  }

  lemma {:induction false} CountLinesAt(start: int, c: seq<Instruction>, l: Line)
    ensures Count(LinesAt(start, c), l) == Places(start, c, l)
    decreases |c|
  {
    if c != [] {
      var k := |c| - 1;
      CountLinesAt(start, c[..k], l);
      CountNext(LinesAt(start, c[..k]), Line(start + k, c[k]), l);
      assert LinesAt(start, c) == LinesAt(start, c[..k]) + [Line(start + k, c[k])];
    }
  }

  // ---------- the code file, line by line in the order of writing ----------

  // Each function extends the file by what its method writes from location a on.
  function PutAll(file: seq<Line>, a: int, c: seq<Instruction>): seq<Line>
    decreases |c|
  {
    if c == [] then file else PutAll(file + [Line(a, c[0])], a + 1, c[1..])
  }

  function ExpFile(e: Exp, locs: map<string, int>, tmp: int, a: int, file: seq<Line>): seq<Line>
    decreases e, 1
  {
    match e
    case ConstK(v) => file + [Line(a, RM(LDC, ac, v, 0))]
    case IdK(x) => file + [Line(a, RM(LD, ac, Lookup(locs, x), gp))]
    case OpK(op, l, r) =>
      var a1 := a + |ExpCode(l, locs, tmp)| + 1;
      var a2 := a1 + |ExpCode(r, locs, tmp - 1)|;
      var file1 := ExpFile(r, locs, tmp - 1, a1, PushFile(l, locs, tmp, a, file));
      PutAll(file1 + [Line(a2, RM(LD, ac1, tmp, mp))], a2 + 1, OperatorCode(op))
  }

  // An operand and its push.
  function PushFile(e: Exp, locs: map<string, int>, tmp: int, a: int, file: seq<Line>): seq<Line>
    decreases e, 2
  {
    ExpFile(e, locs, tmp, a, file) + [Line(a + |ExpCode(e, locs, tmp)|, RM(ST, ac, tmp, mp))]
  }

  function StmtFile(s: Stmt, locs: map<string, int>, tmp: int, a: int, file: seq<Line>): seq<Line>
    decreases s, 1
  {
    match s
    case AssignK(x, e) =>
      ExpFile(e, locs, tmp, a, file) + [Line(a + |ExpCode(e, locs, tmp)|, RM(ST, ac, Lookup(locs, x), gp))]
    case ReadK(x) => file + [Line(a, RO(IN, ac, 0, 0))] + [Line(a + 1, RM(ST, ac, Lookup(locs, x), gp))]
    case WriteK(e) => ExpFile(e, locs, tmp, a, file) + [Line(a + |ExpCode(e, locs, tmp)|, RO(OUT, ac, 0, 0))]
    case IfK(e, s1, s2) => IfFile(e, s1, s2, locs, tmp, a, file)
    case RepeatK(body, e) => RepeatFile(body, e, locs, tmp, a, file)
  }

  // Up to the jump that is filled in after the then part.
  function ThenFile(e: Exp, s1: Stmts, locs: map<string, int>, tmp: int, a: int, file: seq<Line>): seq<Line>
    decreases s1, 1
  {
    var a1 := a + |ExpCode(e, locs, tmp)|;
    StmtsFile(s1, locs, tmp, a1 + 1, ExpFile(e, locs, tmp, a, file))
    + [Line(a1, RM(JEQ, ac, |StmtsCode(s1, locs, tmp)| + 1, pc))]
  }

  function IfFile(e: Exp, s1: Stmts, s2: Stmts, locs: map<string, int>, tmp: int, a: int, file: seq<Line>): seq<Line>
    decreases IfK(e, s1, s2), 0
  {
    var a2 := a + |ExpCode(e, locs, tmp)| + 1 + |StmtsCode(s1, locs, tmp)|;
    StmtsFile(s2, locs, tmp, a2 + 1, ThenFile(e, s1, locs, tmp, a, file))
    + [Line(a2, RM(LDA, pc, |StmtsCode(s2, locs, tmp)|, pc))]
  }

  function RepeatFile(body: Stmts, e: Exp, locs: map<string, int>, tmp: int, a: int, file: seq<Line>): seq<Line>
    decreases RepeatK(body, e), 0
  {
    var size := |StmtsCode(body, locs, tmp)|;
    UntilFile(e, size, locs, tmp, a + size, StmtsFile(body, locs, tmp, a, file))
  }

  function UntilFile(e: Exp, size: nat, locs: map<string, int>, tmp: int, a: int, file: seq<Line>): seq<Line> {
    var n := |ExpCode(e, locs, tmp)|;
    ExpFile(e, locs, tmp, a, file) + [Line(a + n, RM(JEQ, ac, -(size + n + 1), pc))]
  }

  function StmtsFile(ss: Stmts, locs: map<string, int>, tmp: int, a: int, file: seq<Line>): seq<Line>
    decreases ss, 0
  {
    match ss
    case NoStmt => file
    case Chain(s, rest) =>
      StmtsFile(rest, locs, tmp, a + |StmtCode(s, locs, tmp)|, StmtFile(s, locs, tmp, a, file))
  }

  function ProgramFile(p: Stmts, locs: map<string, int>): seq<Line> {
    var start := [Line(0, RM(LD, mp, 0, ac)), Line(1, RM(ST, ac, 0, ac))];
    StmtsFile(p, locs, 0, 2, start) + [Line(2 + |StmtsCode(p, locs, 0)|, RO(HALT, 0, 0, 0))]
  }

  /** The static variables of code.c and cgen.c. */
  lemma IfSize(e: Exp, s1: Stmts, s2: Stmts, locs: map<string, int>, tmp: int)
    ensures |IfCode(e, s1, s2, locs, tmp)|
            == |ExpCode(e, locs, tmp)| + 1 + |StmtsCode(s1, locs, tmp)| + 1 + |StmtsCode(s2, locs, tmp)|
  {
  }

  class CodeGenerator {
    const table: SymbolTable
    ghost const locs: map<string, int>  // what table holds
    var emitLoc: int
    var highEmitLoc: int
    var tmpOffset: int
    var code: seq<Line>

    // Nothing skipped is being filled in: emission goes on at the highest location.
    ghost predicate Ready()
      reads this, table, table.hashTable
    {
      table.Valid() && table.locs == locs && emitLoc == highEmitLoc
    }

    constructor (table: SymbolTable)
      requires table.Valid()
      ensures this.table == table && locs == table.locs && Ready() && emitLoc == 0 && tmpOffset == 0 && code == []
    {
      this.table := table;
      locs := table.locs;
      emitLoc, highEmitLoc, tmpOffset, code := 0, 0, 0, [];
    }

    // emitRO and emitRM
    method Emit(i: Instruction)
      modifies this
      ensures emitLoc == old(emitLoc) + 1 && tmpOffset == old(tmpOffset)
      ensures highEmitLoc == if old(highEmitLoc) < emitLoc then emitLoc else old(highEmitLoc)
      ensures code == old(code) + [Line(old(emitLoc), i)]
    {
      code := code + [Line(emitLoc, i)];
      emitLoc := emitLoc + 1;
      if highEmitLoc < emitLoc {
        highEmitLoc := emitLoc;
      }
    }

    // An absolute target becomes a distance from the next instruction.
    // The caller says which distance, d.
    method EmitRMAbs(op: OpCode, r: int, a: int, ghost d: int)
      requires d == a - (emitLoc + 1)
      modifies this
      ensures emitLoc == old(emitLoc) + 1 && tmpOffset == old(tmpOffset)
      ensures highEmitLoc == if old(highEmitLoc) < emitLoc then emitLoc else old(highEmitLoc)
      ensures code == old(code) + [Line(old(emitLoc), RM(op, r, d, pc))]
    {
      Emit(RM(op, r, a - (emitLoc + 1), pc));
    }

    method EmitSkip(howMany: nat) returns (i: int)
      modifies this
      ensures i == old(emitLoc) && emitLoc == i + howMany
      ensures highEmitLoc == if old(highEmitLoc) < emitLoc then emitLoc else old(highEmitLoc)
      ensures tmpOffset == old(tmpOffset) && code == old(code)
    {
      i := emitLoc;
      emitLoc := emitLoc + howMany;
      if highEmitLoc < emitLoc {
        highEmitLoc := emitLoc;
      }
    }

    method EmitBackup(loc: int)
      modifies this`emitLoc
      ensures emitLoc == loc
    {
      emitLoc := loc;
    }

    method EmitRestore()
      modifies this`emitLoc
      ensures emitLoc == highEmitLoc
    {
      emitLoc := highEmitLoc;
    }

    // Fills the skipped location loc with a jump to the present location.
    method Backpatch(loc: int, op: OpCode, r: int, ghost d: int)
      requires loc < emitLoc == highEmitLoc && d == emitLoc - (loc + 1)
      modifies this
      ensures emitLoc == highEmitLoc == old(emitLoc) && tmpOffset == old(tmpOffset)
      ensures code == old(code) + [Line(loc, RM(op, r, d, pc))]
    {
      var currentLoc := EmitSkip(0);
      EmitBackup(loc);
      EmitRMAbs(op, r, currentLoc, d);
      EmitRestore();
    }

    method GenOperator(op: Operator)
      requires Ready()
      modifies this
      ensures Ready() && tmpOffset == old(tmpOffset) && emitLoc == old(emitLoc) + |OperatorCode(op)|
      ensures code == PutAll(old(code), old(emitLoc), OperatorCode(op))
    {
      match op {
        case Plus => Emit(RO(ADD, ac, ac1, ac));
        case Minus => Emit(RO(SUB, ac, ac1, ac));
        case Times => Emit(RO(MUL, ac, ac1, ac));
        case Over => Emit(RO(DIV, ac, ac1, ac));
        case Lt => GenComparison(JLT);
        case Eq => GenComparison(JEQ);
      }
    }

    method GenComparison(jump: OpCode)
      requires Ready()
      modifies this
      ensures Ready() && tmpOffset == old(tmpOffset) && emitLoc == old(emitLoc) + 5
      ensures code == PutAll(old(code), old(emitLoc), Comparison(jump))
    {
      ghost var c := Comparison(jump);
      Emit(RO(SUB, ac, ac1, ac));
      assert code == old(code) + [Line(old(emitLoc), c[0])];
      Emit(RM(jump, ac, 2, pc));
      Emit(RM(LDC, ac, 0, ac));
      Emit(RM(LDA, pc, 1, pc));
      Emit(RM(LDC, ac, 1, ac));
      assert c[1..][1..] == c[2..] && c[2..][1..] == c[3..] && c[3..][1..] == c[4..] && c[4..][1..] == [];
      PutFive(old(code), old(emitLoc), c);
    }

    method GenExp(e: Exp)
      requires Ready()
      modifies this
      ensures Ready() && tmpOffset == old(tmpOffset) && emitLoc == old(emitLoc) + |ExpCode(e, locs, tmpOffset)|
      ensures code == ExpFile(e, locs, tmpOffset, old(emitLoc), old(code))
    {
      match e {
        case ConstK(v) => Emit(RM(LDC, ac, v, 0));
        case IdK(x) =>
          var loc := table.StLookup(x);
          Emit(RM(LD, ac, loc, gp));
        case OpK(op, l, r) =>
          GenExp(l);
          Emit(RM(ST, ac, tmpOffset, mp));
          tmpOffset := tmpOffset - 1;
          GenExp(r);
          tmpOffset := tmpOffset + 1;
          Emit(RM(LD, ac1, tmpOffset, mp));
          GenOperator(op);
      }
    }

    method GenStmt(s: Stmt)
      requires Ready()
      modifies this
      ensures Ready() && tmpOffset == old(tmpOffset) && emitLoc == old(emitLoc) + |StmtCode(s, locs, tmpOffset)|
      ensures code == StmtFile(s, locs, tmpOffset, old(emitLoc), old(code))
      decreases s, 1
    {
      match s {
        case IfK(e, s1, s2) => GenIf(e, s1, s2);
        case RepeatK(body, e) => GenRepeat(body, e);
        case AssignK(x, e) =>
          GenExp(e);
          var loc := table.StLookup(x);
          Emit(RM(ST, ac, loc, gp));
        case ReadK(x) =>
          Emit(RO(IN, ac, 0, 0));
          var loc := table.StLookup(x);
          Emit(RM(ST, ac, loc, gp));
        case WriteK(e) =>
          GenExp(e);
          Emit(RO(OUT, ac, 0, 0));
      }
    }

    method GenIf(e: Exp, s1: Stmts, s2: Stmts)
      requires Ready()
      modifies this
      ensures Ready() && tmpOffset == old(tmpOffset) && emitLoc == old(emitLoc) + |IfCode(e, s1, s2, locs, tmpOffset)|
      ensures code == IfFile(e, s1, s2, locs, tmpOffset, old(emitLoc), old(code))
      decreases IfK(e, s1, s2), 0
    {
      IfSize(e, s1, s2, locs, tmpOffset);
      var savedLoc2 := GenThen(e, s1);
      GenElse(s2, savedLoc2);
    }

    // Else part; the jump around it is filled in.
    method GenElse(s2: Stmts, savedLoc2: int)
      requires Ready() && savedLoc2 + 1 == emitLoc
      modifies this
      ensures Ready() && tmpOffset == old(tmpOffset) && emitLoc == old(emitLoc) + |StmtsCode(s2, locs, tmpOffset)|
      ensures code == StmtsFile(s2, locs, tmpOffset, old(emitLoc), old(code))
                      + [Line(savedLoc2, RM(LDA, pc, |StmtsCode(s2, locs, tmpOffset)|, pc))]
      decreases s2, 1
    {
      GenStmts(s2);
      Backpatch(savedLoc2, LDA, pc, |StmtsCode(s2, locs, tmpOffset)|);
    }

    // Test, then part, and the jump around it; the jump at its end is left open.
    method GenThen(e: Exp, s1: Stmts) returns (savedLoc2: int)
      requires Ready()
      modifies this
      ensures Ready() && tmpOffset == old(tmpOffset) && savedLoc2 + 1 == emitLoc
      ensures savedLoc2 == old(emitLoc) + |ExpCode(e, locs, tmpOffset)| + 1 + |StmtsCode(s1, locs, tmpOffset)|
      ensures code == ThenFile(e, s1, locs, tmpOffset, old(emitLoc), old(code))
      decreases s1, 1
    {
      GenExp(e);
      var savedLoc1 := EmitSkip(1);
      GenStmts(s1);
      savedLoc2 := EmitSkip(1);
      Backpatch(savedLoc1, JEQ, ac, |StmtsCode(s1, locs, tmpOffset)| + 1);
    }

    method GenRepeat(body: Stmts, e: Exp)
      requires Ready()
      modifies this
      ensures Ready() && tmpOffset == old(tmpOffset) && emitLoc == old(emitLoc) + |RepeatCode(body, e, locs, tmpOffset)|
      ensures code == RepeatFile(body, e, locs, tmpOffset, old(emitLoc), old(code))
      decreases RepeatK(body, e), 0
    {
      var savedLoc1 := EmitSkip(0);
      GenStmts(body);
      GenUntil(e, savedLoc1, emitLoc - savedLoc1);
    }

    // The test of a loop whose body takes size locations, and the jump back.
    method GenUntil(e: Exp, savedLoc1: int, ghost size: nat)
      requires Ready() && emitLoc == savedLoc1 + size
      modifies this
      ensures Ready() && tmpOffset == old(tmpOffset)
      ensures emitLoc == old(emitLoc) + |ExpCode(e, locs, tmpOffset)| + 1
      ensures code == UntilFile(e, size, locs, tmpOffset, old(emitLoc), old(code))
    {
      ghost var n := |ExpCode(e, locs, tmpOffset)|;
      GenExp(e);
      EmitRMAbs(JEQ, ac, savedLoc1, -(size + n + 1));
    }

    method GenStmts(ss: Stmts)
      requires Ready()
      modifies this
      ensures Ready() && tmpOffset == old(tmpOffset) && emitLoc == old(emitLoc) + |StmtsCode(ss, locs, tmpOffset)|
      ensures code == StmtsFile(ss, locs, tmpOffset, old(emitLoc), old(code))
      decreases ss, 0
    {
      match ss {
        case NoStmt =>
        case Chain(s, rest) =>
          GenStmt(s);
          GenStmts(rest);
      }
    }

    method CodeGen(syntaxTree: Stmts)
      requires Ready() && emitLoc == 0 && tmpOffset == 0 && code == []
      modifies this
      ensures code == ProgramFile(syntaxTree, locs)
    {
      Emit(RM(LD, mp, 0, ac));
      Emit(RM(ST, ac, 0, ac));
      assert code == [Line(0, RM(LD, mp, 0, ac)), Line(1, RM(ST, ac, 0, ac))];
      GenStmts(syntaxTree);
      Emit(RO(HALT, 0, 0, 0));
    }
  }

  lemma PutFive(file: seq<Line>, a: int, c: seq<Instruction>)
    requires |c| == 5
    ensures PutAll(file, a, c) == file + [Line(a, c[0])] + [Line(a + 1, c[1])] + [Line(a + 2, c[2])]
                                  + [Line(a + 3, c[3])] + [Line(a + 4, c[4])]
  {
    var f1 := file + [Line(a, c[0])];
    var f2 := f1 + [Line(a + 1, c[1])];
    var f3 := f2 + [Line(a + 2, c[2])];
    var f4 := f3 + [Line(a + 3, c[3])];
    assert PutAll(file, a, c) == PutAll(f1, a + 1, c[1..]);
    assert c[1..][0] == c[1] && c[1..][1..] == c[2..];
    assert PutAll(f1, a + 1, c[1..]) == PutAll(f2, a + 2, c[2..]);
    assert c[2..][0] == c[2] && c[2..][1..] == c[3..];
    assert PutAll(f2, a + 2, c[2..]) == PutAll(f3, a + 3, c[3..]);
    assert c[3..][0] == c[3] && c[3..][1..] == c[4..];
    assert PutAll(f3, a + 3, c[3..]) == PutAll(f4, a + 4, c[4..]);
    assert c[4..][0] == c[4] && c[4..][1..] == [];
  }

  // ---------- every location is written exactly once ----------

  lemma {:induction false} PutAllCount(file: seq<Line>, a: int, c: seq<Instruction>, l: Line)
    ensures Count(PutAll(file, a, c), l) == Count(file, l) + Places(a, c, l)
    decreases |c|
  {
    if c != [] {
      CountNext(file, Line(a, c[0]), l);
      PutAllCount(file + [Line(a, c[0])], a + 1, c[1..], l);
    }
  }

  lemma {:induction false} ExpCount(e: Exp, locs: map<string, int>, tmp: int, a: int, file: seq<Line>, l: Line)
    ensures Count(ExpFile(e, locs, tmp, a, file), l) == Count(file, l) + Places(a, ExpCode(e, locs, tmp), l)
    decreases e, 1
  {
    match e
    case ConstK(v) => CountNext(file, Line(a, RM(LDC, ac, v, 0)), l);
    case IdK(x) => CountNext(file, Line(a, RM(LD, ac, Lookup(locs, x), gp)), l);
    case OpK(op, e1, e2) => OpCount(op, e1, e2, locs, tmp, a, file, l);
  }

  lemma {:induction false} OpCount(op: Operator, e1: Exp, e2: Exp, locs: map<string, int>, tmp: int, a: int, file: seq<Line>, l: Line)
    ensures var e := OpK(op, e1, e2);
            Count(ExpFile(e, locs, tmp, a, file), l) == Count(file, l) + Places(a, ExpCode(e, locs, tmp), l)
    decreases OpK(op, e1, e2), 0
  {
    var c1, c2, c3 := ExpCode(e1, locs, tmp), ExpCode(e2, locs, tmp - 1), OperatorCode(op);
    var a1 := a + |c1| + 1;
    var a2 := a1 + |c2|;
    var file1 := PushFile(e1, locs, tmp, a, file);
    var file2 := ExpFile(e2, locs, tmp - 1, a1, file1);
    PushCount(e1, locs, tmp, a, file, l);
    ExpCount(e2, locs, tmp - 1, a1, file1, l);
    CountNext(file2, Line(a2, RM(LD, ac1, tmp, mp)), l);
    PutAllCount(file2 + [Line(a2, RM(LD, ac1, tmp, mp))], a2 + 1, c3, l);
    var _, _, _, _, _ := PlacesFive(a, c1, RM(ST, ac, tmp, mp), c2, RM(LD, ac1, tmp, mp), c3, l);
  }

  lemma {:induction false} PushCount(e: Exp, locs: map<string, int>, tmp: int, a: int, file: seq<Line>, l: Line)
    ensures var c := ExpCode(e, locs, tmp);
            Count(PushFile(e, locs, tmp, a, file), l)
            == Count(file, l) + Places(a, c, l) + (if Line(a + |c|, RM(ST, ac, tmp, mp)) == l then 1 else 0)
    decreases e, 2
  {
    ExpCount(e, locs, tmp, a, file, l);
    CountNext(ExpFile(e, locs, tmp, a, file), Line(a + |ExpCode(e, locs, tmp)|, RM(ST, ac, tmp, mp)), l);
  }

  lemma {:induction false} StmtCount(s: Stmt, locs: map<string, int>, tmp: int, a: int, file: seq<Line>, l: Line)
    ensures Count(StmtFile(s, locs, tmp, a, file), l) == Count(file, l) + Places(a, StmtCode(s, locs, tmp), l)
    decreases s, 1
  {
    match s
    case AssignK(x, e) => ThenOneCount(e, locs, tmp, a, file, RM(ST, ac, Lookup(locs, x), gp), l);
    case WriteK(e) => ThenOneCount(e, locs, tmp, a, file, RO(OUT, ac, 0, 0), l);
    case ReadK(x) =>
      var read, store := Line(a, RO(IN, ac, 0, 0)), Line(a + 1, RM(ST, ac, Lookup(locs, x), gp));
      CountNext(file, read, l);
      CountNext(file + [read], store, l);
    case IfK(e, s1, s2) => IfCount(e, s1, s2, locs, tmp, a, file, l);
    case RepeatK(body, e) => RepeatCount(body, e, locs, tmp, a, file, l);
  }

  lemma {:induction false} RepeatCount(body: Stmts, e: Exp, locs: map<string, int>, tmp: int, a: int, file: seq<Line>, l: Line)
    ensures Count(RepeatFile(body, e, locs, tmp, a, file), l) == Count(file, l) + Places(a, RepeatCode(body, e, locs, tmp), l)
    decreases RepeatK(body, e), 0
  {
    var c, ce := StmtsCode(body, locs, tmp), ExpCode(e, locs, tmp);
    var back := RM(JEQ, ac, -(|c| + |ce| + 1), pc);
    StmtsCount(body, locs, tmp, a, file, l);
    ThenOneCount(e, locs, tmp, a + |c|, StmtsFile(body, locs, tmp, a, file), back, l);
    PlacesConcat(a, c, ce + [back], l);
  }

  // An expression and one instruction behind it.
  lemma ThenOneCount(e: Exp, locs: map<string, int>, tmp: int, a: int, file: seq<Line>, i: Instruction, l: Line)
    ensures var c := ExpCode(e, locs, tmp);
            Count(ExpFile(e, locs, tmp, a, file) + [Line(a + |c|, i)], l) == Count(file, l) + Places(a, c + [i], l)
  {
    var c := ExpCode(e, locs, tmp);
    ExpCount(e, locs, tmp, a, file, l);
    CountNext(ExpFile(e, locs, tmp, a, file), Line(a + |c|, i), l);
    PlacesConcat(a, c, [i], l);
  }

  // What the test and the first branch of an if put in its place, and what the second one does.
  function ThenPieces(e: Exp, s1: Stmts, locs: map<string, int>, tmp: int, a: int, l: Line): nat {
    var c, c1 := ExpCode(e, locs, tmp), StmtsCode(s1, locs, tmp);
    Places(a, c, l) + (if Line(a + |c|, RM(JEQ, ac, |c1| + 1, pc)) == l then 1 else 0) + Places(a + |c| + 1, c1, l)
  }

  function ElsePieces(s2: Stmts, locs: map<string, int>, tmp: int, a2: int, l: Line): nat {
    var c2 := StmtsCode(s2, locs, tmp);
    (if Line(a2, RM(LDA, pc, |c2|, pc)) == l then 1 else 0) + Places(a2 + 1, c2, l)
  }

  function ElseAt(e: Exp, s1: Stmts, locs: map<string, int>, tmp: int, a: int): int {
    a + |ExpCode(e, locs, tmp)| + 1 + |StmtsCode(s1, locs, tmp)|
  }

  lemma {:induction false} ThenCount(e: Exp, s1: Stmts, locs: map<string, int>, tmp: int, a: int, file: seq<Line>, l: Line)
    ensures Count(ThenFile(e, s1, locs, tmp, a, file), l) == Count(file, l) + ThenPieces(e, s1, locs, tmp, a, l)
    decreases s1, 1
  {
    var c, c1 := ExpCode(e, locs, tmp), StmtsCode(s1, locs, tmp);
    var toElse := RM(JEQ, ac, |c1| + 1, pc);
    var file1 := ExpFile(e, locs, tmp, a, file);
    ExpCount(e, locs, tmp, a, file, l);
    StmtsCount(s1, locs, tmp, a + |c| + 1, file1, l);
    CountNext(StmtsFile(s1, locs, tmp, a + |c| + 1, file1), Line(a + |c|, toElse), l);
  }

  lemma {:induction false} ElseCount(e: Exp, s1: Stmts, s2: Stmts, locs: map<string, int>, tmp: int, a: int, file: seq<Line>, l: Line)
    ensures Count(IfFile(e, s1, s2, locs, tmp, a, file), l)
            == Count(ThenFile(e, s1, locs, tmp, a, file), l) + ElsePieces(s2, locs, tmp, ElseAt(e, s1, locs, tmp, a), l)
    decreases s2, 1
  {
    var a2, before := ElseAt(e, s1, locs, tmp, a), ThenFile(e, s1, locs, tmp, a, file);
    StmtsCount(s2, locs, tmp, a2 + 1, before, l);
    CountNext(StmtsFile(s2, locs, tmp, a2 + 1, before), Line(a2, RM(LDA, pc, |StmtsCode(s2, locs, tmp)|, pc)), l);
  }

  lemma IfPlaces(e: Exp, s1: Stmts, s2: Stmts, locs: map<string, int>, tmp: int, a: int, l: Line)
    ensures Places(a, IfCode(e, s1, s2, locs, tmp), l)
            == ThenPieces(e, s1, locs, tmp, a, l) + ElsePieces(s2, locs, tmp, ElseAt(e, s1, locs, tmp, a), l)
  {
    var c, c1, c2 := ExpCode(e, locs, tmp), StmtsCode(s1, locs, tmp), StmtsCode(s2, locs, tmp);
    var _, _, _, _, _ := PlacesFive(a, c, RM(JEQ, ac, |c1| + 1, pc), c1, RM(LDA, pc, |c2|, pc), c2, l);
  }

  lemma {:induction false} IfCount(e: Exp, s1: Stmts, s2: Stmts, locs: map<string, int>, tmp: int, a: int, file: seq<Line>, l: Line)
    ensures Count(IfFile(e, s1, s2, locs, tmp, a, file), l)
            == Count(file, l) + Places(a, IfCode(e, s1, s2, locs, tmp), l)
    decreases IfK(e, s1, s2), 0
  {
    ThenCount(e, s1, locs, tmp, a, file, l);
    ElseCount(e, s1, s2, locs, tmp, a, file, l);
    IfPlaces(e, s1, s2, locs, tmp, a, l);
  }

  lemma {:induction false} StmtsCount(ss: Stmts, locs: map<string, int>, tmp: int, a: int, file: seq<Line>, l: Line)
    ensures Count(StmtsFile(ss, locs, tmp, a, file), l) == Count(file, l) + Places(a, StmtsCode(ss, locs, tmp), l)
    decreases ss, 0
  {
    match ss
    case NoStmt =>
    case Chain(s, rest) =>
      var c := StmtCode(s, locs, tmp);
      StmtCount(s, locs, tmp, a, file, l);
      StmtsCount(rest, locs, tmp, a + |c|, StmtFile(s, locs, tmp, a, file), l);
      PlacesConcat(a, c, StmtsCode(rest, locs, tmp), l);
  }

  lemma ProgramCount(p: Stmts, locs: map<string, int>, l: Line)
    ensures Count(ProgramFile(p, locs), l) == Places(0, ProgramCode(p, locs), l)
  {
    var ld, st, halt := RM(LD, mp, 0, ac), RM(ST, ac, 0, ac), RO(HALT, 0, 0, 0);
    var c := StmtsCode(p, locs, 0);
    var start := [Line(0, ld), Line(1, st)];
    assert start == ([] + [Line(0, ld)]) + [Line(1, st)];
    CountNext([], Line(0, ld), l);
    CountNext([] + [Line(0, ld)], Line(1, st), l);
    StmtsCount(p, locs, 0, 2, start, l);
    CountNext(StmtsFile(p, locs, 0, 2, start), Line(2 + |c|, halt), l);
    PlacesConcat(0, Prelude, c + [halt], l);
    PlacesConcat(2, c, [halt], l);
  }

  // Every skipped location is filled in, and no location is written twice: the
  // code file holds one line for each instruction of the program, in some order.
  lemma EveryLocationOnce(p: Stmts, locs: map<string, int>)
    ensures multiset(ProgramFile(p, locs)) == multiset(LinesAt(0, ProgramCode(p, locs)))
  {
    var file, lines := ProgramFile(p, locs), LinesAt(0, ProgramCode(p, locs));
    forall l: Line
      ensures multiset(file)[l] == multiset(lines)[l]
    {
      ProgramCount(p, locs, l);
      CountBag(file, l);
      CountBag(lines, l);
      CountLinesAt(0, ProgramCode(p, locs), l);
    }
  }

  // ---------- loading what was generated ----------

  ghost predicate WrittenBy(ls: seq<Line>, j: int) {
    exists i :: 0 <= i < |ls| && ls[i].loc == j
  }

  lemma WrittenLast(lines: seq<Line>, j: int)
    requires lines != []
    ensures WrittenBy(lines, j) <==> WrittenBy(lines[..|lines| - 1], j) || lines[|lines| - 1].loc == j
  {
    var k := |lines| - 1;
    if WrittenBy(lines, j) {
      var i :| 0 <= i < |lines| && lines[i].loc == j;
      assert i < k ==> lines[..k][i].loc == j;
    }
    if WrittenBy(lines[..k], j) {
      var i :| 0 <= i < k && lines[..k][i].loc == j;
      assert lines[i].loc == j;
    }
  }

  lemma {:induction false} LoadPrefix(lines: seq<Line>, c: seq<Instruction>)
    requires |c| <= IADDR_SIZE && AllAcceptable(c)
    requires forall i :: 0 <= i < |lines| ==> 0 <= lines[i].loc < |c| && lines[i].instr == c[lines[i].loc]
    ensures Load(lines).Loaded?
    ensures forall j :: 0 <= j < IADDR_SIZE ==>
              Load(lines).iMem[j] == if WrittenBy(lines, j) then c[j] else EmptyInstr
  {
    if lines != [] {
      var k := |lines| - 1;
      LoadPrefix(lines[..k], c);
      assert lines[k].loc < |c|;
      forall j | 0 <= j < IADDR_SIZE
        ensures Load(lines).Loaded? && Load(lines).iMem[j] == if WrittenBy(lines, j) then c[j] else EmptyInstr
      {
        WrittenLast(lines, j);
      }
    }
  }

  // Written in whatever order, the code of a program is loaded as it is, and the
  // rest of the instruction memory holds HALT.
  lemma LoadGenerated(lines: seq<Line>, c: seq<Instruction>)
    requires multiset(lines) == multiset(LinesAt(0, c)) && AllAcceptable(c) && |c| <= IADDR_SIZE
    ensures Load(lines).Loaded?
    ensures forall j :: 0 <= j < IADDR_SIZE ==> Load(lines).iMem[j] == if j < |c| then c[j] else EmptyInstr
  {
    forall i | 0 <= i < |lines|
      ensures 0 <= lines[i].loc < |c| && lines[i].instr == c[lines[i].loc]
    {
      assert lines[i] in multiset(lines);
      assert lines[i] in LinesAt(0, c);
    }
    LoadPrefix(lines, c);
    forall j | 0 <= j < |c|
      ensures WrittenBy(lines, j)
    {
      assert LinesAt(0, c)[j] in multiset(LinesAt(0, c));
      assert Line(j, c[j]) in lines;
    }
  }

  // A program one instruction too long does not load.
  lemma {:induction false} LoadTooLong(lines: seq<Line>, c: seq<Instruction>)
    requires multiset(lines) == multiset(LinesAt(0, c)) && |c| > IADDR_SIZE
    ensures !Load(lines).Loaded?
  {
    assert LinesAt(0, c)[IADDR_SIZE] in multiset(LinesAt(0, c));
    assert Line(IADDR_SIZE, c[IADDR_SIZE]) in lines;
    var i :| 0 <= i < |lines| && lines[i] == Line(IADDR_SIZE, c[IADDR_SIZE]);
    assert lines[..i + 1][..i] == lines[..i];
    LoadStuck(lines, i + 1);
  }
}
