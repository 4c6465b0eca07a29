/** The syntax tree that the TINY parser builds, and what a TINY program means.
    Every variable starts at 0; a comparison yields 1 or 0; division truncates
    towards zero.  A repeat loop need not terminate, so evaluation counts loop
    iterations down and answers `RunsOn` when the count is used up. */
module TinySyntax {
  import opened CInt

  datatype Option<+T> = None | Some(value: T)

  datatype Operator = Plus | Minus | Times | Over | Lt | Eq

  datatype Exp =
    | OpK(op: Operator, left: Exp, right: Exp)
    | ConstK(val: int)
    | IdK(name: string)

  datatype Stmt =
    | IfK(test: Exp, thenPart: Stmts, elsePart: Stmts)
    | RepeatK(body: Stmts, until: Exp)
    | AssignK(name: string, rhs: Exp)
    | ReadK(name: string)
    | WriteK(arg: Exp)

  // A statement with its chain of `sibling` pointers; `NoStmt` is the null pointer.
  datatype Stmts = NoStmt | Chain(head: Stmt, sibling: Stmts)

  // ---------- meaning ----------

  datatype Store = Store(vars: map<string, int>, input: seq<int>, output: seq<int>)

  datatype Behaviour =
    | Ends(store: Store)
    | DividesByZero(store: Store)
    | AwaitsInput(store: Store)
    | RunsOn

  function Get(vars: map<string, int>, x: string): int {
    if x in vars then vars[x] else 0
  }

  function Apply(op: Operator, a: int, b: int): Option<int> {
    match op
    case Plus => Some(a + b)
    case Minus => Some(a - b)
    case Times => Some(a * b)
    case Over => if b == 0 then None else Some(TruncDiv(a, b))
    case Lt => Some(if a < b then 1 else 0)
    case Eq => Some(if a == b then 1 else 0)
  }

  // None means that the evaluation divides by zero.
  function Eval(e: Exp, vars: map<string, int>): Option<int> {
    match e
    case ConstK(v) => Some(v)
    case IdK(x) => Some(Get(vars, x))
    case OpK(op, l, r) =>
      match Eval(l, vars) {
        case None => None
        case Some(a) =>
          match Eval(r, vars) {
            case None => None
            case Some(b) => Apply(op, a, b)
          }
      }
  }

  // What the value of an operation is, by arithmetic alone: a quotient is that of C.
  lemma OverExactly(l: Exp, r: Exp, vars: map<string, int>, a: int, b: int, q: int)
    requires Eval(l, vars) == Some(a) && Eval(r, vars) == Some(b)
    ensures Eval(OpK(Over, l, r), vars) == Some(q) <==> b != 0 && IsQuotient(a, b, q)
    ensures Eval(OpK(Over, l, r), vars) == None <==> b == 0
  {
    if b != 0 {
      QuotientExactly(a, b, q);
    }
  }

  function ExecStmt(s: Stmt, st: Store, fuel: nat): Behaviour
    decreases fuel, s
  {
    match s
    case AssignK(x, e) =>
      (match Eval(e, st.vars)
       case None => DividesByZero(st)
       case Some(v) => Ends(st.(vars := st.vars[x := v])))
    case ReadK(x) =>
      if st.input == [] then AwaitsInput(st)
      else Ends(st.(vars := st.vars[x := st.input[0]], input := st.input[1..]))
    case WriteK(e) =>
      (match Eval(e, st.vars)
       case None => DividesByZero(st)
       case Some(v) => Ends(st.(output := st.output + [v])))
    case IfK(e, s1, s2) =>
      (match Eval(e, st.vars)
       case None => DividesByZero(st)
       case Some(v) => if v != 0 then ExecStmts(s1, st, fuel) else ExecStmts(s2, st, fuel))
    case RepeatK(body, e) =>
      if fuel == 0 then RunsOn else
      match ExecStmts(body, st, fuel) {
        case Ends(st1) =>
          (match Eval(e, st1.vars)
           case None => DividesByZero(st1)
           case Some(v) => if v != 0 then Ends(st1) else ExecStmt(s, st1, fuel - 1))
        case other => other
      }
  }

  function ExecStmts(ss: Stmts, st: Store, fuel: nat): Behaviour
    decreases fuel, ss
  {
    match ss
    case NoStmt => Ends(st)
    case Chain(s, rest) =>
      match ExecStmt(s, st, fuel) {
        case Ends(st1) => ExecStmts(rest, st1, fuel)
        case other => other
      }
  }

  // ---------- names and temporaries ----------

  function ExpNames(e: Exp): set<string> {
    match e
    case ConstK(_) => {}
    case IdK(x) => {x}
    case OpK(_, l, r) => ExpNames(l) + ExpNames(r)
  }

  function StmtNames(s: Stmt): set<string> {
    match s
    case AssignK(x, e) => {x} + ExpNames(e)
    case ReadK(x) => {x}
    case WriteK(e) => ExpNames(e)
    case IfK(e, s1, s2) => ExpNames(e) + StmtsNames(s1) + StmtsNames(s2)
    case RepeatK(b, e) => StmtsNames(b) + ExpNames(e)
  }

  function StmtsNames(ss: Stmts): set<string> {
    match ss
    case NoStmt => {}
    case Chain(s, rest) => StmtNames(s) + StmtsNames(rest)
  }

  function Max(a: nat, b: nat): nat {
    if a < b then b else a
  }

  // How many operands an evaluation holds in temporaries at once.
  function ExpDepth(e: Exp): nat {
    match e
    case ConstK(_) => 0
    case IdK(_) => 0
    case OpK(_, l, r) => Max(ExpDepth(l), 1 + ExpDepth(r))
  }

  function StmtDepth(s: Stmt): nat {
    match s
    case AssignK(_, e) => ExpDepth(e)
    case ReadK(_) => 0
    case WriteK(e) => ExpDepth(e)
    case IfK(e, s1, s2) => Max(ExpDepth(e), Max(StmtsDepth(s1), StmtsDepth(s2)))
    case RepeatK(b, e) => Max(StmtsDepth(b), ExpDepth(e))
  }

  function StmtsDepth(ss: Stmts): nat {
    match ss
    case NoStmt => 0
    case Chain(s, rest) => Max(StmtDepth(s), StmtsDepth(rest))
  }

  // More allowed iterations never change an evaluation that had enough of them.
  lemma {:induction false} FuelStmt(s: Stmt, st: Store, fuel: nat, more: nat)
    requires fuel <= more && ExecStmt(s, st, fuel) != RunsOn
    ensures ExecStmt(s, st, more) == ExecStmt(s, st, fuel)
    decreases fuel, s
  {
    match s
    case AssignK(_, _) =>
    case ReadK(_) =>
    case WriteK(_) =>
    case IfK(e, s1, s2) =>
      if Eval(e, st.vars).Some? {
        if Eval(e, st.vars).value != 0 {
          FuelStmts(s1, st, fuel, more);
        } else {
          FuelStmts(s2, st, fuel, more);
        }
      }
    case RepeatK(body, e) =>
      FuelStmts(body, st, fuel, more);
      var r := ExecStmts(body, st, fuel);
      if r.Ends? && Eval(e, r.store.vars) == Some(0) {
        FuelStmt(s, r.store, fuel - 1, more - 1);
      }
  }

  lemma {:induction false} FuelStmts(ss: Stmts, st: Store, fuel: nat, more: nat)
    requires fuel <= more && ExecStmts(ss, st, fuel) != RunsOn
    ensures ExecStmts(ss, st, more) == ExecStmts(ss, st, fuel)
    decreases fuel, ss
  {
    match ss
    case NoStmt =>
    case Chain(s, rest) =>
      FuelStmt(s, st, fuel, more);
      var r := ExecStmt(s, st, fuel);
      if r.Ends? {
        FuelStmts(rest, r.store, fuel, more);
      }
  }
}
