/** The symbol table (a chained hash table) and the traversal that gives every
    name of a program its location in data memory. */
module TinySymbols {
  import opened TinySyntax

  const SIZE := 211
  const SHIFT := 16  // temp << 4

  function HashOf(key: string): (h: int)
    ensures 0 <= h < SIZE
  {
    if key == "" then 0
    else (HashOf(key[..|key| - 1]) * SHIFT + key[|key| - 1] as int) % SIZE
  }

  method Hash(key: string) returns (temp: int)
    ensures temp == HashOf(key)
  {
    temp := 0;
    var i := 0;
    while i < |key|
      invariant 0 <= i <= |key| && temp == HashOf(key[..i])
    {
      assert key[..i + 1][..i] == key[..i];
      temp := (temp * SHIFT + key[i] as int) % SIZE;
      i := i + 1;
    }
    assert key[..i] == key;
  }

  function Power(n: nat): nat {
    if n == 0 then 1 else 16 * Power(n - 1)
  }

  // The characters as the digits of one number to the base 16, the first one the highest.
  function Polynomial(key: string): nat {
    if key == "" then 0 else key[0] as int * Power(|key| - 1) + Polynomial(key[1..])
  }

  lemma {:induction false} PolynomialMore(key: string, c: char)
    ensures Polynomial(key + [c]) == 16 * Polynomial(key) + c as int
  {
    if key == "" {
      assert (key + [c])[1..] == "";
    } else {
      PolynomialMore(key[1..], c);
      assert (key + [c])[1..] == key[1..] + [c];
      var d, p := key[0] as int, Power(|key| - 1);
      assert d * (16 * p) == 16 * (d * p);
    }
  }

  lemma RemainderKept(p: nat, c: nat)
    ensures (p % 211 * 16 + c) % 211 == (16 * p + c) % 211
  {
    var q := p / 211;
    assert p == 211 * q + p % 211;
    assert 16 * p + c == 211 * (16 * q) + (p % 211 * 16 + c);
  }

  lemma {:induction false} HashExactly(key: string)
    ensures HashOf(key) == Polynomial(key) % 211
  {
    if key != "" {
      var n := |key| - 1;
      HashExactly(key[..n]);
      PolynomialMore(key[..n], key[n]);
      assert key[..n] + [key[n]] == key;
      RemainderKept(Polynomial(key[..n]), key[n] as int);
    }
  }

  datatype Bucket = Bucket(name: string, memloc: int)

  // What st_lookup answers for a table holding locs.
  function Lookup(locs: map<string, int>, x: string): int {
    if x in locs then locs[x] else -1
  }

  // Bucket list bs holds the names of locs that hash to h, with their locations.
  ghost predicate Slot(locs: map<string, int>, h: int, bs: seq<Bucket>) {
    && (forall k :: 0 <= k < |bs| ==>
          bs[k].name in locs && locs[bs[k].name] == bs[k].memloc && HashOf(bs[k].name) == h)
    && (forall x :: x in locs && HashOf(x) == h ==> exists k :: 0 <= k < |bs| && bs[k].name == x)
  }

  lemma SlotGrows(locs: map<string, int>, h: int, bs: seq<Bucket>, x: string, loc: int)
    requires Slot(locs, h, bs) && x !in locs
    ensures Slot(locs[x := loc], h, if HashOf(x) == h then [Bucket(x, loc)] + bs else bs)
  {
    if HashOf(x) == h {
      var bs' := [Bucket(x, loc)] + bs;
      assert bs'[0].name == x;
      forall y | y in locs && HashOf(y) == h
        ensures exists k :: 0 <= k < |bs'| && bs'[k].name == y
      {
        var k :| 0 <= k < |bs| && bs[k].name == y;
        assert bs'[k + 1].name == y;
      }
    }
  }

  class SymbolTable {
    const hashTable: array<seq<Bucket>>
    ghost var locs: map<string, int>

    ghost predicate Valid()
      reads this, hashTable
    {
      hashTable.Length == SIZE && forall h :: 0 <= h < SIZE ==> Slot(locs, h, hashTable[h])
    }

    constructor ()
      ensures Valid() && locs == map[] && fresh(hashTable)
    {
      hashTable := new seq<Bucket>[SIZE](_ => []);
      locs := map[];
    }

    method Find(name: string) returns (h: int, k: int)
      requires Valid()
      ensures h == HashOf(name)
      ensures name in locs ==> 0 <= k < |hashTable[h]| && hashTable[h][k].name == name
      ensures name !in locs ==> k == |hashTable[h]|
    {
      h := Hash(name);
      k := 0;
      while k < |hashTable[h]| && hashTable[h][k].name != name
        invariant 0 <= k <= |hashTable[h]|
        invariant forall i :: 0 <= i < k ==> hashTable[h][i].name != name
      {
        k := k + 1;
      }
    }

    method Insert(name: string, loc: int)
      requires Valid()
      modifies this, hashTable
      ensures Valid()
      ensures locs == if name in old(locs) then old(locs) else old(locs)[name := loc]
    {
      var h, k := Find(name);
      if k == |hashTable[h]| {
        forall i | 0 <= i < SIZE
          ensures Slot(locs[name := loc], i, if i == h then [Bucket(name, loc)] + hashTable[i] else hashTable[i])
        {
          SlotGrows(locs, i, hashTable[i], name, loc);
        }
        hashTable[h] := [Bucket(name, loc)] + hashTable[h];
        locs := locs[name := loc];
      }
    }

    method StLookup(name: string) returns (loc: int)
      requires Valid()
      ensures loc == Lookup(locs, name)
      ensures if name in locs then loc == locs[name] else loc == -1
    {
      var h, k := Find(name);
      loc := if k == |hashTable[h]| then -1 else hashTable[h][k].memloc;
    }
  }

  // ---------- the locations that buildSymtab assigns ----------

  function AddName(x: string, locs: map<string, int>): map<string, int> {
    if x in locs then locs else locs[x := |locs|]
  }

  function AddExp(e: Exp, locs: map<string, int>): map<string, int> {
    match e
    case ConstK(_) => locs
    case IdK(x) => AddName(x, locs)
    case OpK(_, l, r) => AddExp(r, AddExp(l, locs))
  }

  function AddStmt(s: Stmt, locs: map<string, int>): map<string, int> {
    match s
    case AssignK(x, e) => AddExp(e, AddName(x, locs))
    case ReadK(x) => AddName(x, locs)
    case WriteK(e) => AddExp(e, locs)
    case IfK(e, s1, s2) => AddStmts(s2, AddStmts(s1, AddExp(e, locs)))
    case RepeatK(b, e) => AddExp(e, AddStmts(b, locs))
  }

  function AddStmts(ss: Stmts, locs: map<string, int>): map<string, int> {
    match ss
    case NoStmt => locs
    case Chain(s, rest) => AddStmts(rest, AddStmt(s, locs))
  }

  // ---------- every name has a location ----------

  predicate ExpDeclared(e: Exp, locs: map<string, int>) {
    match e
    case ConstK(_) => true
    case IdK(x) => x in locs
    case OpK(_, l, r) => ExpDeclared(l, locs) && ExpDeclared(r, locs)
  }

  predicate StmtDeclared(s: Stmt, locs: map<string, int>) {
    match s
    case AssignK(x, e) => x in locs && ExpDeclared(e, locs)
    case ReadK(x) => x in locs
    case WriteK(e) => ExpDeclared(e, locs)
    case IfK(e, s1, s2) => ExpDeclared(e, locs) && StmtsDeclared(s1, locs) && StmtsDeclared(s2, locs)
    case RepeatK(b, e) => StmtsDeclared(b, locs) && ExpDeclared(e, locs)
  }

  predicate StmtsDeclared(ss: Stmts, locs: map<string, int>) {
    match ss
    case NoStmt => true
    case Chain(s, rest) => StmtDeclared(s, locs) && StmtsDeclared(rest, locs)
  }

  lemma {:induction false} ExpNamesDeclared(e: Exp, locs: map<string, int>)
    ensures ExpDeclared(e, locs) <==> ExpNames(e) <= locs.Keys
  {
    match e
    case ConstK(_) =>
    case IdK(_) =>
    case OpK(_, l, r) =>
      ExpNamesDeclared(l, locs);
      ExpNamesDeclared(r, locs);
  }

  lemma {:induction false} StmtNamesDeclared(s: Stmt, locs: map<string, int>)
    ensures StmtDeclared(s, locs) <==> StmtNames(s) <= locs.Keys
  {
    match s
    case AssignK(_, e) => ExpNamesDeclared(e, locs);
    case ReadK(_) =>
    case WriteK(e) => ExpNamesDeclared(e, locs);
    case IfK(e, s1, s2) =>
      ExpNamesDeclared(e, locs);
      StmtsNamesDeclared(s1, locs);
      StmtsNamesDeclared(s2, locs);
    case RepeatK(b, e) =>
      StmtsNamesDeclared(b, locs);
      ExpNamesDeclared(e, locs);
  }

  lemma {:induction false} StmtsNamesDeclared(ss: Stmts, locs: map<string, int>)
    ensures StmtsDeclared(ss, locs) <==> StmtsNames(ss) <= locs.Keys
  {
    match ss
    case NoStmt =>
    case Chain(s, rest) =>
      StmtNamesDeclared(s, locs);
      StmtsNamesDeclared(rest, locs);
  }

  // The variables occupy exactly the locations 0, 1, ..., |locs| - 1, one each.
  ghost predicate Dense(locs: map<string, int>) {
    && (forall x :: x in locs ==> 0 <= locs[x] < |locs|)
    && (forall x, y :: x in locs && y in locs && locs[x] == locs[y] ==> x == y)
  }

  type Layout = locs: map<string, int> | Dense(locs) witness map[]

  lemma AddNameDense(x: string, locs: map<string, int>)
    requires Dense(locs)
    ensures Dense(AddName(x, locs))
  {
    if x !in locs {
      assert |locs[x := |locs|]| == |locs| + 1;
    }
  }

  lemma {:induction false} AddExpDense(e: Exp, locs: map<string, int>)
    requires Dense(locs)
    ensures Dense(AddExp(e, locs))
  {
    match e
    case ConstK(_) =>
    case IdK(x) => AddNameDense(x, locs);
    case OpK(_, l, r) =>
      AddExpDense(l, locs);
      AddExpDense(r, AddExp(l, locs));
  }

  lemma {:induction false} AddStmtDense(s: Stmt, locs: map<string, int>)
    requires Dense(locs)
    ensures Dense(AddStmt(s, locs))
  {
    match s
    case AssignK(x, e) =>
      AddNameDense(x, locs);
      AddExpDense(e, AddName(x, locs));
    case ReadK(x) => AddNameDense(x, locs);
    case WriteK(e) => AddExpDense(e, locs);
    case IfK(e, s1, s2) =>
      AddExpDense(e, locs);
      AddStmtsDense(s1, AddExp(e, locs));
      AddStmtsDense(s2, AddStmts(s1, AddExp(e, locs)));
    case RepeatK(b, e) =>
      AddStmtsDense(b, locs);
      AddExpDense(e, AddStmts(b, locs));
  }

  lemma {:induction false} AddStmtsDense(ss: Stmts, locs: map<string, int>)
    requires Dense(locs)
    ensures Dense(AddStmts(ss, locs))
  {
    match ss
    case NoStmt =>
    case Chain(s, rest) =>
      AddStmtDense(s, locs);
      AddStmtsDense(rest, AddStmt(s, locs));
  }

  lemma {:induction false} AddExpHas(e: Exp, locs: map<string, int>, x: string)
    ensures x in AddExp(e, locs) <==> x in locs || x in ExpNames(e)
  {
    match e
    case ConstK(_) =>
    case IdK(_) =>
    case OpK(_, l, r) =>
      AddExpHas(l, locs, x);
      AddExpHas(r, AddExp(l, locs), x);
  }

  lemma {:induction false} AddStmtHas(s: Stmt, locs: map<string, int>, x: string)
    ensures x in AddStmt(s, locs) <==> x in locs || x in StmtNames(s)
  {
    match s
    case AssignK(y, e) => AddExpHas(e, AddName(y, locs), x);
    case ReadK(_) =>
    case WriteK(e) => AddExpHas(e, locs, x);
    case IfK(e, s1, s2) =>
      AddExpHas(e, locs, x);
      AddStmtsHas(s1, AddExp(e, locs), x);
      AddStmtsHas(s2, AddStmts(s1, AddExp(e, locs)), x);
    case RepeatK(b, e) =>
      AddStmtsHas(b, locs, x);
      AddExpHas(e, AddStmts(b, locs), x);
  }

  lemma {:induction false} AddStmtsHas(ss: Stmts, locs: map<string, int>, x: string)
    ensures x in AddStmts(ss, locs) <==> x in locs || x in StmtsNames(ss)
  {
    match ss
    case NoStmt =>
    case Chain(s, rest) =>
      AddStmtHas(s, locs, x);
      AddStmtsHas(rest, AddStmt(s, locs), x);
  }

  // Exactly the names of the program enter the table.
  lemma AddStmtsNames(p: Stmts)
    ensures AddStmts(p, map[]).Keys == StmtsNames(p)
  {
    forall x: string
      ensures x in AddStmts(p, map[]).Keys <==> x in StmtsNames(p)
    {
      AddStmtsHas(p, map[], x);
    }
  }

  // ---------- the order of the locations ----------

  // The names of a program as they stand in its text.
  function ExpWords(e: Exp): seq<string> {
    match e
    case ConstK(_) => []
    case IdK(x) => [x]
    case OpK(_, l, r) => ExpWords(l) + ExpWords(r)
  }

  function StmtWords(s: Stmt): seq<string> {
    match s
    case AssignK(x, e) => [x] + ExpWords(e)
    case ReadK(x) => [x]
    case WriteK(e) => ExpWords(e)
    case IfK(e, s1, s2) => ExpWords(e) + StmtsWords(s1) + StmtsWords(s2)
    case RepeatK(b, e) => StmtsWords(b) + ExpWords(e)
  }

  function StmtsWords(ss: Stmts): seq<string> {
    match ss
    case NoStmt => []
    case Chain(s, rest) => StmtWords(s) + StmtsWords(rest)
  }

  function AddWords(ws: seq<string>, locs: map<string, int>): map<string, int> {
    if ws == [] then locs else AddName(ws[|ws| - 1], AddWords(ws[..|ws| - 1], locs))
  }

  lemma {:induction false} AddWordsBoth(a: seq<string>, b: seq<string>, locs: map<string, int>)
    ensures AddWords(a + b, locs) == AddWords(b, AddWords(a, locs))
  {
    if b == [] {
      assert a + b == a;
    } else {
      var n := |b| - 1;
      AddWordsBoth(a, b[..n], locs);
      assert (a + b)[..|a + b| - 1] == a + b[..n];
    }
  }

  lemma {:induction false} ExpInOrder(e: Exp, locs: map<string, int>)
    ensures AddExp(e, locs) == AddWords(ExpWords(e), locs)
  {
    match e
    case ConstK(_) =>
    case IdK(x) => assert [x][..0] == [];
    case OpK(_, l, r) =>
      ExpInOrder(l, locs);
      ExpInOrder(r, AddExp(l, locs));
      AddWordsBoth(ExpWords(l), ExpWords(r), locs);
  }

  lemma {:induction false} StmtInOrder(s: Stmt, locs: map<string, int>)
    ensures AddStmt(s, locs) == AddWords(StmtWords(s), locs)
  {
    match s
    case AssignK(x, e) =>
      assert [x][..0] == [];
      ExpInOrder(e, AddName(x, locs));
      AddWordsBoth([x], ExpWords(e), locs);
    case ReadK(x) => assert [x][..0] == [];
    case WriteK(e) => ExpInOrder(e, locs);
    case IfK(e, s1, s2) =>
      ExpInOrder(e, locs);
      StmtsInOrder(s1, AddExp(e, locs));
      StmtsInOrder(s2, AddStmts(s1, AddExp(e, locs)));
      AddWordsBoth(ExpWords(e), StmtsWords(s1), locs);
      AddWordsBoth(ExpWords(e) + StmtsWords(s1), StmtsWords(s2), locs);
    case RepeatK(b, e) =>
      StmtsInOrder(b, locs);
      ExpInOrder(e, AddStmts(b, locs));
      AddWordsBoth(StmtsWords(b), ExpWords(e), locs);
  }

  lemma {:induction false} StmtsInOrder(ss: Stmts, locs: map<string, int>)
    ensures AddStmts(ss, locs) == AddWords(StmtsWords(ss), locs)
  {
    match ss
    case NoStmt =>
    case Chain(s, rest) =>
      StmtInOrder(s, locs);
      StmtsInOrder(rest, AddStmt(s, locs));
      AddWordsBoth(StmtWords(s), StmtsWords(rest), locs);
  }

  function Different(ws: seq<string>): set<string> {
    set k | 0 <= k < |ws| :: ws[k]
  }

  lemma {:induction false} AddWordsKeys(ws: seq<string>)
    ensures AddWords(ws, map[]).Keys == Different(ws) && |AddWords(ws, map[])| == |Different(ws)|
  {
    if ws != [] {
      var n := |ws| - 1;
      AddWordsKeys(ws[..n]);
      assert Different(ws) == Different(ws[..n]) + {ws[n]} by {
        forall x | x in Different(ws)
          ensures x in Different(ws[..n]) + {ws[n]}
        {
          var k :| 0 <= k < |ws| && ws[k] == x;
          assert k < n ==> ws[..n][k] == x;
        }
        forall x | x in Different(ws[..n]) + {ws[n]}
          ensures x in Different(ws)
        {
          assert forall k :: 0 <= k < n ==> ws[..n][k] == ws[k];
        }
      }
      assert AddWords(ws, map[]).Keys == Different(ws);
    }
    assert |AddWords(ws, map[])| == |AddWords(ws, map[]).Keys|;
  }

  lemma {:induction false} WordLocation(ws: seq<string>, i: nat)
    requires i < |ws| && ws[i] !in ws[..i]
    ensures ws[i] in AddWords(ws, map[]) && AddWords(ws, map[])[ws[i]] == |Different(ws[..i])|
  {
    var n := |ws| - 1;
    AddWordsKeys(ws[..n]);
    if i < n {
      assert ws[..n][..i] == ws[..i];
      WordLocation(ws[..n], i);
    } else {
      assert forall k :: 0 <= k < n ==> ws[..n][k] in ws[..n];
    }
  }

  // The location of a variable is the number of different names that stand before it in the text.
  lemma LocationsInOrder(p: Stmts, i: nat)
    requires var ws := StmtsWords(p); i < |ws| && ws[i] !in ws[..i]
    ensures var ws := StmtsWords(p);
            ws[i] in AddStmts(p, map[]) && AddStmts(p, map[])[ws[i]] == |Different(ws[..i])|
  {
    StmtsInOrder(p, map[]);
    WordLocation(StmtsWords(p), i);
  }

  /** The analyser: the table and the static counter `location`. */
  class Analyzer {
    const table: SymbolTable
    var location: int

    ghost predicate Valid()
      reads this, table, table.hashTable
    {
      table.Valid() && location == |table.locs|
    }

    constructor ()
      ensures Valid() && fresh(table) && fresh(table.hashTable) && table.locs == map[]
    {
      table := new SymbolTable();
      location := 0;
    }

    method InsertNode(name: string)
      requires Valid() && Dense(table.locs)
      modifies this, table, table.hashTable
      ensures Valid() && table.locs == AddName(name, old(table.locs))
    {
      var loc := table.StLookup(name);
      if loc == -1 {
        table.Insert(name, location);
        location := location + 1;
      } else {
        table.Insert(name, 0);
      }
    }

    method TraverseExp(e: Exp)
      requires Valid() && Dense(table.locs)
      modifies this, table, table.hashTable
      ensures Valid() && table.locs == AddExp(e, old(table.locs))
    {
      match e {
        case ConstK(_) =>
        case IdK(x) => InsertNode(x);
        case OpK(_, l, r) =>
          AddExpDense(l, table.locs);
          TraverseExp(l);
          TraverseExp(r);
      }
    }

    method TraverseStmt(s: Stmt)
      requires Valid() && Dense(table.locs)
      modifies this, table, table.hashTable
      ensures Valid() && table.locs == AddStmt(s, old(table.locs))
    {
      match s {
        case AssignK(x, e) =>
          AddNameDense(x, table.locs);
          InsertNode(x);
          TraverseExp(e);
        case ReadK(x) => InsertNode(x);
        case WriteK(e) => TraverseExp(e);
        case IfK(e, s1, s2) =>
          AddExpDense(e, table.locs);
          TraverseExp(e);
          AddStmtsDense(s1, table.locs);
          TraverseStmts(s1);
          TraverseStmts(s2);
        case RepeatK(b, e) =>
          AddStmtsDense(b, table.locs);
          TraverseStmts(b);
          TraverseExp(e);
      }
    }

    method TraverseStmts(ss: Stmts)
      requires Valid() && Dense(table.locs)
      modifies this, table, table.hashTable
      ensures Valid() && table.locs == AddStmts(ss, old(table.locs))
    {
      match ss {
        case NoStmt =>
        case Chain(s, rest) =>
          AddStmtDense(s, table.locs);
          TraverseStmt(s);
          TraverseStmts(rest);
      }
    }

    // After it, the table locates exactly the names of the program, densely.
    method BuildSymtab(syntaxTree: Stmts)
      requires Valid() && table.locs == map[]
      modifies this, table, table.hashTable
      ensures Valid() && Dense(table.locs)
      ensures table.locs == AddStmts(syntaxTree, map[])
      ensures table.locs.Keys == StmtsNames(syntaxTree)
    {
      AddStmtsDense(syntaxTree, map[]);
      AddStmtsNames(syntaxTree);
      TraverseStmts(syntaxTree);
    }
  }
}
