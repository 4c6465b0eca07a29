/** Equivalence classes from a list of pairs, by adjacency lists whose own links are
    turned into the work stack while they are read (equivalenceclass.c). */
module EquivalenceClasses {
  import opened Sequences

  // ---------- what is to be computed ----------

  type Pairs = seq<(int, int)>

  predicate Related(pairs: Pairs, u: int, v: int) {
    (u, v) in pairs || (v, u) in pairs
  }

  lemma RelatedAppend(pairs: Pairs, i: int, j: int, u: int, v: int)
    ensures Related(pairs + [(i, j)], u, v) <==> Related(pairs, u, v) || (u, v) == (i, j) || (v, u) == (i, j)
  {
  }

  predicate Path(pairs: Pairs, p: seq<int>) {
    p != [] && forall k :: 0 <= k < |p| - 1 ==> Related(pairs, p[k], p[k + 1])
  }

  // The reflexive, symmetric and transitive closure.
  ghost predicate Equivalent(pairs: Pairs, u: int, v: int) {
    exists p :: Path(pairs, p) && p[0] == u && p[|p| - 1] == v
  }

  lemma EquivalentSelf(pairs: Pairs, u: int)
    ensures Equivalent(pairs, u, u)
  {
    assert Path(pairs, [u]);
  }

  lemma EquivalentStep(pairs: Pairs, u: int, v: int, w: int)
    requires Equivalent(pairs, u, v) && Related(pairs, v, w)
    ensures Equivalent(pairs, u, w)
  {
    var p :| Path(pairs, p) && p[0] == u && p[|p| - 1] == v;
    assert Path(pairs, p + [w]);
  }

  lemma {:induction false} Reversible(pairs: Pairs, p: seq<int>)
    requires Path(pairs, p)
    ensures Equivalent(pairs, p[|p| - 1], p[0])
  {
    if |p| == 1 {
      EquivalentSelf(pairs, p[0]);
    } else {
      Reversible(pairs, p[1..]);
      assert Related(pairs, p[0], p[0 + 1]);
      EquivalentStep(pairs, p[|p| - 1], p[1], p[0]);
    }
  }

  lemma EquivalentSwap(pairs: Pairs, u: int, v: int)
    requires Equivalent(pairs, u, v)
    ensures Equivalent(pairs, v, u)
  {
    var p :| Path(pairs, p) && p[0] == u && p[|p| - 1] == v;
    Reversible(pairs, p);
  }

  lemma EquivalentChain(pairs: Pairs, u: int, v: int, w: int)
    requires Equivalent(pairs, u, v) && Equivalent(pairs, v, w)
    ensures Equivalent(pairs, u, w)
  {
    var p :| Path(pairs, p) && p[0] == u && p[|p| - 1] == v;
    var q :| Path(pairs, q) && q[0] == v && q[|q| - 1] == w;
    var r := p + q[1..];
    forall k | 0 <= k < |r| - 1
      ensures Related(pairs, r[k], r[k + 1])
    {
      if k >= |p| - 1 {
        var m := k - (|p| - 1);
        assert r[k] == q[m] && r[k + 1] == q[m + 1];
      }
    }
    assert Path(pairs, r);
  }

  // A set that no pair leaves holds whatever is equivalent to one of its members.
  ghost predicate Closed(pairs: Pairs, member: int -> bool) {
    forall u, v :: Related(pairs, u, v) && member(u) ==> member(v)
  }

  lemma {:induction false} ClosedHolds(pairs: Pairs, member: int -> bool, p: seq<int>)
    requires Closed(pairs, member) && Path(pairs, p) && member(p[0])
    ensures member(p[|p| - 1])
  {
    if |p| > 1 {
      assert Related(pairs, p[0], p[0 + 1]);
      ClosedHolds(pairs, member, p[1..]);
    }
  }

  // One class, each member once.
  ghost predicate IsClass(pairs: Pairs, n: nat, group: seq<int>) {
    && group != [] && Distinct(group)
    && forall v :: v in group <==> 0 <= v < n && Equivalent(pairs, group[0], v)
  }

  // The classes of 0..n-1, each of them once.
  ghost predicate AreClasses(pairs: Pairs, n: nat, groups: seq<seq<int>>) {
    && (forall g :: 0 <= g < |groups| ==> IsClass(pairs, n, groups[g]))
    && (forall v :: 0 <= v < n ==> Printed(groups, v))
    && (forall g, h, v :: 0 <= g < |groups| && 0 <= h < |groups| && v in groups[g] && v in groups[h] ==> g == h)
  }

  predicate Printed(groups: seq<seq<int>>, v: int) {
    exists g :: 0 <= g < |groups| && v in groups[g]
  }

  // ---------- the lists ----------

  class Node {
    const data: int
    var link: Node?

    constructor (data: int, link: Node?)
      ensures this.data == data && this.link == link
    {
      this.data := data;
      this.link := link;
    }
  }

  function DataOf(l: seq<Node>): (d: seq<int>)
    ensures |d| == |l| && forall k :: 0 <= k < |l| ==> d[k] == l[k].data
  {
    seq(|l|, k requires 0 <= k < |l| => l[k].data)
  }

  lemma DataOfLast(l: seq<Node>)
    requires l != []
    ensures DataOf(l) == DataOf(l[..|l| - 1]) + [l[|l| - 1].data]
  {
  }

  lemma OneMoreOnStack(base: seq<int>, stk: seq<Node>, printed: seq<int>, x: Node)
    requires DataOf(stk) == base + printed
    ensures DataOf(stk + [x]) == base + (printed + [x.data])
  {
  }

  lemma DistinctAppend(s: seq<int>, t: seq<int>)
    requires Distinct(s) && Distinct(t) && forall v :: v in t ==> v !in s
    ensures Distinct(s + t)
  {
    forall i, j | 0 <= i < j < |s + t|
      ensures (s + t)[i] != (s + t)[j]
    {
      assert j >= |s| ==> (s + t)[j] in t;
    }
  }

  // Of the neighbours seen so far, those who were out are printed and out no more.
  ghost predicate Seen(start: seq<bool>, out: seq<bool>, seen: seq<int>, printed: seq<int>) {
    && |start| == |out| && Distinct(printed)
    && (forall j :: j in printed <==> j in seen && 0 <= j < |start| && start[j])
    && (forall j :: 0 <= j < |out| ==> (out[j] <==> start[j] && j !in seen))
  }

  lemma SeeNext(start: seq<bool>, out: seq<bool>, adj: seq<int>, k: nat, printed: seq<int>)
    requires k < |adj| && 0 <= adj[k] < |out| && Seen(start, out, adj[..k], printed)
    ensures var j := adj[k];
            Seen(start, out[j := false], adj[..k + 1], if out[j] then printed + [j] else printed)
  {
    assert adj[..k + 1] == adj[..k] + [adj[k]];
    if out[adj[k]] {
      DistinctAppend(printed, [adj[k]]);
    }
  }

  class Lists {
    const n: nat
    const out: array<bool>
    const heads: array<Node?>
    // The nodes of each list in the order in which they were linked.
    ghost var lists: seq<seq<Node>>
    // Which list each node is in, and how many nodes are there from it to the end.
    ghost var place: map<Node, (int, int)>

    ghost predicate Shape()
      reads this
    {
      && out.Length == heads.Length == |lists| == n
      && (forall v, k :: 0 <= v < n && 0 <= k < |lists[v]| ==>
            lists[v][k] in place && place[lists[v][k]] == (v, |lists[v]| - k) && 0 <= lists[v][k].data < n)
    }

    ghost function Nodes(): set<Node>
      reads this
    {
      place.Keys
    }

    ghost function NodeAt(v: int, k: nat): Node?
      requires Shape() && 0 <= v < n
      reads this
    {
      if k < |lists[v]| then lists[v][k] else null
    }

    // From node k on, the list of v is as it was linked.
    ghost predicate Intact(v: int, k: nat)
      requires Shape() && 0 <= v < n
      reads this, Nodes()
    {
      forall m {:trigger lists[v][m].link} :: k <= m < |lists[v]| ==> lists[v][m].link == NodeAt(v, m + 1)
    }

    ghost function Adj(v: int): seq<int>
      requires Shape() && 0 <= v < n
      reads this
    {
      DataOf(lists[v])
    }

    ghost predicate Holds(pairs: Pairs)
      requires Shape()
      reads this
    {
      forall u, v :: 0 <= u < n ==> (v in Adj(u) <==> Related(pairs, u, v))
    }

    // Ready to be read: all of v's list, from its head.
    ghost predicate Whole(v: int)
      requires Shape() && 0 <= v < n
      reads this, heads, Nodes()
    {
      heads[v] == NodeAt(v, 0) && Intact(v, 0)
    }

    constructor (n: nat)
      ensures this.n == n && fresh(out) && fresh(heads) && place == map[]
      ensures Shape() && Holds([]) && forall v :: 0 <= v < n ==> Whole(v) && out[v]
    {
      this.n := n;
      out := new bool[n];
      heads := new Node?[n];
      lists := seq(n, _ => []);
      place := map[];
      new;
      var i := 0;
      while i < n
        invariant 0 <= i <= n && lists == seq(n, _ => []) && place == map[]
        invariant forall v :: 0 <= v < i ==> out[v] && heads[v] == null
      {
        out[i] := true;
        heads[i] := null;
        i := i + 1;
      }
    }

    // The lists, once x is in front of that of v.
    ghost predicate Longer(was: seq<seq<Node>>, v: int, x: Node)
      reads this
    {
      && |was| == |lists| && 0 <= v < |lists| && |lists[v]| == |was[v]| + 1 && lists[v][0] == x
      && (forall u :: 0 <= u < |lists| && u != v ==> lists[u] == was[u])
      && (forall k :: 1 <= k < |lists[v]| ==> lists[v][k] == was[v][k - 1])
    }

    // One node in front of the list of v.
    method Prepend(v: int, data: int)
      requires Shape() && 0 <= v < n && 0 <= data < n && forall u :: 0 <= u < n ==> Whole(u)
      modifies this`lists, this`place, heads
      ensures Shape() && forall u :: 0 <= u < n ==> Whole(u)
      ensures forall u :: 0 <= u < n ==> Adj(u) == if u == v then [data] + old(Adj(u)) else old(Adj(u))
      ensures fresh(Nodes() - old(Nodes())) && old(Nodes()) <= Nodes()
    {
      var x := new Node(data, heads[v]);
      heads[v] := x;
      ghost var was := lists;
      lists := lists[v := [x] + lists[v]];
      place := place[x := (v, |lists[v]|)];
      assert Longer(was, v, x);
      forall u | 0 <= u < n
        ensures Whole(u)
      {
        assert old(Whole(u));
        forall m | 0 <= m < |lists[u]|
          ensures lists[u][m].link == NodeAt(u, m + 1)
        {
          if u == v && m > 0 {
            assert was[u][m - 1].link == old(NodeAt(u, m));
          }
        }
      }
    }

    method AddPair(i: int, j: int, ghost pairs: Pairs)
      requires Shape() && Holds(pairs) && 0 <= i < n && 0 <= j < n && forall u :: 0 <= u < n ==> Whole(u)
      modifies this`lists, this`place, heads
      ensures Shape() && Holds(pairs + [(i, j)]) && forall u :: 0 <= u < n ==> Whole(u)
      ensures fresh(Nodes() - old(Nodes())) && old(Nodes()) <= Nodes()
    {
      Prepend(i, j);
      Prepend(j, i);
      forall u, v | 0 <= u < n
        ensures v in Adj(u) <==> Related(pairs + [(i, j)], u, v)
      {
        RelatedAppend(pairs, i, j, u, v);
        assert v in old(Adj(u)) <==> Related(pairs, u, v);
      }
    }

    // ---------- reading them, the stack made of the nodes passed ----------

    ghost function Below(stk: seq<Node>, i: nat): Node?
      requires i <= |stk|
    {
      if i == 0 then null else stk[i - 1]
    }

    lemma BelowAppend(stk: seq<Node>, x: Node)
      ensures forall i :: 0 <= i <= |stk| ==> Below(stk + [x], i) == Below(stk, i)
    {
    }

    ghost predicate StackAt(top: Node?, stk: seq<Node>)
      reads stk
    {
      && top == Below(stk, |stk|)
      && (forall i {:trigger stk[i].link} :: 0 <= i < |stk| ==> stk[i].link == Below(stk, i))
    }

    // No node on the stack is in v's list from node k on.
    ghost predicate Apart(stk: seq<Node>, v: int, k: nat)
      requires Shape() && 0 <= v < n
      reads this
    {
      forall i :: 0 <= i < |stk| ==> stk[i] in place && (place[stk[i]].0 == v ==> place[stk[i]].1 > |lists[v]| - k)
    }

    // The stack, and the lists still to be read.
    ghost predicate Ready(todo: set<int>, top: Node?, stk: seq<Node>)
      requires Shape()
      reads this, heads, Nodes()
    {
      && (forall i :: 0 <= i < |stk| ==> stk[i] in place && place[stk[i]].0 !in todo)
      && StackAt(top, stk)
      && (forall v :: v in todo ==> 0 <= v < n && Whole(v))
    }

    // The list of v: whoever is still out is printed, and its node pushed.
    method Scan(x0: Node?, top0: Node?, ghost v: int, ghost todo: set<int>, ghost stk0: seq<Node>)
      returns (top: Node?, printed: seq<int>, ghost stk: seq<Node>)
      requires Shape() && 0 <= v < n && v !in todo && x0 == NodeAt(v, 0) && Intact(v, 0)
      requires Ready(todo, top0, stk0) && Apart(stk0, v, 0)
      modifies Nodes(), out
      ensures Ready(todo, top, stk) && DataOf(stk) == DataOf(stk0) + printed
      ensures Seen(old(out[..]), out[..], Adj(v), printed)
    {
      var x := x0;
      top, printed, stk := top0, [], stk0;
      ghost var k, start, base, adj := 0, out[..], DataOf(stk0), Adj(v);
      while x != null
        invariant k <= |lists[v]| && x == NodeAt(v, k) && Intact(v, k) && Apart(stk, v, k)
        invariant Ready(todo, top, stk) && DataOf(stk) == base + printed
        invariant Seen(start, out[..], adj[..k], printed)
        decreases |lists[v]| - k
      {
        SeeNext(start, out[..], adj, k, printed);
        OneMoreOnStack(base, stk, printed, x);
        if out[x.data] {
          printed := printed + [x.data];
        }
        x, top, stk := Look(x, top, v, k, todo, stk);
        k := k + 1;
      }
      assert adj[..k] == adj;
    }

    // One neighbour, and the node of one who is printed onto the stack.
    method Look(x: Node, top0: Node?, ghost v: int, ghost k: nat, ghost todo: set<int>, ghost stk0: seq<Node>)
      returns (y: Node?, top: Node?, ghost stk: seq<Node>)
      requires Shape() && 0 <= v < n && v !in todo && k < |lists[v]| && x == lists[v][k]
      requires Intact(v, k) && Apart(stk0, v, k) && Ready(todo, top0, stk0)
      modifies x, out
      ensures y == NodeAt(v, k + 1) && Intact(v, k + 1) && Apart(stk, v, k + 1) && Ready(todo, top, stk)
      ensures out[..] == old(out[..])[x.data := false]
      ensures stk == if old(out[x.data]) then stk0 + [x] else stk0
    {
      var j := x.data;
      y, top, stk := x.link, top0, stk0;
      if out[j] {
        out[j] := false;
        Push(x, top, v, k, todo, stk);
        top, stk := x, stk + [x];
      }
    }

    // x->link = top
    method Push(x: Node, top: Node?, ghost v: int, ghost k: nat, ghost todo: set<int>, ghost stk: seq<Node>)
      requires Shape() && 0 <= v < n && v !in todo && k < |lists[v]| && x == lists[v][k]
      requires Intact(v, k) && Apart(stk, v, k) && Ready(todo, top, stk)
      modifies x
      ensures Intact(v, k + 1) && Apart(stk + [x], v, k + 1) && Ready(todo, x, stk + [x])
    {
      assert forall i :: 0 <= i < |stk| ==> stk[i] != x;
      x.link := top;
      assert StackAt(x, stk + [x]) by {
        BelowAppend(stk, x);
      }
      forall u | u in todo
        ensures Whole(u)
      {
        assert old(Whole(u));
        assert forall m :: 0 <= m < |lists[u]| ==> lists[u][m] != x;
      }
    }

    // Whoever is still out has his list whole, and so have all he is related to.
    ghost predicate Before(pairs: Pairs)
      requires Shape()
      reads this, out, heads, Nodes()
    {
      && Holds(pairs)
      && (forall v :: 0 <= v < n && out[v] ==> Whole(v))
      && (forall u, v :: 0 <= u < n && 0 <= v < n && Related(pairs, u, v) ==> out[u] == out[v])
    }

    lemma PopStack(top: Node, stk: seq<Node>)
      requires StackAt(top, stk) && stk != []
      ensures top == stk[|stk| - 1] && StackAt(top.link, stk[..|stk| - 1])
    {
      var front := stk[..|stk| - 1];
      assert forall i :: 0 <= i <= |front| ==> Below(front, i) == Below(stk, i);
    }

    // The first node of the stack says whose list comes next.
    lemma Pop(todo: set<int>, top: Node, stk: seq<Node>)
      requires Shape() && Ready(todo, top, stk) && stk != [] && stk[|stk| - 1].data in todo
      ensures DataOf(stk) == DataOf(stk[..|stk| - 1]) + [top.data]
      ensures Ready(todo - {top.data}, top.link, stk[..|stk| - 1])
      ensures 0 <= top.data < n && Whole(top.data) && Apart(stk[..|stk| - 1], top.data, 0)
    {
      PopStack(top, stk);
      DataOfLast(stk);
    }

    // What the next round begins with.
    lemma NextList(todo: set<int>, top: Node, stk: seq<Node>, pairs: Pairs, start: seq<bool>, i: int, group: seq<int>, stack: seq<int>)
      requires Shape() && Ready(todo, top, stk) && stack == DataOf(stk) && todo == Todo(out[..], stack)
      requires Frontier(pairs, start, out[..], i, group, stack, {})
      ensures var v, rest := top.data, stk[..|stk| - 1];
              && stk != [] && 0 <= v < n && v in group && v in todo && heads[v] == NodeAt(v, 0) && Intact(v, 0) && Apart(rest, v, 0)
              && Ready(todo - {v}, top.link, rest) && stack[..|stack| - 1] == DataOf(rest) && todo - {v} == Todo(out[..], stack[..|stack| - 1])
              && Frontier(pairs, start, out[..], i, group, stack[..|stack| - 1], {v})
    {
      assert stk != [];
      DataOfLast(stk);
      PopStack(top, stk);
      Resumed(pairs, start, out[..], i, group, stack);
      Pop(todo, top, stk);
    }

    // The list of v, as part of the class of i.
    method Visit(x: Node?, top0: Node?, ghost v: int, ghost todo: set<int>, ghost stk0: seq<Node>,
      ghost pairs: Pairs, ghost start: seq<bool>, ghost i: int, ghost group: seq<int>, ghost stack: seq<int>)
      returns (top: Node?, printed: seq<int>, ghost stk: seq<Node>)
      requires Shape() && Holds(pairs) && |start| == n && forall u, w :: 0 <= u < n && 0 <= w < n && Related(pairs, u, w) ==> start[u] == start[w]
      requires 0 <= v < n && v in group && v !in todo && x == NodeAt(v, 0) && Intact(v, 0) && Apart(stk0, v, 0)
      requires Ready(todo, top0, stk0) && stack == DataOf(stk0) && todo == Todo(out[..], stack)
      requires Frontier(pairs, start, out[..], i, group, stack, {v})
      modifies Nodes(), out
      ensures Ready(todo, top, stk) && stack + printed == DataOf(stk) && todo == Todo(out[..], stack + printed)
      ensures Frontier(pairs, start, out[..], i, group + printed, stack + printed, {})
    {
      ghost var before := out[..];
      top, printed, stk := Scan(x, top0, v, todo, stk0);
      Spread(pairs, start, before, out[..], i, group, stack, v, Adj(v), printed);
    }

    // From the list of i, all lists that the stack leads to.
    method Follow(i: int, ghost pairs: Pairs, ghost start: seq<bool>) returns (group: seq<int>)
      requires Shape() && Holds(pairs) && |start| == n && 0 <= i < n && start[i] && out[..] == start[i := false]
      requires forall v :: 0 <= v < n && start[v] ==> Whole(v)
      requires forall u, v :: 0 <= u < n && 0 <= v < n && Related(pairs, u, v) ==> start[u] == start[v]
      modifies Nodes(), out
      ensures Frontier(pairs, start, out[..], i, group, [], {})
      ensures forall v :: 0 <= v < n && out[v] ==> Whole(v)
    {
      group := [i];
      var x, top: Node? := heads[i], null;
      ghost var v, stk: seq<Node>, stack := i, [], [];
      ghost var todo := Todo(out[..], []);
      Begun(pairs, start, i);
      while true
        invariant 0 <= v < n && v in group && v !in todo && x == NodeAt(v, 0) && Intact(v, 0) && Apart(stk, v, 0)
        invariant Ready(todo, top, stk) && stack == DataOf(stk) && todo == Todo(out[..], stack)
        invariant Frontier(pairs, start, out[..], i, group, stack, {v})
        decreases todo
      {
        var printed: seq<int>;
        top, printed, stk := Visit(x, top, v, todo, stk, pairs, start, i, group, stack);
        group, stack := group + printed, stack + printed;
        if top == null {
          break;
        }
        NextList(todo, top, stk, pairs, start, i, group, stack);
        v := top.data;
        x := heads[top.data];
        todo, stk, stack := todo - {v}, stk[..|stk| - 1], stack[..|stack| - 1];
        top := top.link;
      }
    }

    // The class of i, first visited.
    method Class(i: int, ghost pairs: Pairs) returns (group: seq<int>)
      requires Shape() && Before(pairs) && 0 <= i < n && out[i]
      modifies Nodes(), out
      ensures Before(pairs) && IsClass(pairs, n, group) && group[0] == i
      ensures forall v :: 0 <= v < n ==> (out[v] <==> old(out[v]) && v !in group)
      ensures forall v :: v in group ==> 0 <= v < n && old(out[v])
    {
      ghost var start := out[..];
      out[i] := false;
      group := Follow(i, pairs, start);
      Complete(pairs, start, out[..], i, group);
    }

    // The classes in the order of their first members.
    method Output(ghost pairs: Pairs) returns (groups: seq<seq<int>>)
      requires Shape() && Before(pairs) && forall v :: 0 <= v < n ==> out[v]
      modifies Nodes(), out
      ensures AreClasses(pairs, n, groups)
      ensures forall g, h :: 0 <= g < h < |groups| ==> groups[g][0] < groups[h][0]
    {
      groups := [];
      var i := 0;
      while i < n
        invariant 0 <= i <= n && Before(pairs) && Sofar(pairs, n, groups, out[..], i)
      {
        if out[i] {
          ghost var before := out[..];
          var group := Class(i, pairs);
          OneMore(pairs, n, groups, before, out[..], i, group);
          groups := groups + [group];
        }
        i := i + 1;
      }
    }
  }

  ghost function Todo(out: seq<bool>, stack: seq<int>): set<int> {
    set u | 0 <= u < |out| && (out[u] || u in stack)
  }

  lemma TodoSame(out: seq<bool>, out': seq<bool>, stack: seq<int>, adj: seq<int>, printed: seq<int>)
    requires Seen(out, out', adj, printed)
    ensures Todo(out', stack + printed) == Todo(out, stack)
  {
  }

  lemma TodoLess(out: seq<bool>, stack: seq<int>)
    requires stack != [] && var v := stack[|stack| - 1]; 0 <= v < |out| && !out[v] && v !in stack[..|stack| - 1]
    ensures var v := stack[|stack| - 1];
            v in Todo(out, stack) && Todo(out, stack[..|stack| - 1]) == Todo(out, stack) - {v}
  {
    var v := stack[|stack| - 1];
    assert forall u :: u in stack <==> u in stack[..|stack| - 1] || u == v;
  }

  lemma Begun(pairs: Pairs, start: seq<bool>, i: int)
    requires 0 <= i < |start| && start[i]
    ensures Frontier(pairs, start, start[i := false], i, [i], [], {i})
  {
    EquivalentSelf(pairs, i);
    var group := [i];
    assert group[..|group| - 1] == [] && Distinct(group);
  }

  // In the middle of a class: who has been printed is equivalent to the first, and who
  // is neither waiting on the stack nor being read has only printed neighbours.
  ghost predicate Frontier(pairs: Pairs, start: seq<bool>, out: seq<bool>, i: int, group: seq<int>, stack: seq<int>, busy: set<int>) {
    && |start| == |out| && group != [] && group[0] == i && Distinct(group) && Distinct(stack)
    && (forall u :: u in group <==> 0 <= u < |out| && start[u] && !out[u])
    && (forall u :: 0 <= u < |out| && out[u] ==> start[u])
    && (forall u :: u in group ==> Equivalent(pairs, i, u))
    && (forall u :: u in stack ==> u in group && u !in busy)
    && (forall u, w :: u in group && u !in stack && u !in busy && Related(pairs, u, w) ==> 0 <= w < |out| && !out[w])
  }

  lemma Spread(pairs: Pairs, start: seq<bool>, out: seq<bool>, out': seq<bool>, i: int, group: seq<int>, stack: seq<int>,
    v: int, adj: seq<int>, printed: seq<int>)
    requires Frontier(pairs, start, out, i, group, stack, {v}) && v in group
    requires Seen(out, out', adj, printed)
    requires forall j :: j in adj <==> Related(pairs, v, j)
    requires forall j :: j in adj ==> 0 <= j < |out| && start[j]
    ensures Frontier(pairs, start, out', i, group + printed, stack + printed, {})
    ensures Todo(out', stack + printed) == Todo(out, stack)
  {
    TodoSame(out, out', stack, adj, printed);
    DistinctAppend(group, printed);
    DistinctAppend(stack, printed);
    forall u | u in printed
      ensures Equivalent(pairs, i, u)
    {
      EquivalentStep(pairs, i, v, u);
    }
  }

  lemma Resumed(pairs: Pairs, start: seq<bool>, out: seq<bool>, i: int, group: seq<int>, stack: seq<int>)
    requires Frontier(pairs, start, out, i, group, stack, {}) && stack != []
    ensures var v := stack[|stack| - 1];
            && v in group && v !in stack[..|stack| - 1] && v in Todo(out, stack)
            && Frontier(pairs, start, out, i, group, stack[..|stack| - 1], {v})
            && Todo(out, stack[..|stack| - 1]) == Todo(out, stack) - {v}
  {
    var v := stack[|stack| - 1];
    assert v in group;
    TodoLess(out, stack);
    forall u | u in group && u !in stack[..|stack| - 1] && u != v
      ensures u !in stack
    {
    }
  }

  // With nobody waiting, all of the class is printed: a pair leads from it neither to
  // who is still out nor to an earlier class.
  lemma Complete(pairs: Pairs, start: seq<bool>, out: seq<bool>, i: int, group: seq<int>)
    requires Frontier(pairs, start, out, i, group, [], {})
    requires forall u, v :: 0 <= u < |start| && 0 <= v < |start| && Related(pairs, u, v) ==> start[u] == start[v]
    ensures IsClass(pairs, |out|, group)
    ensures forall u, v :: 0 <= u < |out| && 0 <= v < |out| && Related(pairs, u, v) ==> out[u] == out[v]
  {
    assert Closed(pairs, u => u in group);
    forall v | Equivalent(pairs, group[0], v)
      ensures v in group
    {
      var p :| Path(pairs, p) && p[0] == group[0] && p[|p| - 1] == v;
      ClosedHolds(pairs, u => u in group, p);
    }
  }

  // With all before i printed: the classes found, and who is in them is out no more.
  ghost predicate Sofar(pairs: Pairs, n: nat, groups: seq<seq<int>>, out: seq<bool>, i: int) {
    && 0 <= i <= n == |out|
    && (forall g :: 0 <= g < |groups| ==> IsClass(pairs, n, groups[g]) && groups[g][0] < i)
    && (forall v :: 0 <= v < n ==> (out[v] <==> !Printed(groups, v)))
    && (forall v :: 0 <= v < i ==> !out[v])
    && (forall g, h, v :: 0 <= g < |groups| && 0 <= h < |groups| && v in groups[g] && v in groups[h] ==> g == h)
    && (forall g, h :: 0 <= g < h < |groups| ==> groups[g][0] < groups[h][0])
  }

  lemma OneMore(pairs: Pairs, n: nat, groups: seq<seq<int>>, out: seq<bool>, out': seq<bool>, i: int, group: seq<int>)
    requires Sofar(pairs, n, groups, out, i) && i < n && IsClass(pairs, n, group) && group[0] == i && |out'| == n
    requires forall v :: 0 <= v < n ==> (out'[v] <==> out[v] && v !in group)
    requires forall v :: v in group ==> 0 <= v < n && out[v]
    ensures Sofar(pairs, n, groups + [group], out', i + 1)
  {
    var more := groups + [group];
    EquivalentSelf(pairs, i);
    forall v | 0 <= v < n
      ensures Printed(more, v) <==> Printed(groups, v) || v in group
    {
      if v in group {
        assert v in more[|groups|];
      }
      if Printed(groups, v) {
        var g :| 0 <= g < |groups| && v in groups[g];
        assert v in more[g];
      }
    }
    forall g, v | 0 <= g < |groups| && v in groups[g]
      ensures v !in group
    {
      assert Printed(groups, v);
    }
  }

  // Two members are in one group exactly if they are equivalent.
  lemma SameClass(pairs: Pairs, n: nat, groups: seq<seq<int>>, g: nat, h: nat, u: int, v: int)
    requires AreClasses(pairs, n, groups) && g < |groups| && h < |groups| && u in groups[g] && v in groups[h]
    ensures g == h <==> Equivalent(pairs, u, v)
  {
    var a, b := groups[g][0], groups[h][0];
    if g == h {
      EquivalentSwap(pairs, a, u);
      EquivalentChain(pairs, u, a, v);
    } else if Equivalent(pairs, u, v) {
      EquivalentChain(pairs, a, u, v);
    }
  }

  // main, with the pairs it reads up to the closing -1.
  method Classes(n: nat, pairs: Pairs) returns (groups: seq<seq<int>>)
    requires forall k :: 0 <= k < |pairs| ==> 0 <= pairs[k].0 < n && 0 <= pairs[k].1 < n
    ensures AreClasses(pairs, n, groups)
    ensures forall g, h :: 0 <= g < h < |groups| ==> groups[g][0] < groups[h][0]
  {
    var l := new Lists(n);
    var k := 0;
    while k < |pairs|
      invariant 0 <= k <= |pairs| && l.n == n && fresh(l.out) && fresh(l.Nodes()) && fresh(l) && fresh(l.heads)
      invariant l.Shape() && l.Holds(pairs[..k]) && forall v :: 0 <= v < n ==> l.Whole(v) && l.out[v]
    {
      l.AddPair(pairs[k].0, pairs[k].1, pairs[..k]);
      assert pairs[..k + 1] == pairs[..k] + [(pairs[k].0, pairs[k].1)];
      k := k + 1;
    }
    assert pairs[..k] == pairs;
    groups := l.Output(pairs);
  }
}
