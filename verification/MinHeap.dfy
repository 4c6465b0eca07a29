/** The heap of stride processes in minheap.c, least pass value first. */
module MinHeap {

  const MAXCAPACITY := 65

  datatype Node = Node(idx: int, pass: int)

  // ---------- heap order in slots 1 to n ----------

  predicate Up(s: seq<Node>, k: int)
    requires 2 <= k < |s|
  {
    s[k / 2].pass <= s[k].pass
  }

  predicate Ordered(s: seq<Node>, n: int) {
    0 <= n < |s| && forall k {:trigger Up(s, k)} :: 2 <= k <= n ==> Up(s, k)
  }

  lemma {:induction false} RootIsLeast(s: seq<Node>, n: nat, k: nat)
    requires Ordered(s, n) && 1 <= k <= n
    ensures s[1].pass <= s[k].pass
  {
    if k > 1 {
      assert Up(s, k);
      RootIsLeast(s, n, k / 2);
    }
  }

  // All in order but slot here against its parent; it may be too small.
  predicate Rising(s: seq<Node>, n: int, here: int) {
    && 1 <= here <= n < |s|
    && (forall k {:trigger Up(s, k)} :: 2 <= k <= n && k != here ==> Up(s, k))
    && (here > 1 ==> forall k {:trigger Below(s, k, here / 2)} :: 2 <= k <= n && k / 2 == here ==> Below(s, k, here / 2))
  }

  // All in order but slot here against its children; it may be too large.
  predicate Sinking(s: seq<Node>, n: int, here: int) {
    && 1 <= here && 0 <= n < |s|
    && (forall k {:trigger Up(s, k)} :: 2 <= k <= n && k / 2 != here ==> Up(s, k))
    && (here > 1 ==> forall k {:trigger Below(s, k, here / 2)} :: 2 <= k <= n && k / 2 == here ==> Below(s, k, here / 2))
  }

  predicate Below(s: seq<Node>, k: int, j: int) {
    0 <= j < |s| && 0 <= k < |s| && s[j].pass <= s[k].pass
  }

  function Swapped(s: seq<Node>, i: int, j: int): (t: seq<Node>)
    requires 0 <= i < |s| && 0 <= j < |s|
    ensures |t| == |s| && multiset(t) == multiset(s)
  {
    s[i := s[j]][j := s[i]]
  }

  // What is in slots 1 to n.
  function In(s: seq<Node>, n: int): multiset<Node>
    requires 0 <= n < |s|
  {
    multiset(s[1..n + 1])
  }

  lemma SwapIn(s: seq<Node>, n: int, i: int, j: int)
    requires 1 <= i <= n < |s| && 1 <= j <= n
    ensures In(Swapped(s, i, j), n) == In(s, n)
  {
    var a := s[1..n + 1];
    assert Swapped(s, i, j)[1..n + 1] == a[i - 1 := a[j - 1]][j - 1 := a[i - 1]];
  }

  lemma RiseStep(s: seq<Node>, n: int, here: int)
    requires Rising(s, n, here) && here > 1 && s[here].pass <= s[here / 2].pass
    ensures Rising(Swapped(s, here, here / 2), n, here / 2)
  {
    var p, t := here / 2, Swapped(s, here, here / 2);
    forall k | 2 <= k <= n && k != p
      ensures Up(t, k)
    {
      if k != here {
        assert Up(s, k);
        if k / 2 == here {
          assert Below(s, k, p);
        }
      }
    }
    if p > 1 {
      assert Up(s, p);
      forall k | 2 <= k <= n && k / 2 == p
        ensures Below(t, k, p / 2)
      {
        if k != here {
          assert Up(s, k);
        }
      }
    }
  }

  lemma SinkStep(s: seq<Node>, n: int, here: int, child: int)
    requires Sinking(s, n, here) && child / 2 == here && 2 <= child <= n && s[child].pass <= s[here].pass
    requires forall k :: 2 <= k <= n && k / 2 == here ==> s[child].pass <= s[k].pass
    ensures Sinking(Swapped(s, here, child), n, child)
  {
    var t := Swapped(s, here, child);
    forall k | 2 <= k <= n && k / 2 != child
      ensures Up(t, k)
    {
      if k / 2 != here {
        assert Up(s, k);
        if k == here {
          assert Below(s, child, here / 2);
        }
      }
    }
    forall k | 2 <= k <= n && k / 2 == child
      ensures Below(t, k, here)
    {
      assert Up(s, k);
    }
  }

  function SmallerChild(s: seq<Node>, n: nat, here: nat): nat
    requires n < |s| && here > 0
  {
    if here * 2 + 1 <= n && s[here * 2].pass > s[here * 2 + 1].pass then here * 2 + 1 else here * 2
  }

  lemma SmallerIsLeast(s: seq<Node>, n: nat, here: nat)
    requires n < |s| && here > 0 && SmallerChild(s, n, here) <= n
    ensures forall k :: 2 <= k <= n && k / 2 == here ==> s[SmallerChild(s, n, here)].pass <= s[k].pass
  {
    forall k | 2 <= k <= n && k / 2 == here
      ensures s[SmallerChild(s, n, here)].pass <= s[k].pass
    {
      assert k == here * 2 || k == here * 2 + 1;
    }
  }

  lemma Sunk(s: seq<Node>, n: nat, here: nat)
    requires Sinking(s, n, here)
    requires var c := SmallerChild(s, n, here); c > n || s[c].pass > s[here].pass
    ensures Ordered(s, n)
  {
    if SmallerChild(s, n, here) <= n {
      SmallerIsLeast(s, n, here);
    }
    forall k | 2 <= k <= n
      ensures Up(s, k)
    {
      assert k / 2 == here ==> k == here * 2 || k == here * 2 + 1;
    }
  }

  class Heap {
    const strheap: array<Node>
    var heapcapa: nat

    ghost predicate Valid()
      reads this, strheap
    {
      strheap.Length == MAXCAPACITY && heapcapa < MAXCAPACITY && Ordered(strheap[..], heapcapa)
    }

    ghost function Nodes(): multiset<Node>
      requires Valid()
      reads this, strheap
    {
      In(strheap[..], heapcapa)
    }

    // The scan looks at slots 0 to heapcapa - 1, and at nothing if there are none: slot 0 is not
    // part of the heap, and the last slot is.
    ghost predicate Refused(idx: int)
      requires Valid()
      reads this, strheap
    {
      heapcapa == MAXCAPACITY - 1 || exists i :: 0 <= i < heapcapa && strheap[i].idx == idx
    }

    constructor ()
      ensures Valid() && Nodes() == multiset{} && fresh(strheap) && forall i :: 0 <= i < MAXCAPACITY ==> strheap[i] == Node(0, 0)
    {
      strheap := new Node[MAXCAPACITY](_ => Node(0, 0));
      heapcapa := 0;
    }

    method HeapInsert(idx: int, passval: int) returns (r: int)
      requires Valid()
      modifies this, strheap
      ensures Valid() && strheap[0] == old(strheap[0])
      ensures r == if old(Refused(idx)) then -1 else idx
      ensures Nodes() == if old(Refused(idx)) then old(Nodes()) else old(Nodes()) + multiset{Node(idx, passval)}
      ensures !old(Refused(idx)) && (forall x :: x in old(Nodes()) ==> passval <= x.pass) ==> strheap[1] == Node(idx, passval)
    {
      if heapcapa == MAXCAPACITY - 1 {
        return -1;
      }
      var found := Scan(idx);
      if found {
        return -1;
      }
      Push(Node(idx, passval));
      r := idx;
    }

    method Scan(idx: int) returns (found: bool)
      requires Valid()
      ensures found <==> exists i :: 0 <= i < heapcapa && strheap[i].idx == idx
    {
      var i := 0;
      while i < heapcapa
        invariant 0 <= i <= heapcapa && forall j :: 0 <= j < i ==> strheap[j].idx != idx
      {
        if strheap[i].idx == idx {
          return true;
        }
        i := i + 1;
      }
      found := false;
    }

    method Push(x: Node)
      requires Valid() && heapcapa < MAXCAPACITY - 1
      modifies this, strheap
      ensures Valid() && strheap[0] == old(strheap[0]) && Nodes() == old(Nodes()) + multiset{x}
      ensures (forall y :: y in old(Nodes()) ==> x.pass <= y.pass) ==> strheap[1] == x
    {
      ghost var was := strheap[..];
      heapcapa := heapcapa + 1;
      strheap[heapcapa] := x;
      Added(was, strheap[..], heapcapa - 1, x);
      Rise(heapcapa);
    }

    method Rise(from: nat)
      requires strheap.Length == MAXCAPACITY && heapcapa < MAXCAPACITY && Rising(strheap[..], heapcapa, from)
      modifies strheap
      ensures Valid() && strheap[0] == old(strheap[0]) && Nodes() == old(In(strheap[..], heapcapa))
      ensures ComesFirst(Nodes(), old(strheap[from]), strheap[1])
    {
      ghost var x := strheap[from];
      var here := from;
      var parent := here / 2;
      while here != 1 && strheap[here].pass <= strheap[parent].pass
        invariant parent == here / 2 && Rising(strheap[..], heapcapa, here) && strheap[here] == x
        invariant In(strheap[..], heapcapa) == old(In(strheap[..], heapcapa)) && strheap[0] == old(strheap[0])
        decreases here
      {
        ghost var s := strheap[..];
        RiseStep(s, heapcapa, here);
        SwapIn(s, heapcapa, here, parent);
        strheap[here], strheap[parent] := strheap[parent], strheap[here];
        assert strheap[..] == Swapped(s, here, parent);
        here := parent;
        parent := here / 2;
      }
      Rose(strheap[..], heapcapa, here, x);
    }

    method HeapDelete() returns (r: int)
      requires Valid()
      modifies this, strheap
      ensures Valid() && strheap[0] == old(strheap[0])
      ensures old(heapcapa) == 0 ==> r == -1 && Nodes() == old(Nodes())
      ensures old(heapcapa) > 0 ==> r == old(strheap[1].idx) && old(strheap[1]) in old(Nodes()) && Nodes() == old(Nodes()) - multiset{old(strheap[1])}
    {
      if heapcapa == 0 {
        return -1;
      }
      r := strheap[1].idx;
      ghost var was := strheap[..];
      strheap[1] := strheap[heapcapa];
      strheap[heapcapa] := Node(-1, -1);
      heapcapa := heapcapa - 1;
      Taken(was, strheap[..], heapcapa);
      Sink();
    }

    method Sink()
      requires strheap.Length == MAXCAPACITY && heapcapa < MAXCAPACITY && Sinking(strheap[..], heapcapa, 1)
      modifies strheap
      ensures Valid() && strheap[0] == old(strheap[0]) && Nodes() == old(In(strheap[..], heapcapa))
    {
      var here := 1;
      var child := SmallerChild(strheap[..], heapcapa, here);
      while child <= heapcapa && strheap[child].pass <= strheap[here].pass
        invariant Sinking(strheap[..], heapcapa, here) && child == SmallerChild(strheap[..], heapcapa, here)
        invariant In(strheap[..], heapcapa) == old(In(strheap[..], heapcapa)) && strheap[0] == old(strheap[0])
        decreases heapcapa - here
      {
        ghost var s := strheap[..];
        SmallerIsLeast(s, heapcapa, here);
        SinkStep(s, heapcapa, here, child);
        SwapIn(s, heapcapa, here, child);
        strheap[here], strheap[child] := strheap[child], strheap[here];
        assert strheap[..] == Swapped(s, here, child);
        here := child;
        child := SmallerChild(strheap[..], heapcapa, here);
      }
      Sunk(strheap[..], heapcapa, here);
    }

    method GetPvHeap() returns (r: int)
      requires Valid()
      ensures heapcapa == 0 ==> r == -1 && Nodes() == multiset{}
      ensures heapcapa > 0 ==> r == strheap[1].pass && strheap[1] in Nodes() && forall x :: x in Nodes() ==> r <= x.pass
    {
      if heapcapa == 0 {
        return -1;
      }
      r := strheap[1].pass;
      ghost var s := strheap[..];
      assert s[1..heapcapa + 1][0] == s[1];
      forall x | x in Nodes()
        ensures r <= x.pass
      {
        var k :| 0 <= k < heapcapa && s[1..heapcapa + 1][k] == x;
        RootIsLeast(s, heapcapa, k + 1);
      }
    }
  }

  // A node that is not later than any comes before all of them, those that are as early included.
  ghost predicate ComesFirst(h: multiset<Node>, x: Node, root: Node) {
    (forall y :: y in h ==> x.pass <= y.pass) ==> root == x
  }

  lemma Rose(s: seq<Node>, n: nat, here: nat, x: Node)
    requires Rising(s, n, here) && s[here] == x && (here != 1 ==> s[here].pass > s[here / 2].pass)
    ensures Ordered(s, n) && ComesFirst(In(s, n), x, s[1])
  {
    if here != 1 {
      assert Up(s, here);
      assert s[1..n + 1][here / 2 - 1] == s[here / 2];
    }
  }

  lemma Added(s: seq<Node>, t: seq<Node>, n: nat, x: Node)
    requires Ordered(s, n) && n + 1 < |s| && t == s[n + 1 := x]
    ensures Rising(t, n + 1, n + 1) && In(t, n + 1) == In(s, n) + multiset{x}
  {
    forall k | 2 <= k <= n
      ensures Up(t, k)
    {
      assert Up(s, k);
    }
    assert t[1..n + 2] == s[1..n + 1] + [x];
  }

  lemma Taken(s: seq<Node>, t: seq<Node>, n: nat)
    requires Ordered(s, n + 1) && t == s[1 := s[n + 1]][n + 1 := Node(-1, -1)]
    ensures Sinking(t, n, 1) && s[1] in In(s, n + 1) && In(t, n) == In(s, n + 1) - multiset{s[1]}
  {
    forall k | 2 <= k <= n && k / 2 != 1
      ensures Up(t, k)
    {
      assert Up(s, k);
    }
    assert s[1..n + 2] == [s[1]] + s[2..n + 2];
    if n > 0 {
      assert t[1..n + 1] == [s[n + 1]] + s[2..n + 1];
      assert s[2..n + 2] == s[2..n + 1] + [s[n + 1]];
    }
  }
}
