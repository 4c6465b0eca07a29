/** The list of buffers from the least to the most recently used, kept in the buffers as
    indices: the last one is its own next, the first one its own predecessor. */
module LruList {
  import opened DiskSpace
  import opened Sequences

  datatype Frame = Frame(table: nat, page: nat, dirty: bool, pinned: int, next: int, prev: int, used: bool, data: Content)

  predicate Link(b: seq<Frame>, order: seq<nat>, k: int)
    requires 0 <= k < |order|
  {
    && order[k] < |b|
    && b[order[k]].next == (if k + 1 < |order| then order[k + 1] else order[k])
    && b[order[k]].prev == (if k > 0 then order[k - 1] else order[k])
  }

  predicate Off(b: seq<Frame>, i: int)
    requires 0 <= i < |b|
  {
    b[i].next == -1 && b[i].prev == -1
  }

  // The list is this one; what buffer skip says does not matter if it is not in the list.
  predicate Linked(b: seq<Frame>, order: seq<nat>, skip: int) {
    && Distinct(order)
    && (forall k {:trigger Link(b, order, k)} :: 0 <= k < |order| ==> Link(b, order, k))
    && (forall i {:trigger Off(b, i)} :: 0 <= i < |b| && i !in order && i != skip ==> Off(b, i))
  }

  // Place k taken out.
  function Without(order: seq<nat>, k: nat): seq<nat>
    requires k < |order|
  {
    order[..k] + order[k + 1..]
  }

  // Buffer t, at place k or (if k is the length) nowhere yet, becomes the most recent one.
  function Touched(order: seq<nat>, k: nat, t: nat): seq<nat>
    requires k <= |order|
  {
    (if k == |order| then order else Without(order, k)) + [t]
  }

  predicate At(order: seq<nat>, k: nat, t: nat) {
    k <= |order| && if k == |order| then t !in order else order[k] == t
  }

  lemma Once(order: seq<nat>, j: nat, k: nat)
    requires Distinct(order) && j < |order| && k < |order| && order[j] == order[k]
    ensures j == k
  {
  }

  lemma WithoutDistinct(order: seq<nat>, k: nat)
    requires Distinct(order) && k < |order|
    ensures Distinct(Without(order, k)) && order[k] !in Without(order, k)
    ensures forall x :: x in Without(order, k) <==> x in order && x != order[k]
  {
    var w := Without(order, k);
    forall i, j | 0 <= i < j < |w|
      ensures w[i] != w[j]
    {
      assert order[if i < k then i else i + 1] != order[if j < k then j else j + 1];
    }
    forall x | x in order && x != order[k]
      ensures x in w
    {
      var m :| 0 <= m < |order| && order[m] == x;
      assert w[if m < k then m else m - 1] == x;
    }
    forall m | 0 <= m < |w|
      ensures w[m] in order && w[m] != order[k]
    {
      var n := if m < k then m else m + 1;
      assert w[m] == order[n];
    }
  }

  // ---------- taking one out, putting one at the end ----------

  function SetNext(b: seq<Frame>, i: int, v: int): seq<Frame>
    requires 0 <= i < |b|
  {
    b[i := b[i].(next := v)]
  }

  function SetPrev(b: seq<Frame>, i: int, v: int): seq<Frame>
    requires 0 <= i < |b|
  {
    b[i := b[i].(prev := v)]
  }

  lemma UnlinkFirst(b: seq<Frame>, order: seq<nat>)
    requires Linked(b, order, -1) && |order| > 1
    ensures var t := order[0];
            && t < |b| && 0 <= b[t].next < |b| && b[t].next == order[1]
            && Linked(SetPrev(b, b[t].next, b[t].next), Without(order, 0), t)
  {
    assert Link(b, order, 0) && Link(b, order, 1);
    WithoutDistinct(order, 0);
    var n, w := order[1], Without(order, 0);
    var c := SetPrev(b, n, n);
    forall k | 0 <= k < |w|
      ensures Link(c, w, k)
    {
      assert Link(b, order, k + 1);
      if w[k] == n {
        Once(order, k + 1, 1);
      }
    }
    forall i | 0 <= i < |c| && i !in w && i != order[0]
      ensures Off(c, i)
    {
      assert Off(b, i);
    }
  }

  lemma UnlinkMiddle(b: seq<Frame>, order: seq<nat>, k: nat)
    requires Linked(b, order, -1) && 0 < k < |order| - 1
    ensures var t := order[k];
            && t < |b| && b[t].next == order[k + 1] && b[t].prev == order[k - 1] && order[k + 1] < |b| && order[k - 1] < |b|
            && Linked(SetNext(SetPrev(b, b[t].next, b[t].prev), b[t].prev, b[t].next), Without(order, k), t)
  {
    assert Link(b, order, k) && Link(b, order, k - 1) && Link(b, order, k + 1);
    WithoutDistinct(order, k);
    var n, p, w := order[k + 1], order[k - 1], Without(order, k);
    var c := SetNext(SetPrev(b, n, p), p, n);
    forall m | 0 <= m < |w|
      ensures Link(c, w, m)
    {
      var o := if m < k then m else m + 1;
      assert Link(b, order, o);
      if w[m] == n {
        Once(order, o, k + 1);
      }
      if w[m] == p {
        Once(order, o, k - 1);
      }
    }
    forall i | 0 <= i < |c| && i !in w && i != order[k]
      ensures Off(c, i)
    {
      assert Off(b, i);
    }
  }

  lemma AppendKeeps(b: seq<Frame>, order: seq<nat>, t: nat)
    requires Linked(b, order, t) && order != [] && t < |b| && t !in order
    ensures var last := order[|order| - 1]; last < |b| && Linked(SetPrev(SetNext(SetNext(b, last, t), t, t), t, last), order + [t], -1)
  {
    var z := |order| - 1;
    assert Link(b, order, z);
    var last, more := order[z], order + [t];
    var c := SetPrev(SetNext(SetNext(b, last, t), t, t), t, last);
    forall j, k | 0 <= j < k < |more|
      ensures more[j] != more[k]
    {
      assert k < |order| ==> order[j] != order[k];
    }
    forall k | 0 <= k < |more|
      ensures Link(c, more, k)
    {
      if k < |order| {
        assert Link(b, order, k);
        if order[k] == last {
          Once(order, k, z);
        }
      }
    }
    forall i | 0 <= i < |c| && i !in more
      ensures Off(c, i)
    {
      assert i != last by {
        assert more[z] == last;
      }
      assert i != t by {
        assert more[z + 1] == t;
      }
      assert i !in order by {
        assert forall m :: 0 <= m < |order| ==> more[m] == order[m];
      }
      assert Off(b, i);
    }
  }

  lemma FirstKeeps(b: seq<Frame>, t: nat)
    requires Linked(b, [], -1) && t < |b|
    ensures Linked(SetPrev(SetNext(b, t, t), t, t), [t], -1)
  {
    var c := SetPrev(SetNext(b, t, t), t, t);
    assert Link(c, [t], 0);
    forall i | 0 <= i < |c| && i !in [t]
      ensures Off(c, i)
    {
      assert Off(b, i);
    }
  }

  // ---------- the ends ----------

  // Only the last one is its own next, only the first one its own predecessor.
  lemma Ends(b: seq<Frame>, order: seq<nat>, i: nat)
    requires Linked(b, order, -1) && i < |b|
    ensures b[i].next == i <==> order != [] && i == order[|order| - 1]
    ensures b[i].prev == i <==> order != [] && i == order[0]
    ensures b[i].next == -1 && b[i].prev == -1 <==> i !in order
  {
    if i in order {
      var k :| 0 <= k < |order| && order[k] == i;
      assert Link(b, order, k);
      assert k < |order| - 1 ==> order[k] != order[|order| - 1] && order[k] != order[k + 1];
      assert k > 0 ==> order[0] != order[k] && order[k - 1] != order[k];
    } else {
      assert Off(b, i);
    }
  }

  // Following next from the first buffer, n times.
  function Walk(b: seq<Frame>, i: int, n: nat): int {
    if n == 0 then i else
      var j := Walk(b, i, n - 1);
      if 0 <= j < |b| then b[j].next else j
  }

  lemma {:induction false} WalkIsOrder(b: seq<Frame>, order: seq<nat>, n: nat)
    requires Linked(b, order, -1) && order != []
    ensures Walk(b, order[0], n) == order[if n < |order| then n else |order| - 1]
  {
    if n > 0 {
      WalkIsOrder(b, order, n - 1);
      assert Link(b, order, if n - 1 < |order| then n - 1 else |order| - 1);
    }
  }

  predicate Loose(b: seq<Frame>, i: int) {
    0 <= i < |b| && b[i].pinned == 0
  }

  // The search for a buffer to give up comes to an end if and only if some buffer is not pinned.
  lemma SearchEndsExactly(b: seq<Frame>, order: seq<nat>)
    requires Linked(b, order, -1) && order != []
    ensures (exists n: nat :: Loose(b, Walk(b, order[0], n))) <==> (exists k: nat :: k < |order| && Loose(b, order[k]))
  {
    if n: nat :| Loose(b, Walk(b, order[0], n)) {
      WalkIsOrder(b, order, n);
      var k: nat := if n < |order| then n else |order| - 1;
      assert Loose(b, order[k]);
    }
    if k: nat :| k < |order| && Loose(b, order[k]) {
      WalkIsOrder(b, order, k);
    }
  }

  // ---------- the order is that of the last uses ----------

  // Buffer i is now the most recent one, and the others follow one another as before.
  ghost predicate Recent(was: seq<nat>, now: seq<nat>, i: nat) {
    exists k :: At(was, k, i) && now == Touched(was, k, i)
  }

  lemma Place(order: seq<nat>, t: nat) returns (k: nat)
    ensures At(order, k, t)
  {
    if t in order {
      k :| 0 <= k < |order| && order[k] == t;
    } else {
      k := |order|;
    }
  }

  lemma StillThere(order: seq<nat>, k: nat, t: nat, j: nat)
    requires At(order, k, t) && Distinct(order)
    ensures j in Touched(order, k, t) <==> j == t || j in order
  {
    var now := Touched(order, k, t);
    assert now[|now| - 1] == t;
    if k < |order| {
      WithoutDistinct(order, k);
      assert j in now <==> j in Without(order, k) || j == t;
    } else {
      assert j in now <==> j in order || j == t;
    }
  }

  // The list after these uses, the latest one last.
  ghost predicate Follows(trace: seq<nat>, order: seq<nat>) {
    var n := |trace| - 1;
    if n < 0 then order == [] else exists was :: Follows(trace[..n], was) && Recent(was, order, trace[n])
  }

  predicate Earlier(trace: seq<nat>, order: seq<nat>, p: int, q: int)
    requires 0 <= p < q < |order|
  {
    LastIndex(trace, order[p]) < LastIndex(trace, order[q]) < |trace|
  }

  // The step before the last one.
  lemma LastStep(trace: seq<nat>, order: seq<nat>) returns (was: seq<nat>, k: nat)
    requires Follows(trace, order) && trace != []
    ensures var n := |trace| - 1; Follows(trace[..n], was) && At(was, k, trace[n]) && order == Touched(was, k, trace[n])
  {
    var n := |trace| - 1;
    was :| Follows(trace[..n], was) && Recent(was, order, trace[n]);
    k :| At(was, k, trace[n]) && order == Touched(was, k, trace[n]);
  }

  lemma InFront(trace: seq<nat>, i: nat)
    requires trace != []
    ensures i in trace <==> i == trace[|trace| - 1] || i in trace[..|trace| - 1]
  {
    assert trace == trace[..|trace| - 1] + [trace[|trace| - 1]];
  }

  lemma {:induction false} EachUsedOnce(trace: seq<nat>, order: seq<nat>)
    requires Follows(trace, order)
    ensures Distinct(order) && (forall i :: i in order <==> i in trace)
    decreases |trace|
  {
    var n := |trace| - 1;
    if n >= 0 {
      var was, k := LastStep(trace, order);
      EachUsedOnce(trace[..n], was);
      TouchedDistinct(was, k, trace[n]);
      forall i: nat
        ensures i in order <==> i in trace
      {
        StillThere(was, k, trace[n], i);
        InFront(trace, i);
      }
    }
  }

  lemma {:induction false} OrderIsLastUse(trace: seq<nat>, order: seq<nat>)
    requires Follows(trace, order)
    ensures forall p, q {:trigger Earlier(trace, order, p, q)} :: 0 <= p < q < |order| ==> Earlier(trace, order, p, q)
    decreases |trace|
  {
    var n := |trace| - 1;
    if n >= 0 {
      var was, k := LastStep(trace, order);
      OrderIsLastUse(trace[..n], was);
      EachUsedOnce(trace, order);
      forall p, q | 0 <= p < q < |order|
        ensures Earlier(trace, order, p, q)
      {
        TouchedEarlier(trace, was, k, order, p, q);
      }
    }
  }

  lemma TouchedEarlier(trace: seq<nat>, was: seq<nat>, k: nat, order: seq<nat>, p: nat, q: nat)
    requires trace != [] && var t := trace[|trace| - 1]; At(was, k, t) && order == Touched(was, k, t) && Distinct(order)
    requires forall p, q {:trigger Earlier(trace[..|trace| - 1], was, p, q)} :: 0 <= p < q < |was| ==> Earlier(trace[..|trace| - 1], was, p, q)
    requires p < q < |order|
    ensures Earlier(trace, order, p, q)
  {
    var n := |trace| - 1;
    assert order[p] != order[|order| - 1];
    LastIndexAt(trace[..n], order[p]);
    if q < |order| - 1 {
      assert order[q] != order[|order| - 1];
      LastIndexAt(trace[..n], order[q]);
      assert Earlier(trace[..n], was, if p < k then p else p + 1, if q < k then q else q + 1);
    }
  }

  lemma TouchedDistinct(order: seq<nat>, k: nat, t: nat)
    requires At(order, k, t) && Distinct(order)
    ensures Distinct(Touched(order, k, t))
  {
    if k < |order| {
      WithoutDistinct(order, k);
    }
    var w := if k < |order| then Without(order, k) else order;
    forall i, j | 0 <= i < j < |w| + 1
      ensures (w + [t])[i] != (w + [t])[j]
    {
      assert j < |w| ==> w[i] != w[j];
    }
  }
}
