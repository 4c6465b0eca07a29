/** The waiting queue and the semaphore of xem.c.  The queue is an array used as a
    ring: the elements lie after head, up to and including tail. */
module WaitQueue {

  const NTHREAD := 15
  const CAP := NTHREAD + 1

  type Ring = a: seq<int> | |a| == CAP witness seq(CAP, _ => -1)
  type Place = i: int | 0 <= i < CAP

  function Next(i: int): Place {
    (i + 1) % CAP
  }

  function Length(head: Place, tail: Place): nat {
    if head <= tail then tail - head else tail + CAP - head
  }

  // Where the k-th element after head lies.
  function After(head: Place, k: nat): Place
    requires k < CAP
  {
    if head + 1 + k < CAP then head + 1 + k else head + 1 + k - CAP
  }

  // The queued elements, first in first.
  function Queued(a: Ring, head: Place, tail: Place): (q: seq<int>)
    ensures |q| == Length(head, tail)
  {
    seq(Length(head, tail), k requires 0 <= k < Length(head, tail) => a[After(head, k)])
  }

  // Process numbers are not negative; places outside the queue hold -1.
  ghost predicate Proper(a: Ring, head: Place, tail: Place) {
    && (forall k :: Length(head, tail) <= k < CAP ==> a[After(head, k)] == -1)
    && (forall k :: 0 <= k < Length(head, tail) ==> a[After(head, k)] >= 0)
  }

  // What the duplicate scan compares with: it starts at head + 1 without wrapping,
  // so at the last place it first reads the word behind the array, here `beyond`,
  // and passes over the first element unless that is also the last.
  function Scanned(q: seq<int>, head: Place, beyond: int): seq<int>
    requires q != []
  {
    if head < NTHREAD then q
    else if |q| == 1 then [beyond] + q
    else [beyond] + q[1..]
  }

  // Whether wq_enqueue takes idx.
  predicate Takes(q: seq<int>, head: Place, beyond: int, idx: int) {
    |q| < NTHREAD && (q != [] ==> idx !in Scanned(q, head, beyond))
  }

  class WQueue {
    const arr: array<int>
    var head: Place
    var tail: Place

    ghost predicate Valid()
      reads this, arr
    {
      arr.Length == CAP && Proper(arr[..], head, tail)
    }

    ghost function Contents(): seq<int>
      requires arr.Length == CAP
      reads this, arr
    {
      Queued(arr[..], head, tail)
    }

    constructor ()
      ensures Valid() && Contents() == [] && head == 0 && fresh(arr)
    {
      arr := new int[CAP](_ => -1);
      head, tail := 0, 0;
    }

    method IsEmpty() returns (b: bool)
      requires Valid()
      ensures b <==> Contents() == []
    {
      b := head == tail;
    }

    method IsFull() returns (b: bool)
      requires Valid()
      ensures b <==> |Contents()| == NTHREAD
    {
      b := head == Next(tail);
    }

    method Scan(idx: int, beyond: int) returns (found: bool)
      requires Valid() && idx >= 0 && Contents() != []
      ensures found <==> idx in Scanned(Contents(), head, beyond)
    {
      var i := head + 1;
      ghost var k := 0;
      while i != tail
        invariant 0 <= k <= Steps(head, tail) && i == Reading(head, k)
        invariant forall j :: 0 <= j < k ==> Read(arr[..], beyond, Reading(head, j)) != idx
        decreases Steps(head, tail) - k
      {
        LastReading(head, tail, k);
        assert Read(arr[..], beyond, i) == if i == CAP then beyond else arr[i];
        if (if i == CAP then beyond else arr[i]) == idx {
          Found(arr[..], head, tail, beyond, idx, k);
          return true;
        }
        i := Next(i);
        k := k + 1;
      }
      LastReading(head, tail, k);
      ReadAll(arr[..], head, tail, beyond, idx);
      found := arr[i] == idx;
    }

    method Enqueue(idx: int, beyond: int) returns (r: int)
      requires Valid() && idx >= 0
      modifies this`tail, arr
      ensures Valid()
      ensures r == idx <==> Takes(old(Contents()), head, beyond, idx)
      ensures r != idx ==> r == -1 && Contents() == old(Contents())
      ensures r == idx ==> Contents() == old(Contents()) + [idx]
    {
      if head != tail {
        var found := Scan(idx, beyond);
        if found {
          return -1;
        }
      }
      if head == Next(tail) {
        return -1;
      }
      Put(idx);
      return idx;
    }

    method Put(idx: int)
      requires Valid() && idx >= 0 && |Contents()| < NTHREAD
      modifies this`tail, arr
      ensures Valid() && Contents() == old(Contents()) + [idx]
    {
      Extend(arr[..], head, tail, idx);
      tail := Next(tail);
      arr[tail] := idx;
    }

    method Dequeue() returns (retval: int)
      requires Valid()
      modifies this`head, arr
      ensures Valid()
      ensures old(Contents()) == [] ==> retval == -1 && Contents() == [] && head == old(head)
      ensures old(Contents()) != [] ==>
                retval == old(Contents())[0] && Contents() == old(Contents())[1..] && head == Next(old(head))
    {
      if head == tail {
        return -1;
      }
      Shrink(arr[..], head, tail);
      head := Next(head);
      retval := arr[head];
      arr[head] := -1;
    }
  }

  // The scan reads place Reading(head, k) in its k-th round; CAP is the word behind
  // the array.  It leaves the loop after Steps rounds.
  function Reading(head: Place, k: nat): int
    requires k < CAP || (k == CAP && head == NTHREAD)
  {
    if head < NTHREAD then After(head, k)
    else if k == 0 then CAP
    else if k == CAP then 0
    else k
  }

  function Steps(head: Place, tail: Place): nat {
    if head == tail then 0
    else if head < NTHREAD then Length(head, tail) - 1
    else if tail == 0 then CAP
    else tail
  }

  function Read(a: Ring, beyond: int, i: int): int
    requires 0 <= i <= CAP
  {
    if i == CAP then beyond else a[i]
  }

  lemma LastReading(head: Place, tail: Place, k: nat)
    requires head != tail && k <= Steps(head, tail)
    ensures Reading(head, k) == tail <==> k == Steps(head, tail)
    ensures k < Steps(head, tail) ==> Next(Reading(head, k)) == Reading(head, k + 1)
  {
  }

  // A match in the middle of the scan is a match with something scanned.
  lemma Found(a: Ring, head: Place, tail: Place, beyond: int, idx: int, k: nat)
    requires Proper(a, head, tail) && head != tail && idx >= 0
    requires k < Steps(head, tail) && Read(a, beyond, Reading(head, k)) == idx
    ensures idx in Scanned(Queued(a, head, tail), head, beyond)
  {
    var q := Queued(a, head, tail);
    if head < NTHREAD {
      assert q[k] == idx;
    } else if k == 0 {
      assert Scanned(q, head, beyond)[0] == idx;
    } else {
      assert After(head, k) == k;
      assert k < |q| && q[k] == idx;
      assert q[1..][k - 1] == idx;
    }
  }

  // After the loop only the last element is left to compare.
  lemma ReadAll(a: Ring, head: Place, tail: Place, beyond: int, idx: int)
    requires Proper(a, head, tail) && head != tail && idx >= 0
    requires forall j :: 0 <= j < Steps(head, tail) ==> Read(a, beyond, Reading(head, j)) != idx
    ensures idx in Scanned(Queued(a, head, tail), head, beyond) <==> a[tail] == idx
  {
    var q := Queued(a, head, tail);
    var n := |q|;
    assert After(head, n - 1) == tail && q[n - 1] == a[tail];
    if head < NTHREAD {
      forall j | 0 <= j < n - 1
        ensures q[j] != idx
      {
        assert Read(a, beyond, Reading(head, j)) == q[j];
      }
    } else {
      ReadAllLast(a, tail, beyond, idx);
    }
  }

  lemma ReadAllLast(a: Ring, tail: Place, beyond: int, idx: int)
    requires Proper(a, NTHREAD, tail) && NTHREAD != tail && idx >= 0
    requires forall j :: 0 <= j < Steps(NTHREAD, tail) ==> Read(a, beyond, Reading(NTHREAD, j)) != idx
    ensures idx in Scanned(Queued(a, NTHREAD, tail), NTHREAD, beyond) <==> a[tail] == idx
  {
    var q := Queued(a, NTHREAD, tail);
    assert Read(a, beyond, Reading(NTHREAD, 0)) == beyond;
    assert q[tail] == a[tail];
    forall j | 1 <= j < tail
      ensures q[j] != idx
    {
      assert Read(a, beyond, Reading(NTHREAD, j)) == q[j];
    }
    if tail > 0 {
      assert q[1..][tail - 1] == a[tail];
    }
  }

  lemma Extend(a: Ring, head: Place, tail: Place, idx: int)
    requires Proper(a, head, tail) && head != Next(tail) && idx >= 0
    ensures Proper(a[Next(tail) := idx], head, Next(tail))
    ensures Queued(a[Next(tail) := idx], head, Next(tail)) == Queued(a, head, tail) + [idx]
  {
    var n := Length(head, tail);
    assert Length(head, Next(tail)) == n + 1;
    assert forall k :: 0 <= k < CAP ==> (After(head, k) == Next(tail) <==> k == n);
  }

  lemma Shrink(a: Ring, head: Place, tail: Place)
    requires Proper(a, head, tail) && head != tail
    ensures Proper(a[Next(head) := -1], Next(head), tail)
    ensures a[Next(head)] == Queued(a, head, tail)[0]
    ensures Queued(a[Next(head) := -1], Next(head), tail) == Queued(a, head, tail)[1..]
  {
    var n := Length(head, tail);
    assert Length(Next(head), tail) == n - 1;
    assert After(head, 0) == Next(head);
    assert forall k :: 0 <= k < CAP - 1 ==> After(Next(head), k) == After(head, k + 1);
    assert After(Next(head), CAP - 1) == Next(head);
  }

  // The scan sees every duplicate except one at the front while head is the last
  // place, and rejects a newcomer only if the word behind the array happens to be
  // its number while head is the last place.
  lemma ScanExact(q: seq<int>, head: Place, beyond: int, idx: int)
    requires |q| < NTHREAD
    ensures idx in q && Takes(q, head, beyond, idx)
            <==> |q| > 1 && head == NTHREAD && beyond != idx && q[0] == idx && idx !in q[1..]
    ensures idx !in q && !Takes(q, head, beyond, idx) <==> idx !in q && q != [] && head == NTHREAD && beyond == idx
  {
    if q != [] {
      assert q == [q[0]] + q[1..];
    }
  }
}
