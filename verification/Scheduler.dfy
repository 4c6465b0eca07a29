/** The scheduler's accounting in proc.c, each piece of code under the process table's lock as a
    step of the stride schedule.  The processors share all of it but the count of idle rounds. */
module Scheduler {
  import opened MinHeap
  import opened Stride
  import opened Levels

  // The slots whose level is that of the heap.
  ghost predicate HeapLevels(level: seq<int>, stride: set<nat>) {
    forall p: nat :: p in stride <==> p < |level| && level[p] == -1
  }

  lemma LevelTaken(level: seq<int>, stride: set<nat>, p: nat, r: nat)
    requires HeapLevels(level, stride) && p < |level| && r < |level| && r !in stride
    ensures HeapLevels(level[r := level[p]], if p in stride then stride + {r} else stride) && (p in stride <==> level[p] == -1)
  {
  }

  // A process of the heap is back: its ticks are counted, and its processor is free.
  function Returned(s: State, c: nat): State
    requires FromStride(s, c)
  {
    var p := s.modes[c].p;
    s.(ticks := s.ticks[p := s.ticks[p] + 1], modes := s.modes[c := Looking])
  }

  lemma StrideBackIs(s: State, c: nat, again: bool, took: bool, now: int, t: State)
    requires FromStride(s, c) && (s.modes[c].done ==> !again) && t == Returned(s, c).(heap := t.heap)
    requires again ==> s.tickets[s.modes[c].p] > 0 && now == NextPass(s.modes[c].minpv, s.tickets[s.modes[c].p], Elapsed(s, c))
    requires again ==> Inserted(s.heap, Node(s.modes[c].p, now), took, t.heap)
    requires !again ==> t.heap == s.heap
    ensures EndsStride(s, c, again, took, t)
  {
  }

  // A process of the queues is back: they have paid for it.
  function Charged(s: State, c: nat, spent: bool): State
    requires FromMlfq(s, c) && s.sum < 100
  {
    var p := s.modes[c].p;
    s.(mlfqpv := s.mlfqpv + Elapsed(s, c) * MlfqStride(s.sum), modes := s.modes[c := Looking],
       ticks := s.ticks[p := if spent then 0 else s.ticks[p] + 1])
  }

  lemma MlfqBackIs(s: State, c: nat, again: bool, took: bool, spent: bool, t: State)
    requires FromMlfq(s, c) && s.sum < 100 && (spent ==> s.modes[c].p !in s.share) && t == Charged(s, c, spent).(heap := t.heap)
    requires again ==> Comes(Charged(s, c, spent), t.mlfqpv, s.modes[c].p, took, t.heap)
    requires !again ==> t.heap == s.heap
    ensures EndsMlfq(s, c, again, took, spent, t)
  {
  }

  class Scheduler {
    const heap: Heap
    var mlfqpv: int
    var sumtickets: int
    // By processor.
    var mlfqpvadd: seq<nat>
    // By slot.
    var tickets: seq<nat>
    var ticks: seq<int>
    var level: seq<int>
    var unused: set<nat>
    ghost var stride: set<nat>
    ghost var modes: seq<Mode>
    ghost var faulted: bool

    ghost predicate Valid()
      reads this, heap, heap.strheap
    {
      && heap.Valid() && |tickets| == |ticks| == |level| && |mlfqpvadd| == |modes|
      && (forall x :: x in heap.Nodes() ==> 0 <= x.idx < |tickets|)
      && HeapLevels(level, stride) && forall p :: p in unused ==> p < |level| && p !in stride
    }

    ghost function Now(): State
      requires Valid()
      reads this, heap, heap.strheap
    {
      State(mlfqpv, heap.Nodes(), modes, tickets, ticks, stride, unused, sumtickets, mlfqpvadd, faulted)
    }

    // Where a process is in the queues.
    function PlaceOf(p: nat): Place
      requires p < |level| && p < |ticks|
      reads this`level, this`ticks
    {
      Place(level[p], ticks[p])
    }

    constructor (processes: nat, processors: nat)
      ensures Valid() && fresh(heap) && fresh(heap.strheap) && Inv(Now()) && !faulted
      ensures |tickets| == processes && modes == seq(processors, _ => Looking)
      ensures mlfqpv == 0 && sumtickets == 0 && |mlfqpvadd| == processors && forall c :: 0 <= c < processors ==> mlfqpvadd[c] == 0
      ensures forall p: nat :: p < processes ==> p in unused && tickets[p] == 0 && PlaceOf(p) == Levels.After([])
    {
      heap := new Heap();
      mlfqpv, sumtickets := 0, 0;
      mlfqpvadd, tickets, ticks := seq(processors, _ => 0), Nothing(processes), seq(processes, _ => 0);
      level, unused, stride := seq(processes, _ => HLEVEL), SlotsBelow(processes), {};
      modes, faulted := seq(processors, _ => Looking), false;
      new;
      StartInv(processes, processors);
      assert Now() == Start(processes, processors);
    }

    // Whose turn it is, by the heap's least pass value.
    method MlfqsTurn() returns (turn: bool, minpv: int)
      requires Valid()
      ensures Top(heap.Nodes(), minpv) && (turn <==> mlfqpv < minpv || minpv == -1)
    {
      minpv := heap.GetPvHeap();
      turn := mlfqpv < minpv || minpv == -1;
    }

    method NoProcess(c: nat, ghost minpv: int)
      requires Valid() && Looks(Now(), c) && Top(heap.Nodes(), minpv) && (mlfqpv < minpv || minpv == -1) && sumtickets < 100
      modifies this
      ensures Valid() && Idles(old(Now()), c, Now()) && level == old(level)
      ensures mlfqpv == old(mlfqpv) + if old(mlfqpvadd[c]) + 1 >= 100 then 10000 / (100 - sumtickets) else 0
    {
      mlfqpvadd := mlfqpvadd[c := mlfqpvadd[c] + 1];
      if mlfqpvadd[c] >= 100 {
        var mlfqtickets := 100 - sumtickets;
        mlfqpv := mlfqpv + BIGNUM / mlfqtickets;
        mlfqpvadd := mlfqpvadd[c := 0];
      }
    }

    // A process that was first in the queues is run.
    method MlfqTakes(c: nat, p: nat, ghost minpv: int) returns (beforeproctick: int)
      requires Valid() && Looks(Now(), c) && Top(heap.Nodes(), minpv) && (mlfqpv < minpv || minpv == -1)
      requires p < |tickets| && p !in unused
      modifies this
      ensures Valid() && StartsMlfq(old(Now()), c, p, Now()) && modes[c] == InMlfq(p, beforeproctick)
      ensures level == old(level)
    {
      beforeproctick := ticks[p];
      modes := modes[c := InMlfq(p, beforeproctick)];
    }

    method Enter(p: nat, passval: int) returns (took: bool)
      requires Valid() && p < |tickets|
      modifies heap, heap.strheap
      ensures Valid() && took == !old(heap.Refused(p)) && Inserted(old(heap.Nodes()), Node(p, passval), took, heap.Nodes())
    {
      var r := heap.HeapInsert(p, passval);
      took := r != -1;
    }

    // The pass value with which a process comes into the heap.
    method EntryPass() returns (passval: int)
      requires Valid()
      ensures Entry(mlfqpv, heap.Nodes(), passval)
      ensures (forall x :: x in heap.Nodes() ==> x.pass >= 0) ==>
                passval <= mlfqpv && (forall x :: x in heap.Nodes() ==> passval <= x.pass)
                && (passval == mlfqpv || exists x :: x in heap.Nodes() && x.pass == passval)
    {
      passval := heap.GetPvHeap();
      assert Top(heap.Nodes(), passval);
      if mlfqpv < passval || passval == -1 {
        passval := mlfqpv;
      }
    }

    // Into the heap, if that is where the process belongs.
    method Come(p: nat) returns (took: bool)
      requires Valid() && p < |tickets|
      modifies heap, heap.strheap
      ensures Valid() && Comes(old(Now()), mlfqpv, p, took, heap.Nodes()) && Now() == old(Now()).(heap := heap.Nodes())
    {
      took := true;
      if level[p] == -1 {
        var passval := EntryPass();
        took := Enter(p, passval);
      }
    }

    // A process that has used up its allotment goes a level down, with its ticks at zero.
    method Demote(p: nat) returns (spent: bool)
      requires Valid() && p < |tickets|
      modifies this`ticks, this`level
      ensures Valid() && (spent ==> p !in stride)
      ensures ticks == if spent then old(ticks)[p := 0] else old(ticks)
      ensures spent <==>
                || (old(level[p]) == HLEVEL && (old(ticks[p]) < 0 || old(ticks[p]) >= 20))
                || (old(level[p]) == MLEVEL && (old(ticks[p]) < 0 || old(ticks[p]) >= 40))
      ensures level == if spent then old(level)[p := old(level[p]) + 1] else old(level)
    {
      spent := false;
      if level[p] == HLEVEL && AtLeast(ticks[p], HALLOT) {
        ticks, level, spent := ticks[p := 0], level[p := MLEVEL], true;
      } else if level[p] == MLEVEL && AtLeast(ticks[p], MALLOT) {
        ticks, level, spent := ticks[p := 0], level[p := LLEVEL], true;
      }
    }

    // The ticks of a process that is back, its last one included, and the processor free again.
    method Leaves(c: nat, p: nat)
      requires Valid() && c < |modes| && p < |tickets|
      modifies this`ticks, this`modes
      ensures Valid() && Now() == old(Now()).(ticks := old(ticks)[p := old(ticks[p]) + 1], modes := old(modes)[c := Looking])
    {
      ticks := ticks[p := ticks[p] + 1];
      modes := modes[c := Looking];
    }

    // What a process of the queues has to pay, and its level after that.
    method Charge(c: nat, p: nat, beforeproctick: int) returns (spent: bool)
      requires Valid() && c < |modes| && modes[c] == InMlfq(p, beforeproctick) && p < |tickets| && sumtickets < 100
      modifies this
      ensures Valid() && (spent ==> p !in stride) && Now() == Charged(old(Now()), c, spent)
      ensures mlfqpv == old(mlfqpv) + (old(ticks[p]) + 1 - beforeproctick) * (10000 / (100 - sumtickets))
      ensures level == old(level)[p := level[p]] && PlaceOf(p) == Levels.Next(old(PlaceOf(p)), Back)
    {
      Leaves(c, p);
      Pay(ticks[p] - beforeproctick);
      spent := Demote(p);
    }

    // So many ticks of the queues.
    method Pay(used: int)
      requires Valid() && sumtickets < 100
      modifies this`mlfqpv
      ensures Valid() && Now() == old(Now()).(mlfqpv := mlfqpv)
      ensures mlfqpv == old(mlfqpv) + used * MlfqStride(sumtickets) && mlfqpv == old(mlfqpv) + used * (10000 / (100 - sumtickets))
    {
      var mlfqtickets := 100 - sumtickets;
      mlfqpv := mlfqpv + used * (BIGNUM / mlfqtickets);
    }

    // A process from the queues is back; what it has to pay is measured by its ticks, whatever has
    // become of them in the meantime.
    method MlfqBack(c: nat, p: nat, beforeproctick: int, again: bool) returns (took: bool, spent: bool)
      requires Valid() && c < |modes| && modes[c] == InMlfq(p, beforeproctick) && p < |tickets| && sumtickets < 100
      modifies this, heap, heap.strheap
      ensures Valid() && EndsMlfq(old(Now()), c, again, took, spent, Now())
      ensures level == old(level)[p := level[p]] && PlaceOf(p) == Levels.Next(old(PlaceOf(p)), Back)
    {
      took := true;
      spent := Charge(c, p, beforeproctick);
      if again {
        took := Come(p);
      }
      MlfqBackIs(old(Now()), c, again, took, spent, Now());
    }

    method Pop() returns (p: nat, ghost minpv: int)
      requires Valid() && heap.Nodes() != multiset{}
      modifies heap, heap.strheap
      ensures Valid() && Top(old(heap.Nodes()), minpv) && Node(p, minpv) in old(heap.Nodes()) && p < |tickets|
      ensures heap.Nodes() == old(heap.Nodes()) - multiset{Node(p, minpv)}
    {
      minpv := heap.GetPvHeap();
      ghost var root := heap.strheap[1];
      p := heap.HeapDelete();
      assert root == Node(p, minpv);
    }

    // The process with the least pass value runs, if its slot has a thread to run.
    method StrideTakes(c: nat, able: set<nat>) returns (p: nat, ghost minpv: int, beforeproctick: int)
      requires Valid() && Looks(Now(), c) && StrideTurn(Now())
      modifies this, heap, heap.strheap
      ensures Valid() && p < |tickets|
      ensures if p in able && p !in unused
              then StartsStride(old(Now()), c, p, minpv, Now()) && modes[c] == InStride(p, beforeproctick, minpv, false)
              else Drops(old(Now()), c, p, minpv, Now())
      ensures level == old(level)
    {
      p, minpv := Pop();
      beforeproctick := ticks[p];
      if p in able && p !in unused {
        modes := modes[c := InStride(p, beforeproctick, minpv, false)];
      }
    }

    // The processor is free; the process comes into the heap again, if it goes on.
    method StrideReturns(c: nat, p: nat, now: int, again: bool) returns (took: bool)
      requires Valid() && c < |modes| && p < |tickets| && modes[c].InStride? && modes[c].p == p
      modifies this`ticks, this`modes, heap, heap.strheap
      ensures Valid() && Now() == Returned(old(Now()), c).(heap := heap.Nodes())
      ensures again ==> Inserted(old(heap.Nodes()), Node(p, now), took, heap.Nodes())
      ensures !again ==> heap.Nodes() == old(heap.Nodes())
    {
      took := true;
      Leaves(c, p);
      if again {
        took := Enter(p, now);
      }
    }

    // The division by zero.
    method Trap(c: nat, p: nat) returns (took: bool)
      requires Valid() && c < |modes| && modes[c].InStride? && !modes[c].done && modes[c].p == p && p < |tickets| && tickets[p] == 0
      modifies this`ticks, this`faulted
      ensures Valid() && EndsStride(old(Now()), c, true, took, Now()) && faulted
    {
      ticks := ticks[p := ticks[p] + 1];
      faulted := true;
      took := false;
    }

    // A process from the heap is back; minpv is the pass value it had.  The division by its tickets
    // may be one by zero.
    method StrideBack(c: nat, p: nat, beforeproctick: int, minpv: int, again: bool) returns (took: bool)
      requires Valid() && !faulted && c < |modes| && modes[c].InStride? && (modes[c].done ==> !again) && p < |tickets|
      requires modes[c].p == p && modes[c].before == beforeproctick && modes[c].minpv == minpv
      modifies this`ticks, this`modes, this`faulted, heap, heap.strheap
      ensures Valid() && EndsStride(old(Now()), c, again, took, Now())
      ensures faulted <==> again && tickets[p] == 0
      ensures again && took && !faulted ==>
                Node(p, minpv + 10000 / tickets[p] * (old(ticks[p]) + 1 - beforeproctick)) in heap.Nodes()
    {
      if again && tickets[p] == 0 {
        took := Trap(c, p);
      } else {
        var now := if again then NextPass(minpv, tickets[p], ticks[p] + 1 - beforeproctick) else minpv;
        took := StrideReturns(c, p, now, again);
        StrideBackIs(old(Now()), c, again, took, now, Now());
      }
    }

    // A slot whose level is that of a new process, with its ticks at zero or not.
    method ToQueues(p: nat, anew: bool)
      requires Valid() && p < |tickets|
      modifies this`ticks, this`level, this`stride
      ensures Valid() && Now() == old(Now()).(share := old(stride) - {p}, ticks := if anew then old(ticks)[p := 0] else old(ticks))
      ensures level == old(level)[p := HLEVEL]
    {
      level := level[p := HLEVEL];
      stride := stride - {p};
      if anew {
        ticks := ticks[p := 0];
      }
    }

    // A process is runnable again, woken up by the clock or not; kill does the same as the clock.
    method Wakeup(p: nat, clock: bool) returns (took: bool)
      requires Valid() && p < |tickets|
      modifies this`ticks, this`level, this`stride, heap, heap.strheap
      ensures Valid() && Wakes(old(Now()), p, took, clock, Now())
      ensures level == if clock && old(level[p]) != -1 then old(level)[p := HLEVEL] else old(level)
      ensures clock && old(level[p]) != -1 ==> PlaceOf(p) == Levels.Next(old(PlaceOf(p)), Afresh)
    {
      took := true;
      if level[p] != -1 {
        if clock {
          ToQueues(p, true);
          assert stride == old(stride);
        }
      } else {
        took := Come(p);
      }
    }

    method SetCpuShare(p: nat, req: int) returns (r: int)
      requires Valid() && p < |tickets| && p !in unused
      modifies this
      ensures Valid() && Shares(old(Now()), p, req, Now())
      ensures level == if r == 0 then old(level)[p := -1] else old(level)
      ensures if r == 0 then req > 0 && tickets == old(tickets)[p := req] else tickets == old(tickets)
      ensures sumtickets == if r == 0 then old(sumtickets) + req - old(tickets[p]) else old(sumtickets)
      ensures r == if req <= 0 || old(sumtickets) + req - old(tickets[p]) > 80 then -1 else 0
    {
      if req <= 0 {
        return -1;
      }
      var sum := sumtickets + req - tickets[p];
      if sum > 80 {
        return -1;
      }
      level := level[p := -1];
      stride := stride + {p};
      tickets := tickets[p := req];
      sumtickets := sum;
      r := 0;
    }

    // cleared: another thread than the first exits, and the slot of the first is freed.
    method ReleaseTickets(p: nat, cleared: bool, ghost back: bool)
      requires Valid() && p < |tickets| && p !in unused
      modifies this
      ensures Valid() && Exits(old(Now()), p, back, cleared, Now())
      ensures tickets == old(tickets)[p := 0] && sumtickets == old(sumtickets) - old(tickets[p]) && heap.Nodes() == old(heap.Nodes())
      ensures level == old(level)[p := HLEVEL]
    {
      sumtickets := sumtickets - tickets[p];
      tickets := tickets[p := 0];
      ToQueues(p, cleared);
      LeaveSlot(p, back);
    }

    // The slot is free; processors that run its process keep it.
    method LeaveSlot(p: nat, ghost back: bool)
      requires Valid() && p < |tickets| && p !in stride
      modifies this`unused, this`modes
      ensures Valid() && Now() == old(Now()).(unused := old(unused) + {p}, modes := AllLeft(old(modes), p, back))
    {
      unused := unused + {p};
      modes := AllLeft(modes, p, back);
    }

    // A slot for a new process, or for a thread.
    method TakeSlot(p: nat, process: bool)
      requires Valid() && p in unused
      modifies this
      ensures Valid() && Takes(old(Now()), p, process, Now())
      ensures level == if process then old(level)[p := HLEVEL] else old(level)
      ensures process ==> PlaceOf(p) == Levels.After([])
    {
      unused := unused - {p};
      if process {
        ToQueues(p, true);
        assert stride == old(stride);
      }
      modes := AllRetaken(modes, p);
    }

    // A thread that calls exec takes level, ticks and tickets over from the first thread.
    method MoveTo(p: nat, r: nat, ghost back: bool)
      requires Valid() && p < |tickets| && r < |tickets| && p != r && p !in unused && r !in unused
      requires level[r] != -1 && tickets[r] == 0
      modifies this
      ensures Valid() && Moves(old(Now()), p, r, back, Now())
      ensures level == old(level)[r := old(level[p])][p := HLEVEL] && ticks == old(ticks)[r := old(ticks[p])][p := 0]
      ensures tickets == old(tickets)[p := 0][r := old(tickets[p])] && sumtickets == old(sumtickets)
    {
      TakeOver(p, r);
      ToQueues(p, true);
      assert stride == if p in old(stride) then old(stride) - {p} + {r} else old(stride);
      LeaveSlot(p, back);
    }

    method TakeOver(p: nat, r: nat)
      requires Valid() && p < |tickets| && r < |tickets| && p != r && r !in unused && r !in stride
      modifies this`level, this`stride, this`ticks, this`tickets
      ensures Valid() && Now() == old(Now()).(share := if p in old(stride) then old(stride) + {r} else old(stride),
                                              ticks := old(ticks)[r := old(ticks[p])],
                                              tickets := old(tickets)[p := 0][r := old(tickets[p])])
      ensures level == old(level)[r := old(level[p])]
    {
      LevelTaken(level, stride, p, r);
      stride := if level[p] == -1 then stride + {r} else stride;
      level := level[r := level[p]];
      ticks := ticks[r := ticks[p]];
      var own := tickets[p];
      tickets := tickets[p := 0][r := own];
    }

    // The timer's interrupt, counting a tick or taking one back before it yields.
    method AddTick(p: nat, up: bool)
      requires Valid() && p < |tickets|
      modifies this`ticks
      ensures Valid() && Counts(old(Now()), p, up, Now())
      ensures PlaceOf(p) == Levels.Next(old(PlaceOf(p)), Change.Tick(up))
    {
      ticks := ticks[p := ticks[p] + if up then 1 else -1];
    }

    // What priorityboost does with each process that it finds in a lower queue.
    method Boost(p: nat)
      requires Valid() && p < |tickets| && p !in unused
      modifies this`ticks, this`level, this`stride
      ensures Valid() && Boosts(old(Now()), p, Now())
      ensures level == old(level)[p := HLEVEL] && PlaceOf(p) == Levels.Next(old(PlaceOf(p)), Afresh)
    {
      ToQueues(p, true);
    }
  }

  function Nothing(n: nat): (s: seq<nat>)
    ensures |s| == n && forall p :: 0 <= p < n ==> s[p] == 0
  {
    if n == 0 then [] else Nothing(n - 1) + [0]
  }

  function SlotsBelow(n: nat): (s: set<nat>)
    ensures forall p :: p in s <==> 0 <= p < n
  {
    if n == 0 then {} else SlotsBelow(n - 1) + {n - 1}
  }

  function Start(processes: nat, processors: nat): State {
    State(0, multiset{}, seq(processors, _ => Looking), Nothing(processes), seq(processes, _ => 0), {}, SlotsBelow(processes), 0,
          seq(processors, _ => 0), false)
  }

  lemma StartInv(processes: nat, processors: nat)
    ensures Inv(Start(processes, processors))
  {
    NothingSum(processes);
  }

  lemma {:induction false} NothingSum(n: nat)
    ensures Sum(Nothing(n)) == 0
  {
    if n > 0 {
      NothingSum(n - 1);
      assert Nothing(n)[..n - 1] == Nothing(n - 1);
    }
  }
}
