/** Shares of the processor: a process that stays with the heap gets ticks in proportion to its tickets. */
module StrideShares {
  import opened MinHeap
  import opened Stride
  import opened StrideRuns

  // Process p is in the system once, with pass value v: run by processor c, or in the heap.
  ghost predicate AloneAt(s: State, p: nat, v: int, c: int) {
    && (forall d :: Heaped(s, d, p) ==> d == c)
    && if Heaped(s, c, p) then s.modes[c].minpv == v && !s.modes[c].done && forall x :: x in s.heap ==> x.idx != p
       else s.heap[Node(p, v)] == 1 && forall x :: x in s.heap && x.idx == p ==> x == Node(p, v)
  }

  predicate Heaped(s: State, c: int, p: nat) {
    RunsHeap(s, c) && s.modes[c].p == p
  }

  ghost predicate Alone(s: State, p: nat, v: int) {
    exists c :: AloneAt(s, p, v, c)
  }

  predicate HasTickets(s: State, p: nat, tickets: nat) {
    p < |s.tickets| && s.tickets[p] == tickets > 0
  }

  // The process goes on, and nobody else brings it in.
  predicate Steady(s: State, e: Event, p: nat) {
    match e
    case EndStride(c, again, took) => Heaped(s, c, p) ==> again && took
    case EndMlfq(c, again, _, _) => FromMlfq(s, c) && s.modes[c].p == p ==> !again
    case Drop(_, x, _) => x != p
    case Wake(x, _, _) => x != p
    case Share(x, _) => x != p
    case Take(x, _) => x != p
    case Exit(x, _, _) => x != p
    case Move(x, y, _) => x != p && y != p
    case _ => true
  }

  function Ticks(s: State, e: Event, p: nat): int {
    if e.EndStride? && FromStride(s, e.c) && s.modes[e.c].p == p then Elapsed(s, e.c) else 0
  }

  lemma SteadyTickets(s: State, e: Event, t: State, p: nat, tickets: nat)
    requires Step(s, e, t) && Steady(s, e, p) && HasTickets(s, p, tickets)
    ensures HasTickets(t, p, tickets)
  {
    SameLengths(s, e, t);
    if !Tables(e) {
      OneOrOther(s, e, t);
    }
  }

  // Where the process is after a step.
  function Place(s: State, e: Event, p: nat, c: int): int {
    match e
    case StartStride(d, x, _) => if x == p then d else c
    case EndStride(d, _, _) => if Heaped(s, d, p) then -1 else c
    case _ => c
  }

  lemma AloneEnters(s: State, e: Event, t: State, p: nat, v: int, c: int)
    requires Step(s, e, t) && Steady(s, e, p) && AloneAt(s, p, v, c) && (e.EndMlfq? || e.Wake?)
    ensures AloneAt(t, p, v, c)
  {
    assert forall d :: Heaped(t, d, p) <==> Heaped(s, d, p);
  }

  lemma AloneBack(s: State, e: Event, t: State, p: nat, v: int, c: int, tickets: nat)
    requires Step(s, e, t) && Steady(s, e, p) && AloneAt(s, p, v, c) && HasTickets(s, p, tickets) && e.EndStride?
    ensures AloneAt(t, p, v + BIGNUM / tickets * Ticks(s, e, p), Place(s, e, p, c))
  {
    if Heaped(s, e.c, p) {
      forall d
        ensures !Heaped(t, d, p)
      {
        assert Heaped(s, d, p) ==> d == c == e.c;
      }
      assert t.heap == s.heap + multiset{Node(p, v + BIGNUM / tickets * Ticks(s, e, p))};
    } else {
      assert forall d :: Heaped(t, d, p) <==> Heaped(s, d, p);
      assert Ticks(s, e, p) == 0;
      assert forall x :: x in t.heap && x.idx == p ==> t.heap[x] == s.heap[x];
    }
  }

  lemma AloneChosen(s: State, e: Event, t: State, p: nat, v: int, c: int)
    requires Step(s, e, t) && AloneAt(s, p, v, c) && e.StartStride? && e.p == p
    ensures AloneAt(t, p, v, e.c)
  {
    assert Node(p, e.minpv) in s.heap && Node(p, e.minpv).idx == p;
    assert forall d :: !Heaped(s, d, p);
    assert Heaped(t, e.c, p) && t.modes[e.c].minpv == e.minpv;
    forall d | Heaped(t, d, p)
      ensures d == e.c
    {
      assert !Heaped(s, d, p);
    }
  }

  lemma AlonePassed(s: State, e: Event, t: State, p: nat, v: int, c: int)
    requires Step(s, e, t) && Steady(s, e, p) && AloneAt(s, p, v, c)
    requires e.Drop? || e.StartMlfq? || (e.StartStride? && e.p != p)
    ensures AloneAt(t, p, v, c)
  {
    assert forall d :: Heaped(t, d, p) <==> Heaped(s, d, p);
    assert forall x :: x in t.heap && x.idx == p ==> t.heap[x] == s.heap[x];
  }

  lemma AloneRest(s: State, e: Event, t: State, p: nat, v: int, c: int)
    requires Step(s, e, t) && Steady(s, e, p) && AloneAt(s, p, v, c) && (Tables(e) || e.Tick? || e.NothingToRun?)
    ensures AloneAt(t, p, v, c)
  {
    SameLengths(s, e, t);
    forall d
      ensures Heaped(t, d, p) <==> Heaped(s, d, p)
      ensures Heaped(s, d, p) ==> t.modes[d] == s.modes[d]
    {
    }
  }

  lemma SteadyStep(s: State, e: Event, t: State, p: nat, v: int, c: int, tickets: nat)
    requires Step(s, e, t) && Steady(s, e, p) && AloneAt(s, p, v, c) && HasTickets(s, p, tickets)
    ensures AloneAt(t, p, v + BIGNUM / tickets * Ticks(s, e, p), Place(s, e, p, c)) && HasTickets(t, p, tickets)
  {
    SteadyTickets(s, e, t, p, tickets);
    if e.EndStride? {
      AloneBack(s, e, t, p, v, c, tickets);
    } else {
      assert BIGNUM / tickets * Ticks(s, e, p) == 0;
      if e.EndMlfq? || e.Wake? {
        AloneEnters(s, e, t, p, v, c);
      } else if e.StartStride? && e.p == p {
        AloneChosen(s, e, t, p, v, c);
      } else if e.StartStride? || e.Drop? || e.StartMlfq? {
        AlonePassed(s, e, t, p, v, c);
      } else {
        AloneRest(s, e, t, p, v, c);
      }
    }
  }

  // The ticks of process p in the first k steps, and what it has paid for them.
  function Used(states: seq<State>, events: seq<Event>, p: nat, k: nat): int
    requires k <= |events| < |states|
  {
    if k == 0 then 0 else Used(states, events, p, k - 1) + Ticks(states[k - 1], events[k - 1], p)
  }

  function Paid(states: seq<State>, events: seq<Event>, p: nat, stride: int, k: nat): int
    requires k <= |events| < |states|
  {
    if k == 0 then 0 else Paid(states, events, p, stride, k - 1) + stride * Ticks(states[k - 1], events[k - 1], p)
  }

  lemma {:induction false} PaidIsUsed(states: seq<State>, events: seq<Event>, p: nat, stride: int, k: nat)
    requires k <= |events| < |states|
    ensures Paid(states, events, p, stride, k) == stride * Used(states, events, p, k)
  {
    if k > 0 {
      PaidIsUsed(states, events, p, stride, k - 1);
      Distribute(0, stride, Used(states, events, p, k - 1), Ticks(states[k - 1], events[k - 1], p));
    }
  }

  lemma Distribute(v: int, stride: int, u: int, m: int)
    ensures v + stride * u + stride * m == v + stride * (u + m)
  {
  }

  ghost predicate SteadyRun(states: seq<State>, events: seq<Event>, p: nat)
    requires |states| == |events| + 1
  {
    forall i {:trigger Steady(states[i], events[i], p)} :: 0 <= i < |events| ==> Steady(states[i], events[i], p)
  }

  lemma MovesAt(states: seq<State>, events: seq<Event>, q: nat, p: nat, v: int, tickets: nat, k: nat)
    requires Run(states, events, q) && SteadyRun(states, events, p) && k < |events|
    requires Alone(states[k], p, v) && HasTickets(states[k], p, tickets)
    ensures Alone(states[k + 1], p, v + BIGNUM / tickets * Ticks(states[k], events[k], p)) && HasTickets(states[k + 1], p, tickets)
  {
    var s, e, t := states[k], events[k], states[k + 1];
    assert StepAt(states, events, q, k) && Steady(s, e, p);
    var c :| AloneAt(s, p, v, c);
    SteadyStep(s, e, t, p, v, c, tickets);
  }

  // The pass value of a process that stays moves by its stride for each tick.
  lemma {:induction false} PassMoves(states: seq<State>, events: seq<Event>, q: nat, p: nat, v: int, tickets: nat, k: nat)
    requires Run(states, events, q) && SteadyRun(states, events, p) && k <= |events|
    requires Alone(states[0], p, v) && HasTickets(states[0], p, tickets)
    ensures HasTickets(states[k], p, tickets) && Alone(states[k], p, v + Paid(states, events, p, BIGNUM / tickets, k))
  {
    if k > 0 {
      PassMoves(states, events, q, p, v, tickets, k - 1);
      MovesAt(states, events, q, p, v + Paid(states, events, p, BIGNUM / tickets, k - 1), tickets, k - 1);
    }
  }

  // A run of k processors that keeps pass values near the time.
  ghost predicate Orderly(states: seq<State>, events: seq<Event>, q: nat) {
    Run(states, events, q) && SparedRun(states, events) && LevelRun(states, events) && Inv(states[0]) && Near(states[0], q)
  }

  // A process that stays gets its share: its ticks, weighed by its stride, are the time that has
  // passed, up to a bound that does not grow.
  lemma ShareOfTime(states: seq<State>, events: seq<Event>, q: nat, p: nat, v: int, tickets: nat)
    requires Orderly(states, events, q) && SteadyRun(states, events, p)
    requires Alone(states[0], p, v) && HasTickets(states[0], p, tickets)
    ensures var weighed, passed := BIGNUM / tickets * Used(states, events, p, |events|), Time(states[|events|]) - Time(states[0]);
            var bound := Bound(|states[0].modes|, q);
            passed - bound <= weighed <= passed + bound
  {
    RunNear(states, events, q, |events|);
    SameProcessors(states, events, q, |events|);
    PassMoves(states, events, q, p, v, tickets, |events|);
    PaidIsUsed(states, events, p, BIGNUM / tickets, |events|);
    AloneNear(states[0], q, p, v);
    AloneNear(states[|events|], q, p, v + Paid(states, events, p, BIGNUM / tickets, |events|));
  }

  lemma AloneNear(s: State, q: nat, p: nat, v: int)
    requires Near(s, q) && Alone(s, p, v)
    ensures Time(s) <= v <= Time(s) + Bound(|s.modes|, q)
  {
    assert IsTime(s, Time(s));
    var c :| AloneAt(s, p, v, c);
    if Heaped(s, c, p) {
      assert RunsHeap(s, c);
    } else {
      assert Node(p, v) in s.heap && Node(p, v).pass == v;
    }
  }

  // Two processes that stay share the processors in the proportion of their strides.
  lemma FairShares(states: seq<State>, events: seq<Event>, q: nat, p: nat, v: int, a: nat, r: nat, w: int, b: nat)
    requires Orderly(states, events, q)
    requires SteadyRun(states, events, p) && Alone(states[0], p, v) && HasTickets(states[0], p, a)
    requires SteadyRun(states, events, r) && Alone(states[0], r, w) && HasTickets(states[0], r, b)
    ensures var one, other := BIGNUM / a * Used(states, events, p, |events|), BIGNUM / b * Used(states, events, r, |events|);
            var bound := Bound(|states[0].modes|, q);
            -2 * bound <= one - other <= 2 * bound
  {
    ShareOfTime(states, events, q, p, v, a);
    ShareOfTime(states, events, q, r, w, b);
  }

  // ---------- the share of the queues ----------

  // What the queues have used in a step: the ticks of a turn that is over, or one for a hundred rounds
  // for nothing.
  function QueueTicks(s: State, e: Event): int {
    match e
    case EndMlfq(c, _, _, _) => if FromMlfq(s, c) then s.ticks[s.modes[c].p] + 1 - s.modes[c].before else 0
    case NothingToRun(c) => if c < |s.idle| && s.idle[c] + 1 >= 100 then 1 else 0
    case _ => 0
  }

  lemma QueuesPay(s: State, e: Event, t: State)
    requires Step(s, e, t) && s.sum < 100
    ensures t.mlfqpv == s.mlfqpv + 10000 / (100 - s.sum) * QueueTicks(s, e)
  {
  }

  function QueueUsed(states: seq<State>, events: seq<Event>, k: nat): int
    requires k <= |events| < |states|
  {
    if k == 0 then 0 else QueueUsed(states, events, k - 1) + QueueTicks(states[k - 1], events[k - 1])
  }

  // Nobody asks for tickets or gives any back.
  ghost predicate SameTickets(states: seq<State>, sum: int) {
    forall i :: 0 <= i < |states| ==> states[i].sum == sum
  }

  lemma {:induction false} QueuesMove(states: seq<State>, events: seq<Event>, q: nat, sum: int, k: nat)
    requires Run(states, events, q) && SameTickets(states, sum) && sum < 100 && k <= |events|
    ensures states[k].mlfqpv == states[0].mlfqpv + 10000 / (100 - sum) * QueueUsed(states, events, k)
  {
    if k > 0 {
      QueuesMove(states, events, q, sum, k - 1);
      assert StepAt(states, events, q, k - 1);
      QueuesPay(states[k - 1], events[k - 1], states[k]);
      Distribute(states[0].mlfqpv, 10000 / (100 - sum), QueueUsed(states, events, k - 1), QueueTicks(states[k - 1], events[k - 1]));
    }
  }

  lemma QueuesNearTime(s: State, q: nat)
    requires Near(s, q)
    ensures Time(s) <= s.mlfqpv <= Time(s) + Bound(|s.modes|, q)
  {
    assert IsTime(s, Time(s));
    NotNegative(Turn(q), Queued(s.modes));
    TurnsFit(|s.modes|, q);
  }

  // The queues share with a process that stays in the proportion of the tickets that are left for them
  // to its own.
  lemma QueuesShare(states: seq<State>, events: seq<Event>, q: nat, p: nat, v: int, tickets: nat, sum: int)
    requires Orderly(states, events, q) && SameTickets(states, sum) && sum <= 80
    requires SteadyRun(states, events, p) && Alone(states[0], p, v) && HasTickets(states[0], p, tickets)
    ensures var queues, one := 10000 / (100 - sum) * QueueUsed(states, events, |events|), BIGNUM / tickets * Used(states, events, p, |events|);
            var bound := Bound(|states[0].modes|, q);
            -2 * bound <= queues - one <= 2 * bound
  {
    ShareOfTime(states, events, q, p, v, tickets);
    QueuesMove(states, events, q, sum, |events|);
    RunNear(states, events, q, |events|);
    SameProcessors(states, events, q, |events|);
    QueuesNearTime(states[0], q);
    QueuesNearTime(states[|events|], q);
  }
}
