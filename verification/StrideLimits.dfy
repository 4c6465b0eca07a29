/** What keeps virtual time from going back, and pass values near it: exact conditions, with the runs
    that go wrong otherwise. */
module StrideLimits {
  import opened MinHeap
  import opened Stride
  import opened StrideRuns
  import opened StrideShares

  // ---------- one processor: when time can go back ----------

  // The process will be asked for its ticks when it is back.
  predicate Matters(s: State, c: nat)
    requires c < |s.modes|
  {
    s.modes[c].InMlfq? || (s.modes[c].InStride? && s.modes[c].p < |s.tickets| && !s.modes[c].done && s.tickets[s.modes[c].p] > 0)
  }

  // They are fewer than at its dispatch, its last one not counted.
  predicate Lost(s: State, c: nat)
    requires c < |s.modes|
  {
    Matters(s, c) && !CountedAt(s, c)
  }

  ghost predicate GoesBack(s: State, e: Event, t: State) {
    Step(s, e, t) && Time(t) < Time(s)
  }

  // The one processor runs a process with the least pass value of all.
  ghost predicate RunsFirst(s: State) {
    && |s.modes| == 1 && Sane(s) && !s.faulted
    && (s.modes[0].InMlfq? ==> s.mlfqpv == Time(s)) && (s.modes[0].InStride? ==> s.modes[0].minpv == Time(s))
  }

  lemma NearRunsFirst(s: State, q: nat)
    requires Inv(s) && Near(s, q) && |s.modes| == 1 && !s.faulted
    ensures RunsFirst(s)
  {
    assert s.modes[..0] == [];
    assert Queued(s.modes) == if s.modes[0].InMlfq? then 1 else 0;
    assert IsTime(s, Time(s));
    assert s.modes[0].InStride? ==> RunsHeap(s, 0);
  }

  lemma LostGoesBack(s: State) returns (e: Event, t: State)
    requires RunsFirst(s) && Lost(s, 0)
    ensures GoesBack(s, e, t)
  {
    var p, m := s.modes[0].p, Elapsed(s, 0);
    if s.modes[0].InMlfq? {
      e := EndMlfq(0, false, false, false);
      t := s.(mlfqpv := s.mlfqpv + m * MlfqStride(s.sum), modes := s.modes[0 := Looking], ticks := s.ticks[p := s.ticks[p] + 1]);
      SumNat(s.tickets);
      MlfqStrideBounds(s.sum);
      Negative(m, MlfqStride(s.sum));
      TimeAtMost(t, t.mlfqpv);
    } else {
      var x := Node(p, NextPass(s.modes[0].minpv, s.tickets[p], m));
      e := EndStride(0, true, true);
      t := s.(modes := s.modes[0 := Looking], ticks := s.ticks[p := s.ticks[p] + 1], heap := s.heap + multiset{x});
      TicketsAtMost(s, p);
      StridePositive(s.tickets[p]);
      Negative(m, BIGNUM / s.tickets[p]);
      assert x in t.heap;
      TimeAtMost(t, x.pass);
    }
  }

  lemma Negative(m: int, stride: int)
    requires m < 0 && stride > 0
    ensures m * stride < 0 && stride * m < 0
  {
  }

  lemma StridePositive(tickets: nat)
    requires 0 < tickets <= BIGNUM
    ensures BIGNUM / tickets > 0
  {
    assert BIGNUM / tickets * tickets + BIGNUM % tickets == BIGNUM;
  }

  lemma {:induction false} PartOfSum(s: seq<nat>, p: nat)
    requires p < |s|
    ensures s[p] <= Sum(s)
  {
    var n := |s| - 1;
    SumNat(s[..n]);
    if p < n {
      PartOfSum(s[..n], p);
    }
  }

  lemma TicketsAtMost(s: State, p: nat)
    requires Sane(s) && p < |s.tickets|
    ensures s.tickets[p] <= 80
  {
    PartOfSum(s.tickets, p);
  }

  // The next step can take virtual time back exactly if the running process has lost ticks.
  lemma BackExactly(s: State)
    requires RunsFirst(s)
    ensures (exists e, t :: GoesBack(s, e, t)) <==> Lost(s, 0)
  {
    if Lost(s, 0) {
      var e, t := LostGoesBack(s);
    } else {
      forall e, t
        ensures !GoesBack(s, e, t)
      {
        if Step(s, e, t) {
          NotLostStays(s, e, t);
        }
      }
    }
  }

  lemma NotLostStays(s: State, e: Event, t: State)
    requires RunsFirst(s) && !Lost(s, 0) && Step(s, e, t)
    ensures Time(s) <= Time(t)
  {
    SumNat(s.tickets);
    if Forward(s, e) {
      TimeStays(s, e, t);
    } else {
      assert e.EndStride? && e.c == 0 && !CountedAt(s, 0);
      forall d | RunsHeap(t, d)
        ensures Time(s) <= t.modes[d].minpv
      {
        assert RunsHeap(s, d) && t.modes[d] == s.modes[d];
      }
      NotAfterTime(t, Time(s));
    }
  }

  lemma RunsFirstStays(s: State, e: Event, t: State)
    requires Inv(s) && RunsFirst(s) && Step(s, e, t) && !t.faulted
    ensures RunsFirst(t)
  {
    SameLengths(s, e, t);
    StaysSane(s, e, t);
    SumNat(s.tickets);
    CountedForward(s, e);
    TimeStays(s, e, t);
    assert IsTime(t, Time(t));
    if Looks(s, 0) {
      TurnIsTime(s, 0);
    }
    assert t.modes[0].InStride? ==> RunsHeap(t, 0);
  }

  // With one processor: a step makes it possible for virtual time to go back if and only if it sets
  // back the ticks of the process that is being run, and that process will be heard of again.
  lemma SetBackExactly(s: State, e: Event, t: State)
    requires Inv(s) && RunsFirst(s) && Step(s, e, t) && !t.faulted
    ensures RunsFirst(t)
    ensures (exists e', u :: GoesBack(t, e', u)) <==> !Spared(s, e) && Matters(t, 0)
  {
    RunsFirstStays(s, e, t);
    BackExactly(t);
    CountedExactly(s, e, t);
    if !CountedAt(t, 0) {
      assert !Counted(t);
    } else {
      assert forall c :: CountedAt(t, c);
    }
  }

  // A process of the queues is run with 15 ticks; the clock wakes up another of its threads, which
  // sets its ticks to zero; it is back, and virtual time goes back.
  function At(k: nat): State {
    var none := multiset{};
    match k
    case 0 => State(0, none, [Looking], [0], [15], {}, {}, 0, [0], false)
    case 1 => State(0, none, [InMlfq(0, 15)], [0], [15], {}, {}, 0, [0], false)
    case 2 => State(0, none, [InMlfq(0, 15)], [0], [0], {}, {}, 0, [0], false)
    case _ => State(-1400, none, [Looking], [0], [1], {}, {}, 0, [0], false)
  }

  lemma ClockTakesTimeBack()
    ensures Inv(At(0)) && Near(At(0), 1)
    ensures Step(At(0), StartMlfq(0, 0), At(1)) && Step(At(1), Wake(0, false, true), At(2))
    ensures GoesBack(At(2), EndMlfq(0, true, false, false), At(3))
    ensures Spared(At(0), StartMlfq(0, 0)) && !Spared(At(1), Wake(0, false, true))
  {
    FirstInv();
    assert Top(multiset{}, -1);
    assert [15][0 := 0] == [0] && [0][0 := 1] == [1];
    assert [Looking][0 := InMlfq(0, 15)] == [InMlfq(0, 15)] && [InMlfq(0, 15)][0 := Looking] == [Looking];
    assert Runs(At(1), 0, 0);
    NotAfterTime(At(2), 0);
    TimeAtMost(At(3), -1400);
  }

  lemma FirstInv()
    ensures Inv(At(0)) && Near(At(0), 1)
  {
    var s := At(0);
    assert [0][..0] == [] && [Looking][..0] == [];
    assert Sum([0]) == 0 && Queued([Looking]) == 0;
    NotAfterTime(s, 0);
  }

  // ---------- several processors: when pass values leave the time behind ----------

  // Processor 0 runs process 0 from the heap, and that takes a while.  In each round processor 1 runs
  // process 1 from the heap, twice, and process 2 from the queues, a tick each time; all other
  // processors find nothing.  The heap's processes have 40 tickets each.
  function Others(k: nat, m: Mode): (modes: seq<Mode>)
    requires k >= 2
    ensures |modes| == k
  {
    [InStride(0, 0, 0, false), m] + seq(k - 2, _ => Looking)
  }

  function Nought(k: nat): (idle: seq<nat>)
    ensures |idle| == k && forall c :: 0 <= c < k ==> idle[c] == 0
  {
    seq(k, _ => 0)
  }

  function Round(k: nat, mlfqpv: int, heap: multiset<Node>, m: Mode, one: int, two: int): State
    requires k >= 2
  {
    State(mlfqpv, heap, Others(k, m), [40, 40, 0], [0, one, two], {0, 1}, {}, 80, Nought(k), false)
  }

  // After i steps of round j.
  function Drift(k: nat, j: nat, i: nat): State
    requires k >= 2
  {
    var v, none := 500 * j, multiset{};
    match i
    case 0 => Round(k, v, multiset{Node(1, v)}, Looking, 2 * j, j)
    case 1 => Round(k, v, none, InStride(1, 2 * j, v, false), 2 * j, j)
    case 2 => Round(k, v, multiset{Node(1, v + 250)}, Looking, 2 * j + 1, j)
    case 3 => Round(k, v, multiset{Node(1, v + 250)}, InMlfq(2, j), 2 * j + 1, j)
    case 4 => Round(k, v + 500, multiset{Node(1, v + 250)}, Looking, 2 * j + 1, j + 1)
    case 5 => Round(k, v + 500, none, InStride(1, 2 * j + 1, v + 250, false), 2 * j + 1, j + 1)
    case _ => Round(k, v + 500, multiset{Node(1, v + 500)}, Looking, 2 * j + 2, j + 1)
  }

  function Drifts(j: nat, i: nat): Event {
    match i
    case 0 => StartStride(1, 1, 500 * j)
    case 1 => EndStride(1, true, true)
    case 2 => StartMlfq(1, 2)
    case 3 => EndMlfq(1, true, true, false)
    case 4 => StartStride(1, 1, 500 * j + 250)
    case _ => EndStride(1, true, true)
  }

  lemma OthersChange(k: nat, m: Mode, m': Mode)
    requires k >= 2
    ensures Others(k, m)[1 := m'] == Others(k, m')
  {
  }

  lemma OneInHeap(v: int)
    ensures var h := multiset{Node(1, v)};
            Node(1, v) in h && h - multiset{Node(1, v)} == multiset{} && Top(h, v) && multiset{} + h == h
  {
    assert Node(1, v) in multiset{Node(1, v)};
  }

  // A step that leaves processes 0 and 1 to the heap, and measures so many ticks of process 1.
  ghost predicate Goes(s: State, e: Event, t: State, used: int) {
    && Step(s, e, t) && Measured(s, e, 1) && Spared(s, e) && Steady(s, e, 0) && Steady(s, e, 1)
    && Ticks(s, e, 0) == 0 && Ticks(s, e, 1) == used
  }

  lemma RunsOne(k: nat, mlfqpv: int, v: int, one: int, two: int)
    requires k >= 2 && 0 <= v <= mlfqpv
    ensures Goes(Round(k, mlfqpv, multiset{Node(1, v)}, Looking, one, two), StartStride(1, 1, v),
                 Round(k, mlfqpv, multiset{}, InStride(1, one, v, false), one, two), 0)
  {
    OneInHeap(v);
    OthersChange(k, Looking, InStride(1, one, v, false));
  }

  lemma OneBack(k: nat, mlfqpv: int, v: int, one: int, two: int)
    requires k >= 2
    ensures Goes(Round(k, mlfqpv, multiset{}, InStride(1, one, v, false), one, two), EndStride(1, true, true),
                 Round(k, mlfqpv, multiset{Node(1, v + 250)}, Looking, one + 1, two), 1)
  {
    OneInHeap(v + 250);
    OthersChange(k, InStride(1, one, v, false), Looking);
    assert [0, one, two][1 := one + 1] == [0, one + 1, two];
  }

  lemma RunsTwo(k: nat, mlfqpv: int, v: int, one: int, two: int)
    requires k >= 2 && mlfqpv < v
    ensures Goes(Round(k, mlfqpv, multiset{Node(1, v)}, Looking, one, two), StartMlfq(1, 2),
                 Round(k, mlfqpv, multiset{Node(1, v)}, InMlfq(2, two), one, two), 0)
  {
    OneInHeap(v);
    OthersChange(k, Looking, InMlfq(2, two));
  }

  lemma TwoBack(k: nat, mlfqpv: int, v: int, one: int, two: int)
    requires k >= 2
    ensures Goes(Round(k, mlfqpv, multiset{Node(1, v)}, InMlfq(2, two), one, two), EndMlfq(1, true, true, false),
                 Round(k, mlfqpv + 500, multiset{Node(1, v)}, Looking, one, two + 1), 0)
  {
    OthersChange(k, InMlfq(2, two), Looking);
    assert [0, one, two][2 := two + 1] == [0, one, two + 1];
  }

  // The first half of a round, and the second.
  lemma DriftRuns(k: nat, j: nat)
    requires k >= 2
    ensures Goes(Drift(k, j, 0), Drifts(j, 0), Drift(k, j, 1), 0) && Goes(Drift(k, j, 4), Drifts(j, 4), Drift(k, j, 5), 0)
  {
    var v := 500 * j;
    RunsOne(k, v, v, 2 * j, j);
    RunsOne(k, v + 500, v + 250, 2 * j + 1, j + 1);
  }

  lemma DriftBacks(k: nat, j: nat)
    requires k >= 2
    ensures Goes(Drift(k, j, 1), Drifts(j, 1), Drift(k, j, 2), 1) && Goes(Drift(k, j, 5), Drifts(j, 5), Drift(k, j, 6), 1)
  {
    var v := 500 * j;
    OneBack(k, v, v, 2 * j, j);
    OneBack(k, v + 500, v + 250, 2 * j + 1, j + 1);
  }

  lemma DriftTurns(k: nat, j: nat)
    requires k >= 2
    ensures Goes(Drift(k, j, 2), Drifts(j, 2), Drift(k, j, 3), 0) && Goes(Drift(k, j, 3), Drifts(j, 3), Drift(k, j, 4), 0)
  {
    var v := 500 * j;
    RunsTwo(k, v, v + 250, 2 * j + 1, j);
    TwoBack(k, v, v + 250, 2 * j + 1, j);
  }

  lemma DriftSteps(k: nat, j: nat, i: nat)
    requires k >= 2 && i < 6
    ensures Goes(Drift(k, j, i), Drifts(j, i), Drift(k, j, i + 1), if i == 1 || i == 5 then 1 else 0)
  {
    DriftRuns(k, j);
    DriftBacks(k, j);
    DriftTurns(k, j);
  }

  function StateAt(k: nat, i: nat): State
    requires k >= 2
  {
    Drift(k, i / 6, i % 6)
  }

  function EventAt(i: nat): Event {
    Drifts(i / 6, i % 6)
  }

  lemma GoesOn(k: nat, i: nat)
    requires k >= 2
    ensures Goes(StateAt(k, i), EventAt(i), StateAt(k, i + 1), OneTick(i))
  {
    var j, r := i / 6, i % 6;
    DriftSteps(k, j, r);
    if r == 5 {
      assert (i + 1) / 6 == j + 1 && (i + 1) % 6 == 0;
      assert Drift(k, j, 6) == Drift(k, j + 1, 0);
    } else {
      assert (i + 1) / 6 == j && (i + 1) % 6 == r + 1;
    }
  }

  // ---------- the exact condition ----------

  // A run of k processors with two processes that stay with the heap.
  ghost predicate Contest(states: seq<State>, events: seq<Event>, k: nat, q: nat, p: nat, v: int, a: nat, r: nat, w: int, b: nat) {
    && Run(states, events, q) && SparedRun(states, events) && Inv(states[0]) && Near(states[0], q) && |states[0].modes| == k
    && SteadyRun(states, events, p) && Alone(states[0], p, v) && HasTickets(states[0], p, a)
    && SteadyRun(states, events, r) && Alone(states[0], r, w) && HasTickets(states[0], r, b)
  }

  function Weighed(states: seq<State>, events: seq<Event>, p: nat, tickets: nat): int
    requires |states| == |events| + 1 && tickets > 0
  {
    BIGNUM / tickets * Used(states, events, p, |events|)
  }

  ghost predicate FairWithin(k: nat, q: nat, bound: int) {
    forall states: seq<State>, events: seq<Event>, p, v, a, r, w, b :: Contest(states, events, k, q, p, v, a, r, w, b) ==>
      -bound <= Weighed(states, events, p, a) - Weighed(states, events, r, b) <= bound
  }

  // What is measured of process 1 by step i of the run.
  function OneTick(i: nat): int {
    if i % 6 == 1 || i % 6 == 5 then 1 else 0
  }

  lemma Sixths(i: nat)
    ensures var u, u' := 2 * (i / 6) + (if i % 6 >= 2 then 1 else 0), 2 * ((i + 1) / 6) + if (i + 1) % 6 >= 2 then 1 else 0;
            u' == u + OneTick(i)
  {
    var j, r := i / 6, i % 6;
    assert (i + 1) / 6 == (if r == 5 then j + 1 else j) && (i + 1) % 6 == if r == 5 then 0 else r + 1;
  }

  lemma DriftSane(k: nat)
    requires k >= 2
    ensures Sane(StateAt(k, 0))
  {
    assert Sum([40, 40, 0]) == 80 by {
      assert [40, 40, 0][..2] == [40, 40] && [40, 40][..1] == [40] && [40][..0] == [];
    }
  }

  lemma DriftStart(k: nat, q: nat)
    requires k >= 2 && q > 0
    ensures Inv(StateAt(k, 0)) && Near(StateAt(k, 0), q) && |StateAt(k, 0).modes| == k
  {
    DriftSane(k);
    NotAfterTime(StateAt(k, 0), 0);
    QueuedNone(StateAt(k, 0).modes);
  }

  lemma DriftAlone(k: nat)
    requires k >= 2
    ensures var s := StateAt(k, 0); Alone(s, 0, 0) && Alone(s, 1, 0) && HasTickets(s, 0, 40) && HasTickets(s, 1, 40)
  {
    var s := StateAt(k, 0);
    assert AloneAt(s, 0, 0, 0) && AloneAt(s, 1, 0, 0);
  }

  lemma {:induction false} QueuedNone(modes: seq<Mode>)
    requires forall c :: 0 <= c < |modes| ==> !modes[c].InMlfq?
    ensures Queued(modes) == 0
  {
    if modes != [] {
      QueuedNone(modes[..|modes| - 1]);
    }
  }

  function Drifting(k: nat, n: nat): (states: seq<State>)
    requires k >= 2
    ensures |states| == n + 1
  {
    seq(n + 1, i requires 0 <= i => StateAt(k, i))
  }

  function DriftEvents(n: nat): (events: seq<Event>)
    ensures |events| == n
  {
    seq(n, i requires 0 <= i => EventAt(i))
  }

  // The run is in its i-th state.
  ghost predicate IsAt(states: seq<State>, events: seq<Event>, k: nat, i: nat) {
    k >= 2 && i < |states| && states[i] == StateAt(k, i) && (i < |events| ==> events[i] == EventAt(i))
  }

  lemma DriftIsAt(k: nat, n: nat, i: nat)
    requires k >= 2 && i <= n
    ensures IsAt(Drifting(k, n), DriftEvents(n), k, i)
  {
  }

  lemma GoesThere(states: seq<State>, events: seq<Event>, k: nat, i: nat)
    requires i < |events| < |states| && forall m: nat :: m < |states| ==> IsAt(states, events, k, m)
    ensures Goes(states[i], events[i], states[i + 1], OneTick(i))
  {
    assert IsAt(states, events, k, i) && IsAt(states, events, k, i + 1);
    GoesOn(k, i);
  }

  lemma {:induction false} DriftUsed(states: seq<State>, events: seq<Event>, k: nat, i: nat)
    requires i <= |events| < |states| && forall m: nat :: m < |states| ==> IsAt(states, events, k, m)
    ensures Used(states, events, 0, i) == 0
    ensures Used(states, events, 1, i) == 2 * (i / 6) + if i % 6 >= 2 then 1 else 0
  {
    if i > 0 {
      DriftUsed(states, events, k, i - 1);
      GoesThere(states, events, k, i - 1);
      Sixths(i - 1);
    }
  }

  lemma DriftContest(states: seq<State>, events: seq<Event>, k: nat, q: nat)
    requires q > 0 && |states| == |events| + 1 && forall m: nat :: m < |states| ==> IsAt(states, events, k, m)
    requires Inv(states[0]) && Near(states[0], q) && |states[0].modes| == k
    requires Alone(states[0], 0, 0) && Alone(states[0], 1, 0) && HasTickets(states[0], 0, 40) && HasTickets(states[0], 1, 40)
    ensures Contest(states, events, k, q, 0, 0, 40, 1, 0, 40)
  {
    forall i | 0 <= i < |events|
      ensures StepAt(states, events, q, i) && Spared(states[i], events[i])
      ensures Steady(states[i], events[i], 0) && Steady(states[i], events[i], 1)
    {
      GoesThere(states, events, k, i);
    }
  }

  lemma DriftEnd(k: nat, n: nat)
    requires k >= 2
    ensures StateAt(k, 6 * n).mlfqpv == 500 * n && Time(StateAt(k, 6 * n)) <= 0
  {
    var s := StateAt(k, 6 * n);
    assert s == Drift(k, n, 0);
    assert RunsHeap(s, 0);
    TimeAtMost(s, 0);
  }

  lemma DriftWeighs(states: seq<State>, events: seq<Event>, k: nat, n: nat)
    requires |events| == 6 * n && |states| == |events| + 1 && forall m: nat :: m < |states| ==> IsAt(states, events, k, m)
    ensures Weighed(states, events, 1, 40) - Weighed(states, events, 0, 40) == 500 * n
  {
    DriftUsed(states, events, k, 6 * n);
  }

  // Process 1 gets tick after tick while process 0 is run once: with two processors or more there is
  // no bound for what separates them.
  lemma DriftsApart(k: nat, q: nat, n: nat) returns (states: seq<State>, events: seq<Event>)
    requires k >= 2 && q > 0
    ensures |states| == |events| + 1 && Contest(states, events, k, q, 0, 0, 40, 1, 0, 40)
    ensures Weighed(states, events, 1, 40) - Weighed(states, events, 0, 40) == 500 * n
    ensures states[|events|].mlfqpv == 500 * n && Time(states[|events|]) <= 0
  {
    states, events := Drifting(k, 6 * n), DriftEvents(6 * n);
    forall i: nat | i < |states|
      ensures IsAt(states, events, k, i)
    {
      DriftIsAt(k, 6 * n, i);
    }
    DriftWeighs(states, events, k, n);
    DriftEnd(k, n);
    DriftStart(k, q);
    DriftAlone(k);
    assert states[0] == StateAt(k, 0);
    DriftContest(states, events, k, q);
  }

  // The shares of any two processes stay within a fixed bound, over all runs in which no ticks of a
  // running process are set back, exactly if there is one processor.
  lemma FairExactly(k: nat, q: nat)
    requires k > 0 && q > 0
    ensures (exists bound :: FairWithin(k, q, bound)) <==> k == 1
  {
    if k == 1 {
      OneIsFair(q);
    } else {
      forall bound
        ensures !FairWithin(k, q, bound)
      {
        var n := if bound < 0 then 1 else bound + 1;
        var states, events := DriftsApart(k, q, n);
      }
    }
  }

  lemma OneIsFair(q: nat)
    requires q > 0
    ensures FairWithin(1, q, 2 * Bound(1, q))
  {
    forall states: seq<State>, events: seq<Event>, p: nat, v, a: nat, r: nat, w, b: nat | Contest(states, events, 1, q, p, v, a, r, w, b)
      ensures -2 * Bound(1, q) <= Weighed(states, events, p, a) - Weighed(states, events, r, b) <= 2 * Bound(1, q)
    {
      OneIsLevelRun(states, events, q);
      FairShares(states, events, q, p, v, a, r, w, b);
    }
  }

  ghost predicate NearRun(states: seq<State>, events: seq<Event>, k: nat, q: nat) {
    Run(states, events, q) && SparedRun(states, events) && Inv(states[0]) && Near(states[0], q) && |states[0].modes| == k
  }

  ghost predicate TimeWithin(k: nat, q: nat, bound: int) {
    forall states: seq<State>, events: seq<Event> :: NearRun(states, events, k, q) ==> states[|events|].mlfqpv <= Time(states[|events|]) + bound
  }

  // And so does the queues' pass value stay within a fixed bound of virtual time.
  lemma NearExactly(k: nat, q: nat)
    requires k > 0 && q > 0
    ensures (exists bound :: TimeWithin(k, q, bound)) <==> k == 1
  {
    if k == 1 {
      forall states: seq<State>, events: seq<Event> | NearRun(states, events, 1, q)
        ensures states[|events|].mlfqpv <= Time(states[|events|]) + Turn(q)
      {
        OneIsLevelRun(states, events, q);
        RunNear(states, events, q, |events|);
        SameProcessors(states, events, q, |events|);
      }
      assert TimeWithin(1, q, Turn(q));
    } else {
      forall bound
        ensures !TimeWithin(k, q, bound)
      {
        var n := if bound < 0 then 1 else bound + 1;
        var states, events := DriftsApart(k, q, n);
        assert NearRun(states, events, k, q);
      }
    }
  }
}
