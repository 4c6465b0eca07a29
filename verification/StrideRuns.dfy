/** Runs of the stride schedule, and how far pass values get from virtual time in them. */
module StrideRuns {
  import opened MinHeap
  import opened Stride

  // ---------- who is chosen ----------

  // Whoever is chosen has the least pass value of all that wait.
  ghost predicate Waiting(s: State, v: int) {
    v <= s.mlfqpv && forall x :: x in s.heap ==> v <= x.pass
  }

  // With one processor that is virtual time.
  lemma TurnIsTime(s: State, c: nat)
    requires Looks(s, c) && forall x :: x in s.heap ==> x.pass >= 0
    ensures MlfqTurn(s) ==> Waiting(s, s.mlfqpv)
    ensures forall v :: StrideTurn(s) && Top(s.heap, v) ==> Waiting(s, v)
    ensures |s.modes| == 1 && MlfqTurn(s) ==> s.mlfqpv == Time(s)
    ensures |s.modes| == 1 ==> forall v :: StrideTurn(s) && Top(s.heap, v) ==> v == Time(s)
  {
    if MlfqTurn(s) && |s.modes| == 1 {
      NotAfterTime(s, s.mlfqpv);
    }
    forall v | StrideTurn(s) && Top(s.heap, v)
      ensures Waiting(s, v) && (|s.modes| == 1 ==> v == Time(s))
    {
      if |s.modes| == 1 {
        NotAfterTime(s, v);
      }
    }
  }

  // ---------- bounds ----------

  // Pass values are at most q ticks of a process with one ticket ahead of the queues.
  ghost predicate Ahead(s: State, q: nat) {
    forall x :: x in s.heap ==> x.pass <= s.mlfqpv + BIGNUM * q
  }

  lemma StaysAhead(s: State, e: Event, t: State, q: nat)
    requires Inv(s) && Ahead(s, q) && Step(s, e, t) && Measured(s, e, q)
    ensures Ahead(t, q)
  {
    MlfqNear(s, e, t, q);
    HeapNear(s, e, t, q);
    if e.EndStride? {
      assert RunsHeap(s, e.c);
    }
    forall x | x in t.heap
      ensures x.pass <= t.mlfqpv + BIGNUM * q
    {
      assert NewOrOld(x, s.heap, if e.EndStride? then s.modes[e.c].minpv + BIGNUM * q else t.mlfqpv);
    }
  }

  // The number of processors that run a process of the queues.
  function Queued(modes: seq<Mode>): nat {
    if modes == [] then 0 else Queued(modes[..|modes| - 1]) + if modes[|modes| - 1].InMlfq? then 1 else 0
  }

  lemma {:induction false} QueuedChange(modes: seq<Mode>, c: nat, m: Mode)
    requires c < |modes|
    ensures Queued(modes[c := m]) == Queued(modes) - (if modes[c].InMlfq? then 1 else 0) + (if m.InMlfq? then 1 else 0)
  {
    var n := |modes| - 1;
    if c == n {
      assert modes[c := m][..n] == modes[..n];
    } else {
      assert modes[c := m][..n] == modes[..n][c := m];
      QueuedChange(modes[..n], c, m);
    }
  }

  lemma {:induction false} QueuedAtMost(modes: seq<Mode>)
    ensures Queued(modes) <= |modes|
  {
    if modes != [] {
      QueuedAtMost(modes[..|modes| - 1]);
    }
  }

  lemma {:induction false} QueuedSame(modes: seq<Mode>, modes': seq<Mode>)
    requires |modes| == |modes'| && forall c :: 0 <= c < |modes| ==> modes[c].InMlfq? == modes'[c].InMlfq?
    ensures Queued(modes) == Queued(modes')
  {
    if modes != [] {
      QueuedSame(modes[..|modes| - 1], modes'[..|modes| - 1]);
    }
  }

  // How far the process that is chosen from the heap may be from virtual time.
  function Slack(k: nat, q: nat): nat {
    if k <= 1 then 0 else Turn(q) * k
  }

  function Bound(k: nat, q: nat): nat {
    BIGNUM * q + Slack(k, q)
  }

  // Turns of the queues that have begun count as if they had taken q ticks.
  ghost predicate Near(s: State, q: nat) {
    var k, time := |s.modes|, Time(s);
    && q > 0
    && s.mlfqpv + Turn(q) * Queued(s.modes) <= time + Turn(q) * k
    && (forall x :: x in s.heap ==> x.pass <= time + Bound(k, q))
    && forall c :: RunsHeap(s, c) ==> s.modes[c].minpv <= time + Slack(k, q)
  }

  // The queues take no turn, not even an idle one, while another processor runs a process from the
  // heap that has an earlier pass value than they have.
  ghost predicate Level(s: State, e: Event) {
    e.NothingToRun? || e.StartMlfq? ==> forall c :: RunsHeap(s, c) ==> s.mlfqpv <= s.modes[c].minpv
  }

  // With one processor there is no other.
  lemma OneIsLevel(s: State, e: Event, t: State)
    requires Step(s, e, t) && |s.modes| == 1
    ensures Level(s, e)
  {
  }

  lemma LevelTurn(s: State, e: Event, t: State)
    requires Inv(s) && Step(s, e, t) && Level(s, e) && (e.NothingToRun? || e.StartMlfq?)
    ensures s.mlfqpv == Time(s)
  {
    NotAfterTime(s, s.mlfqpv);
  }

  lemma QueuedAfter(s: State, e: Event, t: State)
    requires Step(s, e, t)
    ensures |t.modes| == |s.modes|
    ensures Queued(t.modes) == Queued(s.modes) + (if e.StartMlfq? then 1 else if e.EndMlfq? then -1 else 0)
    ensures e.NothingToRun? || e.StartMlfq? ==> Queued(s.modes) + 1 <= |s.modes|
  {
    SameLengths(s, e, t);
    match e {
      case NothingToRun(c) =>
        QueuedChange(s.modes, c, InMlfq(0, 0));
        QueuedAtMost(s.modes[c := InMlfq(0, 0)]);
      case StartMlfq(c, p) =>
        QueuedChange(s.modes, c, InMlfq(p, s.ticks[p]));
        QueuedAtMost(t.modes);
      case EndMlfq(c, _, _, _) => QueuedChange(s.modes, c, Looking);
      case EndStride(c, _, _) => QueuedChange(s.modes, c, Looking);
      case _ => QueuedSame(s.modes, t.modes);
    }
  }

  lemma Times(u: nat, n: nat, k: nat)
    requires n + 1 <= k
    ensures u * (n + 1) == u * n + u <= u * k
  {
    assert u * (n + 1) <= u * k;
  }

  lemma MlfqStaysNear(s: State, e: Event, t: State, q: nat)
    requires Inv(s) && Near(s, q) && Step(s, e, t) && Measured(s, e, q) && Level(s, e)
    ensures t.mlfqpv + Turn(q) * Queued(t.modes) <= Time(s) + Turn(q) * |t.modes|
  {
    var n, k := Queued(s.modes), |s.modes|;
    MlfqNear(s, e, t, q);
    QueuedAfter(s, e, t);
    if e.NothingToRun? || e.StartMlfq? {
      LevelTurn(s, e, t);
      Times(Turn(q), n, k);
    } else if e.EndMlfq? {
      Times(Turn(q), n - 1, n);
    }
  }

  // A process chosen from the heap is as near as the queues are; it is first of all if there is only
  // one processor.
  lemma ChosenNear(s: State, c: nat, p: nat, minpv: int, t: State, q: nat)
    requires Inv(s) && Near(s, q) && StartsStride(s, c, p, minpv, t)
    ensures minpv <= Time(s) + Slack(|s.modes|, q)
  {
    if |s.modes| == 1 {
      TurnIsTime(s, c);
    } else {
      NotNegative(Turn(q), Queued(s.modes));
    }
  }

  lemma QueuesNear(s: State, e: Event, t: State, q: nat)
    requires Inv(s) && Near(s, q) && Step(s, e, t) && Measured(s, e, q) && Level(s, e)
    ensures t.mlfqpv <= Time(s) + Turn(q) * |s.modes|
  {
    MlfqStaysNear(s, e, t, q);
    SameLengths(s, e, t);
    NotNegative(Turn(q), Queued(t.modes));
  }

  lemma NotNegative(a: nat, b: nat)
    ensures a * b >= 0
  {
  }

  lemma TurnsFit(k: nat, q: nat)
    ensures Turn(q) * k <= Bound(k, q)
  {
    assert k <= 1 ==> Turn(q) * k <= Turn(q);
  }

  lemma HeapStaysNear(s: State, e: Event, t: State, q: nat, x: Node)
    requires Inv(s) && Near(s, q) && Step(s, e, t) && Measured(s, e, q) && Level(s, e) && x in t.heap
    ensures x.pass <= Time(s) + Bound(|s.modes|, q)
  {
    QueuesNear(s, e, t, q);
    HeapNear(s, e, t, q);
    TurnsFit(|s.modes|, q);
    if e.EndStride? {
      assert RunsHeap(s, e.c);
    }
    assert NewOrOld(x, s.heap, if e.EndStride? then s.modes[e.c].minpv + BIGNUM * q else t.mlfqpv);
  }

  lemma RunningStaysNear(s: State, e: Event, t: State, q: nat, c: int)
    requires Inv(s) && Near(s, q) && Step(s, e, t) && t.mlfqpv >= s.mlfqpv && RunsHeap(t, c)
    ensures t.modes[c].minpv <= Time(s) + Slack(|s.modes|, q)
  {
    RunningStay(s, e, t, c);
    if e.StartStride? && c == e.c {
      ChosenNear(s, e.c, e.p, e.minpv, t, q);
    }
  }

  lemma NearLater(t: State, k: nat, q: nat, time: int)
    requires q > 0 && time <= Time(t) && |t.modes| == k && t.mlfqpv + Turn(q) * Queued(t.modes) <= time + Turn(q) * k
    requires forall x :: x in t.heap ==> x.pass <= time + Bound(k, q)
    requires forall c :: RunsHeap(t, c) ==> t.modes[c].minpv <= time + Slack(k, q)
    ensures Near(t, q)
  {
  }

  // With k processors and at most q ticks measured at a time, as long as the queues take no turn they
  // should not: their pass value stays within 500qk of virtual time, and all others within 10000q more;
  // with one processor within 10000q.
  lemma PassesKept(s: State, e: Event, t: State, q: nat)
    requires Inv(s) && Near(s, q) && Step(s, e, t) && Measured(s, e, q) && Spared(s, e) && Level(s, e)
    ensures Near(t, q)
  {
    var k := |s.modes|;
    MlfqStaysNear(s, e, t, q);
    forall x | x in t.heap
      ensures x.pass <= Time(s) + Bound(k, q)
    {
      HeapStaysNear(s, e, t, q, x);
    }
    MlfqNear(s, e, t, q);
    forall c | RunsHeap(t, c)
      ensures t.modes[c].minpv <= Time(s) + Slack(k, q)
    {
      RunningStaysNear(s, e, t, q, c);
    }
    QueuedAfter(s, e, t);
    StepKeeps(s, e, t);
    NearLater(t, k, q, Time(s));
  }

  // ---------- runs ----------

  ghost predicate StepAt(states: seq<State>, events: seq<Event>, q: nat, i: nat)
    requires i < |events| < |states|
  {
    Step(states[i], events[i], states[i + 1]) && Measured(states[i], events[i], q)
  }

  ghost predicate Run(states: seq<State>, events: seq<Event>, q: nat) {
    |states| == |events| + 1 && forall i {:trigger StepAt(states, events, q, i)} :: 0 <= i < |events| ==> StepAt(states, events, q, i)
  }

  ghost predicate SparedRun(states: seq<State>, events: seq<Event>)
    requires |states| == |events| + 1
  {
    forall i {:trigger Spared(states[i], events[i])} :: 0 <= i < |events| ==> Spared(states[i], events[i])
  }

  ghost predicate LevelRun(states: seq<State>, events: seq<Event>)
    requires |states| == |events| + 1
  {
    forall i {:trigger Level(states[i], events[i])} :: 0 <= i < |events| ==> Level(states[i], events[i])
  }

  lemma {:induction false} SameProcessors(states: seq<State>, events: seq<Event>, q: nat, i: nat)
    requires Run(states, events, q) && i < |states|
    ensures |states[i].modes| == |states[0].modes|
  {
    if i > 0 {
      SameProcessors(states, events, q, i - 1);
      assert StepAt(states, events, q, i - 1);
      SameLengths(states[i - 1], events[i - 1], states[i]);
    }
  }

  lemma OneIsLevelRun(states: seq<State>, events: seq<Event>, q: nat)
    requires Run(states, events, q) && |states[0].modes| == 1
    ensures LevelRun(states, events)
  {
    forall i | 0 <= i < |events|
      ensures Level(states[i], events[i])
    {
      SameProcessors(states, events, q, i);
      assert StepAt(states, events, q, i);
      OneIsLevel(states[i], events[i], states[i + 1]);
    }
  }

  // With any number of processors: virtual time never goes back, and no pass value gets more than
  // 10000q ahead of the queues, over any run in which no ticks of a running process are set back.
  lemma {:induction false} RunKeeps(states: seq<State>, events: seq<Event>, q: nat, i: nat, j: nat)
    requires Run(states, events, q) && SparedRun(states, events) && Inv(states[0]) && i <= j < |states|
    ensures Inv(states[j]) && Time(states[i]) <= Time(states[j]) && (Ahead(states[0], q) ==> Ahead(states[j], q))
  {
    if j > 0 {
      RunKeeps(states, events, q, if i < j then i else i - 1, j - 1);
      assert StepAt(states, events, q, j - 1) && Spared(states[j - 1], events[j - 1]);
      StepKeeps(states[j - 1], events[j - 1], states[j]);
      if Ahead(states[0], q) {
        StaysAhead(states[j - 1], events[j - 1], states[j], q);
      }
    }
  }

  // And pass values stay near virtual time, if the queues take no turn while an earlier process runs.
  lemma {:induction false} RunNear(states: seq<State>, events: seq<Event>, q: nat, j: nat)
    requires Run(states, events, q) && SparedRun(states, events) && LevelRun(states, events) && Inv(states[0]) && Near(states[0], q)
    requires j < |states|
    ensures Near(states[j], q)
  {
    if j > 0 {
      RunNear(states, events, q, j - 1);
      RunKeeps(states, events, q, 0, j - 1);
      NearAt(states, events, q, j - 1);
    }
  }

  lemma NearAt(states: seq<State>, events: seq<Event>, q: nat, i: nat)
    requires Run(states, events, q) && SparedRun(states, events) && LevelRun(states, events) && i < |events|
    requires Inv(states[i]) && Near(states[i], q)
    ensures Near(states[i + 1], q)
  {
    assert StepAt(states, events, q, i) && Spared(states[i], events[i]) && Level(states[i], events[i]);
    PassesKept(states[i], events[i], states[i + 1], q);
  }
}
