/** The division by a process's tickets: a processor traps if the process has none any more when
    it comes back from the heap's turn.  The heap keeps the entry of a process that has left its
    slot, and a processor that runs it keeps the slot; these are the ways to get there. */
module StrideFaults {
  import opened MinHeap
  import opened Stride
  import opened StrideRuns
  import opened StrideShares

  predicate Bare(s: State, p: int) {
    0 <= p < |s.tickets| && s.tickets[p] == 0
  }

  // Something in the heap, or a running process if it may come back, has no tickets any more.
  ghost predicate Stale(s: State) {
    (exists x :: x in s.heap && Bare(s, x.idx)) || exists c :: MayFault(s, c)
  }

  predicate MayFault(s: State, c: int) {
    RunsHeap(s, c) && !s.modes[c].done && Bare(s, s.modes[c].p)
  }

  ghost predicate Entered(s: State, p: nat) {
    exists x :: x in s.heap && x.idx == p
  }

  // A process that leaves its slot has nothing in the heap, and does not come back.
  ghost predicate LeavesNothing(s: State, p: nat, back: bool) {
    !Entered(s, p) && forall c :: Heaped(s, c, p) && !s.modes[c].done ==> !back
  }

  // Whoever had tickets leaves nothing, and no slot is used again while a processor still has it.
  ghost predicate Clean(s: State, e: Event) {
    match e
    case Exit(p, back, _) => Slot(s, p) && s.tickets[p] > 0 ==> LeavesNothing(s, p, back)
    case Move(p, _, back) => Slot(s, p) && s.tickets[p] > 0 ==> LeavesNothing(s, p, back)
    case Take(p, _) => forall c :: !Heaped(s, c, p)
    case _ => true
  }

  // ---------- one step ----------

  // The pool of tickets is never a divisor below twenty; a process's tickets are zero if it has
  // left the slot it was run from.
  lemma DividesByZero(s: State, e: Event, t: State)
    requires Sane(s) && Step(s, e, t)
    ensures 20 <= 100 - s.sum <= 100
    ensures t.faulted <==> e.EndStride? && e.again && s.tickets[s.modes[e.c].p] == 0
    ensures t.faulted ==> Stale(s)
  {
    SumNat(s.tickets);
    if t.faulted {
      assert MayFault(s, e.c);
    }
  }

  lemma OthersKeepFresh(s: State, e: Event, t: State)
    requires Sane(s) && Step(s, e, t) && !Stale(s)
    requires e.NothingToRun? || e.StartMlfq? || e.Drop? || e.Tick? || e.Boost? || e.Share?
    ensures !t.faulted && !Stale(t)
  {
    SameLengths(s, e, t);
    forall x | x in t.heap
      ensures !Bare(t, x.idx)
    {
      assert x in s.heap;
    }
    forall c
      ensures !MayFault(t, c)
    {
      assert !MayFault(s, c);
    }
  }

  lemma ChosenIsFresh(s: State, e: Event, t: State)
    requires Sane(s) && Step(s, e, t) && !Stale(s) && e.StartStride?
    ensures !t.faulted && !Stale(t)
  {
    assert Node(e.p, e.minpv) in s.heap && Node(e.p, e.minpv).idx == e.p;
    forall c
      ensures !MayFault(t, c)
    {
      assert !MayFault(s, c);
    }
  }

  lemma EnteringKeepsFresh(s: State, e: Event, t: State)
    requires Sane(s) && Step(s, e, t) && !Stale(s) && (e.EndMlfq? || e.Wake?)
    ensures !t.faulted && !Stale(t)
  {
    var p := if e.EndMlfq? then s.modes[e.c].p else e.p;
    assert SlotFits(s, p);
    forall c
      ensures !MayFault(t, c)
    {
      assert !MayFault(s, c);
    }
  }

  lemma ReturnKeepsFresh(s: State, e: Event, t: State)
    requires Sane(s) && Step(s, e, t) && !Stale(s) && e.EndStride?
    ensures !t.faulted && !Stale(t)
  {
    assert !MayFault(s, e.c) && RunsHeap(s, e.c);
    forall c
      ensures !MayFault(t, c)
    {
      assert !MayFault(s, c);
    }
  }

  lemma LeavingStales(s: State, e: Event, t: State, p: nat, back: bool)
    requires Sane(s) && Step(s, e, t) && !Stale(s)
    requires (e.Exit? && e.p == p && e.back == back) || (e.Move? && e.p == p && e.back == back)
    ensures !t.faulted && (Stale(t) <==> !Clean(s, e))
  {
    forall c
      ensures MayFault(t, c) <==> Heaped(s, c, p) && !s.modes[c].done && back && s.tickets[p] > 0
    {
      assert !MayFault(s, c);
      assert 0 <= c < |s.modes| ==> t.modes[c] == Left(s.modes[c], p, back);
    }
    forall x | x in s.heap
      ensures Bare(t, x.idx) <==> x.idx == p && s.tickets[p] > 0
    {
      assert !Bare(s, x.idx);
    }
  }

  lemma TakingStales(s: State, e: Event, t: State)
    requires Sane(s) && Step(s, e, t) && !Stale(s) && e.Take?
    ensures !t.faulted && (Stale(t) <==> !Clean(s, e))
  {
    assert SlotFits(s, e.p);
    forall c
      ensures MayFault(t, c) <==> Heaped(s, c, e.p)
    {
      assert !MayFault(s, c);
      assert 0 <= c < |s.modes| ==> t.modes[c] == Retaken(s.modes[c], e.p);
    }
  }

  // A state without stale entries becomes one with them exactly by an unclean step.
  lemma BecomesStale(s: State, e: Event, t: State)
    requires Sane(s) && Step(s, e, t) && !Stale(s)
    ensures !t.faulted && (Stale(t) <==> !Clean(s, e))
  {
    match e {
      case Exit(p, back, _) => LeavingStales(s, e, t, p, back);
      case Move(p, _, back) => LeavingStales(s, e, t, p, back);
      case Take(_, _) => TakingStales(s, e, t);
      case EndMlfq(_, _, _, _) => EnteringKeepsFresh(s, e, t);
      case Wake(_, _, _) => EnteringKeepsFresh(s, e, t);
      case EndStride(_, _, _) => ReturnKeepsFresh(s, e, t);
      case StartStride(_, _, _) => ChosenIsFresh(s, e, t);
      case _ => OthersKeepFresh(s, e, t);
    }
  }

  // ---------- runs ----------

  ghost predicate GoesAt(states: seq<State>, events: seq<Event>, i: nat)
    requires i < |events| < |states|
  {
    Goes(states[i], events[i], states[i + 1])
  }

  ghost predicate Goes(s: State, e: Event, t: State) {
    Step(s, e, t) && Clean(s, e)
  }

  // As long as nobody leaves an entry behind, no run divides by zero, with any number of processors
  // and any number of ticks measured.
  lemma {:induction false} CleanNeverFaults(states: seq<State>, events: seq<Event>, j: nat)
    requires |states| == |events| + 1 && j < |states| && Sane(states[0]) && !Stale(states[0]) && !states[0].faulted
    requires forall i {:trigger GoesAt(states, events, i)} :: 0 <= i < j ==> GoesAt(states, events, i)
    ensures Sane(states[j]) && !Stale(states[j]) && !states[j].faulted
  {
    if j > 0 {
      CleanNeverFaults(states, events, j - 1);
      assert GoesAt(states, events, j - 1);
      StaysSane(states[j - 1], events[j - 1], states[j]);
      BecomesStale(states[j - 1], events[j - 1], states[j]);
    }
  }

  // A run of n clean steps can end with the division by zero.
  ghost predicate CanFault(s: State, n: nat)
    decreases n
  {
    s.faulted || (n > 0 && exists e, t :: Goes(s, e, t) && CanFault(t, n - 1))
  }

  lemma {:induction false} FreshCannot(s: State, n: nat)
    requires Sane(s) && !Stale(s) && !s.faulted
    ensures !CanFault(s, n)
    decreases n
  {
    if n > 0 {
      forall e, t | Goes(s, e, t)
        ensures !CanFault(t, n - 1)
      {
        StaysSane(s, e, t);
        BecomesStale(s, e, t);
        FreshCannot(t, n - 1);
      }
    }
  }

  // ---------- a stale entry is fatal ----------

  predicate HasStale(s: State, x: Node) {
    x in s.heap && Bare(s, x.idx)
  }

  lemma OneMore(s: State, e: Event, t: State, n: nat)
    requires Goes(s, e, t) && CanFault(t, n)
    ensures CanFault(s, n + 1)
  {
  }

  lemma ComesBack(s: State, c: nat)
    requires Sane(s) && !s.faulted && MayFault(s, c)
    ensures CanFault(s, 1)
  {
    var p := s.modes[c].p;
    assert Goes(s, EndStride(c, true, false), s.(ticks := s.ticks[p := s.ticks[p] + 1], faulted := true));
  }

  ghost predicate AllLook(s: State) {
    |s.modes| > 0 && forall c :: 0 <= c < |s.modes| ==> s.modes[c].Looking?
  }

  ghost predicate Ready(s: State, x: Node) {
    Inv(s) && !s.faulted && HasStale(s, x)
  }

  // It is first in the heap: its slot is used again, and its process run.
  lemma FirstFaults(s: State, x: Node)
    requires Ready(s, x) && AllLook(s) && x.idx !in s.unused && StrideTurn(s) && Top(s.heap, x.pass)
    ensures CanFault(s, 2)
  {
    var p: nat := x.idx;
    var e := StartStride(0, p, x.pass);
    var t := s.(heap := s.heap - multiset{x}, modes := s.modes[0 := InStride(p, s.ticks[p], x.pass, false)]);
    assert x == Node(p, x.pass);
    assert Goes(s, e, t);
    StepKeeps(s, e, t);
    assert MayFault(t, 0);
    ComesBack(t, 0);
    OneMore(s, e, t, 1);
  }

  lemma UsedAgain(s: State, x: Node)
    requires Ready(s, x) && AllLook(s) && StrideTurn(s) && Top(s.heap, x.pass)
    ensures CanFault(s, 3)
  {
    if x.idx in s.unused {
      var e, t := Take(x.idx, false), s.(unused := s.unused - {x.idx}, modes := AllRetaken(s.modes, x.idx));
      assert t.modes == s.modes;
      StepKeeps(s, e, t);
      FirstFaults(t, x);
      OneMore(s, e, t, 2);
    } else {
      FirstFaults(s, x);
      Longer(s, 2, 3);
    }
  }

  lemma {:induction false} Longer(s: State, n: nat, m: nat)
    requires CanFault(s, n) && n <= m
    ensures CanFault(s, m)
    decreases n
  {
    if !s.faulted {
      var e, t :| Goes(s, e, t) && CanFault(t, n - 1);
      Longer(t, n - 1, m - 1);
      OneMore(s, e, t, m - 1);
    }
  }

  function Distance(from: int, to: int): nat {
    if from < to then to - from else 0
  }

  // The queues get their turns until it is the heap's, and what is before the entry is dropped.
  lemma {:induction false} Surfaces(s: State, x: Node) returns (n: nat)
    requires Ready(s, x) && AllLook(s)
    ensures CanFault(s, n)
    decreases |s.heap|, Distance(s.mlfqpv, x.pass), 100 - s.idle[0]
  {
    var top := Least(s.heap, x.pass);
    assert Top(s.heap, top);
    if s.mlfqpv < top {
      n := Waits(s, x, top);
    } else if top == x.pass {
      UsedAgain(s, x);
      n := 3;
    } else {
      var y :| y in s.heap && y.pass == top;
      var e, t := Drop(0, y.idx, top), s.(heap := s.heap - multiset{y});
      assert y == Node(y.idx, y.pass);
      StepKeeps(s, e, t);
      assert |t.heap| < |s.heap|;
      n := Surfaces(t, x);
      OneMore(s, e, t, n);
      n := n + 1;
    }
  }

  lemma {:induction false} Waits(s: State, x: Node, top: int) returns (n: nat)
    requires Ready(s, x) && AllLook(s) && Top(s.heap, top) && s.mlfqpv < top <= x.pass
    ensures CanFault(s, n)
    decreases |s.heap|, Distance(s.mlfqpv, x.pass), 100 - s.idle[0], 0
  {
    MlfqStrideBounds(s.sum);
    var t := if s.idle[0] + 1 >= 100 then s.(idle := s.idle[0 := 0], mlfqpv := s.mlfqpv + MlfqStride(s.sum))
             else s.(idle := s.idle[0 := s.idle[0] + 1]);
    assert Goes(s, NothingToRun(0), t);
    StepKeeps(s, NothingToRun(0), t);
    n := Surfaces(t, x);
    OneMore(s, NothingToRun(0), t, n);
    n := n + 1;
  }

  // Whoever is run is back before that, and sleeps.
  lemma {:induction false} BackFirst(s: State, x: Node, i: nat) returns (n: nat)
    requires Ready(s, x) && |s.modes| > 0 && i <= |s.modes| && forall c :: 0 <= c < i ==> s.modes[c].Looking?
    ensures CanFault(s, n)
    decreases |s.modes| - i
  {
    if i == |s.modes| {
      n := Surfaces(s, x);
    } else if s.modes[i].Looking? {
      n := BackFirst(s, x, i + 1);
    } else {
      var e, t := Sleeps(s, i);
      StepKeeps(s, e, t);
      n := BackFirst(t, x, i + 1);
      OneMore(s, e, t, n);
      n := n + 1;
    }
  }

  lemma Sleeps(s: State, c: nat) returns (e: Event, t: State)
    requires Inv(s) && !s.faulted && c < |s.modes| && !s.modes[c].Looking?
    ensures Goes(s, e, t) && Spared(s, e) && !t.faulted && t.heap == s.heap && t.tickets == s.tickets && t.modes == s.modes[c := Looking]
  {
    var p := s.modes[c].p;
    t := s.(modes := s.modes[c := Looking], ticks := s.ticks[p := s.ticks[p] + 1]);
    if s.modes[c].InMlfq? {
      e := EndMlfq(c, false, false, false);
      t := t.(mlfqpv := s.mlfqpv + Elapsed(s, c) * MlfqStride(s.sum));
    } else {
      e := EndStride(c, false, false);
    }
  }

  lemma StaleCan(s: State) returns (n: nat)
    requires Inv(s) && Stale(s) && !s.faulted && |s.modes| > 0
    ensures CanFault(s, n)
  {
    if c :| MayFault(s, c) {
      ComesBack(s, c);
      n := 1;
    } else {
      var x :| x in s.heap && Bare(s, x.idx);
      n := BackFirst(s, x, 0);
    }
  }

  // With any number of processors: a division by zero can still come, with nobody else leaving
  // anything behind, exactly if there is a stale entry.
  lemma FaultsExactly(s: State)
    requires Inv(s) && !s.faulted && |s.modes| > 0
    ensures (exists n :: CanFault(s, n)) <==> Stale(s)
  {
    if Stale(s) {
      var n := StaleCan(s);
      assert CanFault(s, n);
    } else {
      forall n: nat
        ensures !CanFault(s, n)
      {
        FreshCannot(s, n);
      }
    }
  }

  // ---------- runs that end so ----------

  // Process 1 is run; another of its threads wakes up, which puts it into the heap, and it exits.
  // The slot is taken again, the entry found, and the new process has no tickets.
  function At(k: nat): State {
    var entered, none := multiset{Node(1, 0)}, multiset{};
    match k
    case 0 => State(0, entered, [Looking], [0, 5], [0, 0], {1}, {}, 5, [0], false)
    case 1 => State(0, none, [InStride(1, 0, 0, false)], [0, 5], [0, 0], {1}, {}, 5, [0], false)
    case 2 => State(0, entered, [InStride(1, 0, 0, false)], [0, 5], [0, 0], {1}, {}, 5, [0], false)
    case 3 => State(0, entered, [InStride(1, 0, 0, true)], [0, 0], [0, 0], {}, {1}, 0, [0], false)
    case 4 => State(0, entered, [Looking], [0, 0], [0, 1], {}, {1}, 0, [0], false)
    case 5 => State(0, entered, [Looking], [0, 0], [0, 0], {}, {}, 0, [0], false)
    case 6 => State(0, none, [InStride(1, 0, 0, false)], [0, 0], [0, 0], {}, {}, 0, [0], false)
    case _ => State(0, none, [InStride(1, 0, 0, false)], [0, 0], [0, 1], {}, {}, 0, [0], true)
  }

  function Does(k: nat): Event {
    match k
    case 0 => StartStride(0, 1, 0)
    case 1 => Wake(1, true, false)
    case 2 => Exit(1, false, false)
    case 3 => EndStride(0, false, false)
    case 4 => Take(1, true)
    case 5 => StartStride(0, 1, 0)
    case _ => EndStride(0, true, false)
  }

  lemma OneEntry()
    ensures var x := Node(1, 0); x in multiset{x} && multiset{x} - multiset{x} == multiset{} && Top(multiset{x}, 0)
    ensures Top(multiset{}, -1) && Entry(0, multiset{}, 0)
  {
    assert Node(1, 0) in multiset{Node(1, 0)};
    assert Top(multiset{}, -1);
  }

  ghost predicate Happens(k: nat) {
    Step(At(k), Does(k), At(k + 1)) && Measured(At(k), Does(k), 1) && Spared(At(k), Does(k))
  }

  lemma RunAndWoken(k: nat)
    requires k == 0 || k == 1 || k == 5
    ensures Happens(k)
  {
    OneEntry();
  }

  lemma ExitsAndReused(k: nat)
    requires k == 2 || k == 4
    ensures Happens(k)
  {
    assert [0, 5][1 := 0] == [0, 0] && [0, 1][1 := 0] == [0, 0];
    assert k == 2 ==> {1} - {1} == At(3).share && AllLeft(At(2).modes, 1, false) == At(3).modes;
    assert k == 4 ==> {1} - {1} == At(5).unused && AllRetaken(At(4).modes, 1) == At(5).modes;
  }

  lemma IsBack(k: nat)
    requires k == 3 || k == 6
    ensures Happens(k)
  {
    assert [0, 0][1 := 1] == [0, 1];
  }

  lemma StepsAt(k: nat)
    requires k < 7
    ensures Happens(k)
  {
    if k == 0 || k == 1 || k == 5 {
      RunAndWoken(k);
    } else if k == 2 || k == 4 {
      ExitsAndReused(k);
    } else {
      IsBack(k);
    }
  }

  lemma ReadyInv()
    ensures Inv(At(0)) && Near(At(0), 1) && !Stale(At(0))
  {
    var s := At(0);
    assert Sum([0, 5]) == 5 by {
      assert [0, 5][..1] == [0] && [0][..0] == [];
    }
    assert Queued([Looking]) == 0 by {
      assert [Looking][..0] == [];
    }
    NotAfterTime(s, 0);
  }

  lemma StaleEntryFaults()
    ensures exists states: seq<State>, events: seq<Event> ::
              Run(states, events, 1) && SparedRun(states, events) && Inv(states[0]) && Near(states[0], 1)
              && !Stale(states[0]) && states[|events|].faulted
  {
    var states, events := seq(8, k requires 0 <= k => At(k)), seq(7, k requires 0 <= k => Does(k));
    forall k | 0 <= k < 7
      ensures StepAt(states, events, 1, k) && Spared(states[k], events[k])
    {
      StepsAt(k);
    }
    ReadyInv();
    assert Run(states, events, 1);
  }

  // Nothing need be in the heap: another thread than the first calls exec while its process is run,
  // and forks; the child gets the slot that the processor still has, and is runnable.
  function Forks(k: nat): State {
    var none := multiset{};
    match k
    case 0 => State(0, none, [InStride(1, 0, 0, false)], [0, 5, 0], [0, 0, 0], {1}, {}, 5, [0], false)
    case 1 => State(0, none, [InStride(1, 0, 0, true)], [0, 0, 5], [0, 0, 0], {2}, {1}, 5, [0], false)
    case 2 => State(0, none, [InStride(1, 0, 0, false)], [0, 0, 5], [0, 0, 0], {2}, {}, 5, [0], false)
    case _ => State(0, none, [InStride(1, 0, 0, false)], [0, 0, 5], [0, 1, 0], {2}, {}, 5, [0], true)
  }

  lemma ForkStart()
    ensures Inv(Forks(0)) && !Stale(Forks(0))
  {
    assert Sum([0, 5, 0]) == 5 by {
      assert [0, 5, 0][..2] == [0, 5] && [0, 5][..1] == [0] && [0][..0] == [];
    }
  }

  lemma ForkMoves()
    ensures Goes(Forks(0), Move(1, 2, false), Forks(1))
  {
    assert [0, 5, 0][1 := 0][2 := 5] == [0, 0, 5] && [0, 0, 0][2 := 0][1 := 0] == [0, 0, 0];
    assert {1} - {1} + {2} == {2} && {} + {1} == {1};
    assert AllLeft(Forks(0).modes, 1, false) == Forks(1).modes;
  }

  lemma ForkTakes()
    ensures Step(Forks(1), Take(1, true), Forks(2)) && !Clean(Forks(1), Take(1, true))
  {
    assert {1} - {1} == Forks(2).unused && [0, 0, 0][1 := 0] == [0, 0, 0];
    assert AllRetaken(Forks(1).modes, 1) == Forks(2).modes;
    assert Heaped(Forks(1), 0, 1);
  }

  lemma ForkFaults()
    ensures Inv(Forks(0)) && !Stale(Forks(0)) && Forks(3).faulted
    ensures Goes(Forks(0), Move(1, 2, false), Forks(1))
    ensures Step(Forks(1), Take(1, true), Forks(2)) && !Clean(Forks(1), Take(1, true))
    ensures Step(Forks(2), EndStride(0, true, false), Forks(3))
  {
    ForkStart();
    ForkMoves();
    ForkTakes();
    assert [0, 0, 0][1 := 1] == [0, 1, 0];
  }
}
