/** Stride scheduling beside the feedback queues: who is next is decided by pass values, and
    every tick used moves a pass value on.  Each processor runs the scheduler, over the same heap and
    the same pass value of the queues.  The states are those between two changes made under the lock
    of the process table, in whatever order they come. */
module Stride {
  import opened MinHeap

  const BIGNUM := 10000

  // What a processor is doing: looking for a process, or running one that came from the queues or
  // from the heap, with the ticks of its slot at that time, and there with the pass value it had;
  // done says that none of its threads is left to come back.
  datatype Mode =
    | Looking
    | InMlfq(p: nat, before: int)
    | InStride(p: nat, before: int, minpv: int, done: bool)

  // By slot of the process table: the tickets asked for, the ticks counted, whether the level is that
  // of the heap, and whether there is no process; idle counts, by processor, rounds with empty queues.
  // After a division by zero nothing happens any more.
  datatype State = State(mlfqpv: int, heap: multiset<Node>, modes: seq<Mode>, tickets: seq<nat>, ticks: seq<int>,
                         share: set<nat>, unused: set<nat>, sum: int, idle: seq<nat>, faulted: bool)

  function Sum(s: seq<nat>): nat {
    if s == [] then 0 else Sum(s[..|s| - 1]) + s[|s| - 1]
  }

  // ---------- virtual time ----------

  predicate RunsHeap(s: State, c: int) {
    0 <= c < |s.modes| && s.modes[c].InStride?
  }

  predicate Runs(s: State, c: int, p: nat) {
    0 <= c < |s.modes| && !s.modes[c].Looking? && s.modes[c].p == p
  }

  ghost predicate NotAfter(s: State, v: int) {
    v <= s.mlfqpv && (forall x :: x in s.heap ==> v <= x.pass) && forall c :: RunsHeap(s, c) ==> v <= s.modes[c].minpv
  }

  ghost predicate IsTime(s: State, v: int) {
    NotAfter(s, v)
    && (v == s.mlfqpv || (exists x :: x in s.heap && x.pass == v) || exists c :: RunsHeap(s, c) && s.modes[c].minpv == v)
  }

  lemma {:induction false} Least(h: multiset<Node>, v: int) returns (m: int)
    ensures m <= v && (forall x :: x in h ==> m <= x.pass) && (m == v || exists x :: x in h && x.pass == m)
    decreases |h|
  {
    m := v;
    if h != multiset{} {
      var x :| x in h;
      m := Least(h - multiset{x}, if x.pass < v then x.pass else v);
      forall y | y in h
        ensures m <= y.pass
      {
        assert y in h - multiset{x} || y == x;
      }
    }
  }

  // The least of v and the pass values of the processes that the first n processors run.
  lemma {:induction false} LeastRun(s: State, v: int, n: nat) returns (m: int)
    requires n <= |s.modes|
    ensures m <= v && forall c :: c < n && RunsHeap(s, c) ==> m <= s.modes[c].minpv
    ensures m == v || exists c :: RunsHeap(s, c) && s.modes[c].minpv == m
  {
    m := v;
    if n > 0 {
      m := LeastRun(s, v, n - 1);
      if RunsHeap(s, n - 1) && s.modes[n - 1].minpv < m {
        m := s.modes[n - 1].minpv;
      }
    }
  }

  lemma HasTime(s: State)
    ensures exists v :: IsTime(s, v)
  {
    var v := LeastRun(s, s.mlfqpv, |s.modes|);
    var m := Least(s.heap, v);
    assert IsTime(s, m);
  }

  // The least of all pass values, those of the running processes included.
  ghost function Time(s: State): (v: int)
    ensures IsTime(s, v)
  {
    HasTime(s);
    var v :| IsTime(s, v);
    v
  }

  // ---------- what happens ----------

  // The heap's least pass value, or -1; it is then the turn of the queues.
  ghost predicate Top(h: multiset<Node>, v: int) {
    if h == multiset{} then v == -1 else (exists x :: x in h && x.pass == v) && forall x :: x in h ==> v <= x.pass
  }

  ghost predicate MlfqTurn(s: State) {
    exists minpv :: Top(s.heap, minpv) && (s.mlfqpv < minpv || minpv == -1)
  }

  ghost predicate StrideTurn(s: State) {
    exists minpv :: Top(s.heap, minpv) && !(s.mlfqpv < minpv || minpv == -1)
  }

  // The pass value of a process that comes into the heap.
  ghost predicate Entry(mlfqpv: int, h: multiset<Node>, v: int) {
    exists top :: Top(h, top) && v == if mlfqpv < top || top == -1 then mlfqpv else top
  }

  // It comes in at the least pass value that there is, in front of nobody.
  lemma EntryExactly(mlfqpv: int, h: multiset<Node>, v: int)
    requires forall x :: x in h ==> x.pass >= 0
    ensures Entry(mlfqpv, h, v) <==>
              v <= mlfqpv && (forall x :: x in h ==> v <= x.pass) && (v == mlfqpv || exists x :: x in h && x.pass == v)
  {
    var top := -1;
    if h != multiset{} {
      var x :| x in h;
      top := Least(h, x.pass);
    }
    assert Top(h, top);
  }

  // The heap may refuse.
  predicate Inserted(h: multiset<Node>, x: Node, took: bool, now: multiset<Node>) {
    now == if took then h + multiset{x} else h
  }

  function MlfqStride(sum: int): int
    requires sum < 100
  {
    BIGNUM / (100 - sum)
  }

  // c is the processor, again whether the process has a thread that wants to go on, spent whether it
  // has used up its allotment.  A process is woken up, by the clock or not; kill counts as the clock.
  // A slot is taken by a new process, or by a thread, which keeps the ticks found there.  A process
  // exits, or moves to the slot of one of its threads when that thread calls exec; back says that the
  // slot it leaves still counts others, cleared that it was not its own first thread that exited.
  // Ticks are counted up and down by the timer, and a boost starts a process afresh in the queues.
  datatype Event =
    | NothingToRun(c: nat)
    | StartMlfq(c: nat, p: nat)
    | EndMlfq(c: nat, again: bool, took: bool, spent: bool)
    | StartStride(c: nat, p: nat, minpv: int)
    | Drop(c: nat, p: nat, minpv: int)
    | EndStride(c: nat, again: bool, took: bool)
    | Wake(p: nat, took: bool, clock: bool)
    | Share(p: nat, req: int)
    | Take(p: nat, anew: bool)
    | Exit(p: nat, back: bool, cleared: bool)
    | Move(p: nat, r: nat, back: bool)
    | Tick(p: nat, up: bool)
    | Boost(p: nat)

  predicate Looks(s: State, c: nat) {
    c < |s.modes| == |s.idle| && s.modes[c].Looking?
  }

  // A process has a slot, with ticks and tickets.
  predicate Slot(s: State, p: nat) {
    p < |s.tickets| == |s.ticks|
  }

  ghost predicate Idles(s: State, c: nat, t: State) {
    Looks(s, c) && MlfqTurn(s) && s.sum < 100
    && t == if s.idle[c] + 1 >= 100 then s.(idle := s.idle[c := 0], mlfqpv := s.mlfqpv + MlfqStride(s.sum))
            else s.(idle := s.idle[c := s.idle[c] + 1])
  }

  ghost predicate StartsMlfq(s: State, c: nat, p: nat, t: State) {
    Looks(s, c) && MlfqTurn(s) && Slot(s, p) && p !in s.unused && t == s.(modes := s.modes[c := InMlfq(p, s.ticks[p])])
  }

  // Process p comes into the heap, if it is one of the heap's.
  ghost predicate Comes(s: State, mlfqpv: int, p: nat, took: bool, now: multiset<Node>) {
    if p in s.share then exists v :: Entry(mlfqpv, s.heap, v) && Inserted(s.heap, Node(p, v), took, now) else now == s.heap
  }

  // A process is back: the ticks that are measured, its own last one included.
  function Elapsed(s: State, c: nat): int
    requires c < |s.modes| && !s.modes[c].Looking? && s.modes[c].p < |s.ticks|
  {
    s.ticks[s.modes[c].p] + 1 - s.modes[c].before
  }

  predicate FromMlfq(s: State, c: nat) {
    c < |s.modes| && s.modes[c].InMlfq? && Slot(s, s.modes[c].p)
  }

  predicate FromStride(s: State, c: nat) {
    c < |s.modes| && s.modes[c].InStride? && Slot(s, s.modes[c].p)
  }

  ghost predicate EndsMlfq(s: State, c: nat, again: bool, took: bool, spent: bool, t: State) {
    FromMlfq(s, c) && s.sum < 100 &&
    var p := s.modes[c].p;
    && t.mlfqpv == s.mlfqpv + Elapsed(s, c) * MlfqStride(s.sum) && (spent ==> p !in s.share)
    && t == s.(mlfqpv := t.mlfqpv, modes := s.modes[c := Looking], heap := t.heap,
               ticks := s.ticks[p := if spent then 0 else s.ticks[p] + 1])
    && if again then Comes(s, t.mlfqpv, p, took, t.heap) else t.heap == s.heap
  }

  ghost predicate StartsStride(s: State, c: nat, p: nat, minpv: int, t: State) {
    Looks(s, c) && StrideTurn(s) && Top(s.heap, minpv) && Node(p, minpv) in s.heap && Slot(s, p) && p !in s.unused
    && t == s.(heap := s.heap - multiset{Node(p, minpv)}, modes := s.modes[c := InStride(p, s.ticks[p], minpv, false)])
  }

  ghost predicate Drops(s: State, c: nat, p: nat, minpv: int, t: State) {
    Looks(s, c) && StrideTurn(s) && Top(s.heap, minpv) && Node(p, minpv) in s.heap
    && t == s.(heap := s.heap - multiset{Node(p, minpv)})
  }

  function NextPass(minpv: int, tickets: nat, m: int): int
    requires tickets > 0
  {
    minpv + BIGNUM / tickets * m
  }

  ghost predicate EndsStride(s: State, c: nat, again: bool, took: bool, t: State) {
    FromStride(s, c) && (s.modes[c].done ==> !again) &&
    var p := s.modes[c].p;
    && t.ticks == s.ticks[p := s.ticks[p] + 1]
    && if again && s.tickets[p] == 0 then t == s.(ticks := t.ticks, faulted := true)
       else t == s.(modes := s.modes[c := Looking], heap := t.heap, ticks := t.ticks)
            && if again then Inserted(s.heap, Node(p, NextPass(s.modes[c].minpv, s.tickets[p], Elapsed(s, c))), took, t.heap)
               else t.heap == s.heap
  }

  ghost predicate Wakes(s: State, p: nat, took: bool, clock: bool, t: State) {
    Slot(s, p) && t == s.(heap := t.heap, ticks := if clock && p !in s.share then s.ticks[p := 0] else s.ticks)
    && Comes(s, s.mlfqpv, p, took, t.heap)
  }

  ghost predicate Shares(s: State, p: nat, req: int, t: State) {
    Slot(s, p) && p !in s.unused
    && t == if req <= 0 || s.sum + req - s.tickets[p] > 80 then s
            else s.(tickets := s.tickets[p := req], share := s.share + {p}, sum := s.sum + req - s.tickets[p])
  }

  // The slot is left; if a processor runs its process, that may still be counted runnable.
  function Left(mode: Mode, p: nat, back: bool): Mode {
    if mode.InStride? && mode.p == p then mode.(done := mode.done || !back) else mode
  }

  // The slot is used again; its new process may become runnable.
  function Retaken(mode: Mode, p: nat): Mode {
    if mode.InStride? && mode.p == p then mode.(done := false) else mode
  }

  function AllLeft(modes: seq<Mode>, p: nat, back: bool): seq<Mode> {
    seq(|modes|, c requires 0 <= c < |modes| => Left(modes[c], p, back))
  }

  function AllRetaken(modes: seq<Mode>, p: nat): seq<Mode> {
    seq(|modes|, c requires 0 <= c < |modes| => Retaken(modes[c], p))
  }

  ghost predicate Takes(s: State, p: nat, anew: bool, t: State) {
    Slot(s, p) && p in s.unused
    && t == s.(unused := s.unused - {p}, modes := AllRetaken(s.modes, p), ticks := if anew then s.ticks[p := 0] else s.ticks)
  }

  // Nothing is taken out of the heap.
  ghost predicate Exits(s: State, p: nat, back: bool, cleared: bool, t: State) {
    Slot(s, p) && p !in s.unused
    && t == s.(tickets := s.tickets[p := 0], share := s.share - {p}, unused := s.unused + {p}, sum := s.sum - s.tickets[p],
               modes := AllLeft(s.modes, p, back), ticks := if cleared then s.ticks[p := 0] else s.ticks)
  }

  ghost predicate Moves(s: State, p: nat, r: nat, back: bool, t: State) {
    Slot(s, p) && Slot(s, r) && p != r && p !in s.unused && r !in s.unused && r !in s.share && s.tickets[r] == 0
    && t == s.(tickets := s.tickets[p := 0][r := s.tickets[p]], share := if p in s.share then s.share - {p} + {r} else s.share,
               unused := s.unused + {p}, modes := AllLeft(s.modes, p, back), ticks := s.ticks[r := s.ticks[p]][p := 0])
  }

  ghost predicate Counts(s: State, p: nat, up: bool, t: State) {
    Slot(s, p) && t == s.(ticks := s.ticks[p := s.ticks[p] + if up then 1 else -1])
  }

  // The process may have asked for tickets since it was queued; it keeps them.
  ghost predicate Boosts(s: State, p: nat, t: State) {
    Slot(s, p) && p !in s.unused && t == s.(ticks := s.ticks[p := 0], share := s.share - {p})
  }

  ghost predicate Step(s: State, e: Event, t: State) {
    !s.faulted &&
    match e
    case NothingToRun(c) => Idles(s, c, t)
    case StartMlfq(c, p) => StartsMlfq(s, c, p, t)
    case EndMlfq(c, again, took, spent) => EndsMlfq(s, c, again, took, spent, t)
    case StartStride(c, p, minpv) => StartsStride(s, c, p, minpv, t)
    case Drop(c, p, minpv) => Drops(s, c, p, minpv, t)
    case EndStride(c, again, took) => EndsStride(s, c, again, took, t)
    case Wake(p, took, clock) => Wakes(s, p, took, clock, t)
    case Share(p, req) => Shares(s, p, req, t)
    case Take(p, anew) => Takes(s, p, anew, t)
    case Exit(p, back, cleared) => Exits(s, p, back, cleared, t)
    case Move(p, r, back) => Moves(s, p, r, back, t)
    case Tick(p, up) => Counts(s, p, up, t)
    case Boost(p) => Boosts(s, p, t)
  }

  // ---------- what always holds ----------

  // Those with the heap have tickets; a slot without a process has none.
  predicate SlotFits(s: State, p: nat) {
    && (p in s.share ==> p < |s.tickets| && s.tickets[p] > 0)
    && (p in s.unused ==> p < |s.tickets| && p !in s.share && s.tickets[p] == 0)
  }

  ghost predicate Slots(s: State) {
    && |s.ticks| == |s.tickets| && |s.idle| == |s.modes|
    && (forall p: nat :: SlotFits(s, p))
    && (forall x :: x in s.heap ==> 0 <= x.idx < |s.tickets|)
    && (forall c :: 0 <= c < |s.modes| && !s.modes[c].Looking? ==> s.modes[c].p < |s.tickets|)
  }

  ghost predicate Sane(s: State) {
    Slots(s) && s.sum == Sum(s.tickets) && s.sum <= 80 && forall c :: 0 <= c < |s.idle| ==> s.idle[c] < 100
  }

  lemma {:induction false} SumUpdated(s: seq<nat>, p: nat, v: nat)
    requires p < |s|
    ensures Sum(s[p := v]) == Sum(s) - s[p] + v
  {
    var n := |s| - 1;
    if p == n {
      assert s[p := v][..n] == s[..n];
    } else {
      assert s[p := v][..n] == s[..n][p := v];
      SumUpdated(s[..n], p, v);
    }
  }

  // Slots change hands, or what is in the heap changes, but not both.
  predicate Tables(e: Event) {
    e.Share? || e.Take? || e.Exit? || e.Move? || e.Boost?
  }

  lemma SameLengths(s: State, e: Event, t: State)
    requires Step(s, e, t)
    ensures |t.tickets| == |s.tickets| && |t.modes| == |s.modes| && |t.ticks| == |s.ticks| && |t.idle| == |s.idle|
  {
  }

  lemma OneOrOther(s: State, e: Event, t: State)
    requires Step(s, e, t)
    ensures if Tables(e) then t.heap == s.heap && t.mlfqpv == s.mlfqpv && t.idle == s.idle
            else t.tickets == s.tickets && t.share == s.share && t.unused == s.unused && t.sum == s.sum
  {
  }

  lemma SumKept(s: State, e: Event, t: State)
    requires Sane(s) && Step(s, e, t)
    ensures t.sum == Sum(t.tickets) && t.sum <= 80 && forall c :: 0 <= c < |t.idle| ==> t.idle[c] < 100
  {
    SameLengths(s, e, t);
    OneOrOther(s, e, t);
    match e {
      case Share(p, req) =>
        if req > 0 {
          SumUpdated(s.tickets, p, req);
        }
      case Exit(p, _, _) =>
        SumUpdated(s.tickets, p, 0);
      case Move(p, r, _) =>
        SumUpdated(s.tickets, p, 0);
        SumUpdated(s.tickets[p := 0], r, s.tickets[p]);
      case _ =>
    }
  }

  lemma SharesFit(s: State, x: nat, req: int, t: State, p: nat)
    requires Slots(s) && Shares(s, x, req, t)
    ensures SlotFits(t, p)
  {
    assert SlotFits(s, p) && SlotFits(s, x);
  }

  lemma ExitsFit(s: State, x: nat, back: bool, cleared: bool, t: State, p: nat)
    requires Slots(s) && Exits(s, x, back, cleared, t)
    ensures SlotFits(t, p)
  {
    assert SlotFits(s, p) && SlotFits(s, x);
  }

  lemma MovesFit(s: State, x: nat, r: nat, back: bool, t: State, p: nat)
    requires Slots(s) && Moves(s, x, r, back, t)
    ensures SlotFits(t, p)
  {
    assert SlotFits(s, p) && SlotFits(s, x) && SlotFits(s, r);
  }

  lemma SlotKept(s: State, e: Event, t: State, p: nat)
    requires Slots(s) && Step(s, e, t)
    ensures SlotFits(t, p)
  {
    SameLengths(s, e, t);
    OneOrOther(s, e, t);
    assert SlotFits(s, p);
    match e {
      case Share(x, req) => SharesFit(s, x, req, t, p);
      case Exit(x, back, cleared) => ExitsFit(s, x, back, cleared, t, p);
      case Move(x, r, back) => MovesFit(s, x, r, back, t, p);
      case _ =>
    }
  }

  lemma ComesFits(s: State, mlfqpv: int, p: nat, took: bool, now: multiset<Node>)
    requires Slots(s) && Comes(s, mlfqpv, p, took, now)
    ensures forall x :: x in now ==> 0 <= x.idx < |s.tickets|
  {
    assert SlotFits(s, p);
  }

  lemma SlotsInHeap(s: State, e: Event, t: State)
    requires Slots(s) && Step(s, e, t)
    ensures forall x :: x in t.heap ==> 0 <= x.idx < |t.tickets|
  {
    SameLengths(s, e, t);
    OneOrOther(s, e, t);
    match e {
      case EndMlfq(c, again, took, _) =>
        if again {
          ComesFits(s, t.mlfqpv, s.modes[c].p, took, t.heap);
        }
      case Wake(p, took, _) => ComesFits(s, s.mlfqpv, p, took, t.heap);
      case _ =>
    }
  }

  lemma SlotsOfModes(s: State, e: Event, t: State, c: nat)
    requires Slots(s) && Step(s, e, t) && c < |t.modes|
    ensures !t.modes[c].Looking? ==> t.modes[c].p < |t.tickets|
  {
    SameLengths(s, e, t);
    OneOrOther(s, e, t);
  }

  lemma SlotsKept(s: State, e: Event, t: State)
    requires Slots(s) && Step(s, e, t)
    ensures Slots(t)
  {
    SameLengths(s, e, t);
    OneOrOther(s, e, t);
    SlotsInHeap(s, e, t);
    forall p: nat
      ensures SlotFits(t, p)
    {
      SlotKept(s, e, t, p);
    }
    forall c | 0 <= c < |t.modes| && !t.modes[c].Looking?
      ensures t.modes[c].p < |t.tickets|
    {
      SlotsOfModes(s, e, t, c);
    }
  }

  // Whatever happens, the tables stay consistent.
  lemma StaysSane(s: State, e: Event, t: State)
    requires Sane(s) && Step(s, e, t)
    ensures Sane(t)
  {
    SlotsKept(s, e, t);
    SumKept(s, e, t);
  }

  // ---------- ticks of the running processes ----------

  // A processor measures no negative time when its process is back.
  predicate CountedAt(s: State, c: int) {
    0 <= c < |s.modes| && !s.modes[c].Looking? && s.modes[c].p < |s.ticks| ==> s.modes[c].before <= s.ticks[s.modes[c].p] + 1
  }

  ghost predicate Counted(s: State) {
    forall c :: CountedAt(s, c)
  }

  // Nobody else than processor but runs process p with more than v + 1 ticks at its dispatch.
  ghost predicate Spares(s: State, p: nat, v: int, but: int) {
    forall c :: c != but && Runs(s, c, p) ==> s.modes[c].before <= v + 1
  }

  // The event does not set back the ticks of a running process below those of its dispatch.
  ghost predicate Spared(s: State, e: Event) {
    match e
    case EndMlfq(c, _, _, spent) => spent && FromMlfq(s, c) ==> Spares(s, s.modes[c].p, 0, c)
    case Wake(p, _, clock) => clock && p !in s.share ==> Spares(s, p, 0, -1)
    case Take(p, anew) => anew ==> Spares(s, p, 0, -1)
    case Exit(p, _, cleared) => cleared ==> Spares(s, p, 0, -1)
    case Move(p, r, _) => Spares(s, p, 0, -1) && (Slot(s, p) ==> Spares(s, r, s.ticks[p], -1))
    case Tick(p, up) => !up && Slot(s, p) ==> Spares(s, p, s.ticks[p] - 1, -1)
    case Boost(p) => Spares(s, p, 0, -1)
    case _ => true
  }

  lemma EndCounts(s: State, e: Event, t: State)
    requires Slots(s) && Counted(s) && Step(s, e, t) && (e.EndMlfq? || e.EndStride?)
    ensures Counted(t) <==> Spared(s, e)
  {
    if e.EndMlfq? && Counted(t) {
      forall d | d != e.c && Runs(s, d, s.modes[e.c].p) && e.spent
        ensures s.modes[d].before <= 1
      {
        assert CountedAt(t, d);
      }
    }
    if Spared(s, e) {
      forall d
        ensures CountedAt(t, d)
      {
        assert CountedAt(s, d);
        assert 0 <= d < |s.modes| && d != e.c && !s.modes[d].Looking? ==> Runs(s, d, s.modes[d].p);
      }
    }
  }

  // The ticks of two slots at most are set: those of p to v, those of r to w.
  lemma SetCounts(s: State, p: nat, v: int, r: nat, w: int, t: State)
    requires Slots(s) && Counted(s) && Slot(s, p) && Slot(s, r) && t.ticks == s.ticks[r := w][p := v] && |t.modes| == |s.modes|
    requires forall c :: 0 <= c < |s.modes| ==> SameRun(s.modes[c], t.modes[c])
    ensures Counted(t) <==> Spares(s, p, v, -1) && (r == p || Spares(s, r, w, -1))
  {
    if Counted(t) {
      forall c | 0 <= c < |s.modes| && !s.modes[c].Looking? && (s.modes[c].p == p || s.modes[c].p == r)
        ensures s.modes[c].before <= (if s.modes[c].p == p then v else w) + 1
      {
        assert CountedAt(t, c) && SameRun(s.modes[c], t.modes[c]);
      }
    }
    if Spares(s, p, v, -1) && (r == p || Spares(s, r, w, -1)) {
      forall c
        ensures CountedAt(t, c)
      {
        assert CountedAt(s, c);
        assert 0 <= c < |s.modes| ==> SameRun(s.modes[c], t.modes[c]);
        assert 0 <= c < |s.modes| && !s.modes[c].Looking? ==> Runs(s, c, s.modes[c].p);
      }
    }
  }

  predicate SameRun(m: Mode, m': Mode) {
    m.Looking? == m'.Looking? && (!m.Looking? ==> m'.p == m.p && m'.before == m.before)
  }

  lemma SameCounts(s: State, t: State)
    requires Counted(s) && t.ticks == s.ticks && |t.modes| == |s.modes|
    requires forall c :: 0 <= c < |s.modes| ==> SameRun(s.modes[c], t.modes[c])
    ensures Counted(t)
  {
    forall c
      ensures CountedAt(t, c)
    {
      assert CountedAt(s, c);
      assert 0 <= c < |s.modes| ==> SameRun(s.modes[c], t.modes[c]);
    }
  }

  lemma StartCounts(s: State, e: Event, t: State)
    requires Slots(s) && Counted(s) && Step(s, e, t) && (e.StartMlfq? || e.StartStride?)
    ensures Counted(t)
  {
    forall c
      ensures CountedAt(t, c)
    {
      assert CountedAt(s, c);
    }
  }

  // What is measured never is negative exactly as long as no event sets back the ticks of a process
  // that a processor runs.
  lemma CountedExactly(s: State, e: Event, t: State)
    requires Slots(s) && Counted(s) && Step(s, e, t)
    ensures Counted(t) <==> Spared(s, e)
  {
    match e {
      case EndMlfq(_, _, _, _) => EndCounts(s, e, t);
      case EndStride(_, _, _) => EndCounts(s, e, t);
      case StartMlfq(_, _) => StartCounts(s, e, t);
      case StartStride(_, _, _) => StartCounts(s, e, t);
      case Wake(p, _, clock) =>
        if clock && p !in s.share {
          SetCounts(s, p, 0, p, 0, t);
        } else {
          SameCounts(s, t);
        }
      case Take(p, anew) =>
        if anew {
          SetCounts(s, p, 0, p, 0, t);
        } else {
          SameCounts(s, t);
        }
      case Exit(p, _, cleared) =>
        if cleared {
          SetCounts(s, p, 0, p, 0, t);
        } else {
          SameCounts(s, t);
        }
      case Move(p, r, _) => SetCounts(s, p, 0, r, s.ticks[p], t);
      case Tick(p, up) =>
        var v := s.ticks[p] + if up then 1 else -1;
        SetCounts(s, p, v, p, v, t);
        if up {
          SparesMore(s, p);
        }
      case Boost(p) => SetCounts(s, p, 0, p, 0, t);
      case _ => SameCounts(s, t);
    }
  }

  lemma SparesMore(s: State, p: nat)
    requires Counted(s) && Slot(s, p)
    ensures Spares(s, p, s.ticks[p] + 1, -1)
  {
    forall c | Runs(s, c, p)
      ensures s.modes[c].before <= s.ticks[p] + 2
    {
      assert CountedAt(s, c);
    }
  }

  // ---------- arithmetic ----------

  lemma MlfqStrideBounds(sum: int)
    requires 0 <= sum <= 80
    ensures 100 <= MlfqStride(sum) <= 500
  {
    var d := 100 - sum;
    assert BIGNUM / d * d + BIGNUM % d == BIGNUM;
  }

  lemma Scaled(m: nat, q: nat, stride: int, most: int)
    requires m <= q && 0 <= stride <= most
    ensures 0 <= m * stride == stride * m <= most * q
  {
    assert m * stride <= q * stride <= q * most;
  }

  lemma {:induction false} SumNat(s: seq<nat>)
    ensures Sum(s) >= 0
  {
    if s != [] {
      SumNat(s[..|s| - 1]);
    }
  }

  // ---------- time never goes back ----------

  lemma NotAfterTime(s: State, v: int)
    requires NotAfter(s, v)
    ensures v <= Time(s)
  {
    assert IsTime(s, Time(s));
  }

  lemma TimeAtMost(s: State, v: int)
    requires v == s.mlfqpv || (exists x :: x in s.heap && x.pass == v) || exists c :: RunsHeap(s, c) && s.modes[c].minpv == v
    ensures Time(s) <= v
  {
    assert IsTime(s, Time(s));
  }

  lemma EntryNotBefore(mlfqpv: int, h: multiset<Node>, v: int, time: int)
    requires Entry(mlfqpv, h, v) && time <= mlfqpv && forall x :: x in h ==> time <= x.pass
    ensures time <= v <= mlfqpv
  {
  }

  lemma ComesNotBefore(s: State, mlfqpv: int, p: nat, took: bool, h: multiset<Node>, time: int)
    requires Comes(s, mlfqpv, p, took, h) && time <= mlfqpv && forall x :: x in s.heap ==> time <= x.pass
    ensures forall x :: x in h ==> time <= x.pass
  {
    if p in s.share {
      var v :| Entry(mlfqpv, s.heap, v) && Inserted(s.heap, Node(p, v), took, h);
      EntryNotBefore(mlfqpv, s.heap, v, time);
    }
  }

  // The processor whose process is back measures no negative time.
  predicate Forward(s: State, e: Event) {
    match e
    case EndMlfq(c, _, _, _) => FromMlfq(s, c) ==> Elapsed(s, c) >= 0
    case EndStride(c, _, _) => FromStride(s, c) ==> Elapsed(s, c) >= 0
    case _ => true
  }

  lemma CountedForward(s: State, e: Event)
    requires Counted(s)
    ensures Forward(s, e)
  {
    match e {
      case EndMlfq(c, _, _, _) => assert CountedAt(s, c);
      case EndStride(c, _, _) => assert CountedAt(s, c);
      case _ =>
    }
  }

  lemma MlfqAfter(s: State, c: nat, again: bool, took: bool, spent: bool, t: State)
    requires EndsMlfq(s, c, again, took, spent, t) && 0 <= s.sum <= 80 && Elapsed(s, c) >= 0
    ensures NotAfter(t, Time(s))
  {
    MlfqStrideBounds(s.sum);
    Scaled(Elapsed(s, c), Elapsed(s, c), MlfqStride(s.sum), 500);
    if again {
      ComesNotBefore(s, t.mlfqpv, s.modes[c].p, took, t.heap, Time(s));
    }
    forall d | RunsHeap(t, d)
      ensures Time(s) <= t.modes[d].minpv
    {
      assert RunsHeap(s, d);
    }
  }

  lemma StrideAfter(s: State, c: nat, again: bool, took: bool, t: State)
    requires EndsStride(s, c, again, took, t) && Elapsed(s, c) >= 0
    ensures NotAfter(t, Time(s))
  {
    assert RunsHeap(s, c);
    if again && s.tickets[s.modes[c].p] > 0 {
      Scaled(Elapsed(s, c), Elapsed(s, c), BIGNUM / s.tickets[s.modes[c].p], BIGNUM);
    }
    forall d | RunsHeap(t, d)
      ensures Time(s) <= t.modes[d].minpv
    {
      assert RunsHeap(s, d);
    }
  }

  lemma StartAfter(s: State, e: Event, t: State)
    requires Step(s, e, t) && (e.StartMlfq? || e.StartStride? || e.Drop?)
    ensures NotAfter(t, Time(s))
  {
    forall d | RunsHeap(t, d)
      ensures Time(s) <= t.modes[d].minpv
    {
      if e.StartStride? && d == e.c {
        assert Node(e.p, e.minpv) in s.heap && Node(e.p, e.minpv).pass == e.minpv;
      } else {
        assert RunsHeap(s, d);
      }
    }
  }

  lemma RestAfter(s: State, e: Event, t: State)
    requires Step(s, e, t) && 0 <= s.sum <= 80
    requires !e.EndMlfq? && !e.EndStride? && !e.StartMlfq? && !e.StartStride? && !e.Drop?
    ensures NotAfter(t, Time(s))
  {
    if e.NothingToRun? {
      MlfqStrideBounds(s.sum);
    } else if e.Wake? {
      ComesNotBefore(s, s.mlfqpv, e.p, e.took, t.heap, Time(s));
    }
    forall d | RunsHeap(t, d)
      ensures Time(s) <= t.modes[d].minpv
    {
      assert RunsHeap(s, d) && t.modes[d].minpv == s.modes[d].minpv;
    }
  }

  // With any number of processors: virtual time does not go back unless negative time is measured.
  lemma TimeStays(s: State, e: Event, t: State)
    requires Step(s, e, t) && 0 <= s.sum <= 80 && Forward(s, e)
    ensures Time(s) <= Time(t)
  {
    match e {
      case EndMlfq(c, again, took, spent) => MlfqAfter(s, c, again, took, spent, t);
      case EndStride(c, again, took) => StrideAfter(s, c, again, took, t);
      case StartMlfq(_, _) => StartAfter(s, e, t);
      case StartStride(_, _, _) => StartAfter(s, e, t);
      case Drop(_, _, _) => StartAfter(s, e, t);
      case _ => RestAfter(s, e, t);
    }
    NotAfterTime(t, Time(s));
  }

  // ---------- pass values and the time ----------

  // The tables are consistent, pass values are not negative, and no process that is being run from
  // the heap has a later one than the queues; nobody's ticks have been set back while it runs.
  ghost predicate Inv(s: State) {
    && Sane(s) && Counted(s) && s.mlfqpv >= 0
    && (forall x :: x in s.heap ==> x.pass >= 0)
    && forall c :: RunsHeap(s, c) ==> 0 <= s.modes[c].minpv <= s.mlfqpv
  }

  lemma InvTime(s: State)
    requires Inv(s)
    ensures Time(s) >= 0
  {
    NotAfterTime(s, 0);
  }

  // The heap's pass values after a step, by those before it.
  predicate NewOrOld(x: Node, h: multiset<Node>, most: int) {
    x in h || 0 <= x.pass <= most
  }

  lemma EntryNear(s: State, now: int, p: nat, took: bool, h: multiset<Node>)
    requires Inv(s) && s.mlfqpv <= now && Comes(s, now, p, took, h)
    ensures forall x :: x in h ==> NewOrOld(x, s.heap, now)
  {
    if p in s.share {
      var v :| Entry(now, s.heap, v) && Inserted(s.heap, Node(p, v), took, h);
      EntryNotBefore(now, s.heap, v, 0);
    }
  }

  // With at most q ticks measured at a time.
  predicate Measured(s: State, e: Event, q: nat) {
    match e
    case EndMlfq(c, _, _, _) => FromMlfq(s, c) ==> Elapsed(s, c) <= q
    case EndStride(c, _, _) => FromStride(s, c) ==> Elapsed(s, c) <= q
    case _ => true
  }

  // What the queues have to pay at once, in q ticks.
  function Turn(q: nat): nat {
    500 * q
  }

  // The queues' pass value moves only by idle rounds and by turns that are over.
  lemma MlfqNear(s: State, e: Event, t: State, q: nat)
    requires Inv(s) && Step(s, e, t) && Measured(s, e, q)
    ensures s.mlfqpv <= t.mlfqpv <= s.mlfqpv + (if e.EndMlfq? then Turn(q) else if e.NothingToRun? then 500 else 0)
  {
    SumNat(s.tickets);
    MlfqStrideBounds(s.sum);
    CountedForward(s, e);
    if e.EndMlfq? {
      Scaled(Elapsed(s, e.c), q, MlfqStride(s.sum), 500);
    }
  }

  lemma StrideNear(minpv: nat, tickets: nat, m: nat, q: nat)
    requires tickets > 0 && m <= q
    ensures minpv <= NextPass(minpv, tickets, m) <= minpv + BIGNUM * q
  {
    Scaled(m, q, BIGNUM / tickets, BIGNUM);
  }

  // A new pass value in the heap is no later than that of the queues, or a process that is back has
  // paid for at most q ticks.
  lemma HeapNear(s: State, e: Event, t: State, q: nat)
    requires Inv(s) && Step(s, e, t) && Measured(s, e, q)
    ensures var most := if e.EndStride? then s.modes[e.c].minpv + BIGNUM * q else t.mlfqpv;
            forall x :: x in t.heap ==> NewOrOld(x, s.heap, most)
  {
    MlfqNear(s, e, t, q);
    CountedForward(s, e);
    match e {
      case EndMlfq(c, again, took, _) =>
        if again {
          EntryNear(s, t.mlfqpv, s.modes[c].p, took, t.heap);
        }
      case EndStride(c, again, took) =>
        assert RunsHeap(s, c);
        if again && s.tickets[s.modes[c].p] > 0 {
          StrideNear(s.modes[c].minpv, s.tickets[s.modes[c].p], Elapsed(s, c), q);
        }
      case Wake(p, took, _) => EntryNear(s, s.mlfqpv, p, took, t.heap);
      case _ =>
    }
  }

  lemma PassesStay(s: State, e: Event, t: State)
    requires Inv(s) && Step(s, e, t)
    ensures t.mlfqpv >= s.mlfqpv && forall x :: x in t.heap ==> x.pass >= 0
  {
    CountedForward(s, e);
    var q := if e.EndMlfq? || e.EndStride? then Elapsed(s, e.c) else 0;
    MlfqNear(s, e, t, q);
    HeapNear(s, e, t, q);
    forall x | x in t.heap
      ensures x.pass >= 0
    {
      assert NewOrOld(x, s.heap, if e.EndStride? then s.modes[e.c].minpv + BIGNUM * q else t.mlfqpv);
    }
  }

  lemma RunningStay(s: State, e: Event, t: State, c: int)
    requires Inv(s) && Step(s, e, t) && t.mlfqpv >= s.mlfqpv && RunsHeap(t, c)
    ensures 0 <= t.modes[c].minpv <= t.mlfqpv
    ensures (e.StartStride? && c == e.c) || (RunsHeap(s, c) && t.modes[c].minpv == s.modes[c].minpv)
  {
    if !(e.StartStride? && c == e.c) {
      assert RunsHeap(s, c);
    } else {
      assert Node(e.p, e.minpv) in s.heap && Node(e.p, e.minpv).pass == e.minpv;
    }
  }

  // With any number of processors: a step keeps the invariant if and only if it does not set back the
  // ticks of a process that is being run, and then virtual time does not go back.
  lemma StepKeeps(s: State, e: Event, t: State)
    requires Inv(s) && Step(s, e, t)
    ensures Inv(t) <==> Spared(s, e)
    ensures Time(s) <= Time(t)
  {
    SumNat(s.tickets);
    CountedForward(s, e);
    TimeStays(s, e, t);
    StaysSane(s, e, t);
    CountedExactly(s, e, t);
    PassesStay(s, e, t);
    forall c | RunsHeap(t, c)
      ensures 0 <= t.modes[c].minpv <= t.mlfqpv
    {
      RunningStay(s, e, t, c);
    }
  }
}
