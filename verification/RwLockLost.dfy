/** A wait whose thread the queue does not take, and what becomes of the thread: xem_wait puts it to
    sleep all the same. */
module RwLockLost {
  import opened RwLock
  import WaitQueue
  import opened Sequences

  ghost predicate InvThroughout(s: State, turns: seq<Turn>)
    requires CanRun(s, turns)
    decreases |turns|
  {
    Inv(s) && (turns == [] || InvThroughout(Step(s, turns[0].t, turns[0].c), turns[1..]))
  }

  // The invariant holds all along a run exactly if no wait is refused.
  lemma {:induction false} RunKeepsInv(s: State, turns: seq<Turn>)
    requires Inv(s) && CanRun(s, turns)
    ensures InvThroughout(s, turns) <==> AllTaken(s, turns)
    decreases |turns|
  {
    if turns != [] {
      var t, c := turns[0].t, turns[0].c;
      StepKeepsInv(s, t, c);
      if Taken(s, t) {
        RunKeepsInv(Step(s, t, c), turns[1..]);
      }
    }
  }

  // ---------- few threads are always taken ----------

  predicate Within(q: seq<int>, users: set<int>) {
    forall k :: 0 <= k < |q| ==> q[k] in users
  }

  predicate QueuesWithin(s: State, users: set<int>) {
    Within(s.race.queue, users) && Within(s.starv.queue, users) && Within(s.share.queue, users)
  }

  lemma {:induction false} DistinctWithin(q: seq<int>, users: set<int>)
    requires Within(q, users) && Distinct(q)
    ensures |q| <= |users|
  {
    if q != [] {
      var n := |q| - 1;
      DistinctWithin(q[..n], users - {q[n]});
    }
  }

  lemma SemTakes(pc: seq<PC>, s: Sem, holds: PC -> bool, waits: PC -> bool, t: int, users: set<int>)
    requires SemInv(pc, s, holds, waits) && 0 <= t < |pc| && !waits(pc[t])
    requires t in users && Within(s.queue, users) && |users| <= WaitQueue.NTHREAD && WaitQueue.NTHREAD !in users
    ensures Takes(s, t)
  {
    DistinctWithin(s.queue, users - {t});
  }

  lemma FewTaken(s: State, t: int, users: set<int>)
    requires Inv(s) && CanStep(s, t) && QueuesWithin(s, users) && t in users
    requires |users| <= WaitQueue.NTHREAD && WaitQueue.NTHREAD !in users
    ensures Taken(s, t)
  {
    SemTakes(s.pc, s.race, HoldsRace, WaitsRace, t, users);
    SemTakes(s.pc, s.starv, HoldsStarv, WaitsStarv, t, users);
    SemTakes(s.pc, s.share, HoldsShare, WaitsShare, t, users);
  }

  lemma SemStaysWithin(s: Sem, t: int, who: int, users: set<int>)
    requires Within(s.queue, users) && t in users
    ensures Within(Wait(s, t, who).queue, users) && Within(Unlock(s).queue, users)
  {
  }

  lemma StaysWithin(s: State, t: int, c: Choice, users: set<int>)
    requires CanStep(s, t) && QueuesWithin(s, users) && t in users
    ensures QueuesWithin(Step(s, t, c), users)
  {
    StepParts(s, t, c);
    SemStaysWithin(s.race, t, t, users);
    SemStaysWithin(s.starv, t, t, users);
    SemStaysWithin(s.share, t, t, users);
    SemStaysWithin(s.share, t, READERS, users);
  }

  predicate TurnsOf(turns: seq<Turn>, users: set<int>) {
    forall k :: 0 <= k < |turns| ==> turns[k].t in users
  }

  // With at most NTHREAD threads using the lock, none of them in slot NTHREAD, every wait is taken.
  lemma {:induction false} FewUsersTaken(s: State, turns: seq<Turn>, users: set<int>)
    requires Inv(s) && CanRun(s, turns) && QueuesWithin(s, users) && TurnsOf(turns, users)
    requires |users| <= WaitQueue.NTHREAD && WaitQueue.NTHREAD !in users
    ensures AllTaken(s, turns)
    decreases |turns|
  {
    if turns != [] {
      var t, c := turns[0].t, turns[0].c;
      FewTaken(s, t, users);
      StaysWithin(s, t, c, users);
      StepKeepsInv(s, t, c);
      FewUsersTaken(Step(s, t, c), turns[1..], users);
    }
  }

  // ---------- who is refused never runs again ----------

  predicate Lost(s: State, t: int) {
    0 <= t < |s.pc| && Asleep(s.pc[t]) && t !in s.race.queue && t !in s.starv.queue && t !in s.share.queue
  }

  lemma RefusedIsLost(s: State, t: int, c: Choice)
    requires Inv(s) && CanStep(s, t) && !Taken(s, t)
    ensures Lost(Step(s, t, c), t)
  {
    assert t !in s.race.queue && t !in s.starv.queue && t !in s.share.queue;
  }

  lemma LostStays(s: State, u: int, c: Choice, t: int)
    requires Lost(s, t) && CanStep(s, u)
    ensures Lost(Step(s, u, c), t)
  {
    StepParts(s, u, c);
  }

  lemma {:induction false} LostForever(s: State, turns: seq<Turn>, t: int)
    requires Lost(s, t) && CanRun(s, turns)
    ensures Lost(Run(s, turns), t)
    decreases |turns|
  {
    if turns != [] {
      LostStays(s, turns[0].t, turns[0].c, t);
      LostForever(Step(s, turns[0].t, turns[0].c), turns[1..], t);
    }
  }

  lemma {:induction false} SomeoneLost(s: State, turns: seq<Turn>) returns (t: int)
    requires Inv(s) && CanRun(s, turns) && !AllTaken(s, turns)
    ensures Lost(Run(s, turns), t)
    decreases |turns|
  {
    var u, c := turns[0].t, turns[0].c;
    StepKeepsInv(s, u, c);
    if Taken(s, u) {
      t := SomeoneLost(Step(s, u, c), turns[1..]);
    } else {
      t := u;
      RefusedIsLost(s, u, c);
      LostForever(Step(s, u, c), turns[1..], u);
    }
  }

  // ---------- everybody else can finish ----------

  ghost predicate Leads(s: State, t: State) {
    exists turns :: CanRun(s, turns) && Run(s, turns) == t
  }

  lemma LeadsNowhere(s: State)
    ensures Leads(s, s)
  {
    assert CanRun(s, []) && Run(s, []) == s;
  }

  lemma LeadsFirst(s: State, t: int, c: Choice, last: State)
    requires CanStep(s, t) && Leads(Step(s, t, c), last)
    ensures Leads(s, last)
  {
    var turns :| CanRun(Step(s, t, c), turns) && Run(Step(s, t, c), turns) == last;
    var all := [Turn(t, c)] + turns;
    assert all[1..] == turns;
    assert CanRun(s, all) && Run(s, all) == last;
  }

  lemma {:induction false} RunOn(s: State, turns: seq<Turn>, last: State)
    requires CanRun(s, turns) && Leads(Run(s, turns), last)
    ensures Leads(s, last)
    decreases |turns|
  {
    if turns != [] {
      RunOn(Step(s, turns[0].t, turns[0].c), turns[1..], last);
      LeadsFirst(s, turns[0].t, turns[0].c, last);
    }
  }

  lemma LeadsOn(s: State, t: State, last: State)
    requires Leads(s, t) && Leads(t, last)
    ensures Leads(s, last)
  {
    var turns :| CanRun(s, turns) && Run(s, turns) == t;
    RunOn(s, turns, last);
  }

  // How far a thread is from being idle.
  function Rank(p: PC): nat {
    match p
    case Idle => 0
    case RStarv => 15
    case RStarvSleep => 14
    case RRace => 13
    case RRaceSleep => 12
    case RInc => 11
    case RTest => 10
    case RShareSleep => 9
    case RUnlockRace => 8
    case RUnlockStarv => 7
    case Reading => 6
    case QRace => 5
    case QRaceSleep => 4
    case QDec => 3
    case QTest => 2
    case QUnlockRace => 1
    case WStarv => 7
    case WStarvSleep => 6
    case WShare => 5
    case WShareSleep => 4
    case Writing => 3
    case WUnlockShare => 2
    case WUnlockStarv => 1
  }

  function Ranks(pc: seq<PC>): nat {
    if pc == [] then 0 else Ranks(pc[..|pc| - 1]) + Rank(pc[|pc| - 1])
  }

  lemma {:induction false} RanksChange(pc: seq<PC>, t: int, p: PC)
    requires 0 <= t < |pc|
    ensures Ranks(pc[t := p]) == Ranks(pc) - Rank(pc[t]) + Rank(p)
  {
    var k := |pc| - 1;
    if t < k {
      assert pc[t := p][..k] == pc[..k][t := p];
      RanksChange(pc[..k], t, p);
    } else {
      assert pc[t := p][..k] == pc[..k];
    }
  }

  lemma RankGoes(p: PC, c: Choice, race: bool, starv: bool, share: bool, first: bool)
    requires Works(p)
    ensures Rank(GoesTo(p, c, race, starv, share, first)) < Rank(p)
  {
  }

  lemma RanksFall(s: State, t: int, c: Choice)
    requires CanStep(s, t) && Works(s.pc[t])
    ensures Ranks(Step(s, t, c).pc) < Ranks(s.pc)
  {
    StepParts(s, t, c);
    RankGoes(s.pc[t], c, Sleeps(s.race), Sleeps(s.starv), Sleeps(s.share), s.reader == 1);
    RanksChange(s.pc, t, Goes(s, t, c));
    var pc, w := s.pc[t := Goes(s, t, c)], Wakes(s, t);
    if 0 <= w < |pc| {
      RanksChange(pc, w, Resume(pc[w]));
    }
  }

  predicate Quiet(s: State) {
    forall t :: 0 <= t < |s.pc| ==> !Works(s.pc[t])
  }

  // From any state whatever, the threads that work can go on until none does.
  lemma {:induction false} Settles(s: State) returns (last: State)
    ensures Leads(s, last) && Quiet(last)
    decreases Ranks(s.pc)
  {
    last := s;
    LeadsNowhere(s);
    if !Quiet(s) {
      var t :| 0 <= t < |s.pc| && Works(s.pc[t]);
      RanksFall(s, t, ToRead);
      last := Settles(Step(s, t, ToRead));
      LeadsFirst(s, t, ToRead, last);
    }
  }

  // ---------- stuck ----------

  // Somebody sleeps, and nobody is left to do anything but start anew.
  predicate Stuck(s: State) {
    Quiet(s) && exists t :: 0 <= t < |s.pc| && Asleep(s.pc[t])
  }

  lemma TakenNotStuck(n: nat, turns: seq<Turn>)
    requires Possible(n, turns)
    ensures !Stuck(Run(Start(n), turns))
  {
    var s := Run(Start(n), turns);
    if t :| 0 <= t < |s.pc| && Asleep(s.pc[t]) {
      var u := NeverStuck(n, turns, t);
    }
  }

  // As soon as a wait has been refused, its thread sleeps in every continuation, and one of them
  // ends with nobody at work.
  lemma RefusedGetsStuck(n: nat, turns: seq<Turn>) returns (t: int, last: State)
    requires CanRun(Start(n), turns) && !AllTaken(Start(n), turns)
    ensures forall more | CanRun(Run(Start(n), turns), more) :: Lost(Run(Run(Start(n), turns), more), t)
    ensures Leads(Run(Start(n), turns), last) && Stuck(last)
  {
    StartInv(n);
    t := SomeoneLost(Start(n), turns);
    var s := Run(Start(n), turns);
    forall more | CanRun(s, more)
      ensures Lost(Run(s, more), t)
    {
      LostForever(s, more, t);
    }
    last := Settles(s);
    var more :| CanRun(s, more) && Run(s, more) == last;
    assert Lost(last, t);
  }

  // ---------- a run that gets there ----------

  // Threads 0, 1 and, if there is one, NTHREAD are at a, b and c, all others idle.
  function Three(n: nat, a: PC, b: PC, c: PC): (pc: seq<PC>)
    requires n >= 2
    ensures |pc| == n && forall i :: 0 <= i < n ==> pc[i] == OneOf(a, b, c, i)
  {
    seq(n, i => OneOf(a, b, c, i))
  }

  function OneOf(a: PC, b: PC, c: PC, i: int): PC {
    if i == 0 then a else if i == 1 then b else if i == WaitQueue.NTHREAD then c else Idle
  }

  lemma FirstMoves(n: nat, a: PC, b: PC, c: PC, p: PC)
    requires n >= 2
    ensures Three(n, a, b, c)[0 := p] == Three(n, p, b, c)
  {
    Differ(Three(n, a, b, c), 0, p, Three(n, p, b, c));
  }

  lemma SecondMoves(n: nat, a: PC, b: PC, c: PC, p: PC)
    requires n >= 2
    ensures Three(n, a, b, c)[1 := p] == Three(n, a, p, c)
  {
    Differ(Three(n, a, b, c), 1, p, Three(n, a, p, c));
  }

  lemma LastMoves(n: nat, a: PC, b: PC, c: PC, p: PC)
    requires n > WaitQueue.NTHREAD
    ensures Three(n, a, b, c)[WaitQueue.NTHREAD := p] == Three(n, a, b, p)
  {
    Differ(Three(n, a, b, c), WaitQueue.NTHREAD, p, Three(n, a, b, p));
  }

  lemma Differ(pc: seq<PC>, t: nat, p: PC, pc': seq<PC>)
    requires |pc| == |pc'| && t < |pc| && pc'[t] == p && forall i :: 0 <= i < |pc| && i != t ==> pc'[i] == pc[i]
    ensures pc[t := p] == pc'
  {
  }

  function At(n: nat, a: PC, b: PC, c: PC, starv: Sem, share: Sem): State
    requires n >= 2
  {
    State(Three(n, a, b, c), Free, starv, share, 0)
  }

  // What a writer does alone with sharelock: thread 0, or thread 1.
  const Taken0 := Sem(0, [], 0, 0)
  const Taken1 := Sem(0, [], 0, 1)

  lemma FirstWrites(n: nat, starv: Sem, b: PC, c: PC)
    requires n >= 2 && starv.count == 1 && starv.queue == []
    ensures Leads(At(n, Idle, b, c, starv, Free), At(n, Writing, b, c, Sem(0, [], starv.head, 0), Taken0))
  {
    var held := Sem(0, [], starv.head, 0);
    var s0 := At(n, Idle, b, c, starv, Free);
    var s1 := At(n, WStarv, b, c, starv, Free);
    var s2 := At(n, WShare, b, c, held, Free);
    var s3 := At(n, Writing, b, c, held, Taken0);
    FirstMoves(n, Idle, b, c, WStarv);
    FirstMoves(n, WStarv, b, c, WShare);
    FirstMoves(n, WShare, b, c, Writing);
    assert Step(s0, 0, ToWrite) == s1 && Step(s1, 0, ToWrite) == s2 && Step(s2, 0, ToWrite) == s3;
    LeadsNowhere(s3);
    LeadsFirst(s2, 0, ToWrite, s3);
    LeadsFirst(s1, 0, ToWrite, s3);
    LeadsFirst(s0, 0, ToWrite, s3);
  }

  lemma SecondQueues(n: nat, starv: Sem, c: PC)
    requires n >= 2 && starv.count == 0 && starv.queue == []
    ensures Leads(At(n, Writing, Idle, c, starv, Taken0), At(n, Writing, WStarvSleep, c, Sem(-1, [1], starv.head, starv.owner), Taken0))
  {
    var s0 := At(n, Writing, Idle, c, starv, Taken0);
    var s1 := At(n, Writing, WStarv, c, starv, Taken0);
    var s2 := At(n, Writing, WStarvSleep, c, Sem(-1, [1], starv.head, starv.owner), Taken0);
    SecondMoves(n, Writing, Idle, c, WStarv);
    SecondMoves(n, Writing, WStarv, c, WStarvSleep);
    assert Step(s0, 1, ToWrite) == s1 && Step(s1, 1, ToWrite) == s2;
    LeadsNowhere(s2);
    LeadsFirst(s1, 1, ToWrite, s2);
    LeadsFirst(s0, 1, ToWrite, s2);
  }

  lemma FirstUnlocksShare(n: nat, starv: Sem, c: PC)
    requires n >= 2
    ensures Leads(At(n, Writing, WStarvSleep, c, starv, Taken0), At(n, WUnlockStarv, WStarvSleep, c, starv, Free))
  {
    var s0 := At(n, Writing, WStarvSleep, c, starv, Taken0);
    var s1 := At(n, WUnlockShare, WStarvSleep, c, starv, Taken0);
    var s2 := At(n, WUnlockStarv, WStarvSleep, c, starv, Free);
    FirstMoves(n, Writing, WStarvSleep, c, WUnlockShare);
    FirstMoves(n, WUnlockShare, WStarvSleep, c, WUnlockStarv);
    assert Step(s0, 0, ToWrite) == s1 && Step(s1, 0, ToWrite) == s2;
    LeadsNowhere(s2);
    LeadsFirst(s1, 0, ToWrite, s2);
    LeadsFirst(s0, 0, ToWrite, s2);
  }

  lemma FirstHandsOver(n: nat, starv: Sem, c: PC)
    requires n >= 2 && starv.queue == [1]
    ensures Leads(At(n, Writing, WStarvSleep, c, starv, Taken0),
                  At(n, Idle, WShare, c, Sem(starv.count + 1, [], WaitQueue.Next(starv.head), 1), Free))
  {
    var s0 := At(n, Writing, WStarvSleep, c, starv, Taken0);
    var s1 := At(n, WUnlockStarv, WStarvSleep, c, starv, Free);
    var s2 := At(n, Idle, WShare, c, Sem(starv.count + 1, [], WaitQueue.Next(starv.head), 1), Free);
    FirstUnlocksShare(n, starv, c);
    FirstMoves(n, WUnlockStarv, WStarvSleep, c, Idle);
    SecondMoves(n, Idle, WStarvSleep, c, WShare);
    assert Step(s1, 0, ToWrite) == s2;
    LeadsNowhere(s2);
    LeadsFirst(s1, 0, ToWrite, s2);
    LeadsOn(s0, s1, s2);
  }

  lemma SecondWrites(n: nat, starv: Sem, c: PC)
    requires n >= 2 && starv.queue == []
    ensures Leads(At(n, Idle, WShare, c, starv, Free), At(n, Idle, Idle, c, Sem(starv.count + 1, [], starv.head, NOBODY), Free))
  {
    var s0 := At(n, Idle, WShare, c, starv, Free);
    var s1 := At(n, Idle, Writing, c, starv, Taken1);
    var s2 := At(n, Idle, WUnlockShare, c, starv, Taken1);
    var s3 := At(n, Idle, WUnlockStarv, c, starv, Free);
    var s4 := At(n, Idle, Idle, c, Sem(starv.count + 1, [], starv.head, NOBODY), Free);
    SecondMoves(n, Idle, WShare, c, Writing);
    SecondMoves(n, Idle, Writing, c, WUnlockShare);
    SecondMoves(n, Idle, WUnlockShare, c, WUnlockStarv);
    SecondMoves(n, Idle, WUnlockStarv, c, Idle);
    assert Step(s0, 1, ToWrite) == s1 && Step(s1, 1, ToWrite) == s2 && Step(s2, 1, ToWrite) == s3 && Step(s3, 1, ToWrite) == s4;
    LeadsNowhere(s4);
    LeadsFirst(s3, 1, ToWrite, s4);
    LeadsFirst(s2, 1, ToWrite, s4);
    LeadsFirst(s1, 1, ToWrite, s4);
    LeadsFirst(s0, 1, ToWrite, s4);
  }

  function Rested(n: nat, head: WaitQueue.Place): State
    requires n >= 2
  {
    At(n, Idle, Idle, Idle, Sem(1, [], head, NOBODY), Free)
  }

  // Two writers, one waiting for the other: head has moved on by one place.
  lemma Round(n: nat, head: WaitQueue.Place)
    requires n >= 2
    ensures Leads(Rested(n, head), Rested(n, WaitQueue.Next(head)))
  {
    var starv := Sem(1, [], head, NOBODY);
    FirstWrites(n, starv, Idle, Idle);
    SecondQueues(n, Sem(0, [], head, 0), Idle);
    FirstHandsOver(n, Sem(-1, [1], head, 0), Idle);
    SecondWrites(n, Sem(0, [], WaitQueue.Next(head), 1), Idle);
    var a := At(n, Writing, Idle, Idle, Sem(0, [], head, 0), Taken0);
    var b := At(n, Writing, WStarvSleep, Idle, Sem(-1, [1], head, 0), Taken0);
    var d := At(n, Idle, WShare, Idle, Sem(0, [], WaitQueue.Next(head), 1), Free);
    LeadsOn(Rested(n, head), a, b);
    LeadsOn(Rested(n, head), b, d);
    LeadsOn(Rested(n, head), d, Rested(n, WaitQueue.Next(head)));
  }

  lemma {:induction false} HeadMoves(n: nat, head: WaitQueue.Place)
    requires n >= 2
    ensures Leads(Start(n), Rested(n, head))
  {
    if head == 0 {
      assert Start(n) == Rested(n, 0);
      LeadsNowhere(Start(n));
    } else {
      HeadMoves(n, head - 1);
      Round(n, head - 1);
      LeadsOn(Start(n), Rested(n, head - 1), Rested(n, head));
    }
  }

  // With head at the last place, thread NTHREAD waits behind one that is queued, and is refused.
  lemma RefusedAtLast(n: nat, starv: Sem)
    requires n > WaitQueue.NTHREAD && starv == Sem(-1, [1], WaitQueue.NTHREAD, 0)
    ensures Leads(At(n, Writing, WStarvSleep, Idle, starv, Taken0), At(n, Writing, WStarvSleep, WStarvSleep, starv.(count := -2), Taken0))
  {
    var s0 := At(n, Writing, WStarvSleep, Idle, starv, Taken0);
    var s1 := At(n, Writing, WStarvSleep, WStarv, starv, Taken0);
    var s2 := At(n, Writing, WStarvSleep, WStarvSleep, starv.(count := -2), Taken0);
    LastMoves(n, Writing, WStarvSleep, Idle, WStarv);
    LastMoves(n, Writing, WStarvSleep, WStarv, WStarvSleep);
    var t := WaitQueue.NTHREAD;
    assert Step(s0, t, ToWrite) == s1 && Step(s1, t, ToWrite) == s2;
    LeadsNowhere(s2);
    LeadsFirst(s1, t, ToWrite, s2);
    LeadsFirst(s0, t, ToWrite, s2);
  }

  // Thread NTHREAD asleep outside the queue, and thread 1 queued behind thread 0.
  function Refused(n: nat): State
    requires n > WaitQueue.NTHREAD
  {
    At(n, Writing, WStarvSleep, WStarvSleep, Sem(-2, [1], WaitQueue.NTHREAD, 0), Taken0)
  }

  lemma GetsRefused(n: nat)
    requires n > WaitQueue.NTHREAD
    ensures Leads(Start(n), Refused(n))
  {
    var h := WaitQueue.NTHREAD;
    HeadMoves(n, h);
    FirstWrites(n, Sem(1, [], h, NOBODY), Idle, Idle);
    SecondQueues(n, Sem(0, [], h, 0), Idle);
    RefusedAtLast(n, Sem(-1, [1], h, 0));
    var a := At(n, Writing, Idle, Idle, Sem(0, [], h, 0), Taken0);
    var b := At(n, Writing, WStarvSleep, Idle, Sem(-1, [1], h, 0), Taken0);
    LeadsOn(Start(n), Rested(n, h), a);
    LeadsOn(Start(n), a, b);
    LeadsOn(Start(n), b, Refused(n));
  }

  lemma GetsStuck(n: nat)
    requires n > WaitQueue.NTHREAD
    ensures exists last :: Leads(Start(n), last) && Stuck(last)
  {
    var h := WaitQueue.NTHREAD;
    GetsRefused(n);
    FirstHandsOver(n, Sem(-2, [1], h, 0), WStarvSleep);
    SecondWrites(n, Sem(-1, [], WaitQueue.Next(h), 1), WStarvSleep);
    var e := At(n, Idle, WShare, WStarvSleep, Sem(-1, [], WaitQueue.Next(h), 1), Free);
    var last := At(n, Idle, Idle, WStarvSleep, Sem(0, [], WaitQueue.Next(h), NOBODY), Free);
    LeadsOn(Start(n), Refused(n), e);
    LeadsOn(Start(n), e, last);
    assert last.pc[h] == WStarvSleep;
    assert Stuck(last);
  }

  ghost predicate CanStick(s: State, turns: seq<Turn>) {
    CanRun(s, turns) && Stuck(Run(s, turns))
  }

  lemma FewNeverStick(n: nat, turns: seq<Turn>)
    requires n <= WaitQueue.NTHREAD
    ensures !CanStick(Start(n), turns)
  {
    if CanRun(Start(n), turns) {
      StartInv(n);
      TurnsInRange(Start(n), turns);
      FewUsersTaken(Start(n), turns, Numbers(n));
      TakenNotStuck(n, turns);
    }
  }

  // Among threads with the numbers from 0 to n - 1, some run gets stuck exactly if there are more
  // than NTHREAD of them.
  lemma StuckExactly(n: nat)
    ensures (exists turns :: CanStick(Start(n), turns)) <==> n > WaitQueue.NTHREAD
  {
    if n > WaitQueue.NTHREAD {
      GetsStuck(n);
      var last :| Leads(Start(n), last) && Stuck(last);
      var turns :| CanRun(Start(n), turns) && Run(Start(n), turns) == last;
      assert CanStick(Start(n), turns);
    } else {
      forall turns
        ensures !CanStick(Start(n), turns)
      {
        FewNeverStick(n, turns);
      }
    }
  }

  function Numbers(n: nat): (s: set<int>)
    ensures |s| == n && forall i :: i in s <==> 0 <= i < n
  {
    if n == 0 then {} else Numbers(n - 1) + {n - 1}
  }

  lemma {:induction false} TurnsInRange(s: State, turns: seq<Turn>)
    requires CanRun(s, turns)
    ensures forall k :: 0 <= k < |turns| ==> 0 <= turns[k].t < |s.pc|
    decreases |turns|
  {
    if turns != [] {
      TurnsInRange(Step(s, turns[0].t, turns[0].c), turns[1..]);
      assert turns == [turns[0]] + turns[1..];
    }
  }

  // ---------- a wake-up from elsewhere ----------

  // A sleeping thread's channel is its own slot, where an exiting child and kill wake it too.
  function WokenByOthers(s: State, t: int): State {
    s.(pc := Wake(s.pc, t))
  }

  // The invariant survives that exactly if the thread was not asleep on a semaphore.
  lemma ForeignWakeup(s: State, t: int)
    requires Inv(s) && 0 <= t < |s.pc|
    ensures Inv(WokenByOthers(s, t)) <==> !Asleep(s.pc[t])
  {
    if Asleep(s.pc[t]) {
      SleeperWoken(s, t);
    } else {
      assert WokenByOthers(s, t).pc == s.pc;
    }
  }

  lemma SleeperWoken(s: State, t: int)
    requires Inv(s) && 0 <= t < |s.pc| && Asleep(s.pc[t])
    ensures !Inv(WokenByOthers(s, t))
  {
    SleeperQueued(s, t);
    var pc := WokenByOthers(s, t).pc;
    if WaitsRace(s.pc[t]) {
      QueuedNotWaiting(pc, s.race, HoldsRace, WaitsRace, t);
    } else if WaitsStarv(s.pc[t]) {
      QueuedNotWaiting(pc, s.starv, HoldsStarv, WaitsStarv, t);
    } else {
      QueuedNotWaiting(pc, s.share, HoldsShare, WaitsShare, t);
    }
  }

  lemma SleeperQueued(s: State, t: int)
    requires Inv(s) && 0 <= t < |s.pc| && Asleep(s.pc[t])
    ensures WaitsRace(s.pc[t]) || WaitsStarv(s.pc[t]) || WaitsShare(s.pc[t])
    ensures WaitsRace(s.pc[t]) ==> t in s.race.queue
    ensures WaitsStarv(s.pc[t]) ==> t in s.starv.queue
    ensures WaitsShare(s.pc[t]) ==> t in s.share.queue
  {
  }

  lemma QueuedNotWaiting(pc: seq<PC>, s: Sem, holds: PC -> bool, waits: PC -> bool, t: int)
    requires t in s.queue && 0 <= t < |pc| && !waits(pc[t])
    ensures !SemInv(pc, s, holds, waits)
  {
  }

  // Two children that exit while their parent waits for the lock: two writers in their section.
  lemma TwoWriters(n: nat) returns (s: State, u: State)
    requires n >= 2
    ensures Leads(Start(n), s) && Leads(WokenByOthers(s, 1), u)
    ensures var pc := WokenByOthers(u, 1).pc; |pc| == n && HoldsShare(pc[0]) && HoldsShare(pc[1])
  {
    var starv := Sem(-1, [1], 0, 0);
    HeadMoves(n, 0);
    FirstWrites(n, Sem(1, [], 0, NOBODY), Idle, Idle);
    SecondQueues(n, Sem(0, [], 0, 0), Idle);
    s := At(n, Writing, WStarvSleep, Idle, starv, Taken0);
    LeadsOn(Start(n), Rested(n, 0), At(n, Writing, Idle, Idle, Sem(0, [], 0, 0), Taken0));
    LeadsOn(Start(n), At(n, Writing, Idle, Idle, Sem(0, [], 0, 0), Taken0), s);
    SecondMoves(n, Writing, WStarvSleep, Idle, WShare);
    SecondMoves(n, Writing, WShare, Idle, WShareSleep);
    u := At(n, Writing, WShareSleep, Idle, starv, Sem(-1, [1], 0, 0));
    assert WokenByOthers(s, 1) == At(n, Writing, WShare, Idle, starv, Taken0);
    assert Step(WokenByOthers(s, 1), 1, ToWrite) == u;
    LeadsNowhere(u);
    LeadsFirst(WokenByOthers(s, 1), 1, ToWrite, u);
  }

  // ---------- runs with such wake-ups ----------

  datatype Event = Moves(turn: Turn) | Kicked(t: int)

  predicate Able(s: State, e: Event) {
    match e
    case Moves(turn) => CanStep(s, turn.t)
    case Kicked(t) => 0 <= t < |s.pc|
  }

  function After(s: State, e: Event): State
    requires Able(s, e)
  {
    match e
    case Moves(turn) => Step(s, turn.t, turn.c)
    case Kicked(t) => WokenByOthers(s, t)
  }

  // No wait is refused, and nobody who sleeps on a semaphore is woken up.
  predicate Harmless(s: State, e: Event)
    requires Able(s, e)
  {
    match e
    case Moves(turn) => Taken(s, turn.t)
    case Kicked(t) => !Asleep(s.pc[t])
  }

  predicate CanGo(s: State, es: seq<Event>)
    decreases |es|
  {
    es == [] || (Able(s, es[0]) && CanGo(After(s, es[0]), es[1..]))
  }

  function Gone(s: State, es: seq<Event>): State
    requires CanGo(s, es)
    decreases |es|
  {
    if es == [] then s else Gone(After(s, es[0]), es[1..])
  }

  predicate AllHarmless(s: State, es: seq<Event>)
    requires CanGo(s, es)
    decreases |es|
  {
    es == [] || (Harmless(s, es[0]) && AllHarmless(After(s, es[0]), es[1..]))
  }

  ghost predicate InvAlong(s: State, es: seq<Event>)
    requires CanGo(s, es)
    decreases |es|
  {
    Inv(s) && (es == [] || InvAlong(After(s, es[0]), es[1..]))
  }

  lemma EventKeepsInv(s: State, e: Event)
    requires Inv(s) && Able(s, e)
    ensures Inv(After(s, e)) <==> Harmless(s, e)
  {
    match e
    case Moves(turn) => StepKeepsInv(s, turn.t, turn.c);
    case Kicked(t) => ForeignWakeup(s, t);
  }

  // With wake-ups from elsewhere among the steps, the invariant holds all along a run exactly if each
  // step and each wake-up is harmless.
  lemma {:induction false} WakeupsKeepInv(s: State, es: seq<Event>)
    requires Inv(s) && CanGo(s, es)
    ensures InvAlong(s, es) <==> AllHarmless(s, es)
    ensures AllHarmless(s, es) ==> Inv(Gone(s, es)) && |Gone(s, es).pc| == |s.pc|
    decreases |es|
  {
    if es != [] {
      EventKeepsInv(s, es[0]);
      if Harmless(s, es[0]) {
        if es[0].Moves? {
          StepParts(s, es[0].turn.t, es[0].turn.c);
        }
        WakeupsKeepInv(After(s, es[0]), es[1..]);
      }
    }
  }

  // In such a run a writer in its section excludes all readers and all other writers.
  lemma ExclusionWithWakeups(n: nat, es: seq<Event>, w: int, u: int)
    requires CanGo(Start(n), es) && AllHarmless(Start(n), es)
    requires var pc := Gone(Start(n), es).pc; 0 <= w < |pc| && 0 <= u < |pc| && w != u && HoldsShare(pc[w])
    ensures var pc := Gone(Start(n), es).pc; !HoldsShare(pc[u]) && !InReadSection(pc[u])
  {
    StartInv(n);
    WakeupsKeepInv(Start(n), es);
    Excluded(Gone(Start(n), es), w, u);
  }
}
