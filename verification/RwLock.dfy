/** The readers/writer lock of xem.c over three semaphores, as steps of any number
    of threads in any order.  A semaphore operation is one step, since it runs under
    the semaphore's spinlock; so is each read or write of `reader`. */
module RwLock {
  import WaitQueue
  import opened Sequences

  const NOBODY := -1
  const READERS := -2

  // The owner is auxiliary: no step looks at it.  It says whom the semaphore let
  // in last: a thread, or the readers as a group.
  datatype Sem = Sem(count: int, queue: seq<int>, head: WaitQueue.Place, owner: int)

  const Free := Sem(1, [], 0, NOBODY)

  predicate Sleeps(s: Sem) {
    s.count - 1 < 0
  }

  // The queue takes thread t; the word behind its array is head.
  predicate Takes(s: Sem, t: int) {
    WaitQueue.Takes(s.queue, s.head, s.head, t)
  }

  // xem_wait by thread t, which enters in the name of `who`.  It goes to sleep whether or not the
  // queue has taken it.
  function Wait(s: Sem, t: int, who: int): Sem {
    if !Sleeps(s) then s.(count := s.count - 1, owner := who)
    else if Takes(s, t) then s.(count := s.count - 1, queue := s.queue + [t])
    else s.(count := s.count - 1)
  }

  // xem_unlock; the thread it wakes, if any, is the first in the queue.
  function Unlock(s: Sem): Sem {
    if s.queue == [] then Sem(s.count + 1, [], s.head, NOBODY)
    else Sem(s.count + 1, s.queue[1..], WaitQueue.Next(s.head), s.queue[0])
  }

  function Woken(s: Sem): int {
    if s.queue == [] then NOBODY else s.queue[0]
  }

  /** The semaphore itself; its spinlock makes each method one step. */
  class Semaphore {
    var count: int
    const waiting: WaitQueue.WQueue

    ghost predicate Valid()
      reads this, waiting, waiting.arr
    {
      waiting.Valid()
    }

    ghost predicate Is(s: Sem)
      requires Valid()
      reads this, waiting, waiting.arr
    {
      count == s.count && waiting.Contents() == s.queue && waiting.head == s.head
    }

    constructor ()
      ensures Valid() && Is(Free) && fresh(waiting) && fresh(waiting.arr)
    {
      count := 1;
      waiting := new WaitQueue.WQueue();
    }

    // xem_wait up to its sleep.  The result of wq_enqueue is ignored, as there.
    method XemWait(cur: int, ghost s: Sem, ghost who: int) returns (sleeps: bool)
      requires Valid() && Is(s) && cur >= 0
      modifies this`count, waiting, waiting.arr
      ensures Valid() && Is(Wait(s, cur, who))
      ensures sleeps <==> Sleeps(s)
    {
      count := count - 1;
      sleeps := count < 0;
      if sleeps {
        var _ := waiting.Enqueue(cur, waiting.head);
      }
    }

    method XemUnlock(ghost s: Sem) returns (next: int)
      requires Valid() && Is(s)
      modifies this`count, waiting, waiting.arr
      ensures Valid() && Is(Unlock(s)) && next == Woken(s)
    {
      count := count + 1;
      next := waiting.Dequeue();
    }
  }

  // ---------- the threads ----------

  datatype PC =
    | Idle
    // rwlock_acquire_readlock
    | RStarv | RStarvSleep | RRace | RRaceSleep | RInc | RTest | RShareSleep | RUnlockRace | RUnlockStarv
    | Reading
    // rwlock_release_readlock
    | QRace | QRaceSleep | QDec | QTest | QUnlockRace
    // rwlock_acquire_writelock and rwlock_release_writelock
    | WStarv | WStarvSleep | WShare | WShareSleep
    | Writing
    | WUnlockShare | WUnlockStarv

  datatype State = State(pc: seq<PC>, race: Sem, starv: Sem, share: Sem, reader: int)

  // What an idle thread does next.
  datatype Choice = ToRead | ToWrite

  // Where a thread goes on when it is woken.
  function Resume(p: PC): PC {
    match p
    case RStarvSleep => RRace
    case RRaceSleep => RInc
    case RShareSleep => RUnlockRace
    case QRaceSleep => QDec
    case WStarvSleep => WShare
    case WShareSleep => Writing
    case other => other
  }

  function Wake(pc: seq<PC>, t: int): seq<PC> {
    if 0 <= t < |pc| then pc[t := Resume(pc[t])] else pc
  }

  predicate Asleep(p: PC) {
    (p.RStarvSleep? || p.RRaceSleep? || p.RShareSleep? || p.QRaceSleep? || p.WStarvSleep? || p.WShareSleep?)
  }

  // A sleeping thread does nothing; every other thread can always take its step.
  predicate CanStep(s: State, t: int) {
    0 <= t < |s.pc| && !Asleep(s.pc[t])
  }

  function Step(s: State, t: int, c: Choice): State
    requires CanStep(s, t)
  {
    match s.pc[t]
    case Idle => s.(pc := s.pc[t := if c == ToRead then RStarv else WStarv])
    case RStarv => s.(starv := Wait(s.starv, t, t), pc := s.pc[t := if Sleeps(s.starv) then RStarvSleep else RRace])
    case RRace => s.(race := Wait(s.race, t, t), pc := s.pc[t := if Sleeps(s.race) then RRaceSleep else RInc])
    case RInc => s.(reader := s.reader + 1, pc := s.pc[t := RTest])
    case RTest =>
      if s.reader == 1 then
        s.(share := Wait(s.share, t, READERS), pc := s.pc[t := if Sleeps(s.share) then RShareSleep else RUnlockRace])
      else s.(pc := s.pc[t := RUnlockRace])
    case RUnlockRace => s.(race := Unlock(s.race), pc := Wake(s.pc[t := RUnlockStarv], Woken(s.race)))
    case RUnlockStarv => s.(starv := Unlock(s.starv), pc := Wake(s.pc[t := Reading], Woken(s.starv)))
    case Reading => s.(pc := s.pc[t := QRace])
    case QRace => s.(race := Wait(s.race, t, t), pc := s.pc[t := if Sleeps(s.race) then QRaceSleep else QDec])
    case QDec => s.(reader := s.reader - 1, pc := s.pc[t := QTest])
    case QTest =>
      if s.reader == 0 then s.(share := Unlock(s.share), pc := Wake(s.pc[t := QUnlockRace], Woken(s.share)))
      else s.(pc := s.pc[t := QUnlockRace])
    case QUnlockRace => s.(race := Unlock(s.race), pc := Wake(s.pc[t := Idle], Woken(s.race)))
    case WStarv => s.(starv := Wait(s.starv, t, t), pc := s.pc[t := if Sleeps(s.starv) then WStarvSleep else WShare])
    case WShare => s.(share := Wait(s.share, t, t), pc := s.pc[t := if Sleeps(s.share) then WShareSleep else Writing])
    case Writing => s.(pc := s.pc[t := WUnlockShare])
    case WUnlockShare => s.(share := Unlock(s.share), pc := Wake(s.pc[t := WUnlockStarv], Woken(s.share)))
    case WUnlockStarv => s.(starv := Unlock(s.starv), pc := Wake(s.pc[t := Idle], Woken(s.starv)))
  }

  // The wait that thread t's step is, if any, does not put it to sleep outside the queue.
  predicate Taken(s: State, t: int)
    requires CanStep(s, t)
  {
    match s.pc[t]
    case RStarv => Sleeps(s.starv) ==> Takes(s.starv, t)
    case WStarv => Sleeps(s.starv) ==> Takes(s.starv, t)
    case RRace => Sleeps(s.race) ==> Takes(s.race, t)
    case QRace => Sleeps(s.race) ==> Takes(s.race, t)
    case RTest => s.reader == 1 && Sleeps(s.share) ==> Takes(s.share, t)
    case WShare => Sleeps(s.share) ==> Takes(s.share, t)
    case _ => true
  }

  function Start(n: nat): State {
    State(seq(n, _ => Idle), Free, Free, Free, 0)
  }

  // ---------- the invariant ----------

  predicate HoldsRace(p: PC) {
    (p.RInc? || p.RTest? || p.RShareSleep? || p.RUnlockRace? || p.QDec? || p.QTest? || p.QUnlockRace?)
  }

  predicate HoldsStarv(p: PC) {
    (p.RRace? || p.RRaceSleep? || p.RInc? || p.RTest? || p.RShareSleep? || p.RUnlockRace? || p.RUnlockStarv? || p.WShare? || p.WShareSleep? || p.Writing? || p.WUnlockShare? || p.WUnlockStarv?)
  }

  predicate HoldsShare(p: PC) {
    (p.Writing? || p.WUnlockShare?)
  }

  predicate WaitsRace(p: PC) { (p.RRaceSleep? || p.QRaceSleep?) }
  predicate WaitsStarv(p: PC) { (p.RStarvSleep? || p.WStarvSleep?) }
  predicate WaitsShare(p: PC) { p == WShareSleep }

  // A reader that has counted itself in and not yet out.
  predicate Counted(p: PC) {
    (p.RTest? || p.RShareSleep? || p.RUnlockRace? || p.RUnlockStarv? || p.Reading? || p.QRace? || p.QRaceSleep? || p.QDec?)
  }

  function Readers(pc: seq<PC>): nat {
    if pc == [] then 0 else Readers(pc[..|pc| - 1]) + (if Counted(pc[|pc| - 1]) then 1 else 0)
  }

  // The owner is who holds it; the sleepers are those queued, once each; and the
  // count is one less for each of them.
  ghost predicate SemInv(pc: seq<PC>, s: Sem, holds: PC -> bool, waits: PC -> bool) {
    && (s.owner == READERS || s.owner == NOBODY || 0 <= s.owner < |pc|)
    && (forall t :: 0 <= t < |pc| ==> (holds(pc[t]) <==> s.owner == t))
    && (forall k :: 0 <= k < |s.queue| ==> 0 <= s.queue[k] < |pc| && waits(pc[s.queue[k]]))
    && Distinct(s.queue)
    && (forall t :: 0 <= t < |pc| && waits(pc[t]) ==> t in s.queue)
    && s.count == (if s.owner == NOBODY then 1 else 0) - |s.queue|
    && (s.owner == NOBODY ==> s.queue == [])
  }

  // The thread in the section that racelock protects, if any, and what it is doing.
  predicate RaceAt(s: State, p: PC) {
    0 <= s.race.owner < |s.pc| && s.pc[s.race.owner] == p
  }

  // Whether the readers have sharelock: from the first one's wait to the last one's
  // unlock.
  predicate ReadersIn(s: State) {
    if RaceAt(s, RTest) then s.reader > 1
    else if RaceAt(s, QTest) then true
    else s.reader > 0
  }

  ghost predicate Inv(s: State) {
    && SemInv(s.pc, s.race, HoldsRace, WaitsRace)
    && SemInv(s.pc, s.starv, HoldsStarv, WaitsStarv)
    && SemInv(s.pc, s.share, HoldsShare, WaitsShare)
    && s.race.owner != READERS && s.starv.owner != READERS
    && s.reader == Readers(s.pc)
    && (s.share.owner == READERS <==> ReadersIn(s))
    && (forall t :: 0 <= t < |s.pc| ==> s.pc[t] != RShareSleep)
  }

  // ---------- one semaphore at a time ----------

  lemma OwnerHolds(pc: seq<PC>, s: Sem, holds: PC -> bool, waits: PC -> bool)
    requires SemInv(pc, s, holds, waits) && 0 <= s.owner < |pc|
    ensures holds(pc[s.owner])
  {
  }

  // A thread moves without touching this semaphore.
  lemma SemAside(pc: seq<PC>, s: Sem, holds: PC -> bool, waits: PC -> bool, t: int, p: PC)
    requires SemInv(pc, s, holds, waits) && 0 <= t < |pc|
    requires holds(p) == holds(pc[t]) && waits(p) == waits(pc[t])
    ensures SemInv(pc[t := p], s, holds, waits)
  {
  }

  lemma SemEnters(pc: seq<PC>, s: Sem, holds: PC -> bool, waits: PC -> bool, t: int, who: int, p: PC)
    requires SemInv(pc, s, holds, waits) && 0 <= t < |pc| && (who == t || who == READERS) && !Sleeps(s)
    requires !holds(pc[t]) && !waits(pc[t]) && !waits(p) && (holds(p) <==> who == t)
    ensures SemInv(pc[t := p], Wait(s, t, who), holds, waits) && s.owner == NOBODY
  {
  }

  lemma SemSleeps(pc: seq<PC>, s: Sem, holds: PC -> bool, waits: PC -> bool, t: int, who: int, p: PC)
    requires SemInv(pc, s, holds, waits) && 0 <= t < |pc| && Sleeps(s) && Takes(s, t)
    requires !holds(pc[t]) && !waits(pc[t]) && waits(p) && !holds(p)
    ensures SemInv(pc[t := p], Wait(s, t, who), holds, waits) && s.owner != NOBODY
  {
    var s', pc' := Wait(s, t, who), pc[t := p];
    assert t !in s.queue;
    assert s'.queue[|s.queue|] == t;
    forall u | 0 <= u < |pc'| && waits(pc'[u])
      ensures u in s'.queue
    {
      if u != t {
        assert u in s.queue;
      }
    }
  }

  lemma SemWait(pc: seq<PC>, s: Sem, holds: PC -> bool, waits: PC -> bool, t: int, who: int, p: PC)
    requires SemInv(pc, s, holds, waits) && 0 <= t < |pc| && (who == t || who == READERS)
    requires !holds(pc[t]) && !waits(pc[t]) && (Sleeps(s) ==> Takes(s, t))
    requires if Sleeps(s) then waits(p) && !holds(p) else !waits(p) && (holds(p) <==> who == t)
    ensures SemInv(pc[t := p], Wait(s, t, who), holds, waits)
    ensures Sleeps(s) <==> s.owner != NOBODY
  {
    if Sleeps(s) {
      SemSleeps(pc, s, holds, waits, t, who, p);
    } else {
      SemEnters(pc, s, holds, waits, t, who, p);
    }
  }

  lemma SemUnlock(pc: seq<PC>, s: Sem, holds: PC -> bool, waits: PC -> bool, t: int, p: PC)
    requires SemInv(pc, s, holds, waits) && 0 <= t < |pc| && (s.owner == t || s.owner == READERS)
    requires !holds(p) && !waits(p) && !waits(pc[t])
    requires Woken(s) != NOBODY ==> 0 <= Woken(s) < |pc| && holds(Resume(pc[Woken(s)])) && !waits(Resume(pc[Woken(s)]))
    ensures SemInv(Wake(pc[t := p], Woken(s)), Unlock(s), holds, waits)
  {
    var w := Woken(s);
    if s.queue != [] {
      assert waits(pc[w]) && w != t;
      var pc' := pc[t := p][w := Resume(pc[w])];
      forall u | 0 <= u < |pc'| && waits(pc'[u])
        ensures u in Unlock(s).queue
      {
        assert u in s.queue;
        var k :| 0 <= k < |s.queue| && s.queue[k] == u;
        assert k > 0 && s.queue[1..][k - 1] == u;
      }
    }
  }

  // A thread moves and wakes another, neither touching this semaphore.
  lemma SemAsideWake(pc: seq<PC>, s: Sem, holds: PC -> bool, waits: PC -> bool, t: int, p: PC, w: int)
    requires SemInv(pc, s, holds, waits) && 0 <= t < |pc|
    requires holds(p) == holds(pc[t]) && waits(p) == waits(pc[t])
    requires w == NOBODY || (0 <= w < |pc| && w != t && holds(Resume(pc[w])) == holds(pc[w]) && waits(Resume(pc[w])) == waits(pc[w]))
    ensures SemInv(Wake(pc[t := p], w), s, holds, waits)
  {
    SemAside(pc, s, holds, waits, t, p);
    if w != NOBODY {
      SemAside(pc[t := p], s, holds, waits, w, Resume(pc[w]));
    }
  }

  lemma {:induction false} ReadersChange(pc: seq<PC>, t: int, p: PC)
    requires 0 <= t < |pc|
    ensures Readers(pc[t := p]) == Readers(pc) - (if Counted(pc[t]) then 1 else 0) + (if Counted(p) then 1 else 0)
  {
    var k := |pc| - 1;
    if t < k {
      assert pc[t := p][..k] == pc[..k][t := p];
      ReadersChange(pc[..k], t, p);
    } else {
      assert pc[t := p][..k] == pc[..k];
    }
  }

  lemma ReadersWake(pc: seq<PC>, t: int, p: PC, w: int)
    requires 0 <= t < |pc| && Counted(p) == Counted(pc[t])
    requires w == NOBODY || (0 <= w < |pc| && w != t && Counted(Resume(pc[w])) == Counted(pc[w]))
    ensures Readers(Wake(pc[t := p], w)) == Readers(pc)
  {
    ReadersChange(pc, t, p);
    if w != NOBODY {
      ReadersChange(pc[t := p], w, Resume(pc[w]));
    }
  }

  // A counted thread makes the count positive; two make it more than one.
  lemma {:induction false} CountedReaders(pc: seq<PC>, t: int)
    requires 0 <= t < |pc| && Counted(pc[t])
    ensures Readers(pc) >= 1
    ensures forall u :: 0 <= u < |pc| && u != t && Counted(pc[u]) ==> Readers(pc) >= 2
  {
    ReadersChange(pc, t, Idle);
    forall u | 0 <= u < |pc| && u != t && Counted(pc[u])
      ensures Readers(pc) >= 2
    {
      ReadersChange(pc[t := Idle], u, Idle);
    }
  }

  // ---------- every step keeps the invariant ----------

  // What a thread's step does to its own place, when the semaphores it may wait for
  // would put it to sleep as told.
  function GoesTo(p: PC, c: Choice, race: bool, starv: bool, share: bool, first: bool): PC {
    match p
    case Idle => if c == ToRead then RStarv else WStarv
    case RStarv => if starv then RStarvSleep else RRace
    case RRace => if race then RRaceSleep else RInc
    case RInc => RTest
    case RTest => if first && share then RShareSleep else RUnlockRace
    case RUnlockRace => RUnlockStarv
    case RUnlockStarv => Reading
    case Reading => QRace
    case QRace => if race then QRaceSleep else QDec
    case QDec => QTest
    case QTest => QUnlockRace
    case QUnlockRace => Idle
    case WStarv => if starv then WStarvSleep else WShare
    case WShare => if share then WShareSleep else Writing
    case Writing => WUnlockShare
    case WUnlockShare => WUnlockStarv
    case WUnlockStarv => Idle
    case asleep => asleep
  }

  function Goes(s: State, t: int, c: Choice): PC
    requires CanStep(s, t)
  {
    GoesTo(s.pc[t], c, Sleeps(s.race), Sleeps(s.starv), Sleeps(s.share), s.reader == 1)
  }

  predicate OnRace(p: PC) { p.RRace? || p.QRace? }
  predicate OffRace(p: PC) { p.RUnlockRace? || p.QUnlockRace? }
  predicate OnStarv(p: PC) { p.RStarv? || p.WStarv? }
  predicate OffStarv(p: PC) { p.RUnlockStarv? || p.WUnlockStarv? }

  lemma MovesRace(p: PC, c: Choice, race: bool, starv: bool, share: bool, first: bool)
    requires !Asleep(p)
    ensures var p' := GoesTo(p, c, race, starv, share, first);
            if OnRace(p) then
              !HoldsRace(p) && !WaitsRace(p) && WaitsRace(p') == race && HoldsRace(p') == !race
            else if OffRace(p) then
              HoldsRace(p) && !HoldsRace(p') && !WaitsRace(p') && !WaitsRace(p)
            else
              HoldsRace(p) == HoldsRace(p') && WaitsRace(p) == WaitsRace(p')
  {
  }

  lemma MovesStarv(p: PC, c: Choice, race: bool, starv: bool, share: bool, first: bool)
    requires !Asleep(p)
    ensures var p' := GoesTo(p, c, race, starv, share, first);
            if OnStarv(p) then
              !HoldsStarv(p) && !WaitsStarv(p) && WaitsStarv(p') == starv && HoldsStarv(p') == !starv
            else if OffStarv(p) then
              HoldsStarv(p) && !HoldsStarv(p') && !WaitsStarv(p') && !WaitsStarv(p)
            else
              HoldsStarv(p) == HoldsStarv(p') && WaitsStarv(p) == WaitsStarv(p')
  {
  }

  lemma MovesShare(p: PC, c: Choice, race: bool, starv: bool, share: bool, first: bool)
    requires !Asleep(p)
    ensures var p' := GoesTo(p, c, race, starv, share, first);
            if p.WShare? then
              !HoldsShare(p) && !WaitsShare(p) && WaitsShare(p') == share && HoldsShare(p') == !share
            else if p.WUnlockShare? then
              HoldsShare(p) && !HoldsShare(p') && !WaitsShare(p') && !WaitsShare(p)
            else
              HoldsShare(p) == HoldsShare(p') && WaitsShare(p) == WaitsShare(p')
  {
  }

  lemma MovesCount(p: PC, c: Choice, race: bool, starv: bool, share: bool, first: bool)
    requires !Asleep(p)
    ensures var p' := GoesTo(p, c, race, starv, share, first);
            if p.RInc? then !Counted(p) && Counted(p')
            else if p.QDec? then Counted(p) && !Counted(p')
            else Counted(p) == Counted(p')
  {
  }

  // A thread at p wakes a thread at q: q slept on the semaphore that p unlocks.
  predicate WakesFrom(p: PC, q: PC) {
    || ((p.RUnlockRace? || p.QUnlockRace?) && WaitsRace(q))
    || ((p.RUnlockStarv? || p.WUnlockStarv?) && WaitsStarv(q))
    || ((p.QTest? || p.WUnlockShare?) && WaitsShare(q))
  }

  // What waking q from p does for each semaphore and the count.
  lemma Awakening(p: PC, q: PC)
    requires WakesFrom(p, q)
    ensures OffRace(p) || OffStarv(p) || p.QTest? || p.WUnlockShare?
    ensures if OffRace(p) then HoldsRace(Resume(q)) && !WaitsRace(Resume(q))
            else HoldsRace(Resume(q)) == HoldsRace(q) && WaitsRace(Resume(q)) == WaitsRace(q)
    ensures if OffStarv(p) then HoldsStarv(Resume(q)) && !WaitsStarv(Resume(q))
            else HoldsStarv(Resume(q)) == HoldsStarv(q) && WaitsStarv(Resume(q)) == WaitsStarv(q)
    ensures if p.QTest? || p.WUnlockShare? then HoldsShare(Resume(q)) && !WaitsShare(Resume(q))
            else HoldsShare(Resume(q)) == HoldsShare(q) && WaitsShare(Resume(q)) == WaitsShare(q)
    ensures Counted(Resume(q)) == Counted(q) && Resume(q) != RShareSleep && !Resume(q).RTest? && !Resume(q).QTest?
  {
  }

  // Whom it wakes.
  function Wakes(s: State, t: int): int
    requires CanStep(s, t)
  {
    match s.pc[t]
    case RUnlockRace => Woken(s.race)
    case QUnlockRace => Woken(s.race)
    case RUnlockStarv => Woken(s.starv)
    case WUnlockStarv => Woken(s.starv)
    case QTest => if s.reader == 0 then Woken(s.share) else NOBODY
    case WUnlockShare => Woken(s.share)
    case _ => NOBODY
  }

  function PcAfter(s: State, t: int, c: Choice): seq<PC>
    requires CanStep(s, t)
  {
    Wake(s.pc[t := Goes(s, t, c)], Wakes(s, t))
  }

  function RaceAfter(s: State, t: int): Sem
    requires CanStep(s, t)
  {
    if OnRace(s.pc[t]) then Wait(s.race, t, t)
    else if OffRace(s.pc[t]) then Unlock(s.race)
    else s.race
  }

  function StarvAfter(s: State, t: int): Sem
    requires CanStep(s, t)
  {
    if OnStarv(s.pc[t]) then Wait(s.starv, t, t)
    else if OffStarv(s.pc[t]) then Unlock(s.starv)
    else s.starv
  }

  function ShareAfter(s: State, t: int): Sem
    requires CanStep(s, t)
  {
    if s.pc[t] == RTest && s.reader == 1 then Wait(s.share, t, READERS)
    else if s.pc[t] == WShare then Wait(s.share, t, t)
    else if (s.pc[t] == QTest && s.reader == 0) || s.pc[t] == WUnlockShare then Unlock(s.share)
    else s.share
  }

  function ReaderAfter(s: State, t: int): int
    requires CanStep(s, t)
  {
    if s.pc[t] == RInc then s.reader + 1 else if s.pc[t] == QDec then s.reader - 1 else s.reader
  }

  lemma StepParts(s: State, t: int, c: Choice)
    requires CanStep(s, t)
    ensures Step(s, t, c) == State(PcAfter(s, t, c), RaceAfter(s, t), StarvAfter(s, t), ShareAfter(s, t), ReaderAfter(s, t))
  {
  }

  // If it wakes anybody, that is another thread, asleep on the semaphore that it unlocks.
  predicate WakesSleeper(s: State, t: int)
    requires CanStep(s, t)
  {
    var w := Wakes(s, t); w != NOBODY ==> 0 <= w < |s.pc| && w != t && WakesFrom(s.pc[t], s.pc[w])
  }

  lemma WokenSlept(s: State, t: int)
    requires Inv(s) && CanStep(s, t)
    ensures WakesSleeper(s, t)
  {
    assert forall p :: WaitsRace(p) || WaitsStarv(p) || WaitsShare(p) ==> Asleep(p);
  }

  lemma RaceKept(s: State, t: int, c: Choice)
    requires Inv(s) && CanStep(s, t) && Taken(s, t)
    ensures SemInv(PcAfter(s, t, c), RaceAfter(s, t), HoldsRace, WaitsRace)
  {
    var p, p', w := s.pc[t], Goes(s, t, c), Wakes(s, t);
    MovesRace(p, c, Sleeps(s.race), Sleeps(s.starv), Sleeps(s.share), s.reader == 1);
    WokenSlept(s, t);
    if w != NOBODY {
      Awakening(p, s.pc[w]);
    }
    if OnRace(p) {
      SemWait(s.pc, s.race, HoldsRace, WaitsRace, t, t, p');
    } else if OffRace(p) {
      SemUnlock(s.pc, s.race, HoldsRace, WaitsRace, t, p');
    } else {
      SemAsideWake(s.pc, s.race, HoldsRace, WaitsRace, t, p', w);
    }
  }

  lemma StarvKept(s: State, t: int, c: Choice)
    requires Inv(s) && CanStep(s, t) && Taken(s, t)
    ensures SemInv(PcAfter(s, t, c), StarvAfter(s, t), HoldsStarv, WaitsStarv)
  {
    var p, p', w := s.pc[t], Goes(s, t, c), Wakes(s, t);
    MovesStarv(p, c, Sleeps(s.race), Sleeps(s.starv), Sleeps(s.share), s.reader == 1);
    WokenSlept(s, t);
    if w != NOBODY {
      Awakening(p, s.pc[w]);
    }
    if OnStarv(p) {
      SemWait(s.pc, s.starv, HoldsStarv, WaitsStarv, t, t, p');
    } else if OffStarv(p) {
      SemUnlock(s.pc, s.starv, HoldsStarv, WaitsStarv, t, p');
    } else {
      SemAsideWake(s.pc, s.starv, HoldsStarv, WaitsStarv, t, p', w);
    }
  }

  // The first reader finds sharelock free: a writer that has it also has starvlock.
  lemma FirstReaderEnters(s: State, t: int)
    requires Inv(s) && 0 <= t < |s.pc| && s.pc[t] == RTest && s.reader == 1
    ensures s.share.owner == NOBODY && !Sleeps(s.share)
  {
    assert HoldsRace(s.pc[t]) && HoldsStarv(s.pc[t]);
    assert s.race.owner == t && s.starv.owner == t;
    if 0 <= s.share.owner < |s.pc| {
      OwnerHolds(s.pc, s.share, HoldsShare, WaitsShare);
    }
  }

  // The last reader has sharelock to give back.
  lemma LastReaderLeaves(s: State, t: int)
    requires Inv(s) && 0 <= t < |s.pc| && s.pc[t] == QTest
    ensures s.share.owner == READERS
  {
    assert HoldsRace(s.pc[t]);
    assert s.race.owner == t;
  }

  lemma ShareKept(s: State, t: int, c: Choice)
    requires Inv(s) && CanStep(s, t) && Taken(s, t)
    ensures SemInv(PcAfter(s, t, c), ShareAfter(s, t), HoldsShare, WaitsShare)
  {
    var p, p', w := s.pc[t], Goes(s, t, c), Wakes(s, t);
    MovesShare(p, c, Sleeps(s.race), Sleeps(s.starv), Sleeps(s.share), s.reader == 1);
    WokenSlept(s, t);
    if w != NOBODY {
      Awakening(p, s.pc[w]);
    }
    if p.RTest? || p.QTest? {
      ShareByReaders(s, t, c);
    } else if p.WShare? {
      SemWait(s.pc, s.share, HoldsShare, WaitsShare, t, t, p');
    } else if p.WUnlockShare? {
      SemUnlock(s.pc, s.share, HoldsShare, WaitsShare, t, p');
    } else {
      SemAsideWake(s.pc, s.share, HoldsShare, WaitsShare, t, p', w);
    }
  }

  lemma ShareByReaders(s: State, t: int, c: Choice)
    requires Inv(s) && CanStep(s, t) && (s.pc[t].RTest? || s.pc[t].QTest?)
    ensures SemInv(PcAfter(s, t, c), ShareAfter(s, t), HoldsShare, WaitsShare)
  {
    var p, p', w := s.pc[t], Goes(s, t, c), Wakes(s, t);
    MovesShare(p, c, Sleeps(s.race), Sleeps(s.starv), Sleeps(s.share), s.reader == 1);
    WokenSlept(s, t);
    if w != NOBODY {
      Awakening(p, s.pc[w]);
    }
    if p.RTest? && s.reader == 1 {
      ShareByFirst(s, t, c);
    } else if p.QTest? && s.reader == 0 {
      LastReaderLeaves(s, t);
      SemUnlock(s.pc, s.share, HoldsShare, WaitsShare, t, p');
    } else {
      SemAsideWake(s.pc, s.share, HoldsShare, WaitsShare, t, p', w);
    }
  }

  lemma ShareByFirst(s: State, t: int, c: Choice)
    requires Inv(s) && CanStep(s, t) && s.pc[t].RTest? && s.reader == 1
    ensures SemInv(PcAfter(s, t, c), ShareAfter(s, t), HoldsShare, WaitsShare)
  {
    FirstReaderEnters(s, t);
    SemWait(s.pc, s.share, HoldsShare, WaitsShare, t, READERS, Goes(s, t, c));
  }

  lemma CountKept(s: State, t: int, c: Choice)
    requires Inv(s) && CanStep(s, t)
    ensures ReaderAfter(s, t) == Readers(PcAfter(s, t, c))
  {
    var p, p', w := s.pc[t], Goes(s, t, c), Wakes(s, t);
    MovesCount(p, c, Sleeps(s.race), Sleeps(s.starv), Sleeps(s.share), s.reader == 1);
    WokenSlept(s, t);
    if w != NOBODY {
      Awakening(p, s.pc[w]);
    }
    if p.RInc? || p.QDec? {
      ReadersChange(s.pc, t, p');
    } else {
      ReadersWake(s.pc, t, p', w);
    }
  }

  lemma NoReaderSleepsOnShare(s: State, t: int, c: Choice)
    requires Inv(s) && CanStep(s, t)
    ensures forall u :: 0 <= u < |s.pc| ==> PcAfter(s, t, c)[u] != RShareSleep
  {
    WokenSlept(s, t);
    if s.pc[t].RTest? && s.reader == 1 {
      FirstReaderEnters(s, t);
    }
    forall u | 0 <= u < |s.pc|
      ensures PcAfter(s, t, c)[u] != RShareSleep
    {
      assert s.pc[u] != RShareSleep;
      StaysOffShare(s, t, c, u);
    }
  }

  lemma StaysOffShare(s: State, t: int, c: Choice, u: int)
    requires CanStep(s, t) && WakesSleeper(s, t) && 0 <= u < |s.pc| && s.pc[u] != RShareSleep
    requires s.pc[t].RTest? && s.reader == 1 ==> !Sleeps(s.share)
    ensures PcAfter(s, t, c)[u] != RShareSleep
  {
    GoesAwake(s.pc[t], c, Sleeps(s.race), Sleeps(s.starv), Sleeps(s.share), s.reader == 1);
    if Wakes(s, t) != NOBODY {
      Awakening(s.pc[t], s.pc[Wakes(s, t)]);
    }
  }

  lemma GoesAwake(p: PC, c: Choice, race: bool, starv: bool, share: bool, first: bool)
    requires !Asleep(p)
    ensures GoesTo(p, c, race, starv, share, first) == RShareSleep ==> p.RTest? && first && share
  {
  }

  // The state after a step, in parts.
  function After(s: State, t: int, c: Choice): State
    requires CanStep(s, t)
  {
    State(PcAfter(s, t, c), RaceAfter(s, t), StarvAfter(s, t), ShareAfter(s, t), ReaderAfter(s, t))
  }

  // Whether the readers own sharelock is what it should be.
  predicate Group(s: State) {
    s.share.owner == READERS <==> ReadersIn(s)
  }

  // Who is in the section of racelock, if anybody, is not t, and stays as it is.
  predicate InsideStays(s: State, t: int, c: Choice)
    requires CanStep(s, t)
  {
    s.race.owner == NOBODY
    || (0 <= s.race.owner < |s.pc| && s.race.owner != t && PcAfter(s, t, c)[s.race.owner] == s.pc[s.race.owner])
  }

  lemma OutsiderLeavesInside(s: State, t: int, c: Choice)
    requires Inv(s) && CanStep(s, t) && !HoldsRace(s.pc[t])
    ensures InsideStays(s, t, c)
  {
    WokenSlept(s, t);
    if s.race.owner != NOBODY {
      OwnerHolds(s.pc, s.race, HoldsRace, WaitsRace);
      HolderNotWoken(s.pc[t], s.pc[s.race.owner]);
    }
  }

  lemma HolderNotWoken(p: PC, q: PC)
    requires HoldsRace(q)
    ensures !WakesFrom(p, q)
  {
  }

  lemma InsiderOwns(s: State, t: int)
    requires Inv(s) && CanStep(s, t) && HoldsRace(s.pc[t])
    ensures s.race.owner == t
  {
  }

  // A thread that is not in the section of racelock and not about to enter it.
  lemma GroupOutside(s: State, t: int, c: Choice)
    requires CanStep(s, t) && !HoldsRace(s.pc[t]) && !OnRace(s.pc[t])
    requires Group(s) && InsideStays(s, t, c) && (ShareAfter(s, t).owner == READERS <==> s.share.owner == READERS)
    ensures Group(After(s, t, c))
  {
  }

  lemma OutsideShare(s: State, t: int)
    requires Inv(s) && CanStep(s, t) && !HoldsRace(s.pc[t])
    ensures ShareAfter(s, t).owner == READERS <==> s.share.owner == READERS
  {
    if s.pc[t].WUnlockShare? {
      assert HoldsShare(s.pc[t]);
    }
  }

  // Entering the section of racelock.
  lemma GroupEntering(s: State, t: int, c: Choice)
    requires CanStep(s, t) && OnRace(s.pc[t]) && Group(s) && InsideStays(s, t, c)
    requires Sleeps(s.race) <==> s.race.owner != NOBODY
    ensures Group(After(s, t, c))
  {
  }

  lemma RaceSleeps(s: State)
    requires Inv(s)
    ensures Sleeps(s.race) <==> s.race.owner != NOBODY
  {
  }

  // Who wakes up in it is about to count itself in or out.
  lemma RaceHandedOn(s: State, t: int, c: Choice)
    requires CanStep(s, t) && OffRace(s.pc[t]) && WakesSleeper(s, t)
    ensures !RaceAt(After(s, t, c), RTest) && !RaceAt(After(s, t, c), QTest)
  {
  }

  // Leaving it.
  lemma GroupLeaving(s: State, t: int, c: Choice)
    requires CanStep(s, t) && OffRace(s.pc[t]) && Group(s) && WakesSleeper(s, t) && s.race.owner == t
    ensures Group(After(s, t, c))
  {
    RaceHandedOn(s, t, c);
  }

  // Inside it: counting in or out.
  lemma GroupCounting(s: State, t: int, c: Choice)
    requires CanStep(s, t) && (s.pc[t].RInc? || s.pc[t].QDec?) && Group(s) && s.race.owner == t
    requires s.reader >= 0 && (s.pc[t].QDec? ==> s.reader >= 1)
    ensures Group(After(s, t, c))
  {
  }

  lemma CountedBy(s: State, t: int)
    requires Inv(s) && CanStep(s, t)
    ensures s.reader >= 0 && (Counted(s.pc[t]) ==> s.reader >= 1)
  {
    if Counted(s.pc[t]) {
      CountedReaders(s.pc, t);
    }
  }

  // Inside it: the first reader in takes sharelock.
  lemma GroupFirstIn(s: State, t: int, c: Choice)
    requires CanStep(s, t) && s.pc[t].RTest? && Group(s) && s.race.owner == t && s.reader >= 1
    requires s.reader == 1 ==> s.share.owner == NOBODY && !Sleeps(s.share)
    ensures Group(After(s, t, c))
  {
  }

  // The last one out gives it back.
  lemma GroupLastOut(s: State, t: int, c: Choice)
    requires CanStep(s, t) && s.pc[t].QTest? && Group(s) && s.race.owner == t && s.reader >= 0
    requires s.share.owner == READERS && WakesSleeper(s, t) && Woken(s.share) != READERS
    ensures Group(After(s, t, c))
  {
    LastOutKeepsRace(s, t, c);
  }

  lemma LastOutKeepsRace(s: State, t: int, c: Choice)
    requires CanStep(s, t) && s.pc[t].QTest? && WakesSleeper(s, t)
    ensures PcAfter(s, t, c)[t] == QUnlockRace
  {
  }

  lemma GroupKept(s: State, t: int, c: Choice)
    requires Inv(s) && CanStep(s, t)
    ensures Group(After(s, t, c))
  {
    assert Group(s);
    WokenSlept(s, t);
    if HoldsRace(s.pc[t]) {
      InsiderOwns(s, t);
      CountedBy(s, t);
      GroupInside(s, t, c);
    } else {
      OutsiderLeavesInside(s, t, c);
      OutsideShare(s, t);
      RaceSleeps(s);
      if OnRace(s.pc[t]) {
        GroupEntering(s, t, c);
      } else {
        GroupOutside(s, t, c);
      }
    }
  }

  lemma GroupInside(s: State, t: int, c: Choice)
    requires Inv(s) && CanStep(s, t) && HoldsRace(s.pc[t])
    requires Group(s) && WakesSleeper(s, t) && s.race.owner == t && s.reader >= 0 && (Counted(s.pc[t]) ==> s.reader >= 1)
    ensures Group(After(s, t, c))
  {
    if OffRace(s.pc[t]) {
      GroupLeaving(s, t, c);
    } else if s.pc[t].RTest? {
      if s.reader == 1 {
        FirstReaderEnters(s, t);
      }
      GroupFirstIn(s, t, c);
    } else if s.pc[t].QTest? {
      LastReaderLeaves(s, t);
      GroupLastOut(s, t, c);
    } else {
      GroupCounting(s, t, c);
    }
  }

  lemma TakenKeepsInv(s: State, t: int, c: Choice)
    requires Inv(s) && CanStep(s, t) && Taken(s, t)
    ensures Inv(Step(s, t, c))
  {
    StepParts(s, t, c);
    RaceKept(s, t, c);
    StarvKept(s, t, c);
    ShareKept(s, t, c);
    CountKept(s, t, c);
    NoReaderSleepsOnShare(s, t, c);
    NoGroupOwner(s, t, c);
    GroupKept(s, t, c);
  }

  // A thread that goes to sleep outside the queue is a sleeper that is not queued.
  lemma RefusedBreaksInv(s: State, t: int, c: Choice)
    requires Inv(s) && CanStep(s, t) && !Taken(s, t)
    ensures !Inv(Step(s, t, c))
  {
    var s' := Step(s, t, c);
    if OnRace(s.pc[t]) {
      assert WaitsRace(s'.pc[t]) && t !in s.race.queue;
    } else if OnStarv(s.pc[t]) {
      assert WaitsStarv(s'.pc[t]) && t !in s.starv.queue;
    } else if s.pc[t].WShare? {
      assert WaitsShare(s'.pc[t]) && t !in s.share.queue;
    } else {
      assert s'.pc[t] == RShareSleep;
    }
  }

  lemma StepKeepsInv(s: State, t: int, c: Choice)
    requires Inv(s) && CanStep(s, t)
    ensures Inv(Step(s, t, c)) <==> Taken(s, t)
  {
    if Taken(s, t) {
      TakenKeepsInv(s, t, c);
    } else {
      RefusedBreaksInv(s, t, c);
    }
  }

  lemma NoGroupOwner(s: State, t: int, c: Choice)
    requires Inv(s) && CanStep(s, t)
    ensures RaceAfter(s, t).owner != READERS && StarvAfter(s, t).owner != READERS
  {
  }

  // ---------- every interleaving ----------

  // Who steps, and what an idle thread chooses.
  datatype Turn = Turn(t: int, c: Choice)

  lemma StartInv(n: nat)
    ensures Inv(Start(n))
  {
    NoReaders(n);
  }

  lemma {:induction false} NoReaders(n: nat)
    ensures Readers(Start(n).pc) == 0
  {
    if n > 0 {
      assert Start(n).pc[..n - 1] == Start(n - 1).pc;
      NoReaders(n - 1);
    }
  }

  ghost predicate CanRun(s: State, turns: seq<Turn>)
    decreases |turns|
  {
    turns == [] || (CanStep(s, turns[0].t) && CanRun(Step(s, turns[0].t, turns[0].c), turns[1..]))
  }

  ghost function Run(s: State, turns: seq<Turn>): State
    requires CanRun(s, turns)
    decreases |turns|
  {
    if turns == [] then s else Run(Step(s, turns[0].t, turns[0].c), turns[1..])
  }

  // Every wait that sleeps is queued.
  ghost predicate AllTaken(s: State, turns: seq<Turn>)
    requires CanRun(s, turns)
    decreases |turns|
  {
    turns == [] || (Taken(s, turns[0].t) && AllTaken(Step(s, turns[0].t, turns[0].c), turns[1..]))
  }

  lemma {:induction false} TakenRunKeepsInv(s: State, turns: seq<Turn>)
    requires Inv(s) && CanRun(s, turns) && AllTaken(s, turns)
    ensures Inv(Run(s, turns))
    decreases |turns|
  {
    if turns != [] {
      StepKeepsInv(s, turns[0].t, turns[0].c);
      TakenRunKeepsInv(Step(s, turns[0].t, turns[0].c), turns[1..]);
    }
  }

  ghost predicate Possible(n: nat, turns: seq<Turn>) {
    CanRun(Start(n), turns) && AllTaken(Start(n), turns)
  }

  lemma PossibleInv(n: nat, turns: seq<Turn>)
    requires Possible(n, turns)
    ensures Inv(Run(Start(n), turns))
  {
    StartInv(n);
    TakenRunKeepsInv(Start(n), turns);
  }

  // In its section, or letting go of it: a reader from the moment it is counted
  // until it has counted itself out.
  predicate InReadSection(p: PC) {
    Counted(p) && !p.RTest?
  }

  lemma Excluded(s: State, w: int, u: int)
    requires Inv(s) && 0 <= w < |s.pc| && 0 <= u < |s.pc| && w != u && HoldsShare(s.pc[w])
    ensures !HoldsShare(s.pc[u]) && !InReadSection(s.pc[u])
  {
    if InReadSection(s.pc[u]) {
      CountedReaders(s.pc, u);
      assert s.share.owner == w;
      if RaceAt(s, RTest) {
        CountedReaders(s.pc, s.race.owner);
      }
    }
  }

  // A writer in its section excludes all readers and all other writers.
  lemma Exclusion(n: nat, turns: seq<Turn>, w: int, u: int)
    requires Possible(n, turns)
    requires var pc := Run(Start(n), turns).pc; 0 <= w < |pc| && 0 <= u < |pc| && w != u && HoldsShare(pc[w])
    ensures var pc := Run(Start(n), turns).pc; !HoldsShare(pc[u]) && !InReadSection(pc[u])
  {
    PossibleInv(n, turns);
    Excluded(Run(Start(n), turns), w, u);
  }

  // The variable `reader` counts the readers, and sharelock never blocks a reader.
  lemma ReaderCount(n: nat, turns: seq<Turn>)
    requires Possible(n, turns)
    ensures var s := Run(Start(n), turns);
            s.reader == Readers(s.pc) && forall t :: 0 <= t < |s.pc| ==> s.pc[t] != RShareSleep
  {
    PossibleInv(n, turns);
  }

  predicate Works(p: PC) {
    p != Idle && !Asleep(p)
  }

  // As long as some thread sleeps, some thread that is not idle can take its step.
  lemma NeverStuck(n: nat, turns: seq<Turn>, t: int) returns (u: int)
    requires Possible(n, turns)
    requires var pc := Run(Start(n), turns).pc; 0 <= t < |pc| && Asleep(pc[t])
    ensures var pc := Run(Start(n), turns).pc; 0 <= u < |pc| && Works(pc[u])
  {
    var s := Run(Start(n), turns);
    PossibleInv(n, turns);
    if WaitsStarv(s.pc[t]) {
      u := StarvOwner(s, t);
    } else if WaitsRace(s.pc[t]) {
      u := RaceOwner(s, t);
    } else {
      u := ShareOwner(s, t);
    }
  }

  lemma RaceOwner(s: State, t: int) returns (u: int)
    requires Inv(s) && 0 <= t < |s.pc| && WaitsRace(s.pc[t])
    ensures 0 <= u < |s.pc| && Works(s.pc[u])
  {
    u := s.race.owner;
    assert t in s.race.queue;
    OwnerHolds(s.pc, s.race, HoldsRace, WaitsRace);
  }

  lemma ShareOwner(s: State, t: int) returns (u: int)
    requires Inv(s) && 0 <= t < |s.pc| && WaitsShare(s.pc[t])
    ensures 0 <= u < |s.pc| && Works(s.pc[u])
  {
    assert t in s.share.queue;
    u := s.share.owner;
    if u == READERS {
      if RaceAt(s, RTest) || RaceAt(s, QTest) {
        u := s.race.owner;
      } else {
        u := SomeReader(s.pc);
        if Asleep(s.pc[u]) {
          u := RaceOwner(s, u);
        }
      }
    } else {
      OwnerHolds(s.pc, s.share, HoldsShare, WaitsShare);
    }
  }

  lemma StarvOwner(s: State, t: int) returns (u: int)
    requires Inv(s) && 0 <= t < |s.pc| && WaitsStarv(s.pc[t])
    ensures 0 <= u < |s.pc| && Works(s.pc[u])
  {
    assert t in s.starv.queue;
    u := s.starv.owner;
    OwnerHolds(s.pc, s.starv, HoldsStarv, WaitsStarv);
    if WaitsRace(s.pc[u]) {
      u := RaceOwner(s, u);
    } else if WaitsShare(s.pc[u]) {
      u := ShareOwner(s, u);
    }
  }

  lemma {:induction false} SomeReader(pc: seq<PC>) returns (u: int)
    requires Readers(pc) > 0
    ensures 0 <= u < |pc| && Counted(pc[u])
  {
    u := |pc| - 1;
    if !Counted(pc[u]) {
      u := SomeReader(pc[..u]);
    }
  }

  // ---------- first come, first served ----------

  // A queue that changes only at its ends: a newcomer joins behind all others, and who
  // leaves is the first, to become the owner.
  predicate Fifo(a: Sem, b: Sem) {
    || b.queue == a.queue
    || (b.queue != [] && b.queue[..|b.queue| - 1] == a.queue)
    || (a.queue != [] && b.queue == a.queue[1..] && b.owner == a.queue[0])
  }

  lemma StarvQueue(s: State, t: int, c: Choice)
    requires CanStep(s, t)
    ensures Fifo(s.starv, Step(s, t, c).starv)
  {
    StepParts(s, t, c);
    assert OnStarv(s.pc[t]) && Sleeps(s.starv) ==> StarvAfter(s, t).queue[..|s.starv.queue|] == s.starv.queue;
  }

  // Where two waiting threads are after one step.
  lemma FifoStep(a: Sem, b: Sem, i: nat, j: nat) returns (shift: nat)
    requires Fifo(a, b) && i < j < |a.queue|
    ensures shift <= i ==> j - shift < |b.queue| && b.queue[i - shift] == a.queue[i] && b.queue[j - shift] == a.queue[j]
    ensures shift > i ==> b.owner == a.queue[i] && a.queue[j] in b.queue
  {
    if b.queue == a.queue || (b.queue != [] && b.queue[..|b.queue| - 1] == a.queue) {
      shift := 0;
      assert b.queue[i] == a.queue[i] && b.queue[j] == a.queue[j];
    } else {
      shift := 1;
      assert b.queue[j - 1] == a.queue[j];
    }
  }

  lemma Prefixes<T>(turns: seq<T>, k: nat)
    requires k < |turns|
    ensures turns[..k + 1][0] == turns[0] && turns[..k + 1][1..] == turns[1..][..k]
  {
  }

  lemma NextTurn(s: State, turns: seq<Turn>, k: nat)
    requires turns != [] && CanStep(s, turns[0].t) && k < |turns|
    requires CanRun(Step(s, turns[0].t, turns[0].c), turns[1..][..k])
    ensures CanRun(s, turns[..k + 1])
    ensures Run(s, turns[..k + 1]) == Run(Step(s, turns[0].t, turns[0].c), turns[1..][..k])
  {
    Prefixes(turns, k);
  }

  // Over any run: if w is queued for starvlock ahead of u, and u has left the queue by
  // the end, then at some moment w had got starvlock with u still queued.
  lemma {:induction false} NoOvertaking(s: State, turns: seq<Turn>, i: nat, j: nat) returns (k: nat)
    requires CanRun(s, turns) && i < j < |s.starv.queue|
    requires s.starv.queue[j] !in Run(s, turns).starv.queue
    ensures k <= |turns| && CanRun(s, turns[..k]) && Run(s, turns[..k]).starv.owner == s.starv.queue[i]
    ensures s.starv.queue[j] in Run(s, turns[..k]).starv.queue
    decreases |turns|
  {
    var next := Step(s, turns[0].t, turns[0].c);
    StarvQueue(s, turns[0].t, turns[0].c);
    var shift := FifoStep(s.starv, next.starv, i, j);
    if shift <= i {
      k := NoOvertaking(next, turns[1..], i - shift, j - shift);
    } else {
      k := 0;
      assert turns[1..][..0] == [];
    }
    NextTurn(s, turns, k);
    k := k + 1;
  }

  // While a writer has starvlock, no reader is counted in: it waits only for those
  // that are in already.
  lemma WriterShutsOut(s: State, t: int, c: Choice, w: int)
    requires Inv(s) && CanStep(s, t) && 0 <= w < |s.pc|
    requires s.pc[w].WShare? || s.pc[w].WShareSleep? || s.pc[w].Writing? || s.pc[w].WUnlockShare?
    ensures Step(s, t, c).reader <= s.reader
  {
    StepParts(s, t, c);
    if HoldsStarv(s.pc[t]) {
      OneHolder(s.pc, s.starv, t, w);
    }
  }

  lemma OneHolder(pc: seq<PC>, starv: Sem, t: int, w: int)
    requires SemInv(pc, starv, HoldsStarv, WaitsStarv) && 0 <= t < |pc| && 0 <= w < |pc|
    requires HoldsStarv(pc[t]) && HoldsStarv(pc[w])
    ensures t == w
  {
  }
}
