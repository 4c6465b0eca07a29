/** The levels of the feedback queues, for one process of them: when it goes down, and when it starts
    afresh. */
module Levels {

  const HLEVEL := 0
  const MLEVEL := 1
  const LLEVEL := 2
  const HALLOT := 20
  const MALLOT := 40

  // Ticks are unsigned in the process table: a negative count stands for one near the largest.
  predicate AtLeast(ticks: int, allotment: int) {
    ticks < 0 || ticks >= allotment
  }

  datatype Place = Place(level: int, ticks: int)

  // The timer counts a tick, or takes one back; the process is back from a processor; it is new, woken
  // up by the clock, killed, or found by a boost.
  datatype Change = Tick(up: bool) | Back | Afresh

  function Next(x: Place, c: Change): Place {
    match c
    case Tick(up) => x.(ticks := x.ticks + if up then 1 else -1)
    case Back =>
      var t := x.ticks + 1;
      if x.level == HLEVEL && AtLeast(t, HALLOT) then Place(MLEVEL, 0)
      else if x.level == MLEVEL && AtLeast(t, MALLOT) then Place(LLEVEL, 0)
      else x.(ticks := t)
    case Afresh => Place(HLEVEL, 0)
  }

  // A new process, and what has happened to it.
  function After(cs: seq<Change>): Place {
    if cs == [] then Place(HLEVEL, 0) else Next(After(cs[..|cs| - 1]), cs[|cs| - 1])
  }

  // ---------- what has been used since it started afresh ----------

  // The ticks counted from a on, up to b.
  function Counted(cs: seq<Change>, a: nat, b: nat): int
    requires b <= |cs|
  {
    if b <= a then 0
    else Counted(cs, a, b - 1) + match cs[b - 1] case Tick(up) => (if up then 1 else -1) case Back => 1 case Afresh => 0
  }

  // The last start: after it, it has not started afresh.
  predicate Starts(cs: seq<Change>, a: nat) {
    a <= |cs| && (a > 0 ==> cs[a - 1] == Afresh) && forall k :: a <= k < |cs| ==> cs[k] != Afresh
  }

  // It is back just before b, with that much counted from a on.
  predicate UsesUp(cs: seq<Change>, a: nat, b: nat, allotment: int) {
    a < b <= |cs| && cs[b - 1] == Back && (Counted(cs, a, b) < 0 || Counted(cs, a, b) >= allotment)
  }

  // And it is so for the first time.
  predicate Spends(cs: seq<Change>, a: nat, b: nat, allotment: int) {
    UsesUp(cs, a, b, allotment) && forall k :: a < k < b ==> !UsesUp(cs, a, k, allotment)
  }

  predicate Keeps(cs: seq<Change>, a: nat, allotment: int) {
    forall k :: a < k <= |cs| ==> !UsesUp(cs, a, k, allotment)
  }

  predicate InHigh(cs: seq<Change>, a: nat) {
    Starts(cs, a) && Keeps(cs, a, 20)
  }

  predicate InMiddle(cs: seq<Change>, a: nat, b: nat) {
    Starts(cs, a) && Spends(cs, a, b, 20) && Keeps(cs, b, 40)
  }

  predicate InLow(cs: seq<Change>, a: nat, b: nat, c: nat) {
    Starts(cs, a) && Spends(cs, a, b, 20) && Spends(cs, b, c, 40)
  }

  lemma {:induction false} CountedSame(cs: seq<Change>, a: nat, b: nat)
    requires b < |cs|
    ensures Counted(cs[..|cs| - 1], a, b) == Counted(cs, a, b)
  {
    if b > a {
      CountedSame(cs, a, b - 1);
    }
  }

  lemma UsesUpSame(cs: seq<Change>, a: nat, b: nat, allotment: int)
    requires b < |cs|
    ensures UsesUp(cs[..|cs| - 1], a, b, allotment) <==> UsesUp(cs, a, b, allotment)
  {
    CountedSame(cs, a, b);
  }

  lemma SpendsSame(cs: seq<Change>, a: nat, b: nat, allotment: int)
    requires cs != [] && Spends(cs[..|cs| - 1], a, b, allotment)
    ensures Spends(cs, a, b, allotment)
  {
    forall k | a < k <= b
      ensures UsesUp(cs[..|cs| - 1], a, k, allotment) <==> UsesUp(cs, a, k, allotment)
    {
      UsesUpSame(cs, a, k, allotment);
    }
  }

  // One change more, before which it had kept within its allotment.
  lemma KeepsOrSpends(cs: seq<Change>, a: nat, allotment: int)
    requires cs != [] && a < |cs| && Keeps(cs[..|cs| - 1], a, allotment)
    ensures if UsesUp(cs, a, |cs|, allotment) then Spends(cs, a, |cs|, allotment) else Keeps(cs, a, allotment)
    ensures Counted(cs, a, |cs|)
            == Counted(cs[..|cs| - 1], a, |cs| - 1) + match cs[|cs| - 1] case Tick(up) => (if up then 1 else -1) case Back => 1 case Afresh => 0
  {
    CountedSame(cs, a, |cs| - 1);
    forall k | a < k < |cs|
      ensures !UsesUp(cs, a, k, allotment)
    {
      UsesUpSame(cs, a, k, allotment);
    }
  }

  // What a place is made of.
  ghost predicate Explained(cs: seq<Change>, x: Place, a: nat, b: nat, c: nat) {
    match x.level
    case 0 => InHigh(cs, a) && x.ticks == Counted(cs, a, |cs|)
    case 1 => InMiddle(cs, a, b) && x.ticks == Counted(cs, b, |cs|)
    case 2 => InLow(cs, a, b, c)
    case _ => false
  }

  lemma {:induction false} HistoryOf(cs: seq<Change>) returns (a: nat, b: nat, c: nat)
    ensures Explained(cs, After(cs), a, b, c)
    decreases |cs|
  {
    a, b, c := 0, 0, 0;
    if cs != [] {
      var n := |cs| - 1;
      var x := After(cs[..n]);
      a, b, c := HistoryOf(cs[..n]);
      if cs[n] == Afresh {
        a := |cs|;
      } else {
        assert Starts(cs, a);
        match x.level {
          case 0 =>
            KeepsOrSpends(cs, a, 20);
            b := |cs|;
          case 1 =>
            SpendsSame(cs, a, b, 20);
            KeepsOrSpends(cs, b, 40);
            c := |cs|;
          case _ =>
            SpendsSame(cs, a, b, 20);
            SpendsSame(cs, b, c, 40);
        }
      }
    }
  }

  lemma LaterStart(cs: seq<Change>, a: nat, a': nat)
    requires Starts(cs, a') && a < a'
    ensures !Starts(cs, a)
  {
    assert cs[a' - 1] == Afresh;
  }

  // There is one such history.
  lemma OneStart(cs: seq<Change>, a: nat, a': nat)
    requires Starts(cs, a) && Starts(cs, a')
    ensures a == a'
  {
    if a < a' {
      LaterStart(cs, a, a');
    } else if a' < a {
      LaterStart(cs, a', a);
    }
  }

  lemma OneSpending(cs: seq<Change>, a: nat, b: nat, b': nat, allotment: int)
    requires Spends(cs, a, b, allotment) && Spends(cs, a, b', allotment)
    ensures b == b'
  {
  }

  // After any changes: a process is in the lowest queue if and only if it has used up its allotment of
  // the highest, and then that of the middle one, since it last started afresh.
  lemma LowExactly(cs: seq<Change>)
    ensures After(cs).level == LLEVEL <==> exists a, b, c :: InLow(cs, a, b, c)
  {
    var a, b, c := HistoryOf(cs);
    if a', b', c' :| InLow(cs, a', b', c') {
      OneStart(cs, a, a');
      assert UsesUp(cs, a', b', 20) && UsesUp(cs, b', c', 40);
      if After(cs).level == MLEVEL {
        OneSpending(cs, a, b, b', 20);
      }
    }
  }

  lemma MiddleExactly(cs: seq<Change>)
    ensures After(cs).level == MLEVEL <==> exists a, b :: InMiddle(cs, a, b)
  {
    var a, b, c := HistoryOf(cs);
    if a', b' :| InMiddle(cs, a', b') {
      OneStart(cs, a, a');
      assert UsesUp(cs, a', b', 20);
      if After(cs).level == LLEVEL {
        OneSpending(cs, a, b, b', 20);
      }
    }
  }

  lemma HighExactly(cs: seq<Change>)
    ensures After(cs).level == HLEVEL <==> exists a :: InHigh(cs, a)
  {
    var a, b, c := HistoryOf(cs);
    if a' :| InHigh(cs, a') {
      OneStart(cs, a, a');
      assert After(cs).level != HLEVEL ==> UsesUp(cs, a, b, 20);
    }
  }
}
