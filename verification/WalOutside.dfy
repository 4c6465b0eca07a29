/** Calls of log_write from outside every operation: readi makes them when it maps a hole. */
module WalOutside {
  import opened Sequences
  import opened WalDisk
  import opened WalLog
  import opened WalCache
  import opened WalProtocol

  // Process p, outside every operation, has a buffer and calls log_write with nobody in between.
  ghost predicate CallsFromOutside(l: Layout, s: State, p: nat) {
    p < |s.procs| == |s.held| && s.procs[p].Away? && s.held[p] != NONE && IsHome(l, s.held[p])
  }

  // The block is logged.
  function Appended(s: State, p: nat, data: Block): State
    requires p < |s.held|
  {
    s.(lh := Absorb(s.lh, s.held[p]), dirty := s.dirty[s.held[p] := data])
  }

  ghost predicate Logs(l: Layout, s: State, p: nat, data: Block, t: State) {
    CallsFromOutside(l, s, p) && LogOutcome(s.lh, s.outstanding, l.size) == Accepted && t == Appended(s, p, data)
  }

  ghost predicate NobodyInside(s: State) {
    forall q :: 0 <= q < |s.procs| ==> s.procs[q].Away?
  }

  lemma {:induction false} AwayCounts(procs: seq<Proc>)
    ensures Active(procs) == 0 <==> forall q :: 0 <= q < |procs| ==> procs[q].Away?
  {
    if procs != [] {
      AwayCounts(procs[1..]);
      assert forall q :: 1 <= q < |procs| ==> procs[q] == procs[1..][q - 1];
    }
  }

  // In every run: with nobody inside, such a call is never appended; and where nothing is logged yet,
  // the panic is the one about the transaction, if the log has room for anything.
  lemma NeverAppended(c: Budget, l: Layout, n: nat, s: State, p: nat)
    requires Reachable(c, l, n, s) && CallsFromOutside(l, s, p) && NobodyInside(s)
    ensures forall data: Block, t: State :: !Logs(l, s, p, data, t)
    ensures s.phase.Running? ==> LogOutcome(s.lh, s.outstanding, l.size) == if l.size > 1 then OutsideTransaction else TooBig
  {
    ReachableCounts(c, l, n, s);
    AwayCounts(s.procs);
  }

  // It is appended if and only if somebody is inside and the log has room.
  lemma AppendedExactly(c: Budget, l: Layout, n: nat, s: State, p: nat, data: Block)
    requires Reachable(c, l, n, s) && CallsFromOutside(l, s, p)
    ensures Logs(l, s, p, data, Appended(s, p, data)) <==> !NobodyInside(s) && |s.lh| < LOGSIZE && |s.lh| < l.size - 1
  {
    ReachableCounts(c, l, n, s);
    AwayCounts(s.procs);
  }

  // Then it has taken room that was reserved for others, unless some was left: what every step keeps
  // survives it if and only if the block was logged already, or the log has a place that nobody inside
  // may still need, and fewer than three are between guard and lock where that matters.
  lemma OutsideKeepsExactly(c: Budget, l: Layout, n: nat, s: State, p: nat, data: Block, t: State)
    requires Counts(c, l, n, s) && Logs(l, s, p, data, t)
    ensures Counts(c, l, n, t) <==> s.held[p] in s.lh || (|s.lh| + Reserved(s.procs) < LOGSIZE && |s.lh| + Pasts(s.procs) <= l.size)
  {
    AwayCounts(s.procs);
    PastsActive(s.procs);
    InsideRuns(c, l, n, s, p);
    forall q: nat | q < n
      ensures ProcFits(c, l, t, q)
    {
      assert ProcFits(c, l, s, q);
    }
    assert Tracked(l, t);
  }

  lemma InsideRuns(c: Budget, l: Layout, n: nat, s: State, p: nat)
    requires Counts(c, l, n, s) && CallsFromOutside(l, s, p) && LogOutcome(s.lh, s.outstanding, l.size) == Accepted
    ensures s.phase.Running? && l.size > 1
  {
    PastsActive(s.procs);
  }
}
