/** Which sizes of the log region keep the promises of the log: exact conditions, each with the run
    that breaks the promise in any other region. */
module WalLimits {
  import opened Sequences
  import opened WalDisk
  import opened WalRecovery
  import opened WalLog
  import opened WalCache
  import opened WalProtocol

  // ---------- runs that fill the log ----------

  // The j-th home block, not counting the one behind the log.
  function Home(l: Layout, j: int): int {
    if j < l.start then j else j + l.size + 1
  }

  function HomeList(l: Layout, m: nat): seq<int> {
    seq(m, j => Home(l, j))
  }

  function HomeMap(l: Layout, m: nat, data: Block): (blocks: map<int, Block>)
    ensures forall b :: b in blocks ==> blocks[b] == data
    ensures |blocks| <= m
  {
    if m == 0 then map[]
    else
      var less := HomeMap(l, m - 1, data);
      MapGrows(less, Home(l, m - 1), data);
      less[Home(l, m - 1) := data]
  }

  lemma MapGrows(blocks: map<int, Block>, b: int, data: Block)
    ensures |blocks[b := data]| <= |blocks| + 1
  {
    assert blocks[b := data].Keys == blocks.Keys + {b};
  }

  lemma {:induction false} HomeMapKeys(l: Layout, m: nat, data: Block, b: int)
    ensures b in HomeMap(l, m, data) <==> exists j :: 0 <= j < m && b == Home(l, j)
  {
    if m > 0 {
      HomeMapKeys(l, m - 1, data, b);
      if b == Home(l, m - 1) {
        assert 0 <= m - 1 < m;
      }
    }
  }

  function Holders(held: seq<int>): nat {
    if held == [] then 0 else Holders(held[..|held| - 1]) + if held[|held| - 1] != NONE then 1 else 0
  }

  lemma {:induction false} HoldersChange(held: seq<int>, p: nat, b: int)
    requires p < |held|
    ensures Holders(held[p := b]) == Holders(held) - (if held[p] != NONE then 1 else 0) + (if b != NONE then 1 else 0)
  {
    var k := |held| - 1;
    if p == k {
      assert held[p := b][..k] == held[..k];
    } else {
      assert held[p := b][..k] == held[..k][p := b];
      HoldersChange(held[..k], p, b);
    }
  }

  lemma {:induction false} HeldCount(held: seq<int>)
    ensures |HeldBlocks(held)| <= Holders(held)
  {
    if held != [] {
      var k := |held| - 1;
      HeldCount(held[..k]);
      var blocks := HeldBlocks(held[..k]) + if held[k] != NONE then {held[k]} else {};
      forall b | b in HeldBlocks(held)
        ensures b in blocks
      {
        var p :| 0 <= p < |held| && held[p] == b;
        assert p < k ==> held[..k][p] == b;
      }
      Subset(HeldBlocks(held), blocks);
    }
  }

  lemma {:induction false} HoldersAtMost(held: seq<int>)
    ensures Holders(held) <= |held|
  {
    if held != [] {
      HoldersAtMost(held[..|held| - 1]);
    }
  }

  lemma {:induction false} NobodyHolds(n: nat)
    ensures Holders(Nobody(n)) == 0
  {
    if n > 0 {
      assert Nobody(n)[..n - 1] == Nobody(n - 1);
      NobodyHolds(n - 1);
    }
  }

  lemma InUseAtMost(s: State)
    ensures |InUse(s)| <= |s.dirty| + Holders(s.held)
  {
    HeldCount(s.held);
    assert |s.dirty.Keys + HeldBlocks(s.held)| <= |s.dirty.Keys| + |HeldBlocks(s.held)|;
  }

  // The first m home blocks have been logged, by operations that go on.
  function Logged(l: Layout, d: Disk, data: Block, m: nat, o: int, ps: seq<Proc>, held: seq<int>): State {
    State(d, HomeList(l, m), HomeMap(l, m, data), o, Running, ps, held, d)
  }

  ghost predicate Enough(l: Layout, n: nat) {
    n >= 3 && l.size + LOGSIZE < FSSIZE
  }

  lemma Reads(c: Budget, l: Layout, d: Disk, n: nat, data: Block, m: nat, o: int, ps: seq<Proc>, held: seq<int>, p: nat, j: nat)
    requires Enough(l, n) && Reachable(c, l, n, Logged(l, d, data, m, o, ps, held)) && |ps| == |held| == n && p < n
    requires held[p] == NONE && j < LOGSIZE && (m + Holders(held) < NBUF || j < m)
    ensures Reachable(c, l, n, Logged(l, d, data, m, o, ps, held[p := Home(l, j)]))
  {
    var s := Logged(l, d, data, m, o, ps, held);
    InUseAtMost(s);
    if j < m {
      HomeMapKeys(l, m, data, Home(l, j));
    }
    ReachStep(c, l, n, s, Read(p, Home(l, j)), s.(held := held[p := Home(l, j)]));
  }

  // A process that has budget left reads a block and passes the guard.
  lemma Passes(c: Budget, l: Layout, d: Disk, n: nat, data: Block, m: nat, o: int, ps: seq<Proc>, held: seq<int>, p: nat, j: nat)
    requires Enough(l, n) && Reachable(c, l, n, Logged(l, d, data, m, o, ps, held)) && |ps| == |held| == n && p < n
    requires ps[p].Within? && ps[p].used < MAXOPBLOCKS && held[p] == NONE && o >= 1
    requires m + Holders(held) < NBUF && m < l.size - 1 && j < LOGSIZE && Home(l, j) !in held
    ensures Reachable(c, l, n, Logged(l, d, data, m, o, ps[p := Past(ps[p].used)], held[p := Home(l, j)]))
  {
    Reads(c, l, d, n, data, m, o, ps, held, p, j);
    var s := Logged(l, d, data, m, o, ps, held[p := Home(l, j)]);
    assert Locks(s, p);
    ReachStep(c, l, n, s, Check(p), s.(procs := ps[p := Past(ps[p].used)]));
  }

  // It logs the block and lets go of it.
  lemma Adds(c: Budget, l: Layout, d: Disk, n: nat, data: Block, m: nat, o: int, ps: seq<Proc>, held: seq<int>, p: nat)
    requires Reachable(c, l, n, Logged(l, d, data, m, o, ps, held)) && |ps| == |held| == n && p < n
    requires ps[p].Past? && held[p] == Home(l, m)
    ensures Reachable(c, l, n, Logged(l, d, data, m + 1, o, ps[p := Within(ps[p].used + 1)], held[p := NONE]))
  {
    var s := Logged(l, d, data, m, o, ps, held);
    assert held[p] !in s.lh;
    assert s.lh + [held[p]] == HomeList(l, m + 1);
    var s1 := Logged(l, d, data, m + 1, o, ps[p := Within(ps[p].used + 1)], held);
    ReachStep(c, l, n, s, Append(p, data), s1);
    ReachStep(c, l, n, s1, Release(p), s1.(held := held[p := NONE]));
  }

  // Three operations, with the buffers they have; all others are away.
  function Trio(l: Layout, d: Disk, n: nat, data: Block, m: nat, ps: seq<Proc>, held: seq<int>): State
    requires n >= 3
  {
    Logged(l, d, data, m, 3, ps + AllAway(n - 3), held + Nobody(n - 3))
  }

  function Three(l: Layout, d: Disk, n: nat, data: Block, x: nat, y: nat, z: nat): State
    requires n >= 3
  {
    Trio(l, d, n, data, x + y + z, [Within(x), Within(y), Within(z)], [NONE, NONE, NONE])
  }

  function Has(b: int): nat {
    if b != NONE then 1 else 0
  }

  lemma TrioHolders(n: nat, held: seq<int>)
    requires n >= 3 && |held| == 3
    ensures Holders(held + Nobody(n - 3)) == Has(held[0]) + Has(held[1]) + Has(held[2])
  {
    var h0 := Nobody(n);
    var h1 := h0[0 := held[0]];
    var h2 := h1[1 := held[1]];
    NobodyHolds(n);
    HoldersChange(h0, 0, held[0]);
    HoldersChange(h1, 1, held[1]);
    HoldersChange(h2, 2, held[2]);
    assert h2[2 := held[2]] == held + Nobody(n - 3);
  }

  lemma TrioPasses(c: Budget, l: Layout, d: Disk, n: nat, data: Block, m: nat, ps: seq<Proc>, held: seq<int>, p: nat, j: nat)
    requires Enough(l, n) && |ps| == |held| == 3 && p < 3 && Reachable(c, l, n, Trio(l, d, n, data, m, ps, held))
    requires ps[p].Within? && ps[p].used < MAXOPBLOCKS && held[p] == NONE
    requires m + Has(held[0]) + Has(held[1]) + Has(held[2]) < NBUF && m < l.size - 1 && j < LOGSIZE && Home(l, j) !in held
    ensures Reachable(c, l, n, Trio(l, d, n, data, m, ps[p := Past(ps[p].used)], held[p := Home(l, j)]))
  {
    var all, hands := ps + AllAway(n - 3), held + Nobody(n - 3);
    TrioHolders(n, held);
    Passes(c, l, d, n, data, m, 3, all, hands, p, j);
    assert all[p := Past(ps[p].used)] == ps[p := Past(ps[p].used)] + AllAway(n - 3);
    assert hands[p := Home(l, j)] == held[p := Home(l, j)] + Nobody(n - 3);
  }

  lemma TrioAdds(c: Budget, l: Layout, d: Disk, n: nat, data: Block, m: nat, ps: seq<Proc>, held: seq<int>, p: nat)
    requires n >= 3 && |ps| == |held| == 3 && p < 3 && Reachable(c, l, n, Trio(l, d, n, data, m, ps, held))
    requires ps[p].Past? && held[p] == Home(l, m)
    ensures Reachable(c, l, n, Trio(l, d, n, data, m + 1, ps[p := Within(ps[p].used + 1)], held[p := NONE]))
  {
    var all, hands := ps + AllAway(n - 3), held + Nobody(n - 3);
    Adds(c, l, d, n, data, m, 3, all, hands, p);
    assert all[p := Within(ps[p].used + 1)] == ps[p := Within(ps[p].used + 1)] + AllAway(n - 3);
    assert hands[p := NONE] == held[p := NONE] + Nobody(n - 3);
  }

  lemma FillStart(c: Budget, l: Layout, d: Disk, n: nat, data: Block)
    requires Clean(l, d) && n >= 3
    ensures Reachable(c, l, n, Three(l, d, n, data, 0, 0, 0))
  {
    var s0 := Boot(d, n);
    var s1 := s0.(outstanding := 1, procs := s0.procs[0 := Within(0)]);
    var s2 := s1.(outstanding := 2, procs := s1.procs[1 := Within(0)]);
    var s3 := s2.(outstanding := 3, procs := s2.procs[2 := Within(0)]);
    ReachBoot(c, l, d, n);
    ReachStep(c, l, n, s0, Begin(0), s1);
    ReachStep(c, l, n, s1, Begin(1), s2);
    ReachStep(c, l, n, s2, Begin(2), s3);
    assert s3 == Three(l, d, n, data, 0, 0, 0);
  }

  // One operation logs one block more.
  lemma OneMoreBy(c: Budget, l: Layout, d: Disk, n: nat, data: Block, ps: seq<Proc>, m: nat, p: nat)
    requires Enough(l, n) && |ps| == 3 && p < 3 && Reachable(c, l, n, Trio(l, d, n, data, m, ps, [NONE, NONE, NONE]))
    requires ps[p].Within? && ps[p].used < MAXOPBLOCKS && m < l.size - 1 && m < LOGSIZE
    ensures Reachable(c, l, n, Trio(l, d, n, data, m + 1, ps[p := Within(ps[p].used + 1)], [NONE, NONE, NONE]))
  {
    var held := [NONE, NONE, NONE];
    TrioPasses(c, l, d, n, data, m, ps, held, p, m);
    var ps1, held1 := ps[p := Past(ps[p].used)], held[p := Home(l, m)];
    TrioAdds(c, l, d, n, data, m, ps1, held1, p);
    assert held1[p := NONE] == held && ps1[p := Within(ps[p].used + 1)] == ps[p := Within(ps[p].used + 1)];
  }

  lemma {:induction false} FillTo(c: Budget, l: Layout, d: Disk, n: nat, data: Block, x: nat, y: nat, z: nat)
    requires Clean(l, d) && Enough(l, n) && x <= MAXOPBLOCKS && y <= MAXOPBLOCKS && z <= MAXOPBLOCKS && x + y + z < l.size
    ensures Reachable(c, l, n, Three(l, d, n, data, x, y, z))
    decreases x + y + z
  {
    if x + y + z == 0 {
      FillStart(c, l, d, n, data);
    } else {
      var p := if z > 0 then 2 else if y > 0 then 1 else 0;
      var x1, y1, z1 := if p == 0 then x - 1 else x, if p == 1 then y - 1 else y, if p == 2 then z - 1 else z;
      FillTo(c, l, d, n, data, x1, y1, z1);
      OneMoreOf(c, l, d, n, data, x1, y1, z1, p);
    }
  }

  lemma OneMoreOf(c: Budget, l: Layout, d: Disk, n: nat, data: Block, x: nat, y: nat, z: nat, p: nat)
    requires Enough(l, n) && p < 3 && Reachable(c, l, n, Three(l, d, n, data, x, y, z))
    requires (if p == 0 then x else if p == 1 then y else z) < MAXOPBLOCKS && x + y + z < l.size - 1 && x + y + z < LOGSIZE
    ensures Reachable(c, l, n, Three(l, d, n, data, if p == 0 then x + 1 else x, if p == 1 then y + 1 else y, if p == 2 then z + 1 else z))
  {
    var ps := [Within(x), Within(y), Within(z)];
    OneMoreBy(c, l, d, n, data, ps, x + y + z, p);
    assert ps[p := Within(ps[p].used + 1)] ==
           [Within(if p == 0 then x + 1 else x), Within(if p == 1 then y + 1 else y), Within(if p == 2 then z + 1 else z)];
  }

  // The first two operations have passed the guard.
  lemma TwoPass(c: Budget, l: Layout, d: Disk, n: nat, data: Block, x: nat, y: nat, z: nat)
    requires Clean(l, d) && Enough(l, n) && x < MAXOPBLOCKS && y < MAXOPBLOCKS && z <= MAXOPBLOCKS && x + y + z + 2 <= l.size
    ensures var m := x + y + z;
            Reachable(c, l, n, Trio(l, d, n, data, m, [Past(x), Past(y), Within(z)], [Home(l, m), Home(l, m + 1), NONE]))
  {
    FillTo(c, l, d, n, data, x, y, z);
    var m, ps, held := x + y + z, [Within(x), Within(y), Within(z)], [NONE, NONE, NONE];
    TrioPasses(c, l, d, n, data, m, ps, held, 0, m);
    var ps1, held1 := [Past(x), Within(y), Within(z)], [Home(l, m), NONE, NONE];
    assert ps[0 := Past(x)] == ps1 && held[0 := Home(l, m)] == held1;
    TrioPasses(c, l, d, n, data, m, ps1, held1, 1, m + 1);
    assert ps1[1 := Past(y)] == [Past(x), Past(y), Within(z)] && held1[1 := Home(l, m + 1)] == [Home(l, m), Home(l, m + 1), NONE];
  }

  // They log their blocks.
  lemma TwoAdd(c: Budget, l: Layout, d: Disk, n: nat, data: Block, x: nat, y: nat, m: nat, ps: seq<Proc>, held: seq<int>)
    requires n >= 3 && |ps| == |held| == 3 && ps[0] == Past(x) && ps[1] == Past(y) && held[0] == Home(l, m) && held[1] == Home(l, m + 1)
    requires Reachable(c, l, n, Trio(l, d, n, data, m, ps, held))
    ensures Reachable(c, l, n, Trio(l, d, n, data, m + 2, [Within(x + 1), Within(y + 1), ps[2]], [NONE, NONE, held[2]]))
  {
    TrioAdds(c, l, d, n, data, m, ps, held, 0);
    var ps1, held1 := ps[0 := Within(x + 1)], held[0 := NONE];
    TrioAdds(c, l, d, n, data, m + 1, ps1, held1, 1);
    assert ps1[1 := Within(y + 1)] == [Within(x + 1), Within(y + 1), ps[2]] && held1[1 := NONE] == [NONE, NONE, held[2]];
  }

  // Two operations pass the guard before either logs its block.
  lemma RaceOfTwo(c: Budget, l: Layout, d: Disk, n: nat, data: Block, x: nat, y: nat, z: nat)
    requires Clean(l, d) && Enough(l, n) && x < MAXOPBLOCKS && y < MAXOPBLOCKS && z <= MAXOPBLOCKS && x + y + z + 2 <= l.size
    ensures Reachable(c, l, n, Three(l, d, n, data, x + 1, y + 1, z))
  {
    var m := x + y + z;
    TwoPass(c, l, d, n, data, x, y, z);
    TwoAdd(c, l, d, n, data, x, y, m, [Past(x), Past(y), Within(z)], [Home(l, m), Home(l, m + 1), NONE]);
  }

  // The third passes too.
  lemma ThreePass(c: Budget, l: Layout, d: Disk, n: nat, data: Block, x: nat, y: nat, z: nat)
    requires Clean(l, d) && Enough(l, n) && x < MAXOPBLOCKS && y < MAXOPBLOCKS && z < MAXOPBLOCKS && x + y + z + 2 <= l.size
    ensures var m := x + y + z;
            Reachable(c, l, n, Trio(l, d, n, data, m, [Past(x), Past(y), Past(z)], [Home(l, m), Home(l, m + 1), Home(l, m + 2)]))
  {
    var m := x + y + z;
    TwoPass(c, l, d, n, data, x, y, z);
    var ps, held := [Past(x), Past(y), Within(z)], [Home(l, m), Home(l, m + 1), NONE];
    TrioPasses(c, l, d, n, data, m, ps, held, 2, m + 2);
    assert ps[2 := Past(z)] == [Past(x), Past(y), Past(z)] && held[2 := Home(l, m + 2)] == [Home(l, m), Home(l, m + 1), Home(l, m + 2)];
  }

  // And all three log their blocks.
  lemma RaceOfThree(c: Budget, l: Layout, d: Disk, n: nat, data: Block, x: nat, y: nat, z: nat)
    requires Clean(l, d) && Enough(l, n) && x < MAXOPBLOCKS && y < MAXOPBLOCKS && z < MAXOPBLOCKS && x + y + z + 2 <= l.size
    ensures Reachable(c, l, n, Three(l, d, n, data, x + 1, y + 1, z + 1))
  {
    var m := x + y + z;
    ThreePass(c, l, d, n, data, x, y, z);
    TwoAdd(c, l, d, n, data, x, y, m, [Past(x), Past(y), Past(z)], [Home(l, m), Home(l, m + 1), Home(l, m + 2)]);
    var ps, held := [Within(x + 1), Within(y + 1), Past(z)], [NONE, NONE, Home(l, m + 2)];
    TrioAdds(c, l, d, n, data, m + 2, ps, held, 2);
    assert ps[2 := Within(z + 1)] == [Within(x + 1), Within(y + 1), Within(z + 1)] && held[2 := NONE] == [NONE, NONE, NONE];
  }

  function Least(x: int, y: int): int {
    if x < y then x else y
  }

  // Shares of three operations with m blocks between them; the first two have budget left.
  lemma Shares(m: nat) returns (x: nat, y: nat, z: nat)
    requires m <= LOGSIZE - 2
    ensures x + y + z == m && x < MAXOPBLOCKS && y < MAXOPBLOCKS && z <= MAXOPBLOCKS && (m < LOGSIZE - 2 ==> z < MAXOPBLOCKS)
  {
    x := Least(m, MAXOPBLOCKS - 1);
    y := Least(m - x, MAXOPBLOCKS - 1);
    z := m - x - y;
  }

  // ---------- when log_write panics ----------

  // No panic, in a log with more than LOGSIZE blocks, if every call counts.
  lemma RoomyLogNeverPanics(l: Layout, n: nat, s: State, p: nat)
    requires Reachable(Calls, l, n, s) && l.size > LOGSIZE
    ensures !Panics(Calls, l, s, p)
  {
    ReachableCounts(Calls, l, n, s);
    CountsBudget(Calls, l, n, s);
    ReservedBounds(s.procs);
  }

  // If only new blocks count, a call panics exactly when the log is full, and then
  // it is a call whose block is logged already.
  lemma FullLogPanics(l: Layout, n: nat, s: State, p: nat)
    requires Reachable(NewBlocks, l, n, s) && l.size > LOGSIZE && Entitled(NewBlocks, s, p)
    ensures Panics(NewBlocks, l, s, p) <==> |s.lh| == LOGSIZE
    ensures |s.lh| == LOGSIZE ==> s.held[p] in s.lh
  {
    ReachableCounts(NewBlocks, l, n, s);
    CountsBudget(NewBlocks, l, n, s);
    ReservedBounds(s.procs);
  }

  lemma TrioReads(c: Budget, l: Layout, d: Disk, n: nat, data: Block, m: nat, ps: seq<Proc>, p: nat, j: nat)
    requires Enough(l, n) && |ps| == 3 && p < 3 && Reachable(c, l, n, Trio(l, d, n, data, m, ps, [NONE, NONE, NONE]))
    requires j < LOGSIZE && (m < NBUF || j < m)
    ensures Reachable(c, l, n, Trio(l, d, n, data, m, ps, [NONE, NONE, NONE][p := Home(l, j)]))
  {
    var held := [NONE, NONE, NONE];
    TrioHolders(n, held);
    Reads(c, l, d, n, data, m, 3, ps + AllAway(n - 3), held + Nobody(n - 3), p, j);
    assert (held + Nobody(n - 3))[p := Home(l, j)] == held[p := Home(l, j)] + Nobody(n - 3);
  }

  // The second operation has budget left, but the guard stops it.
  lemma GuardStops(c: Budget, l: Layout, d: Disk, n: nat, x: nat, y: nat, z: nat, m: nat) returns (s: State)
    requires n >= 3 && Enough(l, n) && y < MAXOPBLOCKS && l.size - 1 <= m < LOGSIZE
    requires Reachable(c, l, n, Trio(l, d, n, d[0], m, [Within(x), Within(y), Within(z)], [NONE, NONE, NONE]))
    ensures Reachable(c, l, n, s) && Panics(c, l, s, 1)
  {
    var ps := [Within(x), Within(y), Within(z)];
    TrioReads(c, l, d, n, d[0], m, ps, 1, m);
    s := Trio(l, d, n, d[0], m, ps, [NONE, NONE, NONE][1 := Home(l, m)]);
  }

  // A log with LOGSIZE blocks, which is what mkfs makes, or fewer: three operations
  // within their budgets bring about a panic.
  lemma SmallLogPanics(c: Budget, l: Layout, d: Disk, n: nat) returns (s: State, p: nat)
    requires Clean(l, d) && n >= 3 && l.size <= LOGSIZE
    ensures Reachable(c, l, n, s) && Panics(c, l, s, p)
  {
    p := 1;
    if l.size < 2 {
      FillTo(c, l, d, n, d[0], 0, 0, 0);
      s := GuardStops(c, l, d, n, 0, 0, 0, 0);
    } else {
      var m := l.size - 2;
      var x, y, z := Shares(m);
      FillTo(c, l, d, n, d[0], x, y, z);
      OneMoreOf(c, l, d, n, d[0], x, y, z, 0);
      s := GuardStops(c, l, d, n, x + 1, y, z, m + 1);
    }
  }

  // A larger log, when only new blocks count: writing a logged block once more.
  lemma AbsorptionPanics(l: Layout, d: Disk, n: nat) returns (s: State, p: nat)
    requires Clean(l, d) && Enough(l, n) && l.size > LOGSIZE
    ensures Reachable(NewBlocks, l, n, s) && Panics(NewBlocks, l, s, p)
  {
    var most := MAXOPBLOCKS;
    FillTo(NewBlocks, l, d, n, d[0], most, most, most);
    p := 1;
    var ps := [Within(most), Within(most), Within(most)];
    TrioReads(NewBlocks, l, d, n, d[0], LOGSIZE, ps, p, 0);
    s := Trio(l, d, n, d[0], LOGSIZE, ps, [NONE, NONE, NONE][p := Home(l, 0)]);
    assert s.lh[0] == Home(l, 0);
  }

  ghost predicate NoPanic(c: Budget, l: Layout, n: nat) {
    forall s, p :: Reachable(c, l, n, s) ==> !Panics(c, l, s, p)
  }

  // Operations that call log_write at most MAXOPBLOCKS times each are safe from its
  // panics exactly when the log region is larger than LOGSIZE.
  lemma PanicFreeExactly(l: Layout, d: Disk, n: nat)
    requires Clean(l, d) && n >= 3
    ensures NoPanic(Calls, l, n) <==> l.size > LOGSIZE
  {
    if l.size > LOGSIZE {
      forall s, p: nat | Reachable(Calls, l, n, s)
        ensures !Panics(Calls, l, s, p)
      {
        RoomyLogNeverPanics(l, n, s, p);
      }
    } else {
      var s, p := SmallLogPanics(Calls, l, d, n);
    }
  }

  // ---------- when more is logged than the region has room for ----------

  // Two operations pass the guard before either logs its block.
  lemma RaceFills(c: Budget, l: Layout, d: Disk, n: nat, data: Block) returns (x: nat, y: nat, z: nat)
    requires Clean(l, d) && n >= 3 && 2 <= l.size <= LOGSIZE
    ensures x + y + z == l.size && Reachable(c, l, n, Three(l, d, n, data, x, y, z))
  {
    var m := l.size - 2;
    x, y, z := Shares(m);
    RaceOfTwo(c, l, d, n, data, x, y, z);
    x, y := x + 1, y + 1;
  }

  ghost predicate AlwaysFits(c: Budget, l: Layout, n: nat) {
    forall s :: Reachable(c, l, n, s) ==> |s.lh| < l.size
  }

  // The log region always has a block for each one that is logged exactly if it has more than
  // LOGSIZE blocks, or nothing can be logged at all.
  lemma FitsExactly(c: Budget, l: Layout, d: Disk, n: nat)
    requires Clean(l, d) && n >= 3
    ensures AlwaysFits(c, l, n) <==> l.size <= 1 || l.size > LOGSIZE
  {
    if l.size <= 1 || l.size > LOGSIZE {
      forall s | Reachable(c, l, n, s)
        ensures |s.lh| < l.size
      {
        ReachableCounts(c, l, n, s);
        CountsLength(c, l, n, s);
      }
    } else {
      var x, y, z := RaceFills(c, l, d, n, d[0]);
    }
  }

  // ---------- when commits stay inside the log ----------

  // A region as large as the cache, one that nothing can be logged in, or one at the end of the disk.
  predicate SafeLayout(l: Layout) {
    l.size <= 1 || l.size >= NBUF || l.start + l.size >= FSSIZE
  }

  lemma NeverOverruns(c: Budget, l: Layout, n: nat, s: State, a: Action, s': State)
    requires Inv(c, l, n, s) && Step(c, l, s, a, s') && SafeLayout(l)
    ensures !Overruns(l, s, a)
  {
    if a.DiskWrite? && s.phase.k == 0 {
      FirstBuffer(c, l, n, s);
    }
  }

  lemma {:induction false} SafeRun(c: Budget, l: Layout, n: nat, states: seq<State>, actions: seq<Action>, i: nat)
    requires IsRun(c, l, states, actions) && Inv(c, l, n, states[0]) && SafeLayout(l) && i <= |actions|
    ensures Inv(c, l, n, states[i])
  {
    if i > 0 {
      SafeRun(c, l, n, states, actions, i - 1);
      SafeStep(c, l, n, states[i - 1], actions[i - 1], states[i]);
    }
  }

  lemma SafeStep(c: Budget, l: Layout, n: nat, s: State, a: Action, s': State)
    requires Inv(c, l, n, s) && Step(c, l, s, a, s') && SafeLayout(l)
    ensures Inv(c, l, n, s') && !Overruns(l, s, a)
  {
    NeverOverruns(c, l, n, s, a, s');
    StepKeepsInv(c, l, n, s, a, s');
  }

  lemma SafeInOrder(c: Budget, l: Layout, n: nat, s: State)
    requires Reachable(c, l, n, s) && SafeLayout(l)
    ensures InOrder(c, l, n, s)
  {
    var states: seq<State>, actions: seq<Action> :| LeadsTo(c, l, n, states, actions, s);
    BootInv(c, l, states[0].disk, n);
    forall i | 0 <= i < |actions|
      ensures !Overruns(l, states[i], actions[i])
    {
      SafeRun(c, l, n, states, actions, i);
      SafeStep(c, l, n, states[i], actions[i], states[i + 1]);
    }
    assert OrderlyTo(c, l, n, states, actions, s);
  }

  // ---------- the run that loses a block ----------

  // Three operations that have logged m blocks end, and the last one commits.
  function Ended(l: Layout, d: Disk, n: nat, data: Block, m: nat): State
    requires n >= 3
  {
    var s := Logged(l, d, data, m, 0, AllAway(n), Nobody(n));
    s.(phase := Committing(2, d, View(s), 0))
  }

  // Two of them have ended.
  function LastOne(n: nat, z: nat): (ps: seq<Proc>)
    requires n >= 3
    ensures |ps| == n
  {
    [Away, Away, Within(z)] + AllAway(n - 3)
  }

  lemma TwoEnd(c: Budget, l: Layout, d: Disk, n: nat, data: Block, x: nat, y: nat, z: nat)
    requires n >= 3 && Reachable(c, l, n, Three(l, d, n, data, x, y, z))
    ensures Reachable(c, l, n, Logged(l, d, data, x + y + z, 1, LastOne(n, z), Nobody(n)))
  {
    var s := Three(l, d, n, data, x, y, z);
    assert s.held == Nobody(n);
    var s1 := s.(outstanding := 2, procs := s.procs[0 := Away]);
    var s2 := s1.(outstanding := 1, procs := s1.procs[1 := Away]);
    ReachStep(c, l, n, s, End(0), s1);
    ReachStep(c, l, n, s1, End(1), s2);
    assert s2.procs == LastOne(n, z);
  }

  lemma AllEnd(c: Budget, l: Layout, d: Disk, n: nat, data: Block, x: nat, y: nat, z: nat)
    requires n >= 3 && Reachable(c, l, n, Three(l, d, n, data, x, y, z))
    ensures Reachable(c, l, n, Ended(l, d, n, data, x + y + z))
  {
    TwoEnd(c, l, d, n, data, x, y, z);
    var s := Logged(l, d, data, x + y + z, 1, LastOne(n, z), Nobody(n));
    var t := Ended(l, d, n, data, x + y + z);
    assert s.procs[2 := Away] == t.procs;
    assert View(s) == t.phase.shown;
    ReachStep(c, l, n, s, End(2), t);
  }

  // The disk after the first k log blocks.
  function Logs(l: Layout, d: Disk, data: Block, k: nat): Disk
    requires l.start + k < FSSIZE
  {
    if k == 0 then d else Logs(l, d, data, k - 1)[l.start + k := data]
  }

  lemma {:induction false} LogsAt(l: Layout, d: Disk, data: Block, k: nat, b: int)
    requires l.start + k < FSSIZE && 0 <= b < FSSIZE
    ensures Logs(l, d, data, k)[b] == if l.start < b <= l.start + k then data else d[b]
  {
    if k > 0 {
      LogsAt(l, d, data, k - 1, b);
    }
  }

  // The commit has written k of them; as many are logged as the region has blocks.
  function Writing(l: Layout, d: Disk, n: nat, data: Block, k: nat): State
    requires n >= 3 && l.start + k < FSSIZE
  {
    var s := Ended(l, d, n, data, l.size);
    s.(disk := Logs(l, d, data, k), phase := s.phase.(k := k))
  }

  lemma {:induction false} LogsWritten(c: Budget, l: Layout, d: Disk, n: nat, data: Block, k: nat)
    requires Enough(l, n) && 2 <= l.size < NBUF && l.start + l.size < FSSIZE && k <= l.size
    requires Reachable(c, l, n, Ended(l, d, n, data, l.size))
    ensures Reachable(c, l, n, Writing(l, d, n, data, k))
  {
    if k > 0 {
      LogsWritten(c, l, d, n, data, k - 1);
      OneLogMore(c, l, d, n, data, k - 1);
    }
  }

  lemma OneLogMore(c: Budget, l: Layout, d: Disk, n: nat, data: Block, k: nat)
    requires Enough(l, n) && 2 <= l.size < NBUF && l.start + l.size < FSSIZE && k < l.size
    requires Reachable(c, l, n, Writing(l, d, n, data, k))
    ensures Reachable(c, l, n, Writing(l, d, n, data, k + 1))
  {
    LogMoreStep(c, l, d, n, data, k);
    ReachStep(c, l, n, Writing(l, d, n, data, k), DiskWrite, Writing(l, d, n, data, k + 1));
  }

  lemma LogMoreStep(c: Budget, l: Layout, d: Disk, n: nat, data: Block, k: nat)
    requires Enough(l, n) && 2 <= l.size < NBUF && l.start + l.size < FSSIZE && k < l.size
    ensures Step(c, l, Writing(l, d, n, data, k), DiskWrite, Writing(l, d, n, data, k + 1))
  {
    LogMoreCan(l, n, Writing(l, d, n, data, k), data);
  }

  lemma LogMoreCan(l: Layout, n: nat, s: State, data: Block)
    requires 2 <= l.size < NBUF && l.start + l.size < FSSIZE && l.size + LOGSIZE < FSSIZE
    requires s.lh == HomeList(l, l.size) && s.dirty == HomeMap(l, l.size, data) && s.held == Nobody(n)
    requires s.phase.Committing? && s.phase.k < l.size
    ensures CanWrite(l, s) && NextWrite(l, s) == Write(l.start + 1 + s.phase.k, data)
    ensures s.dirty - {l.start + 1 + s.phase.k} == s.dirty
  {
    var k, b := s.phase.k, l.start + 1 + s.phase.k;
    NobodyHolds(n);
    InUseAtMost(s);
    HomeMapKeys(l, l.size, data, b);
    HomeMapKeys(l, l.size, data, s.lh[k]);
    assert b !in s.dirty;
  }

  function Other(data: Block): (other: Block)
    ensures other != data
  {
    data[0 := data[0] + 1]
  }

  // A region smaller than the cache: more is logged than fits, the commit writes over the block
  // behind the log, and a crash before the header is written loses it.
  lemma OverrunLosesBlock(c: Budget, l: Layout, d: Disk, n: nat) returns (s: State)
    requires Clean(l, d) && n >= 3 && !SafeLayout(l)
    ensures Reachable(c, l, n, s) && !AllOrNothing(l, s)
  {
    var b := l.start + l.size;
    var data := Other(d[b]);
    var x, y, z := RaceFills(c, l, d, n, data);
    AllEnd(c, l, d, n, data, x, y, z);
    LogsWritten(c, l, d, n, data, l.size);
    s := Writing(l, d, n, data, l.size);
    LogsAt(l, d, data, l.size, l.start);
    LogsAt(l, d, data, l.size, b);
    RecoverClean(l, s.disk);
    assert IsHome(l, b) && Recovered(l, Crashed(l, s.disk, []))[b] != s.base[b];
  }

  ghost predicate AlwaysAllOrNothing(c: Budget, l: Layout, n: nat) {
    forall s :: Reachable(c, l, n, s) ==> AllOrNothing(l, s)
  }

  // Every crash of every run is all or nothing exactly if the region is at least as large as the
  // cache, or nothing can be logged, or there is nothing behind it.
  lemma AllOrNothingExactly(c: Budget, l: Layout, d: Disk, n: nat)
    requires Clean(l, d) && n >= 3
    ensures AlwaysAllOrNothing(c, l, n) <==> SafeLayout(l)
  {
    if SafeLayout(l) {
      forall s | Reachable(c, l, n, s)
        ensures AllOrNothing(l, s)
      {
        SafeInOrder(c, l, n, s);
        CrashAllOrNothing(c, l, n, s);
      }
    } else {
      var s := OverrunLosesBlock(c, l, d, n);
    }
  }

  // ---------- when commit panics ----------

  // The next block that commit reads finds no buffer.
  ghost predicate CommitPanics(l: Layout, s: State) {
    s.phase.Committing? && s.phase.k < Writes(s.lh) && !Finds(s, LogBlock(l, s.lh, s.phase.k))
  }

  lemma InUseSplits(s: State)
    requires AllDirty(s) && Distinct(s.lh)
    ensures |InUse(s)| == |s.lh| + |HeldBlocks(s.held) - s.dirty.Keys|
  {
    BlocksCount(s.lh, s.dirty.Keys);
    assert InUse(s) == s.dirty.Keys + (HeldBlocks(s.held) - s.dirty.Keys);
  }

  // What end_op comes to, by the blocks that are logged and the other blocks that somebody has.
  lemma EndMeetsPanic(c: Budget, l: Layout, n: nat, s: State, p: nat, s': State)
    requires Reachable(c, l, n, s) && Step(c, l, s, End(p), s') && s.outstanding == 1
    ensures CommitPanics(l, s') <==> EndOutcome(s.lh, s.outstanding, false, |HeldBlocks(s.held) - s.dirty.Keys|) == NoBuffers
  {
    ReachStep(c, l, n, s, End(p), s');
    ReachableCounts(c, l, n, s');
    InUseSplits(s');
    if s.lh != [] {
      OnlyHome(c, l, n, s');
      assert InLog(l, l.start + 1);
    }
  }

  // The longest that the log can get.
  function MostLogged(l: Layout): int {
    Least(LOGSIZE, l.size + 1)
  }

  lemma {:induction false} BlocksAtMost(lh: seq<int>, blocks: set<int>)
    requires forall b :: b in blocks ==> b in lh
    ensures |blocks| <= |lh|
  {
    if lh == [] {
      forall b
        ensures b !in blocks
      {
        assert b in blocks ==> b in lh;
      }
      assert blocks == {};
    } else {
      var k := |lh| - 1;
      forall b | b in blocks - {lh[k]}
        ensures b in lh[..k]
      {
        var i :| 0 <= i < |lh| && lh[i] == b;
        assert lh[..k][i] == b;
      }
      BlocksAtMost(lh[..k], blocks - {lh[k]});
      Subset(blocks, (blocks - {lh[k]}) + {lh[k]});
    }
  }

  // The logged blocks, and one for each process but the one that commits.
  lemma CommitNeeds(c: Budget, l: Layout, n: nat, s: State)
    requires Reachable(c, l, n, s) && s.phase.Committing? && l.size > 1
    ensures |InUse(s)| <= MostLogged(l) + n - 1
  {
    ReachableCounts(c, l, n, s);
    CountsLength(c, l, n, s);
    BlocksAtMost(s.lh, s.dirty.Keys);
    InUseAtMost(s);
    var p := s.phase.who;
    HoldersChange(s.held, p, s.held[p]);
    HoldersButOne(s.held, p);
  }

  lemma HoldersButOne(held: seq<int>, p: nat)
    requires p < |held| && held[p] == NONE
    ensures Holders(held) <= |held| - 1
  {
    HoldersChange(held, p, 0);
    HoldersAtMost(held[p := 0]);
  }

  lemma Longest(c: Budget, l: Layout, d: Disk, n: nat) returns (x: nat, y: nat, z: nat)
    requires Clean(l, d) && Enough(l, n) && l.size > 1
    ensures x + y + z == MostLogged(l) && Reachable(c, l, n, Three(l, d, n, d[0], x, y, z))
  {
    if l.size > LOGSIZE {
      x, y, z := MAXOPBLOCKS, MAXOPBLOCKS, MAXOPBLOCKS;
      FillTo(c, l, d, n, d[0], x, y, z);
    } else if l.size == LOGSIZE {
      x, y, z := RaceFills(c, l, d, n, d[0]);
    } else {
      var m := l.size - 2;
      x, y, z := Shares(m);
      RaceOfThree(c, l, d, n, d[0], x, y, z);
      x, y, z := x + 1, y + 1, z + 1;
    }
  }

  // The place of a process among those other than process 2.
  function Rank(p: nat): nat {
    if p < 2 then p else p - 1
  }

  // The first h of these have a block each, from the m-th home block on.
  function Hands(l: Layout, n: nat, m: nat, h: nat): (held: seq<int>)
    ensures |held| == n
  {
    seq(n, p requires 0 <= p < n => if p != 2 && Rank(p) < h then Home(l, m + Rank(p)) else NONE)
  }

  lemma OneHandMore(l: Layout, n: nat, m: nat, h: nat) returns (p: nat)
    requires n >= 3 && h < n - 1
    ensures p < n && Hands(l, n, m, h)[p] == NONE && Hands(l, n, m, h)[p := Home(l, m + h)] == Hands(l, n, m, h + 1)
    ensures Holders(Hands(l, n, m, h + 1)) == Holders(Hands(l, n, m, h)) + 1
  {
    p := if h < 2 then h else h + 1;
    HoldersChange(Hands(l, n, m, h), p, Home(l, m + h));
    assert Hands(l, n, m, h)[p := Home(l, m + h)] == Hands(l, n, m, h + 1);
  }

  lemma {:induction false} HandsHold(l: Layout, n: nat, m: nat, h: nat)
    requires n >= 3 && h <= n - 1
    ensures Holders(Hands(l, n, m, h)) == h
  {
    if h == 0 {
      NobodyHolds(n);
      assert Hands(l, n, m, 0) == Nobody(n);
    } else {
      HandsHold(l, n, m, h - 1);
      var p := OneHandMore(l, n, m, h - 1);
    }
  }

  lemma OneReads(c: Budget, l: Layout, d: Disk, n: nat, m: nat, ps: seq<Proc>, h: nat)
    requires Enough(l, n) && |ps| == n && h < n - 1 && m + h < NBUF
    requires Reachable(c, l, n, Logged(l, d, d[0], m, 1, ps, Hands(l, n, m, h)))
    ensures Reachable(c, l, n, Logged(l, d, d[0], m, 1, ps, Hands(l, n, m, h + 1)))
  {
    HandsHold(l, n, m, h);
    var p := OneHandMore(l, n, m, h);
    Reads(c, l, d, n, d[0], m, 1, ps, Hands(l, n, m, h), p, m + h);
  }

  // Others read while the last operation is still at work.
  lemma {:induction false} OthersRead(c: Budget, l: Layout, d: Disk, n: nat, m: nat, ps: seq<Proc>, h: nat)
    requires Enough(l, n) && |ps| == n && h <= n - 1 && m + h <= NBUF
    requires Reachable(c, l, n, Logged(l, d, d[0], m, 1, ps, Nobody(n)))
    ensures Reachable(c, l, n, Logged(l, d, d[0], m, 1, ps, Hands(l, n, m, h)))
  {
    if h == 0 {
      assert Hands(l, n, m, 0) == Nobody(n);
    } else {
      OthersRead(c, l, d, n, m, ps, h - 1);
      OneReads(c, l, d, n, m, ps, h - 1);
    }
  }

  // Every buffer is in use.
  lemma AllInUse(l: Layout, s: State, n: nat, m: nat, data: Block)
    requires m <= NBUF <= m + n - 1 && s.dirty == HomeMap(l, m, data) && s.held == Hands(l, n, m, NBUF - m)
    ensures |InUse(s)| >= NBUF
  {
    var blocks := set b | b in HomeList(l, NBUF);
    forall b | b in blocks
      ensures b in InUse(s)
    {
      var j :| 0 <= j < NBUF && HomeList(l, NBUF)[j] == b;
      HomeMapKeys(l, m, data, b);
      if j >= m {
        assert s.held[if j - m < 2 then j - m else j - m + 1] == b;
      }
    }
    BlocksCount(HomeList(l, NBUF), blocks);
    Subset(blocks, InUse(s));
  }

  // As much is logged as can be, and the others have the buffers that are left.
  lemma FullCommitPanics(c: Budget, l: Layout, d: Disk, n: nat) returns (s: State)
    requires Clean(l, d) && Enough(l, n) && l.size > 1 && MostLogged(l) + n - 1 >= NBUF
    ensures Reachable(c, l, n, s) && CommitPanics(l, s)
  {
    var x, y, z := Longest(c, l, d, n);
    var m := x + y + z;
    TwoEnd(c, l, d, n, d[0], x, y, z);
    OthersRead(c, l, d, n, m, LastOne(n, z), NBUF - m);
    var s0 := Logged(l, d, d[0], m, 1, LastOne(n, z), Hands(l, n, m, NBUF - m));
    s := s0.(outstanding := 0, procs := s0.procs[2 := Away], phase := Committing(2, d, View(s0), 0));
    ReachStep(c, l, n, s0, End(2), s);
    AllInUse(l, s, n, m, d[0]);
    ReachableCounts(c, l, n, s);
    OnlyHome(c, l, n, s);
    assert InLog(l, l.start + 1);
  }

  ghost predicate NoCommitPanic(c: Budget, l: Layout, n: nat) {
    forall s :: Reachable(c, l, n, s) ==> !CommitPanics(l, s)
  }

  // With n processes, each with at most one buffer outside operations: a commit never lacks a buffer
  // exactly if as many blocks as can be logged, and a block for each other process, are fewer than
  // the buffers, or nothing can be logged at all.
  lemma CommitPanicsExactly(c: Budget, l: Layout, d: Disk, n: nat)
    requires Clean(l, d) && Enough(l, n)
    ensures NoCommitPanic(c, l, n) <==> l.size <= 1 || MostLogged(l) + n - 1 < NBUF
  {
    if l.size <= 1 || MostLogged(l) + n - 1 < NBUF {
      forall s | Reachable(c, l, n, s)
        ensures !CommitPanics(l, s)
      {
        ReachableCounts(c, l, n, s);
        if s.phase.Committing? && l.size > 1 {
          CommitNeeds(c, l, n, s);
        }
      }
    } else {
      var s := FullCommitPanics(c, l, d, n);
    }
  }

  // With LOGSIZE buffers there is no size of the log region that avoids both panics.
  lemma NoSizeIsSafe(l: Layout, d: Disk, n: nat)
    requires Clean(l, d) && Enough(l, n)
    ensures !(NoPanic(Calls, l, n) && NoCommitPanic(Calls, l, n))
  {
    PanicFreeExactly(l, d, n);
    CommitPanicsExactly(Calls, l, d, n);
  }
}
