/** File-system operations sharing the log: every interleaving of begin_op, the two
    halves of log_write, end_op and the single block writes of commit with the reads
    of any process, and a crash possible between any two steps.  Each operation keeps
    within a budget of MAXOPBLOCKS. */
module WalProtocol {
  import opened Sequences
  import opened WalDisk
  import opened WalRecovery
  import opened WalLog
  import opened WalCache

  // A process, outside any operation, or in one that has used part of its budget; Past is between
  // the guard of log_write and its lock.
  datatype Proc = Away | Within(used: nat) | Past(used: nat)

  // The commit of process who, which found disk `from` and showed `shown`, has done k writes.
  datatype Phase = Running | Committing(who: nat, from: Disk, shown: Disk, k: nat)

  // What an operation's budget counts: every log_write call, or only those that
  // log a block not logged yet.
  datatype Budget = Calls | NewBlocks

  datatype State = State(
    disk: Disk,
    lh: seq<int>,             // the in-memory header
    dirty: map<int, Block>,   // the pinned buffers
    outstanding: int,
    phase: Phase,
    procs: seq<Proc>,
    held: seq<int>,           // by process: the block whose buffer it has, or NONE
    base: Disk)               // the disk when the present batch of operations began

  datatype Action =
    | Begin(p: nat)
    | Read(p: nat, b: int)
    | Release(p: nat)
    | Check(p: nat)
    | Append(p: nat, data: Block)
    | End(p: nat)
    | DiskWrite
    | Finish
    | Crash(ks: seq<nat>)

  // What the file system shows: pinned buffers over the disk.
  function View(s: State): Disk {
    seq(FSSIZE, b requires 0 <= b < FSSIZE => if b in s.dirty then s.dirty[b] else s.disk[b])
  }

  // ---------- buffers ----------

  function HeldBlocks(held: seq<int>): (blocks: set<int>)
    ensures forall p :: 0 <= p < |held| && held[p] != NONE ==> held[p] in blocks
    ensures forall b :: b in blocks ==> b in held && b != NONE
  {
    set p | 0 <= p < |held| && held[p] != NONE :: held[p]
  }

  function InUse(s: State): set<int> {
    s.dirty.Keys + HeldBlocks(s.held)
  }

  // bread finds a buffer for the block.
  ghost predicate Finds(s: State, b: int) {
    b in InUse(s) || |InUse(s)| < NBUF
  }

  // ---------- what log_write may do ----------

  function Cost(c: Budget, lh: seq<int>, b: int): nat {
    if c == Calls || b !in lh then 1 else 0
  }

  // The caller's side of the contract: in an operation, with the buffer of a block, within budget.
  ghost predicate Entitled(c: Budget, s: State, p: nat) {
    p < |s.procs| && p < |s.held| && s.procs[p].Within? && s.held[p] != NONE && s.procs[p].used + Cost(c, s.lh, s.held[p]) <= MAXOPBLOCKS
  }

  ghost predicate Panics(c: Budget, l: Layout, s: State, p: nat) {
    Entitled(c, s, p) && LogOutcome(s.lh, s.outstanding, l.size) != Accepted
  }

  // Nobody else is about to log the block: its buffer is locked.
  ghost predicate Locks(s: State, p: nat)
    requires p < |s.held|
  {
    forall q :: 0 <= q < |s.procs| && q < |s.held| && q != p && s.procs[q].Past? ==> s.held[q] != s.held[p]
  }

  // ---------- what commit does next ----------

  // The number of writes of a commit; it does nothing when nothing is logged.
  function Writes(lh: seq<int>): nat {
    if lh == [] then 0 else 2 * |lh| + 2
  }

  // How many home blocks have been installed after k writes.
  function Installed(lh: seq<int>, k: nat): (n: nat)
    ensures n <= |lh|
  {
    if k <= |lh| + 1 then 0 else if k <= 2 * |lh| + 1 then k - |lh| - 1 else |lh|
  }

  // The block at the log's side of the next write, the first that is read for it.
  function LogBlock(l: Layout, lh: seq<int>, k: nat): int {
    if k < |lh| then l.start + 1 + k else if |lh| < k <= 2 * |lh| then l.start + k - |lh| else l.start
  }

  // A block is not copied to itself: its lock would be taken twice.
  ghost predicate CanWrite(l: Layout, s: State) {
    && s.phase.Committing? && s.phase.k < Writes(s.lh) && |s.lh| <= LOGSIZE && HomeBlocks(l, s.lh)
    && var n, k, b := |s.lh|, s.phase.k, LogBlock(l, s.lh, s.phase.k);
       b < FSSIZE && Finds(s, b) && (k < n ==> s.lh[k] != b) && (n < k <= 2 * n ==> s.lh[k - n - 1] != b)
  }

  // Log blocks, header, home blocks, header.
  ghost function NextWrite(l: Layout, s: State): (w: Write)
    requires CanWrite(l, s)
    ensures w.blockno < FSSIZE
  {
    var n, k, b := |s.lh|, s.phase.k, LogBlock(l, s.lh, s.phase.k);
    if k < n then Write(b, View(s)[s.lh[k]])
    else if k == n then Write(b, PutHeader(View(s)[b], s.lh))
    else if k <= 2 * n then Write(s.lh[k - n - 1], View(s)[b])
    else Write(b, PutHeader(View(s)[b], []))
  }

  // ---------- steps ----------

  ghost predicate Step(c: Budget, l: Layout, s: State, a: Action, s': State) {
    |s.held| == |s.procs| &&
    match a
    case Begin(p) =>
      && p < |s.procs| && s.procs[p].Away?
      && MayBegin(|s.lh|, s.outstanding, s.phase.Committing?)
      && s' == s.(outstanding := s.outstanding + 1, procs := s.procs[p := Within(0)])
    case Read(p, b) =>
      && p < |s.procs| && s.held[p] == NONE && !(s.phase.Committing? && s.phase.who == p)
      && IsHome(l, b) && Finds(s, b)
      && s' == s.(held := s.held[p := b])
    case Release(p) =>
      && p < |s.procs| && !s.procs[p].Past?
      && s' == s.(held := s.held[p := NONE])
    case Check(p) =>
      && Entitled(c, s, p) && Locks(s, p)
      && LogOutcome(s.lh, s.outstanding, l.size) == Accepted
      && s' == s.(procs := s.procs[p := Past(s.procs[p].used)])
    case Append(p, data) =>
      && p < |s.procs| && s.procs[p].Past?
      && s' == s.(lh := Absorb(s.lh, s.held[p]), dirty := s.dirty[s.held[p] := data],
                  procs := s.procs[p := Within(s.procs[p].used + Cost(c, s.lh, s.held[p]))])
    case End(p) =>
      && p < |s.procs| && s.procs[p].Within? && s.held[p] == NONE
      && !s.phase.Committing?
      && s' == s.(outstanding := s.outstanding - 1, procs := s.procs[p := Away],
                  phase := if s.outstanding == 1 then Committing(p, s.disk, View(s), 0) else Running)
    case DiskWrite =>
      && CanWrite(l, s)
      && var w := NextWrite(l, s);
         s' == s.(disk := s.disk[w.blockno := w.data], dirty := s.dirty - {w.blockno}, phase := s.phase.(k := s.phase.k + 1))
    case Finish =>
      && s.phase.Committing? && s.phase.k == Writes(s.lh)
      && s' == s.(lh := [], phase := Running, base := s.disk)
    case Crash(ks) =>
      && Sound(l, s.disk)
      && s' == Boot(Recovered(l, Crashed(l, s.disk, ks)), |s.procs|)
  }

  function AllAway(n: nat): seq<Proc> {
    seq(n, _ => Away)
  }

  function Nobody(n: nat): seq<int> {
    seq(n, _ => NONE)
  }

  function Boot(d: Disk, n: nat): State {
    State(d, [], map[], 0, Running, AllAway(n), Nobody(n), d)
  }

  // ---------- counting ----------

  function Active(procs: seq<Proc>): nat {
    if procs == [] then 0 else Active(procs[1..]) + (if procs[0].Away? then 0 else 1)
  }

  function Pasts(procs: seq<Proc>): nat {
    if procs == [] then 0 else Pasts(procs[1..]) + (if procs[0].Past? then 1 else 0)
  }

  // What the operations under way may still log.
  function Reserved(procs: seq<Proc>): int {
    if procs == [] then 0 else Reserved(procs[1..]) + Share(procs[0])
  }

  function Share(x: Proc): int {
    if x.Away? then 0 else MAXOPBLOCKS - x.used
  }

  lemma {:induction false} CountsChange(procs: seq<Proc>, p: nat, x: Proc)
    requires p < |procs|
    ensures Active(procs[p := x]) == Active(procs) - (if procs[p].Away? then 0 else 1) + (if x.Away? then 0 else 1)
    ensures Pasts(procs[p := x]) == Pasts(procs) - (if procs[p].Past? then 1 else 0) + (if x.Past? then 1 else 0)
    ensures Reserved(procs[p := x]) == Reserved(procs) - Share(procs[p]) + Share(x)
  {
    if p == 0 {
      assert procs[0 := x][1..] == procs[1..];
    } else {
      assert procs[p := x][1..] == procs[1..][p - 1 := x];
      CountsChange(procs[1..], p - 1, x);
    }
  }

  ghost predicate WithinBudget(procs: seq<Proc>) {
    forall p :: 0 <= p < |procs| && !procs[p].Away? ==> procs[p].used <= MAXOPBLOCKS
  }

  // An operation's own share is part of the reservation, and no more than
  // MAXOPBLOCKS is reserved for each.
  lemma {:induction false} ReservedBounds(procs: seq<Proc>)
    requires WithinBudget(procs)
    ensures 0 <= Reserved(procs) <= Active(procs) * MAXOPBLOCKS
    ensures forall p :: 0 <= p < |procs| && !procs[p].Away? ==> Reserved(procs) >= MAXOPBLOCKS - procs[p].used && Active(procs) >= 1
  {
    if procs != [] {
      ReservedBounds(procs[1..]);
      assert forall p :: 1 <= p < |procs| ==> procs[p] == procs[1..][p - 1];
    }
  }

  lemma {:induction false} PastsActive(procs: seq<Proc>)
    ensures Pasts(procs) <= Active(procs)
  {
    if procs != [] {
      PastsActive(procs[1..]);
    }
  }

  lemma {:induction false} NobodyActive(n: nat)
    ensures Active(AllAway(n)) == 0 && Reserved(AllAway(n)) == 0 && Pasts(AllAway(n)) == 0
  {
    if n > 0 {
      assert AllAway(n)[1..] == AllAway(n - 1);
      NobodyActive(n - 1);
    }
  }

  // ---------- what every step keeps, whatever the size of the log ----------

  ghost predicate ProcFits(c: Budget, l: Layout, s: State, p: nat)
    requires p < |s.procs| && p < |s.held|
  {
    && (s.held[p] == NONE || IsHome(l, s.held[p]))
    && (!s.procs[p].Away? ==> s.procs[p].used <= MAXOPBLOCKS)
    && (s.procs[p].Past? ==> l.size > 1 && s.held[p] != NONE && s.procs[p].used + Cost(c, s.lh, s.held[p]) <= MAXOPBLOCKS)
  }

  // The log has room for all that the operations under way may still log, and is not longer than
  // the guard lets it become with three operations at it.
  ghost predicate RoomReserved(l: Layout, s: State) {
    && s.outstanding == Active(s.procs) <= 3
    && |s.lh| + Reserved(s.procs) <= LOGSIZE
    && (if l.size <= 1 then s.lh == [] else |s.lh| + Pasts(s.procs) <= l.size + 1)
  }

  ghost predicate AllDirty(s: State) {
    forall b :: b in s.dirty <==> b in s.lh
  }

  // Logged blocks are dirty until they are installed.
  ghost predicate Tracked(l: Layout, s: State) {
    Distinct(s.lh) && HomeBlocks(l, s.lh) &&
    match s.phase
    case Running => AllDirty(s) && (s.outstanding == 0 ==> s.lh == [])
    case Committing(who, _, _, k) =>
      && s.outstanding == 0 && who < |s.held| && s.held[who] == NONE && k <= Writes(s.lh)
      && (if k == 0 then AllDirty(s) else |s.lh| < NBUF)
      && forall b :: b in s.dirty ==> b in s.lh[Installed(s.lh, k)..]
  }

  ghost predicate Counts(c: Budget, l: Layout, n: nat, s: State) {
    && GoodLayout(l) && |s.procs| == n && |s.held| == n
    && (forall p: nat :: p < n ==> ProcFits(c, l, s, p))
    && RoomReserved(l, s) && Tracked(l, s)
  }

  lemma CountsBudget(c: Budget, l: Layout, n: nat, s: State)
    requires Counts(c, l, n, s)
    ensures WithinBudget(s.procs)
  {
    forall p | 0 <= p < n && !s.procs[p].Away?
      ensures s.procs[p].used <= MAXOPBLOCKS
    {
      assert ProcFits(c, l, s, p);
    }
  }

  lemma BootCounts(c: Budget, l: Layout, d: Disk, n: nat)
    requires GoodLayout(l)
    ensures Counts(c, l, n, Boot(d, n))
  {
    NobodyActive(n);
    forall p: nat | p < n
      ensures ProcFits(c, l, Boot(d, n), p)
    {
    }
  }

  lemma BeginCounts(c: Budget, l: Layout, n: nat, s: State, p: nat, s': State)
    requires Counts(c, l, n, s) && Step(c, l, s, Begin(p), s')
    ensures Counts(c, l, n, s')
  {
    CountsChange(s.procs, p, Within(0));
    CountsBudget(c, l, n, s);
    ReservedBounds(s.procs);
    forall q: nat | q < n
      ensures ProcFits(c, l, s', q)
    {
      assert ProcFits(c, l, s, q);
    }
  }

  lemma ReadCounts(c: Budget, l: Layout, n: nat, s: State, p: nat, b: int, s': State)
    requires Counts(c, l, n, s) && Step(c, l, s, Read(p, b), s')
    ensures Counts(c, l, n, s')
  {
    forall q: nat | q < n
      ensures ProcFits(c, l, s', q)
    {
      HandFits(c, l, s, p, b, q);
    }
    assert RoomReserved(l, s') && Tracked(l, s');
  }

  lemma ReleaseCounts(c: Budget, l: Layout, n: nat, s: State, p: nat, s': State)
    requires Counts(c, l, n, s) && Step(c, l, s, Release(p), s')
    ensures Counts(c, l, n, s')
  {
    forall q: nat | q < n
      ensures ProcFits(c, l, s', q)
    {
      HandFits(c, l, s, p, NONE, q);
    }
    assert RoomReserved(l, s') && Tracked(l, s');
  }

  lemma HandFits(c: Budget, l: Layout, s: State, p: nat, b: int, q: nat)
    requires p < |s.held| == |s.procs| && q < |s.held| && ProcFits(c, l, s, q) && ProcFits(c, l, s, p)
    requires (b == NONE && !s.procs[p].Past?) || (IsHome(l, b) && s.held[p] == NONE)
    ensures ProcFits(c, l, s.(held := s.held[p := b]), q)
  {
  }

  lemma CheckCounts(c: Budget, l: Layout, n: nat, s: State, p: nat, s': State)
    requires Counts(c, l, n, s) && Step(c, l, s, Check(p), s')
    ensures Counts(c, l, n, s')
  {
    CountsChange(s.procs, p, Past(s.procs[p].used));
    forall q: nat | q < n
      ensures ProcFits(c, l, s', q)
    {
      assert ProcFits(c, l, s, q);
    }
    PastsActive(s'.procs);
  }

  lemma AppendCounts(c: Budget, l: Layout, n: nat, s: State, p: nat, data: Block, s': State)
    requires Counts(c, l, n, s) && Step(c, l, s, Append(p, data), s')
    ensures Counts(c, l, n, s')
  {
    CountsChange(s.procs, p, Within(s.procs[p].used + Cost(c, s.lh, s.held[p])));
    CountsBudget(c, l, n, s);
    ReservedBounds(s.procs);
    assert ProcFits(c, l, s, p);
    assert s.phase.Running?;
    forall q: nat | q < n
      ensures ProcFits(c, l, s', q)
    {
      assert ProcFits(c, l, s, q);
    }
  }

  lemma EndCounts(c: Budget, l: Layout, n: nat, s: State, p: nat, s': State)
    requires Counts(c, l, n, s) && Step(c, l, s, End(p), s')
    ensures Counts(c, l, n, s')
  {
    CountsChange(s.procs, p, Away);
    CountsBudget(c, l, n, s);
    ReservedBounds(s.procs);
    forall q: nat | q < n
      ensures ProcFits(c, l, s', q)
    {
      assert ProcFits(c, l, s, q);
    }
    assert s.lh[0..] == s.lh;
  }

  // Nobody but a commit has buffers for the log.
  lemma OnlyHome(c: Budget, l: Layout, n: nat, s: State)
    requires Counts(c, l, n, s)
    ensures forall b :: b in InUse(s) ==> IsHome(l, b)
  {
    forall b | b in InUse(s)
      ensures IsHome(l, b)
    {
      if b in s.dirty {
        assert b in s.lh;
      } else {
        var p :| 0 <= p < |s.held| && s.held[p] == b;
        assert ProcFits(c, l, s, p);
      }
    }
  }

  // The first buffer of a commit: there are fewer logged blocks than buffers.
  lemma FirstBuffer(c: Budget, l: Layout, n: nat, s: State)
    requires Counts(c, l, n, s) && CanWrite(l, s) && s.phase.k == 0
    ensures |s.lh| < NBUF
  {
    assert s.lh != [];
    OnlyHome(c, l, n, s);
    BlocksCount(s.lh, s.dirty.Keys);
    Subset(s.dirty.Keys, InUse(s));
  }

  lemma DiskWriteCounts(c: Budget, l: Layout, n: nat, s: State, s': State)
    requires Counts(c, l, n, s) && Step(c, l, s, DiskWrite, s')
    ensures Counts(c, l, n, s')
  {
    if s.phase.k == 0 {
      FirstBuffer(c, l, n, s);
    }
    forall q: nat | q < n
      ensures ProcFits(c, l, s', q)
    {
      assert ProcFits(c, l, s, q);
    }
    forall b | b in s'.dirty
      ensures b in s.lh[Installed(s.lh, s'.phase.k)..]
    {
      StillDirty(l, s, b);
    }
  }

  // What is left dirty after one write more has still to be installed.
  lemma StillDirty(l: Layout, s: State, b: int)
    requires CanWrite(l, s) && b != NextWrite(l, s).blockno && b in s.lh[Installed(s.lh, s.phase.k)..]
    ensures b in s.lh[Installed(s.lh, s.phase.k + 1)..]
  {
    var j := Installed(s.lh, s.phase.k);
    var i :| j <= i < |s.lh| && s.lh[i] == b;
    if Installed(s.lh, s.phase.k + 1) > j {
      assert i != j;
      assert s.lh[j + 1..][i - j - 1] == b;
    }
  }

  lemma NothingDirty(l: Layout, s: State)
    requires Tracked(l, s) && s.phase.Committing? && s.phase.k == Writes(s.lh)
    ensures s.dirty == map[]
  {
    var rest := s.lh[Installed(s.lh, s.phase.k)..];
    assert rest == [];
    forall b
      ensures b !in s.dirty
    {
      assert b in s.dirty ==> b in rest;
    }
    assert s.dirty.Keys == {};
  }

  lemma FinishCounts(c: Budget, l: Layout, n: nat, s: State, s': State)
    requires Counts(c, l, n, s) && Step(c, l, s, Finish, s')
    ensures Counts(c, l, n, s') && s'.dirty == map[]
  {
    CountsBudget(c, l, n, s);
    ReservedBounds(s.procs);
    NothingDirty(l, s);
    forall q: nat | q < n
      ensures ProcFits(c, l, s', q)
    {
      assert ProcFits(c, l, s, q);
      assert !s.procs[q].Past?;
    }
  }

  lemma StepCounts(c: Budget, l: Layout, n: nat, s: State, a: Action, s': State)
    requires Counts(c, l, n, s) && Step(c, l, s, a, s')
    ensures Counts(c, l, n, s')
  {
    match a
    case Begin(p) => BeginCounts(c, l, n, s, p, s');
    case Read(p, b) => ReadCounts(c, l, n, s, p, b, s');
    case Release(p) => ReleaseCounts(c, l, n, s, p, s');
    case Check(p) => CheckCounts(c, l, n, s, p, s');
    case Append(p, data) => AppendCounts(c, l, n, s, p, data, s');
    case End(p) => EndCounts(c, l, n, s, p, s');
    case DiskWrite => DiskWriteCounts(c, l, n, s, s');
    case Finish => FinishCounts(c, l, n, s, s');
    case Crash(ks) => BootCounts(c, l, s'.disk, n);
  }

  // ---------- what is on the disk ----------

  // The contents that the logged blocks are to have.
  ghost function Vals(s: State): (vals: seq<Block>)
    requires s.phase.Committing? && forall i :: 0 <= i < |s.lh| ==> 0 <= s.lh[i] < FSSIZE
    ensures |vals| == |s.lh|
  {
    Contents(s.lh, s.phase.shown)
  }

  // The first k log blocks have been written.
  ghost predicate LogPart(l: Layout, from: Disk, vals: seq<Block>, k: nat, disk: Disk)
    requires GoodLayout(l)
  {
    k < l.size && k <= |vals| && disk == Do(from, LogWrites(l, vals)[..k])
  }

  // The disk that a commit found, and what was shown then.
  ghost predicate Began(l: Layout, lh: seq<int>, base: Disk, from: Disk, shown: Disk) {
    Clean(l, from) && SameHome(l, from, base) && forall b :: IsHome(l, b) && b !in lh ==> shown[b] == from[b]
  }

  // What k writes have made of it.
  ghost predicate Progress(l: Layout, lh: seq<int>, from: Disk, shown: Disk, k: nat, disk: Disk)
    requires GoodLayout(l) && HomeBlocks(l, lh) && |lh| <= LOGSIZE
  {
    if k <= |lh| then LogPart(l, from, Contents(lh, shown), k, disk)
    else Loggable(l, lh) && k <= Writes(lh) && disk == Do(from, CommitWrites(l, from, lh, Contents(lh, shown))[..k])
  }

  // The home blocks stay as they were when the batch began until its header is on disk.
  ghost predicate DiskState(l: Layout, s: State)
    requires GoodLayout(l) && HomeBlocks(l, s.lh) && |s.lh| <= LOGSIZE
  {
    match s.phase
    case Running => Clean(l, s.disk) && SameHome(l, s.disk, s.base)
    case Committing(_, from, shown, k) =>
      Began(l, s.lh, s.base, from, shown) && SameHome(l, View(s), shown) && Progress(l, s.lh, from, shown, k, s.disk)
  }

  ghost predicate Clean(l: Layout, d: Disk) {
    Sound(l, d) && Pending(l, d) == []
  }

  ghost predicate Inv(c: Budget, l: Layout, n: nat, s: State) {
    Counts(c, l, n, s) && |s.lh| <= LOGSIZE && DiskState(l, s)
  }

  // A commit that writes behind the log.
  ghost predicate Overruns(l: Layout, s: State, a: Action) {
    a.DiskWrite? && s.phase.Committing? && s.phase.k < |s.lh| && s.phase.k + 1 >= l.size
  }

  lemma CountsLength(c: Budget, l: Layout, n: nat, s: State)
    requires Counts(c, l, n, s)
    ensures |s.lh| <= LOGSIZE
  {
    CountsBudget(c, l, n, s);
    ReservedBounds(s.procs);
  }

  lemma BootInv(c: Budget, l: Layout, d: Disk, n: nat)
    requires Clean(l, d)
    ensures Inv(c, l, n, Boot(d, n))
  {
    BootCounts(c, l, d, n);
  }

  // Steps that leave the disk alone.
  lemma QuietStep(c: Budget, l: Layout, n: nat, s: State, a: Action, s': State)
    requires Inv(c, l, n, s) && Step(c, l, s, a, s') && Counts(c, l, n, s')
    requires a.Begin? || a.Read? || a.Release? || a.Check?
    ensures Inv(c, l, n, s')
  {
    assert View(s') == View(s);
  }

  lemma AppendStep(c: Budget, l: Layout, n: nat, s: State, p: nat, data: Block, s': State)
    requires Inv(c, l, n, s) && Step(c, l, s, Append(p, data), s') && Counts(c, l, n, s')
    ensures Inv(c, l, n, s')
  {
    CountsLength(c, l, n, s');
    CountsBudget(c, l, n, s);
    ReservedBounds(s.procs);
  }

  lemma EndStep(c: Budget, l: Layout, n: nat, s: State, p: nat, s': State)
    requires Inv(c, l, n, s) && Step(c, l, s, End(p), s') && Counts(c, l, n, s')
    ensures Inv(c, l, n, s')
  {
    if s'.phase.Committing? {
      assert LogWrites(l, Vals(s'))[..0] == [];
      assert View(s') == s'.phase.shown;
    }
  }

  lemma LogProgress(l: Layout, lh: seq<int>, from: Disk, shown: Disk, k: nat, disk: Disk)
    requires GoodLayout(l) && HomeBlocks(l, lh) && |lh| <= LOGSIZE && Progress(l, lh, from, shown, k, disk)
    requires k < |lh| && k + 1 < l.size
    ensures Progress(l, lh, from, shown, k + 1, disk[l.start + 1 + k := shown[lh[k]]])
  {
    var ws := LogWrites(l, Contents(lh, shown));
    assert ws[..k + 1][..k] == ws[..k];
  }

  lemma NextIsLog(l: Layout, s: State)
    requires CanWrite(l, s) && s.phase.k < |s.lh| && SameHome(l, View(s), s.phase.shown)
    ensures NextWrite(l, s) == Write(l.start + 1 + s.phase.k, s.phase.shown[s.lh[s.phase.k]])
  {
    assert IsHome(l, s.lh[s.phase.k]);
  }

  lemma LogStep(c: Budget, l: Layout, n: nat, s: State, s': State)
    requires Inv(c, l, n, s) && Step(c, l, s, DiskWrite, s')
    requires s.phase.k < |s.lh| && s.phase.k + 1 < l.size
    ensures DiskState(l, s')
  {
    NextIsLog(l, s);
    LogDisk(l, s, NextWrite(l, s), s');
  }

  lemma LogDisk(l: Layout, s: State, w: Write, s': State)
    requires GoodLayout(l) && HomeBlocks(l, s.lh) && |s.lh| <= LOGSIZE && DiskState(l, s) && Wrote(s, w, s')
    requires s.phase.k < |s.lh| && s.phase.k + 1 < l.size
    requires w == Write(l.start + 1 + s.phase.k, s.phase.shown[s.lh[s.phase.k]])
    ensures DiskState(l, s')
  {
    LogProgress(l, s.lh, s.phase.from, s.phase.shown, s.phase.k, s.disk);
    ViewKept(l, s, w, s');
  }

  // What is written inside the log is not seen.
  lemma ViewKept(l: Layout, s: State, w: Write, s': State)
    requires w.blockno < FSSIZE && InLog(l, w.blockno)
    requires s'.disk == s.disk[w.blockno := w.data] && s'.dirty == s.dirty - {w.blockno}
    ensures SameHome(l, View(s'), View(s))
  {
  }

  // The writes of a commit from the header on, by what is on the disk before each of them.
  lemma HeaderNext(l: Layout, from: Disk, bl: Header, vals: seq<Block>)
    requires GoodLayout(l) && Loggable(l, bl) && |bl| == |vals|
    ensures CommitWrites(l, from, bl, vals)[..|bl|] == LogWrites(l, vals)[..|bl|]
    ensures CommitWrites(l, from, bl, vals)[|bl|] == Write(l.start, PutHeader(Do(from, LogWrites(l, vals)[..|bl|])[l.start], bl))
  {
    DoKeeps(from, LogWrites(l, vals)[..|bl|], l.start);
  }

  lemma InstallNext(l: Layout, from: Disk, bl: Header, vals: seq<Block>, j: nat)
    requires GoodLayout(l) && Loggable(l, bl) && |bl| == |vals| && j < |bl|
    ensures var ws, k := CommitWrites(l, from, bl, vals), |bl| + 1 + j;
            ws[k] == Write(bl[j], Do(from, ws[..k])[l.start + 1 + j])
  {
    var ws, k := CommitWrites(l, from, bl, vals), |bl| + 1 + j;
    assert ws[..k][j] == Write(l.start + 1 + j, vals[j]);
    DoLast(from, ws[..k], j);
  }

  lemma ClearNext(l: Layout, from: Disk, bl: Header, vals: seq<Block>)
    requires GoodLayout(l) && Loggable(l, bl) && |bl| == |vals|
    ensures var ws, k := CommitWrites(l, from, bl, vals), 2 * |bl| + 1;
            ws[k] == Write(l.start, PutHeader(Do(from, ws[..k])[l.start], []))
  {
    var ws, k := CommitWrites(l, from, bl, vals), 2 * |bl| + 1;
    assert ws[..k][|bl|] == Write(l.start, PutHeader(from[l.start], bl));
    DoLast(from, ws[..k], |bl|);
  }

  lemma LogSideShown(c: Budget, l: Layout, n: nat, s: State)
    requires Counts(c, l, n, s) && CanWrite(l, s) && Loggable(l, s.lh)
    ensures InLog(l, LogBlock(l, s.lh, s.phase.k))
    ensures View(s)[LogBlock(l, s.lh, s.phase.k)] == s.disk[LogBlock(l, s.lh, s.phase.k)]
  {
    OnlyHome(c, l, n, s);
    assert InLog(l, LogBlock(l, s.lh, s.phase.k));
    assert LogBlock(l, s.lh, s.phase.k) !in InUse(s);
  }

  lemma NextInBatch(l: Layout, s: State, from: Disk, vals: seq<Block>, k: nat)
    requires GoodLayout(l) && CanWrite(l, s) && Loggable(l, s.lh) && |vals| == |s.lh| <= k == s.phase.k
    requires s.disk == Do(from, CommitWrites(l, from, s.lh, vals)[..k])
    requires View(s)[LogBlock(l, s.lh, k)] == s.disk[LogBlock(l, s.lh, k)]
    ensures NextWrite(l, s) == CommitWrites(l, from, s.lh, vals)[k]
  {
    var m := |s.lh|;
    if k == m {
      HeaderNext(l, from, s.lh, vals);
    } else if k <= 2 * m {
      InstallNext(l, from, s.lh, vals, k - m - 1);
    } else {
      ClearNext(l, from, s.lh, vals);
    }
  }

  // From the header on, the next write is the next of the list that WalRecovery has.
  lemma NextIsBatch(c: Budget, l: Layout, n: nat, s: State)
    requires Inv(c, l, n, s) && CanWrite(l, s) && s.phase.k >= |s.lh|
    ensures Loggable(l, s.lh) && s.disk == Do(s.phase.from, CommitWrites(l, s.phase.from, s.lh, Vals(s))[..s.phase.k])
    ensures NextWrite(l, s) == CommitWrites(l, s.phase.from, s.lh, Vals(s))[s.phase.k]
  {
    HeaderNext(l, s.phase.from, s.lh, Vals(s));
    LogSideShown(c, l, n, s);
    NextInBatch(l, s, s.phase.from, Vals(s), s.phase.k);
  }

  ghost predicate Wrote(s: State, w: Write, s': State) {
    && s.phase.Committing? && w.blockno < FSSIZE
    && s'.disk == s.disk[w.blockno := w.data] && s'.dirty == s.dirty - {w.blockno}
    && s'.phase == s.phase.(k := s.phase.k + 1) && s'.lh == s.lh && s'.base == s.base
  }

  lemma InstallStep(c: Budget, l: Layout, n: nat, s: State, s': State)
    requires Inv(c, l, n, s) && Step(c, l, s, DiskWrite, s')
    requires s.phase.k >= |s.lh|
    ensures DiskState(l, s')
  {
    NextIsBatch(c, l, n, s);
    InstallDisk(l, s, NextWrite(l, s), s');
  }

  lemma InstallDisk(l: Layout, s: State, w: Write, s': State)
    requires GoodLayout(l) && Loggable(l, s.lh) && DiskState(l, s) && Wrote(s, w, s') && |s.lh| <= s.phase.k < Writes(s.lh)
    requires s.disk == Do(s.phase.from, CommitWrites(l, s.phase.from, s.lh, Vals(s))[..s.phase.k])
    requires w == CommitWrites(l, s.phase.from, s.lh, Vals(s))[s.phase.k]
    ensures DiskState(l, s')
  {
    InstallProgress(l, s.lh, s.phase.from, s.phase.shown, s.phase.k, s.disk);
    InstallShows(l, s, w, s');
  }

  lemma InstallProgress(l: Layout, lh: Header, from: Disk, shown: Disk, k: nat, disk: Disk)
    requires GoodLayout(l) && Loggable(l, lh) && |lh| <= k < Writes(lh)
    requires disk == Do(from, CommitWrites(l, from, lh, Contents(lh, shown))[..k])
    ensures var w := CommitWrites(l, from, lh, Contents(lh, shown))[k];
            w.blockno < FSSIZE && Progress(l, lh, from, shown, k + 1, disk[w.blockno := w.data])
  {
    OneWriteMore(from, CommitWrites(l, from, lh, Contents(lh, shown)), k);
  }

  // A home block gets what was shown of it.
  lemma InstallShows(l: Layout, s: State, w: Write, s': State)
    requires GoodLayout(l) && s.phase.Committing? && Loggable(l, s.lh) && |s.lh| <= s.phase.k < Writes(s.lh)
    requires SameHome(l, View(s), s.phase.shown)
    requires w == CommitWrites(l, s.phase.from, s.lh, Vals(s))[s.phase.k]
    requires s'.disk == s.disk[w.blockno := w.data] && s'.dirty == s.dirty - {w.blockno}
    ensures SameHome(l, View(s'), s.phase.shown)
  {
    var m, k := |s.lh|, s.phase.k;
    if m < k <= 2 * m {
      assert w == Write(s.lh[k - m - 1], s.phase.shown[s.lh[k - m - 1]]);
    } else {
      assert w.blockno == l.start;
      ViewKept(l, s, w, s');
    }
  }

  // After a commit the disk holds, block by block, what the file system showed.
  lemma FinishStep(c: Budget, l: Layout, n: nat, s: State, s': State)
    requires Inv(c, l, n, s) && Step(c, l, s, Finish, s') && Counts(c, l, n, s')
    ensures Inv(c, l, n, s') && SameHome(l, s'.disk, View(s))
  {
    FinishCounts(c, l, n, s, s');
    assert View(s) == s.disk;
    if s.lh != [] {
      var ws := CommitWrites(l, s.phase.from, s.lh, Vals(s));
      assert ws[..|ws|] == ws;
      CommitCompletes(l, s.phase.from, s.lh, Vals(s));
    } else {
      assert LogWrites(l, Vals(s))[..0] == [];
    }
  }

  lemma CrashStep(c: Budget, l: Layout, n: nat, s: State, ks: seq<nat>, s': State)
    requires Inv(c, l, n, s) && Step(c, l, s, Crash(ks), s')
    ensures Inv(c, l, n, s')
  {
    RecoveredClean(l, Crashed(l, s.disk, ks));
    BootInv(c, l, s'.disk, n);
  }

  lemma OverrunBreaks(c: Budget, l: Layout, n: nat, s: State, s': State)
    requires Inv(c, l, n, s) && Step(c, l, s, DiskWrite, s') && Overruns(l, s, DiskWrite)
    ensures !Inv(c, l, n, s')
  {
  }

  // A step of any process keeps the invariant if and only if it is not a write behind the log.
  lemma StepKeepsInv(c: Budget, l: Layout, n: nat, s: State, a: Action, s': State)
    requires Inv(c, l, n, s) && Step(c, l, s, a, s')
    ensures Inv(c, l, n, s') <==> !Overruns(l, s, a)
  {
    StepCounts(c, l, n, s, a, s');
    match a
    case Append(p, data) => AppendStep(c, l, n, s, p, data, s');
    case End(p) => EndStep(c, l, n, s, p, s');
    case DiskWrite =>
      if s.phase.k >= |s.lh| {
        InstallStep(c, l, n, s, s');
      } else if s.phase.k + 1 >= l.size {
        OverrunBreaks(c, l, n, s, s');
      } else {
        LogStep(c, l, n, s, s');
      }
    case Finish => FinishStep(c, l, n, s, s');
    case Crash(ks) => CrashStep(c, l, n, s, ks, s');
    case _ => QuietStep(c, l, n, s, a, s');
  }

  // ---------- whole runs ----------

  ghost predicate IsRun(c: Budget, l: Layout, states: seq<State>, actions: seq<Action>) {
    && |states| == |actions| + 1
    && forall i :: 0 <= i < |actions| ==> Step(c, l, states[i], actions[i], states[i + 1])
  }

  // A run from a clean disk to s.
  ghost predicate LeadsTo(c: Budget, l: Layout, n: nat, states: seq<State>, actions: seq<Action>, s: State) {
    && IsRun(c, l, states, actions)
    && Clean(l, states[0].disk) && states[0] == Boot(states[0].disk, n)
    && states[|actions|] == s
  }

  ghost predicate Reachable(c: Budget, l: Layout, n: nat, s: State) {
    exists states, actions :: LeadsTo(c, l, n, states, actions, s)
  }

  // No commit writes behind the log.
  ghost predicate Orderly(l: Layout, states: seq<State>, actions: seq<Action>)
    requires |states| == |actions| + 1
  {
    forall i :: 0 <= i < |actions| ==> !Overruns(l, states[i], actions[i])
  }

  ghost predicate OrderlyTo(c: Budget, l: Layout, n: nat, states: seq<State>, actions: seq<Action>, s: State) {
    LeadsTo(c, l, n, states, actions, s) && Orderly(l, states, actions)
  }

  ghost predicate InOrder(c: Budget, l: Layout, n: nat, s: State) {
    exists states, actions :: OrderlyTo(c, l, n, states, actions, s)
  }

  lemma {:induction false} RunCounts(c: Budget, l: Layout, n: nat, states: seq<State>, actions: seq<Action>, i: nat)
    requires IsRun(c, l, states, actions) && Counts(c, l, n, states[0]) && i <= |actions|
    ensures Counts(c, l, n, states[i])
  {
    if i > 0 {
      RunCounts(c, l, n, states, actions, i - 1);
      StepCounts(c, l, n, states[i - 1], actions[i - 1], states[i]);
    }
  }

  lemma ReachableCounts(c: Budget, l: Layout, n: nat, s: State)
    requires Reachable(c, l, n, s)
    ensures Counts(c, l, n, s)
  {
    var states: seq<State>, actions: seq<Action> :| LeadsTo(c, l, n, states, actions, s);
    BootCounts(c, l, states[0].disk, n);
    RunCounts(c, l, n, states, actions, |actions|);
  }

  lemma {:induction false} RunKeepsInv(c: Budget, l: Layout, n: nat, states: seq<State>, actions: seq<Action>, i: nat)
    requires IsRun(c, l, states, actions) && Orderly(l, states, actions) && Inv(c, l, n, states[0]) && i <= |actions|
    ensures Inv(c, l, n, states[i])
  {
    if i > 0 {
      RunKeepsInv(c, l, n, states, actions, i - 1);
      assert Step(c, l, states[i - 1], actions[i - 1], states[i]) && !Overruns(l, states[i - 1], actions[i - 1]);
      StepKeepsInv(c, l, n, states[i - 1], actions[i - 1], states[i]);
    }
  }

  lemma InOrderInv(c: Budget, l: Layout, n: nat, s: State)
    requires InOrder(c, l, n, s)
    ensures Inv(c, l, n, s)
  {
    var states: seq<State>, actions: seq<Action> :| OrderlyTo(c, l, n, states, actions, s);
    BootInv(c, l, states[0].disk, n);
    RunKeepsInv(c, l, n, states, actions, |actions|);
  }

  lemma ReachStep(c: Budget, l: Layout, n: nat, s: State, a: Action, s': State)
    requires Reachable(c, l, n, s) && Step(c, l, s, a, s')
    ensures Reachable(c, l, n, s')
  {
    var states: seq<State>, actions: seq<Action> :| LeadsTo(c, l, n, states, actions, s);
    var states', actions' := states + [s'], actions + [a];
    assert LeadsTo(c, l, n, states', actions', s');
  }

  lemma ReachBoot(c: Budget, l: Layout, d: Disk, n: nat)
    requires Clean(l, d)
    ensures Reachable(c, l, n, Boot(d, n))
  {
    assert LeadsTo(c, l, n, [Boot(d, n)], [], Boot(d, n));
  }

  // The header of the batch is on disk.
  ghost predicate Decided(s: State) {
    s.phase.Committing? && s.phase.k > |s.lh|
  }

  // A crash here, and any number of crashed recoveries after it, ends with the home blocks as they
  // were when the batch began, or, once its header is on disk, as the file system shows them.
  ghost predicate AllOrNothing(l: Layout, s: State) {
    Sound(l, s.disk)
    && forall ks :: SameHome(l, Recovered(l, Crashed(l, s.disk, ks)), if Decided(s) then View(s) else s.base)
  }

  // All or nothing, for whole batches of operations, anywhere in any run whose commits stay inside
  // the log.
  lemma CrashAllOrNothing(c: Budget, l: Layout, n: nat, s: State)
    requires InOrder(c, l, n, s)
    ensures AllOrNothing(l, s)
  {
    InOrderInv(c, l, n, s);
    match s.phase
    case Running => RecoverClean(l, s.disk);
    case Committing(_, from, _, k) =>
      if k <= |s.lh| {
        CrashInLog(l, from, Vals(s), k);
      } else {
        CommitAtomic(l, from, s.lh, Vals(s), k);
        PostedIsShown(c, l, n, s);
      }
  }

  // While only log blocks have been written, recovery finds an empty header.
  lemma CrashInLog(l: Layout, d: Disk, vals: seq<Block>, k: nat)
    requires Clean(l, d) && k < l.size && k <= |vals|
    ensures var d' := Do(d, LogWrites(l, vals)[..k]); Sound(l, d') && SameHome(l, Recovered(l, d'), d)
  {
    var ws := LogWrites(l, vals)[..k];
    LogKeepsHome(l, d, ws);
    DoKeeps(d, ws, l.start);
    RecoverClean(l, Do(d, ws));
  }

  lemma PostedIsShown(c: Budget, l: Layout, n: nat, s: State)
    requires Inv(c, l, n, s) && s.phase.Committing? && Loggable(l, s.lh)
    ensures SameHome(l, Posted(l, s.phase.from, s.lh, Vals(s)), View(s))
  {
    var from := s.phase.from;
    PostedAt(l, from, s.lh, Vals(s));
    forall b | IsHome(l, b)
      ensures Posted(l, from, s.lh, Vals(s))[b] == s.phase.shown[b]
    {
      if b in s.lh {
        var i :| 0 <= i < |s.lh| && s.lh[i] == b;
        assert Posted(l, from, s.lh, Vals(s))[s.lh[i]] == Vals(s)[i];
      }
    }
  }

  // To its users the file system is one disk: log_write changes the block written,
  // and no other step but a crash changes anything.
  lemma OneDisk(c: Budget, l: Layout, n: nat, s: State, a: Action, s': State)
    requires InOrder(c, l, n, s) && Step(c, l, s, a, s') && !a.Crash? && !Overruns(l, s, a)
    ensures !a.Append? ==> SameHome(l, View(s'), View(s))
    ensures a.Append? ==> IsHome(l, s.held[a.p]) && View(s') == View(s)[s.held[a.p] := a.data]
  {
    InOrderInv(c, l, n, s);
    if a.DiskWrite? {
      StepKeepsInv(c, l, n, s, a, s');
    } else if a.Append? {
      assert ProcFits(c, l, s, a.p);
    }
  }

  // A finished commit makes what the file system shows the state to fall back to.
  lemma FinishMovesBase(c: Budget, l: Layout, n: nat, s: State, s': State)
    requires InOrder(c, l, n, s) && Step(c, l, s, Finish, s')
    ensures Clean(l, s'.disk) && SameHome(l, s'.base, View(s))
  {
    InOrderInv(c, l, n, s);
    StepKeepsInv(c, l, n, s, Finish, s');
    FinishStep(c, l, n, s, s');
  }

  // The count in the header never exceeds LOGSIZE, though others may log between a guard and its
  // append; only one commit runs at a time, and none while an operation is under way; a logged block
  // stays pinned until the commit; and when nobody is in the log, begin_op lets one in.
  lemma ReservationHolds(c: Budget, l: Layout, n: nat, s: State)
    requires Reachable(c, l, n, s)
    ensures |s.lh| <= LOGSIZE
    ensures forall p :: 0 <= p < |s.procs| && !s.procs[p].Away? ==>
              s.phase.Running? && |s.lh| + (MAXOPBLOCKS - s.procs[p].used) <= LOGSIZE
    ensures s.phase.Running? ==> forall b :: b in s.lh <==> b in s.dirty
    ensures s.phase.Running? && s.outstanding == 0 ==> MayBegin(|s.lh|, s.outstanding, false)
  {
    ReachableCounts(c, l, n, s);
    CountsBudget(c, l, n, s);
    ReservedBounds(s.procs);
  }
}
