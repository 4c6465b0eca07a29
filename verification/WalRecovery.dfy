/** Commit and recovery as lists of block writes, each of them one atomic step.
    A crash keeps a prefix of the list. */
module WalRecovery {
  import opened Sequences
  import opened WalDisk

  // install_trans
  function InstallWrites(bl: seq<int>, vals: seq<Block>): (ws: seq<Write>)
    requires |bl| == |vals| && forall i :: 0 <= i < |bl| ==> bl[i] >= 0
    ensures |ws| == |bl|
  {
    seq(|bl|, i requires 0 <= i < |bl| => Write(bl[i], vals[i]))
  }

  // write_log
  function LogWrites(l: Layout, vals: seq<Block>): (ws: seq<Write>)
    ensures |ws| == |vals|
  {
    seq(|vals|, i requires 0 <= i < |vals| => Write(l.start + 1 + i, vals[i]))
  }

  // The logged contents of the blocks that the header names.
  function Logged(l: Layout, d: Disk): (vals: seq<Block>)
    requires Sound(l, d)
    ensures |vals| == |Pending(l, d)|
  {
    seq(|Pending(l, d)|, i requires 0 <= i < |Pending(l, d)| => d[l.start + 1 + i])
  }

  // recover_from_log
  function RecoverWrites(l: Layout, d: Disk): (ws: seq<Write>)
    requires Sound(l, d)
    ensures OnDisk(ws)
  {
    InstallWrites(Pending(l, d), Logged(l, d)) + [Write(l.start, PutHeader(d[l.start], []))]
  }

  function Recovered(l: Layout, d: Disk): Disk
    requires Sound(l, d)
  {
    Do(d, RecoverWrites(l, d))
  }

  // commit: log, header, home blocks, empty header.
  function CommitWrites(l: Layout, d: Disk, bl: Header, vals: seq<Block>): (ws: seq<Write>)
    requires GoodLayout(l) && Loggable(l, bl) && |bl| == |vals|
    ensures OnDisk(ws)
  {
    LogWrites(l, vals) + [Write(l.start, PutHeader(d[l.start], bl))]
    + (InstallWrites(bl, vals) + [Write(l.start, PutHeader(PutHeader(d[l.start], bl), []))])
  }

  // The state that a transaction is to bring about.
  function Posted(l: Layout, d: Disk, bl: seq<int>, vals: seq<Block>): Disk
    requires Loggable(l, bl) && |bl| == |vals|
  {
    Do(d, InstallWrites(bl, vals))
  }

  // Whatever prefix of a list has been done before, doing the list gives the same.
  lemma Redo(d: Disk, ws: seq<Write>, k: nat)
    requires OnDisk(ws) && k <= |ws|
    ensures Do(Do(d, ws[..k]), ws) == Do(d, ws)
  {
    forall b | 0 <= b < FSSIZE
      ensures Do(Do(d, ws[..k]), ws)[b] == Do(d, ws)[b]
    {
      RedoAt(d, ws, k, b);
    }
  }

  lemma RedoAt(d: Disk, ws: seq<Write>, k: nat, b: int)
    requires OnDisk(ws) && k <= |ws| && 0 <= b < FSSIZE
    ensures Do(Do(d, ws[..k]), ws)[b] == Do(d, ws)[b]
  {
    if i :| 0 <= i < |ws| && ws[i].blockno == b && forall j :: i < j < |ws| ==> ws[j].blockno != b {
      DoLast(d, ws, i);
      DoLast(Do(d, ws[..k]), ws, i);
    } else {
      NoLast(ws, b, |ws|);
      DoKeeps(d, ws, b);
      DoKeeps(Do(d, ws[..k]), ws, b);
      DoKeeps(d, ws[..k], b);
    }
  }

  // A block without a last write has no write.
  lemma {:induction false} NoLast(ws: seq<Write>, b: int, n: nat)
    requires n <= |ws|
    requires !exists i :: 0 <= i < |ws| && ws[i].blockno == b && forall j :: i < j < |ws| ==> ws[j].blockno != b
    ensures forall i :: 0 <= i < |ws| && |ws| - n <= i ==> ws[i].blockno != b
  {
    if n > 0 {
      NoLast(ws, b, n - 1);
    }
  }

  // Home writes leave the log alone.
  lemma InstallKeepsLog(l: Layout, d: Disk, ws: seq<Write>, b: int)
    requires OnDisk(ws) && (forall i :: 0 <= i < |ws| ==> IsHome(l, ws[i].blockno)) && 0 <= b < FSSIZE && InLog(l, b)
    ensures Do(d, ws)[b] == d[b]
  {
    DoKeeps(d, ws, b);
  }

  // Log writes leave the home blocks alone.
  lemma LogKeepsHome(l: Layout, d: Disk, ws: seq<Write>)
    requires OnDisk(ws) && forall i :: 0 <= i < |ws| ==> InLog(l, ws[i].blockno)
    ensures SameHome(l, Do(d, ws), d)
  {
    forall b | IsHome(l, b)
      ensures Do(d, ws)[b] == d[b]
    {
      DoKeeps(d, ws, b);
    }
  }

  // Recovery that crashes after k of its writes can be started again: the disk is
  // still sound and recovers to the same home blocks.
  lemma RecoveryRestarts(l: Layout, d: Disk, k: nat)
    requires Sound(l, d) && k <= |RecoverWrites(l, d)|
    ensures var d' := Do(d, RecoverWrites(l, d)[..k]);
            Sound(l, d') && SameHome(l, Recovered(l, d'), Recovered(l, d))
            && (k == |RecoverWrites(l, d)| ==> Pending(l, d') == [])
  {
    var bl := Pending(l, d);
    if k <= |bl| {
      RestartsInstalling(l, d, k);
    } else {
      var ws := RecoverWrites(l, d);
      assert ws[..k] == ws;
      RecoveredClean(l, d);
      RecoverClean(l, Do(d, ws));
    }
  }

  lemma RestartsInstalling(l: Layout, d: Disk, k: nat)
    requires Sound(l, d) && k <= |Pending(l, d)|
    ensures var d' := Do(d, RecoverWrites(l, d)[..k]); Sound(l, d') && Recovered(l, d') == Recovered(l, d)
  {
    var bl, ws := Pending(l, d), RecoverWrites(l, d);
    var d' := Do(d, ws[..k]);
    forall b | 0 <= b < FSSIZE && InLog(l, b)
      ensures d'[b] == d[b]
    {
      InstallKeepsLog(l, d, ws[..k], b);
    }
    assert Logged(l, d') == Logged(l, d);
    assert RecoverWrites(l, d') == ws;
    Redo(d, ws, k);
  }

  // A completed recovery leaves an empty header.
  lemma RecoveredClean(l: Layout, d: Disk)
    requires Sound(l, d)
    ensures Sound(l, Recovered(l, d)) && Pending(l, Recovered(l, d)) == []
  {
    var ws := RecoverWrites(l, d);
    assert Recovered(l, d)[l.start] == PutHeader(d[l.start], []);
  }

  // With an empty header, recovery changes no home block.
  lemma RecoverClean(l: Layout, d: Disk)
    requires Sound(l, d) && Pending(l, d) == []
    ensures SameHome(l, Recovered(l, d), d)
  {
    LogKeepsHome(l, d, RecoverWrites(l, d));
  }

  // A second recovery changes nothing at all.
  lemma RecoveryIdempotent(l: Layout, d: Disk)
    requires Sound(l, d)
    ensures Sound(l, Recovered(l, d)) && Recovered(l, Recovered(l, d)) == Recovered(l, d)
  {
    RecoveredClean(l, d);
    var d1 := Recovered(l, d);
    var h := d[l.start];
    assert d1[l.start] == PutHeader(h, []);
    assert PutHeader(PutHeader(h, []), []) == PutHeader(h, []);
    assert RecoverWrites(l, d1) == [Write(l.start, d1[l.start])];
    assert RecoverWrites(l, d1)[..0] == [];
    assert Do(d1, RecoverWrites(l, d1)) == d1[l.start := d1[l.start]];
  }

  // The disk after recoveries that crash after ks[0], ks[1], ... writes.
  function Crashed(l: Layout, d: Disk, ks: seq<nat>): (d': Disk)
    requires Sound(l, d)
    ensures Sound(l, d') && SameHome(l, Recovered(l, d'), Recovered(l, d))
    decreases |ks|
  {
    if ks == [] then d
    else
      var ws := RecoverWrites(l, d);
      var k := if ks[0] <= |ws| then ks[0] else |ws|;
      RecoveryRestarts(l, d, k);
      Crashed(l, Do(d, ws[..k]), ks[1..])
  }

  // The first part of a commit: the logged contents and the header that names them.
  function PrepareWrites(l: Layout, d: Disk, bl: Header, vals: seq<Block>): (ws: seq<Write>)
    requires GoodLayout(l) && Loggable(l, bl) && |bl| == |vals|
    ensures OnDisk(ws) && |ws| == |bl| + 1
    ensures forall i :: 0 <= i < |ws| ==> InLog(l, ws[i].blockno)
  {
    LogWrites(l, vals) + [Write(l.start, PutHeader(d[l.start], bl))]
  }

  lemma Prepared(l: Layout, d: Disk, bl: Header, vals: seq<Block>)
    requires Sound(l, d) && Loggable(l, bl) && |bl| == |vals|
    ensures var d1 := Do(d, PrepareWrites(l, d, bl, vals));
            Sound(l, d1) && Pending(l, d1) == bl && Logged(l, d1) == vals && SameHome(l, d1, d)
            && d1[l.start] == PutHeader(d[l.start], bl)
  {
    var ws := PrepareWrites(l, d, bl, vals);
    var d1 := Do(d, ws);
    assert d1[l.start] == PutHeader(d[l.start], bl);
    HeaderRoundTrip(d[l.start], bl);
    forall i | 0 <= i < |vals|
      ensures d1[l.start + 1 + i] == vals[i]
    {
      DoLast(d, ws, i);
    }
    assert Logged(l, d1) == vals;
    LogKeepsHome(l, d, ws);
  }

  // After that part, the rest of a commit is a recovery.
  lemma CommitIsRecovery(l: Layout, d: Disk, bl: Header, vals: seq<Block>)
    requires Sound(l, d) && Loggable(l, bl) && |bl| == |vals|
    ensures var ws := PrepareWrites(l, d, bl, vals);
            Sound(l, Do(d, ws)) && CommitWrites(l, d, bl, vals) == ws + RecoverWrites(l, Do(d, ws))
  {
    Prepared(l, d, bl, vals);
  }

  lemma CrashBeforeHeader(l: Layout, d: Disk, bl: Header, vals: seq<Block>, k: nat)
    requires Sound(l, d) && Pending(l, d) == [] && Loggable(l, bl) && |bl| == |vals| && k <= |bl|
    ensures var d' := Do(d, CommitWrites(l, d, bl, vals)[..k]);
            Sound(l, d') && SameHome(l, Recovered(l, d'), d)
  {
    var ws := CommitWrites(l, d, bl, vals)[..k];
    assert ws == LogWrites(l, vals)[..k];
    LogKeepsHome(l, d, ws);
    DoKeeps(d, ws, l.start);
    RecoverClean(l, Do(d, ws));
  }

  lemma CrashAfterHeader(l: Layout, d: Disk, bl: Header, vals: seq<Block>, k: nat)
    requires Sound(l, d) && Loggable(l, bl) && |bl| == |vals| && |bl| < k <= |CommitWrites(l, d, bl, vals)|
    ensures var d' := Do(d, CommitWrites(l, d, bl, vals)[..k]);
            Sound(l, d') && SameHome(l, Recovered(l, d'), Posted(l, d, bl, vals))
  {
    var ws1 := PrepareWrites(l, d, bl, vals);
    var d1 := Do(d, ws1);
    Prepared(l, d, bl, vals);
    CommitIsRecovery(l, d, bl, vals);
    var ws2 := RecoverWrites(l, d1)[..k - |ws1|];
    assert CommitWrites(l, d, bl, vals)[..k] == ws1 + ws2;
    DoAdds(d, ws1, ws2);
    RecoveryRestarts(l, d1, k - |ws1|);
    RecoveredHome(l, d1);
    DoSame(l, d1, d, InstallWrites(bl, vals));
  }

  // All or nothing: a commit that crashes after k writes recovers to the old home
  // blocks up to the write of the header, and to the new ones from there on.
  lemma CommitAtomic(l: Layout, d: Disk, bl: Header, vals: seq<Block>, k: nat)
    requires Sound(l, d) && Pending(l, d) == [] && Loggable(l, bl) && |bl| == |vals|
    requires k <= |CommitWrites(l, d, bl, vals)|
    ensures var d' := Do(d, CommitWrites(l, d, bl, vals)[..k]);
            Sound(l, d') && SameHome(l, Recovered(l, d'), if k <= |bl| then d else Posted(l, d, bl, vals))
  {
    if k <= |bl| {
      CrashBeforeHeader(l, d, bl, vals, k);
    } else {
      CrashAfterHeader(l, d, bl, vals, k);
    }
  }

  // What recovery makes of the home blocks: the logged contents installed.
  lemma RecoveredHome(l: Layout, d: Disk)
    requires Sound(l, d)
    ensures SameHome(l, Recovered(l, d), Do(d, InstallWrites(Pending(l, d), Logged(l, d))))
  {
    var ws := InstallWrites(Pending(l, d), Logged(l, d));
    var clear := [Write(l.start, PutHeader(d[l.start], []))];
    DoAdds(d, ws, clear);
    LogKeepsHome(l, Do(d, ws), clear);
  }

  // The same after any number of crashed recoveries and one that completes.
  lemma CommitSurvivesCrashes(l: Layout, d: Disk, bl: Header, vals: seq<Block>, k: nat, ks: seq<nat>)
    requires Sound(l, d) && Pending(l, d) == [] && Loggable(l, bl) && |bl| == |vals|
    requires k <= |CommitWrites(l, d, bl, vals)|
    ensures var d' := Do(d, CommitWrites(l, d, bl, vals)[..k]);
            Sound(l, d')
            && SameHome(l, Recovered(l, Crashed(l, d', ks)), if k <= |bl| then d else Posted(l, d, bl, vals))
  {
    CommitAtomic(l, d, bl, vals, k);
  }

  // A commit that is not interrupted installs the transaction and empties the log.
  lemma CommitCompletes(l: Layout, d: Disk, bl: Header, vals: seq<Block>)
    requires Sound(l, d) && Pending(l, d) == [] && Loggable(l, bl) && |bl| == |vals|
    ensures var d' := Do(d, CommitWrites(l, d, bl, vals));
            Sound(l, d') && Pending(l, d') == [] && SameHome(l, d', Posted(l, d, bl, vals))
  {
    var ws := CommitWrites(l, d, bl, vals);
    var d' := Do(d, ws);
    CommitAtomic(l, d, bl, vals, |ws|);
    assert ws[..|ws|] == ws;
    assert d'[l.start] == PutHeader(PutHeader(d[l.start], bl), []);
    RecoverClean(l, d');
  }

  // What a transaction on distinct blocks does to each block.
  lemma PostedAt(l: Layout, d: Disk, bl: seq<int>, vals: seq<Block>)
    requires Loggable(l, bl) && |bl| == |vals| && Distinct(bl)
    ensures forall i :: 0 <= i < |bl| ==> Posted(l, d, bl, vals)[bl[i]] == vals[i]
    ensures forall b :: 0 <= b < FSSIZE && b !in bl ==> Posted(l, d, bl, vals)[b] == d[b]
  {
    var ws := InstallWrites(bl, vals);
    forall i | 0 <= i < |bl|
      ensures Posted(l, d, bl, vals)[bl[i]] == vals[i]
    {
      DoLast(d, ws, i);
    }
    forall b | 0 <= b < FSSIZE && b !in bl
      ensures Posted(l, d, bl, vals)[b] == d[b]
    {
      DoKeeps(d, ws, b);
    }
  }
}
