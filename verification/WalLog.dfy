/** The log over the buffer cache.  Each routine is shown to do the block writes
    that WalRecovery attributes to it, in that order, and to need no more buffers
    than the cache has left, whatever buffers other processes have in the meantime. */
module WalLog {
  import opened Sequences
  import opened WalDisk
  import opened WalRecovery
  import opened WalCache

  // The blocks that log_write has recorded are the pinned ones.
  ghost predicate Recorded(lh: seq<int>, pinned: map<int, int>) {
    Distinct(lh) && forall b :: b in pinned <==> b in lh
  }

  lemma RecordedCount(lh: seq<int>, pinned: map<int, int>)
    requires Recorded(lh, pinned)
    ensures |pinned| == |lh|
  {
    BlocksCount(lh, pinned.Keys);
  }

  lemma BlocksCount(lh: seq<int>, blocks: set<int>)
    requires Distinct(lh) && forall b :: b in blocks <==> b in lh
    ensures |blocks| == |lh|
  {
    var s := set i | 0 <= i < |lh| :: lh[i];
    forall b
      ensures b in s <==> b in blocks
    {
      if b in lh {
        assert exists i :: 0 <= i < |lh| && lh[i] == b;
      }
    }
    assert s == blocks;
    DistinctCount(lh);
  }

  lemma {:induction false} DistinctCount(bl: seq<int>)
    requires Distinct(bl)
    ensures |set i | 0 <= i < |bl| :: bl[i]| == |bl|
  {
    if bl != [] {
      var k := |bl| - 1;
      DistinctCount(bl[..k]);
      var less := set i | 0 <= i < k :: bl[..k][i];
      assert forall i :: 0 <= i < k ==> bl[..k][i] == bl[i];
      assert (set i | 0 <= i < |bl| :: bl[i]) == less + {bl[k]};
    }
  }

  datatype LogResult = Accepted | TooBig | OutsideTransaction

  // What log_write's guard comes to; all but Accepted are panics.
  function LogOutcome(lh: seq<int>, outstanding: int, size: nat): LogResult {
    if |lh| >= LOGSIZE || |lh| >= size - 1 then TooBig
    else if outstanding < 1 then OutsideTransaction
    else Accepted
  }

  // What end_op comes to; all but Ended are panics.
  datatype EndResult = Ended | AlreadyCommitting | NoBuffers

  // Of the clean buffers, others have as many as held says.
  function EndOutcome(lh: seq<int>, outstanding: int, committing: bool, held: nat): EndResult {
    if committing then AlreadyCommitting
    else if outstanding == 1 && lh != [] && |lh| + held >= NBUF then NoBuffers
    else Ended
  }

  // A block that is already logged is absorbed.
  function Absorb(lh: seq<int>, b: int): seq<int> {
    if b in lh then lh else lh + [b]
  }

  // begin_op lets an operation in when it and those under way cannot fill the log.
  predicate MayBegin(n: nat, outstanding: int, committing: bool) {
    !committing && n + (outstanding + 1) * MAXOPBLOCKS <= LOGSIZE
  }

  class Log {
    const cache: BufferCache
    const layout: Layout
    var lh: Header
    var outstanding: int
    var committing: bool

    ghost predicate Valid()
      reads this, cache, cache.buf
    {
      && cache.Valid() && GoodLayout(layout)
      && HomeBlocks(layout, lh) && (layout.size <= 1 ==> lh == []) && Recorded(lh, cache.pinned)
    }

    // The log region has a block for each one that is logged, or else there is no buffer for the
    // first of them.
    ghost predicate Fits()
      reads this, cache, cache.buf
      requires cache.buf.Length == NBUF
    {
      |lh| < layout.size || !SomeUnused(cache.buf[..])
    }

    // Nothing is logged and nobody holds a buffer.
    constructor (cache: BufferCache, layout: Layout)
      requires cache.Valid() && Sound(layout, cache.disk) && cache.pinned == map[]
      ensures Valid() && this.cache == cache && this.layout == layout && lh == [] && outstanding == 0 && !committing
    {
      this.cache, this.layout := cache, layout;
      lh, outstanding, committing := [], 0, false;
    }

    // Two bread calls: a log block, then its home block.  With all buffers in use there is none
    // for the log block.
    method ReadBoth(logno: nat, homeno: nat) returns (lb: int, hb: int)
      requires cache.Valid() && logno < FSSIZE && homeno < FSSIZE && logno != homeno
      requires logno !in cache.pinned && !IsHeld(cache.buf[..], logno)
      requires homeno in cache.pinned || TwoUnused(cache.buf[..])
      modifies cache.buf
      ensures cache.Valid() && (lb == NONE <==> !SomeUnused(old(cache.buf[..])))
      ensures lb == NONE ==> cache.buf[..] == old(cache.buf[..])
      ensures lb != NONE ==> lb != hb && Has(cache.buf[..], lb, logno, cache.view[logno]) && Has(cache.buf[..], hb, homeno, cache.view[homeno])
      ensures lb != NONE ==> BothTaken(old(cache.buf[..]), cache.buf[..], lb, hb)
    {
      ghost var bs := cache.buf[..];
      RoomExactly(bs, cache.view, cache.disk, cache.pinned);
      FindsExactly(bs, cache.view, cache.disk, cache.pinned, logno);
      lb := cache.Bread(logno);
      if lb == NONE {
        hb := NONE;
        return;
      }
      ghost var bs1 := cache.buf[..];
      if homeno in cache.pinned {
        assert PinnedAt(bs1, cache.pinned, homeno);
      } else {
        OneMore(bs, bs1, lb);
      }
      hb := cache.Bread(homeno);
      assert bs1[lb].blockno == logno;
    }

    // read_head
    method ReadHead()
      requires cache.Valid() && cache.pinned == map[] && Idle(cache.buf[..]) && Sound(layout, cache.disk)
      modifies this`lh, cache`ring, cache`at, cache.buf
      ensures cache.Valid() && Idle(cache.buf[..]) && lh == Pending(layout, cache.disk)
    {
      IdleUnused(cache.buf[..], cache.view, cache.disk);
      var b := cache.Bread(layout.start);
      var h := cache.buf[b].data;
      lh := [];
      var i := 0;
      while i < h[0]
        invariant 0 <= i <= h[0] <= LOGSIZE
        invariant lh == h[1..i + 1]
        modifies this`lh
      {
        lh := lh + [h[i + 1]];
        i := i + 1;
      }
      cache.Brelse(b);
    }

    // write_head
    method WriteHead()
      requires cache.Valid() && GoodLayout(layout) && SomeUnused(cache.buf[..]) && layout.start !in cache.pinned
      modifies cache, cache.buf
      ensures cache.Valid() && Rests(old(cache.buf[..]), cache.buf[..]) && cache.pinned == old(cache.pinned)
      ensures var w := Write(layout.start, PutHeader(old(cache.view[layout.start]), lh));
              cache.writes == old(cache.writes) + [w] && cache.view == old(cache.view)[layout.start := w.data]
    {
      var b := cache.Bread(layout.start);
      var hb := FillHeader(cache.buf[b].data, lh);
      cache.Bwrite(b, hb);
      cache.Brelse(b);
    }

    // write_log; false where the kernel panics for want of a buffer, at the first block.
    method WriteLog() returns (ok: bool)
      requires Valid() && AtHome(cache.buf[..], layout) && Fits()
      modifies cache, cache.buf
      ensures Valid() && Rests(old(cache.buf[..]), cache.buf[..]) && cache.pinned == old(cache.pinned)
      ensures ok <==> lh == [] || SomeUnused(old(cache.buf[..]))
      ensures !ok ==> cache.writes == old(cache.writes) && cache.view == old(cache.view)
      ensures var ws := LogWrites(layout, Contents(lh, old(cache.view)));
              ok ==> OnDisk(ws) && cache.writes == old(cache.writes) + ws && cache.view == Do(old(cache.view), ws)
    {
      ghost var view, writes, pinned, bs := cache.view, cache.writes, cache.pinned, cache.buf[..];
      ghost var ws := LogWrites(layout, Contents(lh, view));
      var tail := 0;
      ok := true;
      assert ws[..0] == [] && ws[..|lh|] == ws;
      while ok && tail < |lh|
        invariant 0 <= tail <= |lh| && Logging(tail, view, writes, pinned, bs)
        invariant tail == 0 ==> cache.buf[..] == bs
        invariant if ok then tail > 0 ==> SomeUnused(bs) else tail == 0 && lh != [] && !SomeUnused(bs)
        decreases ok, |lh| - tail
      {
        if tail > 0 {
          RestsRoom(bs, cache.buf[..]);
        }
        ok := LogNext(tail, view, writes, pinned, bs);
        if ok {
          tail := tail + 1;
        }
      }
    }

    // The first tail blocks have been logged since the cache showed view.
    ghost predicate Logging(tail: nat, view: Disk, writes: seq<Write>, pinned: map<int, int>, bs: Buffers)
      reads this, cache, cache.buf
    {
      && tail <= |lh| && Valid() && Rests(bs, cache.buf[..]) && AtHome(bs, layout) && cache.pinned == pinned
      && var ws := LogWrites(layout, Contents(lh, view))[..tail];
         OnDisk(ws) && cache.writes == writes + ws && cache.view == Do(view, ws)
    }

    // One round of write_log.
    method LogNext(tail: nat, ghost view: Disk, ghost writes: seq<Write>, ghost pinned: map<int, int>, ghost bs: Buffers) returns (ok: bool)
      requires tail < |lh| && Logging(tail, view, writes, pinned, bs) && tail + 1 < layout.size && Fits()
      modifies cache, cache.buf
      ensures ok <==> SomeUnused(old(cache.buf[..]))
      ensures !ok ==> cache.buf[..] == old(cache.buf[..])
      ensures Logging(if ok then tail + 1 else tail, view, writes, pinned, bs)
    {
      ghost var ws := LogWrites(layout, Contents(lh, view));
      ghost var bs1 := cache.buf[..];
      DoKeeps(view, ws[..tail], lh[tail]);
      if |lh| < layout.size {
        OneWriteMore(view, ws, tail);
      }
      RestsAtHome(bs, bs1, layout);
      ok := LogOne(tail);
      RestsOn(bs, bs1, cache.buf[..]);
      assert ws[tail] == Write(layout.start + 1 + tail, view[lh[tail]]);
    }

    // Its two breads, memmove, bwrite and the two brelses.
    method LogOne(tail: nat) returns (ok: bool)
      requires Valid() && AtHome(cache.buf[..], layout) && tail < |lh| && tail + 1 < layout.size
      modifies cache, cache.buf
      ensures Valid() && Rests(old(cache.buf[..]), cache.buf[..]) && cache.pinned == old(cache.pinned)
      ensures ok <==> SomeUnused(old(cache.buf[..]))
      ensures !ok ==> cache.writes == old(cache.writes) && cache.view == old(cache.view) && cache.buf[..] == old(cache.buf[..])
      ensures var w := Write(layout.start + 1 + tail, old(cache.view[lh[tail]]));
              ok ==> cache.writes == old(cache.writes) + [w] && cache.view == old(cache.view)[w.blockno := w.data]
    {
      assert layout.start + tail + 1 !in lh;
      var to, from := ReadBoth(layout.start + tail + 1, lh[tail]);
      if to == NONE {
        return false;
      }
      ghost var bs1 := cache.buf[..];
      CopyOut(to, from, layout.start + tail + 1);
      TakenReturned(old(cache.buf[..]), bs1, cache.buf[..], from, to);
      assert cache.pinned == old(cache.pinned);
      ok := true;
    }

    // memmove from the one buffer to the other, bwrite, and both brelse.
    method CopyOut(to: int, from: int, ghost b: int)
      requires cache.Valid() && 0 <= from < NBUF && to != from && 0 <= b < FSSIZE
      requires Has(cache.buf[..], to, b, cache.view[b]) && cache.buf[from].refcnt > 0
      modifies cache, cache.buf
      ensures cache.Valid() && BothReturned(old(cache.buf[..]), cache.buf[..], to, from) && cache.pinned == old(cache.pinned) - {b}
      ensures var w := Write(b, old(cache.buf[from].data));
              cache.writes == old(cache.writes) + [w] && cache.view == old(cache.view)[b := w.data]
    {
      cache.Bwrite(to, cache.buf[from].data);
      ghost var bs := cache.buf[..];
      cache.Brelse(from);
      assert cache.buf[to] == bs[to];
      cache.Brelse(to);
    }

    // install_trans; in commit the home blocks are pinned, in recovery nothing is.
    method InstallTrans(ghost commit: bool)
      requires cache.Valid() && GoodLayout(layout) && Loggable(layout, lh) && AtHome(cache.buf[..], layout)
      requires Ready(lh, commit, cache.pinned, cache.buf[..])
      modifies cache, cache.buf
      ensures cache.Valid() && Rests(old(cache.buf[..]), cache.buf[..]) && cache.pinned == map[]
      ensures var ws := InstallWrites(lh, LogContents(layout, |lh|, old(cache.view)));
              OnDisk(ws) && cache.writes == old(cache.writes) + ws && cache.view == Do(old(cache.view), ws)
    {
      ghost var view, writes, bs := cache.view, cache.writes, cache.buf[..];
      ghost var ws := InstallWrites(lh, LogContents(layout, |lh|, view));
      var tail := 0;
      assert ws[..0] == [] && lh[0..] == lh;
      while tail < |lh|
        invariant 0 <= tail <= |lh|
        invariant Installing(tail, commit, view, writes, bs)
      {
        InstallOne(tail, commit, view, writes, bs);
        tail := tail + 1;
      }
      assert ws[..|lh|] == ws;
      RecordedNone(lh[tail..], cache.pinned);
    }

    // The first tail blocks have been installed since the cache showed view.
    ghost predicate Installing(tail: nat, commit: bool, view: Disk, writes: seq<Write>, bs: Buffers)
      reads this, cache, cache.buf
    {
      && tail <= |lh| && GoodLayout(layout) && Loggable(layout, lh)
      && cache.Valid() && Rests(bs, cache.buf[..]) && AtHome(bs, layout) && Ready(lh[tail..], commit, cache.pinned, bs)
      && var ws := InstallWrites(lh, LogContents(layout, |lh|, view))[..tail];
         OnDisk(ws) && cache.writes == writes + ws && cache.view == Do(view, ws)
    }

    // One round of install_trans.
    method InstallOne(tail: nat, ghost commit: bool, ghost view: Disk, ghost writes: seq<Write>, ghost bs: Buffers)
      requires tail < |lh| && Installing(tail, commit, view, writes, bs)
      modifies cache, cache.buf
      ensures Installing(tail + 1, commit, view, writes, bs)
    {
      ghost var ws := InstallWrites(lh, LogContents(layout, |lh|, view));
      ghost var bs1 := cache.buf[..];
      DoKeeps(view, ws[..tail], layout.start + tail + 1);
      OneWriteMore(view, ws, tail);
      ReadyStill(lh[tail..], commit, cache.pinned, bs, bs1);
      RestsAtHome(bs, bs1, layout);
      CopyHome(tail, commit);
      RestsOn(bs, bs1, cache.buf[..]);
      assert lh[tail..][1..] == lh[tail + 1..];
      assert ws[tail] == Write(lh[tail], view[layout.start + 1 + tail]);
    }

    method CopyHome(tail: nat, ghost commit: bool)
      requires cache.Valid() && GoodLayout(layout) && Loggable(layout, lh) && AtHome(cache.buf[..], layout) && tail < |lh|
      requires Ready(lh[tail..], commit, cache.pinned, cache.buf[..])
      modifies cache, cache.buf
      ensures cache.Valid() && Rests(old(cache.buf[..]), cache.buf[..])
      ensures Pins(lh[tail..][1..], commit, cache.pinned)
      ensures var w := Write(lh[tail], old(cache.view[layout.start + 1 + tail]));
              cache.writes == old(cache.writes) + [w] && cache.view == old(cache.view)[w.blockno := w.data]
    {
      ghost var bs := cache.buf[..];
      FirstOf(layout, lh, tail, commit, cache.pinned);
      var lbuf, dbuf := ReadBoth(layout.start + tail + 1, lh[tail]);
      ghost var bs1 := cache.buf[..];
      CopyOut(dbuf, lbuf, lh[tail]);
      TakenReturned(bs, bs1, cache.buf[..], lbuf, dbuf);
    }

    // commit: every block that was logged reaches its home, by the writes that
    // WalRecovery proves atomic.  False where the kernel panics with "bget: no buffers":
    // exactly if something is logged and no buffer is left, and before any write.
    method Commit() returns (ok: bool)
      requires Valid() && AtHome(cache.buf[..], layout) && Fits()
      requires Sound(layout, cache.disk) && Pending(layout, cache.disk) == []
      modifies this`lh, cache, cache.buf
      ensures Valid() && Rests(old(cache.buf[..]), cache.buf[..]) && Sound(layout, cache.disk) && Pending(layout, cache.disk) == []
      ensures ok <==> old(lh) == [] || SomeUnused(old(cache.buf[..]))
      ensures !ok ==> lh == old(lh) && cache.writes == old(cache.writes) && cache.view == old(cache.view)
      ensures ok ==> lh == [] && cache.pinned == map[] && SameHome(layout, cache.disk, old(cache.view))
      ensures old(lh) == [] ==> cache.writes == old(cache.writes)
      ensures ok && old(lh) != [] ==>
                Loggable(layout, old(lh)) &&
                cache.writes == old(cache.writes) + CommitWrites(layout, old(cache.disk), old(lh), Contents(old(lh), old(cache.view)))
    {
      ok := true;
      if |lh| > 0 {
        ok := CommitLogged();
      } else {
        RecordedNone(lh, cache.pinned);
      }
    }

    method CommitLogged() returns (ok: bool)
      requires Valid() && AtHome(cache.buf[..], layout) && Fits() && lh != []
      requires Sound(layout, cache.disk) && Pending(layout, cache.disk) == []
      modifies this`lh, cache, cache.buf
      ensures Valid() && Rests(old(cache.buf[..]), cache.buf[..]) && Sound(layout, cache.disk) && Pending(layout, cache.disk) == []
      ensures ok <==> SomeUnused(old(cache.buf[..]))
      ensures !ok ==> lh == old(lh) && cache.writes == old(cache.writes) && cache.view == old(cache.view)
      ensures ok ==> lh == [] && cache.pinned == map[] && SameHome(layout, cache.disk, old(cache.view))
      ensures ok ==>
                Loggable(layout, old(lh)) &&
                cache.writes == old(cache.writes) + CommitWrites(layout, old(cache.disk), old(lh), Contents(old(lh), old(cache.view)))
    {
      ghost var writes, view, bl, bs := cache.writes, cache.view, lh, cache.buf[..];
      if |lh| < layout.size {
        CommitJoins(layout, cache.disk, view, bl, writes);
        CommitDone(layout, cache.first, writes, view, bl);
      }
      ok := Prepare();
      if ok {
        ghost var bs1 := cache.buf[..];
        RestsRoom(bs, bs1);
        RestsAtHome(bs, bs1, layout);
        InstallAndClear(true);
        RestsOn(bs, bs1, cache.buf[..]);
      }
    }

    // The first two calls of commit.
    method Prepare() returns (ok: bool)
      requires Valid() && AtHome(cache.buf[..], layout) && Fits() && lh != []
      modifies cache, cache.buf
      ensures Valid() && Rests(old(cache.buf[..]), cache.buf[..]) && cache.pinned == old(cache.pinned)
      ensures ok <==> SomeUnused(old(cache.buf[..]))
      ensures !ok ==> cache.writes == old(cache.writes) && cache.view == old(cache.view)
      ensures ok ==> Loggable(layout, lh) && cache.view == PreparedView(layout, old(cache.view), lh)
      ensures ok ==> cache.writes == old(cache.writes) + PrepareWrites(layout, old(cache.view), lh, Contents(lh, old(cache.view)))
    {
      ghost var view, bs := cache.view, cache.buf[..];
      if |lh| < layout.size {
        CommitViews(layout, view, lh);
      }
      ok := WriteLog();
      if ok {
        ghost var bs1 := cache.buf[..];
        RestsRoom(bs, bs1);
        WriteHead();
        RestsOn(bs, bs1, cache.buf[..]);
      }
    }

    // The rest of commit, and of recovery.
    method InstallAndClear(ghost commit: bool)
      requires cache.Valid() && GoodLayout(layout) && Loggable(layout, lh) && AtHome(cache.buf[..], layout)
      requires Ready(lh, commit, cache.pinned, cache.buf[..])
      modifies this`lh, cache, cache.buf
      ensures Valid() && Rests(old(cache.buf[..]), cache.buf[..]) && lh == [] && cache.pinned == map[]
      ensures var ws := InstallWrites(old(lh), LogContents(layout, |old(lh)|, old(cache.view)));
              cache.writes == old(cache.writes) + (ws + [Write(layout.start, PutHeader(old(cache.view[layout.start]), []))])
    {
      ghost var bs := cache.buf[..];
      DoKeeps(cache.view, InstallWrites(lh, LogContents(layout, |lh|, cache.view)), layout.start);
      InstallTrans(commit);
      ghost var bs1 := cache.buf[..];
      lh := [];
      RestsRoom(bs, bs1);
      WriteHead();
      RestsOn(bs, bs1, cache.buf[..]);
    }

    // recover_from_log
    method RecoverFromLog()
      requires cache.Valid() && Idle(cache.buf[..]) && cache.pinned == map[] && Sound(layout, cache.disk)
      modifies this`lh, cache, cache.buf
      ensures Valid() && Idle(cache.buf[..]) && lh == []
      ensures cache.writes == old(cache.writes) + RecoverWrites(layout, old(cache.disk))
      ensures cache.disk == Recovered(layout, old(cache.disk)) && cache.view == cache.disk
    {
      ghost var disk, writes := cache.disk, cache.writes;
      assert cache.view == disk;
      ReadHead();
      assert LogContents(layout, |lh|, disk) == Logged(layout, disk);
      IdleUnused(cache.buf[..], cache.view, cache.disk);
      InstallAndClear(false);
      DoAdds(cache.first, writes, RecoverWrites(layout, disk));
      assert cache.view == cache.disk;
    }

    // What log_write tests before it takes the lock.
    method LogGuard() returns (res: LogResult)
      ensures res == LogOutcome(lh, outstanding, layout.size)
      ensures res == TooBig <==> |lh| >= 30 || |lh| + 1 >= layout.size
      ensures res == OutsideTransaction <==> outstanding < 1 && |lh| < 30 && |lh| + 1 < layout.size
      ensures res == Accepted ==> outstanding >= 1
    {
      if |lh| >= LOGSIZE || |lh| >= layout.size - 1 {
        return TooBig;
      }
      if outstanding < 1 {
        return OutsideTransaction;
      }
      return Accepted;
    }

    // What log_write does under the lock, to a buffer whose data its holder has changed; others may
    // have logged blocks since the guard.
    method LogAppend(r: int, data: Block)
      requires Valid() && 0 <= r < NBUF && cache.buf[r].valid && cache.buf[r].refcnt > 0
      requires IsHome(layout, cache.buf[r].blockno) && layout.size > 1 && (cache.buf[r].blockno in lh || |lh| < LOGSIZE)
      modifies this`lh, cache`view, cache`pinned, cache.buf
      ensures Valid()
      ensures var b := old(cache.buf[r].blockno);
              lh == Absorb(old(lh), b) && cache.view == old(cache.view)[b := data] && cache.pinned == old(cache.pinned)[b := r]
      ensures cache.buf[..] == old(cache.buf[..])[r := old(cache.buf[r]).(data := data, dirty := true)]
      ensures old(lh) <= lh && (if old(cache.buf[r].blockno) in old(lh) then |lh| == |old(lh)| else |lh| == |old(lh)| + 1)
    {
      var b := cache.buf[r].blockno;
      var i := 0;
      while i < |lh| && lh[i] != b
        invariant 0 <= i <= |lh| && b !in lh[..i]
      {
        i := i + 1;
      }
      assert b in lh <==> i < |lh|;
      if i == |lh| {
        lh := lh + [b];
      }
      cache.Pin(r, data);
    }

    // log_write with nobody in between.
    method LogWrite(r: int, data: Block) returns (res: LogResult)
      requires Valid() && 0 <= r < NBUF && cache.buf[r].valid && cache.buf[r].refcnt > 0
      requires IsHome(layout, cache.buf[r].blockno)
      modifies this`lh, cache`view, cache`pinned, cache.buf
      ensures Valid()
      ensures res == LogOutcome(old(lh), outstanding, layout.size)
      ensures res == TooBig <==> |old(lh)| >= 30 || |old(lh)| + 1 >= layout.size
      ensures res == OutsideTransaction <==> outstanding < 1 && |old(lh)| < 30 && |old(lh)| + 1 < layout.size
      ensures res == Accepted ==> outstanding >= 1 && old(cache.buf[r].blockno) in lh
      ensures res != Accepted ==> lh == old(lh) && cache.view == old(cache.view) && cache.buf[..] == old(cache.buf[..])
      ensures var b := old(cache.buf[r].blockno);
              res == Accepted ==> lh == Absorb(old(lh), b) && cache.view == old(cache.view)[b := data] && cache.buf[r].dirty
    {
      res := LogGuard();
      if res == Accepted {
        LogAppend(r, data);
      }
    }

    // One round of begin_op's loop: false where it sleeps.
    method TryBeginOp() returns (entered: bool)
      modifies this`outstanding
      ensures entered <==> MayBegin(|lh|, old(outstanding), committing)
      ensures entered <==> !committing && |lh| + 10 * (old(outstanding) + 1) <= 30
      ensures outstanding == old(outstanding) + (if entered then 1 else 0)
    {
      if committing {
        return false;
      }
      if |lh| + (outstanding + 1) * MAXOPBLOCKS > LOGSIZE {
        return false;
      }
      outstanding := outstanding + 1;
      return true;
    }

    // end_op
    method EndOp() returns (res: EndResult)
      requires Valid() && outstanding >= 1 && Sound(layout, cache.disk) && Pending(layout, cache.disk) == []
      requires outstanding == 1 ==> AtHome(cache.buf[..], layout) && Fits()
      modifies this, cache, cache.buf
      ensures res == EndOutcome(old(lh), old(outstanding), old(committing), old(HeldClean(cache.buf[..], NBUF)))
      ensures res == AlreadyCommitting <==> old(committing)
      ensures res == NoBuffers <==>
                !old(committing) && old(outstanding) == 1 && |old(lh)| > 0 && |old(lh)| + old(HeldClean(cache.buf[..], NBUF)) >= NBUF
      ensures Rests(old(cache.buf[..]), cache.buf[..])
      ensures res == Ended ==> Valid() && !committing && outstanding == old(outstanding) - 1
      ensures res != Ended || outstanding > 0 ==>
                lh == old(lh) && cache.writes == old(cache.writes) && cache.view == old(cache.view)
      ensures res == Ended && outstanding == 0 ==> lh == [] && SameHome(layout, cache.disk, old(cache.view))
    {
      var last;
      res, last := LeaveOp();
      if last {
        RecordedCount(lh, cache.pinned);
        RoomExactly(cache.buf[..], cache.view, cache.disk, cache.pinned);
        var ok := Commit();
        if !ok {
          return NoBuffers;
        }
        committing := false;
      }
    }

    // What end_op does under the lock: nobody else comes in while the last one out commits.
    method LeaveOp() returns (res: EndResult, last: bool)
      modifies this`outstanding, this`committing
      ensures outstanding == old(outstanding) - 1
      ensures res == if old(committing) then AlreadyCommitting else Ended
      ensures last <==> !old(committing) && outstanding == 0
      ensures committing <==> old(committing) || last
    {
      outstanding := outstanding - 1;
      if committing {
        return AlreadyCommitting, false;
      }
      last := outstanding == 0;
      if last {
        committing := true;
      }
      res := Ended;
    }
  }

  // The contents of the first n logged blocks.
  function LogContents(l: Layout, n: nat, view: Disk): (vals: seq<Block>)
    requires GoodLayout(l) && n < l.size
    ensures |vals| == n
  {
    seq(n, i requires 0 <= i < n => view[l.start + 1 + i])
  }

  // The home block whose turn it is in install_trans is pinned, in a commit; its log block is not.
  lemma FirstOf(l: Layout, bl: seq<int>, k: nat, commit: bool, pinned: map<int, int>)
    requires Loggable(l, bl) && k < |bl| && Pins(bl[k..], commit, pinned)
    ensures (commit ==> bl[k] in pinned) && l.start + k + 1 !in pinned
    ensures Pins(bl[k..][1..], commit, pinned - {bl[k]})
  {
    assert bl[k..][0] == bl[k];
    if commit {
      assert bl[k] in bl[k..];
      assert l.start + k + 1 !in bl[k..];
      RecordedRest(bl[k..], pinned);
    }
  }

  // In a commit these blocks are the pinned ones; in recovery nothing is pinned.
  ghost predicate Pins(bl: seq<int>, commit: bool, pinned: map<int, int>) {
    if commit then Recorded(bl, pinned) else pinned == map[]
  }

  // There is a buffer for a log block, and for its home block unless that is pinned.
  ghost predicate Ready(bl: seq<int>, commit: bool, pinned: map<int, int>, bs: Buffers) {
    Pins(bl, commit, pinned) && SomeUnused(bs) && (commit || TwoUnused(bs))
  }

  predicate TwoUnused(bs: Buffers) {
    exists i, j :: 0 <= i < j < NBUF && Unused(bs, i) && Unused(bs, j)
  }

  lemma ReadyStill(bl: seq<int>, commit: bool, pinned: map<int, int>, bs: Buffers, bs': Buffers)
    requires Ready(bl, commit, pinned, bs) && Rests(bs, bs')
    ensures Ready(bl, commit, pinned, bs')
  {
    RestsRoom(bs, bs');
    if !commit {
      var i, j :| 0 <= i < j < NBUF && Unused(bs, i) && Unused(bs, j);
      assert SameHolders(bs[i], bs'[i]) && SameHolders(bs[j], bs'[j]);
      assert Unused(bs', i) && Unused(bs', j);
    }
  }

  lemma RecordedNone(bl: seq<int>, pinned: map<int, int>)
    requires bl == [] && (pinned == map[] || Recorded(bl, pinned))
    ensures pinned == map[]
  {
    forall b
      ensures b !in pinned
    {
      if pinned != map[] {
        assert b in pinned <==> b in bl;
      }
    }
    assert pinned.Keys == {};
  }

  lemma RecordedRest(bl: seq<int>, pinned: map<int, int>)
    requires Recorded(bl, pinned) && bl != []
    ensures Recorded(bl[1..], pinned - {bl[0]})
  {
    forall b
      ensures b in pinned - {bl[0]} <==> b in bl[1..]
    {
      if b in bl {
        var i :| 0 <= i < |bl| && bl[i] == b;
        assert i > 0 ==> bl[1..][i - 1] == b;
      }
    }
  }

  // What the cache shows when the log and its header are written.
  function PreparedView(l: Layout, view: Disk, bl: Header): Disk
    requires GoodLayout(l) && Loggable(l, bl)
  {
    Do(view, LogWrites(l, Contents(bl, view)))[l.start := PutHeader(view[l.start], bl)]
  }

  lemma CommitViews(l: Layout, view: Disk, bl: Header)
    requires GoodLayout(l) && Loggable(l, bl)
    ensures Do(view, LogWrites(l, Contents(bl, view)))[l.start] == view[l.start]
    ensures LogContents(l, |bl|, PreparedView(l, view, bl)) == Contents(bl, view)
  {
    var ws := LogWrites(l, Contents(bl, view));
    DoKeeps(view, ws, l.start);
    forall i | 0 <= i < |bl|
      ensures PreparedView(l, view, bl)[l.start + 1 + i] == Contents(bl, view)[i]
    {
      DoLast(view, ws, i);
    }
  }

  // The writes of the two halves, put together.
  lemma CommitJoins(l: Layout, d: Disk, view: Disk, bl: Header, writes: seq<Write>)
    requires GoodLayout(l) && Loggable(l, bl) && d[l.start] == view[l.start]
    ensures var view2 := PreparedView(l, view, bl);
            (writes + PrepareWrites(l, view, bl, Contents(bl, view)))
            + (InstallWrites(bl, LogContents(l, |bl|, view2)) + [Write(l.start, PutHeader(view2[l.start], []))])
            == writes + CommitWrites(l, d, bl, Contents(bl, view))
  {
    CommitViews(l, view, bl);
  }

  // After a commit the home blocks are what the cache showed before it.
  lemma CommitDone(l: Layout, first: Disk, writes: seq<Write>, view: Disk, bl: Header)
    requires OnDisk(writes) && Loggable(l, bl) && Distinct(bl)
    requires var d := Do(first, writes);
             Sound(l, d) && Pending(l, d) == [] && forall b :: 0 <= b < FSSIZE && b !in bl ==> view[b] == d[b]
    ensures var ws := CommitWrites(l, Do(first, writes), bl, Contents(bl, view));
            var d' := Do(first, writes + ws);
            OnDisk(writes + ws) && Sound(l, d') && Pending(l, d') == [] && SameHome(l, d', view)
  {
    var d, vals := Do(first, writes), Contents(bl, view);
    DoAdds(first, writes, CommitWrites(l, d, bl, vals));
    CommitCompletes(l, d, bl, vals);
    PostedAt(l, d, bl, vals);
    var d' := Do(first, writes + CommitWrites(l, d, bl, vals));
    forall b | IsHome(l, b)
      ensures d'[b] == view[b]
    {
      if b in bl {
        var i :| 0 <= i < |bl| && bl[i] == b;
        assert Posted(l, d, bl, vals)[bl[i]] == vals[i];
      }
    }
  }

  lemma OneWriteMore(d: Disk, ws: seq<Write>, k: nat)
    requires OnDisk(ws) && k < |ws|
    ensures ws[..k + 1] == ws[..k] + [ws[k]]
    ensures Do(d, ws[..k + 1]) == Do(d, ws[..k])[ws[k].blockno := ws[k].data]
  {
    assert ws[..k + 1][..k] == ws[..k];
  }

  // What the cache shows of the listed blocks.
  function Contents(bl: seq<int>, view: Disk): (vals: seq<Block>)
    requires forall i :: 0 <= i < |bl| ==> 0 <= bl[i] < FSSIZE
    ensures |vals| == |bl|
  {
    seq(|bl|, i requires 0 <= i < |bl| => view[bl[i]])
  }

  // The header block as write_head fills it in.
  method FillHeader(h: Block, lh: Header) returns (hb: Block)
    ensures hb == PutHeader(h, lh)
  {
    hb := h[0 := |lh|];
    var i := 0;
    while i < |lh|
      invariant 0 <= i <= |lh|
      invariant hb[..i + 1] == [|lh|] + lh[..i] && hb[i + 1..] == h[i + 1..]
    {
      ghost var was := hb;
      hb := hb[i + 1 := lh[i]];
      assert hb[..i + 2] == was[..i + 1] + [lh[i]];
      assert hb[i + 2..] == was[i + 1..][1..];
      i := i + 1;
    }
    assert hb == hb[..i + 1] + hb[i + 1..];
  }

  // Somebody has buffer i, for block b with contents data.
  ghost predicate Has(bs: Buffers, i: int, b: int, data: Block) {
    0 <= i < NBUF && bs[i].blockno == b && bs[i].refcnt > 0 && bs[i].valid && bs[i].data == data
  }

  // Nobody has a block of the log.
  ghost predicate AtHome(bs: Buffers, l: Layout) {
    forall i :: 0 <= i < NBUF && bs[i].refcnt > 0 ==> !InLog(l, bs[i].blockno)
  }

  lemma RestsAtHome(bs: Buffers, bs': Buffers, l: Layout)
    requires Rests(bs, bs') && AtHome(bs, l)
    ensures AtHome(bs', l)
  {
    forall i | 0 <= i < NBUF && bs'[i].refcnt > 0
      ensures !InLog(l, bs'[i].blockno)
    {
      assert SameHolders(bs[i], bs'[i]);
    }
  }

  predicate TakenOnce(x: Buf, x': Buf) {
    x'.refcnt == x.refcnt + 1 && (x.refcnt > 0 ==> x'.blockno == x.blockno) && (x'.dirty ==> x.dirty)
  }

  predicate BothTaken(bs: Buffers, bs': Buffers, x: int, y: int) {
    && 0 <= x < NBUF && 0 <= y < NBUF && TakenOnce(bs[x], bs'[x]) && TakenOnce(bs[y], bs'[y])
    && forall i :: 0 <= i < NBUF && i != x && i != y ==> bs'[i] == bs[i]
  }

  predicate ReturnedOnce(x: Buf, x': Buf) {
    x'.refcnt + 1 == x.refcnt && x'.blockno == x.blockno && (x'.dirty ==> x.dirty)
  }

  predicate BothReturned(bs: Buffers, bs': Buffers, x: int, y: int) {
    && 0 <= x < NBUF && 0 <= y < NBUF && ReturnedOnce(bs[x], bs'[x]) && ReturnedOnce(bs[y], bs'[y])
    && forall i :: 0 <= i < NBUF && i != x && i != y ==> bs'[i] == bs[i]
  }

  lemma TakenReturned(bs: Buffers, bs1: Buffers, bs2: Buffers, x: int, y: int)
    requires BothTaken(bs, bs1, x, y) && BothReturned(bs1, bs2, y, x)
    ensures Rests(bs, bs2)
  {
  }

  // With two buffers to recycle and one of them taken, the other is left.
  lemma OneMore(bs: Buffers, bs': Buffers, r: int)
    requires TwoUnused(bs) && 0 <= r < NBUF && forall i :: 0 <= i < NBUF && i != r ==> bs'[i] == bs[i]
    ensures SomeUnused(bs')
  {
    var i, j :| 0 <= i < j < NBUF && Unused(bs, i) && Unused(bs, j);
    assert Unused(bs', if r == i then j else i);
  }

  lemma IdleUnused(bs: Buffers, view: Disk, disk: Disk)
    requires Idle(bs) && Consistent(bs, view, disk, map[])
    ensures TwoUnused(bs) && SomeUnused(bs)
  {
    assert Shows(bs, 0, view, map[]) && Shows(bs, 1, view, map[]);
    assert Unused(bs, 0) && Unused(bs, 1);
  }
}
