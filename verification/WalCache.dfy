/** The buffer cache.  The ring of buffers, most recently released first, is a
    sequence of buffer numbers; a buffer not yet given to a block has block number
    NONE.  A buffer is locked from bread to brelse, so a caller's change of its data
    and the bwrite or log_write after it are one operation here. */
module WalCache {
  import opened Sequences
  import opened WalDisk

  const NBUF := 30
  const NONE := -1

  datatype Buf = Buf(valid: bool, dirty: bool, blockno: int, refcnt: nat, data: Block)

  type Buffers = bs: seq<Buf> | |bs| == NBUF witness seq(NBUF, _ => Buf(false, false, NONE, 0, ZeroBlock))

  predicate Cached(bs: Buffers, b: int) {
    exists i :: 0 <= i < NBUF && bs[i].blockno == b
  }

  predicate Unused(bs: Buffers, i: int)
    requires 0 <= i < NBUF
  {
    bs[i].refcnt == 0 && !bs[i].dirty
  }

  predicate SomeUnused(bs: Buffers) {
    exists i :: 0 <= i < NBUF && Unused(bs, i)
  }

  predicate Idle(bs: Buffers) {
    forall i :: 0 <= i < NBUF ==> bs[i].refcnt == 0
  }

  // A block has at most one buffer.
  predicate OneBufferEach(bs: Buffers) {
    forall i, j :: 0 <= i < j < NBUF && bs[i].blockno != NONE ==> bs[i].blockno != bs[j].blockno
  }

  // Buffer i shows the contents that view gives its block; it is dirty exactly
  // when pinned names it as the buffer of its block.
  predicate Shows(bs: Buffers, i: int, view: Disk, pinned: map<int, int>)
    requires 0 <= i < NBUF
  {
    && NONE <= bs[i].blockno < FSSIZE
    && (bs[i].valid ==> bs[i].blockno != NONE && bs[i].data == view[bs[i].blockno])
    && (bs[i].dirty ==> bs[i].valid && bs[i].blockno in pinned && pinned[bs[i].blockno] == i)
  }

  predicate PinnedAt(bs: Buffers, pinned: map<int, int>, b: int)
    requires b in pinned
  {
    0 <= pinned[b] < NBUF && bs[pinned[b]].blockno == b && bs[pinned[b]].dirty
  }

  // What bread shows of a block that is not pinned is what the disk holds.
  predicate Consistent(bs: Buffers, view: Disk, disk: Disk, pinned: map<int, int>) {
    && OneBufferEach(bs)
    && (forall i :: 0 <= i < NBUF ==> Shows(bs, i, view, pinned))
    && (forall b :: b in pinned ==> PinnedAt(bs, pinned, b))
    && (forall b :: 0 <= b < FSSIZE && b !in pinned ==> view[b] == disk[b])
  }

  predicate IsRing(ring: seq<int>, at: seq<int>) {
    && |ring| == NBUF && |at| == NBUF
    && (forall k :: 0 <= k < NBUF ==> 0 <= ring[k] < NBUF && at[ring[k]] == k)
    && (forall i :: 0 <= i < NBUF ==> 0 <= at[i] < NBUF && ring[at[i]] == i)
  }

  class BufferCache {
    const buf: array<Buf>
    var ring: seq<int>
    var disk: Disk
    ghost var at: seq<int>           // where in the ring each buffer is
    ghost const first: Disk          // the disk at the start
    ghost var writes: seq<Write>     // every block write since
    ghost var view: Disk             // what bread shows of each block
    ghost var pinned: map<int, int>  // the dirty blocks and their buffers

    ghost predicate Valid()
      reads this, buf
    {
      && buf.Length == NBUF
      && IsRing(ring, at)
      && Consistent(buf[..], view, disk, pinned)
      && OnDisk(writes) && disk == Do(first, writes)
    }

    constructor (disk: Disk)
      ensures Valid() && fresh(buf) && this.disk == disk && first == disk && writes == []
      ensures view == disk && pinned == map[] && Idle(buf[..])
    {
      buf := new Buf[NBUF](_ => Buf(false, false, NONE, 0, ZeroBlock));
      ring, at := seq(NBUF, i => NBUF - 1 - i), seq(NBUF, i => NBUF - 1 - i);
      this.disk, this.first, this.writes, this.view, this.pinned := disk, disk, [], disk, map[];
    }

    // The buffer of block blockno, or one recycled for it; NONE where the kernel
    // panics with "bget: no buffers".
    method Bget(blockno: nat) returns (r: int)
      requires Valid() && blockno < FSSIZE
      modifies buf
      ensures Valid()
      ensures NONE <= r < NBUF
      ensures r == NONE <==> !Cached(old(buf[..]), blockno) && !SomeUnused(old(buf[..]))
      ensures r == NONE ==> buf[..] == old(buf[..])
      ensures r != NONE ==> Taken(old(buf[..]), buf[..], r, blockno)
      ensures r != NONE && !Cached(old(buf[..]), blockno) ==> LastUnused(old(buf[..]), at, r)
    {
      var k := 0;
      while k < NBUF
        invariant 0 <= k <= NBUF
        invariant forall j :: 0 <= j < k ==> buf[ring[j]].blockno != blockno
      {
        var i := ring[k];
        if buf[i].blockno == blockno {
          TakeAgain(buf[..], i, view, disk, pinned);
          assert buf[..][i].blockno == blockno;
          buf[i] := buf[i].(refcnt := buf[i].refcnt + 1);
          return i;
        }
        k := k + 1;
      }
      forall i | 0 <= i < NBUF
        ensures buf[i].blockno != blockno
      {
        assert buf[ring[at[i]]].blockno != blockno;
      }
      k := NBUF - 1;
      while k >= 0
        invariant -1 <= k < NBUF
        invariant forall j :: k < j < NBUF ==> !Unused(buf[..], ring[j])
      {
        var i := ring[k];
        if buf[i].refcnt == 0 && !buf[i].dirty {
          assert Unused(buf[..], i);
          LastFound(buf[..], ring, at, k);
          Recycle(buf[..], i, blockno, view, disk, pinned);
          buf[i] := Buf(false, false, blockno, 1, buf[i].data);
          return i;
        }
        k := k - 1;
      }
      forall i | 0 <= i < NBUF
        ensures !Unused(buf[..], i)
      {
        assert !Unused(buf[..], ring[at[i]]);
      }
      return NONE;
    }

    // A locked buffer with the contents of the block.
    method Bread(blockno: nat) returns (r: int)
      requires Valid() && blockno < FSSIZE
      modifies buf
      ensures Valid()
      ensures NONE <= r < NBUF
      ensures r == NONE <==> !Cached(old(buf[..]), blockno) && !SomeUnused(old(buf[..]))
      ensures r == NONE ==> buf[..] == old(buf[..])
      ensures r != NONE ==> Taken(old(buf[..]), buf[..], r, blockno) && buf[r].valid && buf[r].data == view[blockno]
      ensures r != NONE && !Cached(old(buf[..]), blockno) ==> LastUnused(old(buf[..]), at, r)
    {
      r := Bget(blockno);
      if r != NONE && !buf[r].valid {
        FillIn(buf[..], r, view, disk, pinned);
        assert buf[..][r] == buf[r];
        buf[r] := buf[r].(valid := true, data := disk[blockno]);
      }
      assert r != NONE ==> Shows(buf[..], r, view, pinned);
    }

    // memmove into the buffer, then bwrite.
    method Bwrite(r: int, data: Block)
      requires Valid() && 0 <= r < NBUF && buf[r].valid && buf[r].refcnt > 0
      modifies this`disk, this`writes, this`view, this`pinned, buf
      ensures Valid() && 0 <= old(buf[r].blockno) < FSSIZE
      ensures var b := old(buf[r].blockno);
              disk == old(disk)[b := data] && writes == old(writes) + [Write(b, data)] && view == old(view)[b := data]
              && pinned == old(pinned) - {b}
      ensures buf[..] == old(buf[..])[r := old(buf[r]).(data := data, dirty := false)]
    {
      var b := buf[r].blockno;
      WriteOut(buf[..], r, data, view, disk, pinned);
      buf[r] := buf[r].(data := data, dirty := false);
      disk := disk[b := data];
      writes := writes + [Write(b, data)];
      view := view[b := data];
      pinned := pinned - {b};
      assert writes[..|writes| - 1] == old(writes);
    }

    // The change to the buffer that log_write records, and its B_DIRTY flag.
    method Pin(r: int, data: Block)
      requires Valid() && 0 <= r < NBUF && buf[r].valid && buf[r].refcnt > 0
      modifies this`view, this`pinned, buf
      ensures Valid() && 0 <= old(buf[r].blockno) < FSSIZE
      ensures view == old(view)[old(buf[r].blockno) := data] && pinned == old(pinned)[old(buf[r].blockno) := r]
      ensures buf[..] == old(buf[..])[r := old(buf[r]).(data := data, dirty := true)]
    {
      var b := buf[r].blockno;
      PinIn(buf[..], r, data, view, disk, pinned);
      buf[r] := buf[r].(data := data, dirty := true);
      view := view[b := data];
      pinned := pinned[b := r];
    }

    // The last holder moves the buffer to the head of the ring.
    method Brelse(r: int)
      requires Valid() && 0 <= r < NBUF && buf[r].refcnt > 0
      modifies this`ring, this`at, buf
      ensures Valid()
      ensures buf[..] == old(buf[..])[r := old(buf[r]).(refcnt := old(buf[r].refcnt) - 1)]
      ensures old(buf[r].refcnt) > 1 ==> ring == old(ring)
      ensures old(buf[r].refcnt) == 1 ==> Released(old(ring), ring, r) && ring[0] == r
      ensures old(buf[r].refcnt) == 1 ==> forall i, j {:trigger InTurn(old(at), at, i, j)} :: i != r && j != r ==> InTurn(old(at), at, i, j)
    {
      Release(buf[..], r, view, disk, pinned);
      buf[r] := buf[r].(refcnt := buf[r].refcnt - 1);
      if buf[r].refcnt == 0 {
        var k := 0;
        while ring[k] != r
          invariant 0 <= k <= at[r]
          decreases NBUF - k
        {
          k := k + 1;
        }
        ghost var was := at;
        at := MovedIsRing(ring, at, k);
        forall i, j | i != r && j != r
          ensures InTurn(was, at, i, j)
        {
        }
        ring := MoveFirst(ring, k);
      }
    }
  }

  // Buffer r has been taken for block b; it held the block before or was unused.
  ghost predicate Taken(bs: Buffers, bs': Buffers, r: int, b: int) {
    && 0 <= r < NBUF
    && bs'[r].blockno == b && bs'[r].refcnt > 0
    && (forall i :: 0 <= i < NBUF && i != r ==> bs'[i] == bs[i])
    && (if bs[r].blockno == b then bs'[r].refcnt == bs[r].refcnt + 1 && bs'[r].dirty == bs[r].dirty
        else Unused(bs, r) && bs'[r].refcnt == 1 && !bs'[r].dirty)
  }

  lemma TakeAgain(bs: Buffers, r: int, view: Disk, disk: Disk, pinned: map<int, int>)
    requires Consistent(bs, view, disk, pinned) && 0 <= r < NBUF
    ensures Consistent(bs[r := bs[r].(refcnt := bs[r].refcnt + 1)], view, disk, pinned)
  {
    var bs': Buffers := bs[r := bs[r].(refcnt := bs[r].refcnt + 1)];
    assert forall i :: 0 <= i < NBUF ==> Shows(bs, i, view, pinned) && bs'[i].blockno == bs[i].blockno;
  }

  lemma Release(bs: Buffers, r: int, view: Disk, disk: Disk, pinned: map<int, int>)
    requires Consistent(bs, view, disk, pinned) && 0 <= r < NBUF && bs[r].refcnt > 0
    ensures Consistent(bs[r := bs[r].(refcnt := bs[r].refcnt - 1)], view, disk, pinned)
  {
    var bs': Buffers := bs[r := bs[r].(refcnt := bs[r].refcnt - 1)];
    assert forall i :: 0 <= i < NBUF ==> Shows(bs, i, view, pinned) && bs'[i].blockno == bs[i].blockno;
  }

  lemma Recycle(bs: Buffers, r: int, b: nat, view: Disk, disk: Disk, pinned: map<int, int>)
    requires Consistent(bs, view, disk, pinned) && 0 <= r < NBUF && Unused(bs, r) && !Cached(bs, b) && b < FSSIZE
    ensures Consistent(bs[r := Buf(false, false, b, 1, bs[r].data)], view, disk, pinned)
  {
    assert forall i :: 0 <= i < NBUF ==> Shows(bs, i, view, pinned) && bs[i].blockno != b;
  }

  lemma FillIn(bs: Buffers, r: int, view: Disk, disk: Disk, pinned: map<int, int>)
    requires Consistent(bs, view, disk, pinned) && 0 <= r < NBUF && !bs[r].valid && bs[r].blockno != NONE
    ensures 0 <= bs[r].blockno < FSSIZE && view[bs[r].blockno] == disk[bs[r].blockno]
    ensures Consistent(bs[r := bs[r].(valid := true, data := disk[bs[r].blockno])], view, disk, pinned)
  {
    var b := bs[r].blockno;
    assert forall i :: 0 <= i < NBUF ==> Shows(bs, i, view, pinned);
    assert Shows(bs, r, view, pinned) && 0 <= b < FSSIZE;
    assert b !in pinned;
    var bs': Buffers := bs[r := bs[r].(valid := true, data := disk[b])];
    forall i | 0 <= i < NBUF
      ensures bs'[i].blockno == bs[i].blockno && Shows(bs', i, view, pinned)
    {
      assert Shows(bs, i, view, pinned);
    }
    assert forall c :: c in pinned ==> 0 <= pinned[c] < NBUF && bs'[pinned[c]].blockno == c && bs'[pinned[c]].dirty;
  }

  lemma WriteOut(bs: Buffers, r: int, data: Block, view: Disk, disk: Disk, pinned: map<int, int>)
    requires Consistent(bs, view, disk, pinned) && 0 <= r < NBUF && bs[r].valid
    ensures var b := bs[r].blockno;
            0 <= b < FSSIZE && Consistent(bs[r := bs[r].(data := data, dirty := false)], view[b := data], disk[b := data], pinned - {b})
  {
    var bs': Buffers := bs[r := bs[r].(data := data, dirty := false)];
    assert forall i :: 0 <= i < NBUF ==> Shows(bs, i, view, pinned) && bs'[i].blockno == bs[i].blockno;
  }

  lemma PinIn(bs: Buffers, r: int, data: Block, view: Disk, disk: Disk, pinned: map<int, int>)
    requires Consistent(bs, view, disk, pinned) && 0 <= r < NBUF && bs[r].valid
    ensures var b := bs[r].blockno;
            0 <= b < FSSIZE && Consistent(bs[r := bs[r].(data := data, dirty := true)], view[b := data], disk, pinned[b := r])
  {
    var bs': Buffers := bs[r := bs[r].(data := data, dirty := true)];
    assert forall i :: 0 <= i < NBUF ==> Shows(bs, i, view, pinned) && bs'[i].blockno == bs[i].blockno;
  }

  // Taking the element at k out of the ring and putting it first.
  function MoveFirst(ring: seq<int>, k: nat): seq<int>
    requires k < |ring|
  {
    [ring[k]] + ring[..k] + ring[k + 1..]
  }

  // Where the element at place j is afterwards.
  function Moved(j: int, k: int): int {
    if j == k then 0 else if j < k then j + 1 else j
  }

  lemma MovedIsRing(ring: seq<int>, at: seq<int>, k: nat) returns (at': seq<int>)
    requires IsRing(ring, at) && k < NBUF
    ensures IsRing(MoveFirst(ring, k), at') && forall i :: 0 <= i < NBUF ==> at'[i] == Moved(at[i], k)
  {
    var ring' := MoveFirst(ring, k);
    at' := seq(NBUF, i requires 0 <= i < NBUF => Moved(at[i], k));
    forall j | 0 <= j < NBUF
      ensures 0 <= ring'[j] < NBUF && at'[ring'[j]] == j
    {
      assert ring'[j] == if j == 0 then ring[k] else if j <= k then ring[j - 1] else ring[j];
    }
    forall i | 0 <= i < NBUF
      ensures 0 <= at'[i] < NBUF && ring'[at'[i]] == i
    {
      assert ring[at[i]] == i;
    }
  }

  // Which of two buffers comes first has not changed.
  predicate InTurn(at: seq<int>, at': seq<int>, i: int, j: int) {
    0 <= i < |at| == |at'| && 0 <= j < |at| && at[i] < at[j] ==> at'[i] < at'[j]
  }

  // Of all unused buffers, r is the last in the ring.
  ghost predicate LastUnused(bs: Buffers, at: seq<int>, r: int) {
    0 <= r < NBUF == |at| && Unused(bs, r) && forall i :: 0 <= i < NBUF && Unused(bs, i) ==> at[i] <= at[r]
  }

  lemma LastFound(bs: Buffers, ring: seq<int>, at: seq<int>, k: int)
    requires IsRing(ring, at) && 0 <= k < NBUF && Unused(bs, ring[k]) && forall j :: k < j < NBUF ==> !Unused(bs, ring[j])
    ensures LastUnused(bs, at, ring[k])
  {
    forall i | 0 <= i < NBUF && Unused(bs, i)
      ensures at[i] <= at[ring[k]]
    {
      assert ring[at[i]] == i;
    }
  }

  // ---------- the order of the ring ----------

  ghost predicate Released(was: seq<int>, now: seq<int>, r: int) {
    exists k :: 0 <= k < |was| && was[k] == r && now == MoveFirst(was, k)
  }

  // The ring after these buffers have been released by their last holders, the latest one last.
  ghost predicate Turned(start: seq<int>, releases: seq<int>, ring: seq<int>) {
    var n := |releases| - 1;
    if n < 0 then ring == start else exists was :: Turned(start, releases[..n], was) && Released(was, ring, releases[n])
  }

  // The buffer at p has been released later than that at q, if any of them has been.
  predicate Fresher(start: seq<int>, releases: seq<int>, ring: seq<int>, p: int, q: int) {
    0 <= p < q < |ring| ==>
      || LastIndex(releases, ring[p]) > LastIndex(releases, ring[q])
      || (LastIndex(releases, ring[p]) == LastIndex(releases, ring[q]) == -1 && LastIndex(start, ring[p]) < LastIndex(start, ring[q]))
  }

  lemma DistinctLast(s: seq<int>, k: nat)
    requires Distinct(s) && k < |s|
    ensures LastIndex(s, s[k]) == k
  {
    LastIndexAt(s, s[k]);
  }

  lemma MovedDistinct(was: seq<int>, k: nat)
    requires Distinct(was) && k < |was|
    ensures Distinct(MoveFirst(was, k))
    ensures forall j :: 0 <= j < |was| ==> MoveFirst(was, k)[j] == was[if j == 0 then k else if j <= k then j - 1 else j]
  {
  }

  // Whatever is released in whatever order: the ring is in the order of the last releases, the latest
  // first, and who never was released keeps to the end, as at the start.
  lemma {:induction false} RingIsLastRelease(start: seq<int>, releases: seq<int>, ring: seq<int>)
    requires Turned(start, releases, ring) && Distinct(start)
    ensures Distinct(ring) && forall p, q {:trigger Fresher(start, releases, ring, p, q)} :: Fresher(start, releases, ring, p, q)
    decreases |releases|
  {
    var n := |releases| - 1;
    if n < 0 {
      forall p, q | 0 <= p < q < |ring|
        ensures Fresher(start, releases, ring, p, q)
      {
        DistinctLast(start, p);
        DistinctLast(start, q);
      }
    } else {
      var was: seq<int> :| Turned(start, releases[..n], was) && Released(was, ring, releases[n]);
      RingIsLastRelease(start, releases[..n], was);
      var k :| 0 <= k < |was| && was[k] == releases[n] && ring == MoveFirst(was, k);
      MovedDistinct(was, k);
      forall p, q | 0 <= p < q < |ring|
        ensures Fresher(start, releases, ring, p, q)
      {
        OneFresher(start, releases, was, k, ring, p, q);
      }
    }
  }

  lemma OneFresher(start: seq<int>, releases: seq<int>, was: seq<int>, k: nat, ring: seq<int>, p: nat, q: nat)
    requires releases != [] && k < |was| && was[k] == releases[|releases| - 1] && ring == MoveFirst(was, k) && Distinct(was) && p < q < |ring|
    requires forall p, q {:trigger Fresher(start, releases[..|releases| - 1], was, p, q)} :: Fresher(start, releases[..|releases| - 1], was, p, q)
    ensures Fresher(start, releases, ring, p, q)
  {
    var n := |releases| - 1;
    MovedDistinct(was, k);
    var j := if q <= k then q - 1 else q;
    assert ring[q] == was[j] && j != k;
    LastIndexAt(releases[..n], ring[q]);
    if p > 0 {
      var i := if p <= k then p - 1 else p;
      assert ring[p] == was[i] && i != k && i < j;
      assert Fresher(start, releases[..n], was, i, j);
    }
  }

  // Who is last of all unused in the ring has been released before all of these, or never.
  lemma OldestRecycled(start: seq<int>, releases: seq<int>, bs: Buffers, ring: seq<int>, at: seq<int>, r: int, i: int)
    requires Turned(start, releases, ring) && Distinct(start) && IsRing(ring, at) && LastUnused(bs, at, r)
    requires 0 <= i < NBUF && Unused(bs, i)
    ensures LastIndex(releases, r) <= LastIndex(releases, i)
  {
    RingIsLastRelease(start, releases, ring);
    assert ring[at[i]] == i && ring[at[r]] == r;
    if i != r {
      assert Fresher(start, releases, ring, at[i], at[r]);
    }
  }

  // ---------- when a buffer is found ----------

  function DirtyCount(bs: Buffers, n: nat): nat
    requires n <= NBUF
  {
    if n == 0 then 0 else DirtyCount(bs, n - 1) + if bs[n - 1].dirty then 1 else 0
  }

  // The buffers that somebody has and that are not dirty.
  function HeldClean(bs: Buffers, n: nat): nat
    requires n <= NBUF
  {
    if n == 0 then 0 else HeldClean(bs, n - 1) + if bs[n - 1].refcnt > 0 && !bs[n - 1].dirty then 1 else 0
  }

  lemma {:induction false} InUseCount(bs: Buffers, n: nat)
    requires n <= NBUF
    ensures DirtyCount(bs, n) + HeldClean(bs, n) <= n
    ensures DirtyCount(bs, n) + HeldClean(bs, n) < n <==> exists i :: 0 <= i < n && Unused(bs, i)
  {
    if n > 0 {
      InUseCount(bs, n - 1);
      assert Unused(bs, n - 1) || !Unused(bs, n - 1);
    }
  }

  // The pinned blocks whose buffers come before n.
  function PinnedBelow(pinned: map<int, int>, n: int): (blocks: set<int>)
    ensures forall b :: b in blocks <==> b in pinned && pinned[b] < n
  {
    set b | b in pinned && pinned[b] < n
  }

  lemma Subset(a: set<int>, b: set<int>)
    requires a <= b
    ensures |a| <= |b|
  {
    assert b == a + (b - a);
  }

  // A pinned block has one dirty buffer, and a dirty buffer one pinned block.
  lemma {:induction false} DirtyArePinned(bs: Buffers, view: Disk, disk: Disk, pinned: map<int, int>, n: nat)
    requires Consistent(bs, view, disk, pinned) && n <= NBUF
    ensures |PinnedBelow(pinned, n)| == DirtyCount(bs, n)
  {
    if n > 0 {
      DirtyArePinned(bs, view, disk, pinned, n - 1);
      assert Shows(bs, n - 1, view, pinned);
      var b := bs[n - 1].blockno;
      forall c
        ensures c in PinnedBelow(pinned, n) <==> c in PinnedBelow(pinned, n - 1) || (bs[n - 1].dirty && c == b)
      {
        assert c in pinned ==> PinnedAt(bs, pinned, c);
      }
      assert PinnedBelow(pinned, n) == PinnedBelow(pinned, n - 1) + if bs[n - 1].dirty then {b} else {};
    } else {
      forall c
        ensures c !in PinnedBelow(pinned, n)
      {
        assert c in pinned ==> PinnedAt(bs, pinned, c);
      }
      assert PinnedBelow(pinned, n) == {};
    }
  }

  // There is a buffer to recycle exactly if the pinned blocks, and the other blocks that somebody
  // has, are fewer than the buffers.
  lemma RoomExactly(bs: Buffers, view: Disk, disk: Disk, pinned: map<int, int>)
    requires Consistent(bs, view, disk, pinned)
    ensures SomeUnused(bs) <==> |pinned| + HeldClean(bs, NBUF) < NBUF
  {
    InUseCount(bs, NBUF);
    DirtyArePinned(bs, view, disk, pinned, NBUF);
    forall c
      ensures c in PinnedBelow(pinned, NBUF) <==> c in pinned.Keys
    {
      assert c in pinned ==> PinnedAt(bs, pinned, c);
    }
    assert PinnedBelow(pinned, NBUF) == pinned.Keys;
  }

  predicate IsHeld(bs: Buffers, b: int) {
    exists i :: 0 <= i < NBUF && bs[i].blockno == b && bs[i].refcnt > 0
  }

  // bread finds a buffer for a block exactly if there is such room, or the block is one of these.
  lemma FindsExactly(bs: Buffers, view: Disk, disk: Disk, pinned: map<int, int>, b: int)
    requires Consistent(bs, view, disk, pinned)
    ensures Cached(bs, b) || SomeUnused(bs) <==> |pinned| + HeldClean(bs, NBUF) < NBUF || b in pinned || IsHeld(bs, b)
  {
    RoomExactly(bs, view, disk, pinned);
    if Cached(bs, b) && !SomeUnused(bs) {
      var i :| 0 <= i < NBUF && bs[i].blockno == b;
      assert !Unused(bs, i) && Shows(bs, i, view, pinned);
    }
  }

  // Everybody has what they had, nobody more, and no buffer has become dirty.
  predicate Rests(bs: Buffers, bs': Buffers) {
    forall i :: 0 <= i < NBUF ==> SameHolders(bs[i], bs'[i])
  }

  predicate SameHolders(x: Buf, x': Buf) {
    x'.refcnt == x.refcnt && (x.refcnt > 0 ==> x'.blockno == x.blockno) && (x'.dirty ==> x.dirty)
  }

  lemma RestsRoom(bs: Buffers, bs': Buffers)
    requires Rests(bs, bs') && SomeUnused(bs)
    ensures SomeUnused(bs')
  {
    var i :| 0 <= i < NBUF && Unused(bs, i);
    assert SameHolders(bs[i], bs'[i]) && Unused(bs', i);
  }

  lemma RestsOn(bs: Buffers, bs1: Buffers, bs2: Buffers)
    requires Rests(bs, bs1) && Rests(bs1, bs2)
    ensures Rests(bs, bs2)
  {
    forall i | 0 <= i < NBUF
      ensures SameHolders(bs[i], bs2[i])
    {
      assert SameHolders(bs[i], bs1[i]) && SameHolders(bs1[i], bs2[i]);
    }
  }
}
