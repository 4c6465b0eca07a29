/** Disk blocks, writes and the log header: what log.c reads and writes. */
module WalDisk {

  const LOGSIZE := 30
  const MAXOPBLOCKS := 10
  const BWORDS := 128  // BSIZE / sizeof(int)
  const FSSIZE := 40000

  // A block is a row of words; a log header is such a block.
  type Block = b: seq<int> | |b| == BWORDS witness seq(BWORDS, _ => 0)
  const ZeroBlock: Block := seq(BWORDS, _ => 0)
  type Disk = d: seq<Block> | |d| == FSSIZE witness seq(FSSIZE, _ => ZeroBlock)

  datatype Write = Write(blockno: nat, data: Block)

  // Where the log lies: header at start, logged blocks from start + 1 on.
  datatype Layout = Layout(start: nat, size: nat)

  // The in-memory header with n == |blocks|.
  type Header = h: seq<int> | |h| <= LOGSIZE witness []

  predicate InLog(l: Layout, b: int) {
    l.start <= b < l.start + l.size
  }

  predicate GoodLayout(l: Layout) {
    1 <= l.size && l.start + l.size <= FSSIZE
  }

  // A home block: on the disk, outside the log.
  predicate IsHome(l: Layout, b: int) {
    0 <= b < FSSIZE && !InLog(l, b)
  }

  predicate HomeBlocks(l: Layout, bl: seq<int>) {
    forall i :: 0 <= i < |bl| ==> IsHome(l, bl[i])
  }

  // A list of blocks that the log can hold.
  predicate Loggable(l: Layout, bl: seq<int>) {
    |bl| <= LOGSIZE && |bl| < l.size && HomeBlocks(l, bl)
  }

  // ---------- the header block ----------

  // write_head: the count and the block numbers; the words behind stay.
  function PutHeader(h: Block, bl: Header): Block {
    [|bl|] + bl + h[|bl| + 1..]
  }

  // read_head
  function GetHeader(h: Block): seq<int>
    requires 0 <= h[0] <= LOGSIZE
  {
    h[1..h[0] + 1]
  }

  lemma HeaderRoundTrip(h: Block, bl: Header)
    ensures PutHeader(h, bl)[0] == |bl| && GetHeader(PutHeader(h, bl)) == bl
  {
    assert forall i :: 0 <= i < |bl| ==> PutHeader(h, bl)[i + 1] == bl[i];
  }

  // Word by word: what initlog's struct says of the block.
  lemma HeaderExactly(h: Block, bl: Header, i: nat)
    requires i < BWORDS
    ensures PutHeader(h, bl)[i] == if i == 0 then |bl| else if i <= |bl| then bl[i - 1] else h[i]
  {
  }

  // A disk whose header says something that log.c could have written.
  predicate Sound(l: Layout, d: Disk) {
    && GoodLayout(l)
    && 0 <= d[l.start][0] <= LOGSIZE
    && Loggable(l, GetHeader(d[l.start]))
  }

  function Pending(l: Layout, d: Disk): (bl: seq<int>)
    requires Sound(l, d)
  {
    GetHeader(d[l.start])
  }

  // ---------- doing writes ----------

  predicate OnDisk(ws: seq<Write>) {
    forall i :: 0 <= i < |ws| ==> ws[i].blockno < FSSIZE
  }

  function Do(d: Disk, ws: seq<Write>): Disk
    requires OnDisk(ws)
  {
    if ws == [] then d
    else Do(d, ws[..|ws| - 1])[ws[|ws| - 1].blockno := ws[|ws| - 1].data]
  }

  lemma {:induction false} DoAdds(d: Disk, ws: seq<Write>, ws': seq<Write>)
    requires OnDisk(ws) && OnDisk(ws')
    ensures OnDisk(ws + ws') && Do(d, ws + ws') == Do(Do(d, ws), ws')
  {
    if ws' == [] {
      assert ws + ws' == ws;
    } else {
      var k := |ws'| - 1;
      assert (ws + ws')[..|ws| + k] == ws + ws'[..k];
      DoAdds(d, ws, ws'[..k]);
    }
  }

  // A block that no write names keeps its contents.
  lemma {:induction false} DoKeeps(d: Disk, ws: seq<Write>, b: int)
    requires OnDisk(ws) && 0 <= b < FSSIZE && forall i :: 0 <= i < |ws| ==> ws[i].blockno != b
    ensures Do(d, ws)[b] == d[b]
  {
    if ws != [] {
      DoKeeps(d, ws[..|ws| - 1], b);
    }
  }

  // The last write that names a block decides its contents.
  lemma {:induction false} DoLast(d: Disk, ws: seq<Write>, k: nat)
    requires OnDisk(ws) && k < |ws| && forall i :: k < i < |ws| ==> ws[i].blockno != ws[k].blockno
    ensures Do(d, ws)[ws[k].blockno] == ws[k].data
    decreases |ws|
  {
    if k < |ws| - 1 {
      assert ws[..|ws| - 1][k] == ws[k];
      DoLast(d, ws[..|ws| - 1], k);
    }
  }

  // The home blocks of two disks agree.
  ghost predicate SameHome(l: Layout, d1: Disk, d2: Disk) {
    forall b :: IsHome(l, b) ==> d1[b] == d2[b]
  }

  // One write at a time: disks that differ in the same places end alike.
  lemma {:induction false} DoSame(l: Layout, d1: Disk, d2: Disk, ws: seq<Write>)
    requires OnDisk(ws) && SameHome(l, d1, d2)
    ensures SameHome(l, Do(d1, ws), Do(d2, ws))
  {
    if ws != [] {
      DoSame(l, d1, d2, ws[..|ws| - 1]);
    }
  }
}
