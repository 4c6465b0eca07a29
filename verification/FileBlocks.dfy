/** The blocks of one file in fs.c: the map from block numbers to disk blocks through
    direct, single, double and triple indirection, on a bitmap of used blocks.  A block
    is seen as words where it is an indirect block and as bytes where it holds data. */
module FileBlocks {
  import opened FileContents

  const NDIRECT := 10
  const NINDIRECT := 128
  const NDINDIRECT := NINDIRECT * NINDIRECT
  const NTINDIRECT := NINDIRECT * NINDIRECT * NINDIRECT
  const MAXFILE := NDIRECT + NINDIRECT + NDINDIRECT + NTINDIRECT
  const BSIZE := 512

  // ---------- places in the tree ----------

  // Which of the inode's addresses, and which word at each level below.
  type Path = seq<int>

  function Depth(r: int): nat {
    if r < NDIRECT then 1 else r - NDIRECT + 2
  }

  predicate IsPath(p: Path) {
    && p != [] && 0 <= p[0] < NDIRECT + 3 && |p| <= Depth(p[0])
    && forall k :: 1 <= k < |p| ==> 0 <= p[k] < NINDIRECT
  }

  predicate IsLeaf(p: Path) {
    IsPath(p) && |p| == Depth(p[0])
  }

  // Where block bn of the file belongs.
  function Leaf(bn: nat): (p: Path)
    requires bn < MAXFILE
    ensures IsLeaf(p)
  {
    if bn < NDIRECT then [bn]
    else
      var s := bn - NDIRECT;
      if s < NINDIRECT then [NDIRECT, s]
      else
        var d := s - NINDIRECT;
        if d < NDINDIRECT then [NDIRECT + 1, d / NINDIRECT, d % NINDIRECT]
        else
          var t := d - NDINDIRECT;
          [NDIRECT + 2, t / NDINDIRECT, (t % NDINDIRECT) / NINDIRECT, (t % NDINDIRECT) % NINDIRECT]
  }

  // No two blocks of a file share a place, and every leaf is the place of one.
  function Number(p: Path): (bn: nat)
    requires IsLeaf(p)
    ensures bn < MAXFILE
  {
    if p[0] < NDIRECT then p[0]
    else if p[0] == NDIRECT then NDIRECT + p[1]
    else if p[0] == NDIRECT + 1 then NDIRECT + NINDIRECT + p[1] * NINDIRECT + p[2]
    else NDIRECT + NINDIRECT + NDINDIRECT + p[1] * NDINDIRECT + p[2] * NINDIRECT + p[3]
  }

  lemma LeafNumber(bn: nat)
    requires bn < MAXFILE
    ensures Number(Leaf(bn)) == bn
  {
  }

  lemma NumberLeaf(p: Path)
    requires IsLeaf(p)
    ensures Leaf(Number(p)) == p
  {
    if p[0] < NDIRECT {
      assert p == [p[0]];
    } else if p[0] == NDIRECT {
      assert p == [p[0], p[1]];
    } else if p[0] == NDIRECT + 1 {
      Digits(p[1], p[2]);
      assert p == [p[0], p[1], p[2]];
    } else {
      ThreeDigits(p[1], p[2], p[3]);
      assert p == [p[0], p[1], p[2], p[3]];
    }
  }

  // Which of two places is met first on a way through the tree from left to right.
  predicate Before(p: seq<int>, q: seq<int>) {
    p != [] && q != [] && (p[0] < q[0] || (p[0] == q[0] && Before(p[1..], q[1..])))
  }

  // The blocks of a file hang in the tree in their order; as every leaf has one, that says where.
  lemma LeavesInOrder(a: nat, b: nat)
    requires a < b < MAXFILE
    ensures Before(Leaf(a), Leaf(b))
  {
    var p, q := Leaf(a), Leaf(b);
    if p[0] == q[0] {
      if p[0] == NDIRECT + 1 {
        var x, y := a - NDIRECT - NINDIRECT, b - NDIRECT - NINDIRECT;
        HigherFirst(x, y);
        TwoInOrder(p[1..], q[1..]);
      } else if p[0] == NDIRECT + 2 {
        var x, y := a - NDIRECT - NINDIRECT - NDINDIRECT, b - NDIRECT - NINDIRECT - NDINDIRECT;
        HighestFirst(x, y);
        HigherFirst(x % NDINDIRECT, y % NDINDIRECT);
        assert p[1..][1..] == [x % NDINDIRECT / NINDIRECT, x % NDINDIRECT % NINDIRECT];
        assert q[1..][1..] == [y % NDINDIRECT / NINDIRECT, y % NDINDIRECT % NINDIRECT];
        if p[1] == q[1] {
          TwoInOrder(p[1..][1..], q[1..][1..]);
        }
      }
    }
  }

  lemma TwoInOrder(p: seq<int>, q: seq<int>)
    requires |p| == |q| == 2 && (p[0] < q[0] || (p[0] == q[0] && p[1] < q[1]))
    ensures Before(p, q)
  {
  }

  lemma HigherFirst(x: nat, y: nat)
    ensures x < y ==> x / NINDIRECT < y / NINDIRECT || (x / NINDIRECT == y / NINDIRECT && x % NINDIRECT < y % NINDIRECT)
  {
  }

  lemma HighestFirst(x: nat, y: nat)
    ensures x < y ==> x / NDINDIRECT < y / NDINDIRECT || (x / NDINDIRECT == y / NDINDIRECT && x % NDINDIRECT < y % NDINDIRECT)
  {
  }

  lemma ThreeDigits(a: nat, b: nat, c: nat)
    requires b < NINDIRECT && c < NINDIRECT
    ensures var n := a * NDINDIRECT + b * NINDIRECT + c;
            n / NDINDIRECT == a && (n % NDINDIRECT) / NINDIRECT == b && (n % NDINDIRECT) % NINDIRECT == c
  {
    Digits(b, c);
    HighDigit(a, b * NINDIRECT + c);
  }

  lemma HighDigit(a: nat, rest: nat)
    requires rest < NDINDIRECT
    ensures (a * NDINDIRECT + rest) / NDINDIRECT == a && (a * NDINDIRECT + rest) % NDINDIRECT == rest
  {
  }

  lemma Digits(a: nat, b: nat)
    requires b < NINDIRECT
    ensures (a * NINDIRECT + b) / NINDIRECT == a && (a * NINDIRECT + b) % NINDIRECT == b
  {
  }

  // ---------- the tree on disk ----------

  // The blocks of the file by their places; 0 is no block.
  type Blocks = map<Path, int>

  function At(blocks: Blocks, p: Path): int {
    if p in blocks then blocks[p] else 0
  }

  // role is the other way round: no block has two places.
  predicate OneRole(blocks: Blocks, role: map<int, Path>) {
    && (forall p :: p in blocks ==> blocks[p] in role && role[blocks[p]] == p)
    && (forall b :: b in role ==> role[b] in blocks && blocks[role[b]] == b)
  }

  predicate AllUsed(used: seq<bool>, blocks: Blocks) {
    forall p :: p in blocks ==> IsPath(p) && 0 < blocks[p] < |used| && used[blocks[p]]
  }

  // Every block but those of the inode itself hangs on another.
  predicate Hangs(blocks: Blocks) {
    forall p {:trigger p[..|p| - 1]} :: p in blocks && |p| > 1 ==> p[..|p| - 1] in blocks
  }

  predicate WordsOf(words: seq<seq<int>>, blocks: Blocks, p: Path)
    requires p in blocks
  {
    && 0 <= blocks[p] < |words| && |words[blocks[p]]| == NINDIRECT
    && forall i {:trigger p + [i]} :: 0 <= i < NINDIRECT ==> words[blocks[p]][i] == At(blocks, p + [i])
  }

  ghost predicate Tree(addrs: seq<int>, words: seq<seq<int>>, used: seq<bool>, blocks: Blocks, role: map<int, Path>) {
    && OneRole(blocks, role) && AllUsed(used, blocks) && Hangs(blocks)
    && |addrs| == NDIRECT + 3
    && (forall r :: 0 <= r < |addrs| ==> addrs[r] == At(blocks, [r]))
    && (forall p {:trigger WordsOf(words, blocks, p)} :: p in blocks && !IsLeaf(p) ==> WordsOf(words, blocks, p))
  }

  lemma PathAppend(p: Path, i: int)
    requires IsPath(p) && !IsLeaf(p) && 0 <= i < NINDIRECT
    ensures IsPath(p + [i]) && (p + [i])[..|p|] == p
  {
  }

  lemma AppendOnce(p: Path, i: int, q: Path, k: int)
    requires p + [i] == q + [k]
    ensures p == q && i == k
  {
    assert (p + [i])[..|p|] == p && (q + [k])[..|q|] == q;
    assert (p + [i])[|p|] == i && (q + [k])[|q|] == k;
  }

  lemma NothingBelow(blocks: Blocks, p: Path, k: int)
    requires Hangs(blocks) && p !in blocks && p != []
    ensures p + [k] !in blocks
  {
    assert (p + [k])[..|p + [k]| - 1] == p;
  }

  // One more place filled: the words of each block that was there.
  lemma OtherWords(words: seq<seq<int>>, blocks: Blocks, role: map<int, Path>, p: Path, i: int, w: int, words': seq<seq<int>>, q: Path)
    requires OneRole(blocks, role) && q in blocks && WordsOf(words, blocks, q) && p in blocks
    requires p + [i] !in blocks && w !in role
    requires |words'| == |words| && words'[blocks[q]] == if q == p && 0 <= i < NINDIRECT then words[blocks[p]][i := w] else words[blocks[q]]
    ensures WordsOf(words', blocks[p + [i] := w], q)
  {
    forall k | 0 <= k < NINDIRECT
      ensures words'[blocks[q]][k] == At(blocks[p + [i] := w], q + [k])
    {
      if q + [k] == p + [i] {
        AppendOnce(q, k, p, i);
      } else if q == p {
        assert k != i;
      }
    }
  }

  lemma NewWords(words: seq<seq<int>>, blocks: Blocks, x: Path, w: int)
    requires Hangs(blocks) && x != [] && x !in blocks && 0 <= w < |words| && words[w] == Zeros(NINDIRECT)
    ensures WordsOf(words, blocks[x := w], x)
  {
    forall k | 0 <= k < NINDIRECT
      ensures At(blocks[x := w], x + [k]) == 0
    {
      NothingBelow(blocks, x, k);
    }
  }

  function Zeroed(words: seq<seq<int>>, w: int): seq<seq<int>>
    requires 0 <= w < |words|
  {
    words[w := Zeros(NINDIRECT)]
  }

  // A free block, all zero, takes a place that was empty.
  lemma TreeGrows(addrs: seq<int>, words: seq<seq<int>>, used: seq<bool>, blocks: Blocks, role: map<int, Path>,
    p: Path, i: int, w: int, words': seq<seq<int>>)
    requires Tree(addrs, words, used, blocks, role) && |words| == |used| && p in blocks && !IsLeaf(p) && 0 <= i < NINDIRECT
    requires p + [i] !in blocks && 0 < w < |used| && !used[w]
    requires WordsOf(words, blocks, p)
    requires words' == Zeroed(words, w)[blocks[p] := words[blocks[p]][i := w]]
    ensures w !in role && Tree(addrs, words', used[w := true], blocks[p + [i] := w], role[w := p + [i]])
  {
    PathAppend(p, i);
    NewWords(words', blocks, p + [i], w);
    forall q | q in blocks && !IsLeaf(q)
      ensures WordsOf(words', blocks[p + [i] := w], q)
    {
      OtherWords(words, blocks, role, p, i, w, words', q);
    }
  }

  // The same in the inode.
  lemma RootGrows(addrs: seq<int>, words: seq<seq<int>>, used: seq<bool>, blocks: Blocks, role: map<int, Path>, r: int, w: int)
    requires Tree(addrs, words, used, blocks, role) && |words| == |used| && 0 <= r < |addrs|
    requires [r] !in blocks && 0 < w < |used| && !used[w]
    ensures w !in role && Tree(addrs[r := w], Zeroed(words, w), used[w := true], blocks[[r] := w], role[w := [r]])
  {
    NewWords(Zeroed(words, w), blocks, [r], w);
    forall q | q in blocks && !IsLeaf(q)
      ensures WordsOf(Zeroed(words, w), blocks[[r] := w], q)
    {
      assert WordsOf(words, blocks, q) && q != [];
      forall k | 0 <= k < NINDIRECT
        ensures At(blocks[[r] := w], q + [k]) == At(blocks, q + [k])
      {
        assert |q + [k]| > |[r]|;
      }
    }
  }

  // ---------- what allocation leaves alone ----------

  datatype Disk = Disk(used: seq<bool>, words: seq<seq<int>>, data: seq<seq<byte>>, blocks: Blocks, role: map<int, Path>)

  ghost predicate Sized(d: Disk) {
    && |d.used| == |d.words| == |d.data| > 0 && d.used[0]
    && forall b :: 0 <= b < |d.data| ==> |d.data[b]| == BSIZE
  }

  // Blocks of the file stay where they are; what was in use keeps its bytes, and its
  // words unless it is an indirect block of the file; what comes into use belongs to
  // the file and is zero.
  ghost predicate Extends(d: Disk, e: Disk) {
    && |e.used| == |d.used| && |e.words| == |d.words| == |d.used| && |e.data| == |d.data| == |d.used|
    && (forall q :: q in d.blocks ==> q in e.blocks && e.blocks[q] == d.blocks[q])
    && (forall b :: b in d.role ==> b in e.role)
    && (forall b :: 0 <= b < |d.used| && d.used[b] ==> e.used[b] && e.data[b] == d.data[b])
    && (forall b :: 0 <= b < |d.used| && d.used[b] && b !in d.role ==> b !in e.role && e.words[b] == d.words[b])
    && (forall b :: 0 <= b < |d.used| && !d.used[b] && e.used[b] ==> b in e.role && e.data[b] == Zeros(BSIZE))
  }

  lemma ExtendsChain(d: Disk, e: Disk, f: Disk)
    requires Extends(d, e) && Extends(e, f)
    ensures Extends(d, f)
  {
  }

  // The byte of the file at a place in one of its blocks; a hole reads as zero.
  function ByteOf(d: Disk, p: Path, k: nat): byte
    requires k < BSIZE
  {
    if p in d.blocks && 0 <= d.blocks[p] < |d.data| && |d.data[d.blocks[p]]| == BSIZE then d.data[d.blocks[p]][k] else 0
  }

  ghost predicate Good(addrs: seq<int>, d: Disk) {
    Sized(d) && Tree(addrs, d.words, d.used, d.blocks, d.role)
  }

  // Allocation shows no other bytes.
  lemma ExtendsBytes(d: Disk, e: Disk, addrs: seq<int>, addrs': seq<int>, p: Path, k: nat)
    requires Extends(d, e) && Good(addrs, d) && Good(addrs', e) && k < BSIZE
    ensures ByteOf(e, p, k) == ByteOf(d, p, k)
  {
    if p in d.blocks {
      assert d.used[d.blocks[p]];
    }
  }

  // The disk with free block w at place p, zeroed.
  function Hung(d: Disk, p: Path, w: int): Disk
    requires 0 <= w < |d.used| == |d.words| == |d.data|
  {
    Disk(d.used[w := true], Zeroed(d.words, w), d.data[w := Zeros(BSIZE)], d.blocks[p := w], d.role[w := p])
  }

  // And the word that leads there.
  function HungBelow(d: Disk, p: Path, i: nat, w: int): Disk
    requires 0 <= w < |d.used| == |d.words| == |d.data| && p in d.blocks && 0 <= d.blocks[p] < |d.words| && i < |d.words[d.blocks[p]]|
  {
    var e := Hung(d, p + [i], w);
    e.(words := e.words[d.blocks[p] := d.words[d.blocks[p]][i := w]])
  }

  lemma RootHangs(addrs: seq<int>, d: Disk, r: int, w: int)
    requires Good(addrs, d) && 0 <= r < |addrs| && [r] !in d.blocks && 0 < w < |d.used| && !d.used[w]
    ensures Good(addrs[r := w], Hung(d, [r], w)) && Extends(d, Hung(d, [r], w))
  {
    RootGrows(addrs, d.words, d.used, d.blocks, d.role, r, w);
  }

  lemma BelowHangs(addrs: seq<int>, d: Disk, p: Path, i: nat, w: int)
    requires Good(addrs, d) && p in d.blocks && !IsLeaf(p) && i < NINDIRECT && p + [i] !in d.blocks && 0 < w < |d.used| && !d.used[w]
    ensures WordsOf(d.words, d.blocks, p)
    ensures Good(addrs, HungBelow(d, p, i, w)) && Extends(d, HungBelow(d, p, i, w))
  {
    assert WordsOf(d.words, d.blocks, p);
    TreeGrows(addrs, d.words, d.used, d.blocks, d.role, p, i, w, HungBelow(d, p, i, w).words);
    InRole(d, p);
  }

  lemma InRole(d: Disk, p: Path)
    requires OneRole(d.blocks, d.role) && p in d.blocks
    ensures d.blocks[p] in d.role
  {
  }

  datatype Inode = Inode(addrs: seq<int>, disk: Disk)

  lemma NoBlocks()
    ensures Good(Zeros(NDIRECT + 3), Disk([true], [[]], [Zeros(BSIZE)], map[], map[]))
  {
  }

  type GoodInode = g: Inode | Good(g.addrs, g.disk)
    witness (NoBlocks(); Inode(Zeros(NDIRECT + 3), Disk([true], [[]], [Zeros(BSIZE)], map[], map[])))

  ghost function WithRoot(g: GoodInode, r: nat, w: int): (h: GoodInode)
    requires r < NDIRECT + 3 && [r] !in g.disk.blocks && 0 < w < |g.disk.used| && !g.disk.used[w]
    ensures Extends(g.disk, h.disk)
  {
    RootHangs(g.addrs, g.disk, r, w);
    Inode(g.addrs[r := w], Hung(g.disk, [r], w))
  }

  ghost function WithBelow(g: GoodInode, p: Path, i: nat, w: int): (h: GoodInode)
    requires p in g.disk.blocks && !IsLeaf(p) && i < NINDIRECT && p + [i] !in g.disk.blocks
    requires 0 < w < |g.disk.used| && !g.disk.used[w]
    ensures Extends(g.disk, h.disk)
  {
    BelowHangs(g.addrs, g.disk, p, i, w);
    Inode(g.addrs, HungBelow(g.disk, p, i, w))
  }

  lemma WordIs(g: GoodInode, p: Path, i: nat)
    requires p in g.disk.blocks && !IsLeaf(p) && i < NINDIRECT
    ensures var b := g.disk.blocks[p];
            0 < b < |g.disk.words| && |g.disk.words[b]| == NINDIRECT && g.disk.words[b][i] == At(g.disk.blocks, p + [i])
  {
    assert WordsOf(g.disk.words, g.disk.blocks, p);
  }

  lemma RootIs(g: GoodInode, r: nat)
    requires r < NDIRECT + 3
    ensures |g.addrs| == NDIRECT + 3 && g.addrs[r] == At(g.disk.blocks, [r])
  {
  }

  // The way from the inode to a leaf, one step.
  lemma NextOnLeaf(leaf: Path, k: nat)
    requires IsLeaf(leaf) && k < |leaf|
    ensures leaf[..k] + [leaf[k]] == leaf[..k + 1] && leaf[..k + 1] <= leaf
    ensures k == 0 ==> leaf[..1] == [leaf[0]] && 0 <= leaf[0] < NDIRECT + 3
    ensures k > 0 ==> IsPath(leaf[..k]) && !IsLeaf(leaf[..k]) && 0 <= leaf[k] < NINDIRECT
  {
  }

  // bmap has come from inode g to inode h and filled at most places on the way to leaf.
  ghost predicate OnWay(g: GoodInode, h: GoodInode, leaf: Path) {
    && Extends(g.disk, h.disk)
    && forall q :: q in h.disk.blocks && q !in g.disk.blocks ==> q <= leaf
  }

  lemma StillOnWay(g: GoodInode, h: GoodInode, h': GoodInode, leaf: Path, p: Path)
    requires OnWay(g, h, leaf) && Extends(h.disk, h'.disk) && p <= leaf
    requires forall q :: q in h'.disk.blocks && q !in h.disk.blocks ==> q == p
    ensures OnWay(g, h', leaf)
  {
    ExtendsChain(g.disk, h.disk, h'.disk);
  }

  // ---------- truncation ----------

  // The blocks of the places that are gone are free; nothing else has changed.
  ghost predicate Cleared(d: Disk, used: seq<bool>, gone: set<Path>) {
    && |used| == |d.used|
    && forall b :: 0 <= b < |used| ==> (used[b] <==> d.used[b] && !(b in d.role && d.role[b] in gone))
  }

  lemma ClearedOne(g: GoodInode, used: seq<bool>, gone: set<Path>, p: Path)
    requires Cleared(g.disk, used, gone) && p in g.disk.blocks && p !in gone
    ensures var b := g.disk.blocks[p]; 0 <= b < |used| && used[b] && Cleared(g.disk, used[b := false], gone + {p})
  {
  }

  // Below an empty place there is nothing.
  lemma {:induction false} EmptyBelow(g: GoodInode, p: Path, q: Path)
    requires p != [] && p !in g.disk.blocks && p <= q
    ensures q !in g.disk.blocks
    decreases |q|
  {
    if |q| > |p| {
      EmptyBelow(g, p, q[..|q| - 1]);
    } else {
      assert q == p;
    }
  }

  lemma BelowChild(p: Path, q: Path, j: int)
    requires p < q && q[|p|] == j
    ensures p + [j] <= q
  {
  }

  lemma AllCleared(g: GoodInode, used: seq<bool>, gone: set<Path>)
    requires Cleared(g.disk, used, gone) && forall p :: p in g.disk.blocks ==> p in gone
    ensures Good(Zeros(NDIRECT + 3), Disk(used, g.disk.words, g.disk.data, map[], map[]))
    ensures forall b :: 0 <= b < |used| ==> (used[b] <==> g.disk.used[b] && b !in g.disk.role)
  {
  }

  // ---------- the file as bytes ----------

  const MAXBYTES := MAXFILE * BSIZE

  function ByteAt(d: Disk, o: nat): byte
    requires o < MAXBYTES
  {
    ByteOf(d, Leaf(o / BSIZE), o % BSIZE)
  }

  // The file as one array of bytes, as long as the largest file.
  function View(d: Disk): (v: seq<byte>)
    ensures |v| == MAXBYTES
  {
    seq(MAXBYTES, o requires 0 <= o < MAXBYTES => ByteAt(d, o))
  }

  lemma SameView(d: Disk, e: Disk)
    requires forall o: nat :: o < MAXBYTES ==> ByteAt(e, o) == ByteAt(d, o)
    ensures View(e) == View(d)
  {
  }

  // The file's blocks stay where they are; blocks of others are not touched, and what
  // comes into use is the file's.
  ghost predicate Others(d: Disk, e: Disk) {
    && |e.used| == |e.words| == |e.data| == |d.used| == |d.words| == |d.data|
    && (forall q :: q in d.blocks ==> q in e.blocks && e.blocks[q] == d.blocks[q])
    && (forall b :: b in d.role ==> b in e.role)
    && (forall b :: 0 <= b < |d.used| && d.used[b] ==> e.used[b])
    && (forall b :: 0 <= b < |d.used| && d.used[b] && b !in d.role ==> b !in e.role && e.words[b] == d.words[b] && e.data[b] == d.data[b])
    && (forall b :: 0 <= b < |d.used| && !d.used[b] && e.used[b] ==> b in e.role)
  }

  lemma OthersChain(d: Disk, e: Disk, f: Disk)
    requires Others(d, e) && Others(e, f)
    ensures Others(d, f)
  {
  }

  lemma OnWayKeeps(g: GoodInode, h: GoodInode, leaf: Path)
    requires OnWay(g, h, leaf)
    ensures Others(g.disk, h.disk) && View(h.disk) == View(g.disk)
  {
    forall o: nat | o < MAXBYTES
      ensures ByteAt(h.disk, o) == ByteAt(g.disk, o)
    {
      ExtendsBytes(g.disk, h.disk, g.addrs, h.addrs, Leaf(o / BSIZE), o % BSIZE);
    }
    SameView(g.disk, h.disk);
  }

  // Bytes put into one block of the file.
  ghost function WithBytes(g: GoodInode, q: Path, at: nat, src: seq<byte>): (h: GoodInode)
    requires q in g.disk.blocks && at + |src| <= BSIZE
    ensures Others(g.disk, h.disk) && h.disk.blocks == g.disk.blocks
    ensures 0 <= g.disk.blocks[q] < |g.disk.data| && |g.disk.data[g.disk.blocks[q]]| == BSIZE
    ensures h.disk.data == g.disk.data[g.disk.blocks[q] := Patched(g.disk.data[g.disk.blocks[q]], at, src)]
  {
    var b := g.disk.blocks[q];
    assert g.disk.used[b];
    Inode(g.addrs, g.disk.(data := g.disk.data[b := Patched(g.disk.data[b], at, src)]))
  }

  lemma OneBlock(g: GoodInode, p: Path, q: Path)
    requires p in g.disk.blocks && q in g.disk.blocks && p != q
    ensures g.disk.blocks[p] != g.disk.blocks[q]
  {
    assert g.disk.role[g.disk.blocks[p]] == p && g.disk.role[g.disk.blocks[q]] == q;
  }

  // Two blocks of the file never share a disk block.
  lemma BlocksApart(g: GoodInode, a: nat, b: nat)
    requires a < MAXFILE && b < MAXFILE && a != b && Leaf(a) in g.disk.blocks && Leaf(b) in g.disk.blocks
    ensures g.disk.blocks[Leaf(a)] != g.disk.blocks[Leaf(b)]
  {
    LeafNumber(a);
    LeafNumber(b);
    OneBlock(g, Leaf(a), Leaf(b));
  }

  lemma PatchedBytes(g: GoodInode, q: Path, at: nat, src: seq<byte>, p: Path, k: nat)
    requires q in g.disk.blocks && at + |src| <= BSIZE && k < BSIZE
    ensures ByteOf(WithBytes(g, q, at, src).disk, p, k) == if p == q && at <= k < at + |src| then src[k - at] else ByteOf(g.disk, p, k)
  {
    var h := WithBytes(g, q, at, src);
    PatchedAt(g.disk.data[g.disk.blocks[q]], at, src, k);
    if p in g.disk.blocks && p != q {
      OneBlock(g, p, q);
    }
  }

  lemma PutByte(g: GoodInode, off: nat, src: seq<byte>, o: nat)
    requires off < MAXBYTES && Leaf(off / BSIZE) in g.disk.blocks && off % BSIZE + |src| <= BSIZE && o < MAXBYTES
    ensures ByteAt(WithBytes(g, Leaf(off / BSIZE), off % BSIZE, src).disk, o) ==
            if off <= o < off + |src| then src[o - off] else ByteAt(g.disk, o)
  {
    PatchedBytes(g, Leaf(off / BSIZE), off % BSIZE, src, Leaf(o / BSIZE), o % BSIZE);
    LeafNumber(o / BSIZE);
    LeafNumber(off / BSIZE);
  }

  lemma PutBytes(g: GoodInode, off: nat, src: seq<byte>)
    requires off + |src| <= MAXBYTES && off < MAXBYTES && Leaf(off / BSIZE) in g.disk.blocks && off % BSIZE + |src| <= BSIZE
    ensures View(WithBytes(g, Leaf(off / BSIZE), off % BSIZE, src).disk) == Patched(View(g.disk), off, src)
  {
    var v, w := View(g.disk), View(WithBytes(g, Leaf(off / BSIZE), off % BSIZE, src).disk);
    forall o | 0 <= o < MAXBYTES
      ensures w[o] == Patched(v, off, src)[o]
    {
      PutByte(g, off, src, o);
      PatchedAt(v, off, src, o);
    }
  }

  lemma ByteInBlock(g: GoodInode, off: nat, k: nat)
    requires off + k < MAXBYTES && off % BSIZE + k < BSIZE && Leaf(off / BSIZE) in g.disk.blocks
    ensures (off + k) / BSIZE == off / BSIZE && (off + k) % BSIZE == off % BSIZE + k
    ensures var b := g.disk.blocks[Leaf(off / BSIZE)];
            && 0 <= b < |g.disk.data| && |g.disk.data[b]| == BSIZE
            && g.disk.data[b][off % BSIZE + k] == ByteAt(g.disk, off + k)
  {
    assert g.disk.used[g.disk.blocks[Leaf(off / BSIZE)]];
  }

  lemma {:induction false} BytesOfBlock(g: GoodInode, off: nat, m: nat)
    requires off + m <= MAXBYTES && off < MAXBYTES && off % BSIZE + m <= BSIZE && Leaf(off / BSIZE) in g.disk.blocks
    ensures var b := g.disk.blocks[Leaf(off / BSIZE)];
            && 0 <= b < |g.disk.data| && |g.disk.data[b]| == BSIZE
            && g.disk.data[b][off % BSIZE..off % BSIZE + m] == View(g.disk)[off..off + m]
  {
    if m == 0 {
      assert g.disk.used[g.disk.blocks[Leaf(off / BSIZE)]];
    } else {
      BytesOfBlock(g, off, m - 1);
      ByteInBlock(g, off, m - 1);
      OneByteMore(g.disk.data[g.disk.blocks[Leaf(off / BSIZE)]], off % BSIZE, View(g.disk), off, m);
    }
  }

  lemma OneByteMore(v: seq<byte>, i: nat, w: seq<byte>, j: nat, m: nat)
    requires m > 0 && i + m <= |v| && j + m <= |w| && v[i..i + (m - 1)] == w[j..j + (m - 1)] && v[i + (m - 1)] == w[j + (m - 1)]
    ensures v[i..i + m] == w[j..j + m]
  {
    SliceLast(v, i, m);
    SliceLast(w, j, m);
  }

  lemma SliceLast(v: seq<byte>, off: nat, m: nat)
    requires off + m <= |v| && m > 0
    ensures v[off..off + m] == v[off..off + (m - 1)] + [v[off + (m - 1)]]
  {
  }

  lemma SliceMore(v: seq<byte>, off: nat, tot: nat, m: nat)
    requires off + tot + m <= |v|
    ensures v[off..off + tot] + v[off + tot..off + tot + m] == v[off..off + tot + m]
  {
  }

  lemma PatchMore(v: seq<byte>, off: nat, src: seq<byte>, tot: nat, m: nat)
    requires off + |src| <= |v| && tot + m <= |src|
    ensures |Patched(v, off, src[..tot])| == |v|
    ensures Patched(Patched(v, off, src[..tot]), off + tot, src[tot..tot + m]) == Patched(v, off, src[..tot + m])
  {
  }

  lemma PatchEnds(v: seq<byte>, off: nat, src: seq<byte>)
    requires off + |src| <= |v|
    ensures Patched(v, off, src[..0]) == v && Patched(v, off, src[..|src|]) == Patched(v, off, src)
  {
    assert src[..|src|] == src;
    assert v == v[..off] + [] + v[off..];
  }

  // min(n - tot, BSIZE - off%BSIZE)
  function Chunk(n: nat, tot: nat, off: nat): (m: nat)
    requires tot < n
    ensures 0 < m <= n - tot && off % BSIZE + m <= BSIZE
  {
    if n - tot < BSIZE - off % BSIZE then n - tot else BSIZE - off % BSIZE
  }

  lemma EmptyFile(d: Disk)
    requires Sized(d) && d.blocks == map[] && d.role == map[]
    ensures Good(Zeros(NDIRECT + 3), d) && ZeroFrom(View(d), 0)
  {
  }

  // After a write, no byte at or past the size has been left behind either.
  lemma StillWhole(d: Disk, size: nat, e: Disk, size': nat, src: seq<byte>, off: nat)
    requires size <= MAXBYTES && off + |src| <= MAXBYTES && ZeroFrom(View(d), size) && View(e) == Patched(View(d), off, src)
    requires size' == if |src| > 0 && off + |src| > size then off + |src| else size
    ensures size' <= MAXBYTES && ZeroFrom(View(e), size') && View(e)[..size'] == Written(View(d)[..size], src, off)
  {
    PatchedIsWritten(View(d), size, src, off);
  }

  lemma SliceOfPrefix(v: seq<byte>, size: nat, off: nat, r: nat)
    requires off + r <= size <= |v|
    ensures v[..size][off..off + r] == v[off..off + r]
  {
  }

  class File {
    const used: array<bool>
    var words: seq<seq<int>>
    var data: seq<seq<byte>>
    const addrs: array<int>
    var size: nat
    // The same, and which block is where.
    ghost var inode: GoodInode

    ghost predicate Holds(g: Inode)
      reads this, used, addrs
    {
      addrs[..] == g.addrs && used[..] == g.disk.used && words == g.disk.words && data == g.disk.data
    }

    ghost predicate Valid()
      reads this, used, addrs
    {
      Holds(inode)
    }

    // No byte at or past the size has been left behind.
    ghost predicate Whole()
      reads this, used, addrs
    {
      Valid() && size <= MAXBYTES && ZeroFrom(View(inode.disk), size)
    }

    ghost function Contents(): seq<byte>
      requires size <= MAXBYTES
      reads this
    {
      View(inode.disk)[..size]
    }

    // An empty file on a disk with these blocks in use, among them the first.
    constructor (inUse: seq<bool>, words: seq<seq<int>>, data: seq<seq<byte>>)
      requires Sized(Disk(inUse, words, data, map[], map[]))
      ensures Valid() && Whole() && size == 0 && Contents() == [] && fresh(used) && fresh(addrs)
      ensures inode == Inode(Zeros(NDIRECT + 3), Disk(inUse, words, data, map[], map[]))
    {
      used := new bool[|inUse|](i requires 0 <= i < |inUse| => inUse[i]);
      addrs := new int[NDIRECT + 3](_ => 0);
      this.words, this.data, size := words, data, 0;
      EmptyFile(Disk(inUse, words, data, map[], map[]));
      inode := Inode(Zeros(NDIRECT + 3), Disk(inUse, words, data, map[], map[]));
    }

    // balloc: the first free block, zeroed; out of blocks the kernel panics.
    method Balloc() returns (ok: bool, b: int)
      requires Valid()
      modifies used, this`words, this`data
      ensures ok ==> 0 < b < |inode.disk.used| == |inode.disk.words| == |inode.disk.data| && !inode.disk.used[b]
      ensures ok ==> forall c :: 0 <= c < b ==> inode.disk.used[c]
      ensures ok ==> used[..] == inode.disk.used[b := true] && words == Zeroed(inode.disk.words, b)
      ensures ok ==> data == inode.disk.data[b := Zeros(BSIZE)]
      ensures !ok ==> Valid() && forall c :: 0 <= c < used.Length ==> used[c]
    {
      b := 0;
      while b < used.Length
        invariant 0 <= b <= used.Length && Valid() && forall c :: 0 <= c < b ==> used[c]
      {
        if !used[b] {
          used[b] := true;
          words := words[b := Zeros(NINDIRECT)];
          data := data[b := Zeros(BSIZE)];
          return true, b;
        }
        b := b + 1;
      }
      ok := false;
    }

    // if((addr = ip->addrs[r]) == 0) ip->addrs[r] = addr = balloc(dev)
    method Root(r: nat) returns (ok: bool, addr: int)
      requires Valid() && r < NDIRECT + 3
      modifies used, addrs, this`words, this`data, this`inode
      ensures Valid() && Extends(old(inode).disk, inode.disk)
      ensures ok ==> [r] in inode.disk.blocks && addr == inode.disk.blocks[[r]]
      ensures forall q :: q in inode.disk.blocks && q !in old(inode).disk.blocks ==> q == [r]
      ensures !ok ==> forall c :: 0 <= c < used.Length ==> used[c]
    {
      RootIs(inode, r);
      ok, addr := true, addrs[r];
      if addr == 0 {
        ok, addr := Balloc();
        if ok {
          addrs[r] := addr;
          inode := WithRoot(inode, r, addr);
        }
      }
    }

    // The same for word i of the indirect block `at`, whose place is p.
    method Descend(at: int, i: nat, ghost p: Path) returns (ok: bool, addr: int)
      requires Valid() && i < NINDIRECT && p in inode.disk.blocks && !IsLeaf(p) && at == inode.disk.blocks[p]
      modifies used, this`words, this`data, this`inode
      ensures Valid() && Extends(old(inode).disk, inode.disk)
      ensures ok ==> p + [i] in inode.disk.blocks && addr == inode.disk.blocks[p + [i]]
      ensures forall q :: q in inode.disk.blocks && q !in old(inode).disk.blocks ==> q == p + [i]
      ensures !ok ==> forall c :: 0 <= c < used.Length ==> used[c]
    {
      WordIs(inode, p, i);
      ok, addr := true, words[at][i];
      if addr == 0 {
        ok, addr := NewBelow(at, i, p);
      }
    }

    method NewBelow(at: int, i: nat, ghost p: Path) returns (ok: bool, addr: int)
      requires Valid() && i < NINDIRECT && p in inode.disk.blocks && !IsLeaf(p) && at == inode.disk.blocks[p]
      requires p + [i] !in inode.disk.blocks
      modifies used, this`words, this`data, this`inode
      ensures Valid() && Extends(old(inode).disk, inode.disk)
      ensures ok ==> p + [i] in inode.disk.blocks && addr == inode.disk.blocks[p + [i]]
      ensures forall q :: q in inode.disk.blocks && q !in old(inode).disk.blocks ==> q == p + [i]
      ensures !ok ==> forall c :: 0 <= c < used.Length ==> used[c]
    {
      WordIs(inode, p, i);
      ok, addr := Balloc();
      if ok {
        words := words[at := words[at][i := addr]];
        inode := WithBelow(inode, p, i, addr);
      }
    }

    // bmap.  The steps that each tier writes out are one loop over the word numbers it
    // works out; a block number past the largest file makes the kernel panic.
    method Bmap(bn: nat) returns (ok: bool, addr: int)
      requires Valid()
      modifies used, addrs, this`words, this`data, this`inode
      ensures Valid()
      ensures bn >= MAXFILE ==> !ok && inode == old(inode)
      ensures bn < MAXFILE ==> OnWay(old(inode), inode, Leaf(bn))
      ensures ok ==> Leaf(bn) in inode.disk.blocks && addr == inode.disk.blocks[Leaf(bn)]
      ensures !ok && bn < MAXFILE ==> forall c :: 0 <= c < used.Length ==> used[c]
    {
      if bn >= MAXFILE {
        return false, 0;
      }
      var leaf := Tiers(bn);
      ok, addr := true, 0;
      var k := 0;
      while ok && k < |leaf|
        invariant Valid() && k <= |leaf| && OnWay(old(inode), inode, leaf)
        invariant ok && k > 0 ==> leaf[..k] in inode.disk.blocks && addr == inode.disk.blocks[leaf[..k]]
        invariant !ok ==> forall c :: 0 <= c < used.Length ==> used[c]
        decreases ok, |leaf| - k
      {
        ok, addr := Step(addr, leaf, k, old(inode));
        k := k + 1;
      }
      assert leaf[..|leaf|] == leaf;
    }

    // The word numbers, tier by tier.
    method Tiers(bn0: nat) returns (p: seq<int>)
      requires bn0 < MAXFILE
      ensures p == Leaf(bn0)
    {
      var bn := bn0;
      if bn < NDIRECT {
        return [bn];
      }
      bn := bn - NDIRECT;
      if bn < NINDIRECT {
        return [NDIRECT, bn];
      }
      bn := bn - NINDIRECT;
      if bn < NDINDIRECT {
        return [NDIRECT + 1, bn / NINDIRECT, bn % NINDIRECT];
      }
      bn := bn - NDINDIRECT;
      p := [NDIRECT + 2, bn / NDINDIRECT, (bn % NDINDIRECT) / NINDIRECT, (bn % NDINDIRECT) % NINDIRECT];
    }

    // One step down: in the inode first, then in the indirect block that was found.
    method Step(at: int, leaf: Path, k: nat, ghost g: GoodInode) returns (ok: bool, addr: int)
      requires Valid() && IsLeaf(leaf) && k < |leaf| && OnWay(g, inode, leaf)
      requires k > 0 ==> leaf[..k] in inode.disk.blocks && at == inode.disk.blocks[leaf[..k]]
      modifies used, addrs, this`words, this`data, this`inode
      ensures Valid() && OnWay(g, inode, leaf)
      ensures ok ==> leaf[..k + 1] in inode.disk.blocks && addr == inode.disk.blocks[leaf[..k + 1]]
      ensures !ok ==> forall c :: 0 <= c < used.Length ==> used[c]
    {
      NextOnLeaf(leaf, k);
      if k == 0 {
        ok, addr := Root(leaf[0]);
      } else {
        ok, addr := Descend(at, leaf[k], leaf[..k]);
      }
      StillOnWay(g, old(inode), inode, leaf, leaf[..k + 1]);
    }

    // bfree: to free a free block makes the kernel panic.
    method Bfree(b: int) returns (ok: bool)
      requires 0 <= b < used.Length
      modifies used
      ensures ok == old(used[b]) && used[..] == old(used[..])[b := false]
    {
      if !used[b] {
        return false;
      }
      used[b] := false;
      ok := true;
    }

    // The words of indirect block b, and what hangs on them, `levels` levels down; the
    // block itself is freed by the caller.  itrunc writes the loops for one, two and
    // three levels out.
    method FreeBelow(b: int, levels: nat, ghost p: Path, ghost gone0: set<Path>) returns (ok: bool, ghost gone: set<Path>)
      requires words == inode.disk.words && Cleared(inode.disk, used[..], gone0)
      requires p in inode.disk.blocks && IsPath(p) && !IsLeaf(p) && levels == Depth(p[0]) - |p|
      requires b == inode.disk.blocks[p] && forall q :: q in gone0 ==> !(p < q)
      modifies used
      ensures ok && Cleared(inode.disk, used[..], gone)
      ensures forall q :: q in gone <==> q in gone0 || (q in inode.disk.blocks && p < q)
      decreases levels
    {
      ok, gone := true, gone0;
      var j := 0;
      while j < NINDIRECT
        invariant 0 <= j <= NINDIRECT && ok && Cleared(inode.disk, used[..], gone)
        invariant forall q :: q in gone <==> q in gone0 || (q in inode.disk.blocks && p < q && q[|p|] < j)
      {
        ghost var c := p + [j];
        WordIs(inode, p, j);
        PathAppend(p, j);
        NothingGone(p, j, gone, gone0, inode);
        var w := words[b][j];
        if w != 0 {
          if levels > 1 {
            ok, gone := FreeBelow(w, levels - 1, c, gone);
          }
          ClearedOne(inode, used[..], gone, c);
          ok := Bfree(w);
          gone := gone + {c};
        }
        j := j + 1;
      }
    }

    // The tree below address r of the inode.
    method FreeRoot(r: nat, ghost g: GoodInode, ghost gone0: set<Path>) returns (ok: bool, ghost gone: set<Path>)
      requires words == inode.disk.words && inode == g && Cleared(g.disk, used[..], gone0) && r < NDIRECT + 3 == addrs.Length
      requires addrs[r] == g.addrs[r] && forall q :: q in gone0 <==> q in g.disk.blocks && q[0] < r
      modifies used, addrs
      ensures ok && Cleared(g.disk, used[..], gone) && addrs[..] == old(addrs[..])[r := 0]
      ensures forall q :: q in gone <==> q in g.disk.blocks && q[0] < r + 1
    {
      ok, gone := true, gone0;
      RootIs(g, r);
      UnderRoot(g, r);
      if addrs[r] != 0 {
        if r >= NDIRECT {
          ok, gone := FreeBelow(addrs[r], r - NDIRECT + 1, [r], gone);
        }
        ClearedOne(g, used[..], gone, [r]);
        ok := Bfree(addrs[r]);
        gone := gone + {[r]};
        addrs[r] := 0;
      }
    }

    // itrunc: every block of the file is freed, once, and no other.
    method Itrunc() returns (ok: bool)
      requires Valid()
      modifies used, addrs, this`size, this`inode
      ensures ok && Whole() && size == 0 && Contents() == []
      ensures inode == Inode(Zeros(NDIRECT + 3), Disk(used[..], words, data, map[], map[]))
      ensures forall b :: 0 <= b < used.Length ==> (used[b] <==> old(used[b]) && b !in old(inode).disk.role)
    {
      ghost var g: GoodInode, gone: set<Path> := inode, {};
      ok := true;
      var r := 0;
      while r < NDIRECT + 3
        invariant 0 <= r <= NDIRECT + 3 == addrs.Length && ok && inode == g
        invariant forall i :: 0 <= i < addrs.Length ==> addrs[i] == if i < r then 0 else g.addrs[i]
        invariant Cleared(g.disk, used[..], gone) && forall q :: q in gone <==> q in g.disk.blocks && q[0] < r
      {
        ok, gone := FreeRoot(r, g, gone);
        r := r + 1;
      }
      size := 0;
      assert addrs[..] == Zeros(NDIRECT + 3);
      AllCleared(g, used[..], gone);
      inode := Inode(Zeros(NDIRECT + 3), Disk(used[..], words, data, map[], map[]));
      EmptyFile(inode.disk);
    }

    // readi.  It maps holes too, to new blocks of zeros.  r is -1 or the number of bytes.
    method Readi(off: nat, n: nat) returns (ok: bool, r: int, dst: seq<byte>)
      requires Valid() && size <= MAXBYTES && off < 0x1_0000_0000 && n < 0x1_0000_0000
      modifies used, addrs, this`words, this`data, this`inode
      ensures Valid() && Others(old(inode).disk, inode.disk) && View(inode.disk) == View(old(inode).disk)
      ensures r == if off > size || off + n >= 0x1_0000_0000 then -1 else if off + n > size then size - off else n
      ensures ok && r >= 0 ==> dst == old(Contents())[off..off + r]
      ensures old(Whole()) ==> Whole() && Contents() == old(Contents())
      ensures !ok ==> forall c :: 0 <= c < used.Length ==> used[c]
    {
      if off > size || off + n >= 0x1_0000_0000 {
        return true, -1, [];
      }
      r := n;
      if off + n > size {
        r := size - off;
      }
      ok, dst := ReadBytes(off, r);
      SliceOfPrefix(View(old(inode).disk), size, off, r);
    }

    // Its loop.
    method ReadBytes(off0: nat, n: nat) returns (ok: bool, dst: seq<byte>)
      requires Valid() && off0 + n <= MAXBYTES
      modifies used, addrs, this`words, this`data, this`inode
      ensures Valid() && Others(old(inode).disk, inode.disk) && View(inode.disk) == View(old(inode).disk)
      ensures ok ==> dst == View(old(inode).disk)[off0..off0 + n]
      ensures !ok ==> forall c :: 0 <= c < used.Length ==> used[c]
    {
      ok, dst := true, [];
      var off, tot := off0, 0;
      ghost var v := View(inode.disk);
      while ok && tot < n
        invariant Valid() && Others(old(inode).disk, inode.disk) && View(inode.disk) == v
        invariant tot <= n && off == off0 + tot
        invariant ok ==> dst == v[off0..off0 + tot]
        invariant !ok ==> forall c :: 0 <= c < used.Length ==> used[c]
        decreases ok, n - tot
      {
        ghost var g := inode;
        var m := Chunk(n, tot, off);
        ok, dst := ReadNext(dst, off0, tot, m);
        OthersChain(old(inode).disk, g.disk, inode.disk);
        tot, off := tot + m, off + m;
      }
    }

    // After tot bytes, the next m.
    method ReadNext(dst0: seq<byte>, off0: nat, tot: nat, m: nat) returns (ok: bool, dst: seq<byte>)
      requires Valid() && off0 + tot + m <= MAXBYTES && 0 < m && (off0 + tot) % BSIZE + m <= BSIZE
      requires dst0 == View(inode.disk)[off0..off0 + tot]
      modifies used, addrs, this`words, this`data, this`inode
      ensures Valid() && Others(old(inode).disk, inode.disk) && View(inode.disk) == View(old(inode).disk)
      ensures ok ==> dst == View(old(inode).disk)[off0..off0 + (tot + m)]
      ensures !ok ==> forall c :: 0 <= c < used.Length ==> used[c]
    {
      var more;
      ok, more := ReadChunk(off0 + tot, m);
      SliceMore(View(old(inode).disk), off0, tot, m);
      dst := dst0 + more;
    }

    // bread, bmap and memmove of at most the rest of one block.
    method ReadChunk(off: nat, m: nat) returns (ok: bool, more: seq<byte>)
      requires Valid() && off + m <= MAXBYTES && 0 < m && off % BSIZE + m <= BSIZE
      modifies used, addrs, this`words, this`data, this`inode
      ensures Valid() && Others(old(inode).disk, inode.disk) && View(inode.disk) == View(old(inode).disk)
      ensures ok ==> more == View(old(inode).disk)[off..off + m]
      ensures !ok ==> forall c :: 0 <= c < used.Length ==> used[c]
    {
      var b;
      ok, b := Bmap(off / BSIZE);
      OnWayKeeps(old(inode), inode, Leaf(off / BSIZE));
      if !ok {
        return false, [];
      }
      BytesOfBlock(inode, off, m);
      more := data[b][off % BSIZE..off % BSIZE + m];
    }

    // The loop of writei and writei_p.
    method WriteBytes(src: seq<byte>, off0: nat) returns (ok: bool)
      requires Valid() && off0 + |src| <= MAXBYTES
      modifies used, addrs, this`words, this`data, this`inode
      ensures Valid() && Others(old(inode).disk, inode.disk)
      ensures ok ==> View(inode.disk) == Patched(View(old(inode).disk), off0, src)
      ensures !ok ==> forall c :: 0 <= c < used.Length ==> used[c]
    {
      ok := true;
      var n, off, tot := |src|, off0, 0;
      ghost var v := View(inode.disk);
      PatchEnds(v, off0, src);
      while ok && tot < n
        invariant Valid() && Others(old(inode).disk, inode.disk)
        invariant tot <= n && off == off0 + tot
        invariant ok ==> View(inode.disk) == Patched(v, off0, src[..tot])
        invariant !ok ==> forall c :: 0 <= c < used.Length ==> used[c]
        decreases ok, n - tot
      {
        var m := Chunk(n, tot, off);
        ok := WriteNext(src, off0, tot, m, v, old(inode).disk);
        tot, off := tot + m, off + m;
      }
    }

    // After tot bytes of src, the next m.
    method WriteNext(src: seq<byte>, off0: nat, tot: nat, m: nat, ghost v: seq<byte>, ghost d: Disk) returns (ok: bool)
      requires Valid() && Others(d, inode.disk) && |v| == MAXBYTES && off0 + |src| <= MAXBYTES && tot + m <= |src|
      requires 0 < m && (off0 + tot) % BSIZE + m <= BSIZE && View(inode.disk) == Patched(v, off0, src[..tot])
      modifies used, addrs, this`words, this`data, this`inode
      ensures Valid() && Others(d, inode.disk)
      ensures ok ==> View(inode.disk) == Patched(v, off0, src[..tot + m])
      ensures !ok ==> forall c :: 0 <= c < used.Length ==> used[c]
    {
      ok := WriteChunk(off0 + tot, src[tot..tot + m]);
      OthersChain(d, old(inode).disk, inode.disk);
      PatchMore(v, off0, src, tot, m);
    }

    method WriteChunk(off: nat, more: seq<byte>) returns (ok: bool)
      requires Valid() && off + |more| <= MAXBYTES && 0 < |more| && off % BSIZE + |more| <= BSIZE
      modifies used, addrs, this`words, this`data, this`inode
      ensures Valid() && Others(old(inode).disk, inode.disk)
      ensures ok ==> View(inode.disk) == Patched(View(old(inode).disk), off, more)
      ensures !ok ==> forall c :: 0 <= c < used.Length ==> used[c]
    {
      var b;
      ok, b := Bmap(off / BSIZE);
      OnWayKeeps(old(inode), inode, Leaf(off / BSIZE));
      if ok {
        ghost var h := inode;
        PutBytes(h, off, more);
        inode := WithBytes(h, Leaf(off / BSIZE), off % BSIZE, more);
        data := data[b := Patched(data[b], off % BSIZE, more)];
        OthersChain(old(inode).disk, h.disk, inode.disk);
      }
    }

    // writei: not past the end of the file.
    method Writei(src: seq<byte>, off: nat) returns (ok: bool, r: int)
      requires Valid() && off < 0x1_0000_0000 && |src| < 0x1_0000_0000
      modifies used, addrs, this`words, this`data, this`inode, this`size
      ensures Valid() && Others(old(inode).disk, inode.disk)
      ensures r == if off > old(size) || off + |src| > MAXBYTES then -1 else |src|
      ensures r == -1 ==> ok && inode == old(inode) && size == old(size)
      ensures ok && r >= 0 ==> View(inode.disk) == Patched(View(old(inode).disk), off, src)
      ensures ok && old(Whole()) ==> Whole() && Contents() == After(old(Contents()), Write(src, off), MAXBYTES)
      ensures ok && r >= 0 ==> size == if |src| > 0 && off + |src| > old(size) then off + |src| else old(size)
      ensures !ok ==> forall c :: 0 <= c < used.Length ==> used[c]
    {
      if off > size || off + |src| >= 0x1_0000_0000 {
        return true, -1;
      }
      if off + |src| > MAXBYTES {
        return true, -1;
      }
      ok := WriteBytes(src, off);
      r := |src|;
      if ok && |src| > 0 && off + |src| > size {
        size := off + |src|;
      }
      if ok && old(Whole()) {
        StillWhole(old(inode).disk, old(size), inode.disk, size, src, off);
      }
    }

    // writei_p: anywhere; what lies between reads as zero.
    method WriteiP(src: seq<byte>, off: nat) returns (ok: bool, r: int)
      requires Valid() && off < 0x1_0000_0000 && |src| < 0x1_0000_0000
      modifies used, addrs, this`words, this`data, this`inode, this`size
      ensures Valid() && Others(old(inode).disk, inode.disk)
      ensures r == if off + |src| > MAXBYTES then -1 else |src|
      ensures r == -1 ==> ok && inode == old(inode) && size == old(size)
      ensures ok && r >= 0 ==> View(inode.disk) == Patched(View(old(inode).disk), off, src)
      ensures ok && old(Whole()) ==> Whole() && Contents() == After(old(Contents()), WriteAnywhere(src, off), MAXBYTES)
      ensures ok && r >= 0 ==> size == if |src| > 0 && off + |src| > old(size) then off + |src| else old(size)
      ensures !ok ==> forall c :: 0 <= c < used.Length ==> used[c]
    {
      if off + |src| >= 0x1_0000_0000 {
        return true, -1;
      }
      if off + |src| > MAXBYTES {
        return true, -1;
      }
      ok := WriteBytes(src, off);
      r := |src|;
      if ok && |src| > 0 && off + |src| > size {
        size := off + |src|;
      }
      if ok && old(Whole()) {
        StillWhole(old(inode).disk, old(size), inode.disk, size, src, off);
      }
    }
  }

  lemma UnderRoot(g: GoodInode, r: nat)
    ensures forall q :: q in g.disk.blocks ==> q != [] && 0 <= q[0] < NDIRECT + 3
    ensures forall q :: q in g.disk.blocks && q[0] == r ==> q == [r] || (r >= NDIRECT && [r] < q)
    ensures [r] !in g.disk.blocks ==> forall q :: q in g.disk.blocks ==> q[0] != r
    ensures r < NDIRECT + 3 ==> IsPath([r]) && (r >= NDIRECT ==> !IsLeaf([r]))
  {
    forall q | q in g.disk.blocks
      ensures IsPath(q) && (q[0] == r ==> [r] in g.disk.blocks && (q == [r] || (r >= NDIRECT && [r] < q)))
    {
      if q[0] == r && [r] !in g.disk.blocks {
        EmptyBelow(g, [r], q);
      }
    }
  }

  lemma NothingGone(p: Path, j: nat, gone: set<Path>, gone0: set<Path>, g: GoodInode)
    requires p in g.disk.blocks && !IsLeaf(p) && IsPath(p) && j < NINDIRECT
    requires forall q :: q in gone0 ==> !(p < q)
    requires forall q :: q in gone <==> q in gone0 || (q in g.disk.blocks && p < q && q[|p|] < j)
    ensures p + [j] !in gone && forall q :: q in gone ==> !(p + [j] < q)
    ensures forall q :: q in g.disk.blocks && p < q && q[|p|] == j ==> q == p + [j] || (Depth(p[0]) - |p| > 1 && p + [j] < q)
    ensures p + [j] !in g.disk.blocks ==> forall q :: q in g.disk.blocks && p < q ==> q[|p|] != j
    ensures forall q :: q == p + [j] || p + [j] < q ==> p < q && q[|p|] == j
  {
    forall q | q in g.disk.blocks && p < q && q[|p|] == j
      ensures q == p + [j] || (Depth(p[0]) - |p| > 1 && p + [j] < q)
      ensures p + [j] in g.disk.blocks
    {
      assert IsPath(q) && p[0] == q[0];
      if p + [j] !in g.disk.blocks {
        EmptyBelow(g, p + [j], q);
      }
    }
  }
}
