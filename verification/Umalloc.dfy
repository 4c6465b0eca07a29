/** The allocator of umalloc.c: one circular list of the free blocks in address order,
    split on malloc and joined on both sides on free.  Addresses and sizes are counted
    in units of one header. */
module Umalloc {

  // ---------- the heap as blocks ----------

  datatype Block = Block(addr: int, size: int)

  function End(b: Block): int {
    b.addr + b.size
  }

  // The list from base on, the place of freep in it, the blocks handed out with their
  // sizes, and every unit that sbrk has given so far.
  datatype Heap = Heap(nodes: seq<Block>, at: nat, live: map<int, int>, owned: set<int>)

  predicate Apart(a: Block, b: Block) {
    End(a) <= b.addr || End(b) <= a.addr
  }

  predicate Within(u: int, b: Block) {
    b.addr <= u < End(b)
  }

  // base comes first, and between two free blocks there is always a unit in use or not
  // owned.
  predicate Ordered(nodes: seq<Block>, base: int) {
    && nodes != [] && nodes[0] == Block(base, 0) && Rising(nodes)
    && (forall i :: 1 <= i < |nodes| ==> nodes[i].size > 0)
  }

  predicate Rising(nodes: seq<Block>) {
    && (forall i :: 0 <= i < |nodes| ==> nodes[i].size >= 0)
    && (forall i, j :: 0 <= i < j < |nodes| ==> End(nodes[i]) < nodes[j].addr)
  }

  predicate LiveApart(nodes: seq<Block>, live: map<int, int>, base: int) {
    && (forall a :: a in live ==> live[a] > 0 && base < a)
    && (forall a, b :: a in live && b in live && a != b ==> Apart(Block(a, live[a]), Block(b, live[b])))
    && (forall a, i :: a in live && 1 <= i < |nodes| ==> Apart(Block(a, live[a]), nodes[i]))
  }

  predicate IsFree(nodes: seq<Block>, u: int) {
    exists i :: 0 <= i < |nodes| && Within(u, nodes[i])
  }

  predicate IsLive(live: map<int, int>, u: int) {
    exists a :: a in live && Within(u, Block(a, live[a]))
  }

  ghost predicate Inv(h: Heap, base: int) {
    && Ordered(h.nodes, base) && h.at < |h.nodes| && LiveApart(h.nodes, h.live, base)
    && forall u :: u in h.owned <==> IsFree(h.nodes, u) || IsLive(h.live, u)
  }

  // ---------- free ----------

  // The last node below a.
  function Pred(nodes: seq<Block>, a: int): (i: nat)
    requires nodes != [] && nodes[0].addr < a
    ensures i < |nodes| && nodes[i].addr < a
    ensures i + 1 < |nodes| ==> nodes[i + 1].addr >= a
  {
    if nodes[|nodes| - 1].addr < a then |nodes| - 1 else Pred(nodes[..|nodes| - 1], a)
  }

  // Joined with the node after it.
  function JoinRight(b: Block, rest: seq<Block>): (tail: seq<Block>)
    ensures tail != [] && tail[0].addr == b.addr && (b.size >= 0 && (rest != [] ==> rest[0].size >= 0) ==> tail[0].size >= b.size)
  {
    if rest != [] && End(b) == rest[0].addr then [Block(b.addr, b.size + rest[0].size)] + rest[1..] else [b] + rest
  }

  function Inserted(nodes: seq<Block>, i: nat, b: Block): seq<Block>
    requires i < |nodes|
  {
    JoinLeft(nodes[..i], nodes[i], JoinRight(b, nodes[i + 1..]))
  }

  function Freed(h: Heap, a: int): Heap
    requires h.nodes != [] && a in h.live && h.nodes[0].addr < a
  {
    var i := Pred(h.nodes, a);
    Heap(Inserted(h.nodes, i, Block(a, h.live[a])), i, h.live - {a}, h.owned)
  }

  // A block that no node touches goes between two of them.
  predicate Fits(nodes: seq<Block>, i: nat, b: Block) {
    && i < |nodes| && b.size > 0
    && End(nodes[i]) <= b.addr && (i + 1 < |nodes| ==> End(b) <= nodes[i + 1].addr)
    && (i == 0 ==> nodes[0].addr < b.addr)
  }

  lemma RisingConcat(a: seq<Block>, b: seq<Block>)
    requires Rising(a) && Rising(b) && (a != [] && b != [] ==> End(a[|a| - 1]) < b[0].addr)
    ensures Rising(a + b)
  {
    var c := a + b;
    forall i, j | 0 <= i < j < |c|
      ensures End(c[i]) < c[j].addr
    {
      if i < |a| <= j {
        assert End(a[i]) <= End(a[|a| - 1]) && b[0].addr <= b[j - |a|].addr;
      }
    }
  }

  lemma RisingPart(nodes: seq<Block>, i: nat, j: nat)
    requires Rising(nodes) && i <= j <= |nodes|
    ensures Rising(nodes[i..j])
  {
  }

  lemma FreeConcat(a: seq<Block>, b: seq<Block>, u: int)
    ensures IsFree(a + b, u) <==> IsFree(a, u) || IsFree(b, u)
  {
    var c := a + b;
    if i :| 0 <= i < |a| && Within(u, a[i]) {
      assert Within(u, c[i]);
    }
    if i :| 0 <= i < |b| && Within(u, b[i]) {
      assert Within(u, c[|a| + i]);
    }
  }

  lemma FreeOne(b: Block, u: int)
    ensures IsFree([b], u) <==> Within(u, b)
  {
    assert [b][0] == b;
    if Within(u, b) {
      assert Within(u, [b][0]);
    }
  }

  lemma FreeCons(b: Block, rest: seq<Block>, u: int)
    ensures IsFree([b] + rest, u) <==> Within(u, b) || IsFree(rest, u)
  {
    FreeOne(b, u);
    FreeConcat([b], rest, u);
  }

  // The last block grows up to where the next one ended.
  lemma JoinRightRising(b: Block, rest: seq<Block>)
    requires b.size >= 0 && Rising(rest) && (rest != [] ==> End(b) <= rest[0].addr)
    ensures Rising(JoinRight(b, rest))
  {
    if rest != [] && End(b) == rest[0].addr {
      RisingPart(rest, 1, |rest|);
      RisingConcat([Block(b.addr, b.size + rest[0].size)], rest[1..]);
    } else {
      RisingConcat([b], rest);
    }
  }

  lemma JoinRightCovers(b: Block, rest: seq<Block>, u: int)
    requires b.size >= 0 && (rest != [] ==> rest[0].size >= 0)
    ensures IsFree(JoinRight(b, rest), u) <==> Within(u, b) || IsFree(rest, u)
  {
    if rest != [] && End(b) == rest[0].addr {
      assert rest == [rest[0]] + rest[1..];
      FreeCons(rest[0], rest[1..], u);
      FreeCons(Block(b.addr, b.size + rest[0].size), rest[1..], u);
    } else {
      FreeCons(b, rest, u);
    }
  }

  function JoinLeft(before: seq<Block>, p: Block, tail: seq<Block>): seq<Block>
    requires tail != []
  {
    before + if End(p) == tail[0].addr then [Block(p.addr, p.size + tail[0].size)] + tail[1..] else [p] + tail
  }

  lemma LastGrows(before: seq<Block>, p: Block, joined: Block)
    requires Rising(before + [p]) && joined.addr == p.addr && joined.size >= p.size
    ensures Rising(before + [joined])
  {
    var c, d := before + [p], before + [joined];
    assert forall i :: 0 <= i < |before| ==> c[i] == d[i];
    assert c[|before|] == p && d[|before|] == joined;
  }

  lemma JoinLeftRising(before: seq<Block>, p: Block, tail: seq<Block>)
    requires Rising(before + [p]) && Rising(tail) && tail != [] && End(p) <= tail[0].addr
    ensures Rising(JoinLeft(before, p, tail))
  {
    if End(p) == tail[0].addr {
      var joined := Block(p.addr, p.size + tail[0].size);
      RisingPart(tail, 1, |tail|);
      LastGrows(before, p, joined);
      RisingConcat(before + [joined], tail[1..]);
      assert before + [joined] + tail[1..] == before + ([joined] + tail[1..]);
    } else {
      RisingConcat(before + [p], tail);
      assert before + [p] + tail == before + ([p] + tail);
    }
  }

  lemma JoinLeftCovers(before: seq<Block>, p: Block, tail: seq<Block>, u: int)
    requires tail != [] && p.size >= 0 && tail[0].size >= 0
    ensures IsFree(JoinLeft(before, p, tail), u) <==> IsFree(before, u) || Within(u, p) || IsFree(tail, u)
  {
    assert tail == [tail[0]] + tail[1..];
    FreeCons(tail[0], tail[1..], u);
    FreeCons(Block(p.addr, p.size + tail[0].size), tail[1..], u);
    FreeCons(p, tail, u);
    var end := if End(p) == tail[0].addr then [Block(p.addr, p.size + tail[0].size)] + tail[1..] else [p] + tail;
    FreeConcat(before, end, u);
  }

  lemma InsertedRising(nodes: seq<Block>, i: nat, b: Block)
    requires Rising(nodes) && Fits(nodes, i, b)
    ensures Rising(Inserted(nodes, i, b))
  {
    var rest := nodes[i + 1..];
    RisingPart(nodes, i + 1, |nodes|);
    JoinRightRising(b, rest);
    RisingPart(nodes, 0, i + 1);
    assert nodes[..i] + [nodes[i]] == nodes[0..i + 1];
    JoinLeftRising(nodes[..i], nodes[i], JoinRight(b, rest));
  }

  // Only base is empty, and it stays the first one.
  lemma InsertedSizes(nodes: seq<Block>, i: nat, b: Block)
    requires Fits(nodes, i, b) && nodes[0].size == 0 && forall j :: 1 <= j < |nodes| ==> nodes[j].size > 0
    ensures var t := Inserted(nodes, i, b); t != [] && t[0] == nodes[0] && forall j :: 1 <= j < |t| ==> t[j].size > 0
  {
  }

  lemma InsertedOrdered(nodes: seq<Block>, i: nat, b: Block, base: int)
    requires Ordered(nodes, base) && Fits(nodes, i, b)
    ensures Ordered(Inserted(nodes, i, b), base)
  {
    InsertedRising(nodes, i, b);
    InsertedSizes(nodes, i, b);
  }

  lemma InsertedCovers(nodes: seq<Block>, i: nat, b: Block, u: int)
    requires Rising(nodes) && Fits(nodes, i, b)
    ensures IsFree(Inserted(nodes, i, b), u) <==> IsFree(nodes, u) || Within(u, b)
  {
    var rest := nodes[i + 1..];
    JoinRightCovers(b, rest, u);
    JoinLeftCovers(nodes[..i], nodes[i], JoinRight(b, rest), u);
    assert nodes == nodes[..i] + ([nodes[i]] + rest);
    FreeCons(nodes[i], rest, u);
    FreeConcat(nodes[..i], [nodes[i]] + rest, u);
  }

  lemma BlockFits(h: Heap, a: int, base: int)
    requires Ordered(h.nodes, base) && LiveApart(h.nodes, h.live, base) && a in h.live
    ensures Fits(h.nodes, Pred(h.nodes, a), Block(a, h.live[a]))
  {
    var i := Pred(h.nodes, a);
    assert i > 0 ==> Apart(Block(a, h.live[a]), h.nodes[i]);
    assert i + 1 < |h.nodes| ==> Apart(Block(a, h.live[a]), h.nodes[i + 1]);
  }

  // Two blocks that have no unit in common are apart.
  lemma NothingCommon(a: Block, b: Block)
    requires a.size > 0 && b.size > 0 && forall u :: Within(u, a) ==> !Within(u, b)
    ensures Apart(a, b)
  {
    var u := if a.addr < b.addr then b.addr else a.addr;
    assert Within(u, a) ==> !Within(u, b);
  }

  lemma LiveUnit(nodes: seq<Block>, live: map<int, int>, base: int, a: int, u: int)
    requires Ordered(nodes, base) && LiveApart(nodes, live, base) && a in live && Within(u, Block(a, live[a]))
    ensures !IsFree(nodes, u) && forall b :: b in live && b != a ==> !Within(u, Block(b, live[b]))
  {
    forall i | 0 <= i < |nodes|
      ensures !Within(u, nodes[i])
    {
      if i >= 1 {
        assert Apart(Block(a, live[a]), nodes[i]);
      }
    }
    forall b | b in live && b != a
      ensures !Within(u, Block(b, live[b]))
    {
      assert Apart(Block(a, live[a]), Block(b, live[b]));
    }
  }

  lemma LiveLess(live: map<int, int>, a: int, u: int)
    requires a in live
    ensures IsLive(live, u) <==> Within(u, Block(a, live[a])) || IsLive(live - {a}, u)
  {
    if c :| c in live && Within(u, Block(c, live[c])) {
      assert c != a ==> c in live - {a};
    }
  }

  lemma LiveMore(live: map<int, int>, a: int, n: int, u: int)
    requires a !in live
    ensures IsLive(live[a := n], u) <==> Within(u, Block(a, n)) || IsLive(live, u)
  {
    LiveLess(live[a := n], a, u);
    assert live[a := n] - {a} == live;
  }

  // A block given back: it is no longer live, the list is in order and joined, and the
  // units are the same.
  lemma FreeKeeps(h: Heap, a: int, base: int)
    requires Inv(h, base) && a in h.live
    ensures Inv(Freed(h, a), base)
  {
    BlockFits(h, a, base);
    var i, b, h' := Pred(h.nodes, a), Block(a, h.live[a]), Freed(h, a);
    InsertedOrdered(h.nodes, i, b, base);
    forall c, j | c in h'.live && 1 <= j < |h'.nodes|
      ensures Apart(Block(c, h'.live[c]), h'.nodes[j])
    {
      forall u | Within(u, Block(c, h.live[c]))
        ensures !Within(u, h'.nodes[j])
      {
        LiveUnit(h.nodes, h.live, base, c, u);
        InsertedCovers(h.nodes, i, b, u);
      }
      NothingCommon(Block(c, h'.live[c]), h'.nodes[j]);
    }
    forall u
      ensures u in h'.owned <==> IsFree(h'.nodes, u) || IsLive(h'.live, u)
    {
      InsertedCovers(h.nodes, i, b, u);
      LiveLess(h.live, a, u);
    }
  }

  // ---------- malloc ----------

  const HEADER := 8

  // The block for nbytes, its header included.
  function Units(nbytes: nat): nat {
    (nbytes + HEADER - 1) / HEADER + 1
  }

  // Room for the bytes behind the header, and not for one unit too many.
  predicate Holds(units: int, nbytes: nat) {
    8 * (units - 1) >= nbytes > 8 * (units - 2)
  }

  lemma UnitsExactly(nbytes: nat, units: int)
    ensures Holds(units, nbytes) <==> units == Units(nbytes)
  {
  }

  function Succ(nodes: seq<Block>, i: nat): nat
    requires i < |nodes|
  {
    if i + 1 < |nodes| then i + 1 else 0
  }

  function Steps(nodes: seq<Block>, i: nat, stop: nat): nat
    requires i < |nodes| && stop < |nodes|
  {
    if i <= stop then stop - i else |nodes| - i + stop
  }

  // The first node from i on, around the circle up to stop, that is large enough.
  function FirstFit(nodes: seq<Block>, i: nat, stop: nat, n: nat): (r: nat)
    requires i < |nodes| && stop < |nodes|
    ensures r <= |nodes| && (r < |nodes| ==> nodes[r].size >= n)
    decreases Steps(nodes, i, stop)
  {
    if nodes[i].size >= n then i else if i == stop then |nodes| else FirstFit(nodes, Succ(nodes, i), stop, n)
  }

  lemma FirstFitGoesOn(nodes: seq<Block>, i: nat, stop: nat, n: nat)
    requires i < |nodes| && stop < |nodes| && nodes[i].size < n
    ensures FirstFit(nodes, i, stop, n) == if i == stop then |nodes| else FirstFit(nodes, Succ(nodes, i), stop, n)
  {
  }

  // All nodes on the way from i to it are too small, and it is not behind stop.
  lemma {:induction false} FirstFitIsFirst(nodes: seq<Block>, i: nat, stop: nat, n: nat, j: nat)
    requires i < |nodes| && stop < |nodes| && j < |nodes| && FirstFit(nodes, i, stop, n) < |nodes|
    ensures var r := FirstFit(nodes, i, stop, n);
            && nodes[r].size >= n && Steps(nodes, i, r) <= Steps(nodes, i, stop)
            && (Steps(nodes, i, j) < Steps(nodes, i, r) ==> nodes[j].size < n)
    decreases Steps(nodes, i, stop)
  {
    if nodes[i].size < n {
      FirstFitIsFirst(nodes, Succ(nodes, i), stop, n, j);
    }
  }

  // It looks at every node.
  lemma {:induction false} FirstFitLooks(nodes: seq<Block>, i: nat, stop: nat, n: nat, j: nat)
    requires i < |nodes| && stop < |nodes| && j < |nodes| && FirstFit(nodes, i, stop, n) == |nodes|
    requires if i <= stop then i <= j <= stop else i <= j || j <= stop
    ensures nodes[j].size < n
    decreases Steps(nodes, i, stop)
  {
    if i != j {
      FirstFitLooks(nodes, Succ(nodes, i), stop, n, j);
    }
  }

  lemma NothingFits(nodes: seq<Block>, at: nat, n: nat)
    requires at < |nodes| && FirstFit(nodes, Succ(nodes, at), at, n) == |nodes|
    ensures forall j :: 0 <= j < |nodes| ==> nodes[j].size < n
  {
    forall j | 0 <= j < |nodes|
      ensures nodes[j].size < n
    {
      FirstFitLooks(nodes, Succ(nodes, at), at, n, j);
    }
  }

  // The tail end of node i, or all of it.
  function Carved(h: Heap, i: nat, n: nat): (r: (Heap, int))
    requires 1 <= i < |h.nodes| && h.nodes[i].size >= n
  {
    var b := h.nodes[i];
    var a := End(b) - n;
    var nodes := if b.size == n then h.nodes[..i] + h.nodes[i + 1..] else h.nodes[i := Block(b.addr, b.size - n)];
    (Heap(nodes, i - 1, h.live[a := n], h.owned), a)
  }

  lemma CarvedOrdered(h: Heap, i: nat, n: nat, base: int)
    requires Ordered(h.nodes, base) && 1 <= i < |h.nodes| && h.nodes[i].size >= n >= 1
    ensures Ordered(Carved(h, i, n).0.nodes, base)
  {
    var nodes := h.nodes;
    if nodes[i].size == n {
      RisingPart(nodes, 0, i);
      RisingPart(nodes, i + 1, |nodes|);
      RisingConcat(nodes[..i], nodes[i + 1..]);
    }
  }

  lemma CarvedCovers(h: Heap, i: nat, n: nat, u: int)
    requires Rising(h.nodes) && 1 <= i < |h.nodes| && h.nodes[i].size >= n >= 1
    ensures var (h', a) := Carved(h, i, n);
            && (IsFree(h'.nodes, u) <==> IsFree(h.nodes, u) && !Within(u, Block(a, n)))
            && (Within(u, Block(a, n)) ==> IsFree(h.nodes, u))
  {
    if h.nodes[i].size == n {
      CarvedWhole(h.nodes, i, u);
    } else {
      CarvedPart(h.nodes, i, n, u);
    }
  }

  lemma CarvedWhole(nodes: seq<Block>, i: nat, u: int)
    requires Rising(nodes) && i < |nodes|
    ensures IsFree(nodes[..i] + nodes[i + 1..], u) <==> IsFree(nodes, u) && !Within(u, nodes[i])
    ensures Within(u, nodes[i]) ==> IsFree(nodes, u)
  {
    if Within(u, nodes[i]) {
      OthersApart(nodes, i, u);
    }
    WholeCovers(nodes[..i], nodes[i], nodes[i + 1..], u);
    assert nodes == nodes[..i] + ([nodes[i]] + nodes[i + 1..]);
  }

  lemma CarvedPart(nodes: seq<Block>, i: nat, n: nat, u: int)
    requires Rising(nodes) && i < |nodes| && nodes[i].size > n >= 1
    ensures var left, right := Block(nodes[i].addr, nodes[i].size - n), Block(End(nodes[i]) - n, n);
            && (IsFree(nodes[i := left], u) <==> IsFree(nodes, u) && !Within(u, right))
            && (Within(u, right) ==> IsFree(nodes, u))
  {
    var left := Block(nodes[i].addr, nodes[i].size - n);
    if Within(u, nodes[i]) {
      OthersApart(nodes, i, u);
    }
    CutCovers(nodes[..i], nodes[i], nodes[i + 1..], n, u);
    assert nodes == nodes[..i] + ([nodes[i]] + nodes[i + 1..]);
    assert nodes[i := left] == nodes[..i] + ([left] + nodes[i + 1..]);
  }

  lemma WholeCovers(before: seq<Block>, b: Block, after: seq<Block>, u: int)
    requires Within(u, b) ==> !IsFree(before, u) && !IsFree(after, u)
    ensures IsFree(before + after, u) <==> IsFree(before + ([b] + after), u) && !Within(u, b)
    ensures Within(u, b) ==> IsFree(before + ([b] + after), u)
  {
    FreeAround(before, b, after, u);
    FreeConcat(before, after, u);
  }

  lemma CutCovers(before: seq<Block>, b: Block, after: seq<Block>, n: nat, u: int)
    requires b.size > n >= 1 && (Within(u, b) ==> !IsFree(before, u) && !IsFree(after, u))
    ensures var left, right := Block(b.addr, b.size - n), Block(End(b) - n, n);
            && (IsFree(before + ([left] + after), u) <==> IsFree(before + ([b] + after), u) && !Within(u, right))
            && (Within(u, right) ==> IsFree(before + ([b] + after), u))
  {
    FreeAround(before, b, after, u);
    FreeAround(before, Block(b.addr, b.size - n), after, u);
  }

  lemma FreeAround(before: seq<Block>, b: Block, after: seq<Block>, u: int)
    ensures IsFree(before + ([b] + after), u) <==> IsFree(before, u) || Within(u, b) || IsFree(after, u)
  {
    FreeCons(b, after, u);
    FreeConcat(before, [b] + after, u);
  }

  lemma OthersApart(nodes: seq<Block>, i: nat, u: int)
    requires Rising(nodes) && i < |nodes| && Within(u, nodes[i])
    ensures !IsFree(nodes[..i], u) && !IsFree(nodes[i + 1..], u)
  {
  }

  lemma CarvedKeeps(h: Heap, i: nat, n: nat, base: int)
    requires Inv(h, base) && 1 <= i < |h.nodes| && h.nodes[i].size >= n >= 1
    ensures var (h', a) := Carved(h, i, n); Inv(h', base) && a !in h.live
  {
    var (h', a) := Carved(h, i, n);
    CarvedOrdered(h, i, n, base);
    CarvedCovers(h, i, n, a);
    if a in h.live {
      LiveUnit(h.nodes, h.live, base, a, a);
    }
    forall u
      ensures u in h'.owned <==> IsFree(h'.nodes, u) || IsLive(h'.live, u)
    {
      CarvedCovers(h, i, n, u);
      LiveMore(h.live, a, n, u);
    }
    forall c | c in h.live
      ensures Apart(Block(c, h.live[c]), Block(a, n))
    {
      assert Apart(Block(c, h.live[c]), h.nodes[i]);
    }
    forall c, j | c in h'.live && 1 <= j < |h'.nodes|
      ensures Apart(Block(c, h'.live[c]), h'.nodes[j])
    {
      forall u | Within(u, Block(c, h'.live[c]))
        ensures !Within(u, h'.nodes[j])
      {
        CarvedCovers(h, i, n, u);
        if c != a {
          LiveUnit(h.nodes, h.live, base, c, u);
        }
      }
      NothingCommon(Block(c, h'.live[c]), h'.nodes[j]);
    }
  }

  // ---------- more memory ----------

  const MORE := 4096

  // morecore never asks for less than 4096 units.
  function Wanted(n: nat): nat {
    if n < MORE then MORE else n
  }

  function Run(p: int, n: nat): (s: set<int>)
    ensures forall u :: u in s <==> p <= u < p + n
  {
    if n == 0 then {} else Run(p, n - 1) + {p + n - 1}
  }

  // Where sbrk puts new memory: above all it has given and above the static data.
  predicate Beyond(h: Heap, base: int, p: int) {
    base < p && forall u :: u in h.owned ==> u < p
  }

  function WithRegion(h: Heap, p: int, n: nat): Heap {
    h.(live := h.live[p := n], owned := h.owned + Run(p, n))
  }

  // morecore: the new memory, freed like a block.
  function Grown(h: Heap, p: int, n: nat): Heap
    requires h.nodes != [] && h.nodes[0].addr < p
  {
    Freed(WithRegion(h, p, n), p)
  }

  lemma RegionKeeps(h: Heap, base: int, p: int, n: nat)
    requires Inv(h, base) && Beyond(h, base, p) && n > 0
    ensures p !in h.live && Inv(WithRegion(h, p, n), base)
  {
    forall a | a in h.live
      ensures a + h.live[a] <= p
    {
      assert Within(a + h.live[a] - 1, Block(a, h.live[a]));
      assert IsLive(h.live, a + h.live[a] - 1);
    }
    forall j | 1 <= j < |h.nodes|
      ensures End(h.nodes[j]) <= p
    {
      assert Within(End(h.nodes[j]) - 1, h.nodes[j]);
      assert IsFree(h.nodes, End(h.nodes[j]) - 1);
    }
    forall u
      ensures u in WithRegion(h, p, n).owned <==> IsFree(h.nodes, u) || IsLive(h.live[p := n], u)
    {
      LiveMore(h.live, p, n, u);
    }
  }

  lemma GrownKeeps(h: Heap, base: int, p: int, n: nat)
    requires Inv(h, base) && Beyond(h, base, p) && n > 0
    ensures Inv(Grown(h, p, n), base)
    ensures Grown(h, p, n).live == h.live && Grown(h, p, n).owned == h.owned + Run(p, n)
  {
    RegionKeeps(h, base, p, n);
    FreeKeeps(WithRegion(h, p, n), p, base);
    assert h.live[p := n] - {p} == h.live;
  }

  // Memory from p on, n units of it, has been added.
  ghost predicate Extended(owned: set<int>, now: set<int>, p: int, n: nat) {
    forall u :: u in now <==> u in owned || p <= u < p + n
  }

  lemma GrownExtends(h: Heap, base: int, p: int, n: nat)
    requires Inv(h, base) && Beyond(h, base, p) && n > 0
    ensures Grown(h, p, n).live == h.live && Extended(h.owned, Grown(h, p, n).owned, p, n)
  {
    GrownKeeps(h, base, p, n);
  }

  // The search after it finds a node.
  lemma GrownFits(h: Heap, base: int, p: int, n: nat, m: nat)
    requires Inv(h, base) && Beyond(h, base, p) && n >= m > 0
    ensures var g := Grown(h, p, n);
            g.at < |g.nodes| && FirstFit(g.nodes, Succ(g.nodes, g.at), g.at, m) < |g.nodes|
  {
    RegionKeeps(h, base, p, n);
    GrownKeeps(h, base, p, n);
    var r, g := WithRegion(h, p, n), Grown(h, p, n);
    BlockFits(r, p, base);
    var i := Pred(h.nodes, p);
    var tail := JoinRight(Block(p, n), h.nodes[i + 1..]);
    assert if End(h.nodes[i]) == p then g.nodes[i].size == h.nodes[i].size + tail[0].size else g.nodes[i + 1] == tail[0];
    if FirstFit(g.nodes, Succ(g.nodes, g.at), g.at, m) == |g.nodes| {
      NothingFits(g.nodes, g.at, m);
    }
  }

  // All of malloc; p is what sbrk would answer, -1 if it has no more.
  function Allocated(h: Heap, base: int, n: nat, p: int): (Heap, int)
    requires Inv(h, base) && n > 0 && (p != -1 ==> Beyond(h, base, p))
  {
    var i := FirstFit(h.nodes, Succ(h.nodes, h.at), h.at, n);
    if i < |h.nodes| then Carved(h, i, n)
    else if p == -1 then (h, -1)
    else
      var g := Grown(h, p, Wanted(n));
      GrownKeeps(h, base, p, Wanted(n));
      GrownFits(h, base, p, Wanted(n), n);
      Carved(g, FirstFit(g.nodes, Succ(g.nodes, g.at), g.at, n), n)
  }

  // It fails exactly if no free block is large enough and sbrk has no more; then nothing
  // changes.  Else the block is new, of just n units, and only units from sbrk are added.
  lemma AllocatedKeeps(h: Heap, base: int, n: nat, p: int)
    requires Inv(h, base) && n > 0 && (p != -1 ==> Beyond(h, base, p)) && base >= 0
    ensures var (h', a) := Allocated(h, base, n, p);
            && Inv(h', base)
            && (a == -1 <==> p == -1 && forall j :: 0 <= j < |h.nodes| ==> h.nodes[j].size < n)
            && (a == -1 ==> h' == h)
            && (a != -1 ==> a !in h.live && h'.live == h.live[a := n])
            && h.owned <= h'.owned
            && ((exists j :: 0 <= j < |h.nodes| && h.nodes[j].size >= n) ==> h'.owned == h.owned)
  {
    var i := FirstFit(h.nodes, Succ(h.nodes, h.at), h.at, n);
    if i < |h.nodes| {
      CarvedKeeps(h, i, n, base);
    } else {
      NothingFits(h.nodes, h.at, n);
      if p != -1 {
        var nu := Wanted(n);
        GrownKeeps(h, base, p, nu);
        GrownFits(h, base, p, nu, n);
        var g := Grown(h, p, nu);
        CarvedKeeps(g, FirstFit(g.nodes, Succ(g.nodes, g.at), g.at, n), n, base);
      }
    }
  }

  function Address(a: int): int {
    if a == -1 then 0 else a + 1
  }

  // What malloc promises of the bytes: a new block with room for them, and no unit more; or nothing.
  ghost predicate HandsOut(h: Heap, h': Heap, ap: int, nbytes: nat) {
    if ap == 0 then h' == h && forall j :: 0 <= j < |h.nodes| ==> 8 * (h.nodes[j].size - 1) < nbytes
    else ap - 1 in h'.live && ap - 1 !in h.live && h'.live == h.live[ap - 1 := h'.live[ap - 1]] && Holds(h'.live[ap - 1], nbytes)
  }

  lemma AllocatedHandsOut(h: Heap, base: int, nbytes: nat, p: int)
    requires Inv(h, base) && (p != -1 ==> Beyond(h, base, p)) && base > 0
    ensures var (h', a) := Allocated(h, base, Units(nbytes), p); HandsOut(h, h', Address(a), nbytes)
  {
    UnitsExactly(nbytes, Units(nbytes));
    AllocatedKeeps(h, base, Units(nbytes), p);
    var (h', a) := Allocated(h, base, Units(nbytes), p);
    if a != -1 {
      NewAddress(h, h', a, base, Units(nbytes));
    }
  }

  // No block is in front of the static data.
  lemma NewAddress(h: Heap, h': Heap, a: int, base: int, n: nat)
    requires Inv(h', base) && base > 0 && h'.live == h.live[a := n]
    ensures a > 0
  {
    assert a in h'.live;
  }

  // ---------- every run ----------

  // What a program does: ask for bytes, with sbrk's answer if it should be asked, or
  // give a block back.
  datatype Call = Malloc(nbytes: nat, brk: int) | Free(a: int)

  function Empty(base: int): Heap {
    Heap([Block(base, 0)], 0, map[], {})
  }

  ghost predicate Proper(h: Heap, base: int, c: Call) {
    match c
    case Malloc(_, brk) => brk == -1 || Beyond(h, base, brk)
    case Free(a) => a in h.live
  }

  lemma EmptyInv(base: int)
    ensures Inv(Empty(base), base)
  {
  }

  type Base = b: int | b >= 0 witness 0

  datatype Arena = Arena(h: Heap, base: int)

  type GoodArena = x: Arena | x.base >= 0 && Inv(x.h, x.base) witness (EmptyInv(0); Arena(Empty(0), 0))

  ghost function Done(x: GoodArena, c: Call): GoodArena
    requires Proper(x.h, x.base, c)
  {
    match c
    case Malloc(nbytes, brk) =>
      AllocatedKeeps(x.h, x.base, Units(nbytes), brk);
      x.(h := Allocated(x.h, x.base, Units(nbytes), brk).0)
    case Free(a) =>
      FreeKeeps(x.h, a, x.base);
      x.(h := Freed(x.h, a))
  }

  ghost predicate CanRun(x: GoodArena, calls: seq<Call>)
    decreases |calls|
  {
    calls == [] || (Proper(x.h, x.base, calls[0]) && CanRun(Done(x, calls[0]), calls[1..]))
  }

  ghost function RunAll(x: GoodArena, calls: seq<Call>): GoodArena
    requires CanRun(x, calls)
    decreases |calls|
  {
    if calls == [] then x else RunAll(Done(x, calls[0]), calls[1..])
  }

  ghost function Fresh(base: Base): GoodArena {
    EmptyInv(base);
    Arena(Empty(base), base)
  }

  // After any run: each unit of sbrk is in exactly one free or live block, and the unit
  // right after a free block is no free one.
  lemma EveryUnitOnce(base: Base, calls: seq<Call>, u: int)
    requires CanRun(Fresh(base), calls)
    ensures var h := RunAll(Fresh(base), calls).h;
            && (u in h.owned <==> IsFree(h.nodes, u) || IsLive(h.live, u))
            && !(IsFree(h.nodes, u) && IsLive(h.live, u))
            && (forall i, j :: 0 <= i < |h.nodes| && 0 <= j < |h.nodes| && Within(u, h.nodes[i]) && Within(u, h.nodes[j]) ==> i == j)
            && (forall a, b :: a in h.live && b in h.live && Within(u, Block(a, h.live[a])) && Within(u, Block(b, h.live[b])) ==> a == b)
            && (forall i :: 0 <= i < |h.nodes| && u == End(h.nodes[i]) ==> !IsFree(h.nodes, u))
  {
    var x := RunAll(Fresh(base), calls);
    EveryUnitOnceNow(x.h, x.base, u);
  }

  lemma EveryUnitOnceNow(h: Heap, base: int, u: int)
    requires Inv(h, base)
    ensures !(IsFree(h.nodes, u) && IsLive(h.live, u))
    ensures forall i, j :: 0 <= i < |h.nodes| && 0 <= j < |h.nodes| && Within(u, h.nodes[i]) && Within(u, h.nodes[j]) ==> i == j
    ensures forall a, b :: a in h.live && b in h.live && Within(u, Block(a, h.live[a])) && Within(u, Block(b, h.live[b])) ==> a == b
    ensures forall i :: 0 <= i < |h.nodes| && u == End(h.nodes[i]) ==> !IsFree(h.nodes, u)
  {
    forall a | a in h.live && Within(u, Block(a, h.live[a]))
      ensures !IsFree(h.nodes, u) && forall b :: b in h.live && b != a ==> !Within(u, Block(b, h.live[b]))
    {
      LiveUnit(h.nodes, h.live, base, a, u);
    }
  }

  // The bytes that were asked for, by block.
  ghost function AskedBy(x: GoodArena, c: Call, asked: map<int, nat>): map<int, nat>
    requires Proper(x.h, x.base, c)
  {
    match c
    case Malloc(nbytes, brk) =>
      var a := Allocated(x.h, x.base, Units(nbytes), brk).1;
      if a == -1 then asked else asked[a := nbytes]
    case Free(a) => asked - {a}
  }

  ghost function Asked(x: GoodArena, calls: seq<Call>, asked: map<int, nat>): map<int, nat>
    requires CanRun(x, calls)
    decreases |calls|
  {
    if calls == [] then asked else Asked(Done(x, calls[0]), calls[1..], AskedBy(x, calls[0], asked))
  }

  ghost predicate AllHold(h: Heap, asked: map<int, nat>) {
    asked.Keys == h.live.Keys && forall a :: a in asked ==> Holds(h.live[a], asked[a])
  }

  lemma {:induction false} RunHolds(x: GoodArena, calls: seq<Call>, asked: map<int, nat>)
    requires CanRun(x, calls) && AllHold(x.h, asked)
    ensures AllHold(RunAll(x, calls).h, Asked(x, calls, asked))
    decreases |calls|
  {
    if calls != [] {
      match calls[0] {
        case Malloc(nbytes, brk) =>
          AllocatedKeeps(x.h, x.base, Units(nbytes), brk);
          UnitsExactly(nbytes, Units(nbytes));
        case Free(a) =>
      }
      RunHolds(Done(x, calls[0]), calls[1..], AskedBy(x, calls[0], asked));
    }
  }

  // Byte k of what was asked for at a.
  function ByteAt(a: int, k: nat): int {
    8 * (a + 1) + k
  }

  predicate InHeader(x: int, byte: int) {
    8 * x <= byte < 8 * x + 8
  }

  // After any run: the bytes that a block was asked for are no other block's, and in no header, be it
  // of a live block or of a free one.
  lemma BytesApart(base: Base, calls: seq<Call>, a: int, k: nat)
    requires CanRun(Fresh(base), calls)
    requires var asked := Asked(Fresh(base), calls, map[]); a in asked && k < asked[a]
    ensures var h, asked := RunAll(Fresh(base), calls).h, Asked(Fresh(base), calls, map[]);
            && (forall b, l: nat :: b in asked && b != a && l < asked[b] ==> ByteAt(a, k) != ByteAt(b, l))
            && (forall b :: b in h.live ==> !InHeader(b, ByteAt(a, k)))
            && (forall i :: 0 <= i < |h.nodes| ==> !InHeader(h.nodes[i].addr, ByteAt(a, k)))
  {
    RunHolds(Fresh(base), calls, map[]);
    var x, asked := RunAll(Fresh(base), calls), Asked(Fresh(base), calls, map[]);
    RunBase(Fresh(base), calls);
    BytesApartNow(x.h, base, asked, a, k);
  }

  lemma {:induction false} RunBase(x: GoodArena, calls: seq<Call>)
    requires CanRun(x, calls)
    ensures RunAll(x, calls).base == x.base
    decreases |calls|
  {
    if calls != [] {
      RunBase(Done(x, calls[0]), calls[1..]);
    }
  }

  lemma BytesApartNow(h: Heap, base: int, asked: map<int, nat>, a: int, k: nat)
    requires Inv(h, base) && AllHold(h, asked) && a in asked && k < asked[a]
    ensures forall b, l: nat :: b in asked && b != a && l < asked[b] ==> ByteAt(a, k) != ByteAt(b, l)
    ensures forall b :: b in h.live ==> !InHeader(b, ByteAt(a, k))
    ensures forall i :: 0 <= i < |h.nodes| ==> !InHeader(h.nodes[i].addr, ByteAt(a, k))
  {
    var u := Block(a, h.live[a]);
    forall b, l: nat | b in asked && b != a && l < asked[b]
      ensures ByteAt(a, k) != ByteAt(b, l)
    {
      assert Apart(u, Block(b, h.live[b]));
    }
    forall b | b in h.live
      ensures !InHeader(b, ByteAt(a, k))
    {
      assert b != a ==> Apart(u, Block(b, h.live[b]));
    }
    forall i | 0 <= i < |h.nodes|
      ensures !InHeader(h.nodes[i].addr, ByteAt(a, k))
    {
      assert i >= 1 ==> Apart(u, h.nodes[i]);
    }
  }

  // With all blocks given back, each stretch of memory from sbrk is one free block again.
  lemma AllGivenBack(base: Base, calls: seq<Call>, i: nat)
    requires CanRun(Fresh(base), calls) && RunAll(Fresh(base), calls).h.live == map[]
    requires 1 <= i < |RunAll(Fresh(base), calls).h.nodes|
    ensures var h := RunAll(Fresh(base), calls).h; var b := h.nodes[i];
            b.addr - 1 !in h.owned && End(b) !in h.owned && forall u :: Within(u, b) ==> u in h.owned
  {
    var x := RunAll(Fresh(base), calls);
    EveryUnitOnceNow(x.h, x.base, End(x.h.nodes[i]));
    BeforeBlock(x.h.nodes, x.base, i);
    assert !IsLive(x.h.live, x.h.nodes[i].addr - 1) && !IsLive(x.h.live, End(x.h.nodes[i]));
    forall u | Within(u, x.h.nodes[i])
      ensures u in x.h.owned
    {
      assert IsFree(x.h.nodes, u);
    }
  }

  lemma BeforeBlock(nodes: seq<Block>, base: int, i: nat)
    requires Ordered(nodes, base) && 1 <= i < |nodes|
    ensures !IsFree(nodes, nodes[i].addr - 1)
  {
    forall j | 0 <= j < |nodes|
      ensures !Within(nodes[i].addr - 1, nodes[j])
    {
    }
  }

  // ---------- the headers in memory ----------

  datatype Headers = Headers(ptr: map<int, int>, size: map<int, int>)

  // A node's header holds its size and the address of the next node.
  predicate AtNode(m: Headers, nodes: seq<Block>, k: nat)
    requires k < |nodes|
  {
    var a := nodes[k].addr;
    a in m.ptr && a in m.size && m.ptr[a] == nodes[Succ(nodes, k)].addr && m.size[a] == nodes[k].size
  }

  // A live block's header still holds its size.
  predicate AtLive(m: Headers, live: map<int, int>, a: int)
    requires a in live
  {
    a in m.size && m.size[a] == live[a]
  }

  ghost predicate Linked(m: Headers, h: Heap) {
    && (forall i: nat :: i < |h.nodes| ==> AtNode(m, h.nodes, i))
    && (forall a :: a in h.live ==> AtLive(m, h.live, a))
  }

  // What free writes once it has found its place.
  function JoinedUp(m: Headers, p: int, bp: int): Headers
    requires p in m.ptr && m.ptr[p] in m.ptr && m.ptr[p] in m.size && bp in m.size
  {
    if bp + m.size[bp] == m.ptr[p] then
      Headers(m.ptr[bp := m.ptr[m.ptr[p]]], m.size[bp := m.size[bp] + m.size[m.ptr[p]]])
    else Headers(m.ptr[bp := m.ptr[p]], m.size)
  }

  function JoinedDown(m: Headers, p: int, bp: int): Headers
    requires p in m.size && bp in m.size && bp in m.ptr
  {
    if p + m.size[p] == bp then Headers(m.ptr[p := m.ptr[bp]], m.size[p := m.size[p] + m.size[bp]])
    else Headers(m.ptr[p := bp], m.size)
  }

  // Whether the block after node i follows b at once.
  predicate Touches(nodes: seq<Block>, i: nat, b: Block)
    requires i < |nodes|
  {
    i + 1 < |nodes| && End(b) == nodes[i + 1].addr
  }

  function WithRight(nodes: seq<Block>, i: nat, b: Block): Block
    requires i < |nodes|
  {
    if Touches(nodes, i, b) then Block(b.addr, b.size + nodes[i + 1].size) else b
  }

  // Node j of the list with b inserted.
  function NodeAfter(nodes: seq<Block>, i: nat, b: Block, j: nat): Block
    requires i < |nodes| && j < |Inserted(nodes, i, b)|
  {
    var skip := if Touches(nodes, i, b) then 1 else 0;
    if End(nodes[i]) == b.addr then
      if j < i then nodes[j] else if j == i then Block(nodes[i].addr, nodes[i].size + WithRight(nodes, i, b).size) else nodes[j + skip]
    else if j <= i then nodes[j] else if j == i + 1 then WithRight(nodes, i, b) else nodes[j - 1 + skip]
  }

  lemma NodeIs(nodes: seq<Block>, i: nat, b: Block, j: nat)
    requires i < |nodes| && j < |Inserted(nodes, i, b)|
    ensures Inserted(nodes, i, b)[j] == NodeAfter(nodes, i, b, j)
    ensures |Inserted(nodes, i, b)| ==
            |nodes| + 1 - (if End(nodes[i]) == b.addr then 1 else 0) - (if Touches(nodes, i, b) then 1 else 0)
  {
  }

  // The node after which b goes, and those that b takes the place of or pushes on.
  lemma LinkedAt(m: Headers, h: Heap, base: int, k: nat)
    requires Linked(m, h) && Ordered(h.nodes, base) && k < |h.nodes|
    ensures var a := h.nodes[k].addr;
            && a in m.ptr && m.ptr[a] == h.nodes[Succ(h.nodes, k)].addr && m.ptr[a] in m.ptr && m.ptr[a] in m.size
            && a in m.size && m.size[a] == h.nodes[k].size
  {
    assert AtNode(m, h.nodes, k) && AtNode(m, h.nodes, Succ(h.nodes, k));
  }

  lemma JoinedUpIs(m: Headers, h: Heap, base: int, i: nat, b: Block)
    requires Linked(m, h) && Ordered(h.nodes, base) && Fits(h.nodes, i, b)
    requires b.addr in m.size && m.size[b.addr] == b.size && b.addr != h.nodes[i].addr
    ensures var p := h.nodes[i].addr;
            && p in m.ptr && m.ptr[p] in m.ptr && m.ptr[p] in m.size
            && JoinedUp(m, p, b.addr) ==
               Headers(m.ptr[b.addr := h.nodes[Succ(h.nodes, if Touches(h.nodes, i, b) then i + 1 else i)].addr],
                       m.size[b.addr := WithRight(h.nodes, i, b).size])
  {
    LinkedAt(m, h, base, i);
    LinkedAt(m, h, base, Succ(h.nodes, i));
    assert m.size[b.addr := b.size] == m.size;
  }

  // The headers free leaves, given the node b goes after.
  function Headers2(m: Headers, nodes: seq<Block>, i: nat, b: Block): Headers
    requires i < |nodes|
  {
    var p, joined := nodes[i], WithRight(nodes, i, b);
    var next := nodes[Succ(nodes, if Touches(nodes, i, b) then i + 1 else i)].addr;
    if End(p) == b.addr then
      Headers(m.ptr[b.addr := next][p.addr := next], m.size[b.addr := joined.size][p.addr := p.size + joined.size])
    else Headers(m.ptr[b.addr := next][p.addr := b.addr], m.size[b.addr := joined.size])
  }

  lemma JoinedIs(m: Headers, h: Heap, base: int, i: nat, b: Block)
    requires Linked(m, h) && Ordered(h.nodes, base) && Fits(h.nodes, i, b)
    requires b.addr in m.size && m.size[b.addr] == b.size
    ensures var p := h.nodes[i].addr;
            && p in m.ptr && m.ptr[p] in m.ptr && m.ptr[p] in m.size && p in m.size
            && JoinedDown(JoinedUp(m, p, b.addr), p, b.addr) == Headers2(m, h.nodes, i, b)
  {
    JoinedUpIs(m, h, base, i, b);
    LinkedAt(m, h, base, i);
  }

  // A header that is not written.
  lemma Unwritten(nodes: seq<Block>, base: int, i: nat, b: Block, j: nat)
    requires Ordered(nodes, base) && Fits(nodes, i, b) && j < |nodes| && j != i
    ensures nodes[j].addr != nodes[i].addr
    ensures nodes[j].addr != b.addr
  {
  }

  // Node j is an old one, and was node k.
  lemma OldNodeLinked(m: Headers, nodes: seq<Block>, i: nat, b: Block, j: nat, k: nat)
    requires i < |nodes| && j < |Inserted(nodes, i, b)| && Shifted(nodes, i, b, j) == k < |nodes|
    requires AtNode(m, nodes, k) && nodes[k].addr != nodes[i].addr && nodes[k].addr != b.addr
    requires j < i || j > if End(nodes[i]) == b.addr then i else i + 1
    ensures AtNode(Headers2(m, nodes, i, b), Inserted(nodes, i, b), j)
  {
    NodeIs(nodes, i, b, j);
    NextShifts(nodes, i, b, j);
    NotWritten(m, nodes, i, b, k);
    var nodes', m' := Inserted(nodes, i, b), Headers2(m, nodes, i, b);
    assert nodes'[j] == nodes[k] && nodes'[Succ(nodes', j)].addr == nodes[Succ(nodes, k)].addr;
  }

  lemma NotWritten(m: Headers, nodes: seq<Block>, i: nat, b: Block, k: nat)
    requires i < |nodes| && k < |nodes| && AtNode(m, nodes, k) && nodes[k].addr != nodes[i].addr && nodes[k].addr != b.addr
    ensures AtNode(Headers2(m, nodes, i, b), nodes, k)
  {
  }

  lemma NextShifts(nodes: seq<Block>, i: nat, b: Block, j: nat)
    requires i < |nodes| && j < |Inserted(nodes, i, b)| && 0 <= Shifted(nodes, i, b, j) < |nodes|
    requires j < i || j > if End(nodes[i]) == b.addr then i else i + 1
    ensures var nodes' := Inserted(nodes, i, b);
            nodes'[Succ(nodes', j)].addr == nodes[Succ(nodes, Shifted(nodes, i, b, j))].addr
  {
    NodeIs(nodes, i, b, Succ(Inserted(nodes, i, b), j));
  }

  function Shifted(nodes: seq<Block>, i: nat, b: Block, j: nat): int
    requires i < |nodes|
  {
    if j <= i then j else j - (if End(nodes[i]) == b.addr then 0 else 1) + (if Touches(nodes, i, b) then 1 else 0)
  }

  // Node j is the one b goes after, or b itself.
  lemma NewNodeLinked(m: Headers, nodes: seq<Block>, i: nat, b: Block, j: nat)
    requires i < |nodes| && j < |Inserted(nodes, i, b)| && nodes[i].addr != b.addr && b.size > 0
    requires i <= j <= if End(nodes[i]) == b.addr then i else i + 1
    requires AtNode(m, nodes, i)
    ensures AtNode(Headers2(m, nodes, i, b), Inserted(nodes, i, b), j)
  {
    NodeIs(nodes, i, b, j);
    NodeIs(nodes, i, b, Succ(Inserted(nodes, i, b), j));
  }

  lemma OldNode(m: Headers, h: Heap, base: int, i: nat, b: Block, k: nat)
    requires Linked(m, h) && Ordered(h.nodes, base) && Fits(h.nodes, i, b) && k < |h.nodes|
    ensures AtNode(m, h.nodes, k)
    ensures h.nodes[k].addr != b.addr
    ensures k != i ==> h.nodes[k].addr != h.nodes[i].addr
  {
    LinkedAt(m, h, base, k);
    if k != i {
      Unwritten(h.nodes, base, i, b, k);
    }
  }

  lemma NodeLinked(m: Headers, h: Heap, base: int, i: nat, b: Block, j: nat)
    requires Linked(m, h) && Ordered(h.nodes, base) && Fits(h.nodes, i, b) && j < |Inserted(h.nodes, i, b)|
    ensures AtNode(Headers2(m, h.nodes, i, b), Inserted(h.nodes, i, b), j)
  {
    NodeIs(h.nodes, i, b, j);
    if j < i || j > if End(h.nodes[i]) == b.addr then i else i + 1 {
      OldNode(m, h, base, i, b, Shifted(h.nodes, i, b, j));
      OldNodeLinked(m, h.nodes, i, b, j, Shifted(h.nodes, i, b, j));
    } else {
      OldNode(m, h, base, i, b, i);
      NewNodeLinked(m, h.nodes, i, b, j);
    }
  }

  lemma JoinedLinks(m: Headers, h: Heap, bp: int, base: int)
    requires Inv(h, base) && Linked(m, h) && bp in h.live
    ensures var p := h.nodes[Pred(h.nodes, bp)].addr;
            && p in m.ptr && m.ptr[p] in m.ptr && m.ptr[p] in m.size && bp in m.size
            && p in JoinedUp(m, p, bp).size
            && Linked(JoinedDown(JoinedUp(m, p, bp), p, bp), Freed(h, bp))
  {
    BlockFits(h, bp, base);
    assert AtLive(m, h.live, bp);
    JoinedIs(m, h, base, Pred(h.nodes, bp), Block(bp, h.live[bp]));
    NodesLinked(m, h, base, Pred(h.nodes, bp), bp);
  }

  lemma NodesLinked(m: Headers, h: Heap, base: int, i: nat, bp: int)
    requires Linked(m, h) && Ordered(h.nodes, base) && LiveApart(h.nodes, h.live, base)
    requires bp in h.live && Fits(h.nodes, i, Block(bp, h.live[bp]))
    ensures var b := Block(bp, h.live[bp]);
            Linked(Headers2(m, h.nodes, i, b), Heap(Inserted(h.nodes, i, b), i, h.live - {bp}, h.owned))
  {
    var b := Block(bp, h.live[bp]);
    forall j: nat | j < |Inserted(h.nodes, i, b)|
      ensures AtNode(Headers2(m, h.nodes, i, b), Inserted(h.nodes, i, b), j)
    {
      NodeLinked(m, h, base, i, b, j);
    }
    forall a | a in h.live - {bp}
      ensures AtLive(Headers2(m, h.nodes, i, b), h.live - {bp}, a)
    {
      assert AtLive(m, h.live, a);
      NotLive(h, base, i, a);
    }
  }

  lemma NotLive(h: Heap, base: int, i: nat, a: int)
    requires LiveApart(h.nodes, h.live, base) && Ordered(h.nodes, base) && i < |h.nodes| && a in h.live
    ensures a != h.nodes[i].addr
  {
    assert i >= 1 ==> Apart(Block(a, h.live[a]), h.nodes[i]);
  }

  // What malloc writes at node i.
  function CarvedHeaders(m: Headers, nodes: seq<Block>, i: nat, n: nat): Headers
    requires 1 <= i < |nodes|
  {
    var b := nodes[i];
    if b.size == n then m.(ptr := m.ptr[nodes[i - 1].addr := nodes[Succ(nodes, i)].addr])
    else m.(size := m.size[b.addr := b.size - n][End(b) - n := n])
  }

  lemma CarvedNodeLinked(m: Headers, h: Heap, base: int, i: nat, n: nat, j: nat)
    requires Linked(m, h) && Ordered(h.nodes, base) && 1 <= i < |h.nodes| && h.nodes[i].size >= n >= 1
    requires j < |Carved(h, i, n).0.nodes|
    ensures AtNode(CarvedHeaders(m, h.nodes, i, n), Carved(h, i, n).0.nodes, j)
  {
    var k := if h.nodes[i].size == n && j >= i then j + 1 else j;
    assert AtNode(m, h.nodes, k);
    assert k != i - 1 ==> h.nodes[k].addr != h.nodes[i - 1].addr;
    assert k != i ==> h.nodes[k].addr != h.nodes[i].addr;
    if h.nodes[i].size > n {
      assert h.nodes[k].addr != End(h.nodes[i]) - n;
    } else {
      NodeGone(h.nodes, i, j);
    }
  }

  // The nodes without one of them, and what follows each.
  lemma NodeGone(nodes: seq<Block>, i: nat, j: nat)
    requires 1 <= i < |nodes| && j < |nodes| - 1
    ensures var now, k := nodes[..i] + nodes[i + 1..], if j >= i then j + 1 else j;
            now[j] == nodes[k] && now[Succ(now, j)] == nodes[Succ(nodes, if k == i - 1 then i else k)]
  {
  }

  lemma CarvedLinks(m: Headers, h: Heap, base: int, i: nat, n: nat)
    requires Linked(m, h) && Inv(h, base) && 1 <= i < |h.nodes| && h.nodes[i].size >= n >= 1
    ensures Linked(CarvedHeaders(m, h.nodes, i, n), Carved(h, i, n).0)
  {
    var (h', a) := Carved(h, i, n);
    var m' := CarvedHeaders(m, h.nodes, i, n);
    CarvedKeeps(h, i, n, base);
    assert AtNode(m, h.nodes, i);
    forall j: nat | j < |h'.nodes|
      ensures AtNode(m', h'.nodes, j)
    {
      CarvedNodeLinked(m, h, base, i, n, j);
    }
    forall c | c in h'.live
      ensures AtLive(m', h'.live, c)
    {
      if c != a {
        assert AtLive(m, h.live, c);
        NotLive(h, base, i, c);
      }
    }
  }

  class Memory {
    var ptr: map<int, int>
    var size: map<int, int>
    // 0 is the null pointer.
    var freep: int
    const base: int
    // What the headers stand for.
    ghost var arena: GoodArena

    ghost predicate Valid()
      reads this
    {
      && base > 0 && arena.base == base
      && if freep == 0 then arena.h == Empty(base) else Linked(Headers(ptr, size), arena.h) && freep == arena.h.nodes[arena.h.at].addr
    }

    constructor (base: int)
      requires base > 0
      ensures Valid() && this.base == base && arena.h == Empty(base)
    {
      ptr, size, freep := map[], map[], 0;
      this.base := base;
      arena := Arena(Empty(base), base);
      EmptyInv(base);
    }

    // The first loop of free: the node after which bp goes.
    method Before(bp: int) returns (p: int)
      requires Valid() && freep != 0 && base < bp && forall i :: 0 <= i < |arena.h.nodes| ==> arena.h.nodes[i].addr != bp
      ensures p == arena.h.nodes[Pred(arena.h.nodes, bp)].addr
    {
      ghost var m, nodes, i: nat, k: nat := Headers(ptr, size), arena.h.nodes, Pred(arena.h.nodes, bp), arena.h.at;
      p := freep;
      assert AtNode(m, nodes, k);
      AtPred(nodes, base, k, bp);
      while !(bp > p && bp < ptr[p])
        invariant k < |nodes| && p == nodes[k].addr && AtNode(m, nodes, k)
        invariant (bp > p && bp < ptr[p]) || (p >= ptr[p] && (bp > p || bp < ptr[p])) <==> k == i
        decreases Steps(nodes, k, i)
      {
        if p >= ptr[p] && (bp > p || bp < ptr[p]) {
          break;
        }
        p := ptr[p];
        k := Succ(nodes, k);
        assert AtNode(m, nodes, k);
        AtPred(nodes, base, k, bp);
      }
    }

    method JoinUpper(p: int, bp: int)
      requires p in ptr && ptr[p] in ptr && ptr[p] in size && bp in size
      modifies this`ptr, this`size
      ensures Headers(ptr, size) == JoinedUp(old(Headers(ptr, size)), p, bp)
    {
      if bp + size[bp] == ptr[p] {
        size, ptr := size[bp := size[bp] + size[ptr[p]]], ptr[bp := ptr[ptr[p]]];
      } else {
        ptr := ptr[bp := ptr[p]];
      }
    }

    method JoinLower(p: int, bp: int)
      requires p in size && bp in size && bp in ptr
      modifies this`ptr, this`size
      ensures Headers(ptr, size) == JoinedDown(old(Headers(ptr, size)), p, bp)
    {
      if p + size[p] == bp {
        size, ptr := size[p := size[p] + size[bp]], ptr[p := ptr[bp]];
      } else {
        ptr := ptr[p := bp];
      }
    }

    method Free(ap: int)
      requires Valid() && ap - 1 in arena.h.live
      modifies this
      ensures Valid() && freep != 0 && arena.h == Freed(old(arena.h), ap - 1)
    {
      var bp := ap - 1;
      ghost var m := Headers(ptr, size);
      BlockFits(arena.h, bp, base);
      NothingThere(arena.h, bp, base);
      JoinedLinks(m, arena.h, bp, base);
      FreeKeeps(arena.h, bp, base);
      var p := Before(bp);
      JoinUpper(p, bp);
      JoinLower(p, bp);
      freep := p;
      arena := Arena(Freed(arena.h, bp), base);
    }

    // sbrk has given nu units, or as many as it gives at least, from brk on.
    method MoreCore(nu: nat, brk: int) returns (p: int)
      requires Valid() && freep != 0 && nu > 0 && (brk == -1 || Beyond(arena.h, base, brk))
      modifies this
      ensures Valid() && freep != 0
      ensures p == 0 <==> brk == -1
      ensures p == 0 ==> arena.h == old(arena.h)
      ensures p != 0 ==> p == freep && arena.h == Grown(old(arena.h), brk, Wanted(nu))
      ensures p != 0 ==> arena.h.live == old(arena.h.live) && Extended(old(arena.h.owned), arena.h.owned, brk, if nu < 4096 then 4096 else nu)
    {
      var n := nu;
      if n < MORE {
        n := MORE;
      }
      if brk == -1 {
        return 0;
      }
      GrownExtends(arena.h, base, brk, n);
      RegionKeeps(arena.h, base, brk, n);
      RegionLinks(Headers(ptr, size), arena.h, base, brk, n);
      size := size[brk := n];
      arena := Arena(WithRegion(arena.h, brk, n), base);
      Free(brk + 1);
      p := freep;
    }

    method Cut(p0: int, prevp: int, nunits: nat, ghost nodes: seq<Block>, ghost i: nat) returns (p: int)
      requires 1 <= i < |nodes| && AtNode(Headers(ptr, size), nodes, i)
      requires p0 == nodes[i].addr && prevp == nodes[i - 1].addr
      modifies this`ptr, this`size
      ensures Headers(ptr, size) == CarvedHeaders(old(Headers(ptr, size)), nodes, i, nunits)
      ensures p == if nodes[i].size == nunits then p0 else End(nodes[i]) - nunits
    {
      p := p0;
      if size[p] == nunits {
        ptr := ptr[prevp := ptr[p]];
      } else {
        size := size[p := size[p] - nunits];
        p := p + size[p];
        size := size[p := nunits];
      }
    }

    // The block p, or the end of it.
    method Take(p0: int, prevp: int, nunits: nat, ghost i: nat) returns (ap: int)
      requires Valid() && freep != 0 && nunits > 0 && 1 <= i < |arena.h.nodes| && arena.h.nodes[i].size >= nunits
      requires p0 == arena.h.nodes[i].addr && prevp == arena.h.nodes[i - 1].addr
      modifies this
      ensures Valid() && freep != 0
      ensures var (h, a) := Carved(old(arena.h), i, nunits); arena.h == h && ap == a + 1
      ensures ap - 1 + nunits == End(old(arena.h.nodes[i])) && arena.h.at == i - 1
      ensures |arena.h.nodes| == |old(arena.h.nodes)| - (if old(arena.h.nodes[i]).size == nunits then 1 else 0)
      ensures old(arena.h.nodes[i]).size > nunits ==> arena.h.nodes[i] == Block(old(arena.h.nodes[i]).addr, old(arena.h.nodes[i]).size - nunits)
    {
      ghost var m := Headers(ptr, size);
      CarvedLinks(m, arena.h, base, i, nunits);
      CarvedKeeps(arena.h, i, nunits, base);
      assert AtNode(m, arena.h.nodes, i);
      var p := Cut(p0, prevp, nunits, arena.h.nodes, i);
      freep := prevp;
      arena := Arena(Carved(arena.h, i, nunits).0, base);
      return p + 1;
    }

    // The list of base alone, the first time.
    method Init()
      requires Valid()
      modifies this
      ensures Valid() && freep != 0 && arena.h == old(arena.h)
    {
      if freep == 0 {
        freep := base;
        ptr := ptr[base := base];
        size := size[base := 0];
        assert AtNode(Headers(ptr, size), arena.h.nodes, 0);
      }
    }

    // One round of the list, from after freep up to it, for a node that is large enough.
    method Search(nunits: nat) returns (found: bool, prevp: int, p: int, ghost i: nat)
      requires Valid() && freep != 0 && nunits > 0
      ensures FirstFit(arena.h.nodes, Succ(arena.h.nodes, arena.h.at), arena.h.at, nunits) == if found then i else |arena.h.nodes|
      ensures found ==> 1 <= i < |arena.h.nodes| && arena.h.nodes[i].size >= nunits
      ensures found ==> p == arena.h.nodes[i].addr && prevp == arena.h.nodes[i - 1].addr
    {
      ghost var m, h := Headers(ptr, size), arena.h;
      i := Succ(h.nodes, h.at);
      SearchStarts(m, h, base, nunits);
      prevp, p := freep, ptr[freep];
      while size[p] < nunits
        invariant SearchAt(m, h, nunits, i, p, prevp)
        decreases Steps(h.nodes, i, h.at)
      {
        SearchGoesOn(m, h, base, nunits, i, p, prevp);
        if p == freep {
          found := false;
          return;
        }
        prevp, p, i := p, ptr[p], Succ(h.nodes, i);
      }
      SearchFinds(h.nodes, i, h.at, nunits);
      found := true;
    }

    // Going on after a round for nothing: with more memory, the next one finds a node.
    method Again(nunits: nat, brk: int) returns (ap: int)
      requires Valid() && freep != 0 && nunits > 0 && (brk == -1 || Beyond(arena.h, base, brk))
      requires FirstFit(arena.h.nodes, Succ(arena.h.nodes, arena.h.at), arena.h.at, nunits) == |arena.h.nodes|
      modifies this
      ensures Valid()
      ensures var (h, a) := Allocated(old(arena.h), base, nunits, brk);
              arena.h == h && ap == if a == -1 then 0 else a + 1
    {
      ghost var h0 := arena.h;
      var p := MoreCore(nunits, brk);
      if p == 0 {
        return 0;
      }
      var found, prevp;
      ghost var i: nat;
      found, prevp, p, i := Search(nunits);
      SecondRound(h0, base, nunits, brk, arena.h, i, found);
      ap := Take(p, prevp, nunits, i);
    }

    // The list is searched once, and once more if sbrk has enlarged it.
    method Malloc(nbytes: nat, brk: int) returns (ap: int)
      requires Valid() && (brk == -1 || Beyond(arena.h, base, brk))
      modifies this
      ensures Valid()
      ensures arena.h == Allocated(old(arena.h), base, Units(nbytes), brk).0
      ensures ap == Address(Allocated(old(arena.h), base, Units(nbytes), brk).1)
      ensures HandsOut(old(arena.h), arena.h, ap, nbytes)
    {
      ghost var h0 := arena.h;
      AllocatedHandsOut(h0, base, nbytes, brk);
      var nunits := (nbytes + HEADER - 1) / HEADER + 1;
      Init();
      ap := Find(nunits, brk);
    }

    method Find(nunits: nat, brk: int) returns (ap: int)
      requires Valid() && freep != 0 && nunits > 0 && (brk == -1 || Beyond(arena.h, base, brk))
      modifies this
      ensures Valid()
      ensures arena.h == Allocated(old(arena.h), base, nunits, brk).0
      ensures ap == Address(Allocated(old(arena.h), base, nunits, brk).1)
    {
      var found, prevp, p;
      ghost var i: nat;
      found, prevp, p, i := Search(nunits);
      if found {
        FirstRound(arena.h, base, nunits, brk, i);
        ap := Take(p, prevp, nunits, i);
      } else {
        ap := Again(nunits, brk);
      }
    }
  }

  // At node i, p, the search has come round from the node after the start.
  ghost predicate SearchAt(m: Headers, h: Heap, n: nat, i: nat, p: int, prevp: int) {
    && i < |h.nodes| && h.at < |h.nodes| && AtNode(m, h.nodes, i) && p == h.nodes[i].addr
    && (i > 0 ==> prevp == h.nodes[i - 1].addr)
    && FirstFit(h.nodes, i, h.at, n) == FirstFit(h.nodes, Succ(h.nodes, h.at), h.at, n)
  }

  lemma SearchStarts(m: Headers, h: Heap, base: int, n: nat)
    requires Linked(m, h) && Inv(h, base) && h.at < |h.nodes|
    ensures var p := h.nodes[h.at].addr;
            p in m.ptr && SearchAt(m, h, n, Succ(h.nodes, h.at), m.ptr[p], p)
  {
    LinkedAt(m, h, base, h.at);
    assert AtNode(m, h.nodes, Succ(h.nodes, h.at));
  }

  lemma SearchGoesOn(m: Headers, h: Heap, base: int, n: nat, i: nat, p: int, prevp: int)
    requires Linked(m, h) && Inv(h, base) && SearchAt(m, h, n, i, p, prevp) && h.nodes[i].size < n
    ensures p == h.nodes[h.at].addr <==> i == h.at
    ensures i == h.at ==> FirstFit(h.nodes, Succ(h.nodes, h.at), h.at, n) == |h.nodes|
    ensures i != h.at ==> SearchAt(m, h, n, Succ(h.nodes, i), m.ptr[p], p)
  {
    FirstFitGoesOn(h.nodes, i, h.at, n);
    LinkedAt(m, h, base, i);
    if p == h.nodes[h.at].addr {
      OnlyPlace(h.nodes, base, i, h.at);
    }
    assert AtNode(m, h.nodes, Succ(h.nodes, i));
  }

  lemma SearchFinds(nodes: seq<Block>, i: nat, stop: nat, n: nat)
    requires i < |nodes| && stop < |nodes| && nodes[i].size >= n
    ensures FirstFit(nodes, i, stop, n) == i
  {
  }

  lemma FirstRound(h: Heap, base: int, n: nat, brk: int, i: nat)
    requires Inv(h, base) && n > 0 && (brk == -1 || Beyond(h, base, brk))
    requires i == FirstFit(h.nodes, Succ(h.nodes, h.at), h.at, n) < |h.nodes|
    ensures 1 <= i && Allocated(h, base, n, brk) == Carved(h, i, n)
  {
  }

  lemma SecondRound(h: Heap, base: int, n: nat, brk: int, g: Heap, i: nat, found: bool)
    requires Inv(h, base) && n > 0 && Beyond(h, base, brk) && brk != -1
    requires FirstFit(h.nodes, Succ(h.nodes, h.at), h.at, n) == |h.nodes|
    requires g == Grown(h, brk, Wanted(n)) && g.at < |g.nodes|
    requires FirstFit(g.nodes, Succ(g.nodes, g.at), g.at, n) == if found then i else |g.nodes|
    ensures found && 1 <= i < |g.nodes| && g.nodes[i].size >= n
    ensures Allocated(h, base, n, brk) == Carved(g, i, n)
  {
    GrownKeeps(h, base, brk, Wanted(n));
    GrownFits(h, base, brk, Wanted(n), n);
  }

  lemma NothingThere(h: Heap, bp: int, base: int)
    requires Inv(h, base) && bp in h.live
    ensures base < bp && forall i :: 0 <= i < |h.nodes| ==> h.nodes[i].addr != bp
  {
    forall i | 0 <= i < |h.nodes|
      ensures h.nodes[i].addr != bp
    {
      NotLive(h, base, i, bp);
    }
  }

  // Where the first loop of free stops.
  lemma AtPred(nodes: seq<Block>, base: int, k: nat, a: int)
    requires Ordered(nodes, base) && k < |nodes| && base < a && forall i :: 0 <= i < |nodes| ==> nodes[i].addr != a
    ensures var p, next := nodes[k].addr, nodes[Succ(nodes, k)].addr;
            (a > p && a < next) || (p >= next && (a > p || a < next)) <==> k == Pred(nodes, a)
  {
  }

  lemma RegionLinks(m: Headers, h: Heap, base: int, p: int, n: nat)
    requires Linked(m, h) && Inv(h, base) && Beyond(h, base, p) && n > 0
    ensures Linked(m.(size := m.size[p := n]), WithRegion(h, p, n))
  {
    RegionKeeps(h, base, p, n);
    var r, m' := WithRegion(h, p, n), m.(size := m.size[p := n]);
    forall j: nat | j < |h.nodes|
      ensures AtNode(m', h.nodes, j)
    {
      assert AtNode(m, h.nodes, j);
      NotLive(r, base, j, p);
    }
    forall a | a in r.live
      ensures AtLive(m', r.live, a)
    {
      assert a != p ==> AtLive(m, h.live, a);
    }
  }

  lemma OnlyPlace(nodes: seq<Block>, base: int, i: nat, j: nat)
    requires Ordered(nodes, base) && i < |nodes| && j < |nodes| && nodes[i].addr == nodes[j].addr
    ensures i == j
  {
  }
}
