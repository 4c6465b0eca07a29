/** Page tables and the pages behind them, as vm.c sets them up, takes them apart and copies
    them; what each call leaves to whom, also when memory runs out on the way. */
module AddressSpaces {
  import opened Sequences
  import opened PageFrames

  const PGSIZE := 4096
  const KERNBASE := 0x8000_0000
  const PTE_W := 2
  const PTE_U := 4
  const PTE_P := 1

  function Pdx(a: nat): nat {
    a / 0x40_0000 % NPTENTRIES
  }

  function Ptx(a: nat): nat {
    a / PGSIZE % NPTENTRIES
  }

  function RoundUp(a: nat): nat {
    (a + PGSIZE - 1) / PGSIZE * PGSIZE
  }

  // The page numbers from RoundUp(a) on.
  function Up(a: nat): nat {
    (a + PGSIZE - 1) / PGSIZE
  }

  // The first page that has no byte in front of a.
  lemma UpExactly(a: nat, v: nat)
    ensures v == Up(a) <==> a <= 4096 * v < a + 4096
    ensures RoundUp(a) == 4096 * Up(a)
  {
  }

  lemma Split(v: nat)
    requires v < NPTENTRIES * NPTENTRIES
    ensures Pdx(PGSIZE * v) == v / NPTENTRIES < NPTENTRIES && Ptx(PGSIZE * v) == v % NPTENTRIES
  {
  }

  // A page of zeros.
  function Zeros(): string {
    seq(PGSIZE, _ => '\0')
  }

  lemma ZerosExactly(bytes: string)
    ensures bytes == Zeros() <==> |bytes| == 4096 && forall i :: 0 <= i < 4096 ==> bytes[i] == '\0'
  {
  }

  // ---------- what one call does to the machine ----------

  // What became of frame f: it is as it was, or it was free and is a table of space d now, or one
  // of its pages from lo to hi.
  predicate Fate(m: Machine, n: Machine, d: nat, lo: nat, hi: nat, f: nat) {
    && (f in m.owner <==> f in n.owner)
    && (f in m.owner ==>
          || (n.owner[f] == m.owner[f] && SameData(m, n, f))
          || (m.owner[f] == Free && match n.owner[f]
                                    case TableOf(x, _) => x == d
                                    case PageOf(x, v) => x == d && lo <= v < hi
                                    case _ => false))
  }

  predicate SameData(m: Machine, n: Machine, f: nat) {
    f in m.mem && m.mem[f].Data? && f in m.owner && m.owner[f] != Free ==> f in n.mem && n.mem[f] == m.mem[f]
  }

  predicate SameEntry(m: Machine, n: Machine, x: nat, w: nat) {
    Entry(n.mem, x, w) == Entry(m.mem, x, w)
  }

  // Nothing else has changed than pages lo to hi of space d.
  ghost predicate Only(m: Machine, n: Machine, d: nat, lo: nat, hi: nat) {
    && (forall x: nat, w: nat {:trigger SameEntry(m, n, x, w)} :: Is(m, x, Dir) && !(x == d && lo <= w < hi) ==> SameEntry(m, n, x, w))
    && (forall f {:trigger Fate(m, n, d, lo, hi, f)} :: Fate(m, n, d, lo, hi, f))
  }

  // Pages lo to hi of space d are gone, and free.
  predicate Lost(m: Machine, n: Machine, d: nat, lo: nat, hi: nat, f: nat) {
    && (f in m.owner <==> f in n.owner)
    && (f in m.owner ==>
          if m.owner[f].PageOf? && m.owner[f].d == d && lo <= m.owner[f].v < hi then n.owner[f] == Free
          else n.owner[f] == m.owner[f] && SameData(m, n, f))
  }

  ghost predicate Freed(m: Machine, n: Machine, d: nat, lo: nat, hi: nat) {
    && (forall x: nat, w: nat {:trigger SameEntry(m, n, x, w)} :: Is(m, x, Dir) && !(x == d && lo <= w < hi) ==> SameEntry(m, n, x, w))
    && (forall w: nat {:trigger Entry(n.mem, d, w)} :: lo <= w < hi ==> Entry(n.mem, d, w).Absent?)
    && (forall f {:trigger Lost(m, n, d, lo, hi, f)} :: Lost(m, n, d, lo, hi, f))
  }

  // The permissions and the bit that says present.
  function Present(perm: nat): nat {
    if perm % 2 == 1 then perm else perm + PTE_P
  }

  // Bit by bit: the page is present, it may be written, which is bit 1, and user code may use it, which
  // is bit 2, just as that was asked for.
  predicate Opens(flags: nat, perm: nat) {
    flags % 2 == 1 && flags / 2 % 2 == perm / 2 % 2 && flags / 4 % 2 == perm / 4 % 2 && flags / 8 == perm / 8
  }

  lemma PresentExactly(perm: nat, flags: nat)
    ensures flags == Present(perm) <==> Opens(flags, perm)
    ensures perm % 2 == 1 ==> Present(perm) == perm
  {
    Bits(flags);
    Bits(Present(perm));
    NextBits(perm);
  }

  lemma Bits(n: nat)
    ensures n == 8 * (n / 8) + 4 * (n / 4 % 2) + 2 * (n / 2 % 2) + n % 2
  {
    assert n == 2 * (n / 2) + n % 2;
    assert n / 2 == 2 * (n / 4) + n / 2 % 2;
    assert n / 4 == 2 * (n / 8) + n / 4 % 2;
  }

  lemma NextBits(n: nat)
    ensures n % 2 == 0 ==> (n + 1) % 2 == 1 && (n + 1) / 2 == n / 2 && (n + 1) / 4 == n / 4 && (n + 1) / 8 == n / 8
  {
  }

  // Page v of space d is frame f now; a frame for a user page was the caller's before.
  predicate MapFate(m: Machine, n: Machine, d: nat, v: nat, f: nat, g: nat) {
    if g == f && v < USERPAGES then Is(n, f, PageOf(d, v)) && f in m.mem && f in n.mem && n.mem[f] == m.mem[f] else Fate(m, n, d, 0, 0, g)
  }

  ghost predicate Mapped(m: Machine, n: Machine, d: nat, v: nat, f: nat, flags: nat) {
    && Entry(n.mem, d, v) == Pte(f, flags)
    && (forall x: nat, w: nat {:trigger SameEntry(m, n, x, w)} :: Is(m, x, Dir) && !(x == d && w == v) ==> SameEntry(m, n, x, w))
    && (forall g {:trigger MapFate(m, n, d, v, f, g)} :: MapFate(m, n, d, v, f, g))
  }

  // A frame that can be mapped for page v.
  predicate Mappable(m: Machine, v: nat, f: nat) {
    v < USERPAGES ==> Is(m, f, Kernel) && f in m.mem && m.mem[f].Data? && f != 0
  }

  // Remap is a panic.
  datatype Outcome = Ok | OutOfMemory | Remap

  // None of these pages of the space is mapped.
  predicate Vacant(m: Machine, d: nat, lo: nat, hi: nat) {
    forall w: nat :: lo <= w < hi ==> Entry(m.mem, d, w).Absent?
  }

  // All of them are, from the first to page n.
  predicate AllThere(m: Machine, d: nat, n: nat) {
    forall w: nat :: w < n ==> Entry(m.mem, d, w).Pte?
  }

  // ---------- one page less ----------

  lemma FreedNothing(m: Machine, d: nat, lo: nat)
    ensures Freed(m, m, d, lo, lo)
  {
  }

  // There is no table: all its pages are missing already.
  lemma FreedSkip(m: Machine, n: Machine, d: nat, lo: nat, v: nat, to: nat)
    requires Good(m) && Good(n) && Freed(m, n, d, lo, v) && Is(m, d, Dir) && lo <= v <= to <= (v / NPTENTRIES + 1) * NPTENTRIES
    requires Slot(n.mem, d, v / NPTENTRIES).Absent?
    ensures Freed(m, n, d, lo, to)
  {
    forall w: nat | v <= w < to
      ensures Entry(n.mem, d, w).Absent?
    {
      assert w / NPTENTRIES == v / NPTENTRIES;
    }
    FreedMore(m, n, d, lo, v, to);
  }

  lemma FreedMore(m: Machine, n: Machine, d: nat, lo: nat, v: nat, to: nat)
    requires Good(m) && Freed(m, n, d, lo, v) && Is(m, d, Dir) && lo <= v <= to
    requires forall w: nat :: v <= w < to ==> Entry(n.mem, d, w).Absent?
    ensures Freed(m, n, d, lo, to)
  {
    forall f
      ensures Lost(m, n, d, lo, to, f)
    {
      assert Lost(m, n, d, lo, v, f) && FrameOk(m, f);
      if f in m.owner && m.owner[f].PageOf? && m.owner[f].d == d && v <= m.owner[f].v {
        assert SameEntry(m, n, d, m.owner[f].v);
      }
    }
    forall x: nat, w: nat | Is(m, x, Dir) && !(x == d && lo <= w < to)
      ensures SameEntry(m, n, x, w)
    {
      assert SameEntry(m, n, x, w);
    }
  }

  lemma FreedOne(m: Machine, n: Machine, d: nat, lo: nat, v: nat)
    requires Good(m) && Good(n) && Freed(m, n, d, lo, v) && Is(m, d, Dir) && Is(n, d, Dir) && lo <= v < USERPAGES
    requires CanSet(n, d, v) && Entry(n.mem, d, v).Pte?
    ensures var f := Entry(n.mem, d, v).frame; var t := Give(Unmap(n, d, v), f); Good(t) && Freed(m, t, d, lo, v + 1)
  {
    var f := Entry(n.mem, d, v).frame;
    var u := Unmap(n, d, v);
    var t := Give(u, f);
    UnmapKeeps(n, d, v);
    GiveKeeps(u, f);
    assert SameEntry(m, n, d, v) && PteOk(m, d, v);
    forall x: nat, w: nat | Is(m, x, Dir) && !(x == d && lo <= w < v + 1)
      ensures SameEntry(m, t, x, w)
    {
      assert SameEntry(m, n, x, w) && Lost(m, n, d, lo, v, x);
    }
    assert Lost(m, n, d, lo, v, d);
    var next := v + 1;
    forall g
      ensures Lost(m, t, d, lo, next, g)
    {
      assert Lost(m, n, d, lo, v, g) && FrameOk(m, g) && FrameOk(n, g);
      if g in m.owner && m.owner[g] == PageOf(d, v) {
        assert Entry(m.mem, d, v).frame == g;
      }
    }
  }

  // ---------- many pages more ----------

  // The caller's frame is filled.
  function Filled(m: Machine, f: nat, bytes: string): Machine {
    m.(mem := m.mem[f := Data(bytes)])
  }

  lemma FilledKeeps(m: Machine, f: nat, bytes: string)
    requires Good(m) && Is(m, f, Kernel)
    ensures Good(Filled(m, f, bytes)) && forall x, w :: Is(m, x, Dir) ==> Entry(Filled(m, f, bytes).mem, x, w) == Entry(m.mem, x, w)
  {
    var n := Filled(m, f, bytes);
    forall x, w | Is(m, x, Dir)
      ensures Entry(n.mem, x, w) == Entry(m.mem, x, w)
    {
      SlotsApart(m, x, w);
    }
    forall g
      ensures FrameOk(n, g)
    {
      assert FrameOk(m, g);
    }
    forall x, i
      ensures SlotOk(n, x, i)
    {
      assert SlotOk(m, x, i);
    }
    forall x, w
      ensures PteOk(n, x, w)
    {
      assert PteOk(m, x, w);
    }
    forall k | 0 <= k < |n.free|
      ensures FreeOk(n, k)
    {
      assert FreeOk(m, k);
    }
  }

  // Page w is there, with these bytes.
  predicate Holds(m: Machine, d: nat, w: nat, flags: nat, bytes: string) {
    && Entry(m.mem, d, w).Pte? && Entry(m.mem, d, w).flags == flags
    && Entry(m.mem, d, w).frame in m.mem && m.mem[Entry(m.mem, d, w).frame] == Data(bytes)
  }

  predicate Zeroed(m: Machine, d: nat, w: nat) {
    Holds(m, d, w, PTE_P + PTE_W + PTE_U, Zeros())
  }

  lemma NewPage(m: Machine, n: Machine, d: nat, lo: nat, v: nat, bytes: string, t: Machine, flags: nat)
    requires Good(m) && Good(n) && Good(t) && Only(m, n, d, lo, v) && Is(m, d, Dir) && lo <= v < USERPAGES && n.free != []
    requires Mapped(Filled(Take(n), n.free[0], bytes), t, d, v, n.free[0], flags)
    ensures Only(m, t, d, lo, v + 1) && Holds(t, d, v, flags, bytes)
  {
    var f := n.free[0];
    var u := Filled(Take(n), f, bytes);
    TakeKeeps(n);
    FilledKeeps(Take(n), f, bytes);
    assert MapFate(u, t, d, v, f, f);
    var next := v + 1;
    forall x: nat, w: nat | Is(m, x, Dir) && !(x == d && lo <= w < next)
      ensures SameEntry(m, t, x, w)
    {
      assert Fate(m, n, d, lo, v, x) && SameEntry(m, n, x, w) && SameEntry(u, t, x, w);
    }
    forall g
      ensures Fate(m, t, d, lo, next, g)
    {
      assert Fate(m, n, d, lo, v, g) && MapFate(u, t, d, v, f, g) && FrameOk(n, g);
    }
  }

  lemma OldPage(n: Machine, d: nat, v: nat, bytes: string, t: Machine, flags: nat, w: nat, more: nat, was: string)
    requires Good(n) && Is(n, d, Dir) && n.free != [] && v < USERPAGES && w < USERPAGES && w != v
    requires Mapped(Filled(Take(n), n.free[0], bytes), t, d, v, n.free[0], flags) && Holds(n, d, w, more, was)
    ensures Holds(t, d, w, more, was)
  {
    var f := n.free[0];
    var u := Filled(Take(n), f, bytes);
    TakeKeeps(n);
    FilledKeeps(Take(n), f, bytes);
    assert SameEntry(u, t, d, w) && PteOk(n, d, w);
    assert MapFate(u, t, d, v, f, Entry(n.mem, d, w).frame);
  }

  // What became of frame f when pages lo to hi were emptied: a page there is free, and a free frame may
  // be a table of the space.
  predicate Went(m: Machine, n: Machine, d: nat, lo: nat, hi: nat, f: nat) {
    && (f in m.owner <==> f in n.owner)
    && (f in m.owner ==>
          if m.owner[f].PageOf? && m.owner[f].d == d && lo <= m.owner[f].v < hi then n.owner[f] == Free
          else || (n.owner[f] == m.owner[f] && SameData(m, n, f))
               || (m.owner[f] == Free && n.owner[f].TableOf? && n.owner[f].d == d))
  }

  // None of these pages is mapped any more, and nothing else has changed.
  ghost predicate Emptied(m: Machine, n: Machine, d: nat, lo: nat, hi: nat) {
    && (forall x: nat, w: nat {:trigger SameEntry(m, n, x, w)} :: Is(m, x, Dir) && !(x == d && lo <= w < hi) ==> SameEntry(m, n, x, w))
    && Vacant(n, d, lo, hi)
    && (forall f {:trigger Went(m, n, d, lo, hi, f)} :: Went(m, n, d, lo, hi, f))
  }

  // Some pages came, and all went.
  lemma Undone(m: Machine, n: Machine, t: Machine, d: nat, lo: nat, v: nat, hi: nat)
    requires Good(m) && Only(m, n, d, lo, v) && Freed(n, t, d, lo, hi) && Is(m, d, Dir) && lo <= v <= hi && Is(n, d, Dir)
    ensures Emptied(m, t, d, lo, hi)
  {
    forall x: nat, w: nat | Is(m, x, Dir) && !(x == d && lo <= w < hi)
      ensures SameEntry(m, t, x, w)
    {
      assert Fate(m, n, d, lo, v, x);
      assert SameEntry(m, n, x, w) && SameEntry(n, t, x, w);
    }
    forall g
      ensures Went(m, t, d, lo, hi, g)
    {
      assert Fate(m, n, d, lo, v, g) && Lost(n, t, d, lo, hi, g);
    }
  }

  // If none of them was there before, all is as before.
  lemma Restored(m: Machine, t: Machine, d: nat, lo: nat, hi: nat)
    requires Good(m) && Is(m, d, Dir) && Emptied(m, t, d, lo, hi) && Vacant(m, d, lo, hi)
    ensures Only(m, t, d, 0, 0)
  {
    forall x: nat, w: nat | Is(m, x, Dir)
      ensures SameEntry(m, t, x, w)
    {
      if x == d && lo <= w < hi {
        assert Entry(t.mem, d, w).Absent? && Entry(m.mem, d, w).Absent?;
      }
    }
    forall g
      ensures Fate(m, t, d, 0, 0, g)
    {
      assert FrameOk(m, g) && Went(m, t, d, lo, hi, g);
    }
  }

  lemma NothingFrom(m: Machine, d: nat, lo: nat)
    ensures Only(m, m, d, lo, lo)
  {
  }

  // The same with one more frame that was taken for nothing.
  lemma Returned(n: Machine, t: Machine, d: nat, lo: nat, hi: nat, bytes: string)
    requires Good(n) && n.free != [] && Freed(Filled(Take(n), n.free[0], bytes), t, d, lo, hi) && Good(t)
    ensures Is(t, n.free[0], Kernel) && Good(Give(t, n.free[0]))
  {
    var f := n.free[0];
    TakeKeeps(n);
    FilledKeeps(Take(n), f, bytes);
    assert Lost(Filled(Take(n), f, bytes), t, d, lo, hi, f);
    GiveKeeps(t, f);
  }

  lemma UndoneWith(m: Machine, n: Machine, t: Machine, d: nat, lo: nat, v: nat, hi: nat, bytes: string)
    requires Good(m) && Good(n) && Only(m, n, d, lo, v) && n.free != [] && Is(m, d, Dir) && lo <= v <= hi && Is(n, d, Dir)
    requires Freed(Filled(Take(n), n.free[0], bytes), t, d, lo, hi) && Good(t)
    ensures Emptied(m, Give(t, n.free[0]), d, lo, hi)
  {
    var f := n.free[0];
    var u := Filled(Take(n), f, bytes);
    var g := Give(t, f);
    TakeKeeps(n);
    FilledKeeps(Take(n), f, bytes);
    Returned(n, t, d, lo, hi, bytes);
    GiveKeeps(t, f);
    assert Lost(u, t, d, lo, hi, f);
    forall x: nat, w: nat | Is(m, x, Dir) && !(x == d && lo <= w < hi)
      ensures SameEntry(m, g, x, w)
    {
      assert Fate(m, n, d, lo, v, x) && Lost(u, t, d, lo, hi, x);
      assert SameEntry(m, n, x, w) && SameEntry(u, t, x, w);
    }
    forall w: nat | lo <= w < hi
      ensures Entry(g.mem, d, w).Absent?
    {
      assert Entry(t.mem, d, w).Absent?;
    }
    forall h
      ensures Went(m, g, d, lo, hi, h)
    {
      assert FrameOk(m, h) && Fate(m, n, d, lo, v, h) && Lost(u, t, d, lo, hi, h);
    }
  }

  // ---------- a whole space goes ----------

  // The space is gone: all its frames are free, everything else is as it was.
  predicate Gone(m: Machine, n: Machine, d: nat, f: nat) {
    && (f in m.owner <==> f in n.owner)
    && (f in m.owner ==> if OfSpace(m.owner[f], f, d) then n.owner[f] == Free else n.owner[f] == m.owner[f] && SameData(m, n, f))
  }

  ghost predicate SpaceGone(m: Machine, n: Machine, d: nat) {
    && (forall f {:trigger Gone(m, n, d, f)} :: Gone(m, n, d, f))
    && (forall x: nat, w: nat {:trigger SameEntry(m, n, x, w)} :: Is(m, x, Dir) && x != d ==> SameEntry(m, n, x, w))
  }

  // Its tables up to number i are free already.
  predicate Swept(m: Machine, n: Machine, d: nat, i: nat, f: nat) {
    && (f in m.owner <==> f in n.owner)
    && (f in m.owner ==>
          if f == d then n.owner[f] == Kernel
          else if m.owner[f].TableOf? && m.owner[f].d == d then n.owner[f] == if m.owner[f].i < i then Free else Kernel
          else n.owner[f] == m.owner[f] && SameData(m, n, f))
  }

  ghost predicate Sweep(m: Machine, n: Machine, d: nat, i: nat) {
    && (forall f {:trigger Swept(m, n, d, i, f)} :: Swept(m, n, d, i, f))
    && (forall x: nat, w: nat {:trigger SameEntry(m, n, x, w)} :: Is(m, x, Dir) && x != d ==> SameEntry(m, n, x, w))
    && d in m.mem && d in n.mem && n.mem[d] == m.mem[d]
  }

  lemma SweepStarts(m: Machine, d: nat)
    requires Good(m) && Is(m, d, Dir) && forall w: nat :: w < USERPAGES ==> Entry(m.mem, d, w).Absent?
    ensures Good(Abandon(m, d)) && Sweep(m, Abandon(m, d), d, 0)
  {
    AbandonKeeps(m, d);
    var n := Abandon(m, d);
    forall f
      ensures Swept(m, n, d, 0, f)
    {
      assert FrameOk(m, f);
    }
    assert FrameOk(m, d);
  }

  lemma SweepTable(m: Machine, n: Machine, d: nat, i: nat)
    requires Good(m) && Good(n) && Is(m, d, Dir) && Sweep(m, n, d, i) && i < NPTENTRIES && Slot(m.mem, d, i).Pte?
    ensures var t := Slot(m.mem, d, i).frame; Is(n, t, Kernel) && Good(Give(n, t)) && Sweep(m, Give(n, t), d, i + 1)
  {
    var t, next := Slot(m.mem, d, i).frame, i + 1;
    assert SlotOk(m, d, i) && Swept(m, n, d, i, t) && FrameOk(m, t);
    var g := Give(n, t);
    GiveKeeps(n, t);
    forall f
      ensures Swept(m, g, d, next, f)
    {
      assert Swept(m, n, d, i, f) && FrameOk(m, f);
    }
    forall x: nat, w: nat | Is(m, x, Dir) && x != d
      ensures SameEntry(m, g, x, w)
    {
      assert SameEntry(m, n, x, w) && Swept(m, n, d, i, x);
    }
  }

  lemma SweepNoTable(m: Machine, n: Machine, d: nat, i: nat)
    requires Good(m) && Is(m, d, Dir) && Sweep(m, n, d, i) && Slot(m.mem, d, i).Absent?
    ensures Sweep(m, n, d, i + 1)
  {
    var next := i + 1;
    forall f
      ensures Swept(m, n, d, next, f)
    {
      assert Swept(m, n, d, i, f) && FrameOk(m, f);
    }
  }

  lemma SweepEnds(m: Machine, k: Machine, n: Machine, d: nat)
    requires Good(m) && Good(k) && Good(n) && Is(m, d, Dir) && Freed(m, k, d, 0, USERPAGES) && Sweep(k, n, d, NPTENTRIES)
    ensures Is(n, d, Kernel) && Good(Give(n, d)) && SpaceGone(m, Give(n, d), d)
  {
    assert Lost(m, k, d, 0, USERPAGES, d) && Swept(k, n, d, NPTENTRIES, d);
    var g := Give(n, d);
    GiveKeeps(n, d);
    forall f
      ensures Gone(m, g, d, f)
    {
      assert Lost(m, k, d, 0, USERPAGES, f) && Swept(k, n, d, NPTENTRIES, f) && FrameOk(m, f) && FrameOk(k, f);
    }
    forall x: nat, w: nat | Is(m, x, Dir) && x != d
      ensures SameEntry(m, g, x, w)
    {
      assert Lost(m, k, d, 0, USERPAGES, x) && Swept(k, n, d, NPTENTRIES, x);
      assert SameEntry(m, k, x, w) && SameEntry(k, n, x, w);
    }
  }

  lemma FreeIsListed(m: Machine, f: nat)
    requires Good(m)
    ensures Is(m, f, Free) <==> f in m.free
  {
    assert FrameOk(m, f);
    if f in m.free {
      var k :| 0 <= k < |m.free| && m.free[k] == f;
      assert FreeOk(m, k);
    }
  }

  // Every frame of the space, and no other one, has come to the free list, and none twice.
  lemma FreedOnce(m: Machine, n: Machine, d: nat, f: nat)
    requires Good(m) && Good(n) && SpaceGone(m, n, d)
    ensures f in n.free <==> f in m.free || (f in m.owner && OfSpace(m.owner[f], f, d))
    ensures Is(m, d, Dir) && f in m.owner && OfSpace(m.owner[f], f, d) ==> f !in m.free
    ensures Distinct(n.free)
  {
    assert Gone(m, n, d, f);
    FreeIsListed(m, f);
    FreeIsListed(n, f);
  }

  // ---------- a whole space comes ----------

  // A range of kernel addresses, its physical address and its permissions.
  datatype Kmap = Kmap(virt: nat, phys: nat, size: nat, perm: nat)

  function First(k: Kmap): nat {
    k.virt / PGSIZE
  }

  function Last(k: Kmap): nat {
    if k.size == 0 then 0 else (k.virt + k.size - 1) / PGSIZE
  }

  predicate IsRange(k: Kmap) {
    k.virt >= KERNBASE && k.virt % PGSIZE == 0 && k.phys % PGSIZE == 0 && k.size > 0 && k.virt + k.size <= 0x1_0000_0000
  }

  // A range is made of the pages that its bytes are in.
  lemma RangeExactly(k: Kmap, v: nat)
    requires IsRange(k)
    ensures First(k) <= v <= Last(k) <==> exists byte: nat :: k.virt <= byte < k.virt + k.size && byte / 4096 == v
  {
    if First(k) <= v <= Last(k) {
      assert (4096 * v) / 4096 == v && k.virt <= 4096 * v < k.virt + k.size;
    }
  }

  predicate KernelPage(m: Machine, d: nat, k: Kmap, v: nat) {
    First(k) <= v <= Last(k) ==>
      && Entry(m.mem, d, v).Pte? && Entry(m.mem, d, v).frame == k.phys / PGSIZE + (v - First(k))
      && Opens(Entry(m.mem, d, v).flags, k.perm)
  }

  ghost predicate RangeMapped(m: Machine, d: nat, k: Kmap, upto: nat) {
    forall v: nat {:trigger KernelPage(m, d, k, v)} :: v < upto ==> KernelPage(m, d, k, v)
  }

  // Page v is in one of the first j ranges.
  predicate InSome(kmap: seq<Kmap>, j: nat, v: nat)
    requires j <= |kmap|
  {
    j > 0 && (First(kmap[j - 1]) <= v <= Last(kmap[j - 1]) || InSome(kmap, j - 1, v))
  }

  ghost predicate Fresh(kmap: seq<Kmap>, j: nat)
    requires j < |kmap|
  {
    forall v: nat :: First(kmap[j]) <= v <= Last(kmap[j]) ==> !InSome(kmap, j, v)
  }

  // No page is in two of the first j ranges.
  ghost predicate Apart(kmap: seq<Kmap>, j: nat)
    requires j <= |kmap|
  {
    forall l: nat :: l < j ==> Fresh(kmap, l)
  }

  // Just the pages of the first j ranges are mapped.
  ghost predicate Covers(m: Machine, d: nat, kmap: seq<Kmap>, j: nat)
    requires j <= |kmap|
  {
    forall v: nat :: Entry(m.mem, d, v).Pte? <==> InSome(kmap, j, v)
  }

  lemma Overlap(n: Machine, d: nat, kmap: seq<Kmap>, j: nat)
    requires j < |kmap| && Covers(n, d, kmap, j) && !Vacant(n, d, First(kmap[j]), Last(kmap[j]) + 1)
    ensures !Apart(kmap, |kmap|)
  {
    var v: nat :| First(kmap[j]) <= v < Last(kmap[j]) + 1 && !Entry(n.mem, d, v).Absent?;
    assert InSome(kmap, j, v) && !Fresh(kmap, j);
  }

  lemma CoversMore(n: Machine, t: Machine, d: nat, kmap: seq<Kmap>, j: nat)
    requires j < |kmap| && Covers(n, d, kmap, j) && Apart(kmap, j) && Is(n, d, Dir)
    requires Vacant(n, d, First(kmap[j]), Last(kmap[j]) + 1) && RangeMapped(t, d, kmap[j], Last(kmap[j]) + 1)
    requires Only(n, t, d, First(kmap[j]), Last(kmap[j]) + 1)
    ensures Covers(t, d, kmap, j + 1) && Apart(kmap, j + 1)
  {
    forall v: nat
      ensures Entry(t.mem, d, v).Pte? <==> InSome(kmap, j + 1, v)
    {
      assert v < Last(kmap[j]) + 1 ==> KernelPage(t, d, kmap[j], v);
      assert !(First(kmap[j]) <= v <= Last(kmap[j])) ==> SameEntry(n, t, d, v);
    }
    assert Fresh(kmap, j);
  }

  // What became of frame f while space d was made: nothing, or it is part of it.
  predicate Born(m: Machine, n: Machine, d: nat, hi: nat, f: nat) {
    && (f in m.owner <==> f in n.owner)
    && (f in m.owner ==>
          || (n.owner[f] == m.owner[f] && SameData(m, n, f))
          || (m.owner[f] == Free && match n.owner[f]
                                    case Dir => f == d
                                    case TableOf(x, _) => x == d
                                    case PageOf(x, v) => x == d && v < hi
                                    case _ => false))
  }

  // Space d is new, with user pages below hi only.
  ghost predicate NewSpace(m: Machine, n: Machine, d: nat, hi: nat) {
    && Is(m, d, Free) && Is(n, d, Dir)
    && (forall f {:trigger Born(m, n, d, hi, f)} :: Born(m, n, d, hi, f))
    && (forall x: nat, w: nat {:trigger SameEntry(m, n, x, w)} :: Is(m, x, Dir) ==> SameEntry(m, n, x, w))
    && (forall w: nat {:trigger Entry(n.mem, d, w)} :: hi <= w < USERPAGES ==> Entry(n.mem, d, w).Absent?)
  }

  predicate SameOwner(m: Machine, n: Machine, f: nat) {
    (f in m.owner <==> f in n.owner) && (f in m.owner ==> n.owner[f] == m.owner[f] && SameData(m, n, f))
  }

  // Nothing has been lost or changed.
  ghost predicate Untouched(m: Machine, n: Machine) {
    && (forall f {:trigger SameOwner(m, n, f)} :: SameOwner(m, n, f))
    && (forall x: nat, w: nat {:trigger SameEntry(m, n, x, w)} :: Is(m, x, Dir) ==> SameEntry(m, n, x, w))
  }

  lemma SpaceStarts(m: Machine)
    requires Good(m) && m.free != []
    ensures var n := NewDir(Take(m), m.free[0]); Good(n) && NewSpace(m, n, m.free[0], 0)
  {
    var d := m.free[0];
    TakeKeeps(m);
    NewDirKeeps(Take(m), d);
    var n := NewDir(Take(m), d);
    forall f
      ensures Born(m, n, d, 0, f)
    {
      assert FrameOk(m, f);
    }
    forall x: nat, w: nat | Is(m, x, Dir)
      ensures SameEntry(m, n, x, w)
    {
    }
  }

  // More kernel pages.
  lemma SpaceGrows(m: Machine, n: Machine, t: Machine, d: nat, lo: nat, hi: nat)
    requires Good(m) && NewSpace(m, n, d, 0) && Only(n, t, d, lo, hi) && lo >= USERPAGES && Good(t)
    ensures NewSpace(m, t, d, 0)
  {
    assert Fate(n, t, d, lo, hi, d);
    forall f
      ensures Born(m, t, d, 0, f)
    {
      assert Born(m, n, d, 0, f) && Fate(n, t, d, lo, hi, f) && FrameOk(t, f);
    }
    forall x: nat, w: nat | Is(m, x, Dir)
      ensures SameEntry(m, t, x, w)
    {
      assert SameEntry(m, n, x, w) && Born(m, n, d, 0, x) && SameEntry(n, t, x, w);
    }
    forall w: nat | w < USERPAGES
      ensures Entry(t.mem, d, w).Absent?
    {
      assert SameEntry(n, t, d, w);
    }
  }

  lemma OnlyMore(m: Machine, n: Machine, d: nat, lo: nat, v: nat, hi: nat)
    requires Only(m, n, d, lo, v) && v <= hi
    ensures Only(m, n, d, lo, hi)
  {
    forall g
      ensures Fate(m, n, d, lo, hi, g)
    {
      assert Fate(m, n, d, lo, v, g);
    }
  }

  // Ranges mapped before stay.
  lemma RangeStays(n: Machine, t: Machine, d: nat, j: Kmap, k: Kmap)
    requires IsRange(j) && IsRange(k) && Is(n, d, Dir) && RangeMapped(n, d, j, Last(j) + 1) && Only(n, t, d, First(k), Last(k) + 1)
    requires forall v: nat :: First(k) <= v <= Last(k) ==> Entry(n.mem, d, v).Absent?
    ensures RangeMapped(t, d, j, Last(j) + 1)
  {
    var upto := Last(j) + 1;
    forall v: nat | v < upto
      ensures KernelPage(t, d, j, v)
    {
      assert KernelPage(n, d, j, v);
      if First(j) <= v {
        assert SameEntry(n, t, d, v);
      }
    }
  }

  // The first j ranges are there.
  ghost predicate AllMapped(m: Machine, d: nat, kmap: seq<Kmap>, j: nat)
    requires j <= |kmap|
  {
    forall l: nat :: l < j ==> RangeMapped(m, d, kmap[l], Last(kmap[l]) + 1)
  }

  lemma AllMappedMore(n: Machine, t: Machine, d: nat, kmap: seq<Kmap>, j: nat)
    requires j < |kmap| && (forall l :: 0 <= l < |kmap| ==> IsRange(kmap[l])) && Is(n, d, Dir) && AllMapped(n, d, kmap, j)
    requires Only(n, t, d, First(kmap[j]), Last(kmap[j]) + 1) && Vacant(n, d, First(kmap[j]), Last(kmap[j]) + 1)
    requires RangeMapped(t, d, kmap[j], Last(kmap[j]) + 1)
    ensures AllMapped(t, d, kmap, j + 1)
  {
    forall l: nat | l < j
      ensures RangeMapped(t, d, kmap[l], Last(kmap[l]) + 1)
    {
      RangeStays(n, t, d, kmap[l], kmap[j]);
    }
  }

  // ---------- when memory runs out ----------

  lemma {:induction false} AtMost(codes: seq<nat>, n: nat)
    requires Distinct(codes) && forall k :: 0 <= k < |codes| ==> codes[k] < n
    ensures |codes| <= n
    decreases n
  {
    if codes != [] {
      assert codes[0] < n;
      if k :| 0 <= k < |codes| && codes[k] == n - 1 {
        var less := codes[..k] + codes[k + 1..];
        assert forall i :: 0 <= i < |less| ==> less[i] == codes[if i < k then i else i + 1];
        AtMost(less, n - 1);
      } else {
        AtMost(codes, n - 1);
      }
    }
  }

  // The frames of space d in n, numbered: the directory, the tables, and the pages from lo on; and what
  // is still free.
  ghost function Code(n: Machine, d: nat, lo: nat, span: nat, f: nat): nat
    requires f in n.owner
  {
    match n.owner[f]
    case TableOf(_, i) => i
    case PageOf(_, w) => if w >= lo then NPTENTRIES + (w - lo) else 0
    case Free => NPTENTRIES + span + if f in n.free then PlaceOf(n.free, f) else 0
    case _ => NPTENTRIES + span + |n.free|
  }

  function PlaceOf(s: seq<nat>, f: nat): (k: nat)
    requires f in s
    ensures k < |s| && s[k] == f
  {
    if s[0] == f then 0 else PlaceOf(s[1..], f) + 1
  }

  // Frame f was free, and is one of these.
  ghost predicate Spent(n: Machine, d: nat, lo: nat, span: nat, f: nat) {
    f in n.owner && match n.owner[f]
                    case TableOf(x, _) => x == d
                    case PageOf(x, w) => x == d && lo <= w < lo + span
                    case Free => true
                    case Dir => f == d
                    case Kernel => false
  }

  lemma OneCode(n: Machine, d: nat, lo: nat, span: nat, f: nat, g: nat)
    requires Good(n) && Spent(n, d, lo, span, f) && Spent(n, d, lo, span, g) && f != g
    ensures Code(n, d, lo, span, f) != Code(n, d, lo, span, g)
  {
    assert FrameOk(n, f) && FrameOk(n, g);
  }

  lemma CodeBelow(n: Machine, d: nat, lo: nat, span: nat, f: nat)
    requires Good(n) && Spent(n, d, lo, span, f)
    ensures Code(n, d, lo, span, f) < NPTENTRIES + span + |n.free| + if Is(n, f, Dir) then 1 else 0
  {
    assert FrameOk(n, f);
  }

  // What was free and is not has become part of space d.
  lemma FreeSpent(m: Machine, n: Machine, d: nat, lo: nat, span: nat, dirs: nat)
    requires Good(m) && Good(n) && forall k :: 0 <= k < |m.free| ==> Spent(n, d, lo, span, m.free[k])
    requires dirs == 0 ==> forall k :: 0 <= k < |m.free| ==> !Is(n, m.free[k], Dir)
    requires dirs <= 1
    ensures |m.free| <= NPTENTRIES + span + |n.free| + dirs
  {
    var codes := seq(|m.free|, k requires 0 <= k < |m.free| => Code(n, d, lo, span, m.free[k]));
    forall k | 0 <= k < |codes|
      ensures codes[k] < NPTENTRIES + span + |n.free| + dirs
    {
      CodeBelow(n, d, lo, span, m.free[k]);
    }
    forall i, j | 0 <= i < j < |codes|
      ensures codes[i] != codes[j]
    {
      OneCode(n, d, lo, span, m.free[i], m.free[j]);
    }
    AtMost(codes, NPTENTRIES + span + |n.free| + dirs);
  }

  lemma OnlySpent(m: Machine, n: Machine, d: nat, lo: nat, v: nat)
    requires Good(m) && Good(n) && Only(m, n, d, lo, v) && lo <= v
    ensures |m.free| <= NPTENTRIES + (v - lo) + |n.free|
  {
    forall k | 0 <= k < |m.free|
      ensures Spent(n, d, lo, v - lo, m.free[k]) && !Is(n, m.free[k], Dir)
    {
      assert FreeOk(m, k) && Fate(m, n, d, lo, v, m.free[k]);
    }
    FreeSpent(m, n, d, lo, v - lo, 0);
  }

  lemma SpaceSpent(m: Machine, n: Machine, d: nat, hi: nat)
    requires Good(m) && Good(n) && NewSpace(m, n, d, hi)
    ensures |m.free| <= NPTENTRIES + hi + |n.free| + 1
  {
    forall k | 0 <= k < |m.free|
      ensures Spent(n, d, 0, hi, m.free[k])
    {
      assert FreeOk(m, k) && Born(m, n, d, hi, m.free[k]);
    }
    FreeSpent(m, n, d, 0, hi, 1);
  }

  // ---------- a copy ----------

  // Page w of space e is what page w of space d was.
  predicate CopyOf(m: Machine, t: Machine, d: nat, e: nat, w: nat) {
    && Entry(m.mem, d, w).Pte? && Entry(m.mem, d, w).frame in m.mem && m.mem[Entry(m.mem, d, w).frame].Data?
    && Holds(t, e, w, Entry(m.mem, d, w).flags, m.mem[Entry(m.mem, d, w).frame].bytes)
  }

  lemma CopyGrows(m: Machine, n: Machine, e: nat, v: nat, bytes: string, t: Machine, flags: nat)
    requires Good(m) && Good(n) && Good(t) && NewSpace(m, n, e, v) && v < USERPAGES && n.free != []
    requires Mapped(Filled(Take(n), n.free[0], bytes), t, e, v, n.free[0], flags)
    ensures NewSpace(m, t, e, v + 1) && Holds(t, e, v, flags, bytes)
  {
    var f := n.free[0];
    var u := Filled(Take(n), f, bytes);
    TakeKeeps(n);
    FilledKeeps(Take(n), f, bytes);
    assert MapFate(u, t, e, v, f, f) && MapFate(u, t, e, v, f, e);
    var next := v + 1;
    forall g
      ensures Born(m, t, e, next, g)
    {
      assert Born(m, n, e, v, g) && MapFate(u, t, e, v, f, g) && FrameOk(n, g);
    }
    forall x: nat, w: nat | Is(m, x, Dir)
      ensures SameEntry(m, t, x, w)
    {
      assert Born(m, n, e, v, x) && SameEntry(m, n, x, w) && SameEntry(u, t, x, w);
    }
    forall w: nat | next <= w < USERPAGES
      ensures Entry(t.mem, e, w).Absent?
    {
      assert Entry(n.mem, e, w).Absent? && SameEntry(u, t, e, w);
    }
  }

  // A user page more leaves the kernel's pages as they are.
  lemma KernelStays(n: Machine, e: nat, v: nat, bytes: string, t: Machine, flags: nat, kmap: seq<Kmap>)
    requires Good(n) && Is(n, e, Dir) && v < USERPAGES && n.free != [] && forall l :: 0 <= l < |kmap| ==> IsRange(kmap[l])
    requires Mapped(Filled(Take(n), n.free[0], bytes), t, e, v, n.free[0], flags) && AllMapped(n, e, kmap, |kmap|)
    ensures AllMapped(t, e, kmap, |kmap|)
  {
    var f := n.free[0];
    var u := Filled(Take(n), f, bytes);
    TakeKeeps(n);
    FilledKeeps(Take(n), f, bytes);
    forall l: nat, w: nat | l < |kmap| && w < Last(kmap[l]) + 1
      ensures KernelPage(t, e, kmap[l], w)
    {
      assert KernelPage(n, e, kmap[l], w);
      assert FrameOk(n, e) && FreeOk(n, 0);
      if First(kmap[l]) <= w {
        assert SameEntry(u, t, e, w);
      }
    }
  }

  // A frame taken for nothing is given back.
  lemma GaveBack(m: Machine, n: Machine, e: nat, v: nat, bytes: string)
    requires Good(m) && Good(n) && NewSpace(m, n, e, v) && n.free != []
    ensures var u := Filled(Take(n), n.free[0], bytes);
            Good(u) && Is(u, n.free[0], Kernel) && Good(Give(u, n.free[0])) && NewSpace(m, Give(u, n.free[0]), e, v)
  {
    var f := n.free[0];
    var u := Filled(Take(n), f, bytes);
    TakeKeeps(n);
    FilledKeeps(Take(n), f, bytes);
    GiveKeeps(u, f);
    var t := Give(u, f);
    forall g
      ensures Born(m, t, e, v, g)
    {
      assert Born(m, n, e, v, g);
    }
    forall x: nat, w: nat | Is(m, x, Dir)
      ensures SameEntry(m, t, x, w)
    {
      assert Born(m, n, e, v, x) && SameEntry(m, n, x, w);
    }
  }

  // A space that came and went.
  lemma CameAndWent(m: Machine, n: Machine, t: Machine, d: nat, hi: nat)
    requires Good(m) && NewSpace(m, n, d, hi) && SpaceGone(n, t, d)
    ensures Untouched(m, t)
  {
    forall f
      ensures SameOwner(m, t, f)
    {
      assert Born(m, n, d, hi, f) && Gone(n, t, d, f) && FrameOk(m, f);
    }
    forall x: nat, w: nat | Is(m, x, Dir)
      ensures SameEntry(m, t, x, w)
    {
      assert SameEntry(m, n, x, w) && Born(m, n, d, hi, x) && SameEntry(n, t, x, w);
    }
  }

  lemma NoneMapped(m: Machine, d: nat, k: Kmap)
    ensures RangeMapped(m, d, k, First(k)) && Only(m, m, d, First(k), First(k))
  {
  }

  lemma OneMapped(m: Machine, n: Machine, t: Machine, d: nat, k: Kmap, v: nat)
    requires IsRange(k) && First(k) <= v <= Last(k) && Is(m, d, Dir) && Is(n, d, Dir) && Only(m, n, d, First(k), v) && RangeMapped(n, d, k, v)
    requires Mapped(n, t, d, v, k.phys / PGSIZE + (v - First(k)), Present(k.perm)) && Opens(Present(k.perm), k.perm)
    ensures Is(t, d, Dir) && Only(m, t, d, First(k), v + 1) && RangeMapped(t, d, k, v + 1)
  {
    var f, next, lo := k.phys / PGSIZE + (v - First(k)), v + 1, First(k);
    assert MapFate(n, t, d, v, f, d) && Fate(n, t, d, 0, 0, d);
    forall w: nat | w < next
      ensures KernelPage(t, d, k, w)
    {
      if w < v {
        assert KernelPage(n, d, k, w) && SameEntry(n, t, d, w);
      }
    }
    forall x: nat, w: nat | Is(m, x, Dir) && !(x == d && lo <= w < next)
      ensures SameEntry(m, t, x, w)
    {
      assert Fate(m, n, d, lo, v, x) && SameEntry(m, n, x, w) && SameEntry(n, t, x, w);
    }
    forall g
      ensures Fate(m, t, d, lo, next, g)
    {
      assert Fate(m, n, d, lo, v, g) && MapFate(n, t, d, v, f, g) && Fate(n, t, d, 0, 0, g);
    }
  }

  // ---------- one page more ----------

  lemma LinkedOnly(m: Machine, d: nat, i: nat, flags: nat)
    requires Good(m) && m.free != [] && CanLink(Take(m), d, i, m.free[0]) && Is(m, d, Dir)
    ensures Only(m, Link(Take(m), d, i, m.free[0], flags), d, 0, 0)
  {
    var n := Link(Take(m), d, i, m.free[0], flags);
    TakeKeeps(m);
    LinkKeeps(Take(m), d, i, m.free[0], flags);
    forall x: nat, w: nat | Is(m, x, Dir)
      ensures SameEntry(m, n, x, w)
    {
    }
    forall f
      ensures Fate(m, n, d, 0, 0, f)
    {
      assert FrameOk(m, f);
    }
  }

  lemma NothingOnly(m: Machine, d: nat)
    ensures Only(m, m, d, 0, 0)
  {
  }

  lemma MappedAfter(m: Machine, n: Machine, d: nat, v: nat, f: nat, flags: nat)
    requires flags % 2 == 1 && Good(m) && Good(n) && Only(m, n, d, 0, 0) && Is(m, d, Dir) && CanMap(n, d, v, f) && Mappable(m, v, f)
    ensures Mapped(m, Map(n, d, v, f, flags), d, v, f, flags)
  {
    var t := Map(n, d, v, f, flags);
    MapKeeps(n, d, v, f, flags);
    forall x: nat, w: nat | Is(m, x, Dir) && !(x == d && w == v)
      ensures SameEntry(m, t, x, w)
    {
      assert SameEntry(m, n, x, w) && Fate(m, n, d, 0, 0, x);
    }
    assert Fate(m, n, d, 0, 0, d) && Fate(m, n, d, 0, 0, f);
    forall g
      ensures MapFate(m, t, d, v, f, g)
    {
      assert Fate(m, n, d, 0, 0, g) && FrameOk(n, g);
    }
  }

  lemma NewFrameKeeps(m: Machine, f: nat)
    requires Good(m) && f !in m.owner && f != 0
    ensures Good(Give(m, f))
  {
    var k := m.(mem := m.mem[f := Data("junk")], owner := m.owner[f := Kernel]);
    forall x, w | Is(m, x, Dir)
      ensures Entry(k.mem, x, w) == Entry(m.mem, x, w)
    {
      SlotsApart(m, x, w);
      assert FrameOk(m, x);
    }
    forall g
      ensures FrameOk(k, g)
    {
      assert FrameOk(m, g);
    }
    forall x, i
      ensures SlotOk(k, x, i)
    {
      assert SlotOk(m, x, i) && FrameOk(m, x);
    }
    forall x, w
      ensures PteOk(k, x, w)
    {
      assert PteOk(m, x, w);
    }
    forall i | 0 <= i < |k.free|
      ensures FreeOk(k, i)
    {
      assert FreeOk(m, i);
    }
    GiveKeeps(k, f);
    assert Give(k, f) == Give(m, f);
  }

  class Vm {
    var mem: map<nat, Frame>
    var free: seq<nat>
    ghost var owner: map<nat, Owner>

    ghost function M(): Machine
      reads this
    {
      Machine(mem, owner, free)
    }

    // All frames of a range are free.
    constructor (start: nat, end: nat)
      requires 0 < start <= end
      ensures Good(M()) && forall f :: f in owner <==> start <= f < end
    {
      mem, free, owner := map[], [], map[];
      new;
      var p := start;
      while p < end
        invariant start <= p <= end && Good(M()) && forall f :: f in owner <==> start <= f < p
      {
        NewFrameKeeps(M(), p);
        Kfree(p);
        p := p + 1;
      }
    }

    method Kalloc() returns (f: nat)
      requires Good(M())
      modifies this`free, this`owner
      ensures Good(M())
      ensures if old(free) == [] then f == 0 && M() == old(M()) else f != 0 && f == old(free)[0] && M() == Take(old(M())) && Is(old(M()), f, Free)
    {
      if free == [] {
        return 0;
      }
      TakeKeeps(M());
      assert FreeOk(M(), 0) && FrameOk(M(), free[0]);
      f := free[0];
      free := free[1..];
      owner := owner[f := Kernel];
    }

    method Kfree(f: nat)
      modifies this
      ensures M() == Give(old(M()), f)
    {
      mem := mem[f := Data("junk")];
      free := [f] + free;
      owner := owner[f := Free];
    }

    // The table and the index in it for an address, or table 0.
    method WalkPgdir(d: nat, a: nat, alloc: bool) returns (t: nat, i: nat)
      requires Good(M()) && Is(M(), d, Dir) && a < 0x1_0000_0000
      modifies this
      ensures Good(M()) && i == Ptx(a) && (t != 0 <==> Slot(mem, d, Pdx(a)).Pte?) && (t != 0 ==> t == Slot(mem, d, Pdx(a)).frame)
      ensures if alloc && old(Slot(mem, d, Pdx(a)).Absent? && free != []) then
                CanLink(Take(old(M())), d, Pdx(a), old(free)[0]) && M() == Link(Take(old(M())), d, Pdx(a), old(free)[0], PTE_P + PTE_W + PTE_U)
              else M() == old(M())
      ensures t == 0 ==> alloc ==> free == []
      ensures Only(old(M()), M(), d, 0, 0)
    {
      NothingOnly(M(), d);
      i := Ptx(a);
      assert FrameOk(M(), d);
      var e := mem[d].ptes[Pdx(a)];
      if e.Pte? {
        t := e.frame;
        assert SlotOk(M(), d, Pdx(a)) && FrameOk(M(), t);
        return;
      }
      if !alloc {
        return 0, i;
      }
      t := Kalloc();
      if t == 0 {
        return;
      }
      assert FrameOk(M(), t);
      LinkKeeps(M(), d, Pdx(a), t, PTE_P + PTE_W + PTE_U);
      LinkedOnly(old(M()), d, Pdx(a), PTE_P + PTE_W + PTE_U);
      mem := mem[t := Table(NoEntries(NPTENTRIES))];
      mem := mem[d := Table(mem[d].ptes[Pdx(a) := Pte(t, PTE_P + PTE_W + PTE_U)])];
      owner := owner[t := TableOf(d, Pdx(a))];
    }

    // One round of the loop in mappages.
    method MapPage(d: nat, a: nat, f: nat, perm: nat, ghost v: nat) returns (r: Outcome)
      requires Good(M()) && Is(M(), d, Dir) && a == PGSIZE * v && v < NPTENTRIES * NPTENTRIES && Mappable(M(), v, f)
      modifies this
      ensures Good(M()) && (r == Remap <==> old(Entry(mem, d, v)).Pte?)
      ensures r.Ok? ==> Mapped(old(M()), M(), d, v, f, Present(perm)) && Opens(Entry(mem, d, v).flags, perm)
      ensures r.OutOfMemory? ==> free == [] && M() == old(M())
      ensures r.Remap? ==> M() == old(M())
    {
      Split(v);
      ghost var m := M();
      var t, i := WalkPgdir(d, a, true);
      if t == 0 {
        return OutOfMemory;
      }
      ghost var n := M();
      assert SameEntry(m, n, d, v) && Fate(m, n, d, 0, 0, d) && Fate(m, n, d, 0, 0, f);
      TableThere(n, d, v);
      if mem[t].ptes[i].Pte? {
        return Remap;
      }
      PresentExactly(perm, Present(perm));
      MappedAfter(m, n, d, v, f, Present(perm));
      MapKeeps(n, d, v, f, Present(perm));
      mem := mem[t := Table(mem[t].ptes[i := Pte(f, Present(perm))])];
      owner := if v < USERPAGES then owner[f := PageOf(d, v)] else owner;
      r := Ok;
    }

    method DeallocUvm(d: nat, oldsz: nat, newsz: nat) returns (r: nat)
      requires Good(M()) && Is(M(), d, Dir) && oldsz <= KERNBASE
      modifies this
      ensures Good(M()) && r == if newsz >= oldsz then oldsz else newsz
      ensures Freed(old(M()), M(), d, Up(newsz), if newsz >= oldsz then Up(newsz) else Up(oldsz))
    {
      ghost var m, lo, hi := M(), Up(newsz), Up(oldsz);
      FreedNothing(m, d, lo);
      if newsz >= oldsz {
        return oldsz;
      }
      var a := RoundUp(newsz);
      ghost var v := lo;
      while a < oldsz
        invariant Good(M()) && Is(M(), d, Dir) && a == PGSIZE * v && lo <= v <= USERPAGES
        invariant Freed(m, M(), d, lo, if v < hi then v else hi)
        decreases USERPAGES - v
      {
        Split(v);
        a, v := DeallocPage(m, d, a, lo, v, hi);
        a := a + PGSIZE;
        v := v + 1;
      }
      r := newsz;
    }

    // One round of the loop: a page goes if it is there; without a table the rest of it is left out.
    method DeallocPage(ghost m: Machine, d: nat, a: nat, ghost lo: nat, ghost v: nat, ghost hi: nat) returns (b: nat, ghost w: nat)
      requires Good(m) && Is(m, d, Dir) && Good(M()) && Is(M(), d, Dir) && a == PGSIZE * v && lo <= v < hi <= USERPAGES && Freed(m, M(), d, lo, v)
      modifies this
      ensures Good(M()) && Is(M(), d, Dir) && b == PGSIZE * w && v <= w < USERPAGES && Freed(m, M(), d, lo, if w + 1 < hi then w + 1 else hi)
    {
      Split(v);
      b, w := a, v;
      ghost var n := M();
      var t, i := WalkPgdir(d, a, false);
      if t == 0 {
        b := (Pdx(a) + 1) * 0x40_0000 - PGSIZE;
        w := (v / NPTENTRIES + 1) * NPTENTRIES - 1;
        FreedSkip(m, n, d, lo, v, if w + 1 < hi then w + 1 else hi);
        return;
      }
      TableThere(n, d, v);
      if mem[t].ptes[i].Pte? {
        FreedOne(m, n, d, lo, v);
        var f := mem[t].ptes[i].frame;
        UnmapKeeps(n, d, v);
        assert FrameOk(n, f) && FrameOk(n, d);
        Kfree(f);
        mem := mem[t := Table(mem[t].ptes[i := Absent])];
        assert M() == Give(Unmap(n, d, v), f);
      } else {
        FreedMore(m, n, d, lo, v, v + 1);
      }
    }

    // One round of the loop, with the way back if memory runs out.
    method AllocPage(ghost m: Machine, d: nat, a: nat, oldsz: nat, newsz: nat, ghost v: nat) returns (r: Outcome)
      requires Good(m) && Is(m, d, Dir) && Good(M()) && Is(M(), d, Dir) && oldsz <= a < newsz < KERNBASE && a == PGSIZE * v && Up(oldsz) <= v
      requires Only(m, M(), d, Up(oldsz), v) && Vacant(m, d, Up(oldsz), v)
      requires forall w: nat :: Up(oldsz) <= w < v ==> Zeroed(M(), d, w)
      modifies this
      ensures Good(M()) && (r.Ok? ==> Is(M(), d, Dir) && Entry(m.mem, d, v).Absent?)
      ensures r.Ok? ==> Only(m, M(), d, Up(oldsz), v + 1) && forall w: nat :: Up(oldsz) <= w <= v ==> Zeroed(M(), d, w)
      ensures r.OutOfMemory? ==> Emptied(m, M(), d, Up(oldsz), Up(newsz)) && |m.free| <= 1024 + (v - Up(oldsz)) + 1
      ensures r.Remap? ==> Entry(m.mem, d, v).Pte?
    {
      ghost var n, lo := M(), Up(oldsz);
      assert SameEntry(m, n, d, v);
      var f := Kalloc();
      OnlySpent(m, n, d, lo, v);
      if f == 0 {
        var _ := DeallocUvm(d, newsz, oldsz);
        Undone(m, n, M(), d, lo, v, Up(newsz));
        return OutOfMemory;
      }
      FilledKeeps(M(), f, Zeros());
      mem := mem[f := Data(Zeros())];
      TakeKeeps(n);
      r := MapPage(d, a, f, PTE_W + PTE_U, v);
      if r == Remap {
        return;
      }
      if r != Ok {
        var _ := DeallocUvm(d, newsz, oldsz);
        Returned(n, M(), d, lo, Up(newsz), Zeros());
        UndoneWith(m, n, M(), d, lo, v, Up(newsz), Zeros());
        Kfree(f);
        return;
      }
      NewPage(m, n, d, lo, v, Zeros(), M(), PTE_P + PTE_W + PTE_U);
      forall w: nat | lo <= w < v
        ensures Zeroed(M(), d, w)
      {
        assert Zeroed(n, d, w);
        OldPage(n, d, v, Zeros(), M(), PTE_P + PTE_W + PTE_U, w, PTE_P + PTE_W + PTE_U, Zeros());
      }
      assert Fate(m, M(), d, lo, v + 1, d);
    }

    // The kernel panics, with "remap", at the first page of the range that is mapped already.  If
    // memory runs out before, no page of the range is mapped afterwards: those that were are freed too,
    // and if there were none, all is as before.
    method AllocUvm(d: nat, oldsz: nat, newsz: nat) returns (r: nat, res: Outcome)
      requires Good(M()) && Is(M(), d, Dir)
      modifies this
      ensures Good(M())
      ensures newsz >= KERNBASE ==> r == 0 && M() == old(M())
      ensures newsz < KERNBASE && newsz < oldsz ==> r == oldsz && M() == old(M())
      ensures newsz < KERNBASE && newsz >= oldsz && res.Ok? ==>
                r == newsz && Only(old(M()), M(), d, Up(oldsz), Up(newsz)) && Vacant(old(M()), d, Up(oldsz), Up(newsz))
                && forall w: nat :: Up(oldsz) <= w < Up(newsz) ==> Zeroed(M(), d, w)
      ensures res.OutOfMemory? ==> r == 0 && Emptied(old(M()), M(), d, Up(oldsz), Up(newsz))
      ensures res.OutOfMemory? && Vacant(old(M()), d, Up(oldsz), Up(newsz)) ==> Only(old(M()), M(), d, 0, 0)
      ensures res.OutOfMemory? ==> newsz >= oldsz && |old(free)| <= 1024 + Up(newsz) - Up(oldsz)
      ensures res.Remap? ==> !Vacant(old(M()), d, Up(oldsz), Up(newsz))
    {
      res := Ok;
      if newsz >= KERNBASE {
        return 0, res;
      }
      if newsz < oldsz {
        return oldsz, res;
      }
      ghost var m, lo, hi := M(), Up(oldsz), Up(newsz);
      var a := RoundUp(oldsz);
      ghost var v := lo;
      NothingFrom(m, d, lo);
      while a < newsz
        invariant Good(M()) && Is(M(), d, Dir) && a == PGSIZE * v && lo <= v && (v <= hi || v == lo)
        invariant Only(m, M(), d, lo, v) && Vacant(m, d, lo, v) && res == Ok
        invariant forall w: nat :: lo <= w < v ==> Zeroed(M(), d, w)
        decreases hi - v
      {
        res := AllocPage(m, d, a, oldsz, newsz, v);
        if res != Ok {
          if res == OutOfMemory && Vacant(m, d, lo, hi) {
            Restored(m, M(), d, lo, hi);
          }
          return 0, res;
        }
        a := a + PGSIZE;
        v := v + 1;
      }
      r := newsz;
    }

    method FreeVm(d: nat)
      requires Good(M()) && Is(M(), d, Dir)
      modifies this
      ensures Good(M()) && SpaceGone(old(M()), M(), d)
    {
      ghost var m := M();
      var _ := DeallocUvm(d, KERNBASE, 0);
      ghost var k := M();
      assert Lost(m, k, d, 0, USERPAGES, d);
      assert FrameOk(k, d);
      SweepStarts(k, d);
      owner := Abandon(k, d).owner;
      var i := 0;
      while i < NPTENTRIES
        invariant 0 <= i <= NPTENTRIES && Good(M()) && Sweep(k, M(), d, i)
      {
        if mem[d].ptes[i].Pte? {
          SweepTable(k, M(), d, i);
          Kfree(mem[d].ptes[i].frame);
        } else {
          SweepNoTable(k, M(), d, i);
        }
        i := i + 1;
      }
      SweepEnds(m, k, M(), d);
      Kfree(d);
    }

    // It is a remap only if a page of the range was mapped, and out of memory only with no page free.
    method MapPages(d: nat, k: Kmap) returns (r: Outcome)
      requires Good(M()) && Is(M(), d, Dir) && IsRange(k)
      modifies this
      ensures Good(M()) && Is(M(), d, Dir) && Only(old(M()), M(), d, First(k), Last(k) + 1)
      ensures r.Ok? ==> RangeMapped(M(), d, k, Last(k) + 1) && Vacant(old(M()), d, First(k), Last(k) + 1)
      ensures r.Remap? ==> !Vacant(old(M()), d, First(k), Last(k) + 1)
      ensures r.OutOfMemory? ==> free == []
    {
      ghost var m, v := M(), First(k);
      var a, last, pa := k.virt / PGSIZE * PGSIZE, (k.virt + k.size - 1) / PGSIZE * PGSIZE, k.phys;
      NoneMapped(m, d, k);
      while true
        invariant Good(M()) && Is(M(), d, Dir) && a == PGSIZE * v && First(k) <= v <= Last(k) && pa == k.phys + PGSIZE * (v - First(k))
        invariant Only(m, M(), d, First(k), v) && RangeMapped(M(), d, k, v) && forall w: nat :: First(k) <= w < v ==> Entry(m.mem, d, w).Absent?
        decreases Last(k) - v
      {
        ghost var n := M();
        assert SameEntry(m, n, d, v);
        r := MapPage(d, a, pa / PGSIZE, k.perm, v);
        if r != Ok {
          OnlyMore(m, M(), d, First(k), v, Last(k) + 1);
          return;
        }
        OneMapped(m, n, M(), d, k, v);
        if a == last {
          break;
        }
        a := a + PGSIZE;
        pa := pa + PGSIZE;
        v := v + 1;
      }
    }

    // A space with the kernel's ranges only; a remap if two of them overlap.
    method SetupKvm(kmap: seq<Kmap>) returns (r: Outcome, d: nat)
      requires Good(M()) && forall j :: 0 <= j < |kmap| ==> IsRange(kmap[j])
      modifies this
      ensures Good(M())
      ensures r.Ok? ==> d != 0 && NewSpace(old(M()), M(), d, 0) && AllMapped(M(), d, kmap, |kmap|)
      ensures r.OutOfMemory? ==> d == 0 && Untouched(old(M()), M()) && |old(free)| <= 1025
      ensures r.Ok? ==> Apart(kmap, |kmap|)
      ensures r.Remap? ==> !Apart(kmap, |kmap|)
    {
      ghost var m := M();
      d := Kalloc();
      if d == 0 {
        return OutOfMemory, 0;
      }
      NewDirKeeps(M(), d);
      SpaceStarts(m);
      mem := mem[d := Table(NoEntries(NPTENTRIES))];
      owner := owner[d := Dir];
      assert Covers(M(), d, kmap, 0);
      var j := 0;
      while j < |kmap|
        invariant 0 <= j <= |kmap| && Good(M()) && NewSpace(m, M(), d, 0)
        invariant AllMapped(M(), d, kmap, j)
        invariant Covers(M(), d, kmap, j) && Apart(kmap, j)
      {
        ghost var n := M();
        r := MapPages(d, kmap[j]);
        SpaceGrows(m, n, M(), d, First(kmap[j]), Last(kmap[j]) + 1);
        if r == OutOfMemory {
          ghost var k := M();
          SpaceSpent(m, k, d, 0);
          FreeVm(d);
          CameAndWent(m, k, M(), d, 0);
          return OutOfMemory, 0;
        }
        if r == Remap {
          Overlap(n, d, kmap, j);
          return;
        }
        CoversMore(n, M(), d, kmap, j);
        AllMappedMore(n, M(), d, kmap, j);
        j := j + 1;
      }
      r := Ok;
    }

    // A copy of a space; there says that the kernel has not panicked at a page below sz that is not
    // there.
    method CopyUvm(d: nat, sz: nat, kmap: seq<Kmap>) returns (r: Outcome, e: nat, there: bool)
      requires Good(M()) && Is(M(), d, Dir) && sz <= KERNBASE && forall j :: 0 <= j < |kmap| ==> IsRange(kmap[j])
      modifies this
      ensures Good(M())
      ensures r.Ok? && there ==>
                e != 0 && NewSpace(old(M()), M(), e, Up(sz)) && forall w: nat :: w < Up(sz) ==> CopyOf(old(M()), M(), d, e, w)
      ensures r.Ok? && there ==> AllMapped(M(), e, kmap, |kmap|)
      ensures r.Ok? && there ==> AllThere(old(M()), d, Up(sz))
      ensures r.OutOfMemory? ==> e == 0 && Untouched(old(M()), M()) && |old(free)| <= 1025 + Up(sz)
      ensures r.Remap? ==> !Apart(kmap, |kmap|)
      ensures !there ==> r.Ok? && !AllThere(old(M()), d, Up(sz))
    {
      ghost var m := M();
      there := true;
      r, e := SetupKvm(kmap);
      if r != Ok {
        return;
      }
      var i := 0;
      ghost var v := 0;
      while i < sz
        invariant i == PGSIZE * v && v <= Up(sz) && Good(M()) && NewSpace(m, M(), e, v) && AllThere(m, d, v) && there
        invariant AllMapped(M(), e, kmap, |kmap|) && forall w: nat :: w < v ==> CopyOf(m, M(), d, e, w)
        decreases Up(sz) - v
      {
        var ok;
        ok, there := CopyPage(m, d, e, i, v, kmap);
        if !there {
          return;
        }
        if !ok {
          return OutOfMemory, 0, true;
        }
        i := i + PGSIZE;
        v := v + 1;
      }
    }

    method CopyPage(ghost m: Machine, d: nat, e: nat, i: nat, ghost v: nat, ghost kmap: seq<Kmap>) returns (ok: bool, there: bool)
      requires Good(m) && Is(m, d, Dir) && Good(M()) && NewSpace(m, M(), e, v) && i == PGSIZE * v && v < USERPAGES
      requires AllMapped(M(), e, kmap, |kmap|) && (forall l :: 0 <= l < |kmap| ==> IsRange(kmap[l]))
      requires forall w: nat :: w < v ==> CopyOf(m, M(), d, e, w)
      modifies this
      ensures Good(M())
      ensures there <==> Entry(m.mem, d, v).Pte?
      ensures ok && there ==> AllMapped(M(), e, kmap, |kmap|)
      ensures ok && there ==> NewSpace(m, M(), e, v + 1) && forall w: nat :: w <= v ==> CopyOf(m, M(), d, e, w)
      ensures !ok ==> Untouched(m, M()) && |m.free| <= 1025 + v + 1
    {
      ghost var n := M();
      assert SameEntry(m, n, d, v) && PteOk(m, d, v) && Born(m, n, e, v, d);
      var f, flags;
      there, f, flags := CopyFrom(d, i, v);
      if !there {
        return true, there;
      }
      assert Born(m, n, e, v, f) && FrameOk(m, f) && FrameOk(n, f);
      var bytes := mem[f].bytes;
      var g := Kalloc();
      SpaceSpent(m, n, e, v);
      if g == 0 {
        FreeVm(e);
        CameAndWent(m, n, M(), e, v);
        return false, there;
      }
      GaveBack(m, n, e, v, bytes);
      TakeKeeps(n);
      mem := mem[g := Data(bytes)];
      ghost var u := M();
      FilledKeeps(Take(n), g, bytes);
      assert Entry(n.mem, e, v).Absent?;
      var r := MapPage(e, i, g, flags, v);
      if r != Ok {
        Kfree(g);
        ghost var k := M();
        FreeVm(e);
        CameAndWent(m, k, M(), e, v);
        return false, there;
      }
      PresentExactly(flags, flags);
      CopyGrows(m, n, e, v, bytes, M(), flags);
      KernelStays(n, e, v, bytes, M(), flags, kmap);
      forall w: nat | w <= v
        ensures CopyOf(m, M(), d, e, w)
      {
        if w < v {
          assert CopyOf(m, n, d, e, w);
          OldPage(n, e, v, bytes, M(), flags, w, Entry(m.mem, d, w).flags, m.mem[Entry(m.mem, d, w).frame].bytes);
        }
      }
      ok := true;
    }

    // The page to copy, and its flags, if it is there.
    method CopyFrom(d: nat, i: nat, ghost v: nat) returns (there: bool, f: nat, flags: nat)
      requires Good(M()) && Is(M(), d, Dir) && i == PGSIZE * v && v < USERPAGES
      modifies this
      ensures M() == old(M()) && (there <==> Entry(mem, d, v).Pte?)
      ensures there ==> Pte(f, flags) == Entry(mem, d, v)
    {
      Split(v);
      var t, j := WalkPgdir(d, i, false);
      if t == 0 {
        return false, 0, 0;
      }
      TableThere(M(), d, v);
      if mem[t].ptes[j].Absent? {
        return false, 0, 0;
      }
      there, f, flags := true, mem[t].ptes[j].frame, mem[t].ptes[j].flags;
    }
  }
}
