/** Physical pages and who has them: the free list, or an address space as its directory, one
    of its page tables or one of its user pages, or somebody in the kernel. */
module PageFrames {
  import opened Sequences

  const NPTENTRIES := 1024
  // The pages below KERNBASE.
  const USERPAGES := 0x8_0000

  datatype Pte = Absent | Pte(frame: nat, flags: nat)

  datatype Frame = Table(ptes: seq<Pte>) | Data(bytes: string)

  datatype Owner = Free | Dir | TableOf(d: nat, i: nat) | PageOf(d: nat, v: nat) | Kernel

  datatype Machine = Machine(mem: map<nat, Frame>, owner: map<nat, Owner>, free: seq<nat>)

  // ---------- what a page table says ----------

  function Slot(mem: map<nat, Frame>, t: nat, i: nat): Pte {
    if t in mem && mem[t].Table? && i < |mem[t].ptes| then mem[t].ptes[i] else Absent
  }

  // Page v of the address space with directory d.
  function Entry(mem: map<nat, Frame>, d: nat, v: nat): Pte {
    var e := Slot(mem, d, v / NPTENTRIES);
    if e.Absent? then Absent else Slot(mem, e.frame, v % NPTENTRIES)
  }

  function NoEntries(n: nat): (s: seq<Pte>)
    ensures |s| == n && forall i :: 0 <= i < n ==> s[i] == Absent
  {
    if n == 0 then [] else NoEntries(n - 1) + [Absent]
  }

  // ---------- what always holds ----------

  predicate Is(m: Machine, f: nat, o: Owner) {
    f in m.owner && m.owner[f] == o
  }

  predicate FrameOk(m: Machine, f: nat) {
    f in m.owner ==>
      && f in m.mem && f != 0
      && match m.owner[f]
         case Free => f in m.free
         case Dir => m.mem[f].Table? && |m.mem[f].ptes| == NPTENTRIES
         case TableOf(d, i) =>
           m.mem[f].Table? && |m.mem[f].ptes| == NPTENTRIES && i < NPTENTRIES && Is(m, d, Dir)
           && Slot(m.mem, d, i).Pte? && Slot(m.mem, d, i).frame == f
         case PageOf(d, v) =>
           m.mem[f].Data? && v < USERPAGES && Is(m, d, Dir) && Entry(m.mem, d, v).Pte? && Entry(m.mem, d, v).frame == f
         case Kernel => true
  }

  // Each directory entry has a table of its own.
  predicate SlotOk(m: Machine, d: nat, i: nat) {
    Is(m, d, Dir) && i < NPTENTRIES && Slot(m.mem, d, i).Pte? ==> Is(m, Slot(m.mem, d, i).frame, TableOf(d, i))
  }

  // Each user page is there for one address of one space.
  predicate PteOk(m: Machine, d: nat, v: nat) {
    Is(m, d, Dir) && v < USERPAGES && Entry(m.mem, d, v).Pte? ==>
      Is(m, Entry(m.mem, d, v).frame, PageOf(d, v)) && Entry(m.mem, d, v).flags % 2 == 1
  }

  predicate FreeOk(m: Machine, k: nat)
    requires k < |m.free|
  {
    Is(m, m.free[k], Free)
  }

  ghost predicate Good(m: Machine) {
    && (forall f {:trigger FrameOk(m, f)} :: FrameOk(m, f))
    && (forall d, i {:trigger SlotOk(m, d, i)} :: SlotOk(m, d, i))
    && (forall d, v {:trigger PteOk(m, d, v)} :: PteOk(m, d, v))
    && (forall k {:trigger FreeOk(m, k)} :: 0 <= k < |m.free| ==> FreeOk(m, k))
    && Distinct(m.free)
  }

  // ---------- one page out of and into the free list ----------

  function Take(m: Machine): Machine
    requires m.free != []
  {
    m.(owner := m.owner[m.free[0] := Kernel], free := m.free[1..])
  }

  lemma TakeKeeps(m: Machine)
    requires Good(m) && m.free != []
    ensures Good(Take(m)) && Is(m, m.free[0], Free) && m.free[0] in m.mem
  {
    var t, f := Take(m), m.free[0];
    assert FreeOk(m, 0) && FrameOk(m, f);
    assert m.free == [f] + t.free;
    forall g
      ensures FrameOk(t, g)
    {
      assert FrameOk(m, g);
    }
    forall d, i
      ensures SlotOk(t, d, i)
    {
      assert SlotOk(m, d, i);
    }
    forall d, v
      ensures PteOk(t, d, v)
    {
      assert PteOk(m, d, v);
    }
    forall k | 0 <= k < |t.free|
      ensures FreeOk(t, k)
    {
      assert FreeOk(m, k + 1);
    }
  }

  function Give(m: Machine, f: nat): Machine {
    m.(mem := m.mem[f := Data("junk")], owner := m.owner[f := Free], free := [f] + m.free)
  }

  lemma GiveKeeps(m: Machine, f: nat)
    requires Good(m) && Is(m, f, Kernel)
    ensures Good(Give(m, f)) && forall d, v :: Is(m, d, Dir) ==> Entry(Give(m, f).mem, d, v) == Entry(m.mem, d, v)
  {
    var t := Give(m, f);
    assert FrameOk(m, f);
    forall d, v | Is(m, d, Dir)
      ensures Entry(t.mem, d, v) == Entry(m.mem, d, v)
    {
      SlotsApart(m, d, v);
    }
    forall g
      ensures FrameOk(t, g)
    {
      assert FrameOk(m, g);
    }
    forall d, i
      ensures SlotOk(t, d, i)
    {
      assert SlotOk(m, d, i);
    }
    forall d, v
      ensures PteOk(t, d, v)
    {
      assert PteOk(m, d, v);
    }
    forall k | 0 <= k < |t.free|
      ensures FreeOk(t, k)
    {
      assert k > 0 ==> FreeOk(m, k - 1);
    }
    forall i, j | 0 <= i < j < |t.free|
      ensures t.free[i] != t.free[j]
    {
      assert FreeOk(m, j - 1);
    }
  }

  // The table for page v, if there is one, is that of its slot.
  lemma SlotsApart(m: Machine, d: nat, v: nat)
    requires Good(m) && Is(m, d, Dir)
    ensures v / NPTENTRIES < NPTENTRIES && Slot(m.mem, d, v / NPTENTRIES).Pte?
            ==> Is(m, Slot(m.mem, d, v / NPTENTRIES).frame, TableOf(d, v / NPTENTRIES))
    ensures v / NPTENTRIES >= NPTENTRIES ==> Slot(m.mem, d, v / NPTENTRIES) == Absent
  {
    assert SlotOk(m, d, v / NPTENTRIES) && FrameOk(m, d);
  }

  // ---------- tables and pages in and out of a space ----------

  function SetSlot(mem: map<nat, Frame>, t: nat, i: nat, e: Pte): map<nat, Frame>
    requires t in mem && mem[t].Table? && i < |mem[t].ptes|
  {
    mem[t := Table(mem[t].ptes[i := e])]
  }

  predicate HasTable(m: Machine, d: nat, i: nat) {
    Is(m, d, Dir) && i < NPTENTRIES && Slot(m.mem, d, i).Pte?
  }

  predicate CanLink(m: Machine, d: nat, i: nat, t: nat) {
    && Is(m, d, Dir) && d in m.mem && m.mem[d].Table? && |m.mem[d].ptes| == NPTENTRIES && i < NPTENTRIES
    && Slot(m.mem, d, i).Absent? && Is(m, t, Kernel) && t in m.mem && t != 0 && t != d
  }

  // Frame t becomes the page table for slot i, without entries.
  function Link(m: Machine, d: nat, i: nat, t: nat, flags: nat): Machine
    requires CanLink(m, d, i, t)
  {
    m.(mem := SetSlot(m.mem[t := Table(NoEntries(NPTENTRIES))], d, i, Pte(t, flags)), owner := m.owner[t := TableOf(d, i)])
  }

  lemma LinkEntry(m: Machine, d: nat, i: nat, t: nat, flags: nat, x: nat, v: nat)
    requires Good(m) && CanLink(m, d, i, t) && Is(m, x, Dir)
    ensures Entry(Link(m, d, i, t, flags).mem, x, v) == Entry(m.mem, x, v)
  {
    SlotsApart(m, x, v);
    assert FrameOk(m, x);
  }

  lemma LinkKeeps(m: Machine, d: nat, i: nat, t: nat, flags: nat)
    requires Good(m) && CanLink(m, d, i, t)
    ensures Good(Link(m, d, i, t, flags)) && HasTable(Link(m, d, i, t, flags), d, i)
    ensures forall x, v :: Is(m, x, Dir) ==> Entry(Link(m, d, i, t, flags).mem, x, v) == Entry(m.mem, x, v)
  {
    var n := Link(m, d, i, t, flags);
    forall x, v | Is(m, x, Dir)
      ensures Entry(n.mem, x, v) == Entry(m.mem, x, v)
    {
      LinkEntry(m, d, i, t, flags, x, v);
    }
    forall f
      ensures FrameOk(n, f)
    {
      assert FrameOk(m, f) && FrameOk(m, d);
    }
    forall x, j
      ensures SlotOk(n, x, j)
    {
      assert SlotOk(m, x, j) && FrameOk(m, x);
    }
    forall x, v
      ensures PteOk(n, x, v)
    {
      assert PteOk(m, x, v);
    }
    forall k | 0 <= k < |n.free|
      ensures FreeOk(n, k)
    {
      assert FreeOk(m, k);
    }
  }

  predicate CanSet(m: Machine, d: nat, v: nat) {
    && HasTable(m, d, v / NPTENTRIES)
    && var t := Slot(m.mem, d, v / NPTENTRIES).frame;
       Is(m, t, TableOf(d, v / NPTENTRIES)) && t in m.mem && m.mem[t].Table? && |m.mem[t].ptes| == NPTENTRIES && t != d
  }

  lemma TableThere(m: Machine, d: nat, v: nat)
    requires Good(m) && HasTable(m, d, v / NPTENTRIES)
    ensures CanSet(m, d, v)
  {
    assert SlotOk(m, d, v / NPTENTRIES) && FrameOk(m, d) && FrameOk(m, Slot(m.mem, d, v / NPTENTRIES).frame);
  }

  function SetEntry(m: Machine, d: nat, v: nat, e: Pte): map<nat, Frame>
    requires CanSet(m, d, v)
  {
    SetSlot(m.mem, Slot(m.mem, d, v / NPTENTRIES).frame, v % NPTENTRIES, e)
  }

  lemma EntrySet(m: Machine, d: nat, v: nat, e: Pte, x: nat, w: nat)
    requires Good(m) && CanSet(m, d, v) && Is(m, x, Dir)
    ensures Entry(SetEntry(m, d, v, e), x, w) == if x == d && w == v then e else Entry(m.mem, x, w)
  {
    SlotsApart(m, x, w);
    assert FrameOk(m, x);
  }

  // Page v of the space is frame f from now on.
  function Map(m: Machine, d: nat, v: nat, f: nat, flags: nat): Machine
    requires CanSet(m, d, v)
  {
    m.(mem := SetEntry(m, d, v, Pte(f, flags)), owner := if v < USERPAGES then m.owner[f := PageOf(d, v)] else m.owner)
  }

  predicate CanMap(m: Machine, d: nat, v: nat, f: nat) {
    && CanSet(m, d, v) && Entry(m.mem, d, v).Absent?
    && (v < USERPAGES ==> Is(m, f, Kernel) && f in m.mem && m.mem[f].Data? && f != 0)
  }

  lemma MapKeeps(m: Machine, d: nat, v: nat, f: nat, flags: nat)
    requires Good(m) && CanMap(m, d, v, f) && flags % 2 == 1
    ensures Good(Map(m, d, v, f, flags))
    ensures forall x, w :: Is(m, x, Dir) ==> Entry(Map(m, d, v, f, flags).mem, x, w) == if x == d && w == v then Pte(f, flags) else Entry(m.mem, x, w)
  {
    var n := Map(m, d, v, f, flags);
    forall x, w | Is(m, x, Dir)
      ensures Entry(n.mem, x, w) == if x == d && w == v then Pte(f, flags) else Entry(m.mem, x, w)
    {
      EntrySet(m, d, v, Pte(f, flags), x, w);
    }
    SetKeeps(m, d, v, n);
  }

  // What Map and Unmap have in common.
  predicate Changed(m: Machine, d: nat, v: nat, n: Machine)
    requires CanSet(m, d, v)
  {
    && n.free == m.free && n.mem == SetEntry(m, d, v, Entry(n.mem, d, v))
    && if v >= USERPAGES then n.owner == m.owner
       else match Entry(n.mem, d, v)
            case Pte(f, flags) => flags % 2 == 1 && Is(m, f, Kernel) && f in m.mem && m.mem[f].Data? && f != 0 && n.owner == m.owner[f := PageOf(d, v)] && Entry(m.mem, d, v).Absent?
            case Absent => Entry(m.mem, d, v).Pte? && n.owner == m.owner[Entry(m.mem, d, v).frame := Kernel]
  }

  lemma SetKeeps(m: Machine, d: nat, v: nat, n: Machine)
    requires Good(m) && CanSet(m, d, v) && Changed(m, d, v, n)
    requires forall x, w :: Is(m, x, Dir) && (x != d || w != v) ==> Entry(n.mem, x, w) == Entry(m.mem, x, w)
    ensures Good(n)
  {
    assert PteOk(m, d, v) && FrameOk(m, d);
    assert Entry(m.mem, d, v).Pte? && v < USERPAGES ==> FrameOk(m, Entry(m.mem, d, v).frame);
    forall f
      ensures FrameOk(n, f)
    {
      assert FrameOk(m, f);
    }
    forall x, j
      ensures SlotOk(n, x, j)
    {
      assert SlotOk(m, x, j) && FrameOk(m, x);
    }
    forall x, w
      ensures PteOk(n, x, w)
    {
      assert PteOk(m, x, w);
    }
    forall k | 0 <= k < |n.free|
      ensures FreeOk(n, k)
    {
      assert FreeOk(m, k);
    }
  }

  function Unmap(m: Machine, d: nat, v: nat): Machine
    requires CanSet(m, d, v) && Entry(m.mem, d, v).Pte?
  {
    m.(mem := SetEntry(m, d, v, Absent), owner := m.owner[Entry(m.mem, d, v).frame := Kernel])
  }

  lemma UnmapKeeps(m: Machine, d: nat, v: nat)
    requires Good(m) && CanSet(m, d, v) && Entry(m.mem, d, v).Pte? && v < USERPAGES
    ensures Good(Unmap(m, d, v)) && Is(m, Entry(m.mem, d, v).frame, PageOf(d, v)) && Is(Unmap(m, d, v), Entry(m.mem, d, v).frame, Kernel)
    ensures forall x, w :: Is(m, x, Dir) ==> Entry(Unmap(m, d, v).mem, x, w) == if x == d && w == v then Absent else Entry(m.mem, x, w)
  {
    var n := Unmap(m, d, v);
    assert PteOk(m, d, v);
    forall x, w | Is(m, x, Dir)
      ensures Entry(n.mem, x, w) == if x == d && w == v then Absent else Entry(m.mem, x, w)
    {
      EntrySet(m, d, v, Absent, x, w);
    }
    SetKeeps(m, d, v, n);
  }

  // ---------- a whole space ----------

  function NewDir(m: Machine, d: nat): Machine {
    m.(mem := m.mem[d := Table(NoEntries(NPTENTRIES))], owner := m.owner[d := Dir])
  }

  lemma NewDirKeeps(m: Machine, d: nat)
    requires Good(m) && Is(m, d, Kernel)
    ensures Good(NewDir(m, d)) && forall v :: Entry(NewDir(m, d).mem, d, v).Absent?
    ensures forall x, v :: Is(m, x, Dir) ==> Entry(NewDir(m, d).mem, x, v) == Entry(m.mem, x, v)
  {
    var n := NewDir(m, d);
    assert FrameOk(m, d);
    forall x, v | Is(m, x, Dir)
      ensures Entry(n.mem, x, v) == Entry(m.mem, x, v)
    {
      SlotsApart(m, x, v);
    }
    forall f
      ensures FrameOk(n, f)
    {
      assert FrameOk(m, f);
    }
    forall x, j
      ensures SlotOk(n, x, j)
    {
      assert SlotOk(m, x, j);
    }
    forall x, w
      ensures PteOk(n, x, w)
    {
      assert PteOk(m, x, w);
    }
    forall k | 0 <= k < |n.free|
      ensures FreeOk(n, k)
    {
      assert FreeOk(m, k);
    }
  }

  predicate OfSpace(o: Owner, f: nat, d: nat) {
    f == d || (o.TableOf? && o.d == d) || (o.PageOf? && o.d == d)
  }

  // A space without user pages is nobody's.
  function Abandon(m: Machine, d: nat): Machine {
    m.(owner := map f | f in m.owner :: if OfSpace(m.owner[f], f, d) then Kernel else m.owner[f])
  }

  lemma AbandonKeeps(m: Machine, d: nat)
    requires Good(m) && Is(m, d, Dir) && forall v: nat :: v < USERPAGES ==> Entry(m.mem, d, v).Absent?
    ensures Good(Abandon(m, d)) && forall f :: f in m.owner ==> m.owner[f] != PageOf(d, if m.owner[f].PageOf? then m.owner[f].v else 0)
  {
    var n := Abandon(m, d);
    forall f | f in m.owner
      ensures m.owner[f] != PageOf(d, if m.owner[f].PageOf? then m.owner[f].v else 0)
    {
      assert FrameOk(m, f);
    }
    forall f
      ensures FrameOk(n, f)
    {
      assert FrameOk(m, f);
    }
    forall x, j
      ensures SlotOk(n, x, j)
    {
      assert SlotOk(m, x, j);
    }
    forall x, w
      ensures PteOk(n, x, w)
    {
      assert PteOk(m, x, w);
    }
    forall k | 0 <= k < |n.free|
      ensures FreeOk(n, k)
    {
      assert FreeOk(m, k);
    }
  }
}
