/** The buffer pool of buffer_manager.c over the files of the open tables.  What a page holds is
    what its buffer says, or the disk if it has none; only writing to a page changes it. */
module BufferPool {
  import opened DiskSpace
  import opened LruList
  import opened Sequences

  datatype Id = Id(table: nat, page: nat)

  type Disk = map<Id, Content>

  function Of(f: Frame): Id {
    Id(f.table, f.page)
  }

  predicate Holds(b: seq<Frame>, i: int, id: Id) {
    0 <= i < |b| && b[i].used && Of(b[i]) == id
  }

  ghost predicate Buffered(b: seq<Frame>, id: Id) {
    exists i {:trigger Holds(b, i, id)} :: Holds(b, i, id)
  }

  // ---------- what always holds ----------

  // view is for the pages that hold something; of the others nothing is said.
  predicate FrameOk(b: seq<Frame>, disk: Disk, view: Disk, i: int)
    requires 0 <= i < |b|
  {
    b[i].used ==>
      && b[i].table > 0 && b[i].pinned >= 0 && Of(b[i]) in disk
      && (Of(b[i]) in view ==> view[Of(b[i])] == b[i].data && (!b[i].dirty ==> disk[Of(b[i])] == b[i].data))
  }

  // An unused buffer has no name and no pin.
  predicate Blank(b: seq<Frame>, i: int)
    requires 0 <= i < |b|
  {
    !b[i].used ==> b[i].table == 0 && b[i].pinned == 0
  }

  predicate Different(b: seq<Frame>, i: int, j: int)
    requires 0 <= i < j < |b|
  {
    b[i].used && b[j].used ==> Of(b[i]) != Of(b[j])
  }

  ghost predicate Shown(b: seq<Frame>, disk: Disk, view: Disk, id: Id) {
    id in view ==> id.table > 0 && id in disk && (Buffered(b, id) || view[id] == disk[id])
  }

  // skip is a buffer between two pages.
  ghost predicate Good(b: seq<Frame>, disk: Disk, view: Disk, skip: int) {
    && (forall i {:trigger FrameOk(b, disk, view, i)} :: 0 <= i < |b| ==> FrameOk(b, disk, view, i))
    && (forall i {:trigger Blank(b, i)} :: 0 <= i < |b| && i != skip ==> Blank(b, i))
    && (forall i, j {:trigger Different(b, i, j)} :: 0 <= i < j < |b| ==> Different(b, i, j))
    && (forall id {:trigger Shown(b, disk, view, id)} :: Shown(b, disk, view, id))
  }

  // Apart from its place in the list, a buffer is as it was.
  predicate SameFrame(f: Frame, g: Frame) {
    f.(next := g.next, prev := g.prev) == g
  }

  predicate SameAt(b: seq<Frame>, c: seq<Frame>, i: int)
    requires |b| == |c| && 0 <= i < |b|
  {
    SameFrame(b[i], c[i])
  }

  predicate SameFrames(b: seq<Frame>, c: seq<Frame>) {
    |b| == |c| && forall i {:trigger SameAt(b, c, i)} :: 0 <= i < |b| ==> SameAt(b, c, i)
  }

  lemma SameKeeps(b: seq<Frame>, c: seq<Frame>, disk: Disk, view: Disk, skip: int)
    requires Good(b, disk, view, skip) && SameFrames(b, c)
    ensures Good(c, disk, view, skip)
  {
    forall i | 0 <= i < |c|
      ensures FrameOk(c, disk, view, i) && (i != skip ==> Blank(c, i))
    {
      assert SameAt(b, c, i) && FrameOk(b, disk, view, i) && (i != skip ==> Blank(b, i));
    }
    forall i, j | 0 <= i < j < |c|
      ensures Different(c, i, j)
    {
      assert SameAt(b, c, i) && SameAt(b, c, j) && Different(b, i, j);
    }
    forall id
      ensures Shown(c, disk, view, id)
    {
      assert Shown(b, disk, view, id);
      if i :| Holds(b, i, id) {
        assert SameAt(b, c, i) && Holds(c, i, id);
      }
    }
  }

  lemma SameChain(a: seq<Frame>, b: seq<Frame>, c: seq<Frame>)
    requires SameFrames(a, b) && SameFrames(b, c)
    ensures SameFrames(a, c)
  {
    forall i | 0 <= i < |a|
      ensures SameAt(a, c, i)
    {
      assert SameAt(a, b, i) && SameAt(b, c, i);
    }
  }

  // ---------- a page out of and into a buffer ----------

  function Cleared(f: Frame): Frame {
    f.(table := 0, page := 0, dirty := false, pinned := 0, used := false)
  }

  // A buffer is given up; the disk has got what it held, if that is worth anything.
  lemma VacateKeeps(b: seq<Frame>, disk: Disk, view: Disk, i: nat, g: Frame, more: Disk, skip: int)
    requires Good(b, disk, view, -1) && i < |b| && b[i].used && !g.used
    requires (g.table == 0 && g.pinned == 0) || i == skip
    requires forall id :: id in disk ==> id in more && (id != Of(b[i]) ==> more[id] == disk[id])
    requires Of(b[i]) in view ==> Of(b[i]) in more && more[Of(b[i])] == b[i].data
    ensures Good(b[i := g], more, view, skip)
    ensures forall id :: Buffered(b, id) && id != Of(b[i]) ==> Buffered(b[i := g], id)
  {
    var c, was := b[i := g], Of(b[i]);
    assert FrameOk(b, disk, view, i);
    forall j | 0 <= j < |c|
      ensures FrameOk(c, more, view, j) && (j != skip ==> Blank(c, j))
    {
      assert FrameOk(b, disk, view, j) && Blank(b, j);
      if j < i {
        assert Different(b, j, i);
      } else if i < j {
        assert Different(b, i, j);
      }
    }
    forall j, k | 0 <= j < k < |c|
      ensures Different(c, j, k)
    {
      assert Different(b, j, k);
    }
    forall id
      ensures Shown(c, more, view, id) && (Buffered(b, id) && id != was ==> Buffered(c, id))
    {
      assert Shown(b, disk, view, id);
      if j :| Holds(b, j, id) && id != was {
        assert Holds(c, j, id);
      }
    }
  }

  lemma ClearKeeps(b: seq<Frame>, disk: Disk, view: Disk, i: nat)
    requires Good(b, disk, view, -1) && i < |b| && b[i].used
    ensures Good(b[i := Cleared(b[i])], disk[Of(b[i]) := b[i].data], view, -1)
    ensures !b[i].dirty ==> Good(b[i := Cleared(b[i])], disk, view, -1)
  {
    assert FrameOk(b, disk, view, i);
    VacateKeeps(b, disk, view, i, Cleared(b[i]), disk[Of(b[i]) := b[i].data], -1);
    if !b[i].dirty {
      VacateKeeps(b, disk, view, i, Cleared(b[i]), disk, -1);
    }
  }

  // A buffer that says what the disk says is given up without writing.
  lemma DropKeeps(b: seq<Frame>, disk: Disk, view: Disk, i: nat)
    requires Good(b, disk, view, -1) && i < |b| && b[i].used && !b[i].dirty
    ensures Good(b[i := b[i].(used := false)], disk, view, i)
  {
    assert FrameOk(b, disk, view, i);
    VacateKeeps(b, disk, view, i, b[i].(used := false), disk, i);
  }

  // Given up, with what it held written if it was dirty.
  function Vacated(f: Frame): Frame {
    if f.used && f.dirty then Cleared(f) else f.(used := false)
  }

  function WroteBack(disk: Disk, f: Frame): Disk {
    if f.used && f.dirty then disk[Of(f) := f.data] else disk
  }

  function Loaded(f: Frame, id: Id, data: Content): Frame {
    f.(table := id.table, page := id.page, dirty := false, pinned := 0, used := true, data := data)
  }

  function Written(f: Frame, id: Id, data: Content): Frame {
    f.(table := id.table, page := id.page, dirty := true, used := true, data := data)
  }

  // Buffer i is the one for page id: it has it, or it is unused and no other one has it.
  ghost predicate Ready(b: seq<Frame>, i: int, id: Id) {
    0 <= i < |b| && if b[i].used then Holds(b, i, id) else b[i].pinned == 0 && !Buffered(b, id)
  }

  lemma LoadKeeps(b: seq<Frame>, disk: Disk, view: Disk, i: nat, id: Id)
    requires Good(b, disk, view, i) && Ready(b, i, id) && !b[i].used && id in view
    ensures id in disk && view[id] == disk[id] && Good(b[i := Loaded(b[i], id, disk[id])], disk, view, -1)
  {
    assert Shown(b, disk, view, id);
    StoredKeeps(b, disk, view, i, id, Loaded(b[i], id, disk[id]));
    assert view[id := disk[id]] == view;
  }

  // Buffer i gets page id, with other data or those of the disk.
  lemma StoredKeeps(b: seq<Frame>, disk: Disk, view: Disk, i: nat, id: Id, f: Frame)
    requires Good(b, disk, view, i) && Ready(b, i, id) && id in disk && id.table > 0
    requires f.used && f.pinned >= 0 && Of(f) == id && (!f.dirty ==> f.data == disk[id])
    ensures Good(b[i := f], disk, view[id := f.data], -1)
  {
    var c, now := b[i := f], view[id := f.data];
    forall j | 0 <= j < |c|
      ensures FrameOk(c, disk, now, j) && Blank(c, j)
    {
      assert FrameOk(b, disk, view, j) && (j != i ==> Blank(b, j));
      NotElsewhere(b, disk, view, i, id, j);
    }
    forall j, k | 0 <= j < k < |c|
      ensures Different(c, j, k)
    {
      assert Different(b, j, k);
      NotElsewhere(b, disk, view, i, id, j);
      NotElsewhere(b, disk, view, i, id, k);
    }
    forall x
      ensures Shown(c, disk, now, x)
    {
      assert Shown(b, disk, view, x);
      if x == id {
        assert Holds(c, i, id);
      } else if j :| Holds(b, j, x) {
        assert Holds(c, j, x);
      }
    }
  }

  lemma NotElsewhere(b: seq<Frame>, disk: Disk, view: Disk, i: nat, id: Id, j: nat)
    requires Good(b, disk, view, i) && Ready(b, i, id) && j < |b|
    ensures j != i && b[j].used ==> Of(b[j]) != id
  {
    if j != i && b[j].used {
      if b[i].used {
        assert if i < j then Different(b, i, j) else Different(b, j, i);
      } else {
        assert !Holds(b, j, id);
      }
    }
  }

  // Buffer i takes page id, which holds nothing as far as the view goes.
  lemma TakeKeeps(b: seq<Frame>, disk: Disk, more: Disk, view: Disk, i: nat, id: Id, f: Frame)
    requires Good(b, disk, view, i) && Ready(b, i, id) && id !in view && id in more && id.table > 0
    requires f.used && f.pinned >= 0 && Of(f) == id
    requires forall x :: x in disk ==> x in more && (x in view ==> more[x] == disk[x])
    ensures Good(b[i := f], more, view, -1)
  {
    var c := b[i := f];
    forall j | 0 <= j < |c|
      ensures FrameOk(c, more, view, j) && Blank(c, j)
    {
      assert FrameOk(b, disk, view, j) && (j != i ==> Blank(b, j));
    }
    forall j, k | 0 <= j < k < |c|
      ensures Different(c, j, k)
    {
      assert Different(b, j, k);
      NotElsewhere(b, disk, view, i, id, j);
      NotElsewhere(b, disk, view, i, id, k);
    }
    forall x
      ensures Shown(c, more, view, x)
    {
      assert Shown(b, disk, view, x);
      if j :| Holds(b, j, x) {
        assert j != i ==> Holds(c, j, x);
      }
    }
  }

  lemma PinKeeps(b: seq<Frame>, c: seq<Frame>, disk: Disk, view: Disk, i: nat)
    requires Good(b, disk, view, i) && i < |b| && b[i].used && |c| == |b| && c == b[i := b[i].(pinned := c[i].pinned)]
    requires c[i].pinned >= 0
    ensures Good(c, disk, view, -1)
  {
    forall j | 0 <= j < |c|
      ensures FrameOk(c, disk, view, j) && Blank(c, j)
    {
      assert FrameOk(b, disk, view, j) && (j != i ==> Blank(b, j));
    }
    forall j, k | 0 <= j < k < |c|
      ensures Different(c, j, k)
    {
      assert Different(b, j, k);
    }
    forall id
      ensures Shown(c, disk, view, id)
    {
      assert Shown(b, disk, view, id);
      if j :| Holds(b, j, id) {
        assert Holds(c, j, id);
      }
    }
  }

  lemma NotBuffered(b: seq<Frame>, disk: Disk, view: Disk, id: Id)
    requires Good(b, disk, view, -1) && id !in disk
    ensures !Buffered(b, id)
  {
    forall i | 0 <= i < |b|
      ensures !Holds(b, i, id)
    {
      assert FrameOk(b, disk, view, i);
    }
  }

  lemma NewPageKeeps(b: seq<Frame>, disk: Disk, view: Disk, i: nat, id: Id, src: Content)
    requires Good(b, disk, view, i) && id !in disk
    ensures Good(b, disk[id := src], view, i)
  {
    var more := disk[id := src];
    forall j | 0 <= j < |b|
      ensures FrameOk(b, more, view, j)
    {
      assert FrameOk(b, disk, view, j);
    }
    forall x
      ensures Shown(b, more, view, x)
    {
      assert Shown(b, disk, view, x);
    }
  }

  // ---------- which buffer is taken ----------

  predicate FirstUnused(b: seq<Frame>, i: int) {
    0 <= i < |b| && !b[i].used && forall j :: 0 <= j < i ==> b[j].used
  }

  predicate NoneUnused(b: seq<Frame>) {
    forall j :: 0 <= j < |b| ==> b[j].used
  }

  // The least recently used of the buffers without a pin.
  ghost predicate LeastRecent(b: seq<Frame>, order: seq<nat>, i: int) {
    exists k :: 0 <= k < |order| && order[k] == i && Loose(b, i) && forall j :: 0 <= j < k ==> !Loose(b, order[j])
  }

  ghost predicate AnyLoose(b: seq<Frame>, order: seq<nat>) {
    exists k :: 0 <= k < |order| && Loose(b, order[k])
  }

  ghost predicate Chosen(b: seq<Frame>, order: seq<nat>, id: Id, i: int) {
    if Buffered(b, id) then Holds(b, i, id)
    else if NoneUnused(b) then LeastRecent(b, order, i) else FirstUnused(b, i)
  }

  predicate OthersSame(b: seq<Frame>, c: seq<Frame>, i: int) {
    |b| == |c| && forall j {:trigger SameAt(b, c, j)} :: 0 <= j < |b| && j != i ==> SameAt(b, c, j)
  }

  // The frame stays where it is in the list.
  lemma ListStays(b: seq<Frame>, c: seq<Frame>, order: seq<nat>)
    requires Linked(b, order, -1) && |b| == |c| && forall i :: 0 <= i < |b| ==> b[i].next == c[i].next && b[i].prev == c[i].prev
    ensures Linked(c, order, -1)
  {
    forall k | 0 <= k < |order|
      ensures Link(c, order, k)
    {
      assert Link(b, order, k);
    }
    forall i | 0 <= i < |c| && i !in order
      ensures Off(c, i)
    {
      assert Off(b, i);
    }
  }

  class Pool {
    const buf: array<Frame>
    var disk: Disk
    ghost var order: seq<nat>
    ghost var view: Disk

    ghost predicate InList()
      reads this, buf
    {
      Linked(buf[..], order, -1) && forall i :: 0 <= i < buf.Length && buf[i].used ==> i in order
    }

    ghost predicate Valid()
      reads this, buf
    {
      Good(buf[..], disk, view, -1) && InList()
    }

    // There is a buffer for the page, an unused one, or one in the list without a pin.
    ghost predicate Room(id: Id)
      reads this, buf
    {
      Buffered(buf[..], id) || !NoneUnused(buf[..]) || AnyLoose(buf[..], order)
    }

    constructor (n: nat, files: Disk)
      requires forall id :: id in files ==> id.table > 0
      ensures Valid() && view == files && disk == files && order == [] && buf.Length == n && fresh(buf)
      ensures forall i :: 0 <= i < n ==> !buf[i].used
    {
      var none := Frame(0, 0, false, 0, -1, -1, false, Header(0, 0, 0));
      buf := new Frame[n](_ => none);
      disk, view, order := files, files, [];
      new;
      forall i | 0 <= i < n
        ensures Off(buf[..], i)
      {
      }
      forall id
        ensures Shown(buf[..], disk, view, id)
      {
      }
    }

    method GetPageInBuffer(id: Id) returns (i: int)
      requires Good(buf[..], disk, view, -1) && id.table > 0
      ensures i == -1 <==> !Buffered(buf[..], id)
      ensures i != -1 ==> Holds(buf[..], i, id)
    {
      i := 0;
      while i < buf.Length
        invariant 0 <= i <= buf.Length && forall j :: 0 <= j < i ==> !Holds(buf[..], j, id)
      {
        assert Blank(buf[..], i);
        if Of(buf[i]) == id {
          assert Holds(buf[..], i, id);
          return;
        }
        i := i + 1;
      }
      i := -1;
    }

    method GetEmptyBufferIndex() returns (i: int)
      ensures if NoneUnused(buf[..]) then i == -1 else FirstUnused(buf[..], i)
    {
      i := 0;
      while i < buf.Length
        invariant 0 <= i <= buf.Length && forall j :: 0 <= j < i ==> buf[j].used
      {
        if !buf[i].used {
          return;
        }
        i := i + 1;
      }
      i := -1;
    }

    // -1 where the source goes round and round the last buffer: exactly if all in the list are pinned.
    method GetLruIndex() returns (i: int)
      requires Linked(buf[..], order, -1) && order != []
      ensures i == -1 <==> !AnyLoose(buf[..], order)
      ensures i != -1 ==> LeastRecent(buf[..], order, i)
    {
      i := FirstIndex();
      ghost var m := 0;
      while buf[i].pinned != 0
        invariant 0 <= m < |order| && i == order[m] && i < buf.Length
        invariant forall j :: 0 <= j < m ==> !Loose(buf[..], order[j])
        decreases |order| - m
      {
        assert Link(buf[..], order, m) && (m + 1 < |order| ==> Link(buf[..], order, m + 1));
        Ends(buf[..], order, i);
        if buf[i].next == i {
          Once(order, m, |order| - 1);
          return -1;
        }
        i := buf[i].next;
        m := m + 1;
      }
    }

    method FirstIndex() returns (i: int)
      requires Linked(buf[..], order, -1) && order != []
      ensures i == order[0] < buf.Length
    {
      assert Link(buf[..], order, 0);
      Ends(buf[..], order, order[0]);
      i := 0;
      while buf[i].prev != i
        invariant 0 <= i <= order[0] < buf.Length
        decreases buf.Length - i
      {
        Ends(buf[..], order, i);
        i := i + 1;
      }
      Ends(buf[..], order, i);
    }

    // ---------- the list ----------

    method ArrangeLruList(t: nat, ghost k: nat)
      requires Linked(buf[..], order, -1) && t < buf.Length && At(order, k, t)
      modifies this`order, buf
      ensures order == Touched(old(order), k, t) && Linked(buf[..], order, -1) && SameFrames(old(buf[..]), buf[..])
    {
      var firstIndex, lastIndex := FindEnds();
      Ends(buf[..], order, t);
      if firstIndex == -1 && lastIndex == -1 {
        FirstKeeps(buf[..], t);
        buf[t] := buf[t].(next := t);
        buf[t] := buf[t].(prev := t);
        order := [t];
        return;
      }
      if buf[t].next == -1 && buf[t].prev == -1 {
        AppendToList(t, lastIndex);
        return;
      }
      assert order[k] == t;
      if lastIndex == t {
        Once(order, k, |order| - 1);
        return;
      }
      Unlink(t, firstIndex, k);
      ghost var mid := buf[..];
      AppendToList(t, lastIndex);
      SameChain(old(buf[..]), mid, buf[..]);
    }

    method FindEnds() returns (firstIndex: int, lastIndex: int)
      requires Linked(buf[..], order, -1)
      ensures order == [] ==> firstIndex == -1 && lastIndex == -1
      ensures order != [] ==> firstIndex == order[0] && lastIndex == order[|order| - 1]
    {
      firstIndex, lastIndex := -1, -1;
      if order != [] {
        assert Link(buf[..], order, 0) && Link(buf[..], order, |order| - 1);
      }
      var i := 0;
      while i < buf.Length
        invariant 0 <= i <= buf.Length
        invariant firstIndex == (if order != [] && order[0] < i then order[0] else -1)
        invariant lastIndex == (if order != [] && order[|order| - 1] < i then order[|order| - 1] else -1)
      {
        Ends(buf[..], order, i);
        if buf[i].next == i {
          lastIndex := i;
        }
        if buf[i].prev == i {
          firstIndex := i;
        }
        i := i + 1;
      }
    }

    method AppendToList(t: nat, lastIndex: int)
      requires Linked(buf[..], order, t) && order != [] && t < buf.Length && t !in order && lastIndex == order[|order| - 1]
      modifies this`order, buf
      ensures order == old(order) + [t] && Linked(buf[..], order, -1) && SameFrames(old(buf[..]), buf[..])
    {
      AppendKeeps(buf[..], order, t);
      buf[lastIndex] := buf[lastIndex].(next := t);
      buf[t] := buf[t].(next := t);
      buf[t] := buf[t].(prev := lastIndex);
      order := order + [t];
    }

    method Unlink(t: nat, firstIndex: int, ghost k: nat)
      requires Linked(buf[..], order, -1) && k < |order| - 1 && order[k] == t && firstIndex == order[0]
      modifies this`order, buf
      ensures order == Without(old(order), k) && Linked(buf[..], order, t) && t < buf.Length && t !in order && SameFrames(old(buf[..]), buf[..])
    {
      assert Link(buf[..], order, k);
      WithoutDistinct(order, k);
      var nextIndex := buf[t].next;
      if firstIndex == t {
        Once(order, 0, k);
        UnlinkFirst(buf[..], order);
        buf[nextIndex] := buf[nextIndex].(prev := nextIndex);
      } else {
        UnlinkMiddle(buf[..], order, k);
        var prevIndex := buf[t].prev;
        buf[nextIndex] := buf[nextIndex].(prev := prevIndex);
        buf[prevIndex] := buf[prevIndex].(next := nextIndex);
      }
      order := Without(order, k);
    }

    // ---------- pages in and out ----------

    method BufferToDisk(i: nat)
      requires Good(buf[..], disk, view, -1) && i < buf.Length && buf[i].used
      modifies this`disk, buf
      ensures Good(buf[..], disk, view, -1) && buf[..] == old(buf[..])[i := Cleared(old(buf[i]))]
      ensures disk == old(disk)[old(Of(buf[i])) := old(buf[i].data)]
    {
      ClearKeeps(buf[..], disk, view, i);
      disk := disk[Of(buf[i]) := buf[i].data];
      buf[i] := buf[i].(table := 0, page := 0, dirty := false, pinned := 0, used := false);
    }

    // -1 where the source never returns: exactly if there is no buffer to be had.
    method GetBufferIndex(id: Id) returns (i: int)
      requires Good(buf[..], disk, view, -1) && Linked(buf[..], order, -1) && id.table > 0
      requires NoneUnused(buf[..]) ==> order != []
      modifies this`disk, buf
      ensures i == -1 <==> !old(Room(id))
      ensures i == -1 ==> buf[..] == old(buf[..]) && disk == old(disk)
      ensures i != -1 ==> 0 <= i < buf.Length && Chosen(old(buf[..]), order, id, i) && Ready(buf[..], i, id)
      ensures i != -1 ==> Good(buf[..], disk, view, i) && Linked(buf[..], order, -1)
      ensures i != -1 && old(Buffered(buf[..], id)) ==> buf[..] == old(buf[..]) && disk == old(disk) && buf[i].used
      ensures i != -1 && !old(Buffered(buf[..], id)) ==>
                buf[..] == old(buf[..])[i := Vacated(old(buf[..])[i])] && disk == WroteBack(old(disk), old(buf[..])[i])
      ensures forall x :: x in old(disk) <==> x in disk
    {
      i := GetPageInBuffer(id);
      if i == -1 {
        i := TakeBuffer(id);
      }
    }

    // An empty buffer, or the least recent one without a pin.
    method TakeBuffer(ghost id: Id) returns (i: int)
      requires Good(buf[..], disk, view, -1) && Linked(buf[..], order, -1) && !Buffered(buf[..], id)
      requires NoneUnused(buf[..]) ==> order != []
      modifies this`disk, buf
      ensures i == -1 <==> !old(Room(id))
      ensures i == -1 ==> buf[..] == old(buf[..]) && disk == old(disk)
      ensures i != -1 ==> 0 <= i < buf.Length && !buf[i].used && Chosen(old(buf[..]), order, id, i) && Ready(buf[..], i, id)
      ensures i != -1 ==> Good(buf[..], disk, view, i) && Linked(buf[..], order, -1)
      ensures i != -1 ==> buf[..] == old(buf[..])[i := Vacated(old(buf[..])[i])] && disk == WroteBack(old(disk), old(buf[..])[i])
      ensures forall x :: x in old(disk) <==> x in disk
    {
      i := GetEmptyBufferIndex();
      if i == -1 {
        i := GetLruIndex();
        if i == -1 {
          return;
        }
        Evict(i, id);
      } else {
        assert Blank(buf[..], i);
      }
    }

    method Evict(j: nat, ghost id: Id)
      requires Good(buf[..], disk, view, -1) && Linked(buf[..], order, -1)
      requires j < buf.Length && buf[j].used && buf[j].pinned == 0 && !Buffered(buf[..], id)
      modifies this`disk, buf
      ensures Ready(buf[..], j, id) && Good(buf[..], disk, view, j) && Linked(buf[..], order, -1)
      ensures buf[..] == old(buf[..])[j := Vacated(old(buf[j]))] && disk == WroteBack(old(disk), old(buf[j]))
      ensures forall x :: x in old(disk) <==> x in disk
    {
      ghost var b := buf[..];
      assert FrameOk(b, disk, view, j);
      if buf[j].dirty {
        BufferToDisk(j);
      } else {
        DropKeeps(buf[..], disk, view, j);
      }
      buf[j] := buf[j].(used := false);
      assert buf[..] == b[j := Vacated(b[j])];
      ListStays(b, buf[..], order);
      forall i
        ensures !Holds(buf[..], i, id)
      {
        assert !Holds(b, i, id);
      }
    }

    lemma ListNotEmpty()
      requires Valid() && buf.Length > 0
      ensures NoneUnused(buf[..]) ==> order != []
    {
      assert buf[0].used ==> 0 in order;
    }

    method DiskToBuffer(i: nat, id: Id)
      requires Good(buf[..], disk, view, i) && Ready(buf[..], i, id) && id in disk && id.table > 0 && (id in view ==> !buf[i].used)
      modifies buf
      ensures id in view ==> view[id] == disk[id]
      ensures buf[..] == old(buf[..])[i := Loaded(old(buf[i]), id, disk[id])] && Good(buf[..], disk, view, -1)
    {
      if id in view {
        LoadKeeps(buf[..], disk, view, i, id);
      } else {
        TakeKeeps(buf[..], disk, disk, view, i, id, Loaded(buf[i], id, disk[id]));
      }
      var data := disk[id];
      buf[i] := buf[i].(data := data);
      buf[i] := buf[i].(table := id.table, page := id.page, dirty := false, pinned := 0, used := true);
    }

    method UserToBuffer(i: nat, id: Id, src: Content)
      requires Good(buf[..], disk, view, i) && Ready(buf[..], i, id) && id in disk && id.table > 0
      modifies this`view, buf
      ensures view == old(view)[id := src]
      ensures buf[..] == old(buf[..])[i := Written(old(buf[i]), id, src)] && Good(buf[..], disk, view, -1)
    {
      assert FrameOk(buf[..], disk, view, i);
      StoredKeeps(buf[..], disk, view, i, id, Written(buf[i], id, src));
      buf[i] := buf[i].(data := src);
      buf[i] := buf[i].(table := id.table, page := id.page, dirty := true, used := true);
      view := view[id := src];
    }

    // The page is in buffer i; now it is the most recent one.
    method Finish(ghost b: seq<Frame>, i: nat, ghost id: Id)
      requires |b| == buf.Length && i < |b| && Linked(b, order, -1) && Good(buf[..], disk, view, -1) && Holds(buf[..], i, id)
      requires forall j :: 0 <= j < |b| && j != i ==> b[j] == buf[j] && (b[j].used ==> j in order)
      requires b[i].next == buf[i].next && b[i].prev == buf[i].prev
      modifies this`order, buf
      ensures Valid() && Recent(old(order), order, i) && Holds(buf[..], i, id) && OthersSame(b, buf[..], i)
      ensures SameFrame(old(buf[i]), buf[i])
    {
      ListStays(b, buf[..], order);
      ghost var c := buf[..];
      ghost var k := Place(order, i);
      ArrangeLruList(i, k);
      SameKeeps(c, buf[..], disk, view, -1);
      assert SameAt(c, buf[..], i);
      forall j | 0 <= j < |b| && j != i
        ensures SameAt(b, buf[..], j) && (buf[j].used ==> j in order)
      {
        assert SameAt(c, buf[..], j);
        StillThere(old(order), k, i, j);
      }
      StillThere(old(order), k, i, i);
    }

    // ---------- what callers use ----------

    method BufferReadPage(id: Id) returns (i: int, dest: Content)
      requires Valid() && buf.Length > 0 && id in view
      modifies this`disk, this`order, buf
      ensures Valid() && (i == -1 <==> !old(Room(id)))
      ensures i == -1 ==> buf[..] == old(buf[..]) && disk == old(disk)
      ensures i != -1 ==> dest == view[id] && Holds(buf[..], i, id) && Chosen(old(buf[..]), old(order), id, i)
      ensures i != -1 ==> buf[i].pinned == (if old(Buffered(buf[..], id)) then old(buf[i].pinned) + 1 else 1)
      ensures i != -1 ==> disk == if old(Buffered(buf[..], id)) then old(disk) else WroteBack(old(disk), old(buf[..])[i])
      ensures i != -1 ==> OthersSame(old(buf[..]), buf[..], i) && Recent(old(order), order, i)
      ensures forall x :: x in old(disk) ==> x in disk
    {
      assert Shown(buf[..], disk, view, id);
      ghost var b := buf[..];
      ListNotEmpty();
      i := GetBufferIndex(id);
      dest := Header(0, 0, 0);
      if i == -1 {
        return;
      }
      if !buf[i].used {
        DiskToBuffer(i, id);
      }
      assert FrameOk(buf[..], disk, view, i);
      dest := buf[i].data;
      ghost var c := buf[..];
      buf[i] := buf[i].(pinned := buf[i].pinned + 1);
      PinKeeps(c, buf[..], disk, view, i);
      Finish(b, i, id);
    }

    method BufferWritePage(id: Id, src: Content) returns (i: int)
      requires Valid() && buf.Length > 0 && id in disk && id.table > 0
      modifies this`disk, this`view, this`order, buf
      ensures Valid() && (i == -1 <==> !old(Room(id)))
      ensures i == -1 ==> buf[..] == old(buf[..]) && disk == old(disk) && view == old(view)
      ensures i != -1 ==> view == old(view)[id := src] && Holds(buf[..], i, id) && Chosen(old(buf[..]), old(order), id, i)
      ensures i != -1 ==> buf[i].dirty && buf[i].pinned == (if old(Buffered(buf[..], id)) then old(buf[i].pinned) else 0)
      ensures i != -1 ==> disk == if old(Buffered(buf[..], id)) then old(disk) else WroteBack(old(disk), old(buf[..])[i])
      ensures i != -1 ==> OthersSame(old(buf[..]), buf[..], i) && Recent(old(order), order, i)
      ensures forall x :: x in old(disk) ==> x in disk
    {
      ghost var b := buf[..];
      ListNotEmpty();
      i := GetBufferIndex(id);
      if i == -1 {
        return;
      }
      UserToBuffer(i, id, src);
      Finish(b, i, id);
    }

    method Unpin(i: nat)
      requires Valid() && i < buf.Length && buf[i].pinned > 0
      modifies buf
      ensures Valid() && buf[..] == old(buf[..])[i := old(buf[i]).(pinned := old(buf[i].pinned) - 1)]
    {
      ghost var b := buf[..];
      buf[i] := buf[i].(pinned := buf[i].pinned - 1);
      assert Blank(b, i);
      PinKeeps(b, buf[..], disk, view, i);
      ListStays(b, buf[..], order);
    }

    // A new file: its header page is on the disk and in a buffer.
    method StartTable(table: nat, src: Content) returns (i: int)
      requires Valid() && buf.Length > 0 && table > 0 && Id(table, 0) !in disk
      modifies this`disk, this`view, this`order, buf
      ensures Valid() && (i == -1 <==> !old(Room(Id(table, 0))))
      ensures i == -1 ==> buf[..] == old(buf[..]) && disk == old(disk) && view == old(view)
      ensures i != -1 ==> view == old(view)[Id(table, 0) := src] && Holds(buf[..], i, Id(table, 0)) && !buf[i].dirty
      ensures i != -1 ==> Chosen(old(buf[..]), old(order), Id(table, 0), i)
      ensures i != -1 ==> disk == WroteBack(old(disk), old(buf[..])[i])[Id(table, 0) := src]
      ensures i != -1 ==> OthersSame(old(buf[..]), buf[..], i) && Recent(old(order), order, i)
    {
      ghost var id := Id(table, 0);
      ghost var b := buf[..];
      NotBuffered(b, disk, view, id);
      ListNotEmpty();
      i := TakeBuffer(id);
      if i == -1 {
        return;
      }
      PutHeader(i, table, src);
      Finish(b, i, id);
    }

    method PutHeader(i: nat, table: nat, src: Content)
      requires Good(buf[..], disk, view, i) && Ready(buf[..], i, Id(table, 0)) && !buf[i].used && table > 0 && Id(table, 0) !in disk
      modifies this`disk, this`view, buf
      ensures view == old(view)[Id(table, 0) := src] && disk == old(disk)[Id(table, 0) := src] && Good(buf[..], disk, view, -1)
      ensures buf[..] == old(buf[..])[i := Loaded(old(buf[i]), Id(table, 0), src)]
    {
      ghost var id, b := Id(table, 0), buf[..];
      NewPageKeeps(b, disk, view, i, id, src);
      StoredKeeps(b, disk[id := src], view, i, id, Loaded(b[i], id, src));
      buf[i] := buf[i].(data := src, table := table, page := 0, dirty := true, used := true);
      disk := disk[Id(table, 0) := buf[i].data];
      buf[i] := buf[i].(dirty := false, pinned := 0);
      view := view[id := src];
      assert buf[..] == b[i := Loaded(b[i], id, src)];
    }

    // All pages of a table go to the disk, and out of the pool.
    method BufferWriteToDiskTable(table: nat)
      requires Valid() && table > 0
      modifies this`disk, this`order, buf
      ensures Valid()
      ensures forall id :: id in view && id.table == table ==> !Buffered(buf[..], id) && id in disk && disk[id] == view[id]
    {
      var i := 0;
      while i < buf.Length
        invariant 0 <= i <= buf.Length && Valid()
        invariant forall j :: 0 <= j < i ==> buf[j].table != table
      {
        if buf[i].table == table {
          FlushBuffer(i);
        }
        i := i + 1;
      }
      forall id | id in view && id.table == table
        ensures !Buffered(buf[..], id) && id in disk && disk[id] == view[id]
      {
        assert Shown(buf[..], disk, view, id);
      }
    }

    method FlushBuffer(i: nat)
      requires Valid() && i < buf.Length && buf[i].table > 0
      modifies this`disk, this`order, buf
      ensures Valid() && buf[i].table == 0 && forall j :: 0 <= j < buf.Length && j != i ==> buf[j].table == old(buf[j].table)
    {
      ghost var b := buf[..];
      assert Blank(b, i) && FrameOk(b, disk, view, i);
      if buf[i].dirty {
        BufferToDisk(i);
      } else {
        ClearKeeps(b, disk, view, i);
        buf[i] := buf[i].(table := 0, page := 0, pinned := 0, used := false);
        assert buf[..] == b[i := Cleared(b[i])];
      }
      ListStays(b, buf[..], order);
      ghost var c := buf[..];
      ghost var k := Place(order, i);
      ArrangeLruList(i, k);
      SameKeeps(c, buf[..], disk, view, -1);
      forall j | 0 <= j < buf.Length
        ensures buf[j].table == c[j].table && (buf[j].used ==> j in order)
      {
        assert SameAt(c, buf[..], j);
        StillThere(old(order), k, i, j);
      }
    }
  }
}
