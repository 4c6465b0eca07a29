/** Pages taken from a table's free list and given back, over the buffer pool: the header is in a
    buffer and on the disk, and both are changed, the one here and the other by the file's own
    routines.  A buffer is a union: the first word of a header is its free page, that of any other
    page its next one. */
module PagedTables {
  import BptPage
  import DiskSpace
  import opened LruList
  import opened BufferPool
  import opened Sequences

  type Content = DiskSpace.Content

  function Head(t: nat): Id {
    Id(t, 0)
  }

  // ---------- the file of a table ----------

  function PagesOf(disk: Disk, t: nat): (m: map<nat, Content>)
    ensures forall x :: x in m <==> x > 0 && Id(t, x) in disk
    ensures forall x :: x in m ==> m[x] == disk[Id(t, x)]
  {
    map id | id in disk && id.table == t && id.page > 0 :: id.page := disk[id]
  }

  // The disk, with these pages and this header in the file.
  function WithFile(disk: Disk, t: nat, free: nat, count: nat, pages: map<nat, Content>): Disk
    requires Head(t) in disk && disk[Head(t)].Header? && 0 !in pages
  {
    (disk + (map x | x in pages :: Id(t, x) := pages[x]))[Head(t) := disk[Head(t)].(free := free, count := count)]
  }

  lemma WithFileAt(disk: Disk, t: nat, free: nat, count: nat, pages: map<nat, Content>, id: Id)
    requires Head(t) in disk && disk[Head(t)].Header? && 0 !in pages
    ensures var d := WithFile(disk, t, free, count, pages);
            && (id in d <==> id in disk || (id.table == t && id.page in pages))
            && (id in d ==>
                  d[id] == if id.table == t && id.page in pages then pages[id.page]
                           else if id == Head(t) then disk[id].(free := free, count := count) else disk[id])
  {
    var added := map x | x in pages :: Id(t, x) := pages[x];
    assert id in added <==> id.table == t && id.page in pages by {
      assert id == Id(id.table, id.page);
    }
  }

  ghost predicate FileOk(disk: Disk, t: nat, list: seq<nat>) {
    && t > 0 && Head(t) in disk && disk[Head(t)].Header? && disk[Head(t)].count > 0
    && DiskSpace.Chain(PagesOf(disk, t), disk[Head(t)].free, list) && Distinct(list)
    && (forall x: nat :: Id(t, x) in disk <==> x < disk[Head(t)].count)
    && (forall x: nat :: 0 < x && Id(t, x) in disk ==> disk[Id(t, x)].Node?)
  }

  // What a buffer of the table says of the free list is what the disk says.
  predicate StepOk(f: Frame, disk: Disk, t: nat, list: seq<nat>)
    requires Head(t) in disk && disk[Head(t)].Header?
  {
    f.used && f.table == t ==>
      && (f.page == 0 ==> f.data.Header? && f.data.free == disk[Head(t)].free && f.data.count == disk[Head(t)].count)
      && (f.page > 0 ==> f.data.Node?)
      && (f.page in list && f.dirty ==> Of(f) in disk && disk[Of(f)].Node? && f.data.next == disk[Of(f)].next)
  }

  // list is the free list of the table: it is so on the disk, and no buffer says otherwise.
  ghost predicate InStep(b: seq<Frame>, disk: Disk, view: Disk, t: nat, list: seq<nat>) {
    && FileOk(disk, t, list) && Head(t) in view
    && (forall i :: 0 <= i < |b| ==> StepOk(b[i], disk, t, list))
    && (forall x :: x in list ==> Id(t, x) !in view)
  }

  lemma ListInFile(disk: Disk, t: nat, list: seq<nat>, x: nat)
    requires FileOk(disk, t, list) && x in list
    ensures x > 0 && Id(t, x) in disk
  {
    ChainInFile(PagesOf(disk, t), disk[Head(t)].free, list, x);
  }

  lemma {:induction false} ChainInFile(pages: map<nat, Content>, p: nat, list: seq<nat>, x: nat)
    requires DiskSpace.Chain(pages, p, list) && x in list
    ensures x in pages && pages[x].Node?
    decreases list
  {
    if x != list[0] {
      ChainInFile(pages, pages[p].next, list[1..], x);
    }
  }

  // ---------- what eviction and loading keep ----------

  lemma WroteBackFile(f: Frame, disk: Disk, t: nat, list: seq<nat>)
    requires FileOk(disk, t, list) && StepOk(f, disk, t, list) && (f.used ==> Of(f) in disk)
    ensures FileOk(WroteBack(disk, f), t, list)
    ensures WroteBack(disk, f)[Head(t)].free == disk[Head(t)].free && WroteBack(disk, f)[Head(t)].count == disk[Head(t)].count
    ensures forall x :: x in list ==> x > 0 && Id(t, x) in disk && disk[Id(t, x)].Node? && WroteBack(disk, f)[Id(t, x)].next == disk[Id(t, x)].next
  {
    var d := WroteBack(disk, f);
    forall x | x in list
      ensures x > 0 && Id(t, x) in disk && disk[Id(t, x)].Node? && d[Id(t, x)].Node? && d[Id(t, x)].next == disk[Id(t, x)].next
    {
      ListInFile(disk, t, list, x);
    }
    DiskSpace.ChainKept(PagesOf(disk, t), PagesOf(d, t), disk[Head(t)].free, list);
  }

  lemma VacatedInStep(b: seq<Frame>, disk: Disk, view: Disk, t: nat, list: seq<nat>, i: nat)
    requires InStep(b, disk, view, t, list) && i < |b| && (b[i].used ==> Of(b[i]) in disk)
    ensures InStep(b[i := Vacated(b[i])], WroteBack(disk, b[i]), view, t, list)
  {
    WroteBackFile(b[i], disk, t, list);
    var c, d := b[i := Vacated(b[i])], WroteBack(disk, b[i]);
    forall j | 0 <= j < |c|
      ensures StepOk(c[j], d, t, list)
    {
      assert StepOk(b[j], disk, t, list);
    }
  }

  lemma SameInStep(b: seq<Frame>, c: seq<Frame>, disk: Disk, view: Disk, t: nat, list: seq<nat>)
    requires InStep(b, disk, view, t, list) && SameFrames(b, c)
    ensures InStep(c, disk, view, t, list)
  {
    forall i | 0 <= i < |c|
      ensures StepOk(c[i], disk, t, list)
    {
      assert SameAt(b, c, i) && StepOk(b[i], disk, t, list);
    }
  }

  // A page that the view forgets may say anything.
  lemma HideKeeps(b: seq<Frame>, c: seq<Frame>, disk: Disk, view: Disk, i: nat, id: Id)
    requires Good(b, disk, view, -1) && Holds(b, i, id) && |c| == |b| && c == b[i := b[i].(data := c[i].data)]
    ensures Good(c, disk, view - {id}, -1)
  {
    var less := view - {id};
    forall j | 0 <= j < |c|
      ensures FrameOk(c, disk, less, j) && Blank(c, j)
    {
      assert FrameOk(b, disk, view, j) && Blank(b, j);
      if j != i && b[j].used {
        assert if i < j then Different(b, i, j) else Different(b, j, i);
      }
    }
    forall j, k | 0 <= j < k < |c|
      ensures Different(c, j, k)
    {
      assert Different(b, j, k);
    }
    forall x
      ensures Shown(c, disk, less, x)
    {
      assert Shown(b, disk, view, x);
      if j :| Holds(b, j, x) {
        assert Holds(c, j, x);
      }
    }
  }

  // What a page holds: its buffer's data, or the disk's.
  ghost predicate Says(b: seq<Frame>, disk: Disk, id: Id, data: Content) {
    && id in disk
    && (forall i :: 0 <= i < |b| && Holds(b, i, id) ==> b[i].data == data && (!b[i].dirty ==> disk[id] == data))
    && (Buffered(b, id) || disk[id] == data)
  }

  lemma RevealKeeps(b: seq<Frame>, disk: Disk, view: Disk, id: Id, data: Content)
    requires Good(b, disk, view, -1) && Says(b, disk, id, data) && id.table > 0
    ensures Good(b, disk, view[id := data], -1)
  {
    var now := view[id := data];
    forall j | 0 <= j < |b|
      ensures FrameOk(b, disk, now, j)
    {
      assert FrameOk(b, disk, view, j);
      assert b[j].used && Of(b[j]) == id ==> Holds(b, j, id);
    }
    forall x
      ensures Shown(b, disk, now, x)
    {
      assert Shown(b, disk, view, x);
    }
  }

  // A page that the view has forgotten is said to hold what it holds.
  lemma SaysKeeps(b: seq<Frame>, disk: Disk, view: Disk, id: Id, data: Content)
    requires Good(b, disk, view - {id}, -1) && Says(b, disk, id, data) && id.table > 0
    ensures Good(b, disk, view[id := data], -1)
  {
    RevealKeeps(b, disk, view - {id}, id, data);
    assert (view - {id})[id := data] == view[id := data];
  }

  // ---------- the routines ----------

  // The first word of a page, whatever kind of page it is.
  function Word(c: Content): nat {
    if c.Header? then c.free else c.next
  }

  function WithWord(c: Content, w: nat): Content {
    if c.Header? then c.(free := w) else c.(next := w)
  }

  // Bytes left in a buffer, as a page: what they say does not matter.
  function AsNode(c: Content): Content {
    if c.Header? then DiskSpace.Node(c.free, BptPage.BLANK) else c
  }

  ghost predicate ListedBut(b: seq<Frame>, order: seq<nat>, h: int, j: int) {
    forall i :: 0 <= i < |b| && b[i].used && i != h && i != j ==> i in order
  }

  // With the header in buffer h, which is not yet in its place in the list.
  ghost predicate Working(pool: Pool, h: int, t: nat, list: seq<nat>)
    reads pool, pool.buf
  {
    && Good(pool.buf[..], pool.disk, pool.view, -1) && Linked(pool.buf[..], pool.order, -1) && pool.order != []
    && Holds(pool.buf[..], h, Head(t)) && InStep(pool.buf[..], pool.disk, pool.view, t, list)
    && ListedBut(pool.buf[..], pool.order, h, h)
  }

  method HeaderBuffer(pool: Pool, t: nat, ghost list: seq<nat>) returns (h: int)
    requires pool.Valid() && pool.order != [] && InStep(pool.buf[..], pool.disk, pool.view, t, list)
    modifies pool`disk, pool.buf
    ensures h == -1 ==> !old(AnyLoose(pool.buf[..], pool.order))
    ensures h != -1 ==> Working(pool, h, t, list)
    ensures h != -1 && old(Buffered(pool.buf[..], Head(t))) ==> pool.buf[..] == old(pool.buf[..]) && pool.disk == old(pool.disk)
    ensures h != -1 && !old(Buffered(pool.buf[..], Head(t))) ==> !pool.buf[h].dirty
    ensures h != -1 && old(AnyLoose(pool.buf[..], pool.order)) ==> AnyLoose(pool.buf[..], pool.order)
    ensures forall id :: id in old(pool.disk) ==> id in pool.disk
  {
    ghost var b, d := pool.buf[..], pool.disk;
    assert Shown(b, d, pool.view, Head(t));
    h := pool.GetBufferIndex(Head(t));
    if h == -1 {
      return;
    }
    if !pool.buf[h].used {
      assert FrameOk(b, d, pool.view, h);
      VacatedInStep(b, d, pool.view, t, list, h);
      ghost var c := pool.buf[..];
      pool.DiskToBuffer(h, Head(t));
      LoadedInStep(c, pool.disk, pool.view, t, list, h, Head(t));
      ListStays(b, pool.buf[..], pool.order);
      StillLoose(b, pool.buf[..], pool.order, h);
    }
  }

  lemma LoadedInStep(b: seq<Frame>, disk: Disk, view: Disk, t: nat, list: seq<nat>, i: nat, id: Id)
    requires InStep(b, disk, view, t, list) && i < |b| && id.table == t && id in disk
    ensures InStep(b[i := Loaded(b[i], id, disk[id])], disk, view, t, list)
  {
    var c := b[i := Loaded(b[i], id, disk[id])];
    forall j | 0 <= j < |c|
      ensures StepOk(c[j], disk, t, list)
    {
      assert StepOk(b[j], disk, t, list);
    }
  }

  // Who has no pin gets none.
  ghost predicate PinsFall(b: seq<Frame>, c: seq<Frame>) {
    |b| == |c| && forall i {:trigger c[i]} :: 0 <= i < |b| && b[i].pinned == 0 ==> c[i].pinned == 0
  }

  lemma LooseStays(b: seq<Frame>, c: seq<Frame>, order: seq<nat>, now: seq<nat>)
    requires PinsFall(b, c) && forall x :: x in order ==> x in now
    ensures AnyLoose(b, order) ==> AnyLoose(c, now)
  {
    if k :| 0 <= k < |order| && Loose(b, order[k]) {
      assert order[k] in order && order[k] in now;
      var l :| 0 <= l < |now| && now[l] == order[k];
      assert Loose(c, now[l]);
    }
  }

  lemma SamePins(b: seq<Frame>, c: seq<Frame>)
    requires SameFrames(b, c)
    ensures PinsFall(b, c)
  {
    forall i | 0 <= i < |b| && b[i].pinned == 0
      ensures c[i].pinned == 0
    {
      assert SameAt(b, c, i);
    }
  }

  lemma StillLoose(b: seq<Frame>, c: seq<Frame>, order: seq<nat>, h: nat)
    requires |b| == |c| && h < |b| && c[h].pinned == 0 && forall i :: 0 <= i < |b| && i != h ==> c[i] == b[i]
    ensures AnyLoose(b, order) ==> AnyLoose(c, order)
  {
    if k :| 0 <= k < |order| && Loose(b, order[k]) {
      assert Loose(c, order[k]);
    }
  }

  lemma WithFileOk(disk: Disk, t: nat, free: nat, count: nat, pages: map<nat, Content>, list: seq<nat>)
    requires t > 0 && Head(t) in disk && disk[Head(t)].Header? && count > 0
    requires DiskSpace.Chain(pages, free, list) && Distinct(list)
    requires forall x :: x in pages <==> 0 < x < count
    requires forall x :: x in pages ==> pages[x].Node?
    requires forall x: nat :: Id(t, x) in disk ==> x < count
    ensures FileOk(WithFile(disk, t, free, count, pages), t, list)
  {
    var d := WithFile(disk, t, free, count, pages);
    forall x: nat
      ensures Id(t, x) in d <==> x < count
      ensures 0 < x && Id(t, x) in d ==> d[Id(t, x)] == pages[x]
    {
      WithFileAt(disk, t, free, count, pages, Id(t, x));
    }
    WithFileAt(disk, t, free, count, pages, Head(t));
    DiskSpace.ChainKept(pages, PagesOf(d, t), free, list);
  }

  // What the header says is where the list begins.
  function First(list: seq<nat>): nat {
    if list == [] then 0 else list[0]
  }

  lemma HeadIsFirst(disk: Disk, t: nat, list: seq<nat>)
    requires FileOk(disk, t, list)
    ensures disk[Head(t)].free == First(list)
    ensures list != [] ==> Id(t, list[0]) in disk && disk[Id(t, list[0])].Node? && disk[Id(t, list[0])].next == First(list[1..])
  {
    if list != [] {
      ListInFile(disk, t, list, list[0]);
      assert DiskSpace.Chain(PagesOf(disk, t), PagesOf(disk, t)[list[0]].next, list[1..]);
    }
  }

  // What the header is once p has been taken.
  function HeaderAfter(header: Content, list: seq<nat>): Content
    requires header.Header?
  {
    if list == [] then header.(free := header.count + 1, count := header.count + 100) else header.(free := First(list[1..]))
  }

  // From the file as it was to the file with a page taken.
  ghost predicate FileTook(d: Disk, e: Disk, t: nat, list: seq<nat>) {
    && FileOk(d, t, list) && FileOk(e, t, DiskSpace.ListAfter(list, d[Head(t)].count))
    && e[Head(t)] == HeaderAfter(d[Head(t)], list)
    && forall id :: id in d ==> id in e && (id != Head(t) ==> e[id] == d[id])
  }

  // file_alloc_page on the file of the table.
  method FileAlloc(pool: Pool, t: nat, ghost list: seq<nat>) returns (p: nat)
    requires FileOk(pool.disk, t, list)
    modifies pool`disk
    ensures FileTook(old(pool.disk), pool.disk, t, list)
    ensures p == if list == [] then old(pool.disk)[Head(t)].count else list[0]
  {
    var header := pool.disk[Head(t)];
    ghost var pages := PagesOf(pool.disk, t);
    var file := new DiskSpace.File.Existing(header.free, header.count, PagesOf(pool.disk, t), list);
    p := file.FileAllocPage();
    WithFileOk(pool.disk, t, file.freePage, file.count, file.pages, file.free);
    WithFileAt(pool.disk, t, file.freePage, file.count, file.pages, Head(t));
    ghost var d := WithFile(pool.disk, t, file.freePage, file.count, file.pages);
    forall id | id in pool.disk
      ensures id in d && (id != Head(t) ==> d[id] == pool.disk[id])
    {
      WithFileAt(pool.disk, t, file.freePage, file.count, file.pages, id);
    }
    pool.disk := WithFile(pool.disk, t, file.freePage, file.count, file.pages);
    HeadIsFirst(pool.disk, t, DiskSpace.ListAfter(list, header.count));
  }

  // ---------- a new page ----------

  datatype AllocResult =
    | Page(p: nat)
    // The search for a buffer goes round for ever.
    | NeverEnds
    // The file's own routine is led to a page that the file has not got.
    | PastTheEnd

  // The header has been changed in its buffer and the buffer then given up, and written.
  ghost predicate HeaderLost(b: seq<Frame>, order: seq<nat>, view: Disk, t: nat) {
    && Head(t) in view && Word(view[Head(t)]) == 0 && NoneUnused(b)
    && exists h :: Holds(b, h, Head(t)) && b[h].dirty && LeastRecent(b, order, h)
  }

  // Where the rest of the work ends: page p is in buffer j, and all is in step again.
  ghost predicate Taken(b: seq<Frame>, disk: Disk, view: Disk, t: nat, list: seq<nat>, p: nat) {
    Good(b, disk, view, -1) && InStep(b, disk, view, t, list) && p > 0 && p !in list && Id(t, p) in disk && Id(t, p) !in view
  }

  lemma NotYet(b: seq<Frame>, disk: Disk, view: Disk, t: nat, list: seq<nat>, n: nat)
    requires Good(b, disk, view, -1) && FileOk(disk, t, list) && n >= disk[Head(t)].count
    ensures !Buffered(b, Id(t, n)) && Id(t, n) !in view
  {
    forall i | 0 <= i < |b|
      ensures !Holds(b, i, Id(t, n))
    {
      assert FrameOk(b, disk, view, i);
    }
    assert Shown(b, disk, view, Id(t, n));
  }

  // Page p has been taken: all is in step with the list that is left, and of all pages only the
  // header says something else than before.
  ghost predicate Advanced(v: Disk, b: seq<Frame>, disk: Disk, view: Disk, t: nat, list: seq<nat>, p: nat) {
    && Head(t) in v && v[Head(t)].Header? && view == v[Head(t) := HeaderAfter(v[Head(t)], list)]
    && p == (if list == [] then v[Head(t)].count else list[0])
    && Taken(b, disk, view, t, DiskSpace.ListAfter(list, v[Head(t)].count), p)
  }

  // Only buffer h has the header.
  lemma OneHeader(b: seq<Frame>, disk: Disk, view: Disk, t: nat, h: int, i: int)
    requires Good(b, disk, view, -1) && Holds(b, h, Head(t)) && Holds(b, i, Head(t))
    ensures i == h
  {
    assert i < h ==> Different(b, i, h);
    assert h < i ==> Different(b, h, i);
  }

  // Buffers b; c with the header changed in buffer h; buffer j of these given up, and then f.
  ghost predicate NewTaken(b: seq<Frame>, d: Disk, v: Disk, t: nat, h: int, c: seq<Frame>, j: int, f: Frame, e: Disk) {
    && Good(b, d, v, -1) && InStep(b, d, v, t, []) && Holds(b, h, Head(t)) && b[h].data.Header? && 0 <= j < |b| == |c|
    && c == b[h := b[h].(data := HeaderAfter(b[h].data, []))] && !(j == h && b[h].dirty)
    && Good(c[j := Vacated(c[j])], WroteBack(d, c[j]), v - {Head(t)}, j)
    && (var id := Id(t, b[h].data.count); Ready(c[j := Vacated(c[j])], j, id) && Of(f) == id)
    && f.used && !f.dirty && f.pinned == 0 && f.data.Node? && FileTook(WroteBack(d, c[j]), e, t, [])
  }

  // Nobody but h, if that is not j, has the header then.
  lemma NoOtherHeader(b: seq<Frame>, d: Disk, v: Disk, t: nat, h: int, c: seq<Frame>, j: int, f: Frame, e: Disk, i: int)
    requires NewTaken(b, d, v, t, h, c, j, f, e) && Holds(c[j := f], i, Head(t))
    ensures i == h && j != h
  {
    assert StepOk(b[h], d, t, []);
    assert i != j && Holds(b, i, Head(t));
    OneHeader(b, d, v, t, h, i);
  }

  lemma HeaderOnDisk(b: seq<Frame>, d: Disk, v: Disk, t: nat, h: int, c: seq<Frame>, j: int, f: Frame, e: Disk)
    requires NewTaken(b, d, v, t, h, c, j, f, e)
    ensures Head(t) in v && v[Head(t)] == b[h].data && Head(t) in d && Head(t) in e
    ensures !b[h].dirty ==> d[Head(t)] == b[h].data && e[Head(t)] == HeaderAfter(b[h].data, [])
  {
    assert FrameOk(b, d, v, h) && StepOk(b[h], d, t, []);
    if j != h && b[j].used && Of(b[j]) == Head(t) {
      assert Holds(b, j, Head(t));
      OneHeader(b, d, v, t, h, j);
    }
  }

  lemma NewSays(b: seq<Frame>, d: Disk, v: Disk, t: nat, h: int, c: seq<Frame>, j: int, f: Frame, e: Disk)
    requires NewTaken(b, d, v, t, h, c, j, f, e)
    ensures Head(t) in v && v[Head(t)].Header? && Says(c[j := f], e, Head(t), HeaderAfter(v[Head(t)], []))
  {
    HeaderOnDisk(b, d, v, t, h, c, j, f, e);
    var now := c[j := f];
    forall i | 0 <= i < |now| && Holds(now, i, Head(t))
      ensures i == h && j != h
    {
      NoOtherHeader(b, d, v, t, h, c, j, f, e, i);
    }
    if j != h {
      assert Holds(now, h, Head(t));
    }
  }

  lemma NewInStep(b: seq<Frame>, d: Disk, v: Disk, t: nat, h: int, c: seq<Frame>, j: int, f: Frame, e: Disk, i: int)
    requires NewTaken(b, d, v, t, h, c, j, f, e) && 0 <= i < |c|
    ensures StepOk(c[j := f][i], e, t, DiskSpace.ListAfter([], b[h].data.count))
  {
    assert FrameOk(b, d, v, h) && StepOk(b[h], d, t, []);
    assert FrameOk(b, d, v, i) && StepOk(b[i], d, t, []);
    if i != j && b[i].used && Of(b[i]) == Head(t) {
      assert Holds(b, i, Head(t));
      OneHeader(b, d, v, t, h, i);
    }
  }

  lemma NewGoodLess(b: seq<Frame>, d: Disk, v: Disk, t: nat, h: int, c: seq<Frame>, j: int, f: Frame, e: Disk)
    requires NewTaken(b, d, v, t, h, c, j, f, e)
    ensures Good(c[j := f], e, v - {Head(t)}, -1)
  {
    var n := b[h].data.count;
    assert StepOk(b[h], d, t, []);
    NotYet(b, d, v, t, [], n);
    TakeKeeps(c[j := Vacated(c[j])], WroteBack(d, c[j]), e, v - {Head(t)}, j, Id(t, n), f);
    assert c[j := Vacated(c[j])][j := f] == c[j := f];
  }

  lemma NewGood(b: seq<Frame>, d: Disk, v: Disk, t: nat, h: int, c: seq<Frame>, j: int, f: Frame, e: Disk)
    requires NewTaken(b, d, v, t, h, c, j, f, e)
    ensures Head(t) in v && v[Head(t)].Header? && v[Head(t)].count == b[h].data.count
    ensures Good(c[j := f], e, v[Head(t) := HeaderAfter(v[Head(t)], [])], -1)
  {
    NewGoodLess(b, d, v, t, h, c, j, f, e);
    NewSays(b, d, v, t, h, c, j, f, e);
    HeaderOnDisk(b, d, v, t, h, c, j, f, e);
    SaysKeeps(c[j := f], e, v, Head(t), HeaderAfter(v[Head(t)], []));
  }

  lemma NewKeeps(b: seq<Frame>, d: Disk, v: Disk, t: nat, h: int, c: seq<Frame>, j: int, f: Frame, e: Disk)
    requires NewTaken(b, d, v, t, h, c, j, f, e)
    ensures Head(t) in v && v[Head(t)].Header?
    ensures Advanced(v, c[j := f], e, v[Head(t) := HeaderAfter(v[Head(t)], [])], t, [], b[h].data.count)
  {
    NewGood(b, d, v, t, h, c, j, f, e);
    var n, now := b[h].data.count, c[j := f];
    forall i | 0 <= i < |now|
      ensures StepOk(now[i], e, t, DiskSpace.ListAfter([], n))
    {
      NewInStep(b, d, v, t, h, c, j, f, e, i);
    }
    assert StepOk(b[h], d, t, []);
    NewPagesBlank(b, d, v, t, n);
    NotYet(b, d, v, t, [], n);
  }

  lemma NewPagesBlank(b: seq<Frame>, d: Disk, v: Disk, t: nat, n: nat)
    requires Good(b, d, v, -1) && FileOk(d, t, []) && n == d[Head(t)].count
    ensures forall x :: x in DiskSpace.ListAfter([], n) ==> x > n && Id(t, x) !in v
  {
    forall x | x in DiskSpace.ListAfter([], n)
      ensures x > n && Id(t, x) !in v
    {
      NotYet(b, d, v, t, [], x);
    }
  }

  lemma LeastOnce(b: seq<Frame>, order: seq<nat>, i: int, j: int)
    requires LeastRecent(b, order, i) && LeastRecent(b, order, j)
    ensures i == j
  {
    var k :| 0 <= k < |order| && order[k] == i && Loose(b, i) && forall m :: 0 <= m < k ==> !Loose(b, order[m]);
    var l :| 0 <= l < |order| && order[l] == j && Loose(b, j) && forall m :: 0 <= m < l ==> !Loose(b, order[m]);
  }

  lemma LeastSame(b: seq<Frame>, c: seq<Frame>, order: seq<nat>, i: int)
    requires |b| == |c| && forall k :: 0 <= k < |b| ==> c[k].pinned == b[k].pinned
    ensures LeastRecent(b, order, i) <==> LeastRecent(c, order, i)
    ensures AnyLoose(b, order) <==> AnyLoose(c, order)
  {
    assert forall k :: Loose(b, k) <==> Loose(c, k);
    if k :| 0 <= k < |order| && order[k] == i && Loose(b, i) && forall m :: 0 <= m < k ==> !Loose(b, order[m]) {
      assert forall m :: 0 <= m < k ==> !Loose(c, order[m]);
    }
    if k :| 0 <= k < |order| && order[k] == i && Loose(c, i) && forall m :: 0 <= m < k ==> !Loose(c, order[m]) {
      assert forall m :: 0 <= m < k ==> !Loose(b, order[m]);
    }
  }

  // The header is dirty, and its buffer is the one to be given up next.
  ghost predicate GoesNext(b: seq<Frame>, order: seq<nat>, h: int) {
    0 <= h < |b| && b[h].dirty && NoneUnused(b) && LeastRecent(b, order, h)
  }

  lemma ChosenIsHeader(b: seq<Frame>, c: seq<Frame>, order: seq<nat>, h: nat, id: Id, j: int)
    requires h < |b| && b[h].used && b[h].data.Header? && c == b[h := b[h].(data := HeaderAfter(b[h].data, []))]
    requires Chosen(c, order, id, j) && !Buffered(c, id)
    ensures j == h && b[h].dirty <==> GoesNext(b, order, h)
  {
    LeastSame(b, c, order, j);
    LeastSame(b, c, order, h);
    if NoneUnused(c) {
      if LeastRecent(c, order, h) {
        LeastOnce(c, order, h, j);
      }
    }
  }

  // The header in buffer h of b has been changed, which gives c; the view says nothing of it now.
  ghost predicate Changed(b: seq<Frame>, d: Disk, v: Disk, t: nat, h: int, c: seq<Frame>) {
    && Good(b, d, v, -1) && InStep(b, d, v, t, []) && Holds(b, h, Head(t)) && b[h].data.Header?
    && |c| == |b| && c == b[h := b[h].(data := HeaderAfter(b[h].data, []))] && Good(c, d, v - {Head(t)}, -1)
  }

  method ChangeHeader(pool: Pool, t: nat, h: int) returns (n: nat)
    requires Working(pool, h, t, []) && Word(pool.buf[h].data) == 0
    modifies pool`view, pool.buf
    ensures Changed(old(pool.buf[..]), pool.disk, old(pool.view), t, h, pool.buf[..]) && pool.view == old(pool.view) - {Head(t)}
    ensures Linked(pool.buf[..], pool.order, -1) && n == old(pool.buf[h].data.count)
    ensures !Buffered(pool.buf[..], Id(t, n))
  {
    ghost var b, d, v := pool.buf[..], pool.disk, pool.view;
    assert StepOk(b[h], d, t, []);
    n := pool.buf[h].data.count;
    pool.buf[h] := pool.buf[h].(data := pool.buf[h].data.(free := n + 1, count := n + 100));
    pool.view := v - {Head(t)};
    HideKeeps(b, pool.buf[..], d, v, h, Head(t));
    ListStays(b, pool.buf[..], pool.order);
    NotYet(pool.buf[..], d, pool.view, t, [], n);
  }

  // Buffer j, of those in c, has been given up for page n.
  ghost predicate ForNew(b: seq<Frame>, d: Disk, v: Disk, t: nat, h: int, c: seq<Frame>, j: int, now: seq<Frame>, e: Disk) {
    && Changed(b, d, v, t, h, c) && 0 <= j < |c| && now == c[j := Vacated(c[j])] && e == WroteBack(d, c[j])
    && Good(now, e, v - {Head(t)}, j) && Ready(now, j, Id(t, b[h].data.count)) && !now[j].used
  }

  // What buffer j is for page n: only its number is set.
  function Numbered(f: Frame, t: nat, n: nat): Frame {
    f.(table := t, page := n, dirty := false, used := true, data := AsNode(f.data))
  }

  // The buffer gets the number of the new page, and the file the new pages.
  method TakeNew(pool: Pool, t: nat, h: int, j: int, n: nat, ghost b: seq<Frame>, ghost d: Disk, ghost v: Disk, ghost c: seq<Frame>)
    returns (r: AllocResult)
    requires ForNew(b, d, v, t, h, c, j, pool.buf[..], pool.disk) && n == b[h].data.count && pool.view == v - {Head(t)}
    modifies pool`disk, pool`view, pool.buf
    ensures r.PastTheEnd? <==> j == h && b[h].dirty
    ensures r.PastTheEnd? ==> Astray(pool.disk, t)
    ensures !r.NeverEnds?
    ensures r.Page? ==> OnlyAt(c, pool.buf[..], j) && Advanced(v, pool.buf[..], pool.disk, pool.view, t, [], r.p)
    ensures r.Page? ==> PinsFall(c, pool.buf[..])
  {
    if j != h || !b[h].dirty {
      NewFile(b, d, v, t, h, c, j);
    } else {
      LostFile(b, d, v, t, h, c);
    }
    pool.buf[j] := pool.buf[j].(table := t, page := n, dirty := false, used := true, data := AsNode(pool.buf[j].data));
    assert pool.buf[..] == c[j := Numbered(Vacated(c[j]), t, n)];
    if Word(pool.disk[Head(t)]) != 0 && Id(t, Word(pool.disk[Head(t)])) !in pool.disk {
      return PastTheEnd;
    }
    var p := FinishNew(pool, t, h, j, b, d, v, c);
    r := Page(p);
  }

  method FinishNew(pool: Pool, t: nat, h: int, j: int, ghost b: seq<Frame>, ghost d: Disk, ghost v: Disk, ghost c: seq<Frame>)
    returns (p: nat)
    requires 0 <= j < |c| && ForNew(b, d, v, t, h, c, j, c[j := Vacated(c[j])], pool.disk) && !(j == h && b[h].dirty)
    requires pool.buf[..] == c[j := Numbered(Vacated(c[j]), t, b[h].data.count)] && FileOk(pool.disk, t, [])
    modifies pool`disk, pool`view
    ensures Advanced(v, pool.buf[..], pool.disk, pool.view, t, [], p)
  {
    p := FileAlloc(pool, t, []);
    NewFinished(b, d, v, t, h, c, j, pool.disk);
    pool.view := v[Head(t) := HeaderAfter(v[Head(t)], [])];
  }

  lemma NewFinished(b: seq<Frame>, d: Disk, v: Disk, t: nat, h: int, c: seq<Frame>, j: int, e: Disk)
    requires 0 <= j < |c| && ForNew(b, d, v, t, h, c, j, c[j := Vacated(c[j])], WroteBack(d, c[j])) && !(j == h && b[h].dirty)
    requires FileTook(WroteBack(d, c[j]), e, t, [])
    ensures Head(t) in v && v[Head(t)].Header? && WroteBack(d, c[j])[Head(t)].count == b[h].data.count
    ensures var f := Numbered(Vacated(c[j]), t, b[h].data.count);
            Advanced(v, c[j := f], e, v[Head(t) := HeaderAfter(v[Head(t)], [])], t, [], b[h].data.count)
  {
    NewFile(b, d, v, t, h, c, j);
    NewReady(b, d, v, t, h, c, j, e);
    NewKeeps(b, d, v, t, h, c, j, Numbered(Vacated(c[j]), t, b[h].data.count), e);
  }

  lemma NewReady(b: seq<Frame>, d: Disk, v: Disk, t: nat, h: int, c: seq<Frame>, j: int, e: Disk)
    requires 0 <= j < |c| && ForNew(b, d, v, t, h, c, j, c[j := Vacated(c[j])], WroteBack(d, c[j])) && !(j == h && b[h].dirty)
    requires FileTook(WroteBack(d, c[j]), e, t, [])
    ensures NewTaken(b, d, v, t, h, c, j, Numbered(Vacated(c[j]), t, b[h].data.count), e)
  {
  }

  predicate OnlyAt(b: seq<Frame>, c: seq<Frame>, j: int) {
    |b| == |c| && 0 <= j < |b| && c[j].next == b[j].next && c[j].prev == b[j].prev && forall i :: 0 <= i < |b| && i != j ==> c[i] == b[i]
  }

  lemma LostFile(b: seq<Frame>, d: Disk, v: Disk, t: nat, h: int, c: seq<Frame>)
    requires Changed(b, d, v, t, h, c) && b[h].dirty
    ensures Astray(WroteBack(d, c[h]), t)
  {
    assert StepOk(b[h], d, t, []);
    var n := b[h].data.count;
    assert WroteBack(d, c[h])[Head(t)] == c[h].data;
    assert Id(t, n + 1) !in d;
  }

  // A hundred new pages, the first of which is taken.
  method AllocNew(pool: Pool, t: nat, h: int) returns (r: AllocResult, j: int)
    requires Working(pool, h, t, []) && Word(pool.buf[h].data) == 0
    modifies pool`disk, pool`view, pool.buf
    ensures r.NeverEnds? ==> !old(AnyLoose(pool.buf[..], pool.order))
    ensures r.PastTheEnd? <==> old(GoesNext(pool.buf[..], pool.order, h))
    ensures r.PastTheEnd? ==> Astray(pool.disk, t)
    ensures r.Page? ==> Placed(old(pool.view), pool, t, [], r.p, h, j) && PinsFall(old(pool.buf[..]), pool.buf[..])
  {
    ghost var b, d, v := pool.buf[..], pool.disk, pool.view;
    var n := ChangeHeader(pool, t, h);
    ghost var c := pool.buf[..];
    LeastSame(b, c, pool.order, h);
    j := pool.GetBufferIndex(Id(t, n));
    if j == -1 {
      GoesNextIsLoose(b, pool.order, h);
      return NeverEnds, j;
    }
    ChosenIsHeader(b, c, pool.order, h, Id(t, n), j);
    r := TakeNew(pool, t, h, j, n, b, d, v, c);
    if r.Page? {
      ListStays(c, pool.buf[..], pool.order);
    }
  }

  lemma GoesNextIsLoose(b: seq<Frame>, order: seq<nat>, h: int)
    ensures GoesNext(b, order, h) ==> AnyLoose(b, order)
  {
  }

  // What the file's routine would read next is behind the end of the file.
  predicate Astray(disk: Disk, t: nat) {
    Head(t) in disk && Word(disk[Head(t)]) != 0 && Id(t, Word(disk[Head(t)])) !in disk
  }

  // The two buffers have still to be put into their places in the list.
  ghost predicate Placed(v: Disk, pool: Pool, t: nat, list: seq<nat>, p: nat, h: int, j: int)
    reads pool, pool.buf
  {
    && Advanced(v, pool.buf[..], pool.disk, pool.view, t, list, p)
    && Linked(pool.buf[..], pool.order, -1) && ListedBut(pool.buf[..], pool.order, h, j)
    && 0 <= h < pool.buf.Length && 0 <= j < pool.buf.Length
  }

  // With the header not lost, the file is in order when its routine is called.
  lemma NewFile(b: seq<Frame>, d: Disk, v: Disk, t: nat, h: int, c: seq<Frame>, j: int)
    requires Good(b, d, v, -1) && InStep(b, d, v, t, []) && Holds(b, h, Head(t)) && b[h].data.Header? && 0 <= j < |b| == |c|
    requires c == b[h := b[h].(data := HeaderAfter(b[h].data, []))] && !(j == h && b[h].dirty)
    ensures FileOk(WroteBack(d, c[j]), t, []) && WroteBack(d, c[j])[Head(t)].free == 0
    ensures WroteBack(d, c[j])[Head(t)].count == b[h].data.count
  {
    assert StepOk(b[h], d, t, []) && FrameOk(b, d, v, j);
    if j != h {
      WroteBackFile(b[j], d, t, []);
    }
    HeadIsFirst(d, t, []);
  }

  // ---------- a page of the free list ----------

  // The disk changes where the view says nothing.
  lemma DiskKeeps(b: seq<Frame>, disk: Disk, more: Disk, view: Disk)
    requires Good(b, disk, view, -1) && forall x :: x in disk ==> x in more && (x in view ==> more[x] == disk[x])
    ensures Good(b, more, view, -1)
  {
    forall j | 0 <= j < |b|
      ensures FrameOk(b, more, view, j)
    {
      assert FrameOk(b, disk, view, j);
    }
    forall x
      ensures Shown(b, more, view, x)
    {
      assert Shown(b, disk, view, x);
    }
  }

  lemma LessKeeps(b: seq<Frame>, disk: Disk, view: Disk, id: Id)
    requires Good(b, disk, view, -1)
    ensures Good(b, disk, view - {id}, -1)
  {
    forall j | 0 <= j < |b|
      ensures FrameOk(b, disk, view - {id}, j)
    {
      assert FrameOk(b, disk, view, j);
    }
    forall x
      ensures Shown(b, disk, view - {id}, x)
    {
      assert Shown(b, disk, view, x);
    }
  }

  // Page p is in buffer j, loaded; the header's buffer h, which may be the same by now, gets the
  // word that leads on.
  ghost predicate OldTaken(b: seq<Frame>, d: Disk, v: Disk, t: nat, list: seq<nat>, h: int, j: int, c: seq<Frame>, e: Disk) {
    && Good(b, d, v, -1) && InStep(b, d, v, t, list) && list != [] && Holds(b, j, Id(t, list[0])) && 0 <= h < |b| == |c|
    && Id(t, list[0]) in d && b[j].data == d[Id(t, list[0])] && !b[j].dirty
    && (if j == h then !Buffered(b, Head(t)) else Holds(b, h, Head(t)))
    && c == b[h := b[h].(data := WithWord(b[h].data, Word(b[j].data)))] && FileTook(d, e, t, list)
  }

  lemma OldSays(b: seq<Frame>, d: Disk, v: Disk, t: nat, list: seq<nat>, h: int, j: int, c: seq<Frame>, e: Disk)
    requires OldTaken(b, d, v, t, list, h, j, c, e)
    ensures Head(t) in v && v[Head(t)].Header? && v[Head(t)].count == d[Head(t)].count
    ensures Says(c, e, Head(t), HeaderAfter(v[Head(t)], list)) && Good(c, e, v - {Head(t)}, -1)
  {
    HeadIsFirst(d, t, list);
    if j == h {
      assert Shown(b, d, v, Head(t));
      assert c == b;
      LessKeeps(b, d, v, Head(t));
    } else {
      assert FrameOk(b, d, v, h) && StepOk(b[h], d, t, list);
      HideKeeps(b, c, d, v, h, Head(t));
      assert Holds(c, h, Head(t));
      forall i | 0 <= i < |c| && Holds(c, i, Head(t))
        ensures i == h
      {
        assert Holds(b, i, Head(t));
        OneHeader(b, d, v, t, h, i);
      }
    }
    DiskKeeps(c, d, e, v - {Head(t)});
  }

  lemma OldInStep(b: seq<Frame>, d: Disk, v: Disk, t: nat, list: seq<nat>, h: int, j: int, c: seq<Frame>, e: Disk, i: int)
    requires OldTaken(b, d, v, t, list, h, j, c, e) && 0 <= i < |c|
    ensures StepOk(c[i], e, t, list[1..])
  {
    HeadIsFirst(d, t, list);
    HeadIsFirst(e, t, list[1..]);
    assert StepOk(b[i], d, t, list) && StepOk(b[h], d, t, list);
    if j == h {
      assert b[i].used && Of(b[i]) == Head(t) ==> Holds(b, i, Head(t));
      assert c == b;
    } else if b[i].used && Of(b[i]) == Head(t) {
      assert Holds(b, i, Head(t));
      OneHeader(b, d, v, t, h, i);
    }
  }

  lemma OldKeeps(b: seq<Frame>, d: Disk, v: Disk, t: nat, list: seq<nat>, h: int, j: int, c: seq<Frame>, e: Disk)
    requires OldTaken(b, d, v, t, list, h, j, c, e)
    ensures Head(t) in v && v[Head(t)].Header?
    ensures Taken(c, e, v[Head(t) := HeaderAfter(v[Head(t)], list)], t, list[1..], list[0])
  {
    OldSays(b, d, v, t, list, h, j, c, e);
    SaysKeeps(c, e, v, Head(t), HeaderAfter(v[Head(t)], list));
    forall i | 0 <= i < |c|
      ensures StepOk(c[i], e, t, list[1..])
    {
      OldInStep(b, d, v, t, list, h, j, c, e, i);
    }
    ListInFile(d, t, list, list[0]);
    assert forall x :: x in list[1..] ==> x in list;
  }

  // A buffer for page id; the header is where it was, unless its buffer was given up for this.
  method BufferOf(pool: Pool, t: nat, h: int, id: Id, ghost list: seq<nat>) returns (j: int)
    requires Working(pool, h, t, list) && id.table == t && id.page > 0 && id in pool.disk
    modifies pool`disk, pool.buf
    ensures j == -1 ==> !old(AnyLoose(pool.buf[..], pool.order))
    ensures j != -1 ==> Good(pool.buf[..], pool.disk, pool.view, j) && InStep(pool.buf[..], pool.disk, pool.view, t, list)
    ensures j != -1 ==> Linked(pool.buf[..], pool.order, -1) && Ready(pool.buf[..], j, id) && id in pool.disk
    ensures j != -1 ==> if j == h then !Buffered(pool.buf[..], Head(t)) && !pool.buf[j].used else Holds(pool.buf[..], h, Head(t))
    ensures j != -1 ==> OnlyAt(old(pool.buf[..]), pool.buf[..], j) && PinsFall(old(pool.buf[..]), pool.buf[..])
  {
    ghost var b, d, v := pool.buf[..], pool.disk, pool.view;
    j := pool.GetBufferIndex(id);
    if j != -1 {
      assert FrameOk(b, d, v, j);
      if Buffered(b, id) {
        assert Holds(b, j, id);
        assert Of(b[j]) != Of(b[h]);
      } else {
        VacatedInStep(b, d, v, t, list, j);
        HeaderGiven(b, d, v, t, h, j);
      }
    }
  }

  lemma HeaderGiven(b: seq<Frame>, d: Disk, v: Disk, t: nat, h: int, j: int)
    requires Good(b, d, v, -1) && Holds(b, h, Head(t)) && 0 <= j < |b|
    ensures var c := b[j := Vacated(b[j])]; if j == h then !Buffered(c, Head(t)) else Holds(c, h, Head(t))
  {
    var c := b[j := Vacated(b[j])];
    forall i | 0 <= i < |c| && Holds(c, i, Head(t))
      ensures i == h && j != h
    {
      assert Holds(b, i, Head(t));
      OneHeader(b, d, v, t, h, i);
    }
  }

  lemma LoadedThere(b: seq<Frame>, h: int, j: int, t: nat, id: Id, data: Content)
    requires 0 <= h < |b| && 0 <= j < |b| && id.page > 0 && (if j == h then !Buffered(b, Head(t)) else Holds(b, h, Head(t)))
    ensures var c := b[j := Loaded(b[j], id, data)];
            Holds(c, j, id) && if j == h then !Buffered(c, Head(t)) else Holds(c, h, Head(t))
  {
    var c := b[j := Loaded(b[j], id, data)];
    forall i | 0 <= i < |c|
      ensures Holds(c, i, Head(t)) ==> Holds(b, i, Head(t))
    {
    }
  }

  lemma StillListed(b: seq<Frame>, c: seq<Frame>, order: seq<nat>, h: int, j: int)
    requires Linked(b, order, -1) && OnlyAt(b, c, j) && ListedBut(b, order, h, h)
    ensures Linked(c, order, -1) && ListedBut(c, order, h, j)
  {
    ListStays(b, c, order);
  }

  // The first page of the list is read from the disk, whether or not there is a buffer with it.
  method LoadFirst(pool: Pool, t: nat, h: int, ghost list: seq<nat>) returns (j: int)
    requires Working(pool, h, t, list) && list != []
    modifies pool`disk, pool.buf
    ensures j == -1 ==> !old(AnyLoose(pool.buf[..], pool.order))
    ensures j != -1 ==> Good(pool.buf[..], pool.disk, pool.view, -1) && InStep(pool.buf[..], pool.disk, pool.view, t, list)
    ensures j != -1 ==> Holds(pool.buf[..], j, Id(t, list[0])) && Id(t, list[0]) in pool.disk
    ensures j != -1 ==> pool.buf[j].data == pool.disk[Id(t, list[0])] && !pool.buf[j].dirty
    ensures j != -1 ==> if j == h then !Buffered(pool.buf[..], Head(t)) else Holds(pool.buf[..], h, Head(t))
    ensures j != -1 ==> Linked(pool.buf[..], pool.order, -1) && ListedBut(pool.buf[..], pool.order, h, j)
    ensures j != -1 ==> PinsFall(old(pool.buf[..]), pool.buf[..])
  {
    ghost var b := pool.buf[..];
    assert StepOk(pool.buf[h], pool.disk, t, list);
    HeadIsFirst(pool.disk, t, list);
    var p := Word(pool.buf[h].data);
    ListInFile(pool.disk, t, list, p);
    ghost var id := Id(t, p);
    j := BufferOf(pool, t, h, Id(t, p), list);
    if j != -1 {
      ghost var c := pool.buf[..];
      pool.DiskToBuffer(j, Id(t, p));
      LoadedInStep(c, pool.disk, pool.view, t, list, j, id);
      LoadedThere(c, h, j, t, id, pool.disk[id]);
      StillListed(b, pool.buf[..], pool.order, h, j);
    }
  }

  // It is taken.
  method AllocOld(pool: Pool, t: nat, h: int, ghost list: seq<nat>) returns (r: AllocResult, j: int)
    requires Working(pool, h, t, list) && list != []
    modifies pool`disk, pool`view, pool.buf
    ensures r.NeverEnds? ==> !old(AnyLoose(pool.buf[..], pool.order))
    ensures !r.PastTheEnd?
    ensures r.Page? ==> Placed(old(pool.view), pool, t, list, r.p, h, j) && PinsFall(old(pool.buf[..]), pool.buf[..])
  {
    j := LoadFirst(pool, t, h, list);
    if j == -1 {
      return NeverEnds, j;
    }
    var p := TakeOld(pool, t, h, j, list);
    return Page(p), j;
  }

  method FollowOn(pool: Pool, t: nat, h: int, j: int, ghost list: seq<nat>) returns (p: nat)
    requires 0 <= h < pool.buf.Length && 0 <= j < pool.buf.Length && FileOk(pool.disk, t, list) && list != []
    modifies pool`disk, pool.buf
    ensures var b := old(pool.buf[..]); pool.buf[..] == b[h := b[h].(data := WithWord(b[h].data, Word(b[j].data)))]
    ensures FileTook(old(pool.disk), pool.disk, t, list) && p == list[0] && PinsFall(old(pool.buf[..]), pool.buf[..])
  {
    pool.buf[h] := pool.buf[h].(data := WithWord(pool.buf[h].data, Word(pool.buf[j].data)));
    p := FileAlloc(pool, t, list);
  }

  method TakeOld(pool: Pool, t: nat, h: int, j: int, ghost list: seq<nat>) returns (p: nat)
    requires Good(pool.buf[..], pool.disk, pool.view, -1) && InStep(pool.buf[..], pool.disk, pool.view, t, list) && list != []
    requires 0 <= h < pool.buf.Length && Holds(pool.buf[..], j, Id(t, list[0])) && Id(t, list[0]) in pool.disk
    requires pool.buf[j].data == pool.disk[Id(t, list[0])] && !pool.buf[j].dirty
    requires Linked(pool.buf[..], pool.order, -1) && ListedBut(pool.buf[..], pool.order, h, j)
    requires if j == h then !Buffered(pool.buf[..], Head(t)) else Holds(pool.buf[..], h, Head(t))
    modifies pool`disk, pool`view, pool.buf
    ensures Placed(old(pool.view), pool, t, list, p, h, j) && PinsFall(old(pool.buf[..]), pool.buf[..])
  {
    ghost var b, d, v := pool.buf[..], pool.disk, pool.view;
    p := FollowOn(pool, t, h, j, list);
    OldKeeps(b, d, v, t, list, h, j, pool.buf[..], pool.disk);
    pool.view := v[Head(t) := HeaderAfter(v[Head(t)], list)];
    ListStays(b, pool.buf[..], pool.order);
  }

  // ---------- the whole call ----------

  method Arrange(pool: Pool, i: nat, ghost skip: int, t: nat, ghost list: seq<nat>)
    requires Good(pool.buf[..], pool.disk, pool.view, -1) && Linked(pool.buf[..], pool.order, -1) && i < pool.buf.Length
    requires InStep(pool.buf[..], pool.disk, pool.view, t, list) && ListedBut(pool.buf[..], pool.order, i, skip)
    modifies pool`order, pool.buf
    ensures Good(pool.buf[..], pool.disk, pool.view, -1) && Linked(pool.buf[..], pool.order, -1)
    ensures InStep(pool.buf[..], pool.disk, pool.view, t, list) && ListedBut(pool.buf[..], pool.order, skip, skip)
    ensures i in pool.order && forall x :: x in old(pool.order) ==> x in pool.order
    ensures old(AnyLoose(pool.buf[..], pool.order)) ==> AnyLoose(pool.buf[..], pool.order)
    ensures Recent(old(pool.order), pool.order, i) && SameFrames(old(pool.buf[..]), pool.buf[..])
  {
    ghost var b, was := pool.buf[..], pool.order;
    ghost var k := Place(was, i);
    pool.ArrangeLruList(i, k);
    SameKeeps(b, pool.buf[..], pool.disk, pool.view, -1);
    SameInStep(b, pool.buf[..], pool.disk, pool.view, t, list);
    forall x
      ensures x == i || x in was ==> x in pool.order
    {
      if x == i || x in was {
        StillThere(was, k, i, x);
      }
    }
    forall x | 0 <= x < pool.buf.Length && pool.buf[x].used && x != skip
      ensures x in pool.order
    {
      assert SameAt(b, pool.buf[..], x);
    }
    SamePins(b, pool.buf[..]);
    LooseStays(b, pool.buf[..], was, pool.order);
  }

  // The page comes from the free list, or is new.
  method AllocWith(pool: Pool, t: nat, h: int, ghost list: seq<nat>) returns (r: AllocResult, j: int)
    requires Working(pool, h, t, list)
    modifies pool`disk, pool`view, pool.buf
    ensures r.NeverEnds? ==> !old(AnyLoose(pool.buf[..], pool.order))
    ensures r.PastTheEnd? <==> list == [] && old(GoesNext(pool.buf[..], pool.order, h))
    ensures r.PastTheEnd? ==> Astray(pool.disk, t)
    ensures r.Page? ==> Placed(old(pool.view), pool, t, list, r.p, h, j) && PinsFall(old(pool.buf[..]), pool.buf[..])
  {
    EmptyIsZero(pool.buf[..], pool.disk, t, list, h);
    if Word(pool.buf[h].data) == 0 {
      r, j := AllocNew(pool, t, h);
    } else {
      r, j := AllocOld(pool, t, h, list);
    }
  }

  lemma EmptyIsZero(b: seq<Frame>, d: Disk, t: nat, list: seq<nat>, h: int)
    requires FileOk(d, t, list) && Holds(b, h, Head(t)) && StepOk(b[h], d, t, list)
    ensures list == [] <==> Word(b[h].data) == 0
  {
    HeadIsFirst(d, t, list);
    if list != [] {
      ListInFile(d, t, list, list[0]);
    }
  }

  // Both buffers become the most recent ones.
  method Settle(pool: Pool, h: nat, j: nat, t: nat, ghost list: seq<nat>)
    requires Good(pool.buf[..], pool.disk, pool.view, -1) && Linked(pool.buf[..], pool.order, -1)
    requires h < pool.buf.Length && j < pool.buf.Length
    requires InStep(pool.buf[..], pool.disk, pool.view, t, list) && ListedBut(pool.buf[..], pool.order, h, j)
    modifies pool`order, pool.buf
    ensures pool.Valid() && pool.order != [] && InStep(pool.buf[..], pool.disk, pool.view, t, list)
    ensures old(AnyLoose(pool.buf[..], pool.order)) ==> AnyLoose(pool.buf[..], pool.order)
  {
    Arrange(pool, h, j, t, list);
    Arrange(pool, j, j, t, list);
  }

  // buffer_alloc_page: exactly if the header is lost, the file's routine goes astray.
  method BufferAllocPage(pool: Pool, t: nat, ghost list: seq<nat>) returns (r: AllocResult)
    requires pool.Valid() && pool.order != [] && InStep(pool.buf[..], pool.disk, pool.view, t, list)
    modifies pool, pool.buf
    ensures r.NeverEnds? ==> !old(AnyLoose(pool.buf[..], pool.order))
    ensures r.PastTheEnd? <==> old(HeaderLost(pool.buf[..], pool.order, pool.view, t))
    ensures r.PastTheEnd? ==> Astray(pool.disk, t)
    ensures r.Page? ==> pool.Valid() && pool.order != []
    ensures r.Page? ==> Advanced(old(pool.view), pool.buf[..], pool.disk, pool.view, t, list, r.p)
    ensures r.Page? && old(AnyLoose(pool.buf[..], pool.order)) ==> AnyLoose(pool.buf[..], pool.order)
  {
    ghost var b, v, order := pool.buf[..], pool.view, pool.order;
    LostIsLoose(b, order, v, t);
    var h := HeaderBuffer(pool, t, list);
    if h == -1 {
      return NeverEnds;
    }
    LostIsNext(b, pool.disk, v, order, t, list, h, pool.buf[..]);
    var j;
    ghost var c := pool.buf[..];
    r, j := AllocWith(pool, t, h, list);
    if r.Page? {
      LooseStays(c, pool.buf[..], order, order);
      Settle(pool, h, j, t, DiskSpace.ListAfter(list, v[Head(t)].count));
    }
  }

  lemma LostIsLoose(b: seq<Frame>, order: seq<nat>, v: Disk, t: nat)
    ensures HeaderLost(b, order, v, t) ==> AnyLoose(b, order)
  {
  }

  lemma LostIsNext(b: seq<Frame>, d: Disk, v: Disk, order: seq<nat>, t: nat, list: seq<nat>, h: int, c: seq<Frame>)
    requires Good(c, d, v, -1) && Holds(c, h, Head(t)) && InStep(c, d, v, t, list)
    requires if Buffered(b, Head(t)) then c == b else !c[h].dirty
    ensures list == [] <==> Word(c[h].data) == 0
    ensures HeaderLost(b, order, v, t) <==> list == [] && GoesNext(c, order, h)
  {
    assert StepOk(c[h], d, t, list) && FrameOk(c, d, v, h);
    HeadIsFirst(d, t, list);
    if list != [] {
      ListInFile(d, t, list, list[0]);
    }
    if HeaderLost(b, order, v, t) {
      var i :| Holds(b, i, Head(t)) && b[i].dirty && LeastRecent(b, order, i);
      OneHeader(c, d, v, t, h, i);
    }
  }

  // ---------- a page given back ----------

  ghost predicate FileGot(d: Disk, e: Disk, t: nat, list: seq<nat>, x: nat) {
    && FileOk(d, t, list) && FileOk(e, t, [x] + list) && e[Head(t)] == d[Head(t)].(free := x)
    && 0 < x && x !in list && Id(t, x) in d && d[Id(t, x)].Node? && Id(t, x) in e && e[Id(t, x)] == d[Id(t, x)].(next := First(list))
    && forall id :: id in d ==> id in e && (id != Head(t) && id != Id(t, x) ==> e[id] == d[id])
  }

  // file_free_page on the file of the table.
  method FileFree(pool: Pool, t: nat, x: nat, ghost list: seq<nat>)
    requires FileOk(pool.disk, t, list) && 0 < x && x !in list && Id(t, x) in pool.disk
    modifies pool`disk
    ensures FileGot(old(pool.disk), pool.disk, t, list, x)
  {
    HeadIsFirst(pool.disk, t, list);
    var header := pool.disk[Head(t)];
    var file := new DiskSpace.File.Existing(header.free, header.count, PagesOf(pool.disk, t), list);
    file.FileFreePage(x);
    WithFileOk(pool.disk, t, file.freePage, file.count, file.pages, file.free);
    ghost var d := WithFile(pool.disk, t, file.freePage, file.count, file.pages);
    forall id | id in pool.disk
      ensures id in d
      ensures id == Head(t) ==> d[id] == pool.disk[id].(free := x)
      ensures id == Id(t, x) ==> d[id] == pool.disk[id].(next := First(list))
      ensures id != Head(t) && id != Id(t, x) ==> d[id] == pool.disk[id]
    {
      WithFileAt(pool.disk, t, file.freePage, file.count, file.pages, id);
    }
    pool.disk := WithFile(pool.disk, t, file.freePage, file.count, file.pages);
    HeadIsFirst(pool.disk, t, file.free);
  }

  // With page x in buffer j and the header in buffer h, if that is another one, the two words are
  // moved, which gives c.
  ghost predicate Freed(b: seq<Frame>, d: Disk, v: Disk, t: nat, list: seq<nat>, h: int, j: int, x: nat, c: seq<Frame>, e: Disk) {
    && Good(b, d, v, -1) && InStep(b, d, v, t, list) && Holds(b, j, Id(t, x)) && 0 <= h < |b| == |c|
    && (if j == h then !Buffered(b, Head(t)) && !b[j].dirty && c == b
        else Holds(b, h, Head(t)) && c == Relinked(b, h, j, x))
    && FileGot(d, e, t, list, x)
  }

  function Relinked(b: seq<Frame>, h: int, j: int, x: nat): seq<Frame>
    requires 0 <= h < |b| && 0 <= j < |b|
  {
    b[h := b[h].(data := WithWord(b[h].data, x))][j := b[j].(data := WithWord(b[j].data, Word(b[h].data)))]
  }

  lemma FreedSays(b: seq<Frame>, d: Disk, v: Disk, t: nat, list: seq<nat>, h: int, j: int, x: nat, c: seq<Frame>, e: Disk)
    requires Freed(b, d, v, t, list, h, j, x, c, e)
    ensures Head(t) in v && v[Head(t)].Header? && Good(c, e, v - {Head(t)} - {Id(t, x)}, -1)
    ensures Says(c, e, Head(t), v[Head(t)].(free := x))
  {
    if j == h {
      assert Shown(b, d, v, Head(t));
      LessKeeps(b, d, v, Head(t));
      LessKeeps(b, d, v - {Head(t)}, Id(t, x));
    } else {
      assert FrameOk(b, d, v, h) && StepOk(b[h], d, t, list);
      var c1 := b[h := b[h].(data := WithWord(b[h].data, x))];
      HideKeeps(b, c1, d, v, h, Head(t));
      assert Holds(c1, j, Id(t, x));
      HideKeeps(c1, c, d, v - {Head(t)}, j, Id(t, x));
      assert Holds(c, h, Head(t));
      forall i | 0 <= i < |c| && Holds(c, i, Head(t))
        ensures i == h
      {
        assert Holds(b, i, Head(t));
        OneHeader(b, d, v, t, h, i);
      }
    }
    DiskKeeps(c, d, e, v - {Head(t)} - {Id(t, x)});
  }

  lemma FreedInStep(b: seq<Frame>, d: Disk, v: Disk, t: nat, list: seq<nat>, h: int, j: int, x: nat, c: seq<Frame>, e: Disk, i: int)
    requires Freed(b, d, v, t, list, h, j, x, c, e) && 0 <= i < |c|
    ensures StepOk(c[i], e, t, [x] + list)
  {
    HeadIsFirst(d, t, list);
    assert StepOk(b[i], d, t, list) && StepOk(b[h], d, t, list) && StepOk(b[j], d, t, list);
    if b[i].used && Of(b[i]) == Head(t) {
      assert Holds(b, i, Head(t));
      if j != h {
        OneHeader(b, d, v, t, h, i);
      }
    } else if b[i].used && Of(b[i]) == Id(t, x) {
      assert i < j ==> Different(b, i, j);
      assert j < i ==> Different(b, j, i);
    }
  }

  lemma FreedGood(b: seq<Frame>, d: Disk, v: Disk, t: nat, list: seq<nat>, h: int, j: int, x: nat, c: seq<Frame>, e: Disk)
    requires Freed(b, d, v, t, list, h, j, x, c, e)
    ensures Head(t) in v && v[Head(t)].Header? && Good(c, e, Released(v, t, x), -1)
  {
    FreedSays(b, d, v, t, list, h, j, x, c, e);
    assert v - {Head(t)} - {Id(t, x)} == (v - {Id(t, x)}) - {Head(t)};
    SaysKeeps(c, e, v - {Id(t, x)}, Head(t), v[Head(t)].(free := x));
  }

  lemma FreedKeeps(b: seq<Frame>, d: Disk, v: Disk, t: nat, list: seq<nat>, h: int, j: int, x: nat, c: seq<Frame>, e: Disk)
    requires Freed(b, d, v, t, list, h, j, x, c, e)
    ensures Head(t) in v && v[Head(t)].Header?
    ensures Good(c, e, Released(v, t, x), -1) && InStep(c, e, Released(v, t, x), t, [x] + list)
  {
    FreedGood(b, d, v, t, list, h, j, x, c, e);
    forall i | 0 <= i < |c|
      ensures StepOk(c[i], e, t, [x] + list)
    {
      FreedInStep(b, d, v, t, list, h, j, x, c, e, i);
    }
  }

  // What the pages hold once x is free.
  function Released(v: Disk, t: nat, x: nat): Disk
    requires Head(t) in v && v[Head(t)].Header?
  {
    (v - {Id(t, x)})[Head(t) := v[Head(t)].(free := x)]
  }

  lemma UsedGood(b: seq<Frame>, disk: Disk, view: Disk, j: int)
    requires Good(b, disk, view, j) && 0 <= j < |b| && b[j].used
    ensures Good(b, disk, view, -1)
  {
    forall i | 0 <= i < |b|
      ensures Blank(b, i)
    {
      assert i != j ==> Blank(b, i);
    }
  }

  // Page x is in buffer j, and the header in buffer h, unless that is the same by now.
  ghost predicate Both(b: seq<Frame>, t: nat, h: int, j: int, x: nat) {
    0 <= h < |b| && Holds(b, j, Id(t, x)) && if j == h then !Buffered(b, Head(t)) && !b[j].dirty else Holds(b, h, Head(t))
  }

  // All is as it should be, but for the places of two buffers in the list.
  ghost predicate Unsettled(pool: Pool, t: nat, list: seq<nat>, h: int, j: int)
    reads pool, pool.buf
  {
    && Good(pool.buf[..], pool.disk, pool.view, -1) && InStep(pool.buf[..], pool.disk, pool.view, t, list)
    && Linked(pool.buf[..], pool.order, -1) && ListedBut(pool.buf[..], pool.order, h, j)
  }

  // A buffer with page x, read from the disk if it has to be.
  method LoadGiven(pool: Pool, t: nat, h: int, x: nat, ghost list: seq<nat>) returns (j: int)
    requires Working(pool, h, t, list) && 0 < x && Id(t, x) in pool.disk
    modifies pool`disk, pool.buf
    ensures j == -1 ==> !old(AnyLoose(pool.buf[..], pool.order))
    ensures j != -1 ==> Unsettled(pool, t, list, h, j) && Both(pool.buf[..], t, h, j, x) && Id(t, x) in pool.disk
    ensures j != -1 ==> PinsFall(old(pool.buf[..]), pool.buf[..])
  {
    ghost var b := pool.buf[..];
    assert Linked(b, pool.order, -1) && ListedBut(b, pool.order, h, h);
    j := BufferOf(pool, t, h, Id(t, x), list);
    if j == -1 {
      return;
    }
    ReadIfUnused(pool, t, h, j, x, list);
    StillListed(b, pool.buf[..], pool.order, h, j);
  }

  method ReadIfUnused(pool: Pool, t: nat, h: int, j: int, x: nat, ghost list: seq<nat>)
    requires Good(pool.buf[..], pool.disk, pool.view, j) && InStep(pool.buf[..], pool.disk, pool.view, t, list)
    requires 0 < x && Ready(pool.buf[..], j, Id(t, x)) && Id(t, x) in pool.disk && 0 <= h < pool.buf.Length
    requires if j == h then !Buffered(pool.buf[..], Head(t)) && !pool.buf[j].used else Holds(pool.buf[..], h, Head(t))
    modifies pool.buf
    ensures Good(pool.buf[..], pool.disk, pool.view, -1) && InStep(pool.buf[..], pool.disk, pool.view, t, list)
    ensures Both(pool.buf[..], t, h, j, x) && OnlyAt(old(pool.buf[..]), pool.buf[..], j) && PinsFall(old(pool.buf[..]), pool.buf[..])
  {
    ghost var c, id := pool.buf[..], Id(t, x);
    if pool.buf[j].used {
      UsedGood(c, pool.disk, pool.view, j);
    } else {
      pool.DiskToBuffer(j, Id(t, x));
      LoadedInStep(c, pool.disk, pool.view, t, list, j, id);
      LoadedThere(c, h, j, t, id, pool.disk[id]);
    }
  }

  // The words are moved, and the file gets the page.
  method GiveBack(pool: Pool, t: nat, h: int, j: int, x: nat, ghost list: seq<nat>)
    requires Unsettled(pool, t, list, h, j) && Both(pool.buf[..], t, h, j, x)
    requires 0 < x && x !in list && Id(t, x) in pool.disk
    modifies pool`disk, pool`view, pool.buf
    ensures var v := old(pool.view); Head(t) in v && v[Head(t)].Header? && pool.view == Released(v, t, x)
    ensures Unsettled(pool, t, [x] + list, h, j) && PinsFall(old(pool.buf[..]), pool.buf[..])
  {
    ghost var b, d, v := pool.buf[..], pool.disk, pool.view;
    Relink(pool, t, h, j, x, list);
    GivenBack(b, d, v, pool.order, t, list, h, j, x, pool.buf[..], pool.disk);
    pool.view := Released(v, t, x);
  }

  method Relink(pool: Pool, t: nat, h: int, j: int, x: nat, ghost list: seq<nat>)
    requires 0 <= h < pool.buf.Length && 0 <= j < pool.buf.Length
    requires FileOk(pool.disk, t, list) && 0 < x && x !in list && Id(t, x) in pool.disk
    modifies pool`disk, pool.buf
    ensures pool.buf[..] == if j == h then old(pool.buf[..]) else Relinked(old(pool.buf[..]), h, j, x)
    ensures FileGot(old(pool.disk), pool.disk, t, list, x)
  {
    MoveWords(pool, h, j, x);
    FileFree(pool, t, x, list);
  }

  lemma GivenBack(b: seq<Frame>, d: Disk, v: Disk, order: seq<nat>, t: nat, list: seq<nat>, h: int, j: int, x: nat,
    c: seq<Frame>, e: Disk)
    requires Good(b, d, v, -1) && InStep(b, d, v, t, list) && Linked(b, order, -1) && ListedBut(b, order, h, j)
    requires Both(b, t, h, j, x) && FileGot(d, e, t, list, x)
    requires c == if j == h then b else Relinked(b, h, j, x)
    ensures Head(t) in v && v[Head(t)].Header?
    ensures Good(c, e, Released(v, t, x), -1) && InStep(c, e, Released(v, t, x), t, [x] + list)
    ensures Linked(c, order, -1) && ListedBut(c, order, h, j)
  {
    FreedKeeps(b, d, v, t, list, h, j, x, c, e);
    RelinkedListed(b, c, order, h, j, x);
  }

  lemma RelinkedListed(b: seq<Frame>, c: seq<Frame>, order: seq<nat>, h: int, j: int, x: nat)
    requires Linked(b, order, -1) && ListedBut(b, order, h, j) && 0 <= h < |b| && 0 <= j < |b|
    requires c == if j == h then b else Relinked(b, h, j, x)
    ensures Linked(c, order, -1) && ListedBut(c, order, h, j)
  {
    ListStays(b, c, order);
  }

  method MoveWords(pool: Pool, h: int, j: int, x: nat)
    requires 0 <= h < pool.buf.Length && 0 <= j < pool.buf.Length
    modifies pool.buf
    ensures j != h ==> pool.buf[..] == Relinked(old(pool.buf[..]), h, j, x)
    ensures j == h ==> pool.buf[..] == old(pool.buf[..])
  {
    var was := Word(pool.buf[h].data);
    pool.buf[h] := pool.buf[h].(data := WithWord(pool.buf[h].data, x));
    pool.buf[j] := pool.buf[j].(data := WithWord(pool.buf[j].data, was));
  }

  // buffer_free_page; false where the search for a buffer goes round for ever.
  method BufferFreePage(pool: Pool, t: nat, x: nat, ghost list: seq<nat>) returns (ok: bool)
    requires pool.Valid() && pool.order != [] && InStep(pool.buf[..], pool.disk, pool.view, t, list)
    requires 0 < x && x !in list && Id(t, x) in pool.disk
    modifies pool, pool.buf
    ensures !ok ==> !old(AnyLoose(pool.buf[..], pool.order))
    ensures ok ==> pool.Valid() && pool.order != [] && InStep(pool.buf[..], pool.disk, pool.view, t, [x] + list)
    ensures var v := old(pool.view); ok ==> Head(t) in v && v[Head(t)].Header? && pool.view == Released(v, t, x)
    ensures ok && old(AnyLoose(pool.buf[..], pool.order)) ==> AnyLoose(pool.buf[..], pool.order)
  {
    var h := HeaderBuffer(pool, t, list);
    if h == -1 {
      return false;
    }
    ghost var b := pool.buf[..];
    var j := LoadGiven(pool, t, h, x, list);
    if j == -1 {
      return false;
    }
    ghost var c := pool.buf[..];
    GiveBack(pool, t, h, j, x, list);
    LooseStays(b, c, pool.order, pool.order);
    LooseStays(c, pool.buf[..], pool.order, pool.order);
    Settle(pool, h, j, t, [x] + list);
    ok := true;
  }

  // As long as the header's buffer is pinned, as it is all through an insertion, it is not lost.
  lemma PinnedNotLost(b: seq<Frame>, order: seq<nat>, disk: Disk, view: Disk, t: nat, h: int)
    requires Good(b, disk, view, -1) && Holds(b, h, Head(t)) && b[h].pinned > 0
    ensures !HeaderLost(b, order, view, t)
  {
    if HeaderLost(b, order, view, t) {
      var i :| Holds(b, i, Head(t)) && b[i].dirty && LeastRecent(b, order, i);
      OneHeader(b, disk, view, t, h, i);
    }
  }

  // ---------- how a header is lost ----------

  // A file with all pages in use, in two buffers.
  ghost predicate Full(b: seq<Frame>, order: seq<nat>, disk: Disk, view: Disk) {
    && disk.Keys == {Id(1, 0), Id(1, 1)} && disk[Id(1, 0)] == DiskSpace.Header(0, 0, 2) && disk[Id(1, 1)].Node?
    && Head(1) in view && view[Head(1)] == DiskSpace.Header(0, 1, 2) && |b| == 2 && order == [0, 1]
    && b[0].used && Of(b[0]) == Id(1, 0) && b[0].data == DiskSpace.Header(0, 1, 2) && b[0].dirty && b[0].pinned == 0
    && b[1].used && Of(b[1]) == Id(1, 1) && b[1].data.Node?
  }

  lemma FullInStep(b: seq<Frame>, order: seq<nat>, disk: Disk, view: Disk)
    requires Full(b, order, disk, view)
    ensures InStep(b, disk, view, 1, [])
  {
  }

  lemma FullIsLost(b: seq<Frame>, order: seq<nat>, disk: Disk, view: Disk)
    requires Full(b, order, disk, view)
    ensures HeaderLost(b, order, view, 1)
  {
    assert order[0] == 0 && Loose(b, 0);
    assert Holds(b, 0, Head(1));
  }

  lemma RecentIsLast(was: seq<nat>, now: seq<nat>, i: nat)
    requires Recent(was, now, i) && i !in was
    ensures now == was + [i]
  {
  }

  // A new root is put into the header, a page read, and a page asked for.
  method LosesHeader() returns (r: AllocResult)
    ensures r == PastTheEnd
  {
    var head, one := DiskSpace.Header(0, 1, 2), DiskSpace.Node(0, BptPage.BLANK);
    var files := map[Id(1, 0) := DiskSpace.Header(0, 0, 2), Id(1, 1) := one];
    var pool := new Pool(2, files);
    var i := WriteFirst(pool, Id(1, 0), head);
    var j := ReadSecond(pool, Id(1, 1));
    FullInStep(pool.buf[..], pool.order, pool.disk, pool.view);
    FullIsLost(pool.buf[..], pool.order, pool.disk, pool.view);
    r := BufferAllocPage(pool, 1, []);
  }

  method WriteFirst(pool: Pool, id: Id, src: Content) returns (i: int)
    requires pool.Valid() && pool.buf.Length == 2 && !pool.buf[0].used && !pool.buf[1].used && pool.order == []
    requires id in pool.disk && id.table > 0
    modifies pool, pool.buf
    ensures i == 0 && pool.Valid() && pool.order == [0] && pool.disk == old(pool.disk) && pool.view == old(pool.view)[id := src]
    ensures pool.buf[0].used && Of(pool.buf[0]) == id && pool.buf[0].data == src && pool.buf[0].dirty && pool.buf[0].pinned == 0
    ensures !pool.buf[1].used
  {
    ghost var b := pool.buf[..];
    assert !b[0].used;
    i := pool.BufferWritePage(id, src);
    assert SameAt(b, pool.buf[..], 1);
    RecentIsLast([], pool.order, 0);
    assert FrameOk(pool.buf[..], pool.disk, pool.view, 0);
  }

  method ReadSecond(pool: Pool, id: Id) returns (i: int)
    requires pool.Valid() && pool.buf.Length == 2 && pool.buf[0].used && !pool.buf[1].used && pool.order == [0]
    requires id in pool.view && Of(pool.buf[0]) != id
    modifies pool, pool.buf
    ensures i == 1 && pool.Valid() && pool.order == [0, 1] && pool.disk == old(pool.disk) && pool.view == old(pool.view)
    ensures SameFrame(old(pool.buf[0]), pool.buf[0])
    ensures pool.buf[1].used && Of(pool.buf[1]) == id && pool.buf[1].data == pool.view[id]
  {
    ghost var b := pool.buf[..];
    assert !b[1].used && !Holds(b, 0, id) && !Holds(b, 1, id);
    var dest;
    i, dest := pool.BufferReadPage(id);
    assert SameAt(b, pool.buf[..], 0);
    RecentIsLast([0], pool.order, 1);
    assert FrameOk(pool.buf[..], pool.disk, pool.view, 1);
    pool.Unpin(1);
  }
}
