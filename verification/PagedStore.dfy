/** What a table's pages are to those who use them, whatever is in which buffer and whatever is given
    up for it: a map from page numbers to contents, a root, and a list of free pages. */
module PagedStore {
  import opened Sequences
  import DiskSpace
  import opened PageCalls
  import opened LruList
  import opened BufferPool
  import opened PagedTables

  // view is what the buffers and the disk hold together.
  ghost predicate IsStore(view: Disk, t: nat, s: Store) {
    && Head(t) in view && view[Head(t)] == DiskSpace.Header(First(s.list), s.root, s.count)
    && (forall x: nat :: Id(t, x) in view && x > 0 <==> x in s.pages)
    && (forall x: nat :: x in s.pages ==> view[Id(t, x)] == s.pages[x])
  }

  ghost predicate Holds(pool: Pool, t: nat, s: Store)
    reads pool, pool.buf
  {
    pool.Valid() && pool.order != [] && InStep(pool.buf[..], pool.disk, pool.view, t, s.list) && IsStore(pool.view, t, s)
  }

  // ---------- reading and writing keep the free list ----------

  lemma HeaderInView(b: seq<Frame>, disk: Disk, view: Disk, t: nat, list: seq<nat>)
    requires Good(b, disk, view, -1) && InStep(b, disk, view, t, list)
    ensures view[Head(t)].Header? && view[Head(t)].free == First(list) && view[Head(t)].count == disk[Head(t)].count
  {
    assert Shown(b, disk, view, Head(t));
    HeadIsFirst(disk, t, list);
    if i :| BufferPool.Holds(b, i, Head(t)) {
      assert FrameOk(b, disk, view, i) && StepOk(b[i], disk, t, list);
    }
  }

  lemma NodeInView(b: seq<Frame>, disk: Disk, view: Disk, t: nat, list: seq<nat>, x: nat)
    requires Good(b, disk, view, -1) && InStep(b, disk, view, t, list) && x > 0 && Id(t, x) in view
    ensures view[Id(t, x)].Node? && x !in list && x < disk[Head(t)].count
  {
    assert Shown(b, disk, view, Id(t, x));
    if i :| BufferPool.Holds(b, i, Id(t, x)) {
      assert FrameOk(b, disk, view, i) && StepOk(b[i], disk, t, list);
    }
  }

  // The data that may be put into a page.
  predicate Fit(data: Content, disk: Disk, t: nat, list: seq<nat>, x: nat)
    requires Head(t) in disk && disk[Head(t)].Header?
  {
    if x == 0 then data.Header? && data.free == disk[Head(t)].free && data.count == disk[Head(t)].count
    else data.Node? && x !in list
  }

  // After a page has been read or written in buffer i.
  lemma UsedInStep(b: seq<Frame>, disk: Disk, view: Disk, t: nat, list: seq<nat>, i: nat, x: nat, c: seq<Frame>, e: Disk, now: Disk)
    requires Good(b, disk, view, -1) && InStep(b, disk, view, t, list) && |b| == |c| && OthersSame(b, c, i)
    requires BufferPool.Holds(c, i, Id(t, x)) && Fit(c[i].data, disk, t, list, x)
    requires e == disk || e == WroteBack(disk, b[i])
    requires forall id :: id in now <==> id in view || id == Id(t, x)
    ensures InStep(c, e, now, t, list)
  {
    assert FrameOk(b, disk, view, i) && StepOk(b[i], disk, t, list);
    WroteBackFile(b[i], disk, t, list);
    forall j | 0 <= j < |c|
      ensures StepOk(c[j], e, t, list)
    {
      assert j != i ==> SameAt(b, c, j);
      assert StepOk(b[j], disk, t, list);
    }
  }

  // ---------- each call does that ----------

  lemma PinnedHolds(b: seq<Frame>, disk: Disk, view: Disk, t: nat, list: seq<nat>, c: seq<Frame>, i: int)
    requires InStep(b, disk, view, t, list) && 0 <= i < |b| == |c| && c == b[i := b[i].(pinned := c[i].pinned)]
    ensures InStep(c, disk, view, t, list)
  {
    forall j | 0 <= j < |c|
      ensures StepOk(c[j], disk, t, list)
    {
      assert StepOk(b[j], disk, t, list);
    }
  }

  lemma TakenIsStore(v: Disk, b: seq<Frame>, disk: Disk, view: Disk, t: nat, s: Store, p: nat)
    requires IsStore(v, t, s) && Advanced(v, b, disk, view, t, s.list, p)
    ensures InStep(b, disk, view, t, Next(s, Take).list) && IsStore(view, t, Next(s, Take)) && NewPage(p) == Reply(s, Take)
    ensures Good(b, disk, view, -1)
  {
  }

  lemma GivenIsStore(v: Disk, t: nat, s: Store, x: nat)
    requires IsStore(v, t, s) && x > 0
    ensures IsStore(Released(v, t, x), t, Next(s, Give(x)))
  {
  }

  lemma WrittenIsStore(v: Disk, t: nat, s: Store, x: nat, data: Content)
    requires IsStore(v, t, s)
    ensures x > 0 ==> IsStore(v[Id(t, x) := data], t, s.(pages := s.pages[x := data]))
    ensures x == 0 && data.Header? && data.free == First(s.list) && data.count == s.count ==>
              IsStore(v[Id(t, x) := data], t, s.(root := data.root))
  {
  }

  method UnpinPage(pool: Pool, t: nat, i: nat, ghost s: Store)
    requires Holds(pool, t, s) && i < pool.buf.Length && pool.buf[i].pinned > 0
    modifies pool.buf
    ensures Holds(pool, t, s) && pool.buf[..] == old(pool.buf[..])[i := old(pool.buf[i]).(pinned := old(pool.buf[i].pinned) - 1)]
  {
    ghost var b := pool.buf[..];
    pool.Unpin(i);
    PinnedHolds(b, pool.disk, pool.view, t, s.list, pool.buf[..], i);
  }

  // Buffer i, which had the page or no pin, has been used, and has one pin more than it had.
  ghost predicate UsedOnce(b: seq<Frame>, order: seq<nat>, c: seq<Frame>, now: seq<nat>, i: int, pins: int) {
    && OthersSame(b, c, i) && 0 <= i < |b| && Recent(order, now, i)
    && (b[i].pinned == 0 ==> c[i].pinned == pins)
  }

  // Without that pin, whoever was free to be given up still is.
  lemma UsedLoose(b: seq<Frame>, order: seq<nat>, c: seq<Frame>, now: seq<nat>, i: int)
    requires UsedOnce(b, order, c, now, i, 0) && Distinct(order)
    ensures AnyLoose(b, order) ==> AnyLoose(c, now)
  {
    forall j | 0 <= j < |b| && b[j].pinned == 0
      ensures c[j].pinned == 0
    {
      assert j != i ==> SameAt(b, c, j);
    }
    var k :| At(order, k, i) && now == Touched(order, k, i);
    forall x | x in order
      ensures x in now
    {
      StillThere(order, k, i, x);
    }
    LooseStays(b, c, order, now);
  }

  lemma UnpinnedOnce(b: seq<Frame>, order: seq<nat>, c: seq<Frame>, now: seq<nat>, i: int, d: seq<Frame>)
    requires UsedOnce(b, order, c, now, i, 1) && 0 <= i < |c| && d == c[i := c[i].(pinned := c[i].pinned - 1)]
    ensures UsedOnce(b, order, d, now, i, 0)
  {
    forall j | 0 <= j < |b| && j != i
      ensures SameAt(b, d, j)
    {
      assert SameAt(b, c, j);
    }
  }

  method ReadPage(pool: Pool, t: nat, x: nat, ghost s: Store) returns (i: int, data: Content)
    requires Holds(pool, t, s) && (x == 0 || x in s.pages)
    modifies pool`disk, pool`order, pool.buf
    ensures i == -1 <==> !old(pool.Room(Id(t, x)))
    ensures i != -1 ==> Holds(pool, t, s) && data == pool.view[Id(t, x)]
    ensures i != -1 ==> BufferPool.Holds(pool.buf[..], i, Id(t, x)) && pool.buf[i].pinned > 0
    ensures i != -1 ==> UsedOnce(old(pool.buf[..]), old(pool.order), pool.buf[..], pool.order, i, 1)
  {
    ghost var b, d, v := pool.buf[..], pool.disk, pool.view;
    assert Link(b, pool.order, 0);
    Readable(b, d, v, t, s.list, x);
    i, data := pool.BufferReadPage(Id(t, x));
    if i != -1 {
      assert FrameOk(pool.buf[..], pool.disk, pool.view, i);
      assert 0 <= i < |b| && FrameOk(b, d, v, i);
      UsedInStep(b, d, v, t, s.list, i, x, pool.buf[..], pool.disk, v);
    }
  }

  // And lets go of it.
  method FetchPage(pool: Pool, t: nat, x: nat, ghost s: Store) returns (ok: bool, data: Content)
    requires Holds(pool, t, s) && (x == 0 || x in s.pages)
    modifies pool`disk, pool`order, pool.buf
    ensures ok <==> old(pool.Room(Id(t, x)))
    ensures ok ==> Holds(pool, t, s) && data == pool.view[Id(t, x)] && Buffered(pool.buf[..], Id(t, x))
    ensures ok && old(AnyLoose(pool.buf[..], pool.order)) ==> AnyLoose(pool.buf[..], pool.order)
  {
    ghost var b, order := pool.buf[..], pool.order;
    var i;
    i, data := ReadPage(pool, t, x, s);
    ok := i != -1;
    if ok {
      ghost var c := pool.buf[..];
      UnpinPage(pool, t, i, s);
      UnpinnedOnce(b, order, c, pool.order, i, pool.buf[..]);
      UsedLoose(b, order, pool.buf[..], pool.order, i);
      assert BufferPool.Holds(pool.buf[..], i, Id(t, x));
    }
  }

  lemma Readable(b: seq<Frame>, disk: Disk, view: Disk, t: nat, list: seq<nat>, x: nat)
    requires Good(b, disk, view, -1) && InStep(b, disk, view, t, list) && Id(t, x) in view
    ensures Fit(view[Id(t, x)], disk, t, list, x)
  {
    HeaderInView(b, disk, view, t, list);
    HeadIsFirst(disk, t, list);
    if x > 0 {
      NodeInView(b, disk, view, t, list, x);
    }
  }

  lemma Writable(b: seq<Frame>, disk: Disk, view: Disk, t: nat, s: Store, x: nat, data: Content)
    requires Good(b, disk, view, -1) && InStep(b, disk, view, t, s.list) && IsStore(view, t, s)
    requires if x == 0 then data.Header? && data.free == First(s.list) && data.count == s.count
             else x < s.count && x !in s.list && data.Node?
    ensures Fit(data, disk, t, s.list, x) && Id(t, x) in disk
  {
    HeaderInView(b, disk, view, t, s.list);
    HeadIsFirst(disk, t, s.list);
  }

  method WritePage(pool: Pool, t: nat, x: nat, data: Content, ghost s: Store) returns (i: int)
    requires Holds(pool, t, s)
    requires if x == 0 then data.Header? && data.free == First(s.list) && data.count == s.count
             else x < s.count && x !in s.list && data.Node?
    modifies pool`disk, pool`view, pool`order, pool.buf
    ensures i == -1 <==> !old(pool.Room(Id(t, x)))
    ensures i != -1 ==> Holds(pool, t, if x == 0 then s.(root := data.root) else s.(pages := s.pages[x := data]))
    ensures i != -1 && old(AnyLoose(pool.buf[..], pool.order)) ==> AnyLoose(pool.buf[..], pool.order)
  {
    ghost var b, d, v := pool.buf[..], pool.disk, pool.view;
    ghost var order := pool.order;
    assert Link(b, pool.order, 0);
    Writable(b, d, v, t, s, x, data);
    WrittenIsStore(v, t, s, x, data);
    i := pool.BufferWritePage(Id(t, x), data);
    if i != -1 {
      assert FrameOk(pool.buf[..], pool.disk, pool.view, i);
      UsedInStep(b, d, v, t, s.list, i, x, pool.buf[..], pool.disk, pool.view);
      assert UsedOnce(b, order, pool.buf[..], pool.order, i, 0);
      UsedLoose(b, order, pool.buf[..], pool.order, i);
    }
  }

  method SetRootPage(pool: Pool, t: nat, root: nat, ghost s: Store) returns (ok: bool)
    requires Holds(pool, t, s)
    modifies pool, pool.buf
    ensures ok <==> old(pool.Room(Head(t)))
    ensures ok ==> Holds(pool, t, s.(root := root))
    ensures ok && old(AnyLoose(pool.buf[..], pool.order)) ==> AnyLoose(pool.buf[..], pool.order)
  {
    var header;
    ok, header := FetchPage(pool, t, 0, s);
    if ok {
      var i := WritePage(pool, t, 0, header.(root := root), s);
    }
  }

  method TakePage(pool: Pool, t: nat, ghost s: Store) returns (r: AllocResult)
    requires Holds(pool, t, s)
    modifies pool, pool.buf
    ensures r.NeverEnds? ==> !old(AnyLoose(pool.buf[..], pool.order))
    ensures r.PastTheEnd? <==> old(HeaderLost(pool.buf[..], pool.order, pool.view, t))
    ensures r.Page? ==> Holds(pool, t, Next(s, Take)) && NewPage(r.p) == Reply(s, Take)
    ensures r.Page? && old(AnyLoose(pool.buf[..], pool.order)) ==> AnyLoose(pool.buf[..], pool.order)
  {
    ghost var v := pool.view;
    r := BufferAllocPage(pool, t, s.list);
    if r.Page? {
      TakenIsStore(v, pool.buf[..], pool.disk, pool.view, t, s, r.p);
    }
  }

  method GivePage(pool: Pool, t: nat, x: nat, ghost s: Store) returns (ok: bool)
    requires Holds(pool, t, s) && 0 < x < s.count && x !in s.list
    modifies pool, pool.buf
    ensures !ok ==> !old(AnyLoose(pool.buf[..], pool.order))
    ensures ok ==> Holds(pool, t, Next(s, Give(x)))
    ensures ok && old(AnyLoose(pool.buf[..], pool.order)) ==> AnyLoose(pool.buf[..], pool.order)
  {
    HeaderInView(pool.buf[..], pool.disk, pool.view, t, s.list);
    GivenIsStore(pool.view, t, s, x);
    ghost var now := Next(s, Give(x));
    assert now.list == [x] + s.list;
    ok := BufferFreePage(pool, t, x, s.list);
  }

  // Only an empty list has no first page.
  lemma NoneIsEmpty(disk: Disk, t: nat, list: seq<nat>)
    requires FileOk(disk, t, list)
    ensures First(list) == 0 ==> list == []
  {
    if list != [] {
      ListInFile(disk, t, list, list[0]);
    }
  }

  // ---------- sequences of calls ----------

  // The answer is that of the store, unless there is none: the search for a buffer does not end, or
  // the header has been lost.
  method Serve(pool: Pool, t: nat, c: Call, ghost s: Store) returns (a: Answer)
    requires Holds(pool, t, s) && Allowed(s, c)
    modifies pool, pool.buf
    ensures a.NoAnswer? ==> !old(AnyLoose(pool.buf[..], pool.order))
    ensures a.GoneAstray? <==> c.Take? && old(HeaderLost(pool.buf[..], pool.order, pool.view, t))
    ensures !a.NoAnswer? && !a.GoneAstray? ==> a == Reply(s, c) && Holds(pool, t, Next(s, c))
    ensures !a.NoAnswer? && !a.GoneAstray? && old(AnyLoose(pool.buf[..], pool.order)) ==> AnyLoose(pool.buf[..], pool.order)
    ensures a.GoneAstray? ==> s.list == []
  {
    match c
    case Read(x) =>
      var ok, data := FetchPage(pool, t, x, s);
      return if ok then Data(data) else NoAnswer;
    case Write(x, data) =>
      var i := WritePage(pool, t, x, data, s);
      return if i == -1 then NoAnswer else Done;
    case SetRoot(root) =>
      var ok := SetRootPage(pool, t, root, s);
      return if ok then Done else NoAnswer;
    case Take =>
      HeaderInView(pool.buf[..], pool.disk, pool.view, t, s.list);
      NoneIsEmpty(pool.disk, t, s.list);
      var r := TakePage(pool, t, s);
      return match r case NeverEnds => NoAnswer case PastTheEnd => GoneAstray case Page(p) => NewPage(p);
    case Give(x) =>
      var ok := GivePage(pool, t, x, s);
      return if ok then Done else NoAnswer;
  }

  // The call asks for a page with none in the free list.
  ghost predicate TakesFromNone(s: Store, calls: seq<Call>, k: nat) {
    k < |calls| && calls[k].Take? && After(s, calls[..k]).list == []
  }

  // Any calls in any order: as far as they are answered, they are answered as by the store.
  method ServeAll(pool: Pool, t: nat, calls: seq<Call>, ghost s: Store) returns (answers: seq<Answer>)
    requires Holds(pool, t, s) && AllAllowed(s, calls)
    modifies pool, pool.buf
    ensures Answered(s, calls, answers)
    ensures |answers| == |calls| ==> Holds(pool, t, After(s, calls))
    ensures |answers| == |calls| && old(AnyLoose(pool.buf[..], pool.order)) ==> AnyLoose(pool.buf[..], pool.order)
    ensures old(AnyLoose(pool.buf[..], pool.order)) && |answers| < |calls| ==> TakesFromNone(s, calls, |answers|)
  {
    answers := [];
    if calls != [] {
      var n := |calls| - 1;
      AllowedBefore(s, calls);
      answers := ServeAll(pool, t, calls[..n], s);
      AnsweredMore(s, calls, answers);
      if |answers| == n {
        answers := ServeLast(pool, t, calls, answers, s);
      } else {
        TakesBefore(s, calls, |answers|);
      }
    }
  }

  lemma TakesBefore(s: Store, calls: seq<Call>, k: nat)
    requires calls != [] && k < |calls|
    ensures TakesFromNone(s, calls[..|calls| - 1], k) ==> TakesFromNone(s, calls, k)
  {
    if k < |calls| - 1 {
      assert calls[..|calls| - 1][..k] == calls[..k];
    }
  }

  method ServeLast(pool: Pool, t: nat, calls: seq<Call>, answers: seq<Answer>, ghost s: Store) returns (all: seq<Answer>)
    requires calls != [] && AllAllowed(s, calls) && |answers| == |calls| - 1 && Answered(s, calls, answers)
    requires Holds(pool, t, After(s, calls[..|answers|])) && Allowed(After(s, calls[..|answers|]), calls[|answers|])
    modifies pool, pool.buf
    ensures Answered(s, calls, all) && (all == answers || |all| == |calls|)
    ensures |all| == |calls| ==> Holds(pool, t, After(s, calls))
    ensures |all| == |calls| && old(AnyLoose(pool.buf[..], pool.order)) ==> AnyLoose(pool.buf[..], pool.order)
    ensures old(AnyLoose(pool.buf[..], pool.order)) && |all| < |calls| ==> TakesFromNone(s, calls, |answers|)
  {
    var n := |calls| - 1;
    all := answers;
    var a := Serve(pool, t, calls[n], After(s, calls[..n]));
    if !a.NoAnswer? && !a.GoneAstray? {
      all := answers + [a];
      assert AllowedAt(s, calls, n);
      AnsweredOne(s, calls, answers, a);
    }
  }

  // A new table.
  method NewTable(pool: Pool, t: nat) returns (i: int)
    requires pool.Valid() && pool.buf.Length > 0 && t > 0 && forall x: nat :: Id(t, x) !in pool.disk
    modifies pool, pool.buf
    ensures i == -1 <==> !old(pool.Room(Head(t)))
    ensures i != -1 ==> Holds(pool, t, Store(map[], 0, [], 1))
  {
    ghost var b, d, v := pool.buf[..], pool.disk, pool.view;
    i := pool.StartTable(t, DiskSpace.Header(0, 0, 1));
    if i != -1 {
      assert 0 <= i < |b| && FrameOk(b, d, v, i);
      NewInStep(b, d, pool.buf[..], pool.disk, pool.view, t, i);
      NothingElse(b, d, v, t);
    }
  }

  lemma NothingElse(b: seq<Frame>, d: Disk, v: Disk, t: nat)
    requires Good(b, d, v, -1) && forall x: nat :: Id(t, x) !in d
    ensures forall x: nat :: Id(t, x) !in v
  {
    forall x: nat
      ensures Id(t, x) !in v
    {
      assert Shown(b, d, v, Id(t, x));
    }
  }

  lemma NewInStep(b: seq<Frame>, d: Disk, c: seq<Frame>, e: Disk, view: Disk, t: nat, i: int)
    requires t > 0 && (forall x: nat :: Id(t, x) !in d) && 0 <= i < |b| == |c|
    requires (b[i].used ==> Of(b[i]) in d) && e == WroteBack(d, b[i])[Head(t) := DiskSpace.Header(0, 0, 1)]
    requires Good(c, e, view, -1) && Head(t) in view && BufferPool.Holds(c, i, Head(t)) && view[Head(t)] == DiskSpace.Header(0, 0, 1)
    ensures InStep(c, e, view, t, [])
  {
    forall j | 0 <= j < |c|
      ensures StepOk(c[j], e, t, [])
    {
      assert FrameOk(c, e, view, j);
      if c[j].used && c[j].table == t {
        assert Of(c[j]) == Id(t, c[j].page);
      }
    }
  }
}
