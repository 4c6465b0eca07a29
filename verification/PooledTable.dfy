/** The table of bpt.c on the buffer pool: what its operations ask of the buffers is answered as by a
    map of pages, so the pool holds the tree whatever is given up in between. */
module PooledTable {
  import DiskSpace
  import BptPage
  import opened BptTree
  import opened BptLeaf
  import opened Bpt
  import opened PageCalls
  import opened LruList
  import opened BufferPool
  import opened PagedTables
  import opened PagedStore

  // What the buffers and the disk hold together are the pages of the tree.
  ghost predicate Together(table: Table, pool: Pool, t: nat)
    reads table, pool, pool.buf
  {
    table.Valid() && PagedStore.Holds(pool, t, StoreOf(table.pages, table.root, table.free, table.count))
  }

  // ---------- reads in between ----------

  function ReadsOf(s: Store, xs: seq<nat>): seq<Call> {
    if xs == [] then []
    else ReadsOf(s, xs[..|xs| - 1]) + (if xs[|xs| - 1] in s.pages then [Read(xs[|xs| - 1])] else [])
  }

  // Before call k the pages in seen[k] are read, as far as they are there.
  function WithReads(s: Store, calls: seq<Call>, seen: seq<seq<nat>>): seq<Call> {
    if calls == [] then []
    else
      var n := |calls| - 1;
      WithReads(s, calls[..n], seen) + ReadsOf(After(s, calls[..n]), if n < |seen| then seen[n] else []) + [calls[n]]
  }

  lemma {:induction false} ReadsAllowed(s: Store, calls: seq<Call>, xs: seq<nat>)
    requires AllAllowed(s, calls)
    ensures AllAllowed(s, calls + ReadsOf(After(s, calls), xs))
    ensures After(s, calls + ReadsOf(After(s, calls), xs)) == After(s, calls)
  {
    if xs == [] {
      assert calls + [] == calls;
    } else {
      var n := |xs| - 1;
      ReadsAllowed(s, calls, xs[..n]);
      var before := calls + ReadsOf(After(s, calls), xs[..n]);
      if xs[n] in After(s, calls).pages {
        AllowedMore(s, before, Read(xs[n]));
        assert before + [Read(xs[n])] == calls + ReadsOf(After(s, calls), xs);
      } else {
        assert before == calls + ReadsOf(After(s, calls), xs);
      }
    }
  }

  // Reads change nothing.
  lemma {:induction false} WithReadsAfter(s: Store, calls: seq<Call>, seen: seq<seq<nat>>)
    requires AllAllowed(s, calls)
    ensures AllAllowed(s, WithReads(s, calls, seen)) && After(s, WithReads(s, calls, seen)) == After(s, calls)
  {
    if calls != [] {
      var n := |calls| - 1;
      AllowedBefore(s, calls);
      WithReadsAfter(s, calls[..n], seen);
      ReadsAllowed(s, WithReads(s, calls[..n], seen), if n < |seen| then seen[n] else []);
      AllowedMore(s, WithReads(s, calls[..n], seen) + ReadsOf(After(s, calls[..n]), if n < |seen| then seen[n] else []), calls[n]);
    }
  }

  lemma {:induction false} CountRises(s: Store, calls: seq<Call>, k: nat)
    requires k <= |calls|
    ensures After(s, calls[..k]).count <= After(s, calls).count
    decreases |calls|
  {
    if k < |calls| {
      var n := |calls| - 1;
      assert calls[..n][..k] == calls[..k];
      CountRises(s, calls[..n], k);
    } else {
      assert calls[..k] == calls;
    }
  }

  // A page that is taken with none in the free list makes the file longer.
  lemma CountGrows(s: Store, calls: seq<Call>, k: nat)
    requires k < |calls|
    ensures TakesFromNone(s, calls, k) ==> After(s, calls).count > s.count
  {
    assert calls[..k + 1][..k] == calls[..k] && calls[..0] == [];
    CountRises(s, calls[..k], 0);
    CountRises(s, calls, k + 1);
    assert calls[..k][..0] == [];
  }

  // What an operation on the tree has asked for, with any reads in between.
  method Replay(table: Table, pool: Pool, t: nat, seen: seq<seq<nat>>, s: Store) returns (done: bool)
    requires table.Valid() && table.first == s && PagedStore.Holds(pool, t, s)
    modifies pool, pool.buf
    ensures done ==> Together(table, pool, t)
    ensures done && old(AnyLoose(pool.buf[..], pool.order)) ==> AnyLoose(pool.buf[..], pool.order)
    ensures old(AnyLoose(pool.buf[..], pool.order)) && table.count == s.count ==> done
  {
    MadeAll(s, table.calls, table.pages, table.root, table.free, table.count);
    WithReadsAfter(s, table.calls, seen);
    var calls := WithReads(s, table.calls, seen);
    var answers := ServeAll(pool, t, calls, s);
    done := |answers| == |calls|;
    if |answers| < |calls| {
      CountGrows(s, calls, |answers|);
    }
  }

  // ---------- the three operations ----------

  method DbInsert(table: Table, pool: Pool, t: nat, key: int, val: string, seen: seq<seq<nat>>) returns (ret: int, done: bool)
    requires Together(table, pool, t) && MIN <= key < MAX
    modifies table, pool, pool.buf
    ensures done ==> Together(table, pool, t)
    ensures done && old(AnyLoose(pool.buf[..], pool.order)) ==> AnyLoose(pool.buf[..], pool.order)
    ensures old(AnyLoose(pool.buf[..], pool.order)) && table.count == old(table.count) ==> done
    ensures ret == (if key in old(table.Contents()) then -1 else 0)
    ensures table.Contents() == if key in old(table.Contents()) then old(table.Contents()) else old(table.Contents())[key := val]
  {
    table.Restart();
    ret := table.DbInsert(key, val);
    done := Replay(table, pool, t, seen, table.first);
  }

  method DbDelete(table: Table, pool: Pool, t: nat, key: int, seen: seq<seq<nat>>) returns (ret: int, done: bool)
    requires Together(table, pool, t)
    modifies table, pool, pool.buf
    ensures done ==> Together(table, pool, t)
    ensures old(AnyLoose(pool.buf[..], pool.order)) ==> done && AnyLoose(pool.buf[..], pool.order)
    ensures ret == (if key in old(table.Contents()) then 0 else -1)
    ensures table.Contents() == old(table.Contents()) - {key}
  {
    table.Restart();
    ret := table.DbDelete(key);
    done := Replay(table, pool, t, seen, table.first);
  }

  method GetPage(table: Table, pool: Pool, t: nat, x: nat) returns (ok: bool, page: BptPage.Page)
    requires Together(table, pool, t) && x in table.pages
    modifies pool, pool.buf
    ensures ok ==> Together(table, pool, t) && page == table.pages[x]
    ensures old(AnyLoose(pool.buf[..], pool.order)) ==> ok && AnyLoose(pool.buf[..], pool.order)
  {
    var data;
    ok, data := FetchPage(pool, t, x, StoreOf(table.pages, table.root, table.free, table.count));
    page := if ok then data.rest else BptPage.BLANK;
  }

  method GetRoot(table: Table, pool: Pool, t: nat) returns (ok: bool, root: nat)
    requires Together(table, pool, t)
    modifies pool, pool.buf
    ensures ok ==> Together(table, pool, t) && root == table.root
    ensures old(AnyLoose(pool.buf[..], pool.order)) ==> ok && AnyLoose(pool.buf[..], pool.order)
  {
    var header;
    ok, header := FetchPage(pool, t, 0, StoreOf(table.pages, table.root, table.free, table.count));
    root := if ok then header.root else 0;
  }

  method FindLeaf(table: Table, pool: Pool, t: nat, key: int) returns (ok: bool, p: nat)
    requires Together(table, pool, t)
    modifies pool, pool.buf
    ensures ok ==> Together(table, pool, t) && (p == 0 <==> table.root == 0)
    ensures old(AnyLoose(pool.buf[..], pool.order)) ==> ok && AnyLoose(pool.buf[..], pool.order)
    ensures ok && p != 0 ==> Covers(table.tree, p, Clamped(key)) && p in table.pages && table.pages[p].Leaf?
  {
    ok, p := GetRoot(table, pool, t);
    if !ok || p == 0 {
      return;
    }
    assert Local(table.tree, p);
    var page;
    ok, page := GetPage(table, pool, t, p);
    while ok && page.Node?
      invariant old(AnyLoose(pool.buf[..], pool.order)) ==> ok && AnyLoose(pool.buf[..], pool.order)
      invariant ok ==> Together(table, pool, t) && p in table.pages && page == table.pages[p] && Covers(table.tree, p, Clamped(key))
      decreases if ok then table.tree.info[p].level else -1
    {
      ok, p, page := StepDown(table, pool, t, p, page, key);
    }
  }

  // One page further down.
  method StepDown(table: Table, pool: Pool, t: nat, p: nat, page: BptPage.Page, key: int) returns (ok: bool, q: nat, next: BptPage.Page)
    requires Together(table, pool, t) && p in table.pages && page == table.pages[p] && page.Node? && Covers(table.tree, p, Clamped(key))
    modifies pool, pool.buf
    ensures q in table.pages && Covers(table.tree, q, Clamped(key))
    ensures p in table.tree.info && q in table.tree.info && table.tree.info[q].level < table.tree.info[p].level
    ensures ok ==> Together(table, pool, t) && next == table.pages[q]
    ensures old(AnyLoose(pool.buf[..], pool.order)) ==> ok && AnyLoose(pool.buf[..], pool.order)
  {
    q := KidFor(table.tree, p, page, key);
    ok, next := GetPage(table, pool, t, q);
  }

  method DbFind(table: Table, pool: Pool, t: nat, key: int) returns (ok: bool, ret: int, val: string)
    requires Together(table, pool, t)
    modifies pool, pool.buf
    ensures ok ==> Together(table, pool, t) && ret == (if key in table.Contents() then 0 else -1)
    ensures old(AnyLoose(pool.buf[..], pool.order)) ==> ok && AnyLoose(pool.buf[..], pool.order)
    ensures ok && ret == 0 ==> val == table.Contents()[key]
  {
    ret, val := -1, "";
    var p, page;
    ok, p := FindLeaf(table, pool, t, key);
    if !ok || p == 0 {
      return;
    }
    ok, page := GetPage(table, pool, t, p);
    if !ok {
      return;
    }
    var recs := page.recs;
    LeafHas(table.tree, p, key);
    var i := PlaceOf(recs, key);
    if i < |recs| {
      ret, val := 0, recs[i].val;
    }
  }
}
