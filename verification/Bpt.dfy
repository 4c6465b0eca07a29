/** The table of bpt.c: a file of pages, of which the tree uses some and the free list keeps
    the others. */
module Bpt {
  import opened BptPage
  import opened BptTree
  import opened BptSplit
  import opened BptMerge
  import opened BptRoot
  import opened BptLeaf
  import opened BptShare
  import opened PageCalls
  import DiskSpace
  import Sequences

  function Cut(length: nat): nat {
    if length % 2 == 0 then length / 2 else length / 2 + 1
  }

  // Half of a length, rounded up.
  lemma CutExactly(length: nat, half: nat)
    ensures half == Cut(length) <==> length <= 2 * half <= length + 1
  {
  }

  // A key stored in an int.
  function ToInt(key: int): int {
    (key + 0x8000_0000) % 0x1_0000_0000 - 0x8000_0000
  }

  // The one int that differs from it by a multiple of 2^32.
  lemma ToIntExactly(key: int, n: int)
    ensures n == ToInt(key) <==> -0x8000_0000 <= n < 0x8000_0000 && (key - n) % 0x1_0000_0000 == 0
  {
    if -0x8000_0000 <= n < 0x8000_0000 && (key - n) % 0x1_0000_0000 == 0 {
      var q := (key - n) / 0x1_0000_0000;
      assert key + 0x8000_0000 == q * 0x1_0000_0000 + (n + 0x8000_0000);
    }
  }

  lemma SeparatorKept(key: int)
    ensures ToInt(key) == key <==> MIN <= key < MAX
  {
  }

  // Beyond 32 bits a split misleads: every key of the left half is sought in the right one.
  lemma WideKeysMislead(p: Page, c: nat, j: nat)
    requires p.Leaf? && Ascending(Keys(p.recs)) && Cuttable(p, c) && j < c
    requires forall i :: 0 <= i < |p.recs| ==> 0x8000_0000 <= p.recs[i].key < 0x1_0000_0000
    ensures p.recs[j].key >= ToInt(Sep(p, c)) && p.recs[j].key !in Records(RightHalf(p, c).recs)
  {
    assert Before(Keys(p.recs), j, c);
    NotInHalf(p.recs, c, p.recs[j].key);
  }

  // ---------- what a page has room for ----------

  predicate Fits(p: Page) {
    match p
    case Leaf(_, recs, _) => 0 < |recs| < LEAF_ORDER
    case Node(_, keys, _) => 0 < |keys| < INTERNAL_ORDER
  }

  predicate Sized(pages: Pages) {
    forall x :: x in pages ==> Fits(pages[x])
  }

  // ---------- where the pages are ----------

  // Each page of the file but the header is in use or in the free list, and once.
  predicate Stored(pages: Pages, free: seq<nat>, count: nat) {
    && Sequences.Distinct(free)
    && (forall x :: x in pages ==> 0 < x < count && x !in free)
    && (forall x :: x in free ==> 0 < x < count)
    && (forall x :: 0 < x < count ==> x in pages || x in free)
    && count > 0
  }

  // The page that is handed out next.
  predicate HandsOut(free: seq<nat>, count: nat, n: nat) {
    n == if free == [] then count else free[0]
  }

  // ---------- what is asked of the buffers ----------

  // A page as it is written: its parent is its first word.
  function Image(p: Page): DiskSpace.Content {
    DiskSpace.Node(p.parent, p)
  }

  function StoreOf(pages: Pages, root: nat, free: seq<nat>, count: nat): Store {
    Store(map x | x in pages :: Image(pages[x]), root, free, count)
  }

  // The store has these pages, but for new ones that have not been written yet.
  predicate Shows(s: Store, pages: Pages, root: nat, free: seq<nat>, count: nat) {
    && s.root == root && s.list == free && s.count == count
    && (forall x :: x in s.pages ==> x in pages && s.pages[x] == Image(pages[x]))
    && (forall x :: x in pages && x !in s.pages ==> pages[x] == BLANK)
  }

  ghost predicate Comes(first: Store, calls: seq<Call>, now: Store) {
    AllAllowed(first, calls) && now == After(first, calls)
  }

  // The calls, made of the store first, have come to this.
  ghost predicate Made(first: Store, calls: seq<Call>, pages: Pages, root: nat, free: seq<nat>, count: nat) {
    exists now :: Comes(first, calls, now) && Stored(pages, free, count) && Shows(now, pages, root, free, count)
  }

  lemma MadeAll(first: Store, calls: seq<Call>, pages: Pages, root: nat, free: seq<nat>, count: nat)
    requires Made(first, calls, pages, root, free, count) && Sized(pages)
    ensures AllAllowed(first, calls) && After(first, calls) == StoreOf(pages, root, free, count)
    ensures Stored(pages, free, count)
  {
    assert After(first, calls).pages == StoreOf(pages, root, free, count).pages;
  }

  lemma PageWritten(first: Store, calls: seq<Call>, pages: Pages, root: nat, free: seq<nat>, count: nat, x: nat, p: Page)
    requires Made(first, calls, pages, root, free, count) && x in pages
    ensures Made(first, calls + [Write(x, Image(p))], pages[x := p], root, free, count)
  {
    var now :| Comes(first, calls, now) && Stored(pages, free, count) && Shows(now, pages, root, free, count);
    AllowedMore(first, calls, Write(x, Image(p)));
    var after := PageCalls.Next(now, Write(x, Image(p)));
    WriteShows(now, pages, root, free, count, x, p);
    assert Comes(first, calls + [Write(x, Image(p))], after);
  }

  lemma WriteShows(now: Store, pages: Pages, root: nat, free: seq<nat>, count: nat, x: nat, p: Page)
    requires Stored(pages, free, count) && Shows(now, pages, root, free, count) && x in pages
    ensures Stored(pages[x := p], free, count) && Shows(PageCalls.Next(now, Write(x, Image(p))), pages[x := p], root, free, count)
  {
  }

  lemma RootChanged(first: Store, calls: seq<Call>, pages: Pages, root: nat, free: seq<nat>, count: nat, r: nat)
    requires Made(first, calls, pages, root, free, count)
    ensures Made(first, calls + [SetRoot(r)], pages, r, free, count)
  {
    var now :| Comes(first, calls, now) && Stored(pages, free, count) && Shows(now, pages, root, free, count);
    AllowedMore(first, calls, SetRoot(r));
    var after := PageCalls.Next(now, SetRoot(r));
    assert Comes(first, calls + [SetRoot(r)], after);
  }

  lemma PageGiven(first: Store, calls: seq<Call>, pages: Pages, root: nat, free: seq<nat>, count: nat, n: nat)
    requires Made(first, calls, pages, root, free, count) && n in pages
    ensures Made(first, calls + [Give(n)], pages - {n}, root, [n] + free, count)
  {
    var now :| Comes(first, calls, now) && Stored(pages, free, count) && Shows(now, pages, root, free, count);
    AllowedMore(first, calls, Give(n));
    var after := PageCalls.Next(now, Give(n));
    GiveShows(now, pages, root, free, count, n);
    assert Comes(first, calls + [Give(n)], after);
  }

  lemma GiveShows(now: Store, pages: Pages, root: nat, free: seq<nat>, count: nat, n: nat)
    requires Stored(pages, free, count) && Shows(now, pages, root, free, count) && n in pages
    ensures Stored(pages - {n}, [n] + free, count) && Shows(PageCalls.Next(now, Give(n)), pages - {n}, root, [n] + free, count)
  {
  }

  lemma PageTaken(first: Store, calls: seq<Call>, pages: Pages, root: nat, free: seq<nat>, count: nat)
    requires Made(first, calls, pages, root, free, count)
    ensures var n := if free == [] then count else free[0];
            && n !in pages && n != 0
            && Made(first, calls + [Take], pages[n := BLANK], root, DiskSpace.ListAfter(free, count), if free == [] then count + 100 else count)
  {
    var now :| Comes(first, calls, now) && Stored(pages, free, count) && Shows(now, pages, root, free, count);
    AllowedMore(first, calls, Take);
    var after := PageCalls.Next(now, Take);
    assert Comes(first, calls + [Take], after);
    TakenStored(pages, free, count);
  }

  lemma TakenStored(pages: Pages, free: seq<nat>, count: nat)
    requires Stored(pages, free, count)
    ensures var n := if free == [] then count else free[0];
            n !in pages && n != 0 && Stored(pages[n := BLANK], DiskSpace.ListAfter(free, count), if free == [] then count + 100 else count)
  {
    var list := DiskSpace.ListAfter(free, count);
    if free == [] {
      forall x | count < x < count + 100
        ensures x in list
      {
        assert list[x - count - 1] == x;
      }
    } else {
      assert free == [free[0]] + list;
      assert free[0] in free && free[0] !in list && forall x :: x in list ==> x in free;
    }
  }

  // ---------- loops over a page's array ----------

  method InsertAt<T>(a: seq<T>, i: nat, x: T) returns (b: seq<T>)
    requires i <= |a|
    ensures b == a[..i] + [x] + a[i..]
  {
    b := a + [x];
    var j := |a|;
    while j > i
      invariant i <= j <= |a| == |b| - 1
      invariant b[..j] == a[..j] && b[j + 1..] == a[j..]
    {
      b := b[j := b[j - 1]];
      j := j - 1;
    }
    b := b[i := x];
  }

  method RemoveAt<T>(a: seq<T>, i: nat) returns (b: seq<T>)
    requires i < |a|
    ensures b == a[..i] + a[i + 1..]
  {
    b := a;
    var j := i + 1;
    while j < |a|
      invariant i < j <= |a| == |b|
      invariant forall k :: 0 <= k < |a| ==> b[k] == a[if i <= k < j - 1 then k + 1 else k]
    {
      b := b[j - 1 := b[j]];
      j := j + 1;
    }
    b := b[..|a| - 1];
  }

  // The kid of page p whose range has the key.
  method KidFor(ghost s: Tree, p: nat, page: Page, key: int) returns (q: nat)
    requires p in s.pages && page == s.pages[p] && page.Node? && page.keys != [] && Covers(s, p, Clamped(key))
    ensures q in s.pages && Covers(s, q, Clamped(key)) && p in s.info && q in s.info && s.info[q].level < s.info[p].level
  {
    assert Local(s, p);
    var i := 0;
    if key >= page.keys[0] {
      i := 1;
      while i < |page.keys| && key >= page.keys[i]
        invariant 1 <= i <= |page.keys| && page.keys[i - 1] <= Clamped(key)
      {
        i := i + 1;
      }
    }
    KidFacts(s, p, i);
    q := page.kids[i];
  }

  method PlaceOf(recs: seq<Rec>, key: int) returns (i: nat)
    ensures i <= |recs| && (i < |recs| ==> recs[i].key == key) && forall j :: 0 <= j < i ==> recs[j].key != key
  {
    i := 0;
    while i < |recs| && recs[i].key != key
      invariant i <= |recs| && forall j :: 0 <= j < i ==> recs[j].key != key
    {
      i := i + 1;
    }
  }

  class Table {
    var pages: Pages
    var root: nat
    var free: seq<nat>
    var count: nat
    ghost var tree: Tree
    // What has been asked of the buffers since they held the store first.
    var first: Store
    var calls: seq<Call>

    ghost predicate Valid()
      reads this
    {
      tree.pages == pages && tree.root == root && Sized(pages) && Kept()
    }

    ghost predicate Kept()
      reads this`pages, this`root, this`free, this`count, this`first, this`calls
    {
      Made(first, calls, pages, root, free, count)
    }

    ghost function Contents(): map<int, string>
      reads this
    {
      tree.contents
    }

    constructor ()
      ensures Valid() && Contents() == map[] && root == 0 && calls == [] && first == Store(map[], 0, [], 1)
    {
      pages, root, free, count := map[], 0, [], 1;
      first, calls := Store(map[], 0, [], 1), [];
      assert Comes(Store(map[], 0, [], 1), [], Store(map[], 0, [], 1));
      NoTree();
      tree := State(map[], 0, map[], map[]);
    }

    // From here on the calls are counted anew.
    method Restart()
      requires Valid()
      modifies this`first, this`calls
      ensures Valid() && calls == [] && first == StoreOf(pages, root, free, count)
    {
      first, calls := StoreOf(pages, root, free, count), [];
    }

    // ---------- pages in and out of use ----------

    method Alloc() returns (n: nat)
      requires Kept()
      modifies this`pages, this`free, this`count, this`calls
      ensures n !in old(pages) && n != 0 && pages == old(pages)[n := BLANK] && Kept()
      ensures HandsOut(old(free), old(count), n) && free == DiskSpace.ListAfter(old(free), old(count))
    {
      PageTaken(first, calls, pages, root, free, count);
      calls := calls + [Take];
      if free == [] {
        n := count;
        free := DiskSpace.Run(count + 1, 99);
        count := count + 100;
      } else {
        n := free[0];
        free := free[1..];
      }
      pages := pages[n := BLANK];
    }

    method Free(n: nat)
      requires Kept() && n in pages
      modifies this`pages, this`free, this`calls
      ensures pages == old(pages) - {n} && free == [n] + old(free) && Kept()
    {
      PageGiven(first, calls, pages, root, free, count, n);
      calls := calls + [Give(n)];
      free := [n] + free;
      pages := pages - {n};
    }

    method WritePage(x: nat, p: Page)
      requires Kept() && x in pages
      modifies this`pages, this`calls
      ensures pages == old(pages)[x := p] && Kept()
    {
      PageWritten(first, calls, pages, root, free, count, x, p);
      calls := calls + [Write(x, Image(p))];
      pages := pages[x := p];
    }

    method ChangeRoot(r: nat)
      requires Kept()
      modifies this`root, this`calls
      ensures root == r && Kept()
    {
      RootChanged(first, calls, pages, root, free, count, r);
      calls := calls + [SetRoot(r)];
      root := r;
    }

    // ---------- find ----------

    method FindLeaf(key: int) returns (p: nat)
      requires Valid()
      ensures root == 0 ==> p == 0
      ensures root != 0 ==> p != 0 && Covers(tree, p, Clamped(key)) && p in pages && pages[p].Leaf?
    {
      if root == 0 {
        return 0;
      }
      p := root;
      assert Local(tree, p);
      while pages[p].Node?
        invariant p in pages && Covers(tree, p, Clamped(key))
        decreases tree.info[p].level
      {
        p := KidFor(tree, p, pages[p], key);
      }
    }

    method DbFind(key: int) returns (ret: int, val: string)
      requires Valid()
      ensures ret == (if key in Contents() then 0 else -1)
      ensures ret == 0 ==> val == Contents()[key]
    {
      val := "";
      var p := FindLeaf(key);
      if p == 0 {
        return -1, val;
      }
      var recs := pages[p].recs;
      LeafHas(tree, p, key);
      var i := PlaceOf(recs, key);
      if i == |recs| {
        return -1, val;
      }
      return 0, recs[i].val;
    }

    // ---------- insert ----------

    method InsertIntoLeaf(p: nat, rec: Rec)
      requires Valid() && Covers(tree, p, rec.key) && pages[p].Leaf? && rec.key !in Contents() && |pages[p].recs| < LEAF_ORDER - 1
      modifies this`pages, this`tree, this`calls
      ensures Valid() && Contents() == old(Contents())[rec.key := rec.val]
    {
      var i, recs := FindPlace(p, rec);
      PutKeeps(tree, p, i, rec);
      tree := WithRecs(tree, p, recs, tree.contents[rec.key := rec.val]);
      WritePage(p, pages[p].(recs := recs));
    }

    // The records of a leaf and one more, where it belongs.
    method FindPlace(p: nat, rec: Rec) returns (i: nat, recs: seq<Rec>)
      requires Valid() && Covers(tree, p, rec.key) && pages[p].Leaf? && rec.key !in Contents()
      ensures Place(pages[p].recs, i, rec.key) && recs == Put(pages[p].recs, i, rec)
    {
      var page := pages[p];
      i := 0;
      while i < |page.recs| && page.recs[i].key < rec.key
        invariant i <= |page.recs| && forall j :: 0 <= j < i ==> page.recs[j].key < rec.key
      {
        i := i + 1;
      }
      PlaceFound(tree, p, i, rec.key);
      recs := InsertAt(page.recs, i, rec);
    }

    method InsertIntoLeafAfterSplitting(p: nat, rec: Rec)
      requires Valid() && Covers(tree, p, rec.key) && pages[p].Leaf? && rec.key !in Contents() && |pages[p].recs| == LEAF_ORDER - 1
      modifies this`pages, this`root, this`free, this`count, this`tree, this`calls
      ensures Valid() && Contents() == old(Contents())[rec.key := rec.val]
    {
      var i, temp := FindPlace(p, rec);
      ghost var contents := tree.contents[rec.key := rec.val];
      PutKeeps(tree, p, i, rec);
      ghost var s: Tree := WithRecs(tree, p, temp, contents);
      LeafHalves(tree, s, p, temp);
      var n, key := CutLeaf(p, temp);
      HalvedLeaf(tree, s, p, temp, n);
      InsertIntoParent(s, p, n, 16, key);
    }

    // Sixteen of the records stay in the leaf, sixteen go to a new one at its right.
    method CutLeaf(p: nat, temp: seq<Rec>) returns (n: nat, key: int)
      requires p in pages && pages[p].Leaf? && |temp| == LEAF_ORDER && Sized(pages) && Kept()
      modifies this`pages, this`free, this`count, this`calls
      ensures n !in old(pages) && n != 0 && key == ToInt(temp[16].key) && Sized(pages) && Kept()
      ensures pages == old(pages)[p := old(pages)[p].(recs := temp[..16], right := n)][n := old(pages)[p].(recs := temp[16..])]
    {
      n := Alloc();
      var split := Cut(LEAF_ORDER - 1);
      assert split == 16;
      var page := pages[p];
      key := ToInt(temp[split].key);
      WriteHalves(p, page.(recs := temp[..split], right := n), n, page.(recs := temp[split..]));
      OverBlank(old(pages), n, p, page.(recs := temp[..split], right := n), page.(recs := temp[split..]));
    }

    method GetInsertionIndex(q: nat, child: nat) returns (i: nat)
      requires q in pages && pages[q].Node? && |pages[q].kids| == |pages[q].keys| + 1 && child in pages[q].kids
      ensures i < |pages[q].kids| && pages[q].kids[i] == child
    {
      var page := pages[q];
      if page.kids[0] == child {
        return 0;
      }
      i := 0;
      while i < |page.keys| && page.kids[i + 1] != child
        invariant i <= |page.keys| && forall j :: 0 <= j <= i ==> page.kids[j] != child
      {
        i := i + 1;
      }
      i := i + 1;
    }

    // The page x of the tree s has just been cut at c: its right half is page n, but no parent knows it.
    method InsertIntoParent(ghost s: Tree, x: nat, n: nat, ghost c: nat, key: int)
      requires x in s.pages && x in s.info && s.root in s.info && Cuttable(s.pages[x], c) && key == Sep(s.pages[x], c) && n !in s.pages && n != 0
      requires pages == Halved(s.pages, x, n, c) && root == s.root && Sized(pages) && Kept()
      modifies this`pages, this`root, this`free, this`count, this`tree, this`calls
      ensures Valid() && Contents() == s.contents
      decreases s.info[s.root].level - s.info[x].level, 0
    {
      var q := pages[x].parent;
      assert q == s.pages[x].parent;
      if q == 0 {
        InsertIntoNewRoot(s, x, n, c, key);
        return;
      }
      ParentOf(s, x);
      HalvedParent(s, x, n, c, q);
      var i := GetInsertionIndex(q, x);
      ghost var t := Split(s, q, i, n, c);
      SplitKeeps(s, q, i, n, c);
      Admit(t, q, i, key, n);
    }

    // The new kid n, right of kid i of q, is known in the tree t.
    method Admit(ghost t: Tree, q: nat, i: nat, key: int, n: nat)
      requires q in pages && pages[q].Node? && i < |pages[q].kids| == |pages[q].keys| + 1
      requires q in t.info && t.root in t.info && root == t.root && t.pages == pages[q := Entered(pages[q], i, key, n)]
      requires Sized(pages) && Kept()
      modifies this`pages, this`root, this`free, this`count, this`tree, this`calls
      ensures Valid() && Contents() == t.contents
      decreases t.info[t.root].level - t.info[q].level, 2
    {
      if |pages[q].keys| < INTERNAL_ORDER - 1 {
        InsertIntoInternal(q, i, key, n);
        tree := t;
      } else {
        InsertIntoInternalAfterSplitting(t, q, i, key, n);
      }
    }

    method InsertIntoInternal(q: nat, i: nat, key: int, n: nat)
      requires q in pages && pages[q].Node? && i < |pages[q].kids| == |pages[q].keys| + 1 && |pages[q].keys| < INTERNAL_ORDER - 1
      requires Sized(pages) && Kept()
      modifies this`pages, this`calls
      ensures pages == old(pages)[q := Entered(old(pages)[q], i, key, n)]
      ensures Sized(pages) && Kept()
    {
      var keys := InsertAt(pages[q].keys, i, key);
      var kids := InsertAt(pages[q].kids, i + 1, n);
      WritePage(q, pages[q].(keys := keys, kids := kids));
    }

    method InsertIntoNewRoot(ghost s: Tree, x: nat, n: nat, ghost c: nat, key: int)
      requires x in s.pages && s.pages[x].parent == 0 && Cuttable(s.pages[x], c) && key == Sep(s.pages[x], c) && n !in s.pages && n != 0
      requires pages == Halved(s.pages, x, n, c) && root == s.root && Sized(pages) && Kept()
      modifies this`pages, this`root, this`free, this`count, this`tree, this`calls
      ensures Valid() && Contents() == s.contents
    {
      NoParent(s, x);
      var r := MakeRoot(x, key, n);
      NewRootKeeps(s, n, c, r);
      tree := Split(Raise(s, r), r, 0, n, c);
    }

    method MakeRoot(x: nat, key: int, n: nat) returns (r: nat)
      requires x in pages && n in pages && x != n && Sized(pages) && Kept()
      modifies this`pages, this`root, this`free, this`count, this`calls
      ensures r !in old(pages) && r != 0 && root == r && Sized(pages) && Kept()
      ensures pages == old(pages)[x := old(pages)[x].(parent := r)][n := old(pages)[n].(parent := r)][r := Node(0, [key], [x, n])]
    {
      r := Alloc();
      var left, right := pages[x].(parent := r), pages[n].(parent := r);
      WritePages(x, left, n, right, r, Node(0, [key], [x, n]));
      ChangeRoot(r);
      OverBlankToo(old(pages), r, x, left, n, right, Node(0, [key], [x, n]));
    }

    // The new kid n, right of kid i, has no room in q; t is the tree as if it had.
    method InsertIntoInternalAfterSplitting(ghost t: Tree, q: nat, i: nat, key: int, n: nat)
      requires q in pages && pages[q].Node? && i < |pages[q].kids| == |pages[q].keys| + 1 && |pages[q].keys| == INTERNAL_ORDER - 1
      requires q in t.info && t.root in t.info && root == t.root && t.pages == pages[q := Entered(pages[q], i, key, n)]
      requires Sized(pages) && Kept()
      modifies this`pages, this`root, this`free, this`count, this`tree, this`calls
      ensures Valid() && Contents() == t.contents
      decreases t.info[t.root].level - t.info[q].level, 1
    {
      KidsThere(t, q, Cut(INTERNAL_ORDER));
      ghost var was := pages;
      var added, kPrime := SplitInternal(q, i, key, n);
      SepInRange(t, q, Cut(INTERNAL_ORDER) - 1);
      EnteredHalves(was, q, t.pages[q], Cut(INTERNAL_ORDER), added);
      InsertIntoParent(t, q, added, Cut(INTERNAL_ORDER) - 1, kPrime);
    }

    method SplitInternal(q: nat, i: nat, key: int, n: nat) returns (added: nat, kPrime: int)
      requires q in pages && pages[q].Node? && i < |pages[q].kids| == |pages[q].keys| + 1 && |pages[q].keys| == INTERNAL_ORDER - 1
      requires Sized(pages) && Kept()
      requires forall k :: k in Entered(pages[q], i, key, n).kids[Cut(INTERNAL_ORDER)..] ==> k in pages
      modifies this`pages, this`free, this`count, this`calls
      ensures added !in old(pages) && added != 0 && Sized(pages) && Kept()
      ensures var e, split := Entered(old(pages)[q], i, key, n), Cut(INTERNAL_ORDER);
              && kPrime == ToInt(e.keys[split - 1])
              && pages == Adopted(old(pages), e.kids[split..], added)[q := Node(e.parent, e.keys[..split - 1], e.kids[..split])]
                                                                    [added := Node(e.parent, e.keys[split..], e.kids[split..])]
    {
      var page := pages[q];
      added := Alloc();
      var keys := InsertAt(page.keys, i, key);
      var kids := InsertAt(page.kids, i + 1, n);
      var split := Cut(INTERNAL_ORDER);
      kPrime := ToInt(keys[split - 1]);
      AdoptKids(kids[split..], added);
      var left, right := Node(page.parent, keys[..split - 1], kids[..split]), Node(page.parent, keys[split..], kids[split..]);
      AdoptedBlank(old(pages), kids[split..], added, q, left, right);
      WriteHalves(q, left, added, right);
    }

    method WriteHalves(q: nat, left: Page, n: nat, right: Page)
      requires q in pages && n in pages && q != n && Fits(left) && Fits(right) && Kept()
      requires forall x :: x in pages && x != n ==> Fits(pages[x])
      modifies this`pages, this`calls
      ensures pages == old(pages)[q := left][n := right] && Sized(pages) && Kept()
    {
      WritePage(q, left);
      WritePage(n, right);
    }

    // The pages in kids get a new parent, one after the other.
    method AdoptKids(kids: seq<nat>, n: nat)
      requires (forall k :: k in kids ==> k in pages) && Kept()
      modifies this`pages, this`calls
      ensures pages == Adopted(old(pages), kids, n) && Kept()
      ensures forall x :: x in old(pages) && Fits(old(pages)[x]) ==> x in pages && Fits(pages[x])
    {
      var i := 0;
      while i < |kids|
        invariant i <= |kids| && pages == Adopted(old(pages), kids[..i], n) && Kept()
      {
        WritePage(kids[i], pages[kids[i]].(parent := n));
        i := i + 1;
      }
      assert kids[..i] == kids;
    }

    method StartNewTree(rec: Rec)
      requires Valid() && root == 0 && MIN <= rec.key < MAX
      modifies this`pages, this`root, this`free, this`count, this`tree, this`calls
      ensures Valid() && Contents() == map[rec.key := rec.val]
    {
      var r := Alloc();
      WritePage(r, Leaf(0, [rec], 0));
      ChangeRoot(r);
      FirstKeeps(r, rec);
      tree := First(r, rec);
    }

    method DbInsert(key: int, val: string) returns (ret: int)
      requires Valid() && MIN <= key < MAX
      modifies this`pages, this`root, this`free, this`count, this`tree, this`calls
      ensures Valid() && ret == (if key in old(Contents()) then -1 else 0)
      ensures Contents() == if key in old(Contents()) then old(Contents()) else old(Contents())[key := val]
    {
      var found, _ := DbFind(key);
      if found == 0 {
        return -1;
      }
      ret := 0;
      var rec := Rec(key, val);
      if root == 0 {
        StartNewTree(rec);
        return;
      }
      var p := FindLeaf(key);
      assert Local(tree, p);
      if |pages[p].recs| < LEAF_ORDER - 1 {
        InsertIntoLeaf(p, rec);
      } else {
        InsertIntoLeafAfterSplitting(p, rec);
      }
    }

    // ---------- delete ----------

    // -2 if the page is the first kid, otherwise the number of the entry before the one before it.
    method GetNeighborIndex(q: nat, t: nat, ghost j: nat) returns (r: int)
      requires q in pages && pages[q].Node? && j < |pages[q].kids| == |pages[q].keys| + 1 && pages[q].kids[j] == t
      requires forall k :: 0 <= k < |pages[q].kids| && pages[q].kids[k] == t ==> k == j
      ensures r == j - 2
    {
      var page := pages[q];
      if page.kids[0] == t {
        return -2;
      }
      var i := 0;
      while page.kids[i + 1] != t
        invariant i < |page.keys| && i + 1 <= j
        decreases j - i
      {
        i := i + 1;
      }
      return i - 1;
    }

    // The neighbour, and the place of the separator in front of the right one of the two.
    method Neighbour(parent: Page, ni: int) returns (k: nat, nb: nat)
      requires parent.Node? && |parent.kids| == |parent.keys| + 1 && -2 <= ni && ni + 1 < |parent.keys| && |parent.keys| > 0
      ensures k == (if ni < 0 then 0 else ni + 1) && nb == if ni == -2 then parent.kids[1] else parent.kids[ni + 1]
    {
      k := if ni == -2 || ni == -1 then 0 else ni + 1;
      nb := if ni == -2 then parent.kids[1] else if ni == -1 then parent.kids[0] else parent.kids[ni + 1];
    }

    method RemoveEntryFromPage(t: nat, key: int, ghost i: nat)
      requires t in pages && HasEntry(pages[t], i, key) && Kept()
      modifies this`pages, this`calls
      ensures pages == old(pages)[t := Less(old(pages)[t], i)] && Kept()
    {
      var page := pages[t];
      FirstEntry(page, i, key);
      var j := 0;
      if page.Leaf? {
        while page.recs[j].key != key
          invariant 0 <= j <= i
          decreases i - j
        {
          j := j + 1;
        }
        var recs := RemoveAt(page.recs, j);
        WritePage(t, page.(recs := recs));
      } else {
        while page.keys[j] != key
          invariant 0 <= j <= i
          decreases i - j
        {
          j := j + 1;
        }
        var keys := RemoveAt(page.keys, j);
        var kids := RemoveAt(page.kids, j + 1);
        WritePage(t, page.(keys := keys, kids := kids));
      }
    }

    // Without the entry of page t for key, the pages are those of the tree s.
    method DeleteEntry(ghost s: Tree, t: nat, ghost i: nat, key: int)
      requires t in pages && HasEntry(pages[t], i, key) && s.pages == pages[t := Less(pages[t], i)]
      requires root == s.root && s.root in s.info && t in s.info && Sized(pages) && Kept()
      modifies this`pages, this`root, this`free, this`tree, this`calls
      ensures Valid() && Contents() == s.contents
      decreases s.info[s.root].level - s.info[t].level, 2
    {
      RemoveEntryFromPage(t, key, i);
      if t == root {
        AdjustRoot(s);
      } else if Count(pages[t]) >= 1 {
        tree := s;
      } else {
        FillUp(s, t);
      }
    }

    // Page t is empty, and not the root: its place or something to have comes from a neighbour.
    method FillUp(ghost s: Tree, t: nat)
      requires pages == s.pages && root == s.root && s.root in s.info && t in s.info && Kept()
      requires t in pages && t != root && Count(pages[t]) == 0 && forall x :: x in pages && x != t ==> Fits(pages[x])
      modifies this`pages, this`root, this`free, this`tree, this`calls
      ensures Valid() && Contents() == s.contents
      decreases s.info[s.root].level - s.info[t].level, 1
    {
      NotRoot(s, t);
      ghost var j := Slot(s, t);
      var q := pages[t].parent;
      ParentOf(s, t);
      assert Fits(pages[q]);
      ghost var li := WhichNeighbours(s, q, j);
      var ni := GetNeighborIndex(q, t, j);
      EmptyNeighbours(s, q, j, li, t, ni);
      var kPrimeIndex, nb := Neighbour(pages[q], ni);
      var kPrime := ToInt(pages[q].keys[kPrimeIndex]);
      var capacity := if pages[t].Leaf? then Cut(LEAF_ORDER) else Cut(INTERNAL_ORDER - 1);
      if Count(pages[nb]) + Count(pages[t]) < capacity {
        CoalescePage(s, q, li, t, nb, ni, kPrime);
      } else {
        RedistributePage(s, q, li, t, nb, ni, kPrimeIndex, kPrime);
      }
    }

    method AdjustRoot(ghost s: Tree)
      requires pages == s.pages && root == s.root && root in pages && Kept()
      requires forall x :: x in pages && x != root ==> Fits(pages[x])
      requires pages[root].Leaf? ==> |pages[root].recs| < LEAF_ORDER
      requires pages[root].Node? ==> |pages[root].keys| < INTERNAL_ORDER
      modifies this`pages, this`root, this`free, this`tree, this`calls
      ensures Valid() && Contents() == s.contents
    {
      var was := root;
      if Count(pages[was]) > 0 {
        tree := s;
        return;
      }
      if pages[was].Leaf? {
        LastPage(s);
        Free(was);
        ChangeRoot(0);
        NoTree();
        tree := State(map[], 0, map[], map[]);
      } else {
        assert Local(s, was);
        KidFacts(s, was, 0);
        LowerKeeps(s);
        var r := pages[was].kids[0];
        WritePage(r, pages[r].(parent := 0));
        Free(was);
        ChangeRoot(r);
        tree := Lower(s);
      }
    }

    // Page t is empty, and its neighbour has little enough to take over its place.
    method CoalescePage(ghost s: Tree, q: nat, ghost li: nat, t: nat, nb: nat, ni: int, kPrime: int)
      requires pages == s.pages && root == s.root && Kept() && s.root in s.info && t in s.info
      requires EmptyOne(s, q, li, t, nb, ni) && kPrime == s.pages[q].keys[li]
      requires Count(pages[nb]) < if pages[nb].Leaf? then Cut(LEAF_ORDER) else Cut(INTERNAL_ORDER - 1)
      modifies this`pages, this`root, this`free, this`tree, this`calls
      ensures Valid() && Contents() == s.contents
      decreases s.info[s.root].level - s.info[t].level, 0
    {
      var l, r := nb, t;
      if ni == -2 {
        l, r := t, nb;
      }
      CoalesceFacts(s, q, li);
      WeldedFits(s, q, li, t, nb, ni);
      Absorb(l, r, kPrime);
      ghost var m: Tree := Merge(s, q, li);
      DeleteEntry(m, q, li, kPrime);
    }

    // Page l takes over what page r has.
    method Absorb(l: nat, r: nat, kPrime: int)
      requires l in pages && r in pages && l != r && pages[l].Leaf? == pages[r].Leaf? && Kept()
      requires forall k :: k in Taken(pages[r]) ==> k in pages
      requires pages[r].Node? ==> pages[r].kids != []
      modifies this`pages, this`free, this`calls
      ensures pages == Welded(old(pages), l, kPrime, r) && Kept()
    {
      var a, b := pages[l], pages[r];
      var joined := b;
      if a.Leaf? {
        WritePage(r, b.(recs := []));
        joined := Leaf(a.parent, a.recs + b.recs, b.right);
        AdoptedNone(old(pages), l);
      } else {
        AdoptKids(b.kids, l);
        WritePage(r, b.(keys := [], kids := b.kids[..1]));
        joined := Node(a.parent, a.keys + [kPrime] + b.keys, a.kids + b.kids);
      }
      GoneAnyway(Adopted(old(pages), Taken(b), l), r, pages[r], l, joined);
      WritePage(l, joined);
      Free(r);
    }

    // Page t is empty, and its neighbour has enough to give some away.
    method RedistributePage(ghost s: Tree, q: nat, ghost li: nat, t: nat, nb: nat, ni: int, kPrimeIndex: nat, kPrime: int)
      requires pages == s.pages && root == s.root && Kept()
      requires EmptyOne(s, q, li, t, nb, ni) && kPrimeIndex == li && kPrime == s.pages[q].keys[li]
      requires Count(pages[nb]) >= if pages[nb].Leaf? then Cut(LEAF_ORDER) else Cut(INTERNAL_ORDER - 1)
      modifies this`pages, this`root, this`free, this`tree, this`calls
      ensures Valid() && Contents() == s.contents
    {
      Neighbours(s, q, li);
      if ni == -2 {
        if pages[t].Leaf? {
          RecordFromRight(s, q, kPrimeIndex, t, nb);
        } else {
          KidFromRight(s, q, kPrimeIndex, t, nb, kPrime);
        }
      } else if pages[t].Leaf? {
        RecordFromLeft(s, q, kPrimeIndex, t, nb);
      } else {
        KidFromLeft(s, q, kPrimeIndex, t, nb, kPrime);
      }
    }

    method Reparent(kid: nat, n: nat)
      requires kid in pages && Kept()
      modifies this`pages, this`calls
      ensures pages == old(pages)[kid := old(pages)[kid].(parent := n)] && Kept()
      ensures forall x :: x in old(pages) && Fits(old(pages)[x]) ==> x in pages && Fits(pages[x])
    {
      WritePage(kid, pages[kid].(parent := n));
    }

    // Three pages, written back.
    method WritePages(t: nat, target: Page, nb: nat, neighbor: Page, q: nat, parent: Page)
      requires t in pages && nb in pages && q in pages && Kept()
      requires Fits(target) && Fits(neighbor) && Fits(parent)
      requires forall x :: x in pages && x != t && x != nb && x != q ==> Fits(pages[x])
      modifies this`pages, this`calls
      ensures pages == old(pages)[t := target][nb := neighbor][q := parent] && Sized(pages) && Kept()
    {
      WritePage(t, target);
      WritePage(nb, neighbor);
      WritePage(q, parent);
    }

    method RecordFromRight(ghost s: Tree, q: nat, k: nat, t: nat, nb: nat)
      requires pages == s.pages && root == s.root && Kept()
      requires EmptyOne(s, q, k, t, nb, -2) && CanShare(s, q, k, 1) && pages[t].Leaf? && |pages[nb].recs| > 1
      modifies this`pages, this`tree, this`calls
      ensures Valid() && Contents() == s.contents
    {
      RecordToLeft(s, q, k);
      ShareKeeps(s, q, k, 1);
      var target, neighbor, parent := pages[t], pages[nb], pages[q];
      var recs := target.recs + [neighbor.recs[0]];
      var rest := RemoveAt(neighbor.recs, 0);
      assert recs == [neighbor.recs[0]] && rest == neighbor.recs[1..];
      tree := Share(s, q, k, 1);
      WritePages(t, target.(recs := recs), nb, neighbor.(recs := rest), q, parent.(keys := parent.keys[k := neighbor.recs[1].key]));
    }

    method RecordFromLeft(ghost s: Tree, q: nat, k: nat, t: nat, nb: nat)
      requires pages == s.pages && root == s.root && Kept()
      requires EmptyOne(s, q, k, t, nb, -1) && pages[t].Leaf? && |pages[nb].recs| > 1 && CanShare(s, q, k, |pages[nb].recs| - 1)
      modifies this`pages, this`tree, this`calls
      ensures Valid() && Contents() == s.contents
    {
      var target, neighbor, parent := pages[t], pages[nb], pages[q];
      var last := |neighbor.recs| - 1;
      RecordToRight(s, q, k, last);
      ShareKeeps(s, q, k, last);
      var recs := InsertAt(target.recs, 0, neighbor.recs[last]);
      assert recs == [neighbor.recs[last]];
      tree := Share(s, q, k, last);
      WritePages(t, target.(recs := recs), nb, neighbor.(recs := neighbor.recs[..last]), q, parent.(keys := parent.keys[k := recs[0].key]));
    }

    method KidFromRight(ghost s: Tree, q: nat, k: nat, t: nat, nb: nat, kPrime: int)
      requires pages == s.pages && root == s.root && Kept()
      requires EmptyOne(s, q, k, t, nb, -2) && pages[t].Node? && |pages[nb].keys| > 1 && kPrime == pages[q].keys[k]
      modifies this`pages, this`tree, this`calls
      ensures Valid() && Contents() == s.contents
    {
      FirstGiven(s, q, k, t, nb, kPrime);
      tree := Share(s, q, k, 1);
      FirstKid(q, k, t, nb, kPrime);
    }

    method FirstKid(q: nat, k: nat, t: nat, nb: nat, kPrime: int)
      requires GivesKid(pages, q, k, t, nb, kPrime) && pages[nb].kids[0] in pages && Kept()
      modifies this`pages, this`calls
      ensures Sized(pages) && Kept() && pages == GaveFirst(old(pages), q, k, t, nb, kPrime)
    {
      var target, neighbor, parent := pages[t], pages[nb], pages[q];
      var kid := neighbor.kids[0];
      var keys := RemoveAt(neighbor.keys, 0);
      var kids := RemoveAt(neighbor.kids, 0);
      assert keys == neighbor.keys[1..] && kids == neighbor.kids[1..] && target.keys + [kPrime] == [kPrime];
      Reparent(kid, t);
      WritePages(t, target.(keys := target.keys + [kPrime], kids := target.kids + [kid]), nb, neighbor.(keys := keys, kids := kids),
                 q, parent.(keys := parent.keys[k := neighbor.keys[0]]));
    }

    method KidFromLeft(ghost s: Tree, q: nat, k: nat, t: nat, nb: nat, kPrime: int)
      requires pages == s.pages && root == s.root && Kept()
      requires EmptyOne(s, q, k, t, nb, -1) && pages[t].Node? && |pages[nb].keys| > 1
      requires kPrime == pages[q].keys[k]
      modifies this`pages, this`tree, this`calls
      ensures Valid() && Contents() == s.contents
    {
      LastGiven(s, q, k, t, nb, kPrime);
      tree := Share(s, q, k, |s.pages[nb].keys| - 1);
      LastKid(q, k, t, nb, kPrime);
    }

    method LastKid(q: nat, k: nat, t: nat, nb: nat, kPrime: int)
      requires GivesKid(pages, q, k, t, nb, kPrime) && pages[nb].kids[|pages[nb].keys|] in pages && Kept()
      modifies this`pages, this`calls
      ensures Sized(pages) && Kept() && pages == GaveLast(old(pages), q, k, t, nb, kPrime)
    {
      var target, neighbor, parent := pages[t], pages[nb], pages[q];
      var last := |neighbor.keys| - 1;
      var kid := neighbor.kids[last + 1];
      var keys := InsertAt(target.keys, 0, kPrime);
      var kids := InsertAt(target.kids, 0, kid);
      assert keys == [kPrime] && kids == [kid] + target.kids;
      Reparent(kid, t);
      WritePages(t, target.(keys := keys, kids := kids), nb, neighbor.(keys := neighbor.keys[..last], kids := neighbor.kids[..last + 1]),
                 q, parent.(keys := parent.keys[k := neighbor.keys[last]]));
    }

    method DbDelete(key: int) returns (ret: int)
      requires Valid()
      modifies this`pages, this`root, this`free, this`tree, this`calls
      ensures Valid() && ret == (if key in old(Contents()) then 0 else -1)
      ensures Contents() == old(Contents()) - {key}
    {
      var found, _ := DbFind(key);
      if found != 0 {
        return -1;
      }
      var p := FindLeaf(key);
      assert Local(tree, p);
      LeafHas(tree, p, key);
      ghost var i :| 0 <= i < |pages[p].recs| && pages[p].recs[i].key == key;
      TookKeeps(tree, p, i);
      ghost var s: Tree := WithRecs(tree, p, Took(pages[p].recs, i), tree.contents - {key});
      DeleteEntry(s, p, i, key);
      return 0;
    }
  }

  // ---------- entries ----------

  function Count(p: Page): nat {
    if p.Leaf? then |p.recs| else |p.keys|
  }

  // Entry i of a page, the only one for key.
  predicate HasEntry(p: Page, i: nat, key: int) {
    match p
    case Leaf(_, recs, _) => i < |recs| && recs[i].key == key && Ascending(Keys(recs))
    case Node(_, keys, kids) => i < |keys| && keys[i] == key && Ascending(keys) && |kids| == |keys| + 1
  }

  function Less(p: Page, i: nat): Page
    requires i < Count(p) && (p.Node? ==> |p.kids| == |p.keys| + 1)
  {
    if p.Leaf? then p.(recs := Took(p.recs, i)) else Dropped(p, i)
  }

  lemma FirstEntry(p: Page, i: nat, key: int)
    requires HasEntry(p, i, key)
    ensures forall j :: 0 <= j < i ==> if p.Leaf? then p.recs[j].key != key else p.keys[j] != key
  {
    forall j | 0 <= j < i
      ensures if p.Leaf? then p.recs[j].key != key else p.keys[j] != key
    {
      assert Before(if p.Leaf? then Keys(p.recs) else p.keys, j, i);
    }
  }

  // Kids li and li + 1 of q are t, which is empty, and nb; all other pages have something.
  predicate EmptyOne(s: State, q: nat, li: nat, t: nat, nb: nat, ni: int) {
    && CanMerge(s, q, li)
    && Kid(s, q, li) == (if ni == -2 then t else nb) && Kid(s, q, li + 1) == (if ni == -2 then nb else t)
    && Count(s.pages[t]) == 0 && forall x :: x in s.pages && x != t ==> Fits(s.pages[x])
  }

  // t is an empty node, nb a node that can spare a kid.
  predicate GivesKid(pages: Pages, q: nat, k: nat, t: nat, nb: nat, kPrime: int) {
    && t in pages && nb in pages && q in pages && pages[t].Node? && pages[nb].Node? && pages[q].Node?
    && t != nb && t != q && nb != q && pages[t].keys == [] && |pages[nb].kids| == |pages[nb].keys| + 1 && |pages[nb].keys| > 1
    && k < |pages[q].keys| && kPrime == pages[q].keys[k] && forall x :: x in pages && x != t ==> Fits(pages[x])
  }

  // The first kid of nb has gone to the end of t.
  function GaveFirst(pages: Pages, q: nat, k: nat, t: nat, nb: nat, kPrime: int): Pages
    requires GivesKid(pages, q, k, t, nb, kPrime) && pages[nb].kids[0] in pages
  {
    var a, b, p := pages[t], pages[nb], pages[q];
    pages[b.kids[0] := pages[b.kids[0]].(parent := t)][t := a.(keys := [kPrime], kids := a.kids + [b.kids[0]])]
         [nb := b.(keys := b.keys[1..], kids := b.kids[1..])][q := p.(keys := p.keys[k := b.keys[0]])]
  }

  // The last kid of nb has gone to the front of t.
  function GaveLast(pages: Pages, q: nat, k: nat, t: nat, nb: nat, kPrime: int): Pages
    requires GivesKid(pages, q, k, t, nb, kPrime) && pages[nb].kids[|pages[nb].keys|] in pages
  {
    var a, b, p := pages[t], pages[nb], pages[q];
    var c := |b.keys| - 1;
    pages[b.kids[c + 1] := pages[b.kids[c + 1]].(parent := t)][t := a.(keys := [kPrime], kids := [b.kids[c + 1]] + a.kids)]
         [nb := b.(keys := b.keys[..c], kids := b.kids[..c + 1])][q := p.(keys := p.keys[k := b.keys[c]])]
  }

  lemma LastGiven(s: Tree, q: nat, k: nat, t: nat, nb: nat, kPrime: int)
    requires EmptyOne(s, q, k, t, nb, -1) && s.pages[t].Node? && |s.pages[nb].keys| > 1 && kPrime == s.pages[q].keys[k]
    ensures CanShare(s, q, k, |s.pages[nb].keys| - 1)
    ensures GivesKid(s.pages, q, k, t, nb, kPrime) && s.pages[nb].kids[|s.pages[nb].keys|] in s.pages
    ensures Inv(Share(s, q, k, |s.pages[nb].keys| - 1))
    ensures Share(s, q, k, |s.pages[nb].keys| - 1).pages == GaveLast(s.pages, q, k, t, nb, kPrime)
  {
    Neighbours(s, q, k);
    ShareToRight(s, q, k, |s.pages[nb].keys| - 1);
    ShareKeeps(s, q, k, |s.pages[nb].keys| - 1);
  }

  lemma FirstGiven(s: Tree, q: nat, k: nat, t: nat, nb: nat, kPrime: int)
    requires EmptyOne(s, q, k, t, nb, -2) && s.pages[t].Node? && |s.pages[nb].keys| > 1 && kPrime == s.pages[q].keys[k]
    ensures CanShare(s, q, k, 1)
    ensures GivesKid(s.pages, q, k, t, nb, kPrime) && s.pages[nb].kids[0] in s.pages
    ensures Inv(Share(s, q, k, 1)) && Share(s, q, k, 1).pages == GaveFirst(s.pages, q, k, t, nb, kPrime)
  {
    Neighbours(s, q, k);
    ShareToLeft(s, q, k);
    ShareKeeps(s, q, k, 1);
  }

  lemma NotRoot(s: Tree, t: nat)
    requires t in s.pages && t != s.root
    ensures t in s.info && s.root in s.info && s.info[t].level < s.info[s.root].level
  {
    UnderRoot(s, t);
  }

  // A merge of two kids of q leaves q itself for later.
  lemma CoalesceFacts(s: Tree, q: nat, li: nat)
    requires CanMerge(s, q, li)
    ensures var l, r, m := Kid(s, q, li), Kid(s, q, li + 1), Merge(s, q, li);
            && l != r && l != q && r != q
            && q in Welded(s.pages, l, s.pages[q].keys[li], r) && Welded(s.pages, l, s.pages[q].keys[li], r)[q] == s.pages[q]
            && HasEntry(s.pages[q], li, s.pages[q].keys[li]) && m.root == s.root && s.root in s.info && s.root in m.info && q in m.info
            && m.info[m.root].level == s.info[s.root].level && m.info[q].level == s.info[l].level + 1 <= s.info[s.root].level
            && s.info[r].level == s.info[l].level
            && Inv(m) && (s.pages[r].Node? ==> s.pages[r].kids != []) && forall k :: k in Taken(s.pages[r]) ==> k in s.pages
  {
    var l, r := Kid(s, q, li), Kid(s, q, li + 1);
    Neighbours(s, q, li);
    MergeKeeps(s, q, li);
    assert Local(s, r);
    if s.pages[r].Node? {
      KidsThere(s, r, 0);
      assert s.pages[r].kids[0..] == s.pages[r].kids;
    }
    assert Local(s, q);
    if q == s.root {
      RootStays(s, r, 0, Taken(s.pages[r]), l);
    } else {
      var j := Slot(s, q);
      KidFacts(s, s.pages[q].parent, j);
      AdoptedKid(s, r, 0, Taken(s.pages[r]), l, s.pages[q].parent, j);
    }
  }

  lemma WeldedFits(s: Tree, q: nat, li: nat, t: nat, nb: nat, ni: int)
    requires EmptyOne(s, q, li, t, nb, ni) && nb in s.pages
    requires Count(s.pages[nb]) < if s.pages[nb].Leaf? then Cut(LEAF_ORDER) else Cut(INTERNAL_ORDER - 1)
    ensures Sized(Welded(s.pages, Kid(s, q, li), s.pages[q].keys[li], Kid(s, q, li + 1)))
  {
    Neighbours(s, q, li);
  }

  lemma WhichNeighbours(s: Tree, q: nat, j: nat) returns (li: nat)
    requires q in s.pages && s.pages[q].Node? && |s.pages[q].keys| > 0 && j < |s.pages[q].kids| == |s.pages[q].keys| + 1
    ensures li == (if j == 0 then 0 else j - 1) && CanMerge(s, q, li) && ToInt(s.pages[q].keys[li]) == s.pages[q].keys[li]
    ensures forall k :: 0 <= k < |s.pages[q].kids| && s.pages[q].kids[k] == s.pages[q].kids[j] ==> k == j
  {
    li := if j == 0 then 0 else j - 1;
    Neighbours(s, q, li);
    forall k | 0 <= k < |s.pages[q].kids| && s.pages[q].kids[k] == s.pages[q].kids[j]
      ensures k == j
    {
      KidFacts(s, q, k);
      KidFacts(s, q, j);
      KidOnce(s, q, k, q, j);
    }
  }

  lemma EmptyNeighbours(s: Tree, q: nat, j: nat, li: nat, t: nat, ni: int)
    requires q in s.pages && s.pages[q].Node? && j < |s.pages[q].kids| == |s.pages[q].keys| + 1 && s.pages[q].kids[j] == t
    requires CanMerge(s, q, li) && li == (if j == 0 then 0 else j - 1) && ni == j - 2
    requires t in s.pages && Count(s.pages[t]) == 0 && forall x :: x in s.pages && x != t ==> Fits(s.pages[x])
    ensures EmptyOne(s, q, li, t, if ni == -2 then s.pages[q].kids[1] else s.pages[q].kids[j - 1], ni)
  {
  }

  lemma SepInRange(s: Tree, x: nat, c: nat)
    requires x in s.pages && Cuttable(s.pages[x], c)
    ensures ToInt(Sep(s.pages[x], c)) == Sep(s.pages[x], c)
  {
    assert Local(s, x);
  }

  lemma LeafHalves(u: Tree, s: Tree, p: nat, temp: seq<Rec>)
    requires p in u.pages && u.pages[p].Leaf? && |temp| == LEAF_ORDER && s.pages == u.pages[p := u.pages[p].(recs := temp)]
    requires s.root == u.root && s.info == u.info
    ensures p in s.info && s.root in s.info && Cuttable(s.pages[p], 16)
    ensures Sep(s.pages[p], 16) == temp[16].key == ToInt(temp[16].key)
  {
    assert Local(u, p);
    SepInRange(s, p, 16);
  }

  lemma HalvedLeaf(u: Tree, s: Tree, p: nat, temp: seq<Rec>, n: nat)
    requires p in u.pages && u.pages[p].Leaf? && |temp| == LEAF_ORDER && s.pages == u.pages[p := u.pages[p].(recs := temp)]
    requires n !in u.pages
    ensures n !in s.pages
    ensures Halved(s.pages, p, n, 16) == u.pages[p := u.pages[p].(recs := temp[..16], right := n)][n := u.pages[p].(recs := temp[16..])]
  {
  }

  // Cutting the page with the new kid is what becomes of the pages.
  lemma EnteredHalves(pages: Pages, q: nat, e: Page, split: nat, n: nat)
    requires q in pages && e.Node? && 0 < split <= |e.keys| && |e.kids| == |e.keys| + 1
    ensures Halved(pages[q := e], q, n, split - 1)
            == Adopted(pages, e.kids[split..], n)[q := Node(e.parent, e.keys[..split - 1], e.kids[..split])]
                                                 [n := Node(e.parent, e.keys[split..], e.kids[split..])]
  {
  }

  lemma AdoptedBlank(pages: Pages, kids: seq<nat>, n: nat, q: nat, left: Page, right: Page)
    ensures Adopted(pages[n := BLANK], kids, n)[q := left][n := right] == Adopted(pages, kids, n)[q := left][n := right]
  {
  }

  lemma OverBlank(pages: Pages, n: nat, q: nat, left: Page, right: Page)
    ensures pages[n := BLANK][q := left][n := right] == pages[q := left][n := right]
  {
  }

  lemma OverBlankToo(pages: Pages, r: nat, x: nat, left: Page, n: nat, right: Page, top: Page)
    ensures pages[r := BLANK][x := left][n := right][r := top] == pages[x := left][n := right][r := top]
  {
  }

  lemma AdoptedNone(pages: Pages, n: nat)
    ensures Adopted(pages, [], n) == pages
  {
  }

  lemma GoneAnyway(pages: Pages, r: nat, empty: Page, l: nat, joined: Page)
    requires l != r
    ensures pages[r := empty][l := joined] - {r} == pages[l := joined] - {r}
  {
  }

  lemma PlaceFound(s: Tree, p: nat, i: nat, key: int)
    requires Covers(s, p, key) && s.pages[p].Leaf? && key !in s.contents && i <= |s.pages[p].recs|
    requires forall j :: 0 <= j < i ==> s.pages[p].recs[j].key < key
    requires i < |s.pages[p].recs| ==> key <= s.pages[p].recs[i].key
    ensures Place(s.pages[p].recs, i, key)
  {
    var recs := s.pages[p].recs;
    assert Local(s, p);
    LeafHas(s, p, key);
    forall j | i <= j < |recs|
      ensures key < recs[j].key
    {
      assert i < j ==> Before(Keys(recs), i, j);
    }
  }

  // Only the root has no parent.
  lemma NoParent(s: Tree, x: nat)
    requires x in s.pages && s.pages[x].parent == 0
    ensures x == s.root && x in s.info
  {
    assert Local(s, x);
  }

  lemma ParentOf(s: Tree, x: nat)
    requires x in s.pages && s.pages[x].parent != 0
    ensures var q := s.pages[x].parent;
            && q in s.pages && s.pages[q].Node? && |s.pages[q].kids| == |s.pages[q].keys| + 1 && x in s.pages[q].kids
            && q in s.info && x in s.info && s.root in s.info && q != x
            && s.info[q].level == s.info[x].level + 1 <= s.info[s.root].level
            && forall i :: 0 <= i < |s.pages[q].kids| && s.pages[q].kids[i] == x ==> HasKid(s, q, i)
  {
    assert Local(s, x);
    var j := Slot(s, x);
    KidFacts(s, s.pages[x].parent, j);
    assert Local(s, s.pages[x].parent);
  }

  lemma KidsThere(s: Tree, q: nat, c: nat)
    requires q in s.pages && s.pages[q].Node? && c <= |s.pages[q].kids|
    ensures forall k :: k in s.pages[q].kids[c..] ==> k in s.pages
  {
    forall k | k in s.pages[q].kids[c..]
      ensures k in s.pages
    {
      var i :| 0 <= i < |s.pages[q].kids[c..]| && s.pages[q].kids[c..][i] == k;
      KidFacts(s, q, c + i);
    }
  }

  // A cut leaves the parent as it was.
  lemma HalvedParent(s: Tree, x: nat, n: nat, c: nat, q: nat)
    requires x in s.pages && Cuttable(s.pages[x], c) && n !in s.pages && n != 0 && q == s.pages[x].parent && q != 0
    ensures q in s.pages && Halved(s.pages, x, n, c)[q] == s.pages[q]
  {
    ParentOf(s, x);
    if q == s.root {
      RootStays(s, x, c + 1, Given(s.pages[x], c), n);
    } else {
      var j := Slot(s, q);
      KidFacts(s, s.pages[q].parent, j);
      AdoptedKid(s, x, c + 1, Given(s.pages[x], c), n, s.pages[q].parent, j);
      assert Local(s, x);
    }
  }

  lemma NewRootKeeps(s: Tree, n: nat, c: nat, r: nat)
    requires s.root in s.pages && s.root in s.info && Cuttable(s.pages[s.root], c) && n !in s.pages && n != 0
    requires r !in s.pages && r != 0 && r != n
    ensures CanSplit(Raise(s, r), r, 0, n, c) && Inv(Split(Raise(s, r), r, 0, n, c))
    ensures var pages, x := Halved(s.pages, s.root, n, c), s.root;
            Split(Raise(s, r), r, 0, n, c).pages
            == pages[x := pages[x].(parent := r)][n := pages[n].(parent := r)][r := Node(0, [Sep(s.pages[x], c)], [x, n])]
  {
    RaiseKeeps(s, r);
    var u := Raise(s, r);
    assert Kid(u, r, 0) == s.root;
    SplitKeeps(u, r, 0, n, c);
    RootStays(s, s.root, c + 1, Given(s.pages[s.root], c), n);
    var sep := Sep(s.pages[s.root], c);
    assert Entered(u.pages[r], 0, sep, n) == Node(0, [sep], [s.root, n]) by {
      assert [] + [sep] + [] == [sep] && [s.root] + [n] + [] == [s.root, n];
    }
  }
}
