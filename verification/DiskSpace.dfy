/** The free pages of a file: each names the one after it, and the header the first one. */
module DiskSpace {
  import opened Sequences
  import BptPage

  // A header page, or any other one with the page after it in the free list.
  datatype Content =
    | Header(free: nat, root: nat, count: nat)
    | Node(next: nat, rest: BptPage.Page)

  // The pages from p on, each naming the next, up to one that names none.
  predicate Chain(pages: map<nat, Content>, p: nat, list: seq<nat>)
    decreases list
  {
    if list == [] then p == 0
    else p == list[0] && p != 0 && p in pages && pages[p].Node? && Chain(pages, pages[p].next, list[1..])
  }

  function Run(from: nat, n: nat): (s: seq<nat>)
    ensures |s| == n && forall i :: 0 <= i < n ==> s[i] == from + i
    decreases n
  {
    if n == 0 then [] else [from] + Run(from + 1, n - 1)
  }

  // The free list after a page has been taken.
  function ListAfter(list: seq<nat>, count: nat): seq<nat> {
    if list == [] then Run(count + 1, 99) else list[1..]
  }

  lemma {:induction false} ChainKept(pages: map<nat, Content>, now: map<nat, Content>, p: nat, list: seq<nat>)
    requires Chain(pages, p, list)
    requires forall x :: x in list && x in pages && pages[x].Node? ==> x in now && now[x].Node? && now[x].next == pages[x].next
    ensures Chain(now, p, list)
    decreases list
  {
    if list != [] {
      ChainKept(pages, now, pages[p].next, list[1..]);
    }
  }

  // The list is what the pages say: there is no other one.
  lemma {:induction false} OneChain(pages: map<nat, Content>, p: nat, a: seq<nat>, b: seq<nat>)
    requires Chain(pages, p, a) && Chain(pages, p, b)
    ensures a == b
    decreases a
  {
    if a != [] {
      OneChain(pages, pages[p].next, a[1..], b[1..]);
    }
  }

  // A run of new pages: each names the one after it, the last one none.
  predicate NewPage(pages: map<nat, Content>, x: nat, end: nat) {
    x in pages && pages[x] == Node(if x < end then x + 1 else 0, BptPage.BLANK)
  }

  lemma StillNew(before: map<nat, Content>, pages: map<nat, Content>, from: nat, x: nat, end: nat)
    requires pages == before[x := Node(if x < end then x + 1 else 0, BptPage.BLANK)]
    requires forall y {:trigger NewPage(before, y, end)} :: from <= y < x ==> NewPage(before, y, end)
    ensures forall y {:trigger NewPage(pages, y, end)} :: from <= y <= x ==> NewPage(pages, y, end)
  {
    forall y | from <= y <= x
      ensures NewPage(pages, y, end)
    {
      assert y < x ==> NewPage(before, y, end);
    }
  }

  lemma NewAreNodes(pages: map<nat, Content>, from: nat, end: nat)
    requires forall x {:trigger NewPage(pages, x, end)} :: from <= x <= end ==> NewPage(pages, x, end)
    ensures forall x :: x in pages && from <= x <= end ==> pages[x].Node?
  {
    forall x | x in pages && from <= x <= end
      ensures pages[x].Node?
    {
      assert NewPage(pages, x, end);
    }
  }

  lemma {:induction false} RunChain(pages: map<nat, Content>, from: nat, end: nat)
    requires 0 < from <= end && forall x {:trigger NewPage(pages, x, end)} :: from <= x <= end ==> NewPage(pages, x, end)
    ensures Chain(pages, from, Run(from, end + 1 - from))
    decreases end - from
  {
    assert NewPage(pages, from, end);
    if from < end {
      RunChain(pages, from + 1, end);
    }
  }

  class File {
    var freePage: nat
    var count: nat
    var pages: map<nat, Content>
    ghost var free: seq<nat>

    ghost predicate Valid()
      reads this
    {
      && Chain(pages, freePage, free) && Distinct(free) && count > 0
      && (forall x :: x in pages <==> 0 < x < count)
    }

    constructor ()
      ensures Valid() && free == [] && count == 1
    {
      freePage, count, pages, free := 0, 1, map[], [];
    }

    // The file as it is on the disk.
    constructor Existing(freePage: nat, count: nat, pages: map<nat, Content>, ghost free: seq<nat>)
      requires Chain(pages, freePage, free) && Distinct(free) && count > 0 && forall x :: x in pages <==> 0 < x < count
      ensures Valid() && this.free == free && this.freePage == freePage && this.count == count && this.pages == pages
    {
      this.freePage, this.count, this.pages, this.free := freePage, count, pages, free;
    }

    // The page freed last, or the first of a hundred new ones.
    method FileAllocPage() returns (p: nat)
      requires Valid()
      modifies this
      ensures Valid()
      ensures if old(free) == [] then p == old(count) && free == Run(p + 1, 99) && count == p + 100
              else p == old(free)[0] && free == old(free)[1..] && count == old(count)
      ensures forall x :: x in old(pages) ==> x in pages && pages[x] == old(pages)[x]
      ensures forall x :: x in pages && x !in old(pages) ==> pages[x].Node?
    {
      if freePage == 0 {
        AddPages();
        p := count - 100;
      } else {
        p := freePage;
      }
      freePage := pages[p].next;
      free := free[1..];
    }

    method AddPages()
      requires Valid() && freePage == 0
      modifies this
      ensures Valid() && free == Run(old(count), 100) && count == old(count) + 100 && freePage == old(count)
      ensures forall x :: x in old(pages) ==> x in pages && pages[x] == old(pages)[x]
      ensures forall x :: x in pages && x !in old(pages) ==> pages[x].Node?
    {
      ghost var end := count + 99;
      var i := 0;
      while i < 99
        invariant 0 <= i <= 99 && count == old(count) > 0
        invariant forall x :: x in pages <==> 0 < x < count + i
        invariant forall x :: x in old(pages) ==> x in pages && pages[x] == old(pages)[x]
        invariant forall x {:trigger NewPage(pages, x, end)} :: count <= x < count + i ==> NewPage(pages, x, end)
      {
        ghost var before := pages;
        pages := pages[count + i := Node(count + 1 + i, BptPage.BLANK)];
        StillNew(before, pages, count, count + i, end);
        i := i + 1;
      }
      ghost var before := pages;
      pages := pages[count + 99 := Node(0, BptPage.BLANK)];
      StillNew(before, pages, count, end, end);
      RunChain(pages, count, end);
      NewAreNodes(pages, count, end);
      freePage := count;
      free := Run(count, 100);
      count := count + 100;
    }

    method FileFreePage(p: nat)
      requires Valid() && p in pages && p !in free && pages[p].Node?
      modifies this
      ensures Valid() && free == [p] + old(free) && count == old(count)
      ensures forall x :: x in old(pages) ==> x in pages && (x != p ==> pages[x] == old(pages)[x])
      ensures pages == old(pages)[p := old(pages)[p].(next := old(freePage))]
    {
      var was := freePage;
      freePage := p;
      ghost var before := pages;
      pages := pages[p := pages[p].(next := was)];
      ChainKept(before, pages, was, free);
      free := [p] + free;
    }
  }
}
