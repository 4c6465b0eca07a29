/** Two neighbouring pages of the B+tree in one, and what their parent forgets. */
module BptMerge {
  import opened BptPage
  import opened BptTree

  // ---------- one kid less ----------

  // Kids i and i + 1 of a page have become one.
  function Dropped(p: Page, i: nat): Page
    requires p.Node? && i + 1 < |p.kids| == |p.keys| + 1
  {
    Node(p.parent, p.keys[..i] + p.keys[i + 1..], p.kids[..i + 1] + p.kids[i + 2..])
  }

  lemma DroppedShape(p: Page, f: Info, i: nat)
    requires p.Node? && Shape(p, f) && i + 1 < |p.kids|
    ensures Shape(Dropped(p, i), f)
  {
    var keys := Dropped(p, i).keys;
    assert forall a :: 0 <= a < |keys| ==> keys[a] == p.keys[if a < i then a else a + 1];
    forall a, b | 0 <= a < b < |keys|
      ensures Before(keys, a, b)
    {
      assert Before(p.keys, if a < i then a else a + 1, if b < i then b else b + 1);
    }
  }

  lemma DroppedKid(p: Page, f: Info, i: nat, j: nat)
    requires p.Node? && Shape(p, f) && i + 1 < |p.kids| && j < |p.kids| - 1
    ensures var e := Dropped(p, i);
            && e.kids[j] == p.kids[if j <= i then j else j + 1]
            && Range(e, f, j) == (if j < i then Range(p, f, j) else if j == i then Range(p, f, i).(hi := Range(p, f, i + 1).hi)
                                  else Range(p, f, j + 1))
  {
  }

  // ---------- the two as one ----------

  function Joined(a: Page, sep: int, b: Page): Page
    requires a.Leaf? == b.Leaf?
  {
    if a.Leaf? then Leaf(a.parent, a.recs + b.recs, b.right) else Node(a.parent, a.keys + [sep] + b.keys, a.kids + b.kids)
  }

  function Taken(b: Page): seq<nat> {
    if b.Leaf? then [] else b.kids
  }

  function Welded(pages: Pages, l: nat, sep: int, r: nat): Pages
    requires l in pages && r in pages && pages[l].Leaf? == pages[r].Leaf?
  {
    Adopted(pages, Taken(pages[r]), l)[l := Joined(pages[l], sep, pages[r])] - {r}
  }

  predicate CanMerge(s: State, q: nat, i: nat) {
    HasKid(s, q, i) && HasKid(s, q, i + 1) && s.pages[Kid(s, q, i)].Leaf? == s.pages[Kid(s, q, i + 1)].Leaf?
  }

  // Kid i of q takes over what its right neighbour had.
  function Merge(s: State, q: nat, i: nat): State
    requires CanMerge(s, q, i)
  {
    var l, r := Kid(s, q, i), Kid(s, q, i + 1);
    s.(pages := Welded(s.pages, l, s.pages[q].keys[i], r)[q := Dropped(s.pages[q], i)],
       info := s.info[l := s.info[l].(hi := s.info[r].hi)] - {r})
  }

  // Two neighbours.
  predicate Next(f: Info, sep: int, g: Info) {
    f.level == g.level && f.hi == sep == g.lo
  }

  lemma JoinedShape(a: Page, f: Info, sep: int, b: Page, g: Info)
    requires Shape(a, f) && Shape(b, g) && Next(f, sep, g) && a.Leaf? == b.Leaf?
    ensures Shape(Joined(a, sep, b), f.(hi := g.hi))
  {
    if a.Leaf? {
      JoinedLeafShape(a, f, sep, b, g);
    } else {
      JoinedNodeShape(a, f, sep, b, g);
    }
  }

  lemma JoinedLeafShape(a: Page, f: Info, sep: int, b: Page, g: Info)
    requires Shape(a, f) && Shape(b, g) && Next(f, sep, g) && a.Leaf? && b.Leaf?
    ensures Shape(Joined(a, sep, b), f.(hi := g.hi))
  {
    var keys := Keys(a.recs + b.recs);
    forall i, j | 0 <= i < j < |keys|
      ensures Before(keys, i, j)
    {
      if j < |a.recs| {
        assert Before(Keys(a.recs), i, j);
      } else if i >= |a.recs| {
        assert Before(Keys(b.recs), i - |a.recs|, j - |a.recs|);
      }
    }
  }

  lemma JoinedNodeShape(a: Page, f: Info, sep: int, b: Page, g: Info)
    requires Shape(a, f) && Shape(b, g) && Next(f, sep, g) && a.Node? && b.Node?
    ensures Shape(Joined(a, sep, b), f.(hi := g.hi))
  {
    var keys := a.keys + [sep] + b.keys;
    var m := |a.keys| + 1;
    forall i, j | 0 <= i < j < |keys|
      ensures Before(keys, i, j)
    {
      if j < |a.keys| {
        assert Before(a.keys, i, j);
      } else if i >= m {
        assert Before(b.keys, i - m, j - m);
      }
    }
  }

  lemma JoinedAgrees(a: seq<Rec>, f: Info, sep: int, b: seq<Rec>, g: Info, contents: map<int, string>)
    requires Shape(Leaf(0, a, 0), f) && Shape(Leaf(0, b, 0), g) && Next(f, sep, g)
    requires Agrees(a, f, contents) && Agrees(b, g, contents)
    ensures Agrees(a + b, f.(hi := g.hi), contents)
  {
    forall k | f.lo <= k < g.hi
      ensures Same(contents, Records(a + b), k)
    {
      RecordsOf(a, b, k);
      if k < sep {
        assert Same(contents, Records(a), k);
        if k in Records(b) {
          var j := RecordsOnly(b, k);
        }
      } else {
        assert Same(contents, Records(b), k);
        if k in Records(a) {
          var j := RecordsOnly(a, k);
        }
      }
    }
  }

  // ---------- a merge keeps the tree ----------

  lemma Neighbours(s: Tree, q: nat, i: nat)
    requires q in s.pages && s.pages[q].Node? && i + 1 < |s.pages[q].kids|
    ensures CanMerge(s, q, i)
    ensures var l, r := Kid(s, q, i), Kid(s, q, i + 1);
            && Shape(s.pages[q], s.info[q]) && Shape(s.pages[l], s.info[l]) && Shape(s.pages[r], s.info[r])
            && KidAt(s, q, i) && KidAt(s, q, i + 1) && Next(s.info[l], s.pages[q].keys[i], s.info[r])
            && q != l && q != r && l != r && s.root != l && s.root != r
  {
    KidFacts(s, q, i);
    KidFacts(s, q, i + 1);
  }

  lemma MergePages(s: Tree, q: nat, i: nat, y: nat)
    requires CanMerge(s, q, i) && y in Merge(s, q, i).pages
    ensures var l, r, t := Kid(s, q, i), Kid(s, q, i + 1), Merge(s, q, i);
            && y in s.pages && y != r && y in s.info && y in t.info && Shape(t.pages[y], t.info[y]) && t.pages[y].Leaf? == s.pages[y].Leaf?
            && s.root != 0 && s.root in s.info && s.root in t.info && t.info[s.root] == s.info[s.root]
            && s.root in t.pages && t.info[y].level <= s.info[s.root].level
            && t.info[y].level == s.info[y].level
            && t.info[y].lo == s.info[y].lo && KidsFrom(s, r, 0, Taken(s.pages[r]))
            && (y != l && y != q ==> t.info[y] == s.info[y] && (t.pages[y] == s.pages[y] || t.pages[y] == s.pages[y].(parent := l)))
  {
    var l, r := Kid(s, q, i), Kid(s, q, i + 1);
    Neighbours(s, q, i);
    DroppedShape(s.pages[q], s.info[q], i);
    JoinedShape(s.pages[l], s.info[l], s.pages[q].keys[i], s.pages[r], s.info[r]);
    assert Local(s, q) && Local(s, y);
  }

  lemma MergeHangs(s: Tree, q: nat, i: nat, y: nat)
    requires CanMerge(s, q, i) && y in Merge(s, q, i).pages && y in Merge(s, q, i).info
    ensures Hangs(Merge(s, q, i), y)
  {
    var l, r := Kid(s, q, i), Kid(s, q, i + 1);
    Neighbours(s, q, i);
    MergePages(s, q, i, y);
    if y == s.root {
      RootStays(s, r, 0, Taken(s.pages[r]), l);
      assert Local(s, y);
    } else {
      MergeHangsKid(s, q, i, y);
    }
  }

  lemma MergeHangsKid(s: Tree, q: nat, i: nat, y: nat)
    requires CanMerge(s, q, i) && y in Merge(s, q, i).pages && y in Merge(s, q, i).info && y != s.root
    ensures Hangs(Merge(s, q, i), y)
  {
    var l, r, t := Kid(s, q, i), Kid(s, q, i + 1), Merge(s, q, i);
    Neighbours(s, q, i);
    MergePages(s, q, i, y);
    var j := Slot(s, y);
    var z := s.pages[y].parent;
    AdoptedKid(s, r, 0, Taken(s.pages[r]), l, z, j);
    KidFacts(s, z, j);
    if z == q {
      assert t.pages[q].kids[if j <= i then j else j - 1] == y;
    } else if z == r {
      assert t.pages[l].kids[|s.pages[l].kids| + j] == y;
    } else if z == l {
      assert t.pages[l].kids[j] == y;
    }
  }

  // Only the left one of two neighbours leads to the right one.
  lemma ChainedOnce(s: Tree, q: nat, i: nat, y: nat)
    requires CanMerge(s, q, i) && y in s.pages && s.pages[y].Leaf? && s.pages[y].right == Kid(s, q, i + 1)
    ensures y == Kid(s, q, i)
  {
    Neighbours(s, q, i);
    assert Local(s, y) && Local(s, Kid(s, q, i + 1));
    OnePage(s, y, Kid(s, q, i), s.info[y].hi - 1);
  }

  lemma MergeLeaves(s: Tree, q: nat, i: nat, y: nat)
    requires CanMerge(s, q, i)
    requires var t := Merge(s, q, i); y in t.pages && t.pages[y].Leaf? && y in t.info
    ensures var t := Merge(s, q, i); Chained(t, y) && Agrees(t.pages[y].recs, t.info[y], t.contents)
  {
    var l, r, t := Kid(s, q, i), Kid(s, q, i + 1), Merge(s, q, i);
    Neighbours(s, q, i);
    MergePages(s, q, i, y);
    assert Local(s, y);
    var next := s.pages[if y == l then r else y].right;
    if y == l {
      assert Local(s, r);
      JoinedAgrees(s.pages[l].recs, s.info[l], s.pages[q].keys[i], s.pages[r].recs, s.info[r], s.contents);
    } else if next == r {
      ChainedOnce(s, q, i, y);
    }
    if next != 0 {
      MergePages(s, q, i, next);
    }
  }

  lemma MergeParentKids(s: Tree, q: nat, i: nat, j: nat)
    requires CanMerge(s, q, i)
    requires var t := Merge(s, q, i); q in t.info && Shape(t.pages[q], t.info[q]) && j < |t.pages[q].kids|
    ensures KidAt(Merge(s, q, i), q, j)
  {
    var l, r, t := Kid(s, q, i), Kid(s, q, i + 1), Merge(s, q, i);
    Neighbours(s, q, i);
    MergePages(s, q, i, q);
    DroppedKid(s.pages[q], s.info[q], i, j);
    var m := if j <= i then j else j + 1;
    KidFacts(s, q, m);
    if Kid(s, q, m) == r {
      KidOnce(s, q, i + 1, q, m);
    }
    if m != i && Kid(s, q, m) == l {
      KidOnce(s, q, i, q, m);
    }
    AdoptedKid(s, r, 0, Taken(s.pages[r]), l, q, m);
    MergePages(s, q, i, Kid(s, q, m));
  }

  lemma MergeLeftKids(s: Tree, q: nat, i: nat, j: nat)
    requires CanMerge(s, q, i) && s.pages[Kid(s, q, i)].Node?
    requires var l, t := Kid(s, q, i), Merge(s, q, i);
             l in t.pages && l in t.info && t.pages[l].Node? && Shape(t.pages[l], t.info[l]) && j < |t.pages[l].kids|
    ensures KidAt(Merge(s, q, i), Kid(s, q, i), j)
  {
    var l, r, t := Kid(s, q, i), Kid(s, q, i + 1), Merge(s, q, i);
    Neighbours(s, q, i);
    MergePages(s, q, i, l);
    var half := |s.pages[l].kids|;
    var z, m := if j < half then l else r, if j < half then j else j - half;
    KidFacts(s, z, m);
    AdoptedKid(s, r, 0, Taken(s.pages[r]), l, z, m);
    MergePages(s, q, i, Kid(s, z, m));
  }

  lemma MergeKids(s: Tree, q: nat, i: nat, y: nat, j: nat)
    requires CanMerge(s, q, i)
    requires var t := Merge(s, q, i);
             y in t.pages && t.pages[y].Node? && y in t.info && Shape(t.pages[y], t.info[y]) && j < |t.pages[y].kids|
    ensures KidAt(Merge(s, q, i), y, j)
  {
    var l, r, t := Kid(s, q, i), Kid(s, q, i + 1), Merge(s, q, i);
    Neighbours(s, q, i);
    MergePages(s, q, i, y);
    if y == q {
      MergeParentKids(s, q, i, j);
    } else if y == l {
      MergeLeftKids(s, q, i, j);
    } else {
      KidFacts(s, y, j);
      AdoptedKid(s, r, 0, Taken(s.pages[r]), l, y, j);
      MergePages(s, q, i, Kid(s, y, j));
    }
  }

  lemma MergeKeeps(s: Tree, q: nat, i: nat)
    requires CanMerge(s, q, i)
    ensures Inv(Merge(s, q, i))
  {
    var t := Merge(s, q, i);
    Neighbours(s, q, i);
    MergePages(s, q, i, q);
    forall y | y in t.pages
      ensures Local(t, y)
    {
      MergePages(s, q, i, y);
      MergeHangs(s, q, i, y);
      if t.pages[y].Leaf? {
        MergeLeaves(s, q, i, y);
      } else {
        forall j | 0 <= j < |t.pages[y].kids|
          ensures KidAt(t, y, j)
        {
          MergeKids(s, q, i, y, j);
        }
      }
    }
  }
}
