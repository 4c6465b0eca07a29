/** The root of the B+tree: the first page, one level more, one level less, the last page. */
module BptRoot {
  import opened BptPage
  import opened BptTree

  function First(r: nat, rec: Rec): State {
    State(map[r := Leaf(0, [rec], 0)], r, map[r := Info(0, MIN, MAX)], map[rec.key := rec.val])
  }

  lemma FirstKeeps(r: nat, rec: Rec)
    requires r != 0 && MIN <= rec.key < MAX
    ensures Inv(First(r, rec))
  {
    assert Records([rec]) == map[rec.key := rec.val];
    forall k | MIN <= k < MAX
      ensures Same(First(r, rec).contents, Records([rec]), k)
    {
    }
    assert Local(First(r, rec), r);
  }

  // A root above the root, without keys.
  function Raise(s: State, r: nat): State
    requires s.root in s.pages && s.root in s.info
  {
    s.(pages := s.pages[s.root := s.pages[s.root].(parent := r)][r := Node(0, [], [s.root])], root := r,
       info := s.info[r := Info(s.info[s.root].level + 1, MIN, MAX)])
  }

  lemma RaiseKeeps(s: Tree, r: nat)
    requires s.root in s.pages && s.root in s.info && r !in s.pages && r != 0
    ensures Inv(Raise(s, r))
  {
    var t := Raise(s, r);
    assert Local(s, s.root);
    forall y | y in t.pages
      ensures Local(t, y)
    {
      if y == r {
        assert KidAt(t, r, 0);
      } else {
        assert Local(s, y);
        RaiseHangs(s, r, y);
        if s.pages[y].Node? {
          forall j | 0 <= j < |s.pages[y].kids|
            ensures KidAt(t, y, j)
          {
            KidFacts(s, y, j);
          }
        }
      }
    }
  }

  lemma RaiseHangs(s: Tree, r: nat, y: nat)
    requires s.root in s.pages && s.root in s.info && r !in s.pages && r != 0 && y in s.pages && y in s.info
    ensures Hangs(Raise(s, r), y)
  {
    var t := Raise(s, r);
    assert Local(s, y);
    if y == s.root {
      assert t.pages[r].kids[0] == y;
    } else {
      var j := Slot(s, y);
      assert t.pages[s.pages[y].parent].kids[j] == y;
    }
  }

  // The root's only kid in its place.
  predicate CanLower(s: State) {
    s.root in s.pages && s.pages[s.root].Node? && s.pages[s.root].keys == [] && HasKid(s, s.root, 0)
  }

  function Lower(s: State): State
    requires CanLower(s)
  {
    var c := Kid(s, s.root, 0);
    s.(pages := s.pages[c := s.pages[c].(parent := 0)] - {s.root}, root := c, info := s.info - {s.root})
  }

  lemma LowerPages(s: Tree, y: nat)
    requires CanLower(s) && y in s.pages && y != s.root
    ensures var c, t := Kid(s, s.root, 0), Lower(s);
            && y in s.info && Shape(s.pages[y], s.info[y]) && y in t.pages && y in t.info && t.info[y] == s.info[y]
            && t.pages[y] == (if y == c then s.pages[y].(parent := 0) else s.pages[y])
            && c in t.info && t.info[y].level <= t.info[c].level && (y != c ==> s.pages[y].parent != s.root)
            && s.info[c].lo == MIN && s.info[c].hi == MAX && c != s.root && c != 0
  {
    KidFacts(s, s.root, 0);
    assert Local(s, y) && Local(s, s.root);
    var j := Slot(s, y);
    KidFacts(s, s.pages[y].parent, j);
    UnderRoot(s, y);
  }

  lemma LowerKeeps(s: Tree)
    requires CanLower(s)
    ensures Inv(Lower(s))
  {
    var t := Lower(s);
    KidFacts(s, s.root, 0);
    forall y | y in t.pages
      ensures Local(t, y)
    {
      LowerLocal(s, y);
    }
  }

  lemma LowerLocal(s: Tree, y: nat)
    requires CanLower(s) && y in Lower(s).pages
    ensures Local(Lower(s), y)
  {
    var c, t := Kid(s, s.root, 0), Lower(s);
    LowerPages(s, y);
    assert Local(s, y);
    if y != c {
      var j := Slot(s, y);
      LowerPages(s, s.pages[y].parent);
      assert t.pages[s.pages[y].parent].kids[j] == y;
    }
    if y in t.pages && s.pages[y].Leaf? {
      if s.pages[y].right != 0 {
        LowerRight(s, y);
      }
    } else {
      forall j | 0 <= j < |s.pages[y].kids|
        ensures KidAt(t, y, j)
      {
        KidFacts(s, y, j);
        LowerPages(s, Kid(s, y, j));
      }
    }
  }

  lemma LowerRight(s: Tree, y: nat)
    requires CanLower(s) && y in s.pages && s.pages[y].Leaf? && s.pages[y].right != 0 && y in s.info
    ensures s.pages[y].right in s.pages && s.pages[y].right != s.root
  {
    assert Local(s, y);
  }

  lemma UnderRoot(s: Tree, y: nat)
    requires y in s.pages && y != s.root
    ensures y in s.info && s.root in s.info && s.info[y].level < s.info[s.root].level
  {
    var j := Slot(s, y);
    KidFacts(s, s.pages[y].parent, j);
    assert Local(s, s.pages[y].parent);
  }

  // A leaf that is the root is the only page; without records it stands for nothing.
  lemma LastPage(s: Tree)
    requires s.root in s.pages && s.pages[s.root].Leaf? && s.pages[s.root].recs == []
    ensures s.pages.Keys == {s.root} && s.contents == map[]
  {
    assert Local(s, s.root);
    forall y | y in s.pages
      ensures y == s.root
    {
      assert Local(s, y);
      if y != s.root {
        UnderRoot(s, y);
      }
    }
    forall k | MIN <= k < MAX
      ensures k !in s.contents
    {
      assert Same(s.contents, Records([]), k);
    }
  }
}
