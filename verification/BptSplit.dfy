/** A page of the B+tree in two: what a full leaf and a full node have in common, and what
    the parent has to learn. */
module BptSplit {
  import opened BptPage
  import opened BptTree

  // ---------- one more kid ----------

  // Kid i of a page is split in two at sep; the right one is page n.
  function Entered(p: Page, i: nat, sep: int, n: nat): Page
    requires p.Node? && i < |p.kids| == |p.keys| + 1
  {
    Node(p.parent, p.keys[..i] + [sep] + p.keys[i..], p.kids[..i + 1] + [n] + p.kids[i + 1..])
  }

  predicate Between(p: Page, f: Info, i: nat, sep: int)
    requires p.Node? && Shape(p, f) && i < |p.kids|
  {
    Range(p, f, i).lo < sep < Range(p, f, i).hi
  }

  lemma EnteredShape(p: Page, f: Info, i: nat, sep: int, n: nat)
    requires p.Node? && Shape(p, f) && i < |p.kids| && Between(p, f, i, sep)
    ensures Shape(Entered(p, i, sep, n), f)
  {
    var keys := Entered(p, i, sep, n).keys;
    forall a, b | 0 <= a < b < |keys|
      ensures Before(keys, a, b)
    {
      if b == i {
        assert a < i - 1 ==> Before(p.keys, a, i - 1);
      } else if a == i {
        assert i < b - 1 ==> Before(p.keys, i, b - 1);
      } else {
        assert Before(p.keys, if a < i then a else a - 1, if b < i then b else b - 1);
      }
    }
  }

  lemma EnteredKid(p: Page, f: Info, i: nat, sep: int, n: nat, j: nat)
    requires p.Node? && Shape(p, f) && i < |p.kids| && Between(p, f, i, sep) && j < |p.kids| + 1
    ensures var e := Entered(p, i, sep, n);
            && e.kids[j] == (if j <= i then p.kids[j] else if j == i + 1 then n else p.kids[j - 1])
            && Range(e, f, j) == (if j < i then Range(p, f, j) else if j == i then Range(p, f, i).(hi := sep)
                                  else if j == i + 1 then Range(p, f, i).(lo := sep) else Range(p, f, j - 1))
  {
  }

  // ---------- the halves ----------

  // A leaf keeps c records; a node keeps c keys and gives key c to its parent.
  predicate Cuttable(p: Page, c: nat) {
    match p
    case Leaf(_, recs, _) => 0 < c < |recs|
    case Node(_, keys, kids) => c < |keys| && |kids| == |keys| + 1
  }

  function Sep(p: Page, c: nat): int
    requires Cuttable(p, c)
  {
    if p.Leaf? then p.recs[c].key else p.keys[c]
  }

  function LeftHalf(p: Page, c: nat, n: nat): Page
    requires Cuttable(p, c)
  {
    if p.Leaf? then Leaf(p.parent, p.recs[..c], n) else Node(p.parent, p.keys[..c], p.kids[..c + 1])
  }

  function RightHalf(p: Page, c: nat): Page
    requires Cuttable(p, c)
  {
    if p.Leaf? then Leaf(p.parent, p.recs[c..], p.right) else Node(p.parent, p.keys[c + 1..], p.kids[c + 1..])
  }

  // The kids that go to the right half.
  function Given(p: Page, c: nat): seq<nat>
    requires Cuttable(p, c)
  {
    if p.Leaf? then [] else p.kids[c + 1..]
  }

  function Halved(pages: Pages, x: nat, n: nat, c: nat): Pages
    requires x in pages && Cuttable(pages[x], c)
  {
    Adopted(pages, Given(pages[x], c), n)[x := LeftHalf(pages[x], c, n)][n := RightHalf(pages[x], c)]
  }

  predicate CanSplit(s: State, q: nat, i: nat, n: nat, c: nat) {
    HasKid(s, q, i) && Cuttable(s.pages[Kid(s, q, i)], c) && n !in s.pages && n != 0
  }

  // Kid i of q is split: its right half is the new page n.
  function Split(s: State, q: nat, i: nat, n: nat, c: nat): State
    requires CanSplit(s, q, i, n, c)
  {
    var x := Kid(s, q, i);
    var f, sep := s.info[x], Sep(s.pages[x], c);
    s.(pages := Halved(s.pages, x, n, c)[q := Entered(s.pages[q], i, sep, n)],
       info := s.info[x := f.(hi := sep)][n := f.(lo := sep)])
  }

  // ---------- a half is a page ----------

  lemma HalvesShape(p: Page, f: Info, c: nat, n: nat)
    requires Shape(p, f) && Cuttable(p, c)
    ensures f.lo < Sep(p, c) < f.hi
    ensures Shape(LeftHalf(p, c, n), f.(hi := Sep(p, c))) && Shape(RightHalf(p, c), f.(lo := Sep(p, c)))
  {
    if p.Leaf? {
      LeafHalvesShape(p, f, c, n);
    } else {
      NodeHalvesShape(p, f, c, n);
    }
  }

  lemma LeafHalvesShape(p: Page, f: Info, c: nat, n: nat)
    requires p.Leaf? && Shape(p, f) && Cuttable(p, c)
    ensures f.lo < Sep(p, c) < f.hi
    ensures Shape(LeftHalf(p, c, n), f.(hi := Sep(p, c))) && Shape(RightHalf(p, c), f.(lo := Sep(p, c)))
  {
    var keys := Keys(p.recs);
    assert p.recs[..c] == p.recs[0..c] && p.recs[c..] == p.recs[c..|p.recs|];
    Part(p.recs, 0, c);
    Part(p.recs, c, |p.recs|);
    assert Before(keys, 0, c);
    assert forall j :: 0 <= j < c ==> p.recs[..c][j].key == keys[j] && Before(keys, j, c);
    assert forall j :: 0 < j < |keys| - c ==> p.recs[c..][j].key == keys[c + j] && Before(keys, c, c + j);
  }

  lemma NodeHalvesShape(p: Page, f: Info, c: nat, n: nat)
    requires p.Node? && Shape(p, f) && Cuttable(p, c)
    ensures f.lo < Sep(p, c) < f.hi
    ensures Shape(LeftHalf(p, c, n), f.(hi := Sep(p, c))) && Shape(RightHalf(p, c), f.(lo := Sep(p, c)))
  {
    var keys := p.keys;
    forall a, b | 0 <= a < b < c
      ensures Before(keys[..c], a, b)
    {
      assert Before(keys, a, b);
    }
    var right := keys[c + 1..];
    forall a, b | 0 <= a < b < |right|
      ensures Before(right, a, b)
    {
      assert Before(keys, c + 1 + a, c + 1 + b);
    }
    assert forall j :: 0 <= j < c ==> keys[..c][j] == keys[j] && Before(keys, j, c);
    assert forall j :: 0 <= j < |right| ==> right[j] == keys[c + 1 + j] && Before(keys, c, c + 1 + j);
  }

  lemma NotInHalf(recs: seq<Rec>, c: nat, k: int)
    requires Ascending(Keys(recs)) && c < |recs|
    ensures k < recs[c].key ==> k !in Records(recs[c..])
    ensures k >= recs[c].key ==> k !in Records(recs[..c])
  {
    if k in Records(recs[..c]) {
      var j := RecordsOnly(recs[..c], k);
      assert Before(Keys(recs), j, c);
    }
    if k in Records(recs[c..]) {
      var j := RecordsOnly(recs[c..], k);
      assert j > 0 ==> Before(Keys(recs), c, c + j);
    }
  }

  lemma HalfHas(recs: seq<Rec>, c: nat, k: int)
    requires Ascending(Keys(recs)) && c < |recs|
    ensures Same(Records(recs), Records(if k < recs[c].key then recs[..c] else recs[c..]), k)
  {
    assert recs == recs[..c] + recs[c..];
    RecordsOf(recs[..c], recs[c..], k);
    NotInHalf(recs, c, k);
  }

  lemma HalvesAgree(p: Page, f: Info, c: nat, n: nat, contents: map<int, string>)
    requires p.Leaf? && Shape(p, f) && Cuttable(p, c) && Agrees(p.recs, f, contents)
    ensures Agrees(LeftHalf(p, c, n).recs, f.(hi := Sep(p, c)), contents)
    ensures Agrees(RightHalf(p, c).recs, f.(lo := Sep(p, c)), contents)
  {
    HalvesShape(p, f, c, n);
    forall k | f.lo <= k < Sep(p, c)
      ensures Same(contents, Records(p.recs[..c]), k)
    {
      assert Same(contents, Records(p.recs), k);
      HalfHas(p.recs, c, k);
    }
    forall k | Sep(p, c) <= k < f.hi
      ensures Same(contents, Records(p.recs[c..]), k)
    {
      assert Same(contents, Records(p.recs), k);
      HalfHas(p.recs, c, k);
    }
  }

  // ---------- a split keeps the tree ----------

  // What a split does to pages other than the three it is about, and to those three.
  lemma SplitPages(s: Tree, q: nat, i: nat, n: nat, c: nat, y: nat)
    requires CanSplit(s, q, i, n, c) && y in Split(s, q, i, n, c).pages
    ensures var x, t := Kid(s, q, i), Split(s, q, i, n, c);
            && Shape(s.pages[q], s.info[q]) && Shape(s.pages[x], s.info[x]) && KidAt(s, q, i)
            && q != n && x != n && x != q && KidsFrom(s, x, c + 1, Given(s.pages[x], c))
            && Between(s.pages[q], s.info[q], i, Sep(s.pages[x], c))
            && y in t.info && Shape(t.pages[y], t.info[y])
            && s.root != 0 && s.root in s.info && t.info[s.root] == s.info[s.root] && t.info[y].level <= s.info[s.root].level
            && t.info[y].level == (if y == n then s.info[x] else s.info[y]).level
            && (y != n ==> y in s.pages && t.pages[y].Leaf? == s.pages[y].Leaf?)
            && (y != n && y != x && y != q ==> t.info[y] == s.info[y] && (t.pages[y] == s.pages[y] || t.pages[y] == s.pages[y].(parent := n)))
  {
    var x := Kid(s, q, i);
    KidFacts(s, q, i);
    HalvesShape(s.pages[x], s.info[x], c, n);
    EnteredShape(s.pages[q], s.info[q], i, Sep(s.pages[x], c), n);
    assert Local(s, q) && Local(s, x);
    if y != n {
      assert Local(s, y);
    }
  }

  lemma SplitHangs(s: Tree, q: nat, i: nat, n: nat, c: nat, y: nat)
    requires CanSplit(s, q, i, n, c) && y in Split(s, q, i, n, c).pages && y in Split(s, q, i, n, c).info
    ensures Hangs(Split(s, q, i, n, c), y)
  {
    var x, t := Kid(s, q, i), Split(s, q, i, n, c);
    SplitPages(s, q, i, n, c, y);
    if y == n {
      assert t.pages[q].kids[i + 1] == n;
    } else if y == s.root {
      RootStays(s, x, c + 1, Given(s.pages[x], c), n);
      assert Local(s, y);
    } else {
      SplitHangsKid(s, q, i, n, c, y);
    }
  }

  lemma SplitHangsKid(s: Tree, q: nat, i: nat, n: nat, c: nat, y: nat)
    requires CanSplit(s, q, i, n, c) && y in Split(s, q, i, n, c).pages && y in Split(s, q, i, n, c).info
    requires y != n && y != s.root
    ensures Hangs(Split(s, q, i, n, c), y)
  {
    var x, t := Kid(s, q, i), Split(s, q, i, n, c);
    SplitPages(s, q, i, n, c, y);
    var j := Slot(s, y);
    var z := s.pages[y].parent;
    AdoptedKid(s, x, c + 1, Given(s.pages[x], c), n, z, j);
    KidFacts(s, z, j);
    if z == q {
      assert t.pages[q].kids[if j <= i then j else j + 1] == y;
    } else if z == x {
      assert j <= c ==> t.pages[x].kids[j] == y;
      assert j > c ==> t.pages[n].kids[j - (c + 1)] == y;
    }
  }

  lemma SplitLeaves(s: Tree, q: nat, i: nat, n: nat, c: nat, y: nat)
    requires CanSplit(s, q, i, n, c)
    requires var t := Split(s, q, i, n, c); y in t.pages && t.pages[y].Leaf? && y in t.info
    ensures var t := Split(s, q, i, n, c); Chained(t, y) && Agrees(t.pages[y].recs, t.info[y], t.contents)
  {
    var x, t := Kid(s, q, i), Split(s, q, i, n, c);
    SplitPages(s, q, i, n, c, y);
    var was := if y == n then x else y;
    assert Local(s, was);
    if was == x {
      HalvesAgree(s.pages[x], s.info[x], c, n, s.contents);
    }
    var r := s.pages[was].right;
    if r != 0 {
      SplitPages(s, q, i, n, c, r);
    }
  }

  lemma SplitKids(s: Tree, q: nat, i: nat, n: nat, c: nat, y: nat, j: nat)
    requires CanSplit(s, q, i, n, c)
    requires var t := Split(s, q, i, n, c);
             y in t.pages && t.pages[y].Node? && y in t.info && Shape(t.pages[y], t.info[y]) && j < |t.pages[y].kids|
    ensures KidAt(Split(s, q, i, n, c), y, j)
  {
    var x, t := Kid(s, q, i), Split(s, q, i, n, c);
    SplitPages(s, q, i, n, c, y);
    if y == q {
      SplitParentKids(s, q, i, n, c, j);
    } else if y == n {
      SplitRightKids(s, q, i, n, c, j);
    } else {
      KidFacts(s, y, j);
      AdoptedKid(s, x, c + 1, Given(s.pages[x], c), n, y, j);
      SplitPages(s, q, i, n, c, Kid(s, y, j));
    }
  }

  lemma SplitRightKids(s: Tree, q: nat, i: nat, n: nat, c: nat, j: nat)
    requires CanSplit(s, q, i, n, c)
    requires var t := Split(s, q, i, n, c);
             n in t.pages && t.pages[n].Node? && n in t.info && Shape(t.pages[n], t.info[n]) && j < |t.pages[n].kids|
    ensures KidAt(Split(s, q, i, n, c), n, j)
  {
    var x := Kid(s, q, i);
    SplitPages(s, q, i, n, c, n);
    KidFacts(s, x, c + 1 + j);
    AdoptedKid(s, x, c + 1, Given(s.pages[x], c), n, x, c + 1 + j);
    SplitPages(s, q, i, n, c, Kid(s, x, c + 1 + j));
  }

  lemma SplitParentKids(s: Tree, q: nat, i: nat, n: nat, c: nat, j: nat)
    requires CanSplit(s, q, i, n, c)
    requires var t := Split(s, q, i, n, c); q in t.info && Shape(t.pages[q], t.info[q]) && j < |t.pages[q].kids|
    ensures KidAt(Split(s, q, i, n, c), q, j)
  {
    var x, t := Kid(s, q, i), Split(s, q, i, n, c);
    SplitPages(s, q, i, n, c, q);
    EnteredKid(s.pages[q], s.info[q], i, Sep(s.pages[x], c), n, j);
    if j != i + 1 {
      var m := if j <= i then j else j - 1;
      KidFacts(s, q, m);
      if Kid(s, q, m) == x {
        KidOnce(s, q, i, q, m);
      }
      AdoptedKid(s, x, c + 1, Given(s.pages[x], c), n, q, m);
      SplitPages(s, q, i, n, c, Kid(s, q, m));
    }
  }

  lemma SplitKeeps(s: Tree, q: nat, i: nat, n: nat, c: nat)
    requires CanSplit(s, q, i, n, c)
    ensures Inv(Split(s, q, i, n, c))
  {
    var t := Split(s, q, i, n, c);
    KidFacts(s, q, i);
    forall y | y in t.pages
      ensures Local(t, y)
    {
      SplitPages(s, q, i, n, c, y);
      SplitHangs(s, q, i, n, c, y);
      if t.pages[y].Leaf? {
        SplitLeaves(s, q, i, n, c, y);
      } else {
        forall j | 0 <= j < |t.pages[y].kids|
          ensures KidAt(t, y, j)
        {
          SplitKids(s, q, i, n, c, y, j);
        }
      }
    }
  }
}
