/** The B+tree of bpt.c as pages that name one another, and what each change of the tree
    keeps.  What holds of a page is said of the page and its neighbours alone; that the
    whole is a tree, and holds each key once, follows. */
module BptTree {
  import opened BptPage

  // Separators pass through int, so keys have 32 bits.
  const MIN := -0x8000_0000
  const MAX := 0x8000_0000

  // The 32-bit key nearest to any key: it compares with separators in the same way.
  function Clamped(key: int): int {
    if key < MIN then MIN else if key >= MAX then MAX - 1 else key
  }

  // Of all keys of 32 bits, the one next to it.
  lemma ClampedExactly(key: int, k: int)
    requires -0x8000_0000 <= k < 0x8000_0000
    ensures -0x8000_0000 <= Clamped(key) < 0x8000_0000
    ensures if key <= k then key <= Clamped(key) <= k else k <= Clamped(key) <= key
  {
  }

  const LEAF_ORDER := 32
  const INTERNAL_ORDER := 249

  // Not in the page: how high it is above the leaves, and the keys it is there for.
  datatype Info = Info(level: nat, lo: int, hi: int)

  // The pages, the root (0 if there is none), and the map that the tree stands for.
  datatype State = State(pages: Pages, root: nat, info: map<nat, Info>, contents: map<int, string>)

  predicate Before(keys: seq<int>, i: int, j: int)
    requires 0 <= i < j < |keys|
  {
    keys[i] < keys[j]
  }

  predicate Ascending(keys: seq<int>) {
    forall i, j {:trigger Before(keys, i, j)} :: 0 <= i < j < |keys| ==> Before(keys, i, j)
  }

  function Keys(recs: seq<Rec>): (keys: seq<int>)
    ensures |keys| == |recs| && forall i :: 0 <= i < |recs| ==> keys[i] == recs[i].key
  {
    seq(|recs|, i requires 0 <= i < |recs| => recs[i].key)
  }

  function Records(recs: seq<Rec>): map<int, string> {
    if recs == [] then map[] else Records(recs[..|recs| - 1])[recs[|recs| - 1].key := recs[|recs| - 1].val]
  }

  // ---------- what holds of one page ----------

  predicate Shape(p: Page, f: Info) {
    && MIN <= f.lo < f.hi <= MAX
    && match p
       case Leaf(_, recs, _) =>
         f.level == 0 && Ascending(Keys(recs)) && forall i :: 0 <= i < |recs| ==> f.lo <= recs[i].key < f.hi
       case Node(_, keys, kids) =>
         && f.level > 0 && |kids| == |keys| + 1 && Ascending(keys)
         && forall i :: 0 <= i < |keys| ==> f.lo < keys[i] < f.hi
  }

  // The keys that kid i is there for.
  function Range(p: Page, f: Info, i: int): (r: Info)
    requires p.Node? && |p.kids| == |p.keys| + 1 && 0 <= i < |p.kids| && f.level > 0
  {
    Info(f.level - 1, if i == 0 then f.lo else p.keys[i - 1], if i == |p.keys| then f.hi else p.keys[i])
  }

  predicate KidAt(s: State, x: nat, i: int)
    requires x in s.pages && x in s.info && s.pages[x].Node? && Shape(s.pages[x], s.info[x]) && 0 <= i < |s.pages[x].kids|
  {
    var c := s.pages[x].kids[i];
    c in s.pages && c in s.info && s.pages[c].parent == x && s.info[c] == Range(s.pages[x], s.info[x], i)
  }

  // It hangs on its parent, or is the root.
  predicate Hangs(s: State, x: nat)
    requires x in s.pages && x in s.info
  {
    if x == s.root then s.pages[x].parent == 0 && s.info[x].lo == MIN && s.info[x].hi == MAX
    else
      var q := s.pages[x].parent;
      q in s.pages && s.pages[q].Node? && x in s.pages[q].kids
  }

  // The next leaf to the right.
  predicate Chained(s: State, x: nat)
    requires x in s.pages && x in s.info && s.pages[x].Leaf?
  {
    var r := s.pages[x].right;
    if s.info[x].hi == MAX then r == 0
    else r in s.pages && r in s.info && s.pages[r].Leaf? && s.info[r].lo == s.info[x].hi
  }

  // Of the keys it is there for, a leaf has just those of the map.
  predicate Agrees(recs: seq<Rec>, f: Info, contents: map<int, string>) {
    forall k :: f.lo <= k < f.hi ==> Same(contents, Records(recs), k)
  }

  predicate Same(a: map<int, string>, b: map<int, string>, k: int) {
    (k in a <==> k in b) && (k in a ==> a[k] == b[k])
  }

  ghost predicate Local(s: State, x: nat)
    requires x in s.pages
  {
    && x in s.info && Shape(s.pages[x], s.info[x]) && Hangs(s, x)
    && s.root in s.info && s.info[x].level <= s.info[s.root].level
    && (s.pages[x].Leaf? ==> Chained(s, x) && Agrees(s.pages[x].recs, s.info[x], s.contents))
    && (s.pages[x].Node? ==> forall i {:trigger KidAt(s, x, i)} :: 0 <= i < |s.pages[x].kids| ==> KidAt(s, x, i))
  }

  ghost predicate Inv(s: State) {
    && 0 !in s.pages
    && (forall x {:trigger Local(s, x)} :: x in s.pages ==> Local(s, x))
    && (if s.root == 0 then s.pages == map[] && s.contents == map[] else s.root in s.pages)
    && (forall k :: k in s.contents ==> MIN <= k < MAX)
  }

  lemma NoTree()
    ensures Inv(State(map[], 0, map[], map[]))
  {
  }

  type Tree = s: State | Inv(s) witness (NoTree(); State(map[], 0, map[], map[]))

  // ---------- one way to each key ----------

  predicate Covers(s: State, x: nat, k: int) {
    x in s.pages && x in s.info && s.info[x].lo <= k < s.info[x].hi
  }

  lemma ParentCovers(s: Tree, x: nat, k: int) returns (i: int)
    requires Covers(s, x, k) && x != s.root
    ensures var q := s.pages[x].parent;
            && Covers(s, q, k) && s.pages[q].Node? && s.info[q].level == s.info[x].level + 1
            && s.root in s.info && s.info[q].level <= s.info[s.root].level
            && Shape(s.pages[q], s.info[q])
            && 0 <= i < |s.pages[q].kids| && s.pages[q].kids[i] == x && KidAt(s, q, i)
  {
    assert Local(s, x);
    var q := s.pages[x].parent;
    assert Local(s, q);
    i :| 0 <= i < |s.pages[q].kids| && s.pages[q].kids[i] == x;
    assert KidAt(s, q, i);
  }

  lemma RangesApart(p: Page, f: Info, i: nat, j: nat)
    requires p.Node? && Shape(p, f) && i < j < |p.kids|
    ensures Range(p, f, i).hi <= Range(p, f, j).lo
  {
    if i < j - 1 {
      assert Before(p.keys, i, j - 1);
    }
  }

  // Two pages of one level never are there for the same key.
  lemma {:induction false} OnePage(s: Tree, x: nat, y: nat, k: int)
    requires Covers(s, x, k) && Covers(s, y, k) && s.info[x].level == s.info[y].level
    ensures x == y
    decreases if s.root in s.info then s.info[s.root].level - s.info[x].level else 0
  {
    assert Local(s, x) && Local(s, y);
    if x != s.root {
      var i := ParentCovers(s, x, k);
      if y != s.root {
        var j := ParentCovers(s, y, k);
        OnePage(s, s.pages[x].parent, s.pages[y].parent, k);
        var q := s.pages[x].parent;
        if i < j {
          RangesApart(s.pages[q], s.info[q], i, j);
        } else if j < i {
          RangesApart(s.pages[q], s.info[q], j, i);
        }
      }
    } else if y != s.root {
      var j := ParentCovers(s, y, k);
    }
  }

  // ---------- records ----------

  lemma Part(recs: seq<Rec>, from: nat, to: nat)
    requires Ascending(Keys(recs)) && from <= to <= |recs|
    ensures Ascending(Keys(recs[from..to]))
  {
    forall i, j | 0 <= i < j < to - from
      ensures Before(Keys(recs[from..to]), i, j)
    {
      assert Before(Keys(recs), from + i, from + j);
    }
  }

  lemma {:induction false} RecordsAt(recs: seq<Rec>, i: nat)
    requires Ascending(Keys(recs)) && i < |recs|
    ensures recs[i].key in Records(recs) && Records(recs)[recs[i].key] == recs[i].val
  {
    var front := recs[..|recs| - 1];
    if i < |front| {
      assert Before(Keys(recs), i, |recs| - 1);
      Part(recs, 0, |recs| - 1);
      RecordsAt(front, i);
    }
  }

  lemma {:induction false} RecordsOnly(recs: seq<Rec>, k: int) returns (i: nat)
    requires k in Records(recs)
    ensures i < |recs| && recs[i].key == k
  {
    i := |recs| - 1;
    if recs[i].key != k {
      i := RecordsOnly(recs[..i], k);
    }
  }

  // The records of two pieces, one after the other.
  lemma {:induction false} RecordsOf(a: seq<Rec>, b: seq<Rec>, k: int)
    ensures k in Records(a + b) <==> k in Records(a) || k in Records(b)
    ensures k in Records(b) ==> Records(a + b)[k] == Records(b)[k]
    ensures k in Records(a) && k !in Records(b) ==> Records(a + b)[k] == Records(a)[k]
  {
    if b == [] {
      assert a + b == a;
    } else {
      RecordsOf(a, b[..|b| - 1], k);
      assert (a + b)[..|a + b| - 1] == a + b[..|b| - 1];
    }
  }

  // ---------- other records in one leaf ----------

  function WithRecs(s: State, p: nat, recs: seq<Rec>, contents: map<int, string>): State
    requires p in s.pages && s.pages[p].Leaf?
  {
    s.(pages := s.pages[p := s.pages[p].(recs := recs)], contents := contents)
  }

  lemma WithRecsKeeps(s: Tree, p: nat, recs: seq<Rec>, contents: map<int, string>)
    requires p in s.pages && s.pages[p].Leaf? && p in s.info
    requires Shape(s.pages[p].(recs := recs), s.info[p]) && Agrees(recs, s.info[p], contents)
    requires forall k :: !(s.info[p].lo <= k < s.info[p].hi) ==> Same(contents, s.contents, k)
    ensures Inv(WithRecs(s, p, recs, contents))
  {
    var t := WithRecs(s, p, recs, contents);
    assert Local(s, p);
    forall k | k in contents
      ensures MIN <= k < MAX
    {
      assert !(s.info[p].lo <= k < s.info[p].hi) ==> Same(contents, s.contents, k);
    }
    forall x | x in t.pages
      ensures Local(t, x)
    {
      assert Local(s, x);
      if s.pages[x].Leaf? && x != p {
        OtherLeaf(s, p, x, contents);
      }
      if s.pages[x].Node? {
        forall i | 0 <= i < |s.pages[x].kids|
          ensures KidAt(t, x, i)
        {
          assert KidAt(s, x, i);
        }
      }
    }
  }

  lemma OtherLeaf(s: Tree, p: nat, x: nat, contents: map<int, string>)
    requires p in s.pages && s.pages[p].Leaf? && p in s.info && x in s.pages && s.pages[x].Leaf? && x != p
    requires forall k :: !(s.info[p].lo <= k < s.info[p].hi) ==> Same(contents, s.contents, k)
    ensures x in s.info && Agrees(s.pages[x].recs, s.info[x], contents)
  {
    assert Local(s, x) && Local(s, p);
    forall k | s.info[x].lo <= k < s.info[x].hi
      ensures Same(contents, Records(s.pages[x].recs), k)
    {
      if s.info[p].lo <= k < s.info[p].hi {
        OnePage(s, x, p, k);
      }
      assert Same(contents, s.contents, k) && Same(s.contents, Records(s.pages[x].recs), k);
    }
  }

  // Page q is a node and has a kid i.
  predicate HasKid(s: State, q: nat, i: nat) {
    && q in s.pages && s.pages[q].Node? && i < |s.pages[q].kids| == |s.pages[q].keys| + 1
    && s.pages[q].kids[i] in s.pages && s.pages[q].kids[i] in s.info && q in s.info
  }

  function Kid(s: State, q: nat, i: nat): nat
    requires HasKid(s, q, i)
  {
    s.pages[q].kids[i]
  }

  lemma KidFacts(s: Tree, q: nat, i: nat)
    requires q in s.pages && s.pages[q].Node? && i < |s.pages[q].kids|
    ensures HasKid(s, q, i) && Shape(s.pages[q], s.info[q]) && KidAt(s, q, i) && Shape(s.pages[Kid(s, q, i)], s.info[Kid(s, q, i)])
    ensures q != Kid(s, q, i) && s.pages[Kid(s, q, i)].parent == q && Kid(s, q, i) != s.root && q != 0 && Kid(s, q, i) != 0
  {
    assert Local(s, q) && KidAt(s, q, i) && Local(s, s.pages[q].kids[i]);
  }

  // A page is nobody's kid twice.
  lemma KidOnce(s: Tree, x: nat, i: nat, y: nat, j: nat)
    requires HasKid(s, x, i) && HasKid(s, y, j) && Kid(s, x, i) == Kid(s, y, j)
    ensures x == y && i == j
  {
    KidFacts(s, x, i);
    KidFacts(s, y, j);
    if i < j {
      RangesApart(s.pages[x], s.info[x], i, j);
    } else if j < i {
      RangesApart(s.pages[x], s.info[x], j, i);
    }
  }

  // The slot in which a page hangs.
  lemma Slot(s: Tree, y: nat) returns (j: nat)
    requires y in s.pages && y != s.root
    ensures HasKid(s, s.pages[y].parent, j) && Kid(s, s.pages[y].parent, j) == y && s.pages[y].parent != 0
  {
    var q := s.pages[y].parent;
    assert Local(s, y);
    j :| 0 <= j < |s.pages[q].kids| && s.pages[q].kids[j] == y;
    KidFacts(s, q, j);
  }

  // ---------- kids that change parents ----------

  // The pages with a new parent for some of them.
  function Adopted(pages: Pages, kids: seq<nat>, n: nat): Pages {
    map x | x in pages :: if x in kids then pages[x].(parent := n) else pages[x]
  }

  // The kids of x from number c on.
  predicate KidsFrom(s: State, x: nat, c: nat, given: seq<nat>)
    requires x in s.pages
  {
    if s.pages[x].Leaf? then given == [] else c <= |s.pages[x].kids| && given == s.pages[x].kids[c..]
  }

  // Giving some kids of x to n leaves the other kids' parents alone.
  lemma AdoptedKid(s: Tree, x: nat, c: nat, given: seq<nat>, n: nat, y: nat, j: nat)
    requires x in s.pages && KidsFrom(s, x, c, given) && HasKid(s, y, j)
    ensures var k := Kid(s, y, j);
            k in Adopted(s.pages, given, n)
            && Adopted(s.pages, given, n)[k] == if y == x && j >= c then s.pages[k].(parent := n) else s.pages[k]
  {
    var k := Kid(s, y, j);
    if y == x && j >= c {
      assert given[j - c] == k;
    } else if k in given {
      var m :| 0 <= m < |given| && given[m] == k;
      KidFacts(s, x, c + m);
      KidOnce(s, x, c + m, y, j);
    }
  }

  // The root is nobody's kid.
  lemma RootStays(s: Tree, x: nat, c: nat, given: seq<nat>, n: nat)
    requires x in s.pages && KidsFrom(s, x, c, given) && s.root != 0
    ensures s.root in s.pages && Adopted(s.pages, given, n)[s.root] == s.pages[s.root]
  {
    if s.root in given {
      var m :| 0 <= m < |given| && given[m] == s.root;
      KidFacts(s, x, c + m);
    }
  }
}
