/** What the pages of a tree have to do with each other from afar: all leaves are equally deep,
    the right pointers list them in order, and their records are the map. */
module BptOrder {
  import opened BptPage
  import opened BptTree

  // ---------- depth ----------

  predicate WayDown(s: State, way: seq<nat>) {
    var n := |way| - 1;
    && n >= 0 && way[n] in s.pages
    && if n == 0 then way[0] == s.root
       else WayDown(s, way[..n]) && s.pages[way[n - 1]].Node? && way[n] in s.pages[way[n - 1]].kids
  }

  lemma {:induction false} DepthIsLevel(s: Tree, way: seq<nat>)
    requires WayDown(s, way)
    ensures s.root in s.info && way[|way| - 1] in s.info
    ensures s.info[way[|way| - 1]].level == s.info[s.root].level - (|way| - 1)
  {
    var n := |way| - 1;
    assert Local(s, way[n]);
    if n > 0 {
      DepthIsLevel(s, way[..n]);
      var q := way[n - 1];
      var j :| 0 <= j < |s.pages[q].kids| && s.pages[q].kids[j] == way[n];
      KidFacts(s, q, j);
    }
  }

  // All leaves are equally deep.
  lemma EqualDepth(s: Tree, a: seq<nat>, b: seq<nat>)
    requires WayDown(s, a) && WayDown(s, b) && s.pages[a[|a| - 1]].Leaf? && s.pages[b[|b| - 1]].Leaf?
    ensures |a| == |b|
  {
    DepthIsLevel(s, a);
    DepthIsLevel(s, b);
    assert Local(s, a[|a| - 1]) && Local(s, b[|b| - 1]);
  }

  // ---------- the leaves from left to right ----------

  function Leaves(s: State, x: nat, level: nat): seq<nat>
    decreases level, 1, 0
  {
    if x !in s.pages then [] else if s.pages[x].Leaf? then [x]
    else if level == 0 then [] else LeavesOf(s, s.pages[x].kids, level)
  }

  function LeavesOf(s: State, kids: seq<nat>, level: nat): seq<nat>
    requires level > 0
    decreases level, 0, |kids|
  {
    if kids == [] then [] else LeavesOf(s, kids[..|kids| - 1], level) + Leaves(s, kids[|kids| - 1], level - 1)
  }

  predicate IsLeaf(s: State, x: nat) {
    x in s.pages && s.pages[x].Leaf? && x in s.info
  }

  // These leaves, each the right sibling of the one before it, are there for the keys from lo to hi.
  predicate Spans(s: State, leaves: seq<nat>, lo: int, hi: int) {
    && leaves != [] && IsLeaf(s, leaves[0]) && s.info[leaves[0]].lo == lo
    && if |leaves| == 1 then s.info[leaves[0]].hi == hi
       else s.pages[leaves[0]].right == leaves[1] && Spans(s, leaves[1..], s.info[leaves[0]].hi, hi)
  }

  lemma LeafFacts(s: Tree, x: nat)
    requires IsLeaf(s, x)
    ensures Shape(s.pages[x], s.info[x]) && Chained(s, x)
  {
    assert Local(s, x);
  }

  lemma {:induction false} SpansJoin(s: Tree, a: seq<nat>, b: seq<nat>, lo: int, mid: int, hi: int)
    requires Spans(s, a, lo, mid) && Spans(s, b, mid, hi)
    ensures Spans(s, a + b, lo, hi)
  {
    LeafFacts(s, a[0]);
    LeafFacts(s, b[0]);
    if |a| == 1 {
      LeafFacts(s, s.pages[a[0]].right);
      OnePage(s, s.pages[a[0]].right, b[0], mid);
      assert (a + b)[1..] == b;
    } else {
      SpansJoin(s, a[1..], b, s.info[a[0]].hi, mid, hi);
      assert (a + b)[1..] == a[1..] + b;
    }
  }

  lemma {:induction false} LeavesSpan(s: Tree, x: nat)
    requires x in s.pages && x in s.info
    ensures s.info[x].level >= 0 && Spans(s, Leaves(s, x, s.info[x].level), s.info[x].lo, s.info[x].hi)
    decreases s.info[x].level, 1, 0
  {
    assert Local(s, x);
    if s.pages[x].Node? {
      var kids := s.pages[x].kids;
      assert kids[..|kids|] == kids;
      KidsSpan(s, x, |kids|);
    }
  }

  lemma {:induction false} KidsSpan(s: Tree, x: nat, n: nat)
    requires x in s.pages && x in s.info && s.pages[x].Node? && Shape(s.pages[x], s.info[x]) && 0 < n <= |s.pages[x].kids|
    ensures Spans(s, LeavesOf(s, s.pages[x].kids[..n], s.info[x].level), s.info[x].lo, Range(s.pages[x], s.info[x], n - 1).hi)
    decreases s.info[x].level, 0, n
  {
    var kids := s.pages[x].kids;
    KidFacts(s, x, n - 1);
    LeavesSpan(s, kids[n - 1]);
    assert kids[..n][..n - 1] == kids[..n - 1];
    if n > 1 {
      KidsSpan(s, x, n - 1);
      SpansJoin(s, LeavesOf(s, kids[..n - 1], s.info[x].level), Leaves(s, kids[n - 1], s.info[x].level - 1),
                s.info[x].lo, Range(s.pages[x], s.info[x], n - 2).hi, Range(s.pages[x], s.info[x], n - 1).hi);
    } else {
      var last := Leaves(s, kids[0], s.info[x].level - 1);
      assert LeavesOf(s, kids[..0], s.info[x].level) + last == last;
    }
  }

  // The page that is there for a key, among those that span it.
  lemma {:induction false} SpansKey(s: Tree, leaves: seq<nat>, lo: int, hi: int, k: int) returns (i: nat)
    requires Spans(s, leaves, lo, hi) && lo <= k < hi
    ensures i < |leaves| && Covers(s, leaves[i], k) && IsLeaf(s, leaves[i])
  {
    if k < s.info[leaves[0]].hi {
      i := 0;
    } else {
      i := SpansKey(s, leaves[1..], s.info[leaves[0]].hi, hi, k);
      i := i + 1;
    }
  }

  lemma {:induction false} SpansAt(s: Tree, leaves: seq<nat>, lo: int, hi: int, i: nat)
    requires Spans(s, leaves, lo, hi) && i < |leaves|
    ensures IsLeaf(s, leaves[i]) && lo <= s.info[leaves[i]].lo < s.info[leaves[i]].hi <= hi
    ensures if i == |leaves| - 1 then s.info[leaves[i]].hi == hi else s.pages[leaves[i]].right == leaves[i + 1]
  {
    LeafFacts(s, leaves[0]);
    if |leaves| > 1 {
      SpansAt(s, leaves[1..], s.info[leaves[0]].hi, hi, if i > 0 then i - 1 else 0);
    }
  }

  lemma {:induction false} SpansApart(s: Tree, leaves: seq<nat>, lo: int, hi: int, i: nat, j: nat)
    requires Spans(s, leaves, lo, hi) && i < j < |leaves|
    ensures IsLeaf(s, leaves[i]) && IsLeaf(s, leaves[j]) && s.info[leaves[i]].hi <= s.info[leaves[j]].lo
  {
    if i == 0 {
      SpansAt(s, leaves[1..], s.info[leaves[0]].hi, hi, j - 1);
    } else {
      SpansApart(s, leaves[1..], s.info[leaves[0]].hi, hi, i - 1, j - 1);
    }
  }

  function InOrder(s: State): seq<nat>
    requires s.root in s.info && s.info[s.root].level >= 0
  {
    Leaves(s, s.root, s.info[s.root].level)
  }

  // The right pointers lead from the first leaf of the tree to the last one, through each of the
  // others in the order of the tree.
  lemma ChainIsInOrder(s: Tree)
    requires s.root != 0
    ensures s.root in s.info && s.info[s.root].level >= 0
    ensures var leaves := InOrder(s);
            && leaves != [] && (forall i :: 0 <= i < |leaves| ==> IsLeaf(s, leaves[i]))
            && (forall i :: 0 <= i < |leaves| - 1 ==> s.pages[leaves[i]].right == leaves[i + 1])
            && s.pages[leaves[|leaves| - 1]].right == 0
  {
    assert Local(s, s.root);
    LeavesSpan(s, s.root);
    var leaves := InOrder(s);
    forall i | 0 <= i < |leaves|
      ensures IsLeaf(s, leaves[i]) && (i < |leaves| - 1 ==> s.pages[leaves[i]].right == leaves[i + 1])
    {
      SpansAt(s, leaves, MIN, MAX, i);
      LeafFacts(s, leaves[i]);
    }
    SpansAt(s, leaves, MIN, MAX, |leaves| - 1);
    LeafFacts(s, leaves[|leaves| - 1]);
  }

  // Each leaf is there once.
  lemma EachLeafOnce(s: Tree, x: nat) returns (i: nat)
    requires x in s.pages && s.pages[x].Leaf?
    ensures s.root in s.info && s.info[s.root].level >= 0
    ensures i < |InOrder(s)| && InOrder(s)[i] == x
    ensures forall j :: 0 <= j < |InOrder(s)| && InOrder(s)[j] == x ==> j == i
  {
    assert Local(s, x) && Local(s, s.root);
    LeavesSpan(s, s.root);
    var leaves := InOrder(s);
    i := SpansKey(s, leaves, MIN, MAX, s.info[x].lo);
    LeafFacts(s, leaves[i]);
    OnePage(s, leaves[i], x, s.info[x].lo);
    forall j | 0 <= j < |leaves| && leaves[j] == x
      ensures j == i
    {
      if j < i {
        SpansApart(s, leaves, MIN, MAX, j, i);
      } else if i < j {
        SpansApart(s, leaves, MIN, MAX, i, j);
      }
    }
  }

  // All keys of a leaf come before those of a later one.
  lemma KeysInOrder(s: Tree, i: nat, j: nat, a: nat, b: nat)
    requires s.root in s.info && s.info[s.root].level >= 0 && s.root != 0 && i < j < |InOrder(s)|
    requires var x, y := InOrder(s)[i], InOrder(s)[j];
             IsLeaf(s, x) && IsLeaf(s, y) && a < |s.pages[x].recs| && b < |s.pages[y].recs|
    ensures s.pages[InOrder(s)[i]].recs[a].key < s.pages[InOrder(s)[j]].recs[b].key
  {
    assert Local(s, s.root);
    LeavesSpan(s, s.root);
    SpansApart(s, InOrder(s), MIN, MAX, i, j);
    LeafFacts(s, InOrder(s)[i]);
    LeafFacts(s, InOrder(s)[j]);
  }

  // ---------- the map ----------

  predicate HasRecord(s: State, x: nat, i: nat, k: int) {
    IsLeaf(s, x) && i < |s.pages[x].recs| && s.pages[x].recs[i].key == k
  }

  // A key is in the map just when a leaf has a record for it, and its value is that of the record.
  lemma ContentsAreRecords(s: Tree, k: int)
    ensures k in s.contents <==> exists x: nat, i: nat :: HasRecord(s, x, i, k)
    ensures forall x: nat, i: nat :: HasRecord(s, x, i, k) ==> k in s.contents && s.contents[k] == s.pages[x].recs[i].val
  {
    if k in s.contents {
      assert Local(s, s.root);
      LeavesSpan(s, s.root);
      var j := SpansKey(s, InOrder(s), MIN, MAX, k);
      var x := InOrder(s)[j];
      assert Local(s, x) && Same(s.contents, Records(s.pages[x].recs), k);
      var i := RecordsOnly(s.pages[x].recs, k);
      assert HasRecord(s, x, i, k);
    }
    forall x: nat, i: nat | HasRecord(s, x, i, k)
      ensures k in s.contents && s.contents[k] == s.pages[x].recs[i].val
    {
      assert Local(s, x) && Same(s.contents, Records(s.pages[x].recs), k);
      RecordsAt(s.pages[x].recs, i);
    }
  }

  // No key has two records.
  lemma OneRecord(s: Tree, k: int, x: nat, i: nat, y: nat, j: nat)
    requires HasRecord(s, x, i, k) && HasRecord(s, y, j, k)
    ensures x == y && i == j
  {
    LeafFacts(s, x);
    LeafFacts(s, y);
    OnePage(s, x, y, k);
    var keys := Keys(s.pages[x].recs);
    assert i < j ==> Before(keys, i, j);
    assert j < i ==> Before(keys, j, i);
  }
}
