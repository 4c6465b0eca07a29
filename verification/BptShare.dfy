/** An empty page gets one record or kid from its neighbour: the same pages come out when the
    two are merged and the result is split again. */
module BptShare {
  import opened BptPage
  import opened BptTree
  import opened BptSplit
  import opened BptMerge

  predicate CanShare(s: State, q: nat, i: nat, c: nat) {
    && CanMerge(s, q, i)
    && Kid(s, q, i) != q && Kid(s, q, i + 1) != q && Kid(s, q, i) != Kid(s, q, i + 1) && Kid(s, q, i + 1) != 0
    && Cuttable(Joined(s.pages[Kid(s, q, i)], s.pages[q].keys[i], s.pages[Kid(s, q, i + 1)]), c)
  }

  lemma ShareSplits(s: State, q: nat, i: nat, c: nat)
    requires CanShare(s, q, i, c)
    ensures CanSplit(Merge(s, q, i), q, i, Kid(s, q, i + 1), c) && Kid(Merge(s, q, i), q, i) == Kid(s, q, i)
  {
  }

  function Share(s: State, q: nat, i: nat, c: nat): State
    requires CanShare(s, q, i, c)
  {
    ShareSplits(s, q, i, c);
    Split(Merge(s, q, i), q, i, Kid(s, q, i + 1), c)
  }

  lemma ShareKeeps(s: Tree, q: nat, i: nat, c: nat)
    requires CanShare(s, q, i, c)
    ensures Inv(Share(s, q, i, c))
  {
    MergeKeeps(s, q, i);
    ShareSplits(s, q, i, c);
    SplitKeeps(Merge(s, q, i), q, i, Kid(s, q, i + 1), c);
  }

  // The parent sees another separator.
  lemma ShareParent(s: Tree, q: nat, i: nat, c: nat)
    requires CanShare(s, q, i, c)
    ensures var p := s.pages[q];
            var sep := Sep(Joined(s.pages[p.kids[i]], p.keys[i], s.pages[p.kids[i + 1]]), c);
            Share(s, q, i, c).pages[q] == p.(keys := p.keys[i := sep])
  {
    ShareSplits(s, q, i, c);
    var p, t := s.pages[q], Share(s, q, i, c);
    assert t.pages[q].kids == p.kids;
    assert t.pages[q].keys == p.keys[i := t.pages[q].keys[i]];
  }

  // A leaf's right neighbour is its right sibling.
  lemma Sibling(s: Tree, q: nat, i: nat)
    requires CanMerge(s, q, i) && s.pages[Kid(s, q, i)].Leaf?
    ensures s.pages[Kid(s, q, i)].right == Kid(s, q, i + 1)
  {
    var l, r := Kid(s, q, i), Kid(s, q, i + 1);
    Neighbours(s, q, i);
    assert Local(s, l) && Local(s, r);
    var m := s.pages[l].right;
    assert Local(s, m);
    OnePage(s, m, r, s.info[l].hi);
  }

  lemma ShareLeaves(s: Tree, q: nat, i: nat, c: nat)
    requires CanShare(s, q, i, c) && s.pages[Kid(s, q, i)].Leaf?
    ensures var l, r, p := Kid(s, q, i), Kid(s, q, i + 1), s.pages[q];
            var recs := s.pages[l].recs + s.pages[r].recs;
            Share(s, q, i, c).pages == s.pages[l := s.pages[l].(recs := recs[..c])][r := s.pages[r].(recs := recs[c..])]
                                              [q := p.(keys := p.keys[i := recs[c].key])]
  {
    ShareSplits(s, q, i, c);
    ShareParent(s, q, i, c);
    Neighbours(s, q, i);
    Sibling(s, q, i);
  }

  // The empty leaf is the left one.
  lemma RecordToLeft(s: Tree, q: nat, i: nat)
    requires CanShare(s, q, i, 1) && s.pages[Kid(s, q, i)].Leaf? && s.pages[Kid(s, q, i)].recs == []
    ensures var l, r, p := Kid(s, q, i), Kid(s, q, i + 1), s.pages[q];
            var recs := s.pages[r].recs;
            && |recs| > 1
            && Share(s, q, i, 1).pages == s.pages[l := s.pages[l].(recs := [recs[0]])][r := s.pages[r].(recs := recs[1..])]
                                            [q := p.(keys := p.keys[i := recs[1].key])]
  {
    var recs := s.pages[Kid(s, q, i + 1)].recs;
    ShareLeaves(s, q, i, 1);
    assert [] + recs == recs && recs[..1] == [recs[0]];
  }

  // The empty leaf is the right one.
  lemma RecordToRight(s: Tree, q: nat, i: nat, c: nat)
    requires CanShare(s, q, i, c) && s.pages[Kid(s, q, i)].Leaf? && s.pages[Kid(s, q, i + 1)].recs == []
    requires |s.pages[Kid(s, q, i)].recs| == c + 1
    ensures var l, r, p := Kid(s, q, i), Kid(s, q, i + 1), s.pages[q];
            var recs := s.pages[l].recs;
            Share(s, q, i, c).pages == s.pages[r := s.pages[r].(recs := [recs[c]])][l := s.pages[l].(recs := recs[..c])]
                                         [q := p.(keys := p.keys[i := recs[c].key])]
  {
    var recs := s.pages[Kid(s, q, i)].recs;
    ShareLeaves(s, q, i, c);
    assert recs + [] == recs && recs[c..] == [recs[c]];
  }

  // The empty node is the left one.
  lemma ShareToLeft(s: Tree, q: nat, i: nat)
    requires CanShare(s, q, i, 1) && s.pages[Kid(s, q, i)].Node? && s.pages[Kid(s, q, i)].keys == []
    requires |s.pages[Kid(s, q, i + 1)].keys| > 0
    ensures var l, r, p := Kid(s, q, i), Kid(s, q, i + 1), s.pages[q];
            var a, b := s.pages[l], s.pages[r];
            && |b.kids| == |b.keys| + 1 && b.kids[0] in s.pages
            && Share(s, q, i, 1).pages == s.pages[b.kids[0] := s.pages[b.kids[0]].(parent := l)]
                                            [l := a.(keys := [p.keys[i]], kids := a.kids + [b.kids[0]])]
                                            [r := b.(keys := b.keys[1..], kids := b.kids[1..])]
                                            [q := p.(keys := p.keys[i := b.keys[0]])]
  {
    var l, r, p := Kid(s, q, i), Kid(s, q, i + 1), s.pages[q];
    var a, b, j := s.pages[l], s.pages[r], Joined(s.pages[l], p.keys[i], s.pages[r]);
    Neighbours(s, q, i);
    ShareSplits(s, q, i, 1);
    ShareParent(s, q, i, 1);
    KidFacts(s, r, 0);
    assert j.keys == [p.keys[i]] + b.keys && |a.kids| == 1;
    assert j.kids[..2] == a.kids + [b.kids[0]];
    assert Given(j, 1) == b.kids[1..];
    forall x | x in b.kids
      ensures x in s.pages && s.pages[x].parent == r && (x == b.kids[0] <==> x !in b.kids[1..])
    {
      var m :| 0 <= m < |b.kids| && b.kids[m] == x;
      OneOfKids(s, r, m);
    }
  }

  lemma OneOfKids(s: Tree, r: nat, m: nat)
    requires r in s.pages && s.pages[r].Node? && m < |s.pages[r].kids|
    ensures var b := s.pages[r]; HasKid(s, r, m) && s.pages[b.kids[m]].parent == r && (b.kids[m] == b.kids[0] <==> b.kids[m] !in b.kids[1..])
  {
    var b := s.pages[r];
    KidFacts(s, r, m);
    KidFacts(s, r, 0);
    if b.kids[m] == b.kids[0] {
      if b.kids[m] in b.kids[1..] {
        var k :| 0 <= k < |b.kids[1..]| && b.kids[1..][k] == b.kids[0];
        KidFacts(s, r, k + 1);
        KidOnce(s, r, k + 1, r, 0);
      }
    } else {
      assert b.kids[1..][m - 1] == b.kids[m];
    }
  }

  // The empty node is the right one.
  lemma ShareToRight(s: Tree, q: nat, i: nat, c: nat)
    requires CanShare(s, q, i, c) && s.pages[Kid(s, q, i)].Node? && |s.pages[Kid(s, q, i)].keys| == c + 1
    requires s.pages[Kid(s, q, i + 1)].keys == []
    ensures var l, r, p := Kid(s, q, i), Kid(s, q, i + 1), s.pages[q];
            var a, b := s.pages[l], s.pages[r];
            && |a.kids| == c + 2 && a.kids[c + 1] in s.pages
            && Share(s, q, i, c).pages == s.pages[a.kids[c + 1] := s.pages[a.kids[c + 1]].(parent := r)]
                                            [r := b.(keys := [p.keys[i]], kids := [a.kids[c + 1]] + b.kids)]
                                            [l := a.(keys := a.keys[..c], kids := a.kids[..c + 1])]
                                            [q := p.(keys := p.keys[i := a.keys[c]])]
  {
    var l, r, p := Kid(s, q, i), Kid(s, q, i + 1), s.pages[q];
    var a, b, j := s.pages[l], s.pages[r], Joined(s.pages[l], p.keys[i], s.pages[r]);
    Neighbours(s, q, i);
    ShareSplits(s, q, i, c);
    ShareParent(s, q, i, c);
    KidFacts(s, r, 0);
    KidFacts(s, l, c + 1);
    assert j.keys == a.keys + [p.keys[i]] && |b.kids| == 1;
    assert Given(j, c) == [a.kids[c + 1]] + b.kids;
    assert forall x :: x in b.kids <==> x == b.kids[0];
    assert forall x :: x in Given(j, c) <==> x == a.kids[c + 1] || x == b.kids[0];
    assert j.keys[c + 1..] == [p.keys[i]];
    assert j.kids[..c + 1] == a.kids[..c + 1] && j.keys[..c] == a.keys[..c];
  }
}
