/** One record more or less in the leaf of its key, and what that means for the map. */
module BptLeaf {
  import opened BptPage
  import opened BptTree

  function Put(recs: seq<Rec>, i: nat, rec: Rec): seq<Rec>
    requires i <= |recs|
  {
    recs[..i] + [rec] + recs[i..]
  }

  function Took(recs: seq<Rec>, i: nat): seq<Rec>
    requires i < |recs|
  {
    recs[..i] + recs[i + 1..]
  }

  // The place of a key among those of a leaf that has it not.
  predicate Place(recs: seq<Rec>, i: nat, key: int) {
    i <= |recs| && (forall j :: 0 <= j < i ==> recs[j].key < key) && (forall j :: i <= j < |recs| ==> key < recs[j].key)
  }

  lemma PutShape(p: Page, f: Info, i: nat, rec: Rec)
    requires p.Leaf? && Shape(p, f) && Place(p.recs, i, rec.key) && f.lo <= rec.key < f.hi
    ensures Shape(p.(recs := Put(p.recs, i, rec)), f)
  {
    var keys := Keys(Put(p.recs, i, rec));
    forall a, b | 0 <= a < b < |keys|
      ensures Before(keys, a, b)
    {
      if a != i && b != i {
        assert Before(Keys(p.recs), if a < i then a else a - 1, if b < i then b else b - 1);
      }
    }
  }

  lemma PutAgrees(p: Page, f: Info, i: nat, rec: Rec, contents: map<int, string>)
    requires p.Leaf? && Shape(p, f) && Place(p.recs, i, rec.key) && Agrees(p.recs, f, contents)
    ensures Agrees(Put(p.recs, i, rec), f, contents[rec.key := rec.val])
  {
    var a, b := p.recs[..i], p.recs[i..];
    var more, put := contents[rec.key := rec.val], Put(p.recs, i, rec);
    forall k | f.lo <= k < f.hi
      ensures Same(more, Records(put), k)
    {
      assert Same(contents, Records(p.recs), k);
      assert p.recs == a + b;
      RecordsOf(a, b, k);
      RecordsOf(a + [rec], b, k);
      assert (a + [rec])[..|a|] == a;
      if k == rec.key && k in Records(b) {
        var j := RecordsOnly(b, k);
      }
    }
  }

  lemma TookShape(p: Page, f: Info, i: nat)
    requires p.Leaf? && Shape(p, f) && i < |p.recs|
    ensures Shape(p.(recs := Took(p.recs, i)), f)
  {
    var keys := Keys(Took(p.recs, i));
    assert forall a :: 0 <= a < |keys| ==> keys[a] == p.recs[if a < i then a else a + 1].key;
    forall a, b | 0 <= a < b < |keys|
      ensures Before(keys, a, b)
    {
      assert Before(Keys(p.recs), if a < i then a else a + 1, if b < i then b else b + 1);
    }
  }

  lemma TookAgrees(p: Page, f: Info, i: nat, contents: map<int, string>)
    requires p.Leaf? && Shape(p, f) && i < |p.recs| && Agrees(p.recs, f, contents)
    ensures Agrees(Took(p.recs, i), f, contents - {p.recs[i].key})
  {
    var a, rec, b := p.recs[..i], p.recs[i], p.recs[i + 1..];
    forall k | f.lo <= k < f.hi
      ensures Same(contents - {rec.key}, Records(Took(p.recs, i)), k)
    {
      assert Same(contents, Records(p.recs), k);
      assert p.recs == (a + [rec]) + b;
      RecordsOf(a, b, k);
      RecordsOf(a + [rec], b, k);
      assert (a + [rec])[..|a|] == a;
      if k == rec.key {
        NotInRest(p.recs, i);
      }
    }
  }

  lemma NotInRest(recs: seq<Rec>, i: nat)
    requires Ascending(Keys(recs)) && i < |recs|
    ensures recs[i].key !in Records(recs[..i]) && recs[i].key !in Records(recs[i + 1..])
  {
    forall j | 0 <= j < |recs| && j != i
      ensures recs[j].key != recs[i].key
    {
      assert if j < i then Before(Keys(recs), j, i) else Before(Keys(recs), i, j);
    }
    if recs[i].key in Records(recs[..i]) {
      var j := RecordsOnly(recs[..i], recs[i].key);
    }
    if recs[i].key in Records(recs[i + 1..]) {
      var j := RecordsOnly(recs[i + 1..], recs[i].key);
    }
  }

  // A leaf has a record for every key of the map that it is there for, and no other; keys beyond
  // 32 bits are nowhere.
  lemma LeafHas(s: Tree, x: nat, k: int)
    requires Covers(s, x, Clamped(k)) && s.pages[x].Leaf?
    ensures k in s.contents <==> exists i :: 0 <= i < |s.pages[x].recs| && s.pages[x].recs[i].key == k
    ensures forall i :: 0 <= i < |s.pages[x].recs| && s.pages[x].recs[i].key == k ==> k in s.contents && s.contents[k] == s.pages[x].recs[i].val
  {
    assert Local(s, x);
    var recs := s.pages[x].recs;
    if k in Records(recs) {
      var i := RecordsOnly(recs, k);
    }
    assert Same(s.contents, Records(recs), k);
    forall i | 0 <= i < |recs| && recs[i].key == k
      ensures k in s.contents && s.contents[k] == recs[i].val
    {
      RecordsAt(recs, i);
    }
  }

  lemma PutKeeps(s: Tree, x: nat, i: nat, rec: Rec)
    requires Covers(s, x, rec.key) && s.pages[x].Leaf? && Place(s.pages[x].recs, i, rec.key)
    ensures Inv(WithRecs(s, x, Put(s.pages[x].recs, i, rec), s.contents[rec.key := rec.val]))
  {
    assert Local(s, x);
    PutShape(s.pages[x], s.info[x], i, rec);
    PutAgrees(s.pages[x], s.info[x], i, rec, s.contents);
    WithRecsKeeps(s, x, Put(s.pages[x].recs, i, rec), s.contents[rec.key := rec.val]);
  }

  lemma TookKeeps(s: Tree, x: nat, i: nat)
    requires x in s.pages && s.pages[x].Leaf? && i < |s.pages[x].recs|
    ensures Inv(WithRecs(s, x, Took(s.pages[x].recs, i), s.contents - {s.pages[x].recs[i].key}))
  {
    assert Local(s, x);
    TookShape(s.pages[x], s.info[x], i);
    TookAgrees(s.pages[x], s.info[x], i, s.contents);
    WithRecsKeeps(s, x, Took(s.pages[x].recs, i), s.contents - {s.pages[x].recs[i].key});
  }
}
