/** Shortest paths by a matrix (hw7_dijkstra.c), on any number of vertices. */
module Dijkstra {

  const INF := 1000
  const UNDEF := -1

  // ---------- what is to be computed ----------

  // A matrix of weights none of which is negative; an entry of INF is no edge.
  predicate IsGraph(g: seq<seq<int>>) {
    forall u :: 0 <= u < |g| ==> |g[u]| == |g| && forall v :: 0 <= v < |g| ==> g[u][v] >= 0
  }

  type Graph = g: seq<seq<int>> | IsGraph(g)

  predicate Edge(g: Graph, u: int, v: int) {
    0 <= u < |g| && 0 <= v < |g| && g[u][v] != INF
  }

  predicate Walk(g: Graph, p: seq<int>) {
    && p != [] && 0 <= p[|p| - 1] < |g|
    && (|p| > 1 ==> Walk(g, p[..|p| - 1]) && Edge(g, p[|p| - 2], p[|p| - 1]))
  }

  function Length(g: Graph, p: seq<int>): nat
    requires Walk(g, p)
  {
    if |p| == 1 then 0 else Length(g, p[..|p| - 1]) + g[p[|p| - 2]][p[|p| - 1]]
  }

  predicate From(g: Graph, p: seq<int>, s: int, v: int) {
    Walk(g, p) && p[0] == s && p[|p| - 1] == v
  }

  // No walk from s to v is shorter, and one is that short.
  ghost predicate IsDistance(g: Graph, s: int, v: int, d: int) {
    && (exists p :: From(g, p, s, v) && Length(g, p) == d)
    && (forall p :: From(g, p, s, v) ==> Length(g, p) >= d)
  }

  // ---------- what holds after each round ----------

  // Vertices are visited one a round; the rank of one not visited yet is their number.
  datatype Search = Search(dist: seq<int>, prev: seq<int>, rank: seq<int>)

  predicate Visited(x: Search, v: int) {
    0 <= v < |x.rank| && x.rank[v] < |x.rank|
  }

  // The last edge on the way to v.
  predicate Arrow(g: Graph, s: int, x: Search, v: int)
    requires |x.dist| == |x.prev| == |x.rank| == |g| && 0 <= v < |g|
  {
    if v == s || x.dist[v] == INF then x.prev[v] == UNDEF
    else
      var u := x.prev[v];
      Edge(g, u, v) && x.rank[u] < x.rank[v] && x.dist[v] == x.dist[u] + g[u][v]
  }

  ghost predicate Arrows(g: Graph, s: int, x: Search) {
    && |x.dist| == |x.prev| == |x.rank| == |g| && 0 <= s < |g| && x.dist[s] == 0
    && forall v :: 0 <= v < |g| ==> 0 <= x.dist[v] <= INF && 0 <= x.rank[v] <= |g| && Arrow(g, s, x, v)
  }

  // Who is visited is in reach, nearer than who is not, and his edges are used.
  ghost predicate Settled(g: Graph, x: Search)
    requires |x.dist| == |x.prev| == |x.rank| == |g|
  {
    && (forall v :: Visited(x, v) ==> x.dist[v] < INF)
    && (forall v, u :: Visited(x, v) && Edge(g, v, u) ==> x.dist[u] <= x.dist[v] + g[v][u])
    && (forall v, u :: Visited(x, v) && 0 <= u < |g| && !Visited(x, u) ==> x.dist[v] <= x.dist[u])
  }

  ghost predicate Good(g: Graph, s: int, x: Search) {
    Arrows(g, s, x) && Settled(g, x)
  }

  predicate Nearest(x: Search, pos: int) {
    && 0 <= pos < |x.dist| == |x.rank| && !Visited(x, pos) && x.dist[pos] < INF
    && forall v :: 0 <= v < |x.dist| && !Visited(x, v) ==> x.dist[pos] <= x.dist[v]
  }

  // Whether the edge from pos makes the way to v shorter.
  predicate Shorter(g: Graph, x: Search, pos: int, v: int)
    requires |x.dist| == |x.rank| == |g| && 0 <= pos < |g| && 0 <= v < |g|
  {
    v != pos && !Visited(x, v) && Edge(g, pos, v) && x.dist[v] > x.dist[pos] + g[pos][v]
  }

  // The round that visits pos.
  ghost predicate Round(g: Graph, x: Search, pos: int, k: nat, y: Search)
    requires |x.dist| == |x.prev| == |x.rank| == |g| && 0 <= pos < |g|
  {
    && |y.dist| == |y.prev| == |g| && y.rank == x.rank[pos := k]
    && forall v :: 0 <= v < |g| ==>
         if Shorter(g, x, pos, v) then y.dist[v] == x.dist[pos] + g[pos][v] && y.prev[v] == pos
         else y.dist[v] == x.dist[v] && y.prev[v] == x.prev[v]
  }

  // Before round k.
  ghost predicate Before(g: Graph, s: int, x: Search, k: nat, seen: set<int>) {
    && Good(g, s, x) && |seen| == k
    && (forall v :: v in seen <==> Visited(x, v))
    && (forall v :: v in seen ==> x.rank[v] < k)
  }

  lemma ArrowsKept(g: Graph, s: int, x: Search, pos: int, k: nat, y: Search)
    requires Arrows(g, s, x) && Nearest(x, pos) && k < |g| && Round(g, x, pos, k, y)
    requires forall v :: Visited(x, v) ==> x.rank[v] < k
    ensures Arrows(g, s, y)
  {
    forall v | 0 <= v < |g|
      ensures 0 <= y.dist[v] <= INF && Arrow(g, s, y, v)
    {
      assert Arrow(g, s, x, v);
      if Shorter(g, x, pos, v) {
        assert y.rank[pos] < y.rank[v];
      }
    }
  }

  lemma SettledKept(g: Graph, s: int, x: Search, pos: int, k: nat, y: Search)
    requires Good(g, s, x) && Nearest(x, pos) && k < |g| && Round(g, x, pos, k, y)
    ensures Settled(g, y)
  {
    forall v, u | Visited(y, v) && Edge(g, v, u)
      ensures y.dist[u] <= y.dist[v] + g[v][u]
    {
      if v == pos && Visited(x, u) {
        assert x.dist[u] <= x.dist[pos];
      }
    }
  }

  lemma RoundKeeps(g: Graph, s: int, x: Search, pos: int, k: nat, y: Search, seen: set<int>)
    requires Before(g, s, x, k, seen) && Nearest(x, pos) && k < |g| && Round(g, x, pos, k, y)
    ensures Before(g, s, y, k + 1, seen + {pos})
  {
    ArrowsKept(g, s, x, pos, k, y);
    SettledKept(g, s, x, pos, k, y);
  }

  // ---------- what the search knows is right ----------

  // The way to v that the arrows tell.
  ghost function WayTo(g: Graph, s: int, x: Search, v: int): (p: seq<int>)
    requires Good(g, s, x) && 0 <= v < |g| && x.dist[v] < INF
    ensures From(g, p, s, v) && Length(g, p) == x.dist[v]
    decreases x.rank[v]
  {
    if v == s then [s]
    else
      var p := WayTo(g, s, x, x.prev[v]);
      Extended(g, p, v);
      p + [v]
  }

  lemma Extended(g: Graph, p: seq<int>, v: int)
    requires Walk(g, p) && Edge(g, p[|p| - 1], v)
    ensures Walk(g, p + [v]) && Length(g, p + [v]) == Length(g, p) + g[p[|p| - 1]][v]
  {
    assert (p + [v])[..|p + [v]| - 1] == p;
  }

  // Whom the search can get to no more it has visited.
  predicate Exhausted(x: Search)
    requires |x.dist| == |x.rank|
  {
    forall v :: 0 <= v < |x.dist| && !Visited(x, v) ==> x.dist[v] == INF
  }

  lemma EdgeUsed(g: Graph, s: int, x: Search, u: int, v: int)
    requires Good(g, s, x) && Exhausted(x) && Edge(g, u, v)
    ensures x.dist[v] <= x.dist[u] + g[u][v]
  {
    assert Visited(x, u) || x.dist[u] == INF;
  }

  // Where no edge makes a way shorter, no walk from a start at 0 does.
  lemma {:induction false} NoShorterWalk(g: Graph, dist: seq<int>, p: seq<int>)
    requires |dist| == |g| && Walk(g, p) && 0 <= p[0] < |g| && dist[p[0]] == 0
    requires forall u, v :: Edge(g, u, v) ==> dist[v] <= dist[u] + g[u][v]
    ensures Length(g, p) >= dist[p[|p| - 1]]
  {
    if |p| > 1 {
      NoShorterWalk(g, dist, p[..|p| - 1]);
      assert Edge(g, p[|p| - 2], p[|p| - 1]);
    }
  }

  lemma FoundDistances(g: Graph, s: int, x: Search, v: int)
    requires Good(g, s, x) && Exhausted(x) && 0 <= v < |g|
    ensures x.dist[v] < INF ==> IsDistance(g, s, v, x.dist[v])
    ensures x.dist[v] == INF ==> forall p :: From(g, p, s, v) ==> Length(g, p) >= INF
  {
    if x.dist[v] < INF {
      assert From(g, WayTo(g, s, x, v), s, v);
    }
    forall u, w | Edge(g, u, w)
      ensures x.dist[w] <= x.dist[u] + g[u][w]
    {
      EdgeUsed(g, s, x, u, w);
    }
    forall p | From(g, p, s, v)
      ensures Length(g, p) >= x.dist[v]
    {
      NoShorterWalk(g, x.dist, p);
    }
  }

  // ---------- the program ----------

  class Globals {
    const graph: Graph
    const dist: array<int>
    const prev: array<int>
    const check: array<bool>
    ghost var rank: seq<int>

    ghost predicate Valid()
      reads this, check
    {
      && dist.Length == prev.Length == check.Length == |graph| == |rank|
      && dist != prev
      && forall v :: 0 <= v < |graph| ==> (check[v] <==> rank[v] < |graph|)
    }

    ghost function Now(): Search
      reads this, dist, prev
    {
      Search(dist[..], prev[..], rank)
    }

    // Static arrays start at zero.
    constructor (graph: Graph)
      ensures Valid() && this.graph == graph && fresh(dist) && fresh(prev) && fresh(check)
      ensures forall v :: 0 <= v < |graph| ==> !check[v]
    {
      var n := |graph|;
      this.graph := graph;
      dist := new int[n](_ => 0);
      prev := new int[n](_ => 0);
      check := new bool[n](_ => false);
      rank := seq(n, _ => n);
    }

    // getMinDist; -1 stands for the place it leaves unset when it finds no vertex.
    method GetMinDist(ghost k: nat) returns (pos: int)
      requires Valid() && k < |graph|
      modifies check, this`rank
      ensures Valid()
      ensures pos == -1 ==> Now() == old(Now()) && forall v :: 0 <= v < |graph| && !check[v] ==> dist[v] >= INF
      ensures pos != -1 ==> Nearest(old(Now()), pos) && rank == old(rank)[pos := k]
    {
      var i, minDist := 0, INF;
      pos := -1;
      while i < |graph|
        invariant 0 <= i <= |graph| && -1 <= pos < i
        invariant minDist == if pos == -1 then INF else dist[pos]
        invariant pos != -1 ==> !check[pos] && dist[pos] < INF
        invariant forall v :: 0 <= v < i && !check[v] ==> minDist <= dist[v]
      {
        if minDist > dist[i] && !check[i] {
          minDist := dist[i];
          pos := i;
        }
        i := i + 1;
      }
      if pos != -1 {
        check[pos] := true;
        rank := rank[pos := k];
      }
    }

    method Start(s: int)
      requires Valid() && 0 <= s < |graph|
      modifies dist, prev, check, this`rank
      ensures Valid() && check[s] == old(check[s])
      ensures forall v :: 0 <= v < |graph| && v != s ==> !check[v] && dist[v] == INF && prev[v] == UNDEF
      ensures dist[s] == 0 && prev[s] == UNDEF
      ensures !check[s] ==> Good(graph, s, Now())
    {
      dist[s] := 0;
      prev[s] := UNDEF;
      var i := 0;
      while i < |graph|
        invariant 0 <= i <= |graph| && check[s] == old(check[s]) && dist[s] == 0 && prev[s] == UNDEF
        invariant forall v :: 0 <= v < i && v != s ==> !check[v] && dist[v] == INF && prev[v] == UNDEF
      {
        if i != s {
          dist[i] := INF;
          prev[i] := UNDEF;
          check[i] := false;
        }
        i := i + 1;
      }
      rank := seq(|graph|, v requires 0 <= v < |graph| => if v == s && old(check[s]) then 0 else |graph|);
    }

    // The edges out of pos.
    method Relax(pos: int, ghost x: Search, ghost k: nat)
      requires Valid() && |x.dist| == |x.prev| == |x.rank| == |graph| && Nearest(x, pos) && k < |graph|
      requires Now() == x.(rank := x.rank[pos := k])
      modifies dist, prev
      ensures Valid() && Round(graph, x, pos, k, Now())
    {
      var i := 0;
      while i < |graph|
        invariant 0 <= i <= |graph|
        invariant dist[pos] == x.dist[pos]
        invariant forall v :: i <= v < |graph| ==> dist[v] == x.dist[v] && prev[v] == x.prev[v]
        invariant forall v :: 0 <= v < i ==>
            if Shorter(graph, x, pos, v) then dist[v] == x.dist[pos] + graph[pos][v] && prev[v] == pos
            else dist[v] == x.dist[v] && prev[v] == x.prev[v]
      {
        if graph[pos][i] != INF && !check[i] {
          var minDist, newDist := dist[i], dist[pos] + graph[pos][i];
          if minDist > newDist {
            dist[i] := newDist;
            prev[i] := pos;
          }
        }
        i := i + 1;
      }
    }

    // dijkstra.  Without a vertex to visit the program goes on with an unset place; the
    // model stops there, with ok false.  That comes about exactly if some vertex is out
    // of reach or too far, or if s is checked already: check[s] is never cleared.
    method Run(s: int) returns (ok: bool)
      requires Valid() && 0 <= s < |graph|
      modifies dist, prev, check, this`rank
      ensures Valid()
      ensures ok <==> !old(check[s]) && forall v :: 0 <= v < |graph| ==> InReach(graph, s, v)
      ensures ok ==> Good(graph, s, Now()) && Exhausted(Now())
      ensures ok ==> forall v :: 0 <= v < |graph| ==> check[v] && dist[v] < INF && IsDistance(graph, s, v, dist[v])
    {
      Start(s);
      if check[s] {
        var pos := GetMinDist(0);
        return false;
      }
      ok := true;
      var k := 0;
      ghost var seen: set<int> := {};
      while k < |graph|
        invariant 0 <= k <= |graph| && Valid() && Before(graph, s, Now(), k, seen)
      {
        ghost var x := Now();
        var pos := GetMinDist(k);
        if pos == -1 {
          OutOfReach(graph, s, x, seen);
          return false;
        }
        Relax(pos, x, k);
        RoundKeeps(graph, s, x, pos, k, Now(), seen);
        seen := seen + {pos};
        k := k + 1;
      }
      AllSeen(seen, |graph|);
      AllInReach(graph, s, Now());
    }

    // getPath: from d along the arrows to s.
    method GetPath(d: int, ghost s: int) returns (path: seq<int>)
      requires Valid() && Good(graph, s, Now()) && 0 <= d < |graph| && dist[d] < INF
      ensures path == Reversed(WayTo(graph, s, Now(), d))
    {
      var v := d;
      path := [];
      while prev[v] != UNDEF
        invariant 0 <= v < |graph| && dist[v] < INF
        invariant path + Reversed(WayTo(graph, s, Now(), v)) == Reversed(WayTo(graph, s, Now(), d))
        decreases rank[v]
      {
        Backwards(graph, s, Now(), v);
        Regroup(path, v, Reversed(WayTo(graph, s, Now(), prev[v])));
        path := path + [v];
        v := prev[v];
      }
      Backwards(graph, s, Now(), v);
      path := path + [v];
    }
  }

  function Reversed(p: seq<int>): (r: seq<int>)
    ensures |r| == |p|
  {
    if p == [] then [] else [p[|p| - 1]] + Reversed(p[..|p| - 1])
  }

  lemma Backwards(g: Graph, s: int, x: Search, v: int)
    requires Good(g, s, x) && 0 <= v < |g| && x.dist[v] < INF
    ensures if v == s then x.prev[v] == UNDEF && Reversed(WayTo(g, s, x, v)) == [v]
            else
              var u := x.prev[v];
              && 0 <= u < |g| && x.dist[u] < INF && x.rank[u] < x.rank[v]
              && Reversed(WayTo(g, s, x, v)) == [v] + Reversed(WayTo(g, s, x, u))
  {
    if v != s {
      var p := WayTo(g, s, x, x.prev[v]);
      assert (p + [v])[..|p + [v]| - 1] == p;
    }
  }

  lemma Regroup(p: seq<int>, v: int, q: seq<int>)
    ensures p + ([v] + q) == p + [v] + q
  {
  }

  // Nearer than INF.
  ghost predicate InReach(g: Graph, s: int, v: int) {
    exists p :: From(g, p, s, v) && Length(g, p) < INF
  }

  lemma OutOfReach(g: Graph, s: int, x: Search, seen: set<int>)
    requires Good(g, s, x) && Exhausted(x) && |seen| < |g| && forall v :: v in seen <==> Visited(x, v)
    ensures exists v :: 0 <= v < |g| && !InReach(g, s, v)
  {
    var v := Unseen(seen, |g|);
    FoundDistances(g, s, x, v);
    assert !Visited(x, v) && !InReach(g, s, v);
  }

  lemma {:induction false} Unseen(seen: set<int>, n: nat) returns (v: int)
    requires |seen| < n
    ensures 0 <= v < n && v !in seen
  {
    v := n - 1;
    if v in seen {
      v := Unseen(seen - {v}, n - 1);
    }
  }

  lemma {:induction false} AllSeen(seen: set<int>, n: nat)
    requires |seen| == n && forall v :: v in seen ==> 0 <= v < n
    ensures forall v :: 0 <= v < n ==> v in seen
  {
    if n > 0 {
      if n - 1 in seen {
        AllSeen(seen - {n - 1}, n - 1);
      } else {
        TooFew(seen, n - 1);
      }
    }
  }

  lemma {:induction false} TooFew(seen: set<int>, n: nat)
    requires forall v :: v in seen ==> 0 <= v < n
    ensures |seen| <= n
  {
    if n > 0 {
      TooFew(seen - {n - 1}, n - 1);
    } else {
      assert forall v :: v !in seen;
    }
  }

  lemma AllInReach(g: Graph, s: int, x: Search)
    requires Good(g, s, x) && forall v :: 0 <= v < |g| ==> Visited(x, v)
    ensures Exhausted(x)
    ensures forall v :: 0 <= v < |g| ==> InReach(g, s, v) && IsDistance(g, s, v, x.dist[v])
  {
    forall v | 0 <= v < |g|
      ensures InReach(g, s, v) && IsDistance(g, s, v, x.dist[v])
    {
      FoundDistances(g, s, x, v);
      assert From(g, WayTo(g, s, x, v), s, v);
    }
  }
}
