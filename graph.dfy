/** The per-query graph view of the minimum-cost search: point resolution, adjacency maps built
    from the cost entries, and walks over them. */
module CostGraph {
  import opened Models

  /** Adjacency: point id to (neighbour id to amount). */
  type Graph = map<int, map<int, real>>

  /** The two places a point is looked up in: the point cache first, then the store. */
  datatype PointLookup = PointLookup(cache: map<int, PointOfSale>, store: map<int, PointOfSale>)

  /** The cached record when the cache has the key, else the stored one, else nothing (null). */
  function ObtainPointOfSale(pts: PointLookup, id: int): (p: Option<PointOfSale>)
    ensures p.Some? <==> id in pts.cache || id in pts.store
    ensures id in pts.cache ==> p == Some(pts.cache[id])
    ensures id !in pts.cache && id in pts.store ==> p == Some(pts.store[id])
  {
    if id in pts.cache then Some(pts.cache[id])
    else if id in pts.store then Some(pts.store[id])
    else None
  }

  /** A point is usable when it is not null and is active. */
  predicate IsPointOfSaleValid(p: Option<PointOfSale>): (b: bool)
    ensures b ==> p.Some?
    ensures p.Some? ==> (b <==> p.value.active)
  {
    p.Some? && p.value.active
  }

  /** A point that resolves to an active record. */
  predicate Usable(pts: PointLookup, id: int): (b: bool)
    ensures b <==> if id in pts.cache then pts.cache[id].active else id in pts.store && pts.store[id].active
  {
    IsPointOfSaleValid(ObtainPointOfSale(pts, id))
  }

  predicate HasEdge(g: Graph, u: int, v: int)
  {
    u in g && v in g[u]
  }

  function Amount(g: Graph, u: int, v: int): real
  {
    if HasEdge(g, u, v) then g[u][v] else 0.0
  }

  function Neighbors(g: Graph, u: int): map<int, real>
  {
    if u in g then g[u] else map[]
  }

  ghost predicate NonNegative(g: Graph)
  {
    forall u, v :: HasEdge(g, u, v) ==> g[u][v] >= 0.0
  }

  /** Every id mentioned by the graph. */
  ghost function GraphNodes(g: Graph): set<int>
  {
    g.Keys + (set u, v | u in g && v in g[u] :: v)
  }

  /** One move of the search: along an edge of the view, to a neighbour that resolves active. */
  ghost predicate Step(g: Graph, pts: PointLookup, u: int, v: int)
  {
    HasEdge(g, u, v) && Usable(pts, v)
  }

  ghost predicate IsWalk(g: Graph, pts: PointLookup, w: seq<int>)
  {
    |w| >= 1 && forall i :: 0 <= i < |w| - 1 ==> Step(g, pts, w[i], w[i + 1])
  }

  ghost predicate WalkFromTo(g: Graph, pts: PointLookup, from: int, to: int, w: seq<int>)
  {
    IsWalk(g, pts, w) && w[0] == from && w[|w| - 1] == to
  }

  /** Sum of the amounts along a sequence of points. */
  function WalkCost(g: Graph, w: seq<int>): real
    decreases |w|
  {
    if |w| <= 1 then 0.0 else WalkCost(g, w[..|w| - 1]) + Amount(g, w[|w| - 2], w[|w| - 1])
  }

  lemma {:induction false} WalkCostNonNegative(g: Graph, w: seq<int>)
    requires NonNegative(g)
    ensures WalkCost(g, w) >= 0.0
    decreases |w|
  {
    if |w| > 1 {
      WalkCostNonNegative(g, w[..|w| - 1]);
    }
  }

  /** With non-negative amounts a prefix never costs more than the whole walk. */
  lemma {:induction false} WalkCostPrefix(g: Graph, w: seq<int>, k: nat)
    requires NonNegative(g)
    requires 1 <= k <= |w|
    ensures WalkCost(g, w[..k]) <= WalkCost(g, w)
    decreases |w| - k
  {
    if k < |w| {
      var w' := w[..|w| - 1];
      assert w'[..k] == w[..k];
      WalkCostPrefix(g, w', k);
    } else {
      assert w[..k] == w;
    }
  }

  lemma WalkPrefix(g: Graph, pts: PointLookup, w: seq<int>, k: nat)
    requires IsWalk(g, pts, w)
    requires 1 <= k <= |w|
    ensures IsWalk(g, pts, w[..k])
  {
    var p := w[..k];
    forall i | 0 <= i < |p| - 1
      ensures Step(g, pts, p[i], p[i + 1])
    {
      assert p[i] == w[i] && p[i + 1] == w[i + 1];
    }
  }

  /** Extending a walk by one step adds that step's amount. */
  lemma WalkExtend(g: Graph, pts: PointLookup, w: seq<int>, x: int)
    requires IsWalk(g, pts, w)
    requires Step(g, pts, w[|w| - 1], x)
    ensures IsWalk(g, pts, w + [x])
    ensures WalkCost(g, w + [x]) == WalkCost(g, w) + g[w[|w| - 1]][x]
  {
    var e := w + [x];
    assert e[..|e| - 1] == w;
    forall i | 0 <= i < |e| - 1
      ensures Step(g, pts, e[i], e[i + 1])
    {
      if i < |w| - 1 {
        assert e[i] == w[i] && e[i + 1] == w[i + 1];
      }
    }
  }

  /** The cost entry `c` connects `u` and `v`, in either order. */
  predicate Joins(c: Cost, u: int, v: int)
  {
    (c.id.idA == u && c.id.idB == v) || (c.id.idA == v && c.id.idB == u)
  }

  predicate CostUsable(pts: PointLookup, c: Cost)
  {
    Usable(pts, c.id.idA) && Usable(pts, c.id.idB)
  }

  /** The graph view of the cost entries `costs` (the values of a key-to-cost map):
      an edge, in both directions and with the amount of one cost joining its endpoints,
      for every cost whose two endpoints resolve to active points, and no other edge. */
  ghost predicate GraphOf<K>(g: Graph, costs: map<K, Cost>, pts: PointLookup)
  {
    && (forall u, v :: HasEdge(g, u, v) ==>
          Usable(pts, u) && Usable(pts, v) && HasEdge(g, v, u) && g[v][u] == g[u][v] &&
          exists k :: k in costs && Joins(costs[k], u, v) && costs[k].amount == g[u][v])
    && (forall k :: k in costs && CostUsable(pts, costs[k]) ==>
          HasEdge(g, costs[k].id.idA, costs[k].id.idB) && HasEdge(g, costs[k].id.idB, costs[k].id.idA))
  }

  /** Edge amounts of the view are amounts of cost entries, so they inherit their sign. */
  lemma GraphOfNonNegative<K>(g: Graph, costs: map<K, Cost>, pts: PointLookup)
    requires GraphOf(g, costs, pts)
    requires forall k :: k in costs ==> costs[k].amount >= 0.0
    ensures NonNegative(g)
  {
    forall u, v | HasEdge(g, u, v)
      ensures g[u][v] >= 0.0
    {
      var k :| k in costs && Joins(costs[k], u, v) && costs[k].amount == g[u][v];
    }
  }

  /** Every edge of `g` is symmetric, joins active points and carries the amount of a cost
      entry outside `rest`. */
  ghost predicate EdgesFrom<K>(g: Graph, costs: map<K, Cost>, pts: PointLookup, rest: set<K>)
  {
    forall u, v :: HasEdge(g, u, v) ==>
      Usable(pts, u) && Usable(pts, v) && HasEdge(g, v, u) && g[v][u] == g[u][v] &&
      exists k :: k in costs && k !in rest && Joins(costs[k], u, v) && costs[k].amount == g[u][v]
  }

  /** Every usable cost entry outside `rest` has its two edges in `g`. */
  ghost predicate CoversDone<K>(g: Graph, costs: map<K, Cost>, pts: PointLookup, rest: set<K>)
  {
    forall k :: k in costs && k !in rest && CostUsable(pts, costs[k]) ==>
      HasEdge(g, costs[k].id.idA, costs[k].id.idB) && HasEdge(g, costs[k].id.idB, costs[k].id.idA)
  }

  /** Setting the amount of `a`-`b` in both directions adds exactly those two edges. */
  lemma AddEdgePair(g0: Graph, g1: Graph, g: Graph, a: int, b: int, x: real)
    requires g1 == g0[a := Neighbors(g0, a)[b := x]] && g == g1[b := Neighbors(g1, b)[a := x]]
    ensures forall u, v :: HasEdge(g, u, v) <==> HasEdge(g0, u, v) || (u == a && v == b) || (u == b && v == a)
    ensures forall u, v :: HasEdge(g, u, v) ==> g[u][v] == if (u == a && v == b) || (u == b && v == a) then x else g0[u][v]
  {
    forall u, v
      ensures HasEdge(g, u, v) <==> HasEdge(g0, u, v) || (u == a && v == b) || (u == b && v == a)
      ensures HasEdge(g, u, v) ==> g[u][v] == if (u == a && v == b) || (u == b && v == a) then x else g0[u][v]
    {
      if u == b {
        assert g[u] == Neighbors(g1, b)[a := x];
        if b == a {
          assert Neighbors(g1, b) == Neighbors(g0, a)[b := x];
        } else {
          assert Neighbors(g1, b) == Neighbors(g0, b);
        }
      } else if u == a {
        assert g[u] == Neighbors(g0, a)[b := x];
      } else {
        assert u in g <==> u in g0;
        assert u in g ==> g[u] == g0[u];
      }
    }
  }

  /** Adding both edges of the usable entry `key` extends the view by that entry. */
  lemma AddCostKeepsView<K>(g0: Graph, g1: Graph, g: Graph, costs: map<K, Cost>, pts: PointLookup, rest: set<K>, key: K)
    requires key in rest && rest <= costs.Keys && CostUsable(pts, costs[key])
    requires EdgesFrom(g0, costs, pts, rest) && CoversDone(g0, costs, pts, rest)
    requires var c := costs[key];
             g1 == g0[c.id.idA := Neighbors(g0, c.id.idA)[c.id.idB := c.amount]] &&
             g == g1[c.id.idB := Neighbors(g1, c.id.idB)[c.id.idA := c.amount]]
    ensures EdgesFrom(g, costs, pts, rest - {key}) && CoversDone(g, costs, pts, rest - {key})
  {
    var cost := costs[key];
    AddEdgePair(g0, g1, g, cost.id.idA, cost.id.idB, cost.amount);
    forall u, v | HasEdge(g, u, v)
      ensures Usable(pts, u) && Usable(pts, v) && HasEdge(g, v, u) && g[v][u] == g[u][v]
      ensures exists k :: k in costs && k !in rest - {key} && Joins(costs[k], u, v) && costs[k].amount == g[u][v]
    {
      if Joins(cost, u, v) {
        assert g[u][v] == cost.amount == g[v][u];
      } else {
        assert HasEdge(g0, u, v) && g[u][v] == g0[u][v];
        assert HasEdge(g0, v, u) && g[v][u] == g0[v][u];
      }
    }
  }

  /** Builds the adjacency view from the cost entries, keeping only costs whose two endpoints
      resolve to active points, each in both directions. */
  method GraphBuilder<K>(costs: map<K, Cost>, pts: PointLookup) returns (g: Graph)
    ensures GraphOf(g, costs, pts)
  {
    g := map[];
    var rest := costs.Keys;
    while rest != {}
      invariant rest <= costs.Keys
      invariant EdgesFrom(g, costs, pts, rest) && CoversDone(g, costs, pts, rest)
      decreases |rest|
    {
      var key :| key in rest;
      var cost := costs[key];
      var a, b := cost.id.idA, cost.id.idB;
      var pointOfSaleA := ObtainPointOfSale(pts, a);
      var pointOfSaleB := ObtainPointOfSale(pts, b);
      if pointOfSaleA.Some? && pointOfSaleB.Some? && pointOfSaleA.value.active && pointOfSaleB.value.active {
        ghost var g0 := g;
        g := g[a := Neighbors(g, a)[b := cost.amount]];
        ghost var g1 := g;
        g := g[b := Neighbors(g, b)[a := cost.amount]];
        AddCostKeepsView(g0, g1, g, costs, pts, rest, key);
      }
      rest := rest - {key};
    }
  }
}
