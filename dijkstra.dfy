/** Minimum-cost search over the graph view: a priority queue of (point, accumulated cost)
    entries with best-cost and predecessor maps, and the rebuilding of the path from the
    predecessors. */
module MinimumPath {
  import opened Models
  import opened CostGraph
  import opened Storage

  /** A queue entry: a point and the accumulated cost it was queued with. */
  datatype Nodo = Nodo(id: int, amount: real)

  /** What the search promises: "no path" exactly when no walk reaches `to`, otherwise a walk
      from `from` to `to` whose cost is the total and is at most the cost of every other walk. */
  ghost predicate SearchResult(g: Graph, pts: PointLookup, from: int, to: int, r: Option<CostMinimum>, route: seq<int>)
  {
    && (r.None? ==> route == [] && forall w :: !WalkFromTo(g, pts, from, to, w))
    && (r.Some? ==>
          && WalkFromTo(g, pts, from, to, route)
          && r.value.totalCost == WalkCost(g, route)
          && (forall w :: WalkFromTo(g, pts, from, to, w) ==> r.value.totalCost <= WalkCost(g, w))
          && r.value.pointOfSaleResponse == Responses(pts.cache, route))
    && (from == to ==> r.Some? && route == [from] && r.value.totalCost == 0.0)
  }

  /** The cached record of a point on the path, or null when the cache does not have it. */
  function CachedResponse(cache: map<int, PointOfSale>, id: int): (r: Option<PointOfSaleResponse>)
    ensures r.Some? <==> id in cache
    ensures id in cache ==> r == Some(ToPointOfSaleResponse(cache[id]))
  {
    if id in cache then Some(ToPointOfSaleResponse(cache[id])) else None
  }

  /** One entry per point of the route, in route order: null exactly for the uncached points. */
  function Responses(cache: map<int, PointOfSale>, route: seq<int>): (r: seq<Option<PointOfSaleResponse>>)
    ensures |r| == |route|
    ensures forall i :: 0 <= i < |route| ==> (r[i].None? <==> route[i] !in cache)
  {
    seq(|route|, i requires 0 <= i < |route| => CachedResponse(cache, route[i]))
  }

  lemma ResponsesPrepend(cache: map<int, PointOfSale>, id: int, route: seq<int>)
    ensures Responses(cache, [id] + route) == [CachedResponse(cache, id)] + Responses(cache, route)
  {
    var l, r := Responses(cache, [id] + route), [CachedResponse(cache, id)] + Responses(cache, route);
    forall i | 0 <= i < |l|
      ensures l[i] == r[i]
    {
      if i > 0 {
        assert ([id] + route)[i] == route[i - 1];
      }
    }
  }

  /** PriorityQueue.poll: the position of an entry of least accumulated cost. */
  method Poll(queue: seq<Nodo>) returns (k: nat)
    requires |queue| > 0
    ensures k < |queue|
    ensures forall j :: 0 <= j < |queue| ==> queue[k].amount <= queue[j].amount
  {
    k := 0;
    for i := 1 to |queue|
      invariant k < i
      invariant forall j :: 0 <= j < i ==> queue[k].amount <= queue[j].amount
    {
      if queue[i].amount < queue[k].amount {
        k := i;
      }
    }
  }

  function RemoveAt(queue: seq<Nodo>, k: nat): (r: seq<Nodo>)
    requires k < |queue|
    ensures |r| == |queue| - 1
    ensures forall x :: x in r ==> x in queue
    ensures forall x :: x in queue && x != queue[k] ==> x in r
    ensures multiset(r) == multiset(queue) - multiset{queue[k]}
  {
    var r := queue[..k] + queue[k + 1..];
    assert queue == queue[..k] + [queue[k]] + queue[k + 1..];
    assert forall i :: 0 <= i < |queue| && i != k ==> queue[i] == r[if i < k then i else i - 1];
    r
  }

  // ---------------------------------------------------------------------------------------
  // The facts the search maintains. `settled` holds the points already popped with their
  // best cost; `paths` gives, for every point with a best cost, the walk that achieves it.

  /** Every queue entry belongs to a point with a best cost and is no cheaper than it. */
  ghost predicate Sound(queue: seq<Nodo>, minimumCost: map<int, real>)
  {
    forall i :: 0 <= i < |queue| ==> queue[i].id in minimumCost && queue[i].amount >= minimumCost[queue[i].id]
  }

  /** Every unsettled point with a best cost has an entry carrying exactly that cost. */
  ghost predicate Complete(queue: seq<Nodo>, minimumCost: map<int, real>, settled: set<int>)
  {
    forall v :: v in minimumCost && v !in settled ==> Nodo(v, minimumCost[v]) in queue
  }

  /** No queue entry is cheaper than a settled point. */
  ghost predicate SettledFirst(queue: seq<Nodo>, minimumCost: map<int, real>, settled: set<int>)
  {
    settled <= minimumCost.Keys &&
    forall u, i :: u in settled && 0 <= i < |queue| ==> minimumCost[u] <= queue[i].amount
  }

  /** All usable neighbours of `u` have a best cost no greater than going through `u`. */
  ghost predicate RelaxedFrom(g: Graph, pts: PointLookup, minimumCost: map<int, real>, u: int)
    requires u in minimumCost
  {
    forall v :: Step(g, pts, u, v) ==> v in minimumCost && minimumCost[v] <= minimumCost[u] + g[u][v]
  }

  ghost predicate Relaxed(g: Graph, pts: PointLookup, minimumCost: map<int, real>, settled: set<int>)
  {
    settled <= minimumCost.Keys && forall u :: u in settled ==> RelaxedFrom(g, pts, minimumCost, u)
  }

  /** The best cost of a settled point is the least cost of any walk to it. */
  ghost predicate Optimal(g: Graph, pts: PointLookup, from: int, minimumCost: map<int, real>, settled: set<int>)
  {
    settled <= minimumCost.Keys &&
    forall u, w :: u in settled && WalkFromTo(g, pts, from, u, w) ==> WalkCost(g, w) >= minimumCost[u]
  }

  /** Each recorded best cost is the cost of a recorded walk from `from`. */
  ghost predicate PathsValid(g: Graph, pts: PointLookup, from: int, minimumCost: map<int, real>, paths: map<int, seq<int>>)
  {
    paths.Keys == minimumCost.Keys &&
    forall v :: v in paths ==> WalkFromTo(g, pts, from, v, paths[v]) && WalkCost(g, paths[v]) == minimumCost[v]
  }

  /** Following `previous` from a point walks its recorded path backwards: a point without a
      predecessor is a path on its own, any other extends its predecessor's path by itself. */
  ghost predicate PredecessorChains(previous: map<int, int>, paths: map<int, seq<int>>)
  {
    forall v :: v in paths ==>
      && (v !in previous ==> paths[v] == [v])
      && (v in previous ==> previous[v] in paths && paths[v] == paths[previous[v]] + [v])
  }

  ghost predicate PredecessorsSettled(previous: map<int, int>, settled: set<int>)
  {
    forall v :: v in previous ==> previous[v] in settled
  }

  // ---------------------------------------------------------------------------------------

  /** A walk that starts inside `s` and ends outside it crosses out at some step. */
  lemma FirstOutside(w: seq<int>, s: set<int>) returns (j: nat)
    requires |w| >= 1 && w[0] in s && w[|w| - 1] !in s
    ensures 1 <= j < |w| && w[j - 1] in s && w[j] !in s
  {
    j := 1;
    while w[j] in s
      invariant 1 <= j < |w| && w[j - 1] in s
      decreases |w| - j
    {
      j := j + 1;
    }
  }

  /** The entry popped for an unsettled point carries its best cost, and no walk to that
      point is cheaper: any such walk leaves the settled set through an edge whose target
      is queued with a cost at least the popped one. */
  lemma FreshPopIsOptimal(g: Graph, pts: PointLookup, from: int, queue: seq<Nodo>,
                          minimumCost: map<int, real>, settled: set<int>, k: nat)
    requires NonNegative(g)
    requires k < |queue| && forall j :: 0 <= j < |queue| ==> queue[k].amount <= queue[j].amount
    requires queue[k].id !in settled
    requires Sound(queue, minimumCost) && Complete(queue, minimumCost, settled)
    requires Relaxed(g, pts, minimumCost, settled) && Optimal(g, pts, from, minimumCost, settled)
    requires from in settled || (queue == [Nodo(from, 0.0)] && minimumCost == map[from := 0.0])
    ensures queue[k].id in minimumCost && queue[k].amount == minimumCost[queue[k].id]
    ensures forall w :: WalkFromTo(g, pts, from, queue[k].id, w) ==> WalkCost(g, w) >= minimumCost[queue[k].id]
  {
    var v := queue[k].id;
    assert Nodo(v, minimumCost[v]) in queue;
    forall w | WalkFromTo(g, pts, from, v, w)
      ensures WalkCost(g, w) >= minimumCost[v]
    {
      if from !in settled {
        WalkCostNonNegative(g, w);
      } else {
        var j := FirstOutside(w, settled);
        var x, y := w[j - 1], w[j];
        WalkPrefix(g, pts, w, j);
        assert w[..j][j - 1] == x;
        assert WalkFromTo(g, pts, from, x, w[..j]);
        assert Step(g, pts, x, y);
        assert RelaxedFrom(g, pts, minimumCost, x);
        assert Nodo(y, minimumCost[y]) in queue;
        WalkExtend(g, pts, w[..j], y);
        assert w[..j] + [y] == w[..j + 1];
        WalkCostPrefix(g, w, j + 1);
      }
    }
  }

  /** A walk from a set closed under steps stays in it. */
  lemma {:induction false} WalkStaysIn(g: Graph, pts: PointLookup, w: seq<int>, s: set<int>)
    requires IsWalk(g, pts, w) && w[0] in s
    requires forall u, v :: u in s && Step(g, pts, u, v) ==> v in s
    ensures w[|w| - 1] in s
    decreases |w|
  {
    if |w| > 1 {
      var p := w[..|w| - 1];
      WalkPrefix(g, pts, w, |w| - 1);
      WalkStaysIn(g, pts, p, s);
      assert Step(g, pts, w[|w| - 2], w[|w| - 1]);
    }
  }

  /** Once the queue is empty, the settled points are closed under steps, so a point outside
      them is unreachable. */
  lemma NoWalkWhenExhausted(g: Graph, pts: PointLookup, from: int, to: int,
                            minimumCost: map<int, real>, settled: set<int>)
    requires Complete([], minimumCost, settled) && Relaxed(g, pts, minimumCost, settled)
    requires from in settled && to !in settled
    ensures forall w :: !WalkFromTo(g, pts, from, to, w)
  {
    forall u, v | u in settled && Step(g, pts, u, v)
      ensures v in settled
    {
      assert RelaxedFrom(g, pts, minimumCost, u);
    }
    forall w
      ensures !WalkFromTo(g, pts, from, to, w)
    {
      if IsWalk(g, pts, w) && w[0] == from {
        WalkStaysIn(g, pts, w, settled);
      }
    }
  }

  // ---------------------------------------------------------------------------------------

  /** Rebuilds the answer by walking predecessors back from `to`, inserting each point's
      cached record at the front. */
  method CostMinimumPathResponse(to: int, previous: map<int, int>, totalCost: real,
                                 cache: map<int, PointOfSale>, ghost paths: map<int, seq<int>>)
    returns (r: CostMinimum, route: seq<int>)
    requires to in paths && PredecessorChains(previous, paths)
    ensures route == paths[to]
    ensures r == CostMinimum(Responses(cache, route), totalCost)
  {
    var pointOfSaleList: seq<Option<PointOfSaleResponse>> := [];
    route := [];
    var current: Option<int> := Some(to);
    while current.Some?
      invariant current.Some? ==> current.value in paths && paths[to] == paths[current.value] + route
      invariant current.None? ==> route == paths[to]
      invariant pointOfSaleList == Responses(cache, route)
      decreases if current.Some? then |paths[current.value]| else 0
    {
      var id := current.value;
      ResponsesPrepend(cache, id, route);
      pointOfSaleList := [CachedResponse(cache, id)] + pointOfSaleList;
      if id in previous {
        assert paths[to] == paths[previous[id]] + ([id] + route);
      }
      route := [id] + route;
      current := if id in previous then Some(previous[id]) else None;
    }
    r := CostMinimum(pointOfSaleList, totalCost);
  }

  /** The facts about queue, best costs, recorded walks and predecessors kept between pops. */
  ghost predicate Frontier(g: Graph, pts: PointLookup, from: int, queue: seq<Nodo>, minimumCost: map<int, real>,
                           minimumPath: map<int, int>, paths: map<int, seq<int>>, settled: set<int>)
  {
    && Sound(queue, minimumCost) && Complete(queue, minimumCost, settled) && SettledFirst(queue, minimumCost, settled)
    && PathsValid(g, pts, from, minimumCost, paths)
    && PredecessorChains(minimumPath, paths) && PredecessorsSettled(minimumPath, settled)
  }

  /** Best costs only ever go down, and points never lose theirs. */
  ghost predicate Improves(minimumCost: map<int, real>, minimumCost': map<int, real>)
  {
    forall v :: v in minimumCost ==> v in minimumCost' && minimumCost'[v] <= minimumCost[v]
  }

  /** Settled points keep their best cost and walk. */
  ghost predicate Frozen(minimumCost: map<int, real>, paths: map<int, seq<int>>,
                         minimumCost': map<int, real>, paths': map<int, seq<int>>, settled: set<int>)
    requires settled <= minimumCost.Keys && settled <= paths.Keys
  {
    forall u :: u in settled ==> u in minimumCost' && u in paths' && minimumCost'[u] == minimumCost[u] && paths'[u] == paths[u]
  }

  lemma RelaxedFromMonotone(g: Graph, pts: PointLookup, minimumCost: map<int, real>, minimumCost': map<int, real>, u: int)
    requires u in minimumCost && RelaxedFrom(g, pts, minimumCost, u)
    requires Improves(minimumCost, minimumCost') && u in minimumCost' && minimumCost'[u] == minimumCost[u]
    ensures RelaxedFrom(g, pts, minimumCost', u)
  {
  }

  /** Giving the unsettled `next` a cheaper cost, no cheaper than any settled point, with a
      queue entry carrying it keeps the queue facts. */
  lemma ImprovementKeepsQueue(queue: seq<Nodo>, minimumCost: map<int, real>, settled: set<int>,
                              bound: real, next: int, newCost: real, queue': seq<Nodo>, minimumCost': map<int, real>)
    requires Sound(queue, minimumCost) && Complete(queue, minimumCost, settled) && SettledFirst(queue, minimumCost, settled)
    requires next !in settled && (next in minimumCost ==> newCost < minimumCost[next])
    requires forall u :: u in settled ==> minimumCost[u] <= bound
    requires bound <= newCost
    requires minimumCost' == minimumCost[next := newCost] && queue' == queue + [Nodo(next, newCost)]
    ensures Sound(queue', minimumCost') && Complete(queue', minimumCost', settled) && SettledFirst(queue', minimumCost', settled)
  {
    assert queue'[|queue|] == Nodo(next, newCost);
    forall i | 0 <= i < |queue'|
      ensures queue'[i].id in minimumCost' && queue'[i].amount >= minimumCost'[queue'[i].id]
    {
      if i < |queue| {
        assert queue'[i] == queue[i];
      }
    }
    forall v | v in minimumCost' && v !in settled
      ensures Nodo(v, minimumCost'[v]) in queue'
    {
      if v != next {
        assert Nodo(v, minimumCost[v]) in queue;
      }
    }
    forall u, i | u in settled && 0 <= i < |queue'|
      ensures minimumCost'[u] <= queue'[i].amount
    {
      if i < |queue| {
        assert queue'[i] == queue[i];
      }
    }
  }

  /** Recording the walk to `u` extended by the step to `next` keeps every recorded walk
      a walk of its recorded cost. */
  lemma ImprovementKeepsWalks(g: Graph, pts: PointLookup, from: int, u: int, next: int,
                              minimumCost: map<int, real>, paths: map<int, seq<int>>,
                              minimumCost': map<int, real>, paths': map<int, seq<int>>)
    requires PathsValid(g, pts, from, minimumCost, paths)
    requires u in minimumCost && Step(g, pts, u, next)
    requires minimumCost' == minimumCost[next := minimumCost[u] + g[u][next]]
    requires paths' == paths[next := paths[u] + [next]]
    ensures PathsValid(g, pts, from, minimumCost', paths')
  {
    WalkExtend(g, pts, paths[u], next);
    forall v | v in paths'
      ensures WalkFromTo(g, pts, from, v, paths'[v]) && WalkCost(g, paths'[v]) == minimumCost'[v]
    {
      if v != next {
        assert paths'[v] == paths[v];
      }
    }
  }

  /** Making the settled `u` the predecessor of the unsettled `next`, whose walk extends that
      of `u`, keeps the predecessor facts. */
  lemma ImprovementKeepsChains(u: int, next: int, minimumPath: map<int, int>, paths: map<int, seq<int>>,
                               settled: set<int>, minimumPath': map<int, int>, paths': map<int, seq<int>>)
    requires PredecessorChains(minimumPath, paths) && PredecessorsSettled(minimumPath, settled)
    requires u in settled && u in paths && next !in settled
    requires minimumPath' == minimumPath[next := u] && paths' == paths[next := paths[u] + [next]]
    ensures PredecessorChains(minimumPath', paths') && PredecessorsSettled(minimumPath', settled)
  {
    forall v | v in paths'
      ensures v !in minimumPath' ==> paths'[v] == [v]
      ensures v in minimumPath' ==> minimumPath'[v] in paths' && paths'[v] == paths'[minimumPath'[v]] + [v]
    {
      if v != next && v in minimumPath' {
        assert minimumPath'[v] == minimumPath[v] && minimumPath[v] in settled;
      }
    }
  }

  /** Improving the unsettled `next` through the settled `u`, no dearer than any settled
      point, keeps the frontier facts, lowers only the cost of `next` and freezes `settled`. */
  lemma ImprovementKeepsFrontier(g: Graph, pts: PointLookup, from: int, u: int, next: int, newCost: real,
                                 queue: seq<Nodo>, minimumCost: map<int, real>, minimumPath: map<int, int>,
                                 paths: map<int, seq<int>>, settled: set<int>,
                                 queue': seq<Nodo>, minimumCost': map<int, real>, minimumPath': map<int, int>,
                                 paths': map<int, seq<int>>)
    requires Frontier(g, pts, from, queue, minimumCost, minimumPath, paths, settled)
    requires u in settled && settled <= minimumCost.Keys && next !in settled && Step(g, pts, u, next) && g[u][next] >= 0.0
    requires forall s :: s in settled ==> minimumCost[s] <= minimumCost[u]
    requires newCost == minimumCost[u] + g[u][next] && (next in minimumCost ==> newCost < minimumCost[next])
    requires queue' == queue + [Nodo(next, newCost)] && minimumCost' == minimumCost[next := newCost]
    requires minimumPath' == minimumPath[next := u] && paths' == paths[next := paths[u] + [next]]
    ensures Frontier(g, pts, from, queue', minimumCost', minimumPath', paths', settled)
  {
    ImprovementKeepsQueue(queue, minimumCost, settled, minimumCost[u], next, newCost, queue', minimumCost');
    ImprovementKeepsWalks(g, pts, from, u, next, minimumCost, paths, minimumCost', paths');
    ImprovementKeepsChains(u, next, minimumPath, paths, settled, minimumPath', paths');
  }

  /** Lowering the cost of an unsettled point lowers no other cost and changes no settled one. */
  lemma ImprovementFreezes(minimumCost: map<int, real>, paths: map<int, seq<int>>, settled: set<int>, next: int, newCost: real,
                           walk: seq<int>, minimumCost': map<int, real>, paths': map<int, seq<int>>)
    requires settled <= minimumCost.Keys && settled <= paths.Keys && next !in settled
    requires next in minimumCost ==> newCost < minimumCost[next]
    requires minimumCost' == minimumCost[next := newCost] && paths' == paths[next := walk]
    ensures Improves(minimumCost, minimumCost') && Frozen(minimumCost, paths, minimumCost', paths', settled)
  {
  }

  /** Relaxes the edge from the popped entry `current` to `next`: when `next` resolves to an
      active point and becomes cheaper through `current`, it gets the new best cost, `current`
      as predecessor, and a new queue entry. A fresh pop carries the point's best cost; for a
      stale one (the source does not skip those) nothing changes. */
  method RelaxEdge(g: Graph, pts: PointLookup, ghost from: int, current: Nodo, next: int, amount: real,
                   queue: seq<Nodo>, minimumCost: map<int, real>, minimumPath: map<int, int>,
                   ghost settled: set<int>, ghost paths: map<int, seq<int>>, ghost isFresh: bool, ghost nodes: set<int>)
    returns (queue': seq<Nodo>, minimumCost': map<int, real>, minimumPath': map<int, int>, ghost paths': map<int, seq<int>>)
    requires NonNegative(g) && HasEdge(g, current.id, next) && amount == g[current.id][next]
    requires current.id in settled && settled <= minimumCost.Keys
    requires forall u :: u in settled ==> minimumCost[u] <= current.amount
    requires isFresh ==> current.amount == minimumCost[current.id]
    requires !isFresh ==> RelaxedFrom(g, pts, minimumCost, current.id)
    requires Frontier(g, pts, from, queue, minimumCost, minimumPath, paths, settled)
    requires minimumCost.Keys <= nodes && GraphNodes(g) <= nodes
    ensures Frontier(g, pts, from, queue', minimumCost', minimumPath', paths', settled)
    ensures Usable(pts, next) ==> next in minimumCost' && minimumCost'[next] <= current.amount + amount
    ensures Improves(minimumCost, minimumCost') && Frozen(minimumCost, paths, minimumCost', paths', settled)
    ensures minimumCost'.Keys <= nodes
    ensures !isFresh ==> queue' == queue && minimumCost' == minimumCost && minimumPath' == minimumPath && paths' == paths
  {
    queue', minimumCost', minimumPath', paths' := queue, minimumCost, minimumPath, paths;
    var nextPointOfSale := ObtainPointOfSale(pts, next);
    if nextPointOfSale.Some? && nextPointOfSale.value.active {
      var newCost := current.amount + amount;
      assert Step(g, pts, current.id, next);
      if next !in minimumCost || newCost < minimumCost[next] {
        assert isFresh && next !in settled;
        minimumCost' := minimumCost[next := newCost];
        minimumPath' := minimumPath[next := current.id];
        queue' := queue + [Nodo(next, newCost)];
        paths' := paths[next := paths[current.id] + [next]];
        assert next in (set u, v | u in g && v in g[u] :: v);
        ImprovementKeepsFrontier(g, pts, from, current.id, next, newCost, queue, minimumCost, minimumPath, paths, settled,
                                 queue', minimumCost', minimumPath', paths');
        ImprovementFreezes(minimumCost, paths, settled, next, newCost, paths[current.id] + [next], minimumCost', paths');
      }
    }
  }


  /** Once every neighbour of the popped point has been scanned, all settled points are
      relaxed: the others were before and their costs did not change. */
  lemma RelaxedAfterScan(g: Graph, pts: PointLookup, current: Nodo, ids: seq<int>, amounts: seq<real>,
                         minimumCost: map<int, real>, paths: map<int, seq<int>>,
                         minimumCost': map<int, real>, paths': map<int, seq<int>>, settled: set<int>, isFresh: bool)
    requires current.id in settled && settled <= minimumCost.Keys && settled <= paths.Keys
    requires isFresh ==> current.amount == minimumCost[current.id]
    requires !isFresh ==> RelaxedFrom(g, pts, minimumCost, current.id)
    requires forall u :: u in settled && u != current.id ==> RelaxedFrom(g, pts, minimumCost, u)
    requires Improves(minimumCost, minimumCost') && Frozen(minimumCost, paths, minimumCost', paths', settled)
    requires Enumerates(ids, amounts, Neighbors(g, current.id))
    requires forall j :: 0 <= j < |ids| && Usable(pts, ids[j]) ==>
               ids[j] in minimumCost' && minimumCost'[ids[j]] <= current.amount + amounts[j]
    requires !isFresh ==> minimumCost' == minimumCost
    ensures Relaxed(g, pts, minimumCost', settled)
  {
    forall u | u in settled
      ensures u in minimumCost'
    {
      assert u in minimumCost;
    }
    forall u | u in settled
      ensures RelaxedFrom(g, pts, minimumCost', u)
    {
      if u != current.id {
        RelaxedFromMonotone(g, pts, minimumCost, minimumCost', u);
      } else if isFresh {
        forall v | Step(g, pts, u, v)
          ensures v in minimumCost' && minimumCost'[v] <= minimumCost'[u] + g[u][v]
        {
          assert v in Neighbors(g, u);
          var j :| 0 <= j < |ids| && ids[j] == v;
          assert amounts[j] == g[u][v] && minimumCost'[u] == current.amount;
        }
      }
    }
  }

  /** Relaxes every edge out of the popped entry `current`. */
  method Relax(g: Graph, pts: PointLookup, ghost from: int, current: Nodo, queue: seq<Nodo>,
               minimumCost: map<int, real>, minimumPath: map<int, int>,
               ghost settled: set<int>, ghost paths: map<int, seq<int>>, ghost isFresh: bool, ghost nodes: set<int>)
    returns (queue': seq<Nodo>, minimumCost': map<int, real>, minimumPath': map<int, int>, ghost paths': map<int, seq<int>>)
    requires NonNegative(g)
    requires current.id in settled && settled <= minimumCost.Keys
    requires forall u :: u in settled ==> minimumCost[u] <= current.amount
    requires isFresh ==> current.amount == minimumCost[current.id]
    requires !isFresh ==> RelaxedFrom(g, pts, minimumCost, current.id)
    requires forall u :: u in settled && u != current.id ==> RelaxedFrom(g, pts, minimumCost, u)
    requires Frontier(g, pts, from, queue, minimumCost, minimumPath, paths, settled)
    requires minimumCost.Keys <= nodes && GraphNodes(g) <= nodes
    ensures Frontier(g, pts, from, queue', minimumCost', minimumPath', paths', settled)
    ensures Relaxed(g, pts, minimumCost', settled)
    ensures Frozen(minimumCost, paths, minimumCost', paths', settled)
    ensures minimumCost'.Keys <= nodes
    ensures !isFresh ==> queue' == queue && minimumCost' == minimumCost && minimumPath' == minimumPath && paths' == paths
  {
    var neighbors := Neighbors(g, current.id);
    var ids, amounts := Snapshot(neighbors);
    queue', minimumCost', minimumPath', paths' := queue, minimumCost, minimumPath, paths;
    for i := 0 to |ids|
      invariant Frontier(g, pts, from, queue', minimumCost', minimumPath', paths', settled)
      invariant Improves(minimumCost, minimumCost') && Frozen(minimumCost, paths, minimumCost', paths', settled)
      invariant forall j :: 0 <= j < i && Usable(pts, ids[j]) ==>
                  ids[j] in minimumCost' && minimumCost'[ids[j]] <= current.amount + amounts[j]
      invariant minimumCost'.Keys <= nodes
      invariant !isFresh ==> queue' == queue && minimumCost' == minimumCost && minimumPath' == minimumPath && paths' == paths
    {
      assert ids[i] in neighbors && amounts[i] == neighbors[ids[i]];
      ghost var minimumCost0 := minimumCost';
      queue', minimumCost', minimumPath', paths' :=
        RelaxEdge(g, pts, from, current, ids[i], amounts[i], queue', minimumCost', minimumPath', settled, paths', isFresh, nodes);
      forall j | 0 <= j < i + 1 && Usable(pts, ids[j])
        ensures ids[j] in minimumCost' && minimumCost'[ids[j]] <= current.amount + amounts[j]
      {
        if j < i {
          assert ids[j] in minimumCost0 && minimumCost0[ids[j]] <= current.amount + amounts[j];
        }
      }
    }
    RelaxedAfterScan(g, pts, current, ids, amounts, minimumCost, paths, minimumCost', paths', settled, isFresh);
  }

  /** Removing the popped entry and settling its point (when fresh) keeps the frontier facts;
      every settled point is then no dearer than the popped entry. */
  lemma PopKeepsFrontier(g: Graph, pts: PointLookup, from: int, polled: seq<Nodo>, k: nat, queue: seq<Nodo>,
                         minimumCost: map<int, real>, minimumPath: map<int, int>, paths: map<int, seq<int>>,
                         settled: set<int>, settled': set<int>, isFresh: bool)
    requires k < |polled| && forall j :: 0 <= j < |polled| ==> polled[k].amount <= polled[j].amount
    requires queue == RemoveAt(polled, k)
    requires Frontier(g, pts, from, polled, minimumCost, minimumPath, paths, settled)
    requires isFresh ==> polled[k].id in minimumCost && polled[k].amount == minimumCost[polled[k].id] && settled' == settled + {polled[k].id}
    requires !isFresh ==> polled[k].id in settled && settled' == settled
    ensures Frontier(g, pts, from, queue, minimumCost, minimumPath, paths, settled')
    ensures polled[k].id in settled'
    ensures forall u :: u in settled' ==> minimumCost[u] <= polled[k].amount
  {
    var current := polled[k];
    assert current.id in minimumCost;
    forall v | v in minimumCost && v !in settled'
      ensures Nodo(v, minimumCost[v]) in queue
    {
      assert Nodo(v, minimumCost[v]) in polled;
    }
    forall u | u in settled'
      ensures minimumCost[u] <= current.amount
    {
      if u in settled {
        assert 0 <= k < |polled|;
      }
    }
    forall u, i | u in settled' && 0 <= i < |queue|
      ensures minimumCost[u] <= queue[i].amount
    {
      assert queue[i] in polled;
      var j :| 0 <= j < |polled| && polled[j] == queue[i];
    }
  }

  /** Settling a point whose best cost no walk beats keeps optimality. */
  lemma SettleKeepsOptimal(g: Graph, pts: PointLookup, from: int, minimumCost: map<int, real>, settled: set<int>, v: int)
    requires Optimal(g, pts, from, minimumCost, settled) && v in minimumCost
    requires forall w :: WalkFromTo(g, pts, from, v, w) ==> WalkCost(g, w) >= minimumCost[v]
    ensures Optimal(g, pts, from, minimumCost, settled + {v})
  {
  }

  /** Optimality only speaks of settled points, whose costs relaxation leaves alone. */
  lemma FrozenKeepsOptimal(g: Graph, pts: PointLookup, from: int, minimumCost: map<int, real>, paths: map<int, seq<int>>,
                           minimumCost': map<int, real>, paths': map<int, seq<int>>, settled: set<int>)
    requires Optimal(g, pts, from, minimumCost, settled) && settled <= paths.Keys
    requires Frozen(minimumCost, paths, minimumCost', paths', settled)
    ensures Optimal(g, pts, from, minimumCost', settled)
  {
    forall u | u in settled
      ensures u in minimumCost' && minimumCost'[u] == minimumCost[u]
    {
    }
    assert settled <= minimumCost'.Keys;
    forall u, w | u in settled && WalkFromTo(g, pts, from, u, w)
      ensures WalkCost(g, w) >= minimumCost'[u]
    {
      assert WalkCost(g, w) >= minimumCost[u];
    }
  }

  /** Everything the search loop keeps between pops. */
  ghost predicate SearchState(g: Graph, pts: PointLookup, from: int, to: int, queue: seq<Nodo>,
                              minimumCost: map<int, real>, minimumPath: map<int, int>, paths: map<int, seq<int>>,
                              settled: set<int>, nodes: set<int>)
  {
    && Frontier(g, pts, from, queue, minimumCost, minimumPath, paths, settled)
    && Relaxed(g, pts, minimumCost, settled) && Optimal(g, pts, from, minimumCost, settled)
    && from in minimumCost && minimumCost[from] == 0.0 && from in paths && paths[from] == [from]
    && (from in settled || (queue == [Nodo(from, 0.0)] && minimumCost == map[from := 0.0] && settled == {}))
    && to !in settled
    && minimumCost.Keys <= nodes && GraphNodes(g) <= nodes
  }

  /** Popping an entry for a point other than `to` and settling it (when fresh) leaves what
      relaxing its edges needs, and settling a fresh point shrinks the unsettled part. */
  lemma PopPrepares(g: Graph, pts: PointLookup, from: int, to: int, polled: seq<Nodo>, k: nat, queue: seq<Nodo>,
                    minimumCost: map<int, real>, minimumPath: map<int, int>, paths: map<int, seq<int>>,
                    settled: set<int>, settled': set<int>, isFresh: bool, nodes: set<int>)
    requires NonNegative(g)
    requires SearchState(g, pts, from, to, polled, minimumCost, minimumPath, paths, settled, nodes)
    requires k < |polled| && forall j :: 0 <= j < |polled| ==> polled[k].amount <= polled[j].amount
    requires queue == RemoveAt(polled, k) && polled[k].id != to
    requires isFresh == (polled[k].id !in settled)
    requires settled' == if isFresh then settled + {polled[k].id} else settled
    ensures Frontier(g, pts, from, queue, minimumCost, minimumPath, paths, settled')
    ensures polled[k].id in settled' && from in settled' && to !in settled' && settled' <= minimumCost.Keys
    ensures forall u :: u in settled' ==> minimumCost[u] <= polled[k].amount
    ensures isFresh ==> polled[k].amount == minimumCost[polled[k].id]
    ensures !isFresh ==> RelaxedFrom(g, pts, minimumCost, polled[k].id)
    ensures forall u :: u in settled' && u != polled[k].id ==> RelaxedFrom(g, pts, minimumCost, u)
    ensures Optimal(g, pts, from, minimumCost, settled')
    ensures isFresh ==> |nodes - settled'| < |nodes - settled|
  {
    var current := polled[k];
    assert current.id in minimumCost;
    if isFresh {
      FreshPopIsOptimal(g, pts, from, polled, minimumCost, settled, k);
      SettleKeepsOptimal(g, pts, from, minimumCost, settled, current.id);
      assert nodes - settled' == (nodes - settled) - {current.id};
    }
    assert from !in settled ==> polled == [Nodo(from, 0.0)] && k == 0;
    PopKeepsFrontier(g, pts, from, polled, k, queue, minimumCost, minimumPath, paths, settled, settled', isFresh);
  }

  /** After relaxing, the loop facts hold again. */
  lemma RelaxRestores(g: Graph, pts: PointLookup, from: int, to: int, minimumCost: map<int, real>, paths: map<int, seq<int>>,
                      queue': seq<Nodo>, minimumCost': map<int, real>, minimumPath': map<int, int>, paths': map<int, seq<int>>,
                      settled: set<int>, nodes: set<int>)
    requires Frontier(g, pts, from, queue', minimumCost', minimumPath', paths', settled) && Relaxed(g, pts, minimumCost', settled)
    requires Optimal(g, pts, from, minimumCost, settled) && paths.Keys == minimumCost.Keys
    requires Frozen(minimumCost, paths, minimumCost', paths', settled)
    requires from in settled && from in minimumCost && minimumCost[from] == 0.0 && from in paths && paths[from] == [from]
    requires to !in settled && minimumCost'.Keys <= nodes && GraphNodes(g) <= nodes
    ensures SearchState(g, pts, from, to, queue', minimumCost', minimumPath', paths', settled, nodes)
  {
    FrozenKeepsOptimal(g, pts, from, minimumCost, paths, minimumCost', paths', settled);
  }

  /** Popping `to` ends the search with its recorded walk, which no walk beats. */
  lemma FoundIsResult(g: Graph, pts: PointLookup, from: int, to: int, polled: seq<Nodo>, k: nat,
                      minimumCost: map<int, real>, minimumPath: map<int, int>, paths: map<int, seq<int>>,
                      settled: set<int>, nodes: set<int>, response: CostMinimum, route: seq<int>)
    requires NonNegative(g)
    requires SearchState(g, pts, from, to, polled, minimumCost, minimumPath, paths, settled, nodes)
    requires k < |polled| && forall j :: 0 <= j < |polled| ==> polled[k].amount <= polled[j].amount
    requires polled[k].id == to && to in paths
    requires route == paths[to] && response == CostMinimum(Responses(pts.cache, route), minimumCost[to])
    ensures SearchResult(g, pts, from, to, Some(response), route)
  {
    FreshPopIsOptimal(g, pts, from, polled, minimumCost, settled, k);
  }

  /** An exhausted queue ends the search with no path. */
  lemma ExhaustedIsResult(g: Graph, pts: PointLookup, from: int, to: int,
                          minimumCost: map<int, real>, minimumPath: map<int, int>, paths: map<int, seq<int>>,
                          settled: set<int>, nodes: set<int>)
    requires SearchState(g, pts, from, to, [], minimumCost, minimumPath, paths, settled, nodes)
    ensures SearchResult(g, pts, from, to, None, [])
  {
    NoWalkWhenExhausted(g, pts, from, to, minimumCost, settled);
  }

  /** The rest of one round after the popped entry `current` is not `to`: settles its point
      when the entry is fresh and relaxes its edges. Either a point gets settled, or the
      entry was stale and the queue only lost it. */
  method Expand(g: Graph, pts: PointLookup, ghost from: int, ghost to: int, ghost polled: seq<Nodo>, ghost k: nat,
                current: Nodo, queue: seq<Nodo>, minimumCost: map<int, real>, minimumPath: map<int, int>,
                ghost settled: set<int>, ghost paths: map<int, seq<int>>, ghost nodes: set<int>)
    returns (queue': seq<Nodo>, minimumCost': map<int, real>, minimumPath': map<int, int>,
             ghost settled': set<int>, ghost paths': map<int, seq<int>>)
    requires NonNegative(g)
    requires SearchState(g, pts, from, to, polled, minimumCost, minimumPath, paths, settled, nodes)
    requires k < |polled| && forall j :: 0 <= j < |polled| ==> polled[k].amount <= polled[j].amount
    requires current == polled[k] && queue == RemoveAt(polled, k) && current.id != to
    ensures SearchState(g, pts, from, to, queue', minimumCost', minimumPath', paths', settled', nodes)
    ensures |nodes - settled'| < |nodes - settled| || (settled' == settled && |queue'| < |polled|)
  {
    ghost var isFresh := current.id !in settled;
    settled' := if isFresh then settled + {current.id} else settled;
    PopPrepares(g, pts, from, to, polled, k, queue, minimumCost, minimumPath, paths, settled, settled', isFresh, nodes);
    queue', minimumCost', minimumPath', paths' :=
      Relax(g, pts, from, current, queue, minimumCost, minimumPath, settled', paths, isFresh, nodes);
    RelaxRestores(g, pts, from, to, minimumCost, paths, queue', minimumCost', minimumPath', paths', settled', nodes);
  }

  /** The search starts with `from` queued at cost 0 and nothing settled. */
  lemma StartState(g: Graph, pts: PointLookup, from: int, to: int, nodes: set<int>)
    requires nodes == GraphNodes(g) + {from}
    ensures SearchState(g, pts, from, to, [Nodo(from, 0.0)], map[from := 0.0], map[], map[from := [from]], {}, nodes)
  {
  }

  /** Popping `to` ends the search: the answer is rebuilt from the predecessors. */
  method Found(g: Graph, pts: PointLookup, ghost from: int, to: int, ghost polled: seq<Nodo>, ghost k: nat,
               minimumCost: map<int, real>, minimumPath: map<int, int>, ghost paths: map<int, seq<int>>,
               ghost settled: set<int>, ghost nodes: set<int>)
    returns (r: Option<CostMinimum>, route: seq<int>)
    requires NonNegative(g)
    requires SearchState(g, pts, from, to, polled, minimumCost, minimumPath, paths, settled, nodes)
    requires k < |polled| && forall j :: 0 <= j < |polled| ==> polled[k].amount <= polled[j].amount
    requires polled[k].id == to
    ensures SearchResult(g, pts, from, to, r, route)
  {
    assert to in minimumCost && to in paths;
    var response;
    response, route := CostMinimumPathResponse(to, minimumPath, minimumCost[to], pts.cache, paths);
    FoundIsResult(g, pts, from, to, polled, k, minimumCost, minimumPath, paths, settled, nodes, response, route);
    r := Some(response);
  }

  /** Dijkstra's search from `from`, stopping when `to` is popped. */
  method SearchCostMinimumPath(g: Graph, pts: PointLookup, from: int, to: int)
    returns (r: Option<CostMinimum>, route: seq<int>)
    requires NonNegative(g)
    ensures SearchResult(g, pts, from, to, r, route)
  {
    var queue := [Nodo(from, 0.0)];
    var minimumCost := map[from := 0.0];
    var minimumPath: map<int, int> := map[];
    ghost var settled: set<int> := {};
    ghost var paths := map[from := [from]];
    ghost var nodes := GraphNodes(g) + {from};
    StartState(g, pts, from, to, nodes);
    while queue != []
      invariant SearchState(g, pts, from, to, queue, minimumCost, minimumPath, paths, settled, nodes)
      decreases |nodes - settled|, |queue|
    {
      var k := Poll(queue);
      var current := queue[k];
      ghost var polled := queue;
      queue := RemoveAt(queue, k);
      if current.id == to {
        r, route := Found(g, pts, from, to, polled, k, minimumCost, minimumPath, paths, settled, nodes);
        return;
      }
      queue, minimumCost, minimumPath, settled, paths :=
        Expand(g, pts, from, to, polled, k, current, queue, minimumCost, minimumPath, settled, paths, nodes);
    }
    ExhaustedIsResult(g, pts, from, to, minimumCost, minimumPath, paths, settled, nodes);
    r, route := None, [];
  }
}
