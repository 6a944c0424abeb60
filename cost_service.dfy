/** The cost registry: validated creation and deletion of the costs between two points of sale,
    the direct costs of one point, and the minimum-cost path between two points. Costs live in
    the cache under the normalised key of their two endpoints and in the store under the ordered
    pair the caller gave. */
module CostRegistry {
  import opened Models
  import opened Keys
  import opened Storage
  import opened CostGraph
  import opened MinimumPath

  /** The cache key of a cost entry. */
  function PairKey(c: Cost): string
  {
    KeyGenerator(c.id.idA, c.id.idB)
  }

  predicate NonNegativeAmounts<K>(m: map<K, Cost>)
  {
    forall k :: k in m ==> m[k].amount >= 0.0
  }

  // ---------------------------------------------------------------------------------------
  // The checks save runs before writing anything.

  /** Both endpoints must be stored points (the store alone is asked, not the cache). */
  function ValidatePointsExist(storePoints: map<int, PointOfSale>, idA: int, idB: int): (o: Outcome)
    ensures o == Pass <==> idA in storePoints && idB in storePoints
    ensures o.Fail? ==> o.error.PointOfSaleNotFound?
    ensures o == Fail(PointOfSaleNotFound(BothMissing)) <==> idA !in storePoints && idB !in storePoints
    ensures o == Fail(PointOfSaleNotFound(MissingA)) <==> idA !in storePoints && idB in storePoints
    ensures o == Fail(PointOfSaleNotFound(MissingB)) <==> idA in storePoints && idB !in storePoints
  {
    var existsA := idA in storePoints;
    var existsB := idB in storePoints;
    if !existsA && !existsB then Fail(PointOfSaleNotFound(BothMissing))
    else if !existsA then Fail(PointOfSaleNotFound(MissingA))
    else if !existsB then Fail(PointOfSaleNotFound(MissingB))
    else Pass
  }

  /** The pair must not be known yet: the cache is asked under the normalised key (so either
      order of the endpoints is caught), then the store under the ordered pair (so only the
      same order is caught). */
  function ValidateCostNotExists(cacheCosts: map<string, Cost>, storeCosts: map<CostId, Cost>, idA: int, idB: int): (o: Outcome)
    ensures o == Pass <==> KeyGenerator(idA, idB) !in cacheCosts && CostId(idA, idB) !in storeCosts
    ensures KeyGenerator(idA, idB) in cacheCosts ==> o == Fail(CostAlreadyExists(FoundInCache))
    ensures KeyGenerator(idA, idB) !in cacheCosts && CostId(idA, idB) in storeCosts ==>
              o == Fail(CostAlreadyExists(FoundInDatabase))
  {
    if KeyGenerator(idA, idB) in cacheCosts then Fail(CostAlreadyExists(FoundInCache))
    else if CostId(idA, idB) in storeCosts then Fail(CostAlreadyExists(FoundInDatabase))
    else Pass
  }

  /** All checks of save, in the order the source runs them; the first failing one decides. */
  function SaveCheck(request: CostRequest, storePoints: map<int, PointOfSale>,
                     cacheCosts: map<string, Cost>, storeCosts: map<CostId, Cost>): (o: Outcome)
    ensures o == Pass <==>
              && request.idA != request.idB && request.amount >= 0.0
              && request.idA in storePoints && request.idB in storePoints
              && KeyGenerator(request.idA, request.idB) !in cacheCosts
              && CostId(request.idA, request.idB) !in storeCosts
    ensures request.idA == request.idB ==> o == Fail(InvalidCost(SameEndpoints))
    ensures request.idA != request.idB && request.amount < 0.0 ==> o == Fail(InvalidCost(NegativeAmount))
    ensures o.Fail? && o.error.CostAlreadyExists? ==>
              request.idA != request.idB && request.amount >= 0.0 &&
              request.idA in storePoints && request.idB in storePoints
    ensures request.idA != request.idB && request.amount >= 0.0 &&
            !(request.idA in storePoints && request.idB in storePoints) ==>
              o == ValidatePointsExist(storePoints, request.idA, request.idB)
    ensures request.idA != request.idB && request.amount >= 0.0 &&
            request.idA in storePoints && request.idB in storePoints ==>
              o == ValidateCostNotExists(cacheCosts, storeCosts, request.idA, request.idB)
  {
    if request.idA == request.idB then Fail(InvalidCost(SameEndpoints))
    else if request.amount < 0.0 then Fail(InvalidCost(NegativeAmount))
    else if ValidatePointsExist(storePoints, request.idA, request.idB).Fail? then
      ValidatePointsExist(storePoints, request.idA, request.idB)
    else ValidateCostNotExists(cacheCosts, storeCosts, request.idA, request.idB)
  }

  /** Once a cost is saved, a request for the same two points, in either order, is refused
      while the cache entry is there. */
  lemma SavedPairRefused(first: CostRequest, second: CostRequest, storePoints: map<int, PointOfSale>,
                         cacheCosts: map<string, Cost>, storeCosts: map<CostId, Cost>)
    requires SaveCheck(first, storePoints, cacheCosts, storeCosts) == Pass
    requires (second.idA == first.idA && second.idB == first.idB) || (second.idA == first.idB && second.idB == first.idA)
    ensures var c := CostFromRequest(first);
            var cacheCosts', storeCosts' := cacheCosts[KeyGenerator(first.idA, first.idB) := c], storeCosts[c.id := c];
            && SaveCheck(second, storePoints, cacheCosts', storeCosts').Fail?
            && (second.amount >= 0.0 ==>
                  SaveCheck(second, storePoints, cacheCosts', storeCosts') == Fail(CostAlreadyExists(FoundInCache)))
  {
    KeyGeneratorNormalized(first.idA, first.idB);
  }

  /** The store alone tells the two orders apart: with the cache entry gone, the reversed pair
      passes every check, and the store would end up holding the pair twice. */
  lemma ReversedPairPassesWithoutCache(first: CostRequest, amount: real, storePoints: map<int, PointOfSale>,
                                       cacheCosts: map<string, Cost>, storeCosts: map<CostId, Cost>)
    requires SaveCheck(first, storePoints, cacheCosts, storeCosts) == Pass
    requires CostId(first.idB, first.idA) !in storeCosts
    requires amount >= 0.0
    ensures var c := CostFromRequest(first);
            var second := CostRequest(first.idB, first.idA, amount);
            && SaveCheck(second, storePoints, map[], storeCosts[c.id := c]) == Pass
            && CostId(first.idA, first.idB) in storeCosts[c.id := c][CostFromRequest(second).id := CostFromRequest(second)]
            && CostId(first.idB, first.idA) in storeCosts[c.id := c][CostFromRequest(second).id := CostFromRequest(second)]
  {
    assert CostId(first.idB, first.idA) != CostId(first.idA, first.idB);
  }

  /** Deleting the pair just saved, in the same order, gives back both maps as they were. */
  lemma DeleteUndoesSave(request: CostRequest, storePoints: map<int, PointOfSale>,
                         cacheCosts: map<string, Cost>, storeCosts: map<CostId, Cost>)
    requires SaveCheck(request, storePoints, cacheCosts, storeCosts) == Pass
    ensures var c, key := CostFromRequest(request), KeyGenerator(request.idA, request.idB);
            && key in cacheCosts[key := c]
            && cacheCosts[key := c] - {key} == cacheCosts
            && storeCosts[c.id := c] - {c.id} == storeCosts
  {
    var c, key := CostFromRequest(request), KeyGenerator(request.idA, request.idB);
    assert cacheCosts[key := c] - {key} == cacheCosts;
    assert storeCosts[c.id := c] - {c.id} == storeCosts;
  }

  /** Deleting the pair just saved in the REVERSED order clears the cache entry (same
      normalised key) but not the stored row (different ordered key). */
  lemma ReversedDeleteKeepsStoredRow(request: CostRequest, storePoints: map<int, PointOfSale>,
                                     cacheCosts: map<string, Cost>, storeCosts: map<CostId, Cost>)
    requires SaveCheck(request, storePoints, cacheCosts, storeCosts) == Pass
    ensures var c, key := CostFromRequest(request), KeyGenerator(request.idA, request.idB);
            && KeyGenerator(request.idB, request.idA) in cacheCosts[key := c]
            && cacheCosts[key := c] - {KeyGenerator(request.idB, request.idA)} == cacheCosts
            && CostId(request.idA, request.idB) in storeCosts[c.id := c] - {CostId(request.idB, request.idA)}
  {
    KeyGeneratorNormalized(request.idA, request.idB);
    var c, key := CostFromRequest(request), KeyGenerator(request.idA, request.idB);
    assert cacheCosts[key := c] - {key} == cacheCosts;
  }

  // ---------------------------------------------------------------------------------------
  // Direct costs of one point.

  /** The cost has `id` as one of its two endpoints. */
  predicate Touches(c: Cost, id: int)
  {
    c.id.idA == id || c.id.idB == id
  }

  function Touching(s: seq<Cost>, id: int): (r: seq<Cost>)
    ensures forall c :: c in r <==> c in s && Touches(c, id)
    ensures |r| <= |s|
    decreases |s|
  {
    if s == [] then []
    else (if Touches(s[0], id) then [s[0]] else []) + Touching(s[1..], id)
  }

  /** The filter keeps every touching cost as often as it occurs, and drops the others. */
  lemma {:induction false} TouchingCounts(s: seq<Cost>, id: int)
    ensures forall c :: multiset(Touching(s, id))[c] == if Touches(c, id) then multiset(s)[c] else 0
    decreases |s|
  {
    if s != [] {
      assert s == [s[0]] + s[1..];
      TouchingCounts(s[1..], id);
    }
  }

  function CostResponses(s: seq<Cost>): seq<CostResponse>
  {
    seq(|s|, i requires 0 <= i < |s| => ToCostResponse(s[i]))
  }

  /** `r` lists the responses of exactly the entries of `m` that touch `id`. */
  ghost predicate ListsTouching<K>(r: seq<CostResponse>, m: map<K, Cost>, id: int)
  {
    forall x :: x in r <==> exists k :: k in m && Touches(m[k], id) && x == ToCostResponse(m[k])
  }

  lemma TouchingResponses<K>(ks: seq<K>, rows: seq<Cost>, m: map<K, Cost>, id: int)
    requires Enumerates(ks, rows, m)
    ensures ListsTouching(CostResponses(Touching(rows, id)), m, id)
  {
    var t := Touching(rows, id);
    var r := CostResponses(t);
    forall x | x in r
      ensures exists k :: k in m && Touches(m[k], id) && x == ToCostResponse(m[k])
    {
      var i :| 0 <= i < |r| && r[i] == x;
      assert t[i] in rows;
      var j :| 0 <= j < |rows| && rows[j] == t[i];
      assert ks[j] in m && m[ks[j]] == t[i];
    }
    forall k | k in m && Touches(m[k], id)
      ensures ToCostResponse(m[k]) in r
    {
      var j :| 0 <= j < |ks| && ks[j] == k;
      assert rows[j] in rows;
      assert m[k] in t;
      var i :| 0 <= i < |t| && t[i] == m[k];
      assert r[i] == ToCostResponse(m[k]);
    }
  }

  // ---------------------------------------------------------------------------------------
  // The cost map the minimum-cost search runs on when the cache holds no cost.

  /** `edges` is the store re-keyed by normalised key: every key holds a stored cost with that
      key, and every stored cost's key is present. */
  ghost predicate KeyedByPair(edges: map<string, Cost>, storeCosts: map<CostId, Cost>)
  {
    && (forall k :: k in edges ==> PairKey(edges[k]) == k && exists id :: id in storeCosts && storeCosts[id] == edges[k])
    && (forall id :: id in storeCosts ==> PairKey(storeCosts[id]) in edges)
  }

  /** `m` holds the first `i` rows under their normalised keys, the later of two rows with
      the same key winning. */
  ghost predicate KeyedPrefix(rows: seq<Cost>, i: nat, m: map<string, Cost>)
    requires i <= |rows|
  {
    && (forall k :: k in m ==> m[k] in rows[..i] && PairKey(m[k]) == k)
    && (forall j :: 0 <= j < i ==> PairKey(rows[j]) in m)
    && (forall j :: 0 <= j < i ==>
          m[PairKey(rows[j])] == rows[j] || exists l :: j < l < i && PairKey(rows[l]) == PairKey(rows[j]))
  }

  lemma KeyedPrefixStep(rows: seq<Cost>, i: nat, m: map<string, Cost>, m': map<string, Cost>)
    requires i < |rows| && KeyedPrefix(rows, i, m)
    requires m' == m[PairKey(rows[i]) := rows[i]]
    ensures KeyedPrefix(rows, i + 1, m')
  {
    assert rows[..i + 1] == rows[..i] + [rows[i]];
    forall k | k in m'
      ensures m'[k] in rows[..i + 1] && PairKey(m'[k]) == k
    {
      if k != PairKey(rows[i]) {
        assert m'[k] == m[k] && m[k] in rows[..i];
      }
    }
    forall j | 0 <= j < i + 1
      ensures m'[PairKey(rows[j])] == rows[j] || exists l :: j < l < i + 1 && PairKey(rows[l]) == PairKey(rows[j])
    {
      if j < i && PairKey(rows[j]) == PairKey(rows[i]) {
        assert j < i < i + 1;
      } else if j < i {
        assert m'[PairKey(rows[j])] == m[PairKey(rows[j])];
        if m[PairKey(rows[j])] != rows[j] {
          var l :| j < l < i && PairKey(rows[l]) == PairKey(rows[j]);
          assert j < l < i + 1;
        }
      }
    }
  }

  /** Puts the rows into a map under their normalised keys, in order, so that of two rows with
      the same key the later one stays. */
  method KeyByPair(rows: seq<Cost>) returns (m: map<string, Cost>)
    ensures forall k :: k in m ==> m[k] in rows && PairKey(m[k]) == k
    ensures forall i :: 0 <= i < |rows| ==> PairKey(rows[i]) in m
    ensures forall i :: 0 <= i < |rows| ==>
              m[PairKey(rows[i])] == rows[i] || exists j :: i < j < |rows| && PairKey(rows[j]) == PairKey(rows[i])
  {
    m := map[];
    for i := 0 to |rows|
      invariant KeyedPrefix(rows, i, m)
    {
      ghost var m0 := m;
      m := m[PairKey(rows[i]) := rows[i]];
      KeyedPrefixStep(rows, i, m0, m);
    }
    assert rows[..|rows|] == rows;
  }

  lemma KeyByPairOfStore(ks: seq<CostId>, rows: seq<Cost>, storeCosts: map<CostId, Cost>, edges: map<string, Cost>)
    requires Enumerates(ks, rows, storeCosts)
    requires forall k :: k in edges ==> edges[k] in rows && PairKey(edges[k]) == k
    requires forall i :: 0 <= i < |rows| ==> PairKey(rows[i]) in edges
    ensures KeyedByPair(edges, storeCosts)
  {
    forall k | k in edges
      ensures exists id :: id in storeCosts && storeCosts[id] == edges[k]
    {
      var j :| 0 <= j < |rows| && rows[j] == edges[k];
      assert ks[j] in storeCosts && storeCosts[ks[j]] == edges[k];
    }
    forall id | id in storeCosts
      ensures PairKey(storeCosts[id]) in edges
    {
      var j :| 0 <= j < |ks| && ks[j] == id;
      assert rows[j] == storeCosts[id];
    }
  }

  lemma KeyedByPairNonNegative(edges: map<string, Cost>, storeCosts: map<CostId, Cost>)
    requires KeyedByPair(edges, storeCosts)
    requires NonNegativeAmounts(storeCosts)
    ensures NonNegativeAmounts(edges)
  {
    forall k | k in edges
      ensures edges[k].amount >= 0.0
    {
      var id :| id in storeCosts && storeCosts[id] == edges[k];
    }
  }

  // ---------------------------------------------------------------------------------------

  class CostService {
    const cache: RedisCache
    const db: Database

    /** Every row is under its own key, and no cost in the cache or the store is negative
        (save refuses negative amounts). */
    ghost predicate Valid()
      reads this, cache, db
    {
      db.Valid() && NonNegativeAmounts(cache.costs) && NonNegativeAmounts(db.costs)
    }

    constructor (cache: RedisCache, db: Database)
      requires db.Valid() && NonNegativeAmounts(cache.costs) && NonNegativeAmounts(db.costs)
      ensures this.cache == cache && this.db == db
      ensures Valid()
    {
      this.cache := cache;
      this.db := db;
    }

    /** Runs the checks in order; when all pass, writes the cost to the cache under the
        normalised key and to the store under the ordered pair. A failed check writes nothing. */
    method Save(request: CostRequest) returns (r: Result<CostResponse>)
      requires Valid()
      modifies cache, db
      ensures Valid()
      ensures cache.points == old(cache.points) && db.points == old(db.points) && db.nextId == old(db.nextId)
      ensures var check := SaveCheck(request, old(db.points), old(cache.costs), old(db.costs));
              check.Fail? ==> r == Err(check.error) && cache.costs == old(cache.costs) && db.costs == old(db.costs)
      ensures var c := CostFromRequest(request);
              SaveCheck(request, old(db.points), old(cache.costs), old(db.costs)) == Pass ==>
                && r == Ok(ToCostResponse(c))
                && cache.costs == old(cache.costs)[KeyGenerator(request.idA, request.idB) := c]
                && db.costs == old(db.costs)[CostId(request.idA, request.idB) := c]
    {
      if request.idA == request.idB {
        return Err(InvalidCost(SameEndpoints));
      }
      if request.amount < 0.0 {
        return Err(InvalidCost(NegativeAmount));
      }
      var pointsExist := ValidatePointsExist(db.points, request.idA, request.idB);
      if pointsExist.Fail? {
        return Err(pointsExist.error);
      }
      var costNotExists := ValidateCostNotExists(cache.costs, db.costs, request.idA, request.idB);
      if costNotExists.Fail? {
        return Err(costNotExists.error);
      }
      var costId := CostId(request.idA, request.idB);
      var cost := Cost(costId, request.amount);
      var key := KeyGenerator(request.idA, request.idB);
      cache.costs := cache.costs[key := cost];
      db.costs := db.costs[costId := cost];
      r := Ok(ToCostResponse(cost));
    }

    /** Removes the pair: when the cache has the normalised key, from the cache and (if there)
        the store; otherwise from the store when the ordered pair is there; otherwise fails. */
    method Delete(idA: int, idB: int) returns (o: Outcome)
      requires Valid()
      modifies cache, db
      ensures Valid()
      ensures cache.points == old(cache.points) && db.points == old(db.points) && db.nextId == old(db.nextId)
      ensures o == Pass <==> KeyGenerator(idA, idB) in old(cache.costs) || CostId(idA, idB) in old(db.costs)
      ensures o != Pass ==> o == Fail(CostNotFound) && cache.costs == old(cache.costs) && db.costs == old(db.costs)
      ensures KeyGenerator(idA, idB) in old(cache.costs) ==>
                cache.costs == old(cache.costs) - {KeyGenerator(idA, idB)} && db.costs == old(db.costs) - {CostId(idA, idB)}
      ensures KeyGenerator(idA, idB) !in old(cache.costs) && CostId(idA, idB) in old(db.costs) ==>
                cache.costs == old(cache.costs) && db.costs == old(db.costs) - {CostId(idA, idB)}
    {
      var key := KeyGenerator(idA, idB);
      var costId := CostId(idA, idB);
      if key in cache.costs {
        cache.costs := cache.costs - {key};
        db.costs := db.costs - {costId};
        o := Pass;
      } else if costId in db.costs {
        db.costs := db.costs - {costId};
        o := Pass;
      } else {
        o := Fail(CostNotFound);
      }
    }

    /** The costs with `id` as an endpoint: filtered from the cache when it holds any cost,
        otherwise queried from the store. Nothing is written. `rows` is the listing the
        result was filtered from (in an unspecified order) and `keys` its keys. */
    method DirectCostFromOnePoint(id: int) returns (r: seq<CostResponse>, ghost keys: seq<string>, ghost storeKeys: seq<CostId>, ghost rows: seq<Cost>)
      ensures r == CostResponses(Touching(rows, id))
      ensures cache.costs != map[] ==> Enumerates(keys, rows, cache.costs) && ListsTouching(r, cache.costs, id)
      ensures cache.costs == map[] ==> Enumerates(storeKeys, rows, db.costs) && ListsTouching(r, db.costs, id)
    {
      keys, storeKeys := [], [];
      var costsInCache := cache.costs;
      if costsInCache == map[] {
        var ks, values := Snapshot(db.costs);
        storeKeys, rows := ks, values;
        TouchingResponses(ks, values, db.costs, id);
        r := CostResponses(Touching(values, id));
      } else {
        var ks, values := Snapshot(costsInCache);
        keys, rows := ks, values;
        TouchingResponses(ks, values, costsInCache, id);
        r := CostResponses(Touching(values, id));
      }
    }

    /** The cheapest path between two active points. Fails when either endpoint does not
        resolve to an active point. The search runs on the cached costs, or, when the cache
        holds none, on the store's costs keyed by normalised key (not written back). The
        result is None when no path exists. `edges` and `g` are the cost map and graph view
        the search ran on, `route` the ids along the returned path. */
    method MinimumCostPath(idA: int, idB: int)
      returns (r: Result<Option<CostMinimum>>, ghost route: seq<int>, ghost edges: map<string, Cost>, ghost g: Graph)
      requires Valid()
      ensures var pts := PointLookup(cache.points, db.points);
              && (r.Err? <==> !Usable(pts, idA) || !Usable(pts, idB))
              && (r.Err? ==> r.error == InactivePointOfSale)
              && (r.Ok? ==>
                    && (cache.costs != map[] ==> edges == cache.costs)
                    && (cache.costs == map[] ==> KeyedByPair(edges, db.costs))
                    && GraphOf(g, edges, pts)
                    && SearchResult(g, pts, idA, idB, r.value, route))
    {
      var pts := PointLookup(cache.points, db.points);
      var pointOfSaleA := ObtainPointOfSale(pts, idA);
      var pointOfSaleB := ObtainPointOfSale(pts, idB);
      if !IsPointOfSaleValid(pointOfSaleA) || !IsPointOfSaleValid(pointOfSaleB) {
        return Err(InactivePointOfSale), [], map[], map[];
      }
      var costsInCache := cache.costs;
      if costsInCache == map[] {
        var ks, costsList := Snapshot(db.costs);
        costsInCache := KeyByPair(costsList);
        KeyByPairOfStore(ks, costsList, db.costs, costsInCache);
        KeyedByPairNonNegative(costsInCache, db.costs);
      }
      var graphStructure := GraphBuilder(costsInCache, pts);
      GraphOfNonNegative(graphStructure, costsInCache, pts);
      var found, path := SearchCostMinimumPath(graphStructure, pts, idA, idB);
      r, route, edges, g := Ok(found), path, costsInCache, graphStructure;
    }
  }
}
