/** The two shared collaborators of the services: the key-value cache and the durable store. */
module Storage {
  import opened Models

  /** The cache, with one hash per entity kind. Point entries are keyed by the id (the source
      keys them by the id's decimal string, which is injective, see Keys.IdToStringInjective);
      cost entries by their string key. Nothing ties the cache to the store: it starts out
      with whatever a previous run or the startup seeding left in it. */
  class RedisCache {
    var points: map<int, PointOfSale>
    var costs: map<string, Cost>

    constructor (points: map<int, PointOfSale>, costs: map<string, Cost>)
      ensures this.points == points && this.costs == costs
    {
      this.points := points;
      this.costs := costs;
    }
  }

  /** The relational store: points by id (ids handed out from `nextId`), costs by ordered pair. */
  class Database {
    var points: map<int, PointOfSale>
    var costs: map<CostId, Cost>
    var nextId: int

    /** Every row is stored under its own primary key, and `nextId` is above every used id. */
    ghost predicate Valid()
      reads this
    {
      && (forall id :: id in points ==> points[id].id == id && id < nextId)
      && (forall k :: k in costs ==> costs[k].id == k)
    }

    constructor (points: map<int, PointOfSale>, costs: map<CostId, Cost>, nextId: int)
      requires forall id :: id in points ==> points[id].id == id && id < nextId
      requires forall k :: k in costs ==> costs[k].id == k
      ensures Valid()
      ensures this.points == points && this.costs == costs && this.nextId == nextId
    {
      this.points := points;
      this.costs := costs;
      this.nextId := nextId;
    }
  }

  /** `ks` lists every key of `m` exactly once and `vs` the matching values. */
  ghost predicate Enumerates<K, V>(ks: seq<K>, vs: seq<V>, m: map<K, V>)
  {
    && |ks| == |vs| == |m|
    && (forall i :: 0 <= i < |ks| ==> ks[i] in m && vs[i] == m[ks[i]])
    && (forall k :: k in m ==> k in ks)
    && (forall i, j :: 0 <= i < j < |ks| ==> ks[i] != ks[j])
  }

  /** The entries of a map listed once each, in an unspecified order: how the source sees a
      map when it asks the cache for its values or the store for all rows. */
  method Snapshot<K, V>(m: map<K, V>) returns (ks: seq<K>, vs: seq<V>)
    ensures Enumerates(ks, vs, m)
  {
    ks, vs := [], [];
    var rest := m.Keys;
    while rest != {}
      invariant rest <= m.Keys
      invariant |ks| == |vs| && |ks| + |rest| == |m|
      invariant forall i :: 0 <= i < |ks| ==> ks[i] in m && ks[i] !in rest && vs[i] == m[ks[i]]
      invariant forall k :: k in m ==> k in rest || k in ks
      invariant forall i, j :: 0 <= i < j < |ks| ==> ks[i] != ks[j]
      decreases |rest|
    {
      var k :| k in rest;
      ks, vs := ks + [k], vs + [m[k]];
      rest := rest - {k};
    }
  }
}
