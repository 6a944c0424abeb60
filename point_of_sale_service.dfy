/** The cache-aside registry of points of sale: reads try the point cache first and fall back
    to the store; writes go to both; deletion is a soft delete guarded by the cache entry. */
module PointRegistry {
  import opened Models
  import opened Storage

  // ---------------------------------------------------------------------------------------
  // The stream at the end of getAll: keep the active points, sort them by id, map to responses.

  function ActiveOnly(s: seq<PointOfSale>): (r: seq<PointOfSale>)
    ensures forall p :: p in r <==> p in s && p.active
    decreases |s|
  {
    if s == [] then []
    else (if s[0].active then [s[0]] else []) + ActiveOnly(s[1..])
  }

  /** The filter keeps every active record as often as it occurs, and drops the others. */
  lemma {:induction false} ActiveOnlyCounts(s: seq<PointOfSale>)
    ensures forall p :: multiset(ActiveOnly(s))[p] == if p.active then multiset(s)[p] else 0
    decreases |s|
  {
    if s != [] {
      assert s == [s[0]] + s[1..];
      ActiveOnlyCounts(s[1..]);
    }
  }

  predicate SortedById(s: seq<PointOfSale>)
  {
    forall i, j :: 0 <= i < j < |s| ==> s[i].id <= s[j].id
  }

  /** Inserts `p` before the first entry with an id not below its own. */
  function InsertById(p: PointOfSale, s: seq<PointOfSale>): (r: seq<PointOfSale>)
    requires SortedById(s)
    ensures SortedById(r)
    ensures forall x :: x in r <==> x == p || x in s
    decreases |s|
  {
    if s == [] || p.id <= s[0].id then [p] + s
    else
      var rest := InsertById(p, s[1..]);
      assert forall i :: 0 <= i < |rest| ==> rest[i] in rest;
      [s[0]] + rest
  }

  lemma {:induction false} InsertByIdCounts(p: PointOfSale, s: seq<PointOfSale>)
    requires SortedById(s)
    ensures multiset(InsertById(p, s)) == multiset(s) + multiset{p}
    decreases |s|
  {
    if s != [] && p.id > s[0].id {
      assert s == [s[0]] + s[1..];
      InsertByIdCounts(p, s[1..]);
    }
  }

  /** Sorts by ascending id, keeping the relative order of equal ids. */
  function SortById(s: seq<PointOfSale>): (r: seq<PointOfSale>)
    ensures SortedById(r)
    ensures forall x :: x in r <==> x in s
    decreases |s|
  {
    if s == [] then [] else InsertById(s[0], SortById(s[1..]))
  }

  /** Sorting is a permutation. */
  lemma {:induction false} SortByIdCounts(s: seq<PointOfSale>)
    ensures multiset(SortById(s)) == multiset(s)
    decreases |s|
  {
    if s != [] {
      assert s == [s[0]] + s[1..];
      SortByIdCounts(s[1..]);
      InsertByIdCounts(s[0], SortById(s[1..]));
    }
  }

  function ToResponses(s: seq<PointOfSale>): (r: seq<PointOfSaleResponse>)
    ensures |r| == |s| && forall i :: 0 <= i < |s| ==> r[i] == ToPointOfSaleResponse(s[i])
  {
    seq(|s|, i requires 0 <= i < |s| => ToPointOfSaleResponse(s[i]))
  }

  /** What getAll returns for the listed records `values`. */
  function GetAllResult(values: seq<PointOfSale>): (r: seq<PointOfSaleResponse>)
    ensures forall i, j :: 0 <= i < j < |r| ==> r[i].id <= r[j].id
    ensures forall x :: x in r ==> exists p :: p in values && p.active && x == ToPointOfSaleResponse(p)
    ensures forall p :: p in values && p.active ==> ToPointOfSaleResponse(p) in r
  {
    var sorted := SortById(ActiveOnly(values));
    assert forall i :: 0 <= i < |sorted| ==> sorted[i] in sorted;
    assert forall p :: p in sorted ==> exists i :: 0 <= i < |sorted| && sorted[i] == p;
    ToResponses(sorted)
  }

  /** The active entries of a point map: what getAll writes back to an empty cache. */
  function ActivePoints(m: map<int, PointOfSale>): map<int, PointOfSale>
  {
    map k | k in m && m[k].active :: m[k]
  }

  /** The active entries of `m` under the keys listed in `ks`. */
  function ActiveAmong(ks: seq<int>, m: map<int, PointOfSale>): map<int, PointOfSale>
  {
    map k | k in ks && k in m && m[k].active :: m[k]
  }

  lemma ActiveAmongStep(ks: seq<int>, k: int, m: map<int, PointOfSale>)
    requires k in m
    ensures ActiveAmong(ks + [k], m) == if m[k].active then ActiveAmong(ks, m)[k := m[k]] else ActiveAmong(ks, m)
  {
  }

  lemma ActiveAmongAll(ks: seq<int>, m: map<int, PointOfSale>)
    requires forall k :: k in m ==> k in ks
    ensures ActiveAmong(ks, m) == ActivePoints(m)
  {
    var a, b := ActiveAmong(ks, m), ActivePoints(m);
    forall k
      ensures k in a <==> k in b
    {
      if k in m && m[k].active {
        assert k in ks;
      }
    }
    assert a.Keys == b.Keys;
  }

  /** getAll over a listing of `m` is sorted by id and holds exactly the responses of the
      active records of `m`, each as often as it is listed. */
  lemma GetAllResultSpec(ks: seq<int>, vs: seq<PointOfSale>, m: map<int, PointOfSale>)
    requires Enumerates(ks, vs, m)
    ensures var r := GetAllResult(vs);
      && (forall i, j :: 0 <= i < j < |r| ==> r[i].id <= r[j].id)
      && (forall x :: x in r ==> exists k :: k in m && m[k].active && x == ToPointOfSaleResponse(m[k]))
      && (forall k :: k in m && m[k].active ==> ToPointOfSaleResponse(m[k]) in r)
  {
    var sorted := SortById(ActiveOnly(vs));
    var r := ToResponses(sorted);
    forall x | x in r
      ensures exists k :: k in m && m[k].active && x == ToPointOfSaleResponse(m[k])
    {
      var i :| 0 <= i < |r| && r[i] == x;
      assert sorted[i] in sorted;
      var j :| 0 <= j < |vs| && vs[j] == sorted[i];
      assert ks[j] in m && m[ks[j]] == sorted[i];
    }
    forall k | k in m && m[k].active
      ensures ToPointOfSaleResponse(m[k]) in r
    {
      var j :| 0 <= j < |ks| && ks[j] == k;
      assert vs[j] in vs;
      assert vs[j] in sorted;
      var i :| 0 <= i < |sorted| && sorted[i] == vs[j];
      assert r[i] == ToPointOfSaleResponse(m[k]);
    }
  }

  /** The result lists the active records in ascending id order, each as often as listed. */
  lemma GetAllResultCounts(values: seq<PointOfSale>)
    ensures var s := SortById(ActiveOnly(values));
      GetAllResult(values) == ToResponses(s) && SortedById(s) &&
      forall p :: multiset(s)[p] == if p.active then multiset(values)[p] else 0
  {
    ActiveOnlyCounts(values);
    SortByIdCounts(ActiveOnly(values));
  }

  /** Java's String.isBlank test: Character.isWhitespace, that is the Unicode space, line and
      paragraph separators other than the no-break spaces, and the ASCII control whitespace. */
  predicate IsJavaWhitespace(c: char): (b: bool)
    ensures c == ' ' || c == '\t' || c == '\n' || c == '\r' ==> b
    ensures c as int == 0xA0 || c as int == 0x2007 || c as int == 0x202F ==> !b
  {
    var n := c as int;
    || n == 0x20 || n == 0x1680 || (0x2000 <= n <= 0x200A && n != 0x2007)
    || n == 0x2028 || n == 0x2029 || n == 0x205F || n == 0x3000
    || (0x09 <= n <= 0x0D) || (0x1C <= n <= 0x1F)
  }

  /** String.isBlank: empty or whitespace only. */
  predicate IsBlank(s: string): (b: bool)
    ensures s == "" ==> b
    ensures b <==> forall c :: c in s ==> IsJavaWhitespace(c)
  {
    forall i :: 0 <= i < |s| ==> IsJavaWhitespace(s[i])
  }

  /** The point after an update request: the name is replaced only by a non-null, non-blank one. */
  function Renamed(p: PointOfSale, name: Option<string>): (r: PointOfSale)
    ensures r.(name := p.name) == p
    ensures r.name != p.name ==> name.Some? && !IsBlank(name.value) && r.name == name.value
  {
    if name.Some? && !IsBlank(name.value) then p.(name := name.value) else p
  }

  /** An update keeps id and active flag, and changes the name exactly when the requested one
      is present and not blank. */
  lemma RenamedSpec(p: PointOfSale, name: Option<string>)
    ensures Renamed(p, name).id == p.id && Renamed(p, name).active == p.active
    ensures name.Some? && !IsBlank(name.value) ==> Renamed(p, name).name == name.value
    ensures name.None? || IsBlank(name.value) ==> Renamed(p, name) == p
  {
  }

  /** A blank name never replaces the stored one; the empty name is blank. */
  lemma BlankNamesIgnored(p: PointOfSale)
    ensures Renamed(p, Some("")) == p
    ensures Renamed(p, Some(" \t\n")) == p
    ensures Renamed(p, None) == p
  {
  }

  /** Soft-deleting a point removes it from the points getAll can list from the store. */
  lemma SoftDeleteHides(m: map<int, PointOfSale>, id: int)
    requires id in m
    ensures id !in ActivePoints(m[id := m[id].(active := false)])
    ensures forall k :: k != id ==> (k in ActivePoints(m[id := m[id].(active := false)]) <==> k in ActivePoints(m))
  {
  }

  // ---------------------------------------------------------------------------------------

  class PointOfSaleService {
    const cache: RedisCache
    const db: Database

    /** The store invariant, and every cached point sits under its own id. */
    ghost predicate Valid()
      reads this, cache, db
    {
      db.Valid() && forall k :: k in cache.points ==> cache.points[k].id == k
    }

    /** Cache-aside coherence: whatever the cache holds is what the store holds. */
    ghost predicate Coherent()
      reads this, cache, db
    {
      forall k :: k in cache.points ==> k in db.points && cache.points[k] == db.points[k]
    }

    constructor (cache: RedisCache, db: Database)
      requires db.Valid() && forall k :: k in cache.points ==> cache.points[k].id == k
      ensures this.cache == cache && this.db == db
      ensures Valid()
    {
      this.cache := cache;
      this.db := db;
    }

    /** Lists the active points sorted by id: from the cache when it holds any point,
        otherwise from the store, writing every active store record back to the cache. */
    method GetAll() returns (r: seq<PointOfSaleResponse>, ghost ks: seq<int>, ghost vs: seq<PointOfSale>)
      requires Valid()
      modifies cache
      ensures Valid() && cache.costs == old(cache.costs)
      ensures old(cache.points) != map[] ==> cache.points == old(cache.points) && Enumerates(ks, vs, old(cache.points))
      ensures old(cache.points) == map[] ==> cache.points == ActivePoints(db.points) && Enumerates(ks, vs, db.points)
      ensures r == GetAllResult(vs)
      ensures var source := if old(cache.points) != map[] then old(cache.points) else db.points;
        && (forall i, j :: 0 <= i < j < |r| ==> r[i].id <= r[j].id)
        && (forall x :: x in r ==> exists k :: k in source && source[k].active && x == ToPointOfSaleResponse(source[k]))
        && (forall k :: k in source && source[k].active ==> ToPointOfSaleResponse(source[k]) in r)
      ensures old(Coherent()) ==> Coherent()
    {
      var keys, values := Snapshot(cache.points);
      if values == [] {
        keys, values := Snapshot(db.points);
        CacheActive(keys, values);
      }
      ks, vs := keys, values;
      r := GetAllResult(values);
      GetAllResultSpec(keys, values, if old(cache.points) != map[] then old(cache.points) else db.points);
    }

    /** The loop of getAll over the store rows: every active row is put into the (empty)
        cache under its id. */
    method CacheActive(keys: seq<int>, values: seq<PointOfSale>)
      requires db.Valid() && cache.points == map[] && Enumerates(keys, values, db.points)
      modifies cache
      ensures cache.points == ActivePoints(db.points) && cache.costs == old(cache.costs)
    {
      for i := 0 to |values|
        invariant cache.costs == old(cache.costs)
        invariant cache.points == ActiveAmong(keys[..i], db.points)
      {
        ActiveAmongStep(keys[..i], keys[i], db.points);
        assert keys[..i + 1] == keys[..i] + [keys[i]];
        assert values[i] == db.points[keys[i]] && values[i].id == keys[i];
        if values[i].active {
          cache.points := cache.points[values[i].id := values[i]];
        }
      }
      assert keys[..|values|] == keys;
      ActiveAmongAll(keys, db.points);
    }

    /** The point with id `id`: the cached record on a hit; on a miss the store record, which
        is cached when active; EntityNotFound when the store has none either. */
    method FindById(id: int) returns (r: Result<PointOfSaleResponse>)
      requires Valid()
      modifies cache
      ensures Valid() && cache.costs == old(cache.costs)
      ensures id in old(cache.points) ==> r == Ok(ToPointOfSaleResponse(old(cache.points)[id])) && cache.points == old(cache.points)
      ensures id !in old(cache.points) && id !in db.points ==> r == Err(EntityNotFound) && cache.points == old(cache.points)
      ensures id !in old(cache.points) && id in db.points ==>
        && r == Ok(ToPointOfSaleResponse(db.points[id]))
        && cache.points == if db.points[id].active then old(cache.points)[id := db.points[id]] else old(cache.points)
      ensures old(Coherent()) ==> Coherent() && (id in db.points ==> r == Ok(ToPointOfSaleResponse(db.points[id])))
    {
      if id in cache.points {
        return Ok(ToPointOfSaleResponse(cache.points[id]));
      }
      if id !in db.points {
        return Err(EntityNotFound);
      }
      var pointOfSale := db.points[id];
      if pointOfSale.active {
        cache.points := cache.points[id := pointOfSale];
      }
      r := Ok(ToPointOfSaleResponse(pointOfSale));
    }

    /** Stores a new active point under a fresh id, then caches it under that id. */
    method Save(request: PointOfSaleRequest) returns (r: PointOfSaleResponse)
      requires Valid()
      modifies cache, db
      ensures Valid() && cache.costs == old(cache.costs) && db.costs == old(db.costs)
      ensures old(db.nextId) !in old(db.points) && db.nextId == old(db.nextId) + 1
      ensures var p := PointOfSale(old(db.nextId), request.name, true);
        && db.points == old(db.points)[p.id := p]
        && cache.points == old(cache.points)[p.id := p]
        && r == ToPointOfSaleResponse(p)
      ensures old(Coherent()) ==> Coherent()
    {
      var pointOfSale := PointOfSale(db.nextId, request.name, true);
      db.points := db.points[pointOfSale.id := pointOfSale];
      db.nextId := db.nextId + 1;
      cache.points := cache.points[pointOfSale.id := pointOfSale];
      r := ToPointOfSaleResponse(pointOfSale);
    }

    /** Renames a stored point when the new name is present and not blank, then writes the
        record to cache and store; EntityNotFound, with no change, for an unknown id. */
    method Update(update: PointOfSaleUpdate) returns (r: Result<PointOfSaleResponse>)
      requires Valid()
      modifies cache, db
      ensures Valid() && cache.costs == old(cache.costs) && db.costs == old(db.costs) && db.nextId == old(db.nextId)
      ensures update.id !in old(db.points) ==>
        r == Err(EntityNotFound) && cache.points == old(cache.points) && db.points == old(db.points)
      ensures update.id in old(db.points) ==> var p := Renamed(old(db.points)[update.id], update.name);
        && r == Ok(ToPointOfSaleResponse(p))
        && db.points == old(db.points)[update.id := p]
        && cache.points == old(cache.points)[update.id := p]
      ensures old(Coherent()) ==> Coherent()
    {
      if update.id !in db.points {
        return Err(EntityNotFound);
      }
      var pointOfSale := Renamed(db.points[update.id], update.name);
      cache.points := cache.points[pointOfSale.id := pointOfSale];
      db.points := db.points[pointOfSale.id := pointOfSale];
      r := Ok(ToPointOfSaleResponse(pointOfSale));
    }

    /** Soft delete: the cache entry must exist and is removed first; then the store record is
        marked inactive, or EntityNotFound is reported with the cache entry already gone. */
    method Delete(id: int) returns (o: Outcome)
      requires Valid()
      modifies cache, db
      ensures Valid() && cache.costs == old(cache.costs) && db.costs == old(db.costs) && db.nextId == old(db.nextId)
      ensures id !in old(cache.points) ==>
        o == Fail(CacheEntryNotFound) && cache.points == old(cache.points) && db.points == old(db.points)
      ensures id in old(cache.points) ==> cache.points == old(cache.points) - {id}
      ensures id in old(cache.points) && id !in old(db.points) ==> o == Fail(EntityNotFound) && db.points == old(db.points)
      ensures id in old(cache.points) && id in old(db.points) ==>
        o == Pass && db.points == old(db.points)[id := old(db.points)[id].(active := false)]
      ensures old(Coherent()) ==> Coherent()
    {
      if id !in cache.points {
        return Fail(CacheEntryNotFound);
      }
      cache.points := cache.points - {id};
      if id !in db.points {
        return Fail(EntityNotFound);
      }
      var pointOfSale := db.points[id];
      db.points := db.points[id := pointOfSale.(active := false)];
      o := Pass;
    }
  }
}
