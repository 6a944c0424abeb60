# Point-of-sale cost service, modelled in Dafny

The service keeps a weighted, undirected graph of points of sale. Each point has an id, a name
and an `active` flag; a soft delete clears the flag. Each edge (a *cost*) joins two points and
carries an amount. Both entities live in two places:

- a key-value **cache**, one hash per entity kind;
- a relational **store**.

The service reads the cache first and falls back to the store (cache-aside). Writes go to both.

This project models the service layer in Dafny:

- the point registry: list all, find, create, rename and soft-delete;
- the cost registry: validated creation, deletion, the direct costs of one point, and the
  cheapest path between two points (Dijkstra's search over the active part of the graph);
- the role check that guards the HTTP endpoints.

## Modules

- `Models` (`models.dfy`) holds the entities, the request and response records, and one error
  kind per exception class the core throws.
- `Keys` (`keys.dfy`) turns ids into their decimal strings (`Long.toString`) and builds the
  cost cache key: the smaller id first, then `-`, then the larger one. It proves the key does
  not depend on argument order and identifies the unordered pair.
- `Storage` (`storage.dfy`) holds the two collaborators as classes whose fields are maps:
  - `RedisCache` maps point ids to points and string keys to costs;
  - `Database` maps point ids to points and ordered `CostId` pairs to costs, and keeps the
    next id to hand out.

  `Snapshot` lists a map's entries once each, in an unspecified order. This is how the source
  sees a hash's values or a `findAll`.
- `PointRegistry` (`point_of_sale_service.dfy`) is the point service as a class over one cache
  and one store. `Valid` is the class invariant. `Coherent` means every cached point equals its
  store row, and every write preserves it.
- `CostGraph` (`graph.dfy`) covers:
  - point resolution: the cache, then the store, else null;
  - the adjacency view `graphBuilder` builds;
  - walks (sequences of steps to active points) and their costs.
- `MinimumPath` (`dijkstra.dfy`) is the search loop. The queue is a sequence of
  `(point, amount)` entries; `Poll` removes an entry of least amount. `minimumCost` holds the
  best costs and `minimumPath` the predecessors. The answer is rebuilt by walking the
  predecessors back from the target.

  For non-negative amounts the proof shows:
  - "no path" (null) is returned exactly when no walk reaches the target;
  - otherwise the returned route is a walk from the source to the target;
  - its cost is the reported total, and no other walk costs less;
  - a query from a point to itself gives `[from]` at cost 0.

  The source does not skip stale queue entries; the model proves that popping one changes
  nothing.
- `CostRegistry` (`cost_service.dfy`) is the cost service as a class, plus the validation
  functions and lemmas about sequences of operations.
- `Roles` (`role_validator.dfy`) is `validateRole`.

## Behaviour of the code worth knowing

- **The store key of a cost is the ordered pair.** Only the cache key is normalised, by
  `keyGenerator`. The store key `CostID(idA, idB)` keeps the order in which the request named
  the points, and the model keeps it ordered too. As a result:
  - `SavedPairRefused`: a duplicate in the reversed order is refused only while the cache holds
    the entry.
  - `ReversedPairPassesWithoutCache`: with the cache empty, the reversed pair passes every check,
    and the store then holds the pair twice.
  - `ReversedDeleteKeepsStoredRow`: deleting in the reversed order clears the cache entry but
    leaves the stored row.
- **A missing path is `null`.** When no walk reaches the target, the search returns `null`,
  and the model returns `None`.
- **Nothing keeps the cache consistent with the store.** Startup seeding fills the cache on
  its own, and a failed point delete removes a cache entry before the store is asked. The model
  therefore does not assume the cache mirrors the store. It proves `Coherent` preserved where
  the code keeps it.

## Model

| member | source | states |
|---|---|---|
| Keys.NatToString | src/main/java/com/microservice/pointsalecost/services/Impl/CostServiceImpl.java:225 | the decimal text of a non-negative id is non-empty and all digits |
| Keys.IdToString | src/main/java/com/microservice/pointsalecost/services/Impl/CostServiceImpl.java:225 | `Long.toString`: non-empty, a leading `-` exactly for negative ids, digits after it |
| Keys.NatToStringInjective | src/main/java/com/microservice/pointsalecost/services/Impl/CostServiceImpl.java:225 | distinct non-negative ids have distinct decimal texts |
| Keys.IdToStringInjective | src/main/java/com/microservice/pointsalecost/services/Impl/CostServiceImpl.java:154 | distinct ids have distinct strings, so keying the point cache by the id's string is keying it by the id |
| Keys.JoinedInjective | src/main/java/com/microservice/pointsalecost/services/Impl/CostServiceImpl.java:225 | `a + "-" + b` determines both `a` and `b`, even with negative ids |
| Keys.KeyGenerator | src/main/java/com/microservice/pointsalecost/services/Impl/CostServiceImpl.java:224-226 | the key puts the smaller id first: it is at least three characters and opens with `-` exactly when the smaller id is negative |
| Keys.KeyGeneratorNormalized | src/main/java/com/microservice/pointsalecost/services/Impl/CostServiceImpl.java:224-226 | the cost key is the same for both argument orders and lists the smaller id first, joined by `-` |
| Keys.KeyGeneratorInjective | src/main/java/com/microservice/pointsalecost/services/Impl/CostServiceImpl.java:224-226 | two pairs have the same cost key if and only if they have the same smaller and larger id (the key identifies the unordered pair) |
| Storage.Snapshot | src/main/java/com/microservice/pointsalecost/services/Impl/PointOfSaleServiceImpl.java:36-39 | the listing holds every key of the map exactly once, each with its value |
| CostGraph.ObtainPointOfSale | src/main/java/com/microservice/pointsalecost/services/Impl/CostServiceImpl.java:153-158 | the cached point when the cache has the id, else the stored one, else null |
| CostGraph.IsPointOfSaleValid | src/main/java/com/microservice/pointsalecost/services/Impl/CostServiceImpl.java:149-151 | a point is valid only when it is not null, and a present point is valid exactly when it is active |
| CostGraph.Usable | src/main/java/com/microservice/pointsalecost/services/Impl/CostServiceImpl.java:149-158 | an id is usable exactly when the cached record is active or, with no cached record, the stored one is; an inactive cached point hides an active stored one |
| CostGraph.WalkCostNonNegative | src/main/java/com/microservice/pointsalecost/services/Impl/CostServiceImpl.java:200 | with non-negative amounts every accumulated path cost is non-negative |
| CostGraph.WalkCostPrefix | src/main/java/com/microservice/pointsalecost/services/Impl/CostServiceImpl.java:200 | with non-negative amounts a prefix of a walk never costs more than the walk |
| CostGraph.WalkExtend | src/main/java/com/microservice/pointsalecost/services/Impl/CostServiceImpl.java:199-204 | extending a walk by a step to an active neighbour adds that edge's amount to its cost |
| CostGraph.GraphOfNonNegative | src/main/java/com/microservice/pointsalecost/services/Impl/CostServiceImpl.java:168-169 | every edge amount of the view is the amount of a cost entry, so non-negative entries give a non-negative graph |
| CostGraph.AddEdgePair | src/main/java/com/microservice/pointsalecost/services/Impl/CostServiceImpl.java:168-169 | the two `computeIfAbsent(..).put(..)` calls add exactly the edges a-b and b-a with the cost's amount and keep all others |
| CostGraph.GraphBuilder | src/main/java/com/microservice/pointsalecost/services/Impl/CostServiceImpl.java:160-173 | an edge exists only between points that resolve (cache, then store) to active records, in both directions with the same amount, which is the amount of a cost joining them; every cost with two active endpoints yields its two edges |
| MinimumPath.Poll | src/main/java/com/microservice/pointsalecost/services/Impl/CostServiceImpl.java:177-187 | the polled position holds an entry whose amount is least in the queue |
| MinimumPath.RemoveAt | src/main/java/com/microservice/pointsalecost/services/Impl/CostServiceImpl.java:187 | the queue after a poll loses exactly one occurrence of the polled entry: its multiset is the old one minus that entry |
| MinimumPath.CachedResponse | src/main/java/com/microservice/pointsalecost/services/Impl/CostServiceImpl.java:216-217 | a point on the path maps to its cached record's response, or to null exactly when the cache does not hold it |
| MinimumPath.Responses | src/main/java/com/microservice/pointsalecost/services/Impl/CostServiceImpl.java:215-218 | the list has one entry per point of the route, null exactly for the points not in the cache |
| MinimumPath.ResponsesPrepend | src/main/java/com/microservice/pointsalecost/services/Impl/CostServiceImpl.java:216-217 | inserting a point's cached record at the front of the list is the list for the route extended at the front |
| MinimumPath.CostMinimumPathResponse | src/main/java/com/microservice/pointsalecost/services/Impl/CostServiceImpl.java:213-220 | following predecessors back from the target yields the target's recorded walk, in order from the source, with each point's cached record (null when not cached) and the given total |
| MinimumPath.FreshPopIsOptimal | src/main/java/com/microservice/pointsalecost/services/Impl/CostServiceImpl.java:186-189 | a least entry popped for an unsettled point carries that point's best cost, and no walk to that point is cheaper |
| MinimumPath.NoWalkWhenExhausted | src/main/java/com/microservice/pointsalecost/services/Impl/CostServiceImpl.java:186-210 | once the queue is empty, no walk leads from the source to a point that was never settled |
| MinimumPath.RelaxEdge | src/main/java/com/microservice/pointsalecost/services/Impl/CostServiceImpl.java:192-205 | relaxing one edge: an active neighbour ends with a best cost no greater than via the popped entry; costs only go down; settled points keep their cost and walk; a stale entry changes nothing |
| MinimumPath.Relax | src/main/java/com/microservice/pointsalecost/services/Impl/CostServiceImpl.java:191-207 | after scanning every neighbour of the popped point, all settled points are relaxed, the queue and walk facts hold, and settled points are unchanged |
| MinimumPath.Expand | src/main/java/com/microservice/pointsalecost/services/Impl/CostServiceImpl.java:186-207 | a round that pops a point other than the target restores the loop facts and either settles a new point or only shrinks the queue |
| MinimumPath.Found | src/main/java/com/microservice/pointsalecost/services/Impl/CostServiceImpl.java:188-190 | popping the target returns its recorded walk and cost, which no walk beats |
| MinimumPath.SearchCostMinimumPath | src/main/java/com/microservice/pointsalecost/services/Impl/CostServiceImpl.java:176-211 | with non-negative amounts: null exactly when no walk reaches the target; otherwise a walk from source to target, the total is its cost, no walk is cheaper, and the list holds the cached record of each point on it; source equal to target gives `[source]` at cost 0 |
| PointRegistry.ActiveOnly | src/main/java/com/microservice/pointsalecost/services/Impl/PointOfSaleServiceImpl.java:47 | the filter keeps exactly the active records |
| PointRegistry.ActiveOnlyCounts | src/main/java/com/microservice/pointsalecost/services/Impl/PointOfSaleServiceImpl.java:47 | each active record is kept as often as it occurs, and each inactive one is dropped |
| PointRegistry.InsertById | src/main/java/com/microservice/pointsalecost/services/Impl/PointOfSaleServiceImpl.java:48 | inserting into an id-sorted list keeps it sorted and adds exactly the new record |
| PointRegistry.InsertByIdCounts | src/main/java/com/microservice/pointsalecost/services/Impl/PointOfSaleServiceImpl.java:48 | insertion adds one occurrence of the record and changes nothing else |
| PointRegistry.SortById | src/main/java/com/microservice/pointsalecost/services/Impl/PointOfSaleServiceImpl.java:48 | the sorted list is in ascending id order and holds the same records |
| PointRegistry.SortByIdCounts | src/main/java/com/microservice/pointsalecost/services/Impl/PointOfSaleServiceImpl.java:48 | sorting is a permutation |
| PointRegistry.ActiveAmongAll | src/main/java/com/microservice/pointsalecost/services/Impl/PointOfSaleServiceImpl.java:40-44 | writing back the active rows of a complete listing yields exactly the active part of the store |
| PointRegistry.GetAllResult | src/main/java/com/microservice/pointsalecost/services/Impl/PointOfSaleServiceImpl.java:46-50 | the result is in ascending id order, each entry is the response of an active listed record, and every active listed record's response is in it |
| PointRegistry.GetAllResultSpec | src/main/java/com/microservice/pointsalecost/services/Impl/PointOfSaleServiceImpl.java:46-50 | the result over a listing of a point map is sorted by id, every entry is the response of an active record of the map, and every active record's response is in it |
| PointRegistry.GetAllResultCounts | src/main/java/com/microservice/pointsalecost/services/Impl/PointOfSaleServiceImpl.java:46-50 | the result lists the active records in ascending id order, each as often as it was listed |
| PointRegistry.IsJavaWhitespace | src/main/java/com/microservice/pointsalecost/services/Impl/PointOfSaleServiceImpl.java:83 | space, tab, line feed and carriage return are whitespace for `isBlank`; the no-break spaces U+00A0, U+2007 and U+202F are not |
| PointRegistry.IsBlank | src/main/java/com/microservice/pointsalecost/services/Impl/PointOfSaleServiceImpl.java:83 | a name is blank exactly when every character of it is whitespace, so the empty name is blank |
| PointRegistry.Renamed | src/main/java/com/microservice/pointsalecost/services/Impl/PointOfSaleServiceImpl.java:83-85 | an update changes nothing but the name, and a changed name is the requested one, present and not blank |
| PointRegistry.RenamedSpec | src/main/java/com/microservice/pointsalecost/services/Impl/PointOfSaleServiceImpl.java:83-85 | an update keeps id and active flag, and changes the name exactly when the requested one is present and not blank |
| PointRegistry.BlankNamesIgnored | src/main/java/com/microservice/pointsalecost/services/Impl/PointOfSaleServiceImpl.java:83 | an empty, a whitespace-only or a missing name leaves the record unchanged |
| PointRegistry.SoftDeleteHides | src/main/java/com/microservice/pointsalecost/services/Impl/PointOfSaleServiceImpl.java:104 | the soft-deleted point leaves the set of active points, and no other point enters or leaves it |
| PointRegistry.PointOfSaleService.GetAll | src/main/java/com/microservice/pointsalecost/services/Impl/PointOfSaleServiceImpl.java:35-51 | with a non-empty point cache, the cache is unchanged and the result lists its active points; with an empty one, the cache becomes exactly the active store points and the result lists them; either way sorted by id, every active point is in it, and coherence is kept |
| PointRegistry.PointOfSaleService.CacheActive | src/main/java/com/microservice/pointsalecost/services/Impl/PointOfSaleServiceImpl.java:40-44 | the write-back loop leaves the empty cache holding exactly the active store points, each under its id |
| PointRegistry.PointOfSaleService.FindById | src/main/java/com/microservice/pointsalecost/services/Impl/PointOfSaleServiceImpl.java:54-65 | a hit returns the cached record and changes nothing; a miss returns the store record, caching it only when active, or EntityNotFound with nothing changed |
| PointRegistry.PointOfSaleService.Save | src/main/java/com/microservice/pointsalecost/services/Impl/PointOfSaleServiceImpl.java:69-75 | the new point gets an id not used before, is active whatever was requested, and is written to the store and to the cache under that id |
| PointRegistry.PointOfSaleService.Update | src/main/java/com/microservice/pointsalecost/services/Impl/PointOfSaleServiceImpl.java:79-90 | an unknown id gives EntityNotFound and no change; otherwise the renamed record goes to both cache and store, and nothing else changes |
| PointRegistry.PointOfSaleService.Delete | src/main/java/com/microservice/pointsalecost/services/Impl/PointOfSaleServiceImpl.java:94-106 | no cache entry: a failure and no change; otherwise the cache entry is removed, then either the store row is marked inactive with its other fields and the other rows kept, or EntityNotFound with the cache entry already gone |
| CostRegistry.ValidatePointsExist | src/main/java/com/microservice/pointsalecost/services/Impl/CostServiceImpl.java:67-78 | passes exactly when both endpoints are stored points, and names which are missing (both, only A, only B) |
| CostRegistry.ValidateCostNotExists | src/main/java/com/microservice/pointsalecost/services/Impl/CostServiceImpl.java:80-91 | passes exactly when neither the normalised key is cached nor the ordered pair stored; reports the cache before the store |
| CostRegistry.SaveCheck | src/main/java/com/microservice/pointsalecost/services/Impl/CostServiceImpl.java:47-56 | the checks of save in their order: accepted exactly when the ids differ, the amount is non-negative, both points exist and the pair is unknown; a self-loop is reported first, a negative amount second, then the missing points as `ValidatePointsExist` names them, then the duplicate as `ValidateCostNotExists` reports it (cache before store) |
| CostRegistry.SavedPairRefused | src/main/java/com/microservice/pointsalecost/services/Impl/CostServiceImpl.java:80-91 | after a save, the same two points in either order are refused, and (with a valid amount) refused as found in the cache |
| CostRegistry.ReversedPairPassesWithoutCache | src/main/java/com/microservice/pointsalecost/services/Impl/CostServiceImpl.java:87-88 | with the cache emptied, the reversed pair of a saved cost passes every check and both orders end up in the store |
| CostRegistry.DeleteUndoesSave | src/main/java/com/microservice/pointsalecost/services/Impl/CostServiceImpl.java:96-101 | deleting a just-saved pair in the same order restores both the cache and the store |
| CostRegistry.ReversedDeleteKeepsStoredRow | src/main/java/com/microservice/pointsalecost/services/Impl/CostServiceImpl.java:96-101 | deleting a just-saved pair in the reversed order restores the cache but leaves the stored row |
| CostRegistry.Touching | src/main/java/com/microservice/pointsalecost/services/Impl/CostServiceImpl.java:120 | the filter keeps exactly the costs with the point as one endpoint |
| CostRegistry.TouchingCounts | src/main/java/com/microservice/pointsalecost/services/Impl/CostServiceImpl.java:120 | each touching cost is kept as often as it occurs, and every other one is dropped |
| CostRegistry.TouchingResponses | src/main/java/com/microservice/pointsalecost/services/Impl/CostServiceImpl.java:114-122 | filtering a listing of a cost map yields the responses of exactly the entries that touch the point |
| CostRegistry.KeyByPair | src/main/java/com/microservice/pointsalecost/services/Impl/CostServiceImpl.java:137-142 | every store row is reachable under its normalised key, each key holds a row with that key, and of two rows with one key the later one stays |
| CostRegistry.KeyByPairOfStore | src/main/java/com/microservice/pointsalecost/services/Impl/CostServiceImpl.java:137-142 | re-keying a complete store listing gives a map whose entries are store rows under their own keys and which covers every row |
| CostRegistry.KeyedByPairNonNegative | src/main/java/com/microservice/pointsalecost/services/Impl/CostServiceImpl.java:137-142 | re-keying keeps amounts non-negative |
| CostRegistry.CostService.Save | src/main/java/com/microservice/pointsalecost/services/Impl/CostServiceImpl.java:46-65 | a failed check returns that check's error with cache and store unchanged; otherwise the cost goes into the cache under the normalised key and into the store under the ordered pair, and the response is the saved cost |
| CostRegistry.CostService.Delete | src/main/java/com/microservice/pointsalecost/services/Impl/CostServiceImpl.java:95-107 | a cached key: cache entry and ordered store row removed; else a stored ordered pair: only the store row removed; else CostNotFound with nothing changed |
| CostRegistry.CostService.DirectCostFromOnePoint | src/main/java/com/microservice/pointsalecost/services/Impl/CostServiceImpl.java:110-124 | nothing is written; with a non-empty cost cache the result is exactly the cached costs touching the point, otherwise exactly the stored ones |
| CostRegistry.CostService.MinimumCostPath | src/main/java/com/microservice/pointsalecost/services/Impl/CostServiceImpl.java:127-147 | InactivePointOfSale exactly when an endpoint does not resolve to an active point; otherwise the search result over the graph of the cached costs, or of the store re-keyed by pair when the cache has none, with nothing written back |
| Roles.ValidateRole | src/main/java/com/microservice/pointsalecost/utils/RoleValidator.java:7-12 | passes if and only if some allowed role's name occurs in the header; otherwise AccessDenied with the given message, always so for no allowed roles |
| Roles.AuthorizedOrderIndependent | src/main/java/com/microservice/pointsalecost/utils/RoleValidator.java:8-10 | the outcome depends only on which roles are allowed, not on their order or repetition |
| Roles.PermutedRolesSameOutcome | src/main/java/com/microservice/pointsalecost/utils/RoleValidator.java:8-10 | a permutation of the allowed roles gives the same outcome |
| Roles.ClientHeaderDeniedForAdmin | src/test/java/com/microservice/pointsalecost/testUtils/RoleValidatorTest.java:15-18 | the header `ROLE_CLIENT` is refused when only ADMIN is allowed |
| Roles.AdminHeaderAccepted | src/main/java/com/microservice/pointsalecost/utils/RoleValidator.java:9 | the header `ROLE_ADMIN` passes when ADMIN or CLIENT is allowed |

## Left out

- HTTP controllers and the global exception handler: request routing, header extraction and status codes. Their role check is `Roles.ValidateRole`.
- Startup seeding and shutdown flush of the cache (`CacheDataInitializer`). The operations start from any cache contents that meet the service's `Valid`, seeded raw cost keys such as `10-7` included.
- PointRegistry.PointOfSaleService.Valid: every cached point must sit under its own id. Every writer keys points by the record's id, seeding included (`CacheDataInitializer.java:69`), so no reachable cache breaks this.
- CostRegistry.CostService.Valid: every cached and stored cost amount must be non-negative. `Save`, `Delete` and `MinimumCostPath` require it. Only the search needs it. `Save` and `Delete` take it so that they can promise to keep it, and so they are not proved for a cache that seeding left holding a negative amount. `Save` itself never writes one.
- Mappers and DTO records are field-by-field copies, written as functions in `Models`. Exception messages are reduced to error kinds; only the access-denied message is kept.
- Transactions and rollback, and concurrent requests: every operation runs alone and in full.
- Spring Data and Redis calls are map operations on the classes' fields. The hash order of `values`, `entries` and `findAll` is the unspecified order of `Storage.Snapshot`.
- `Double` arithmetic: amounts are exact reals. NaN, infinities and rounding are not modelled. The `Double.MAX_VALUE` default of the best-cost map is absence from the map, so a cost at or above `Double.MAX_VALUE` is not treated specially.
- `Long` width: ids are unbounded integers, and overflow is not modelled.
- PriorityQueue heap order: `MinimumPath.Poll` takes the first entry of least amount. The heap may break ties differently. Every proof uses only the minimality of the polled entry.
- CostRegistry.CostService.MinimumCostPath: proved only under `Valid`, that is with every cached and stored amount non-negative. Save refuses negative amounts, but seeding could put one in the cache; with negative amounts the source's search may return a dearer walk or loop, and the model does not cover that case.
- RoleEnum.java is not part of this model: the roles are ADMIN and CLIENT, the names the controllers pass.
- Point cache keys are the ids themselves rather than their strings; `Keys.IdToStringInjective` shows the two are interchangeable.
- Unit tests under `src/test` other than the role check's are not modelled; they exercise the code through mocks.
