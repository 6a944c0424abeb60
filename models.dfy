/** Entities, request/response records and the service's error kinds. */
module Models {

  datatype Option<+T> = None | Some(value: T)

  /** A point of sale. The store assigns `id`; `active == false` marks a soft delete. */
  datatype PointOfSale = PointOfSale(id: int, name: string, active: bool)

  /** Primary key of a cost: the ORDERED pair of endpoint ids, exactly as the caller gave them. */
  datatype CostId = CostId(idA: int, idB: int)

  /** A weighted connection between two points of sale. */
  datatype Cost = Cost(id: CostId, amount: real)

  datatype CostRequest = CostRequest(idA: int, idB: int, amount: real)
  datatype CostResponse = CostResponse(idA: int, idB: int, amount: real)
  datatype PointOfSaleRequest = PointOfSaleRequest(name: string)
  /** `name` is nullable in the request record. */
  datatype PointOfSaleUpdate = PointOfSaleUpdate(id: int, name: Option<string>)
  datatype PointOfSaleResponse = PointOfSaleResponse(id: int, name: string, active: bool)
  /** Result of a minimum-cost query: one entry per point on the path (None stands for a null
      entry, produced when the point is not in the cache) and the total cost. */
  datatype CostMinimum = CostMinimum(pointOfSaleResponse: seq<Option<PointOfSaleResponse>>, totalCost: real)

  datatype InvalidCostReason = SameEndpoints | NegativeAmount
  datatype MissingPoints = BothMissing | MissingA | MissingB
  datatype DuplicateSource = FoundInCache | FoundInDatabase

  /** One constructor per exception class the core throws. */
  datatype Error =
    | InvalidCost(reason: InvalidCostReason)
    | PointOfSaleNotFound(missing: MissingPoints)
    | CostAlreadyExists(source: DuplicateSource)
    | CostNotFound
    | InactivePointOfSale
    | EntityNotFound
    | CacheEntryNotFound
    | AccessDenied(message: string)

  datatype Result<+T> = Ok(value: T) | Err(error: Error)

  /** Outcome of a check that either returns normally or throws. */
  datatype Outcome = Pass | Fail(error: Error)

  // Field-by-field copies done by the mappers.

  function ToCostResponse(c: Cost): CostResponse
  {
    CostResponse(c.id.idA, c.id.idB, c.amount)
  }

  function ToPointOfSaleResponse(p: PointOfSale): PointOfSaleResponse
  {
    PointOfSaleResponse(p.id, p.name, p.active)
  }

  /** The entity a cost request becomes, with its id set to the ordered pair of the request. */
  function CostFromRequest(r: CostRequest): Cost
  {
    Cost(CostId(r.idA, r.idB), r.amount)
  }
}
