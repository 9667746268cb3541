/** `InflowRepository` over the store: recording an inflow with its quantity
    rounded, the newest-first listing and the filtered bulk delete. Each
    method is proved to do what its value-level definition in `InflowLogic`
    or `Listing` says. */
module InflowRepository {
  import opened Domain
  import opened Rounding
  import opened Persistence
  import opened Listing
  import opened Assignment
  import opened InflowLogic
  import opened Stores

  /** `createInflow(dto, ingredient)`: the quantity is rounded to the
      precision of the ingredient's unit, the other columns copied; a
      precision `toFixed` refuses fails first. */
  method CreateInflow(s: Store, e: Entry, date: int, reason: string, price: real,
                      quantity: real, details: Option<string>) returns (r: Result<(Id, Inflow)>)
    modifies s
    ensures (s.Snapshot(), r) == CreateInflowRow(old(s.Snapshot()), e, date, reason, price, quantity, details)
  {
    if e.1.measurementUnit !in s.units {
      return Err(Internal);
    }
    var precision := s.units[e.1.measurementUnit].precision;
    if !FixedDigits(precision) {
      return Err(Internal);
    }
    var rounded := Round(quantity, precision);
    var f := Inflow(e.0, date, reason, price, rounded, details);
    var id := s.Allocate();
    var w := s.SaveInflow(id, f);
    if w == Written {
      r := Ok((id, f));
    } else {
      r := Err(Internal);
    }
  }

  /** `getInflows()`: every stored inflow, each once, ordered by date
      descending. */
  function GetInflows(s: Store): (r: seq<(Id, Inflow)>)
    reads s
    ensures NewestFirst(r)
    ensures WellFormed(s.Snapshot()) ==> forall e :: e in r <==> e.0 in s.inflows && s.inflows[e.0] == e.1
    ensures multiset(r) == multiset(Rows(s.inflows, s.nextId))
  {
    var rows := Rows(s.inflows, s.nextId);
    SameMembers(SortNewestFirst(rows), rows);
    SortNewestFirst(rows)
  }

  /** `deleteInflows({ ingredientId })`: the filters present are counted, and
      with none the request is refused before any query runs. */
  method DeleteInflows(s: Store, ingredientId: Option<Id>) returns (r: Result<()>)
    modifies s
    ensures (s.Snapshot(), r) == InflowLogic.DeleteInflows(old(s.Snapshot()), ingredientId)
  {
    var appliedFilters := 0;
    if ingredientId.Some? {
      appliedFilters := appliedFilters + 1;
    }
    if appliedFilters == 0 {
      return Err(BadRequest);
    }
    s.DeleteInflowsOf(ingredientId.value);
    r := Ok(());
  }
}
