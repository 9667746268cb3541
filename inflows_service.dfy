/** `InflowsService` over the store: the lookup and the delete by id.
    Creation, listing and the bulk delete are passed through to
    `InflowRepository` unchanged. */
module InflowsService {
  import opened Domain
  import opened InflowLogic
  import opened Stores

  /** `getInflowById(id)`: the stored row, or NotFound. */
  function GetInflowById(s: Store, id: Id): (r: Result<Inflow>)
    reads s
    ensures r == GetInflow(s.Snapshot(), id)
    ensures r.Ok? <==> id in s.inflows
    ensures r.Ok? ==> r.value == s.inflows[id]
    ensures r.Err? ==> r.error == NotFound
  {
    if id in s.inflows then Ok(s.inflows[id]) else Err(NotFound)
  }

  /** `deleteInflowById(id)`: nothing deleted is NotFound; no stock is
      touched. */
  method DeleteInflowById(s: Store, id: Id) returns (r: Result<()>)
    modifies s
    ensures (s.Snapshot(), r) == DeleteInflowRow(old(s.Snapshot()), id)
  {
    var d := s.DeleteInflow(id);
    if d == Affected(0) {
      r := Err(NotFound);
    } else {
      r := Ok(());
    }
  }
}
