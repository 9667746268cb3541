/** `InflowsController` over the store: recording an inflow with its stock
    update, and deleting one with the stock update as written. Each handler is
    proved to do what its value-level definition in `InflowLogic` says; what
    that definition does to the stock is proved there. */
module InflowsController {
  import opened Domain
  import opened InflowLogic
  import opened Stores
  import IngredientRepository
  import IngredientsService
  import InflowRepository
  import InflowsService

  /** `POST /inflows`: load the ingredient, raise its stock by the quantity,
      then record the inflow. */
  method CreateInflow(s: Store, ingredientId: Id, date: int, reason: string, price: real,
                      quantity: real, details: Option<string>) returns (r: Result<(Id, Inflow)>)
    modifies s
    ensures (s.Snapshot(), r) == InflowLogic.CreateInflow(old(s.Snapshot()), ingredientId, date, reason, price, quantity, details)
  {
    var ingredient := IngredientsService.GetIngredientById(s, ingredientId);
    if ingredient.Err? {
      return Err(ingredient.error);
    }
    var restocked := IngredientRepository.UpdateIngredientCurrentStock(s, (ingredientId, ingredient.value), quantity);
    if restocked.Err? {
      return Err(restocked.error);
    }
    r := InflowRepository.CreateInflow(s, restocked.value, date, reason, price, quantity, details);
  }

  /** `DELETE /inflows/:id`: load the inflow and its ingredient, then issue the
      stock update with the inflow's quantity, as written with a positive
      sign, and the delete; the first failure is reported. */
  method DeleteInflowById(s: Store, id: Id) returns (r: Result<()>)
    modifies s
    ensures (s.Snapshot(), r) == InflowLogic.DeleteInflowById(old(s.Snapshot()), id)
  {
    var inflow := InflowsService.GetInflowById(s, id);
    if inflow.Err? {
      return Err(inflow.error);
    }
    var ingredient := IngredientsService.GetIngredientById(s, inflow.value.ingredientId);
    if ingredient.Err? {
      return Err(ingredient.error);
    }
    var r1 := IngredientRepository.UpdateIngredientCurrentStock(s, (inflow.value.ingredientId, ingredient.value), inflow.value.quantity);
    var r2 := InflowsService.DeleteInflowById(s, id);
    if r1.Err? {
      r := Err(r1.error);
    } else {
      r := r2;
    }
  }
}
