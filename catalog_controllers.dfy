/** `MeasurementUnitsController`, `IngredientStatesController` and
    `IngredientTypesController` over the store: the guarded delete and the
    assign route, written once for the three catalogs. Each handler is proved
    to do what its value-level definition in `CatalogLogic` or `Assignment`
    says; what that definition keeps is proved there. */
module CatalogControllers {
  import opened Domain
  import opened CatalogLogic
  import opened Assignment
  import opened Stores
  import opened CatalogServices
  import IngredientRepository

  /** `DELETE /…/:id`: the lookup (NotFound), the counter guard (Conflict),
      then the service's delete. */
  method DeleteById(s: Store, c: Catalog, id: Id) returns (r: Result<()>)
    modifies s
    ensures (s.Snapshot(), r) == DeleteGuarded(old(s.Snapshot()), c, id)
  {
    var row := GetById(s, c, id);
    if row.Err? {
      return Err(row.error);
    }
    if row.value.IngredientsAssigned() != 0 {
      return Err(Conflict);
    }
    r := CatalogServices.DeleteById(s, c, id);
  }

  /** `POST /…/assign-to-ingredient`: the target lookup (NotFound), the
      id-filtered fetch, then the reassignment loop. */
  method AssignToIngredient(s: Store, c: Catalog, target: Id, ids: seq<Id>) returns (r: Result<()>)
    modifies s
    ensures (s.Snapshot(), r) == AssignRoute(old(s.Snapshot()), c, target, ids)
  {
    var row := GetById(s, c, target);
    if row.Err? {
      return Err(row.error);
    }
    var ingredients := IngredientRepository.GetIngredients(s, ids);
    var done := CatalogServices.AssignToIngredient(s, c, target, ingredients);
    if done.Ok? {
      r := Ok(());
    } else {
      r := Err(done.error);
    }
  }
}
