/** `IngredientsController` over the store: the counter bookkeeping around
    creating, deleting and updating an ingredient. Each handler is proved to
    do what its value-level definition in `IngredientLogic` says; what that
    definition keeps or breaks is proved there. */
module IngredientsController {
  import opened Domain
  import opened Assignment
  import opened IngredientLogic
  import opened Stores
  import opened CatalogServices
  import IngredientRepository
  import IngredientsService

  /** The three counter updates the handlers await together, issued in a
      fixed order; the first failure is reported. */
  method AdjustCounters(s: Store, i: Ingredient, delta: int) returns (r: Result<()>)
    modifies s
    ensures (s.Snapshot(), r) == IngredientLogic.AdjustCounters(old(s.Snapshot()), i, delta)
  {
    var r1 := UpdateIngredientsAssigned(s, Units, i.measurementUnit, delta);
    var r2 := UpdateIngredientsAssigned(s, States, i.ingredientState, delta);
    var r3 := UpdateIngredientsAssigned(s, Types, i.ingredientType, delta);
    if r1.Err? {
      r := Err(r1.error);
    } else if r2.Err? {
      r := Err(r2.error);
    } else if r3.Err? {
      r := Err(r3.error);
    } else {
      r := Ok(());
    }
  }

  /** `POST /ingredients`. */
  method CreateIngredient(s: Store, name: string, u: Id, st: Id, ty: Id) returns (r: Result<Entry>)
    modifies s
    ensures (s.Snapshot(), r) == IngredientLogic.CreateIngredient(old(s.Snapshot()), name, u, st, ty)
  {
    var unit := GetById(s, Units, u);
    if unit.Err? {
      return Err(unit.error);
    }
    var state := GetById(s, States, st);
    if state.Err? {
      return Err(state.error);
    }
    var kind := GetById(s, Types, ty);
    if kind.Err? {
      return Err(kind.error);
    }
    var raised := AdjustCounters(s, Ingredient(name, u, st, ty, 0.0), 1);
    if raised.Err? {
      return Err(raised.error);
    }
    r := IngredientRepository.CreateIngredient(s, name, u, st, ty);
  }

  /** `DELETE /ingredients/:id`. */
  method DeleteIngredientById(s: Store, id: Id) returns (r: Result<()>)
    modifies s
    ensures (s.Snapshot(), r) == IngredientLogic.DeleteIngredient(old(s.Snapshot()), id)
  {
    var ingredient := IngredientsService.GetIngredientById(s, id);
    if ingredient.Err? {
      return Err(ingredient.error);
    }
    var deleted := IngredientsService.DeleteIngredientById(s, id);
    if deleted.Err? {
      return deleted;
    }
    r := AdjustCounters(s, ingredient.value, -1);
  }

  /** `PATCH /ingredients/:id`: the four lookups, the loaded row renamed in
      memory, then the unit, state and type reassignment of that one row. */
  method UpdateIngredient(s: Store, id: Id, name: string, u: Id, st: Id, ty: Id) returns (r: Result<Entry>)
    modifies s
    ensures (s.Snapshot(), r) == IngredientLogic.UpdateIngredient(old(s.Snapshot()), id, name, u, st, ty)
  {
    var unit := GetById(s, Units, u);
    var state := GetById(s, States, st);
    var kind := GetById(s, Types, ty);
    var ingredient := IngredientsService.GetIngredientById(s, id);
    if unit.Err? || state.Err? || kind.Err? || ingredient.Err? {
      return Err(NotFound);
    }
    var renamed := (id, ingredient.value.(name := name));
    var r1 := AssignToIngredient(s, Units, u, [renamed]);
    if r1.Err? {
      return Err(r1.error);
    }
    var r2 := AssignToIngredient(s, States, st, r1.value);
    if r2.Err? {
      return Err(r2.error);
    }
    var r3 := AssignToIngredient(s, Types, ty, r2.value);
    if r3.Err? {
      return Err(r3.error);
    }
    r := Ok(r3.value[0]);
  }
}
