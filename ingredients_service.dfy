/** `IngredientsService` over the store: the lookup and the delete by id.
    Creation, listing and the stock update are passed through to
    `IngredientRepository` unchanged. */
module IngredientsService {
  import opened Domain
  import opened IngredientLogic
  import opened Stores

  /** `getIngredientById(id)`: the stored row, or NotFound. */
  function GetIngredientById(s: Store, id: Id): (r: Result<Ingredient>)
    reads s
    ensures r.Ok? <==> id in s.ingredients
    ensures r.Ok? ==> r.value == s.ingredients[id]
    ensures r.Err? ==> r.error == NotFound
  {
    if id in s.ingredients then Ok(s.ingredients[id]) else Err(NotFound)
  }

  /** `deleteIngredientById(id)`: nothing deleted is NotFound; no counter is
      touched. */
  method DeleteIngredientById(s: Store, id: Id) returns (r: Result<()>)
    modifies s
    ensures (s.Snapshot(), r) == DeleteIngredientRow(old(s.Snapshot()), id)
  {
    var d := s.DeleteIngredient(id);
    if d == Affected(0) {
      r := Err(NotFound);
    } else if d == Referenced {
      r := Err(Internal);
    } else {
      r := Ok(());
    }
  }
}
