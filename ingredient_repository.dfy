/** `IngredientRepository` over the store: inserting a row, the id-filtered
    listing, overwriting a row, and adding a rounded quantity to a stock. Each
    method is proved to do what its value-level definition in
    `IngredientLogic` or `Listing` says. */
module IngredientRepository {
  import opened Domain
  import opened Rounding
  import opened Persistence
  import opened Listing
  import opened Assignment
  import opened IngredientLogic
  import opened Stores

  /** `createIngredient(name, unit, state, type)`: a repeated name is
      Conflict, any other refusal Internal. */
  method CreateIngredient(s: Store, name: string, u: Id, st: Id, ty: Id) returns (r: Result<Entry>)
    modifies s
    ensures (s.Snapshot(), r) == CreateIngredientRow(old(s.Snapshot()), name, u, st, ty)
  {
    var id := s.Allocate();
    var i := Ingredient(name, u, st, ty, 0.0);
    var w := s.SaveIngredient(id, i);
    if w == Written {
      r := Ok((id, i));
    } else if w == UniqueViolation {
      r := Err(Conflict);
    } else {
      r := Err(Internal);
    }
  }

  /** `getIngredients({ ids })`: with a non-empty `ids` exactly the stored
      ingredients whose key is listed, ids that match nothing dropped; with
      none, every stored ingredient. */
  function GetIngredients(s: Store, ids: seq<Id>): (r: seq<Entry>)
    reads s
    ensures WellFormed(s.Snapshot()) ==>
      forall e :: e in r <==> e.0 in s.ingredients && s.ingredients[e.0] == e.1 && (|ids| > 0 ==> e.0 in ids)
    ensures forall i, j :: 0 <= i < j < |r| ==> r[i].0 < r[j].0
  {
    FilterIngredients(s.Snapshot(), ids)
  }

  /** `updateIngredient(id, name, unit, state, type)`: an unknown id is
      NotFound; the stock is kept. */
  method UpdateIngredient(s: Store, id: Id, name: string, u: Id, st: Id, ty: Id) returns (r: Result<Entry>)
    modifies s
    ensures (s.Snapshot(), r) == UpdateIngredientRow(old(s.Snapshot()), id, name, u, st, ty)
  {
    if id !in s.ingredients {
      return Err(NotFound);
    }
    var i := s.ingredients[id].(name := name, measurementUnit := u, ingredientState := st, ingredientType := ty);
    var w := s.SaveIngredient(id, i);
    if w == Written {
      r := Ok((id, i));
    } else if w == UniqueViolation {
      r := Err(Conflict);
    } else {
      r := Err(Internal);
    }
  }

  /** `updateIngredientCurrentStock(ingredient, valueAdded)`: the loaded row
      `e` gets `valueAdded`, rounded to its unit's precision, added to its
      stock and is saved back; a precision `toFixed` refuses fails first. */
  method UpdateIngredientCurrentStock(s: Store, e: Entry, valueAdded: real) returns (r: Result<Entry>)
    modifies s
    ensures (s.Snapshot(), r) == AddStock(old(s.Snapshot()), e, valueAdded)
  {
    if e.1.measurementUnit !in s.units {
      return Err(Internal);
    }
    var precision := s.units[e.1.measurementUnit].precision;
    if !FixedDigits(precision) {
      return Err(Internal);
    }
    var rounded := Round(valueAdded, precision);
    var i := e.1.(currentStock := e.1.currentStock + rounded);
    var w := s.SaveIngredient(e.0, i);
    if w == Written {
      r := Ok((e.0, i));
    } else {
      r := Err(Internal);
    }
  }
}
