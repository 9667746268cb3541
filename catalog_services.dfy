/** `MeasurementUnitsService`, `IngredientStatesService` and
    `IngredientTypesService` over the store, written once for the three
    catalogs: the lookup, the delete by id, the counter update and the
    reassignment loop. Each method is proved to do what its value-level
    definition in `CatalogLogic` or `Assignment` says. */
module CatalogServices {
  import opened Domain
  import opened Persistence
  import opened CatalogLogic
  import opened Assignment
  import opened Stores

  /** `get…ById(id)`: the stored row, or NotFound. */
  function GetById(s: Store, c: Catalog, id: Id): (r: Result<CatalogRow>)
    reads s
    ensures r.Ok? <==> InCatalog(s.Snapshot(), c, id)
    ensures r.Ok? ==> r.value == RowOf(s.Snapshot(), c, id)
    ensures r.Err? ==> r.error == NotFound
  {
    match c
    case Units => if id in s.units then Ok(UnitRow(s.units[id])) else Err(NotFound)
    case States => if id in s.states then Ok(StateRow(s.states[id])) else Err(NotFound)
    case Types => if id in s.types then Ok(TypeRow(s.types[id])) else Err(NotFound)
  }

  /** `delete…ById(id)`. */
  method DeleteById(s: Store, c: Catalog, id: Id) returns (r: Result<()>)
    modifies s
    ensures (s.Snapshot(), r) == CatalogLogic.DeleteById(old(s.Snapshot()), c, id)
  {
    var d := s.DeleteCatalogRow(c, id);
    if d == Affected(0) {
      r := Err(NotFound);
    } else if d == Referenced {
      r := Err(Internal);
    } else {
      r := Ok(());
    }
  }

  /** `update…IngredientsAssigned(id, valueAdded)`. */
  method UpdateIngredientsAssigned(s: Store, c: Catalog, id: Id, valueAdded: int) returns (r: Result<CatalogRow>)
    modifies s
    ensures (s.Snapshot(), r) == UpdateAssigned(old(s.Snapshot()), c, id, valueAdded)
  {
    var row := GetById(s, c, id);
    if row.Err? {
      return Err(row.error);
    }
    var w := s.SaveAssigned(c, id, row.value.IngredientsAssigned() + valueAdded);
    if w == Written {
      r := Ok(RowOf(s.Snapshot(), c, id));
    } else {
      r := Err(Internal);
    }
  }

  /** One pass of the reassignment loop's body: an ingredient already on the
      target is skipped; otherwise the old row's counter is lowered, the
      target's raised, and the ingredient saved with the new reference. */
  method AssignStep(s: Store, c: Catalog, target: Id, e: Entry) returns (r: Result<Entry>)
    modifies s
    ensures (s.Snapshot(), r) == AssignOne(old(s.Snapshot()), c, target, e)
  {
    if Ref(c, e.1) == target {
      return Ok(e);
    }
    var r1 := UpdateIngredientsAssigned(s, c, Ref(c, e.1), -1);
    var r2 := UpdateIngredientsAssigned(s, c, target, 1);
    if r1.Err? {
      return Err(r1.error);
    }
    if r2.Err? {
      return Err(r2.error);
    }
    var switched := WithRef(c, e.1, target);
    var w := s.SaveIngredient(e.0, switched);
    if w != Written {
      return Err(Internal);
    }
    r := Ok((e.0, switched));
  }

  /** `assignToIngredient(row, ingredients)`: the reassignment loop. */
  method AssignToIngredient(s: Store, c: Catalog, target: Id, batch: seq<Entry>) returns (r: Result<seq<Entry>>)
    modifies s
    ensures (s.Snapshot(), r) == AssignAll(old(s.Snapshot()), c, target, batch)
  {
    ghost var t0 := s.Snapshot();
    var done: seq<Entry> := [];
    var i := 0;
    assert batch[i..] == batch;
    ghost var whole := AssignAll(t0, c, target, batch);
    if whole.1.Ok? {
      assert [] + whole.1.value == whole.1.value;
    }
    while i < |batch|
      invariant 0 <= i <= |batch|
      invariant AssignAll(t0, c, target, batch) == Extend(done, AssignAll(s.Snapshot(), c, target, batch[i..]))
    {
      ghost var ti := s.Snapshot();
      AssignAllStep(ti, c, target, batch, i);
      var step := AssignStep(s, c, target, batch[i]);
      if step.Err? {
        return Err(step.error);
      }
      ExtendTwice(done, [step.value], AssignAll(s.Snapshot(), c, target, batch[i + 1..]));
      done := done + [step.value];
      i := i + 1;
    }
    assert batch[i..] == [];
    assert done + [] == done;
    r := Ok(done);
  }
}
