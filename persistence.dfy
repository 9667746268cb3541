/** What one TypeORM `save()` or `delete()` does to the tables. A save is an
    upsert at the row's key; the database refuses it when the unique `name`
    column would repeat (unique_violation) or a foreign key would dangle
    (foreign_key_violation). A delete of a row another table still points at is
    refused (the relations use the default NO ACTION). */
module Persistence {
  import opened Domain

  /** A fresh key: the one the tables would hand out next. */
  function Allocate(t: Tables): (r: (Tables, Id))
    ensures r.1 == t.next && r.0 == t.(next := t.next + 1)
  {
    (t.(next := t.next + 1), t.next)
  }

  function PutUnit(t: Tables, id: Id, u: MeasurementUnit): (Tables, WriteStatus) {
    if NameUsed(t.units - {id}, UnitName, u.name) then (t, UniqueViolation)
    else (t.(units := t.units[id := u]), Written)
  }

  function PutState(t: Tables, id: Id, st: IngredientState): (Tables, WriteStatus) {
    if NameUsed(t.states - {id}, StateName, st.name) then (t, UniqueViolation)
    else (t.(states := t.states[id := st]), Written)
  }

  function PutType(t: Tables, id: Id, ty: IngredientType): (Tables, WriteStatus) {
    if NameUsed(t.types - {id}, TypeName, ty.name) then (t, UniqueViolation)
    else (t.(types := t.types[id := ty]), Written)
  }

  /** Saving catalog row `id` of `c` back with its counter set to `v`. */
  function PutAssigned(t: Tables, c: Catalog, id: Id, v: int): (r: (Tables, WriteStatus))
    requires InCatalog(t, c, id)
    ensures r.1 == Written || r.1 == UniqueViolation
    ensures r.0 == if r.1 == Written then WithAssigned(t, c, id, v) else t
  {
    match c
    case Units => PutUnit(t, id, t.units[id].(ingredientsAssigned := v))
    case States => PutState(t, id, t.states[id].(ingredientsAssigned := v))
    case Types => PutType(t, id, t.types[id].(ingredientsAssigned := v))
  }

  /** Uniqueness is checked while the row is written, the foreign keys after. */
  function PutIngredient(t: Tables, id: Id, i: Ingredient): (Tables, WriteStatus) {
    if NameUsed(t.ingredients - {id}, IngredientName, i.name) then (t, UniqueViolation)
    else if !RefsExist(t, i) then (t, ForeignKeyViolation)
    else (t.(ingredients := t.ingredients[id := i]), Written)
  }

  /** The NOT NULL check runs while the row is formed, before the foreign key. */
  function PutInflow(t: Tables, id: Id, f: Inflow): (Tables, WriteStatus) {
    if f.additionalDetails.None? then (t, NotNullViolation)
    else if f.ingredientId !in t.ingredients then (t, ForeignKeyViolation)
    else (t.(inflows := t.inflows[id := f]), Written)
  }

  function RemoveCatalogRow(t: Tables, c: Catalog, id: Id): (Tables, DeleteStatus) {
    if !InCatalog(t, c, id) then (t, Affected(0))
    else if InUse(t.ingredients, c, id) then (t, Referenced)
    else
      match c
      case Units => (t.(units := t.units - {id}), Affected(1))
      case States => (t.(states := t.states - {id}), Affected(1))
      case Types => (t.(types := t.types - {id}), Affected(1))
  }

  /** Some inflow still records ingredient `id`. */
  predicate HasInflows(t: Tables, id: Id) {
    exists k :: k in t.inflows && t.inflows[k].ingredientId == id
  }

  function RemoveIngredient(t: Tables, id: Id): (Tables, DeleteStatus) {
    if id !in t.ingredients then (t, Affected(0))
    else if HasInflows(t, id) then (t, Referenced)
    else (t.(ingredients := t.ingredients - {id}), Affected(1))
  }

  function RemoveInflow(t: Tables, id: Id): (Tables, DeleteStatus) {
    if id !in t.inflows then (t, Affected(0))
    else (t.(inflows := t.inflows - {id}), Affected(1))
  }

  /** `DELETE FROM inflow WHERE ingredient_id = iid`. */
  function RemoveInflowsOf(t: Tables, iid: Id): (r: Tables)
    ensures r == t.(inflows := r.inflows)
    ensures forall k :: k in r.inflows <==> k in t.inflows && t.inflows[k].ingredientId != iid
    ensures forall k :: k in r.inflows ==> r.inflows[k] == t.inflows[k]
  {
    t.(inflows := map k | k in t.inflows && t.inflows[k].ingredientId != iid :: t.inflows[k])
  }

  /** A refused save changes nothing. */
  lemma RefusedWriteChangesNothing(t: Tables, id: Id, u: MeasurementUnit, i: Ingredient, f: Inflow)
    ensures PutUnit(t, id, u).1 != Written ==> PutUnit(t, id, u).0 == t
    ensures PutIngredient(t, id, i).1 != Written ==> PutIngredient(t, id, i).0 == t
    ensures PutInflow(t, id, f).1 != Written ==> PutInflow(t, id, f).0 == t
  {
  }

  /** Writing a counter back never clashes while the names are unique. */
  lemma PutAssignedSucceeds(t: Tables, c: Catalog, id: Id, v: int)
    requires WellFormed(t) && InCatalog(t, c, id)
    ensures PutAssigned(t, c, id, v).1 == Written
    ensures PutAssigned(t, c, id, v).0 == WithAssigned(t, c, id, v)
  {
    match c
    case Units => OwnNameFree(t.units, UnitName, id);
    case States => OwnNameFree(t.states, StateName, id);
    case Types => OwnNameFree(t.types, TypeName, id);
  }

  /** Changing a counter keeps the database's constraints. */
  lemma WithAssignedKeepsWellFormed(t: Tables, c: Catalog, id: Id, v: int)
    requires WellFormed(t) && InCatalog(t, c, id)
    ensures WellFormed(WithAssigned(t, c, id, v))
  {
    var r := WithAssigned(t, c, id, v);
    assert r.units.Keys == t.units.Keys && r.states.Keys == t.states.Keys && r.types.Keys == t.types.Keys;
    assert forall k :: k in r.ingredients ==> RefsExist(r, r.ingredients[k]);
    match c
    case Units =>
      assert forall k :: k in r.units ==> UnitName(r.units[k]) == UnitName(t.units[k]);
    case States =>
      assert forall k :: k in r.states ==> StateName(r.states[k]) == StateName(t.states[k]);
    case Types =>
      assert forall k :: k in r.types ==> TypeName(r.types[k]) == TypeName(t.types[k]);
  }

  lemma PutAssignedKeepsWellFormed(t: Tables, c: Catalog, id: Id, v: int)
    requires WellFormed(t) && InCatalog(t, c, id)
    ensures WellFormed(PutAssigned(t, c, id, v).0)
  {
    PutAssignedSucceeds(t, c, id, v);
    WithAssignedKeepsWellFormed(t, c, id, v);
  }

  lemma AllocateKeepsWellFormed(t: Tables)
    requires WellFormed(t)
    ensures WellFormed(Allocate(t).0)
  {
  }

  lemma PutUnitKeepsWellFormed(t: Tables, id: Id, u: MeasurementUnit)
    requires WellFormed(t) && id < t.next
    ensures WellFormed(PutUnit(t, id, u).0)
  {
    if PutUnit(t, id, u).1 == Written {
      UniqueAfterPut(t.units, UnitName, id, u);
    }
  }

  lemma PutStateKeepsWellFormed(t: Tables, id: Id, st: IngredientState)
    requires WellFormed(t) && id < t.next
    ensures WellFormed(PutState(t, id, st).0)
  {
    if PutState(t, id, st).1 == Written {
      UniqueAfterPut(t.states, StateName, id, st);
    }
  }

  lemma PutTypeKeepsWellFormed(t: Tables, id: Id, ty: IngredientType)
    requires WellFormed(t) && id < t.next
    ensures WellFormed(PutType(t, id, ty).0)
  {
    if PutType(t, id, ty).1 == Written {
      UniqueAfterPut(t.types, TypeName, id, ty);
    }
  }

  lemma PutIngredientKeepsWellFormed(t: Tables, id: Id, i: Ingredient)
    requires WellFormed(t) && id < t.next
    ensures WellFormed(PutIngredient(t, id, i).0)
  {
    if PutIngredient(t, id, i).1 == Written {
      UniqueAfterPut(t.ingredients, IngredientName, id, i);
    }
  }

  lemma PutInflowKeepsWellFormed(t: Tables, id: Id, f: Inflow)
    requires WellFormed(t) && id < t.next
    ensures WellFormed(PutInflow(t, id, f).0)
  {
  }

  lemma RemoveCatalogRowKeepsWellFormed(t: Tables, c: Catalog, id: Id)
    requires WellFormed(t)
    ensures WellFormed(RemoveCatalogRow(t, c, id).0)
  {
    var r := RemoveCatalogRow(t, c, id).0;
    forall k | k in r.ingredients
      ensures RefsExist(r, r.ingredients[k])
    {
      if InCatalog(t, c, id) && !InUse(t.ingredients, c, id) {
        assert Ref(c, t.ingredients[k]) != id;
      }
    }
  }

  lemma RemoveIngredientKeepsWellFormed(t: Tables, id: Id)
    requires WellFormed(t)
    ensures WellFormed(RemoveIngredient(t, id).0)
  {
    var r := RemoveIngredient(t, id).0;
    forall k | k in r.inflows
      ensures r.inflows[k].ingredientId in r.ingredients
    {
      if id in t.ingredients && !HasInflows(t, id) {
        assert t.inflows[k].ingredientId != id;
      }
    }
  }

  lemma RemoveInflowKeepsWellFormed(t: Tables, id: Id)
    requires WellFormed(t)
    ensures WellFormed(RemoveInflow(t, id).0)
  {
  }

  lemma RemoveInflowsOfKeepsWellFormed(t: Tables, iid: Id)
    requires WellFormed(t)
    ensures WellFormed(RemoveInflowsOf(t, iid))
  {
    var r := RemoveInflowsOf(t, iid);
    assert r.inflows.Keys <= t.inflows.Keys;
  }
}
