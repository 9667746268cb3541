/** The catalog services (measurement units, ingredient states, ingredient
    types) on the value level, as one definition parameterised by the
    catalog. The unit service is the complete one; the state and type
    counterparts it does not define follow it as their tests describe them. */
module CatalogLogic {
  import opened Domain
  import opened Persistence
  import opened Counting

  /** `update…IngredientsAssigned(id, valueAdded)`: look the row up (NotFound),
      add `delta` to its counter and save it; a failed save is reported as
      Internal. */
  function UpdateAssigned(t: Tables, c: Catalog, id: Id, delta: int): (r: (Tables, Result<CatalogRow>))
    ensures r.0.ingredients == t.ingredients && r.0.inflows == t.inflows && r.0.next == t.next
    ensures forall d, x :: InCatalog(r.0, d, x) <==> InCatalog(t, d, x)
  {
    if !InCatalog(t, c, id) then (t, Err(NotFound))
    else
      var (t', w) := PutAssigned(t, c, id, Assigned(t, c, id) + delta);
      if w == Written then (t', Ok(RowOf(t', c, id))) else (t', Err(Internal))
  }

  /** `delete…ById(id)`: nothing deleted is NotFound; a row an ingredient still
      references is refused by its foreign key, so `delete` rejects (Internal). */
  function DeleteById(t: Tables, c: Catalog, id: Id): (Tables, Result<()>) {
    var (t', d) := RemoveCatalogRow(t, c, id);
    if d == Affected(0) then (t', Err(NotFound))
    else if d == Referenced then (t', Err(Internal))
    else (t', Ok(()))
  }

  /** The controllers' guarded delete: look the row up, refuse with Conflict
      while its counter is not 0, then delete. */
  function DeleteGuarded(t: Tables, c: Catalog, id: Id): (Tables, Result<()>) {
    if !InCatalog(t, c, id) then (t, Err(NotFound))
    else if Assigned(t, c, id) != 0 then (t, Err(Conflict))
    else DeleteById(t, c, id)
  }

  /** Catalog `c` without row `id`, everything else as before. */
  function WithoutRow(t: Tables, c: Catalog, id: Id): Tables {
    match c
    case Units => t.(units := t.units - {id})
    case States => t.(states := t.states - {id})
    case Types => t.(types := t.types - {id})
  }

  /** The counter update adds `delta` to that one counter and changes nothing
      else; an unknown row is NotFound before any change; while the database's
      constraints hold the update always succeeds. */
  lemma UpdateAssignedEffect(t: Tables, c: Catalog, id: Id, delta: int)
    ensures var (t', r) := UpdateAssigned(t, c, id, delta);
      && (!InCatalog(t, c, id) ==> r == Err(NotFound))
      && (r.Err? ==> t' == t)
      && (r.Ok? ==> InCatalog(t, c, id) && t' == WithAssigned(t, c, id, Assigned(t, c, id) + delta)
                    && r.value.IngredientsAssigned() == Assigned(t, c, id) + delta)
      && (WellFormed(t) && InCatalog(t, c, id) ==> r.Ok?)
  {
    if WellFormed(t) && InCatalog(t, c, id) {
      PutAssignedSucceeds(t, c, id, Assigned(t, c, id) + delta);
    }
  }

  lemma UpdateAssignedKeepsWellFormed(t: Tables, c: Catalog, id: Id, delta: int)
    requires WellFormed(t)
    ensures WellFormed(UpdateAssigned(t, c, id, delta).0)
  {
    if InCatalog(t, c, id) {
      var v := Assigned(t, c, id) + delta;
      assert UpdateAssigned(t, c, id, delta).0 == PutAssigned(t, c, id, v).0;
      PutAssignedKeepsWellFormed(t, c, id, v);
    }
  }

  /** A catalog key is below the next key. */
  lemma CatalogKeyBelowNext(t: Tables, c: Catalog, x: Id)
    requires WellFormed(t) && InCatalog(t, c, x)
    ensures x < t.next
  {
    match c
    case Units =>
    case States =>
    case Types =>
  }

  /** The tests' case: a counter at 0 raised by 1 reads 1. */
  lemma UpdateAssignedFromZero(t: Tables, c: Catalog, id: Id)
    requires WellFormed(t) && InCatalog(t, c, id) && Assigned(t, c, id) == 0
    ensures UpdateAssigned(t, c, id, 1).1.Ok?
    ensures UpdateAssigned(t, c, id, 1).1.value.IngredientsAssigned() == 1
  {
    UpdateAssignedEffect(t, c, id, 1);
  }

  /** Deleting reports NotFound exactly when the row is absent and then changes
      nothing; on success only that row is gone. */
  lemma DeleteByIdEffect(t: Tables, c: Catalog, id: Id)
    ensures var (t', r) := DeleteById(t, c, id);
      && (r == Err(NotFound) <==> !InCatalog(t, c, id))
      && (r.Err? ==> t' == t)
      && (r.Ok? ==> t' == WithoutRow(t, c, id))
  {
  }

  /** The guarded delete: NotFound for an absent row, Conflict while the
      counter is not 0, both without any change; on success exactly that row
      is removed. */
  lemma DeleteGuardedEffect(t: Tables, c: Catalog, id: Id)
    ensures var (t', r) := DeleteGuarded(t, c, id);
      && (r == Err(NotFound) <==> !InCatalog(t, c, id))
      && (r == Err(Conflict) <==> InCatalog(t, c, id) && Assigned(t, c, id) != 0)
      && (r.Err? ==> t' == t)
      && (r.Ok? ==> t' == WithoutRow(t, c, id))
  {
  }

  /** While the counters are right, a row whose counter is 0 has no referrers,
      so the guarded delete of an existing row either refuses with Conflict or
      succeeds. */
  lemma DeleteGuardedSucceedsWhenUnused(t: Tables, c: Catalog, id: Id)
    requires Consistent(t) && InCatalog(t, c, id)
    ensures DeleteGuarded(t, c, id).1 == (if Assigned(t, c, id) == 0 then Ok(()) else Err(Conflict))
  {
    InUseIffReferrers(t.ingredients, c, id);
  }

  /** Removing a catalog row keeps every remaining counter right. */
  lemma WithoutRowKeepsConsistent(t: Tables, c: Catalog, id: Id)
    requires Consistent(t)
    ensures Consistent(WithoutRow(t, c, id))
  {
    var r := WithoutRow(t, c, id);
    assert r.ingredients == t.ingredients;
    assert forall d, x :: InCatalog(r, d, x) ==> InCatalog(t, d, x) && Assigned(r, d, x) == Assigned(t, d, x);
  }

  /** The guarded delete keeps the invariant whatever its outcome. */
  lemma DeleteGuardedKeepsConsistent(t: Tables, c: Catalog, id: Id)
    requires Consistent(t)
    ensures Consistent(DeleteGuarded(t, c, id).0)
  {
    DeleteGuardedEffect(t, c, id);
    WithoutRowKeepsConsistent(t, c, id);
  }

  lemma DeleteGuardedKeepsWellFormed(t: Tables, c: Catalog, id: Id)
    requires WellFormed(t)
    ensures WellFormed(DeleteGuarded(t, c, id).0)
  {
    RemoveCatalogRowKeepsWellFormed(t, c, id);
  }
}
