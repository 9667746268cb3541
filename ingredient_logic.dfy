/** `IngredientRepository`, `IngredientsService` and `IngredientsController` on
    the value level: inserting, overwriting and deleting ingredient rows,
    adding rounded quantities to a stock, and the controller's counter
    bookkeeping around creation, deletion and update. */
module IngredientLogic {
  import opened Domain
  import opened Rounding
  import opened Persistence
  import opened Counting
  import opened CatalogLogic
  import opened Assignment

  /** `createIngredient(name, unit, state, type)` in the repository: a new row
      with stock 0 at a fresh key; a repeated name is Conflict and any other
      refusal Internal. */
  function CreateIngredientRow(t: Tables, name: string, u: Id, st: Id, ty: Id): (Tables, Result<Entry>) {
    var (t1, id) := Allocate(t);
    var i := Ingredient(name, u, st, ty, 0.0);
    var (t2, w) := PutIngredient(t1, id, i);
    if w == Written then (t2, Ok((id, i)))
    else if w == UniqueViolation then (t2, Err(Conflict))
    else (t2, Err(Internal))
  }

  /** `updateIngredient(id, name, unit, state, type)` in the repository. */
  function UpdateIngredientRow(t: Tables, id: Id, name: string, u: Id, st: Id, ty: Id): (Tables, Result<Entry>) {
    if id !in t.ingredients then (t, Err(NotFound))
    else
      var i := t.ingredients[id].(name := name, measurementUnit := u, ingredientState := st, ingredientType := ty);
      var (t1, w) := PutIngredient(t, id, i);
      if w == Written then (t1, Ok((id, i)))
      else if w == UniqueViolation then (t1, Err(Conflict))
      else (t1, Err(Internal))
  }

  /** The stock after adding `valueAdded` rounded to the precision of unit `p`. */
  function Restocked(i: Ingredient, valueAdded: real, p: nat): Ingredient {
    i.(currentStock := i.currentStock + Round(valueAdded, p))
  }

  /** `updateIngredientCurrentStock(ingredient, valueAdded)`: the loaded row
      `e` is saved back with `valueAdded`, rounded to its unit's precision,
      added to its stock. A row whose unit cannot be read fails Internal, and
      so does a precision `toFixed` refuses, before anything is written. */
  function AddStock(t: Tables, e: Entry, valueAdded: real): (Tables, Result<Entry>) {
    if e.1.measurementUnit !in t.units then (t, Err(Internal))
    else
      var p := t.units[e.1.measurementUnit].precision;
      if !FixedDigits(p) then (t, Err(Internal))
      else
        var i := Restocked(e.1, valueAdded, p);
        var (t1, w) := PutIngredient(t, e.0, i);
        if w == Written then (t1, Ok((e.0, i))) else (t1, Err(Internal))
  }

  /** `deleteIngredientById(id)` in the service: nothing deleted is NotFound;
      an ingredient that still has inflows is refused by their foreign key. */
  function DeleteIngredientRow(t: Tables, id: Id): (Tables, Result<()>) {
    var (t1, d) := RemoveIngredient(t, id);
    if d == Affected(0) then (t1, Err(NotFound))
    else if d == Referenced then (t1, Err(Internal))
    else (t1, Ok(()))
  }

  /** The three counter updates the controller issues together, in a fixed
      order: all of them run and the first failure is reported. */
  function AdjustCounters(t: Tables, i: Ingredient, delta: int): (r: (Tables, Result<()>))
    ensures r.0.ingredients == t.ingredients && r.0.inflows == t.inflows && r.0.next == t.next
    ensures forall c, x :: InCatalog(r.0, c, x) <==> InCatalog(t, c, x)
  {
    var (t1, r1) := UpdateAssigned(t, Units, i.measurementUnit, delta);
    var (t2, r2) := UpdateAssigned(t1, States, i.ingredientState, delta);
    var (t3, r3) := UpdateAssigned(t2, Types, i.ingredientType, delta);
    if r1.Err? then (t3, Err(r1.error))
    else if r2.Err? then (t3, Err(r2.error))
    else if r3.Err? then (t3, Err(r3.error))
    else (t3, Ok(()))
  }

  /** The controller's `createIngredient`: the three lookups (NotFound), the
      three counters raised by 1, then the row inserted. */
  function CreateIngredient(t: Tables, name: string, u: Id, st: Id, ty: Id): (Tables, Result<Entry>) {
    if u !in t.units || st !in t.states || ty !in t.types then (t, Err(NotFound))
    else
      var (t1, r1) := AdjustCounters(t, Ingredient(name, u, st, ty, 0.0), 1);
      if r1.Err? then (t1, Err(r1.error)) else CreateIngredientRow(t1, name, u, st, ty)
  }

  /** The controller's `deleteIngredientById`: the lookup (NotFound), the row
      deleted, then the counters of the three rows it referenced lowered by 1. */
  function DeleteIngredient(t: Tables, id: Id): (Tables, Result<()>) {
    if id !in t.ingredients then (t, Err(NotFound))
    else
      var (t1, r1) := DeleteIngredientRow(t, id);
      if r1.Err? then (t1, r1) else AdjustCounters(t1, t.ingredients[id], -1)
  }

  /** The controller's `updateIngredient`: the four lookups (the first failure
      in order is reported), the loaded row renamed in memory, then the
      reassignment loop for units, states and types in turn on that one row. */
  function UpdateIngredient(t: Tables, id: Id, name: string, u: Id, st: Id, ty: Id): (Tables, Result<Entry>) {
    if u !in t.units || st !in t.states || ty !in t.types || id !in t.ingredients then (t, Err(NotFound))
    else
      var (t1, r1) := AssignAll(t, Units, u, [(id, t.ingredients[id].(name := name))]);
      if r1.Err? then (t1, Err(r1.error))
      else
        var (t2, r2) := AssignAll(t1, States, st, r1.value);
        if r2.Err? then (t2, Err(r2.error))
        else
          var (t3, r3) := AssignAll(t2, Types, ty, r2.value);
          if r3.Err? then (t3, Err(r3.error)) else (t3, Ok(r3.value[0]))
  }

  /** A new key is free in every table. */
  lemma NextIsFree(t: Tables)
    requires WellFormed(t)
    ensures t.next !in t.ingredients && t.next !in t.inflows && !HasInflows(t, t.next)
    ensures t.ingredients - {t.next} == t.ingredients
  {
  }

  /** The repository's insert: Conflict exactly when another ingredient has the
      name, Internal exactly when a reference dangles, otherwise a new row at
      the next key with the given name and references and stock 0. A refusal
      adds no row. */
  lemma CreateIngredientRowEffect(t: Tables, name: string, u: Id, st: Id, ty: Id)
    requires WellFormed(t)
    ensures var (t', r) := CreateIngredientRow(t, name, u, st, ty);
      var i := Ingredient(name, u, st, ty, 0.0);
      && (r == Err(Conflict) <==> NameUsed(t.ingredients, IngredientName, name))
      && (r == Err(Internal) <==> !NameUsed(t.ingredients, IngredientName, name) && !RefsExist(t, i))
      && (r.Err? ==> t' == t.(next := t.next + 1))
      && (r.Ok? ==> r.value == (t.next, i) && t' == t.(ingredients := t.ingredients[t.next := i], next := t.next + 1))
  {
    NextIsFree(t);
  }

  /** The repository's overwrite: NotFound exactly for an unknown id; Conflict
      exactly when a different ingredient holds the name, so keeping its own
      name never clashes; otherwise the name and the references are replaced
      and the stock kept. No catalog row is touched, whatever the outcome. */
  lemma UpdateIngredientRowEffect(t: Tables, id: Id, name: string, u: Id, st: Id, ty: Id)
    ensures var (t', r) := UpdateIngredientRow(t, id, name, u, st, ty);
      && (r == Err(NotFound) <==> id !in t.ingredients)
      && (id in t.ingredients ==> (r == Err(Conflict) <==> NameUsed(t.ingredients - {id}, IngredientName, name)))
      && (WellFormed(t) && id in t.ingredients && name == t.ingredients[id].name ==> r != Err(Conflict))
      && (r.Err? ==> t' == t)
      && (r.Ok? ==> r.value == (id, Ingredient(name, u, st, ty, t.ingredients[id].currentStock))
                    && t' == t.(ingredients := t.ingredients[id := r.value.1]))
      && t'.units == t.units && t'.states == t.states && t'.types == t.types
  {
    if WellFormed(t) && id in t.ingredients && name == t.ingredients[id].name {
      OwnNameFree(t.ingredients, IngredientName, id);
    }
  }

  /** The stock update saves the loaded row with its stock raised by exactly
      `valueAdded` rounded to its unit's precision, every other column kept;
      a refusal changes nothing; a unit precision outside what `toFixed`
      accepts always fails Internal; for a stored row under the constraints
      any other precision succeeds. */
  lemma AddStockEffect(t: Tables, e: Entry, valueAdded: real)
    ensures var (t', r) := AddStock(t, e, valueAdded);
      && (r.Err? ==> t' == t)
      && (r.Ok? ==> && e.1.measurementUnit in t.units
                    && var p := t.units[e.1.measurementUnit].precision;
                    && FixedDigits(p)
                    && r.value == (e.0, e.1.(currentStock := e.1.currentStock + Round(valueAdded, p)))
                    && t' == t.(ingredients := t.ingredients[e.0 := r.value.1]))
      && (e.1.measurementUnit in t.units && !FixedDigits(t.units[e.1.measurementUnit].precision)
          ==> r == Err(Internal))
      && ((WellFormed(t) && e.0 in t.ingredients && e.1 == t.ingredients[e.0]
           && FixedDigits(t.units[e.1.measurementUnit].precision)) ==> r.Ok?)
  {
    if WellFormed(t) && e.0 in t.ingredients && e.1 == t.ingredients[e.0] {
      OwnNameFree(t.ingredients, IngredientName, e.0);
      assert RefsExist(t, e.1);
    }
  }

  /** The repository test's figures: a stock of 0 in a unit of precision 1
      raised by 5.46 becomes 5.5. */
  lemma AddStockExample(t: Tables, id: Id)
    requires WellFormed(t) && id in t.ingredients && t.ingredients[id].currentStock == 0.0
    requires t.units[t.ingredients[id].measurementUnit].precision == 1
    ensures AddStock(t, (id, t.ingredients[id]), 5.46).1.Ok?
    ensures AddStock(t, (id, t.ingredients[id]), 5.46).1.value.1.currentStock == 5.5
  {
    AddStockEffect(t, (id, t.ingredients[id]), 5.46);
    RoundExample();
  }

  /** Writing the ingredient back with the same references keeps the
      constraints and the counters. */
  lemma AddStockKeepsInvariant(t: Tables, e: Entry, valueAdded: real)
    requires WellFormed(t) && Consistent(t)
    requires e.0 in t.ingredients && SameRefs(e.1, t.ingredients[e.0])
    ensures WellFormed(AddStock(t, e, valueAdded).0) && Consistent(AddStock(t, e, valueAdded).0)
  {
    AddStockEffect(t, e, valueAdded);
    var (t', r) := AddStock(t, e, valueAdded);
    if r.Ok? {
      PutIngredientKeepsWellFormed(t, e.0, r.value.1);
      RewriteKeepsConsistent(t, e.0, r.value.1);
    }
  }

  /** The service's delete: NotFound exactly when the id is absent, Internal
      exactly when inflows still record the ingredient; on success only that
      row is gone. No catalog counter changes, whatever the outcome. */
  lemma DeleteIngredientRowEffect(t: Tables, id: Id)
    ensures var (t', r) := DeleteIngredientRow(t, id);
      && (r == Err(NotFound) <==> id !in t.ingredients)
      && (r == Err(Internal) <==> id in t.ingredients && HasInflows(t, id))
      && (r.Err? ==> t' == t)
      && (r.Ok? ==> t' == t.(ingredients := t.ingredients - {id}))
      && t'.units == t.units && t'.states == t.states && t'.types == t.types
  {
  }

  /** On success each counter of a row the ingredient references moved by
      `delta` and no other counter changed; a failure comes only from a row
      that is missing, so under the constraints it never happens. */
  lemma AdjustCountersEffect(t: Tables, i: Ingredient, delta: int)
    ensures var (t', r) := AdjustCounters(t, i, delta);
      && (r.Ok? ==> RefsExist(t, i))
      && (r.Ok? ==> forall c, x :: InCatalog(t, c, x) ==>
                      Assigned(t', c, x) == Assigned(t, c, x) + (if x == Ref(c, i) then delta else 0))
      && (WellFormed(t) && RefsExist(t, i) ==> r.Ok? && WellFormed(t'))
  {
    var (t1, r1) := UpdateAssigned(t, Units, i.measurementUnit, delta);
    var (t2, r2) := UpdateAssigned(t1, States, i.ingredientState, delta);
    UpdateAssignedEffect(t, Units, i.measurementUnit, delta);
    UpdateAssignedEffect(t1, States, i.ingredientState, delta);
    UpdateAssignedEffect(t2, Types, i.ingredientType, delta);
    if WellFormed(t) {
      UpdateAssignedKeepsWellFormed(t, Units, i.measurementUnit, delta);
      UpdateAssignedKeepsWellFormed(t1, States, i.ingredientState, delta);
      UpdateAssignedKeepsWellFormed(t2, Types, i.ingredientType, delta);
    }
  }

  /** Creation: an unknown unit, state or type is NotFound before any change;
      under the constraints, with all three stored, it succeeds exactly when
      no ingredient has the name, and otherwise is a Conflict; on success the
      new row sits at the next key with stock 0 and each of the three
      referenced counters rose by exactly 1, no other counter moving. */
  lemma CreateIngredientEffect(t: Tables, name: string, u: Id, st: Id, ty: Id)
    ensures var (t', r) := CreateIngredient(t, name, u, st, ty);
      var i := Ingredient(name, u, st, ty, 0.0);
      && (!(u in t.units && st in t.states && ty in t.types) ==> t' == t && r == Err(NotFound))
      && (r.Ok? ==> && r.value == (t.next, i)
                    && t'.ingredients == t.ingredients[t.next := i] && t'.inflows == t.inflows
                    && (forall c, x :: InCatalog(t', c, x) <==> InCatalog(t, c, x))
                    && (forall c, x :: InCatalog(t, c, x) ==>
                          Assigned(t', c, x) == Assigned(t, c, x) + (if x == Ref(c, i) then 1 else 0)))
      && ((WellFormed(t) && u in t.units && st in t.states && ty in t.types) ==>
            (r.Ok? <==> !NameUsed(t.ingredients, IngredientName, name))
            && (r.Err? ==> r.error == Conflict))
  {
    var i := Ingredient(name, u, st, ty, 0.0);
    AdjustCountersEffect(t, i, 1);
    if WellFormed(t) && u in t.units && st in t.states && ty in t.types {
      NextIsFree(AdjustCounters(t, i, 1).0);
    }
  }

  lemma CreateIngredientRowKeepsWellFormed(t: Tables, name: string, u: Id, st: Id, ty: Id)
    requires WellFormed(t)
    ensures WellFormed(CreateIngredientRow(t, name, u, st, ty).0)
  {
    AllocateKeepsWellFormed(t);
    PutIngredientKeepsWellFormed(Allocate(t).0, t.next, Ingredient(name, u, st, ty, 0.0));
  }

  lemma CreateIngredientKeepsWellFormed(t: Tables, name: string, u: Id, st: Id, ty: Id)
    requires WellFormed(t)
    ensures WellFormed(CreateIngredient(t, name, u, st, ty).0)
  {
    if u in t.units && st in t.states && ty in t.types {
      var i := Ingredient(name, u, st, ty, 0.0);
      AdjustCountersEffect(t, i, 1);
      CreateIngredientRowKeepsWellFormed(AdjustCounters(t, i, 1).0, name, u, st, ty);
    }
  }

  /** A successful creation keeps every counter right. */
  lemma CreateIngredientKeepsConsistent(t: Tables, name: string, u: Id, st: Id, ty: Id)
    requires WellFormed(t) && Consistent(t)
    requires CreateIngredient(t, name, u, st, ty).1.Ok?
    ensures Consistent(CreateIngredient(t, name, u, st, ty).0)
  {
    CreateIngredientEffect(t, name, u, st, ty);
    NextIsFree(t);
    InsertKeepsConsistent(t, CreateIngredient(t, name, u, st, ty).0, t.next, Ingredient(name, u, st, ty, 0.0));
  }

  /** The counters are raised before the row is inserted, so a name another
      ingredient already has ends in Conflict with the three counters left one
      too high: they no longer count the ingredients. */
  lemma CreateIngredientConflictLeavesCountersRaised(t: Tables, name: string, u: Id, st: Id, ty: Id)
    requires WellFormed(t) && Consistent(t)
    requires u in t.units && st in t.states && ty in t.types
    requires NameUsed(t.ingredients, IngredientName, name)
    ensures CreateIngredient(t, name, u, st, ty).1 == Err(Conflict)
    ensures CreateIngredient(t, name, u, st, ty).0.ingredients == t.ingredients
    ensures Assigned(CreateIngredient(t, name, u, st, ty).0, Units, u) == Assigned(t, Units, u) + 1
    ensures !Consistent(CreateIngredient(t, name, u, st, ty).0)
  {
    var i := Ingredient(name, u, st, ty, 0.0);
    AdjustCountersEffect(t, i, 1);
    var (t1, r1) := AdjustCounters(t, i, 1);
    NextIsFree(t);
    CreateIngredientRowEffect(t1, name, u, st, ty);
    var t' := t1.(next := t1.next + 1);
    assert CreateIngredient(t, name, u, st, ty) == (t', Err(Conflict));
    SameCatalogs(t1, t');
    assert Assigned(t', Units, u) == Assigned(t, Units, u) + 1;
    assert Assigned(t, Units, u) == |Referrers(t.ingredients, Units, u)| by {
      assert CountedIn(t, Units);
    }
  }

  /** Creation with the row inserted first and the counters raised after it,
      so that a refused insert leaves the counters alone. */
  function CreateIngredientChecked(t: Tables, name: string, u: Id, st: Id, ty: Id): (Tables, Result<Entry>) {
    if u !in t.units || st !in t.states || ty !in t.types then (t, Err(NotFound))
    else
      var (t1, r1) := CreateIngredientRow(t, name, u, st, ty);
      if r1.Err? then (t1, r1)
      else
        var (t2, r2) := AdjustCounters(t1, r1.value.1, 1);
        if r2.Err? then (t2, Err(r2.error)) else (t2, r1)
  }

  /** The corrected creation keeps the constraints whatever its outcome. */
  lemma CreateIngredientCheckedKeepsWellFormed(t: Tables, name: string, u: Id, st: Id, ty: Id)
    requires WellFormed(t)
    ensures WellFormed(CreateIngredientChecked(t, name, u, st, ty).0)
  {
    if u in t.units && st in t.states && ty in t.types {
      var i := Ingredient(name, u, st, ty, 0.0);
      CreateIngredientRowKeepsWellFormed(t, name, u, st, ty);
      CreateIngredientRowEffect(t, name, u, st, ty);
      var (t1, r1) := CreateIngredientRow(t, name, u, st, ty);
      if r1.Ok? {
        assert RefsExist(t1, i);
        AdjustCountersEffect(t1, i, 1);
      }
    }
  }

  /** The corrected creation fails Conflict exactly for a name already in
      use and then changes no row; on success the row is added and the three
      referenced counters rose by 1. */
  lemma CreateIngredientCheckedEffect(t: Tables, name: string, u: Id, st: Id, ty: Id)
    requires WellFormed(t)
    ensures var (t', r) := CreateIngredientChecked(t, name, u, st, ty);
      var i := Ingredient(name, u, st, ty, 0.0);
      && (u in t.units && st in t.states && ty in t.types ==>
            (r == Err(Conflict) <==> NameUsed(t.ingredients, IngredientName, name)))
      && (r.Err? ==> t'.ingredients == t.ingredients && t'.units == t.units && t'.states == t.states
                     && t'.types == t.types)
      && (r.Ok? ==> && r.value == (t.next, i)
                    && t'.ingredients == t.ingredients[t.next := i]
                    && (forall c, x :: InCatalog(t', c, x) <==> InCatalog(t, c, x))
                    && (forall c, x :: InCatalog(t, c, x) ==>
                          Assigned(t', c, x) == Assigned(t, c, x) + (if x == Ref(c, i) then 1 else 0)))
  {
    if u in t.units && st in t.states && ty in t.types {
      var i := Ingredient(name, u, st, ty, 0.0);
      CreateIngredientRowEffect(t, name, u, st, ty);
      var (t1, r1) := CreateIngredientRow(t, name, u, st, ty);
      CreateIngredientCheckedSteps(t, name, u, st, ty);
      if r1.Ok? {
        CreateIngredientRowKeepsWellFormed(t, name, u, st, ty);
        SameCatalogs(t, t1);
        assert RefsExist(t1, i);
        AdjustCountersEffect(t1, i, 1);
      }
    }
  }

  /** The corrected creation step by step. */
  lemma CreateIngredientCheckedSteps(t: Tables, name: string, u: Id, st: Id, ty: Id)
    requires u in t.units && st in t.states && ty in t.types
    ensures var (t1, r1) := CreateIngredientRow(t, name, u, st, ty);
      CreateIngredientChecked(t, name, u, st, ty)
      == if r1.Err? then (t1, r1)
         else if AdjustCounters(t1, r1.value.1, 1).1.Err? then (AdjustCounters(t1, r1.value.1, 1).0, Err(AdjustCounters(t1, r1.value.1, 1).1.error))
         else (AdjustCounters(t1, r1.value.1, 1).0, r1)
  {
  }

  /** The corrected creation keeps every counter right whatever its outcome. */
  lemma CreateIngredientCheckedKeepsConsistent(t: Tables, name: string, u: Id, st: Id, ty: Id)
    requires WellFormed(t) && Consistent(t)
    ensures Consistent(CreateIngredientChecked(t, name, u, st, ty).0)
  {
    CreateIngredientCheckedEffect(t, name, u, st, ty);
    var (t', r) := CreateIngredientChecked(t, name, u, st, ty);
    if r.Ok? {
      NextIsFree(t);
      InsertKeepsConsistent(t, t', t.next, Ingredient(name, u, st, ty, 0.0));
    } else {
      ConsistentReadsRows(t, t');
    }
  }

  /** Deletion: an unknown id is NotFound before any change; on success the
      row is gone and the counters of the three rows it referenced dropped by
      exactly 1, no other counter moving. */
  lemma DeleteIngredientEffect(t: Tables, id: Id)
    ensures var (t', r) := DeleteIngredient(t, id);
      && (id !in t.ingredients ==> t' == t && r == Err(NotFound))
      && (r.Ok? ==> && id in t.ingredients && !HasInflows(t, id)
                    && t'.ingredients == t.ingredients - {id} && t'.inflows == t.inflows
                    && (forall c, x :: InCatalog(t', c, x) <==> InCatalog(t, c, x))
                    && (forall c, x :: InCatalog(t, c, x) ==>
                          Assigned(t', c, x) == Assigned(t, c, x) - (if x == Ref(c, t.ingredients[id]) then 1 else 0)))
  {
    if id in t.ingredients {
      var t1 := DeleteIngredientRow(t, id).0;
      AdjustCountersEffect(t1, t.ingredients[id], -1);
    }
  }

  /** Under the constraints, deleting a stored ingredient that no inflow
      records always succeeds. */
  lemma DeleteIngredientSucceeds(t: Tables, id: Id)
    requires WellFormed(t) && id in t.ingredients && !HasInflows(t, id)
    ensures DeleteIngredient(t, id).1.Ok?
  {
    var t1 := DeleteIngredientRow(t, id).0;
    assert RefsExist(t, t.ingredients[id]);
    RemoveIngredientKeepsWellFormed(t, id);
    AdjustCountersEffect(t1, t.ingredients[id], -1);
  }

  /** Deletion keeps the constraints and every counter right whatever its
      outcome: an ingredient that inflows still record is refused and nothing
      changes. */
  lemma DeleteIngredientKeepsInvariant(t: Tables, id: Id)
    requires WellFormed(t) && Consistent(t)
    ensures WellFormed(DeleteIngredient(t, id).0) && Consistent(DeleteIngredient(t, id).0)
    ensures DeleteIngredient(t, id).1.Ok? <==> id in t.ingredients && !HasInflows(t, id)
  {
    DeleteIngredientEffect(t, id);
    if id in t.ingredients && !HasInflows(t, id) {
      DeleteIngredientSucceeds(t, id);
      var t1 := DeleteIngredientRow(t, id).0;
      RemoveIngredientKeepsWellFormed(t, id);
      assert RefsExist(t1, t.ingredients[id]) by {
        assert RefsExist(t, t.ingredients[id]);
      }
      AdjustCountersEffect(t1, t.ingredients[id], -1);
      RemoveKeepsConsistent(t, DeleteIngredient(t, id).0, id);
    }
  }

  /** Deleting an ingredient just added at a key no inflow records succeeds
      and gives back the ingredients and counters from before the addition. */
  lemma DeleteUndoesInsert(t: Tables, t1: Tables, id: Id, i: Ingredient)
    requires WellFormed(t1) && id !in t.ingredients && t1.ingredients == t.ingredients[id := i]
    requires !HasInflows(t1, id)
    requires forall c, x :: InCatalog(t1, c, x) <==> InCatalog(t, c, x)
    requires forall c, x :: InCatalog(t, c, x) ==> Assigned(t1, c, x) == Assigned(t, c, x) + (if x == Ref(c, i) then 1 else 0)
    ensures DeleteIngredient(t1, id).1.Ok?
    ensures DeleteIngredient(t1, id).0.ingredients == t.ingredients
    ensures forall c, x :: InCatalog(DeleteIngredient(t1, id).0, c, x) <==> InCatalog(t, c, x)
    ensures forall c, x :: InCatalog(t, c, x) ==> Assigned(DeleteIngredient(t1, id).0, c, x) == Assigned(t, c, x)
  {
    DeleteIngredientSucceeds(t1, id);
    DeleteIngredientEffect(t1, id);
    assert t1.ingredients - {id} == t.ingredients;
  }

  /** Creating an ingredient and then deleting it succeeds and gives back the
      ingredients and every counter as they were. */
  lemma CreateThenDeleteRestoresCounters(t: Tables, name: string, u: Id, st: Id, ty: Id)
    requires WellFormed(t) && CreateIngredient(t, name, u, st, ty).1.Ok?
    ensures var after := CreateIngredient(t, name, u, st, ty);
      var back := DeleteIngredient(after.0, after.1.value.0);
      && back.1.Ok?
      && back.0.ingredients == t.ingredients
      && (forall c, x :: InCatalog(back.0, c, x) <==> InCatalog(t, c, x))
      && (forall c, x :: InCatalog(t, c, x) ==> Assigned(back.0, c, x) == Assigned(t, c, x))
  {
    CreateIngredientEffect(t, name, u, st, ty);
    CreateIngredientKeepsWellFormed(t, name, u, st, ty);
    NextIsFree(t);
    var t1 := CreateIngredient(t, name, u, st, ty).0;
    assert !HasInflows(t1, t.next) by {
      assert t1.inflows == t.inflows;
    }
    DeleteUndoesInsert(t, t1, t.next, Ingredient(name, u, st, ty, 0.0));
  }

  /** The loop over a single entry is one iteration. */
  lemma AssignAllSingle(t: Tables, c: Catalog, target: Id, e: Entry)
    ensures AssignAll(t, c, target, [e])
         == var (t1, r1) := AssignOne(t, c, target, e);
            if r1.Err? then (t1, Err(r1.error)) else (t1, Ok([r1.value]))
  {
    assert [e][0] == e;
    assert [e][1..] == [];
    var (t1, r1) := AssignOne(t, c, target, e);
    if r1.Ok? {
      assert [r1.value] + [] == [r1.value];
    }
  }

  /** A successful iteration hands back the entry switched to the target, which
      is also what the tables now hold references for. */
  lemma AssignSingleEntry(t: Tables, c: Catalog, target: Id, e: Entry)
    requires Fresh(t, [e]) && AssignAll(t, c, target, [e]).1.Ok?
    ensures var (t', r) := AssignAll(t, c, target, [e]);
      && r.value == [(e.0, WithRef(c, e.1, target))]
      && Fresh(t', r.value)
  {
    AssignAllSingle(t, c, target, e);
    AssignOneEffect(t, c, target, e);
    AssignOneKeepsFresh(t, c, target, [e]);
  }

  /** Any failed lookup is NotFound with no change; under the constraints an
      update with a name no other ingredient holds succeeds; an update that
      succeeds answers with the ingredient under its new name and new
      references, its stock as before, and the tables hold those references
      for it. */
  lemma UpdateIngredientEffect(t: Tables, id: Id, name: string, u: Id, st: Id, ty: Id)
    ensures var (t', r) := UpdateIngredient(t, id, name, u, st, ty);
      && (!(u in t.units && st in t.states && ty in t.types && id in t.ingredients) ==> t' == t && r == Err(NotFound))
      && (r.Ok? ==> && id in t.ingredients
                    && r.value == (id, Ingredient(name, u, st, ty, t.ingredients[id].currentStock))
                    && id in t'.ingredients && SameRefs(t'.ingredients[id], r.value.1))
      && ((WellFormed(t) && u in t.units && st in t.states && ty in t.types && id in t.ingredients
           && !NameUsed(t.ingredients - {id}, IngredientName, name)) ==> r.Ok?)
  {
    if WellFormed(t) && u in t.units && st in t.states && ty in t.types && id in t.ingredients
       && !NameUsed(t.ingredients - {id}, IngredientName, name) {
      UpdateIngredientSucceeds(t, id, name, u, st, ty);
    }
    if u in t.units && st in t.states && ty in t.types && id in t.ingredients {
      var e := (id, t.ingredients[id].(name := name));
      var (t1, r1) := AssignAll(t, Units, u, [e]);
      if r1.Ok? {
        AssignSingleEntry(t, Units, u, e);
        var (t2, r2) := AssignAll(t1, States, st, r1.value);
        if r2.Ok? {
          AssignSingleEntry(t1, States, st, r1.value[0]);
          var (t3, r3) := AssignAll(t2, Types, ty, r2.value);
          if r3.Ok? {
            AssignSingleEntry(t2, Types, ty, r2.value[0]);
          }
        }
      }
    }
  }

  /** Under the constraints an update with stored rows and a name no other
      ingredient holds succeeds: each of the three loops runs on the one row,
      which stays renamable from step to step. */
  lemma UpdateIngredientSucceeds(t: Tables, id: Id, name: string, u: Id, st: Id, ty: Id)
    requires WellFormed(t) && u in t.units && st in t.states && ty in t.types && id in t.ingredients
    requires !NameUsed(t.ingredients - {id}, IngredientName, name)
    ensures UpdateIngredient(t, id, name, u, st, ty).1.Ok?
  {
    var e := (id, t.ingredients[id].(name := name));
    assert Renamable(t, e);
    AssignAllSingle(t, Units, u, e);
    AssignOneSucceeds(t, Units, u, e);
    AssignOneKeepsRenamable(t, Units, u, e);
    AssignOneKeepsWellFormed(t, Units, u, e);
    var (t1, r1) := AssignOne(t, Units, u, e);
    var e1 := r1.value;
    assert InCatalog(t1, States, st);
    AssignAllSingle(t1, States, st, e1);
    AssignOneSucceeds(t1, States, st, e1);
    AssignOneKeepsRenamable(t1, States, st, e1);
    AssignOneKeepsWellFormed(t1, States, st, e1);
    var (t2, r2) := AssignOne(t1, States, st, e1);
    assert InCatalog(t2, Types, ty);
    AssignAllSingle(t2, Types, ty, r2.value);
    AssignOneSucceeds(t2, Types, ty, r2.value);
  }

  /** A successful update keeps the constraints and every counter right. */
  lemma UpdateIngredientKeepsInvariant(t: Tables, id: Id, name: string, u: Id, st: Id, ty: Id)
    requires WellFormed(t) && Consistent(t) && UpdateIngredient(t, id, name, u, st, ty).1.Ok?
    ensures WellFormed(UpdateIngredient(t, id, name, u, st, ty).0)
    ensures Consistent(UpdateIngredient(t, id, name, u, st, ty).0)
  {
    var e := (id, t.ingredients[id].(name := name));
    var (t1, r1) := AssignAll(t, Units, u, [e]);
    AssignAllKeepsConsistent(t, Units, u, [e]);
    AssignAllYieldsFresh(t, Units, u, [e]);
    AssignAllKeepsWellFormed(t, Units, u, [e]);
    var (t2, r2) := AssignAll(t1, States, st, r1.value);
    AssignAllKeepsConsistent(t1, States, st, r1.value);
    AssignAllYieldsFresh(t1, States, st, r1.value);
    AssignAllKeepsWellFormed(t1, States, st, r1.value);
    AssignAllKeepsConsistent(t2, Types, ty, r2.value);
    AssignAllKeepsWellFormed(t2, Types, ty, r2.value);
  }

  /** An update that keeps all three references writes nothing, yet answers
      with the new name: the rename is never stored. */
  lemma UpdateIngredientDropsRename(t: Tables, id: Id, name: string)
    requires id in t.ingredients && RefsExist(t, t.ingredients[id])
    ensures var i := t.ingredients[id];
      UpdateIngredient(t, id, name, i.measurementUnit, i.ingredientState, i.ingredientType)
      == (t, Ok((id, i.(name := name))))
  {
    var i := t.ingredients[id];
    var e := (id, i.(name := name));
    AssignAllNoop(t, Units, i.measurementUnit, [e]);
    AssignAllNoop(t, States, i.ingredientState, [e]);
    AssignAllNoop(t, Types, i.ingredientType, [e]);
  }

  /** The update with the renamed ingredient saved once the three
      reassignments are done, as the handler's answer implies. */
  function UpdateIngredientSaved(t: Tables, id: Id, name: string, u: Id, st: Id, ty: Id): (Tables, Result<Entry>) {
    var (t1, r1) := UpdateIngredient(t, id, name, u, st, ty);
    if r1.Err? then (t1, r1)
    else
      var (t2, w) := PutIngredient(t1, id, r1.value.1);
      if w == Written then (t2, r1)
      else if w == UniqueViolation then (t2, Err(Conflict))
      else (t2, Err(Internal))
  }

  /** The corrected update stores exactly what it answers: the new name, the
      new references and the old stock; and it keeps every counter right. */
  lemma UpdateIngredientSavedStoresAnswer(t: Tables, id: Id, name: string, u: Id, st: Id, ty: Id)
    requires UpdateIngredientSaved(t, id, name, u, st, ty).1.Ok?
    ensures var (t', r) := UpdateIngredientSaved(t, id, name, u, st, ty);
      && id in t.ingredients
      && r.value == (id, Ingredient(name, u, st, ty, t.ingredients[id].currentStock))
      && id in t'.ingredients && t'.ingredients[id] == r.value.1
      && (WellFormed(t) && Consistent(t) ==> Consistent(t'))
  {
    UpdateIngredientEffect(t, id, name, u, st, ty);
    var (t1, r1) := UpdateIngredient(t, id, name, u, st, ty);
    if WellFormed(t) && Consistent(t) {
      UpdateIngredientKeepsInvariant(t, id, name, u, st, ty);
      RewriteKeepsConsistent(t1, id, r1.value.1);
    }
  }
}
