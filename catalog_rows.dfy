/** `MeasurementUnitRepository`, `IngredientStateRepository` and
    `IngredientTypeRepository` on the value level: creating a catalog row with
    its counter at 0 and renaming one, a repeated name reported as Conflict. */
module CatalogRows {
  import opened Domain
  import opened Persistence
  import opened Counting

  /** `createMeasurementUnit({ name, precision, abbreviation })`. */
  function CreateUnit(t: Tables, name: string, precision: int, abbreviation: string)
    : (Tables, Result<(Id, MeasurementUnit)>)
  {
    var (t1, id) := Allocate(t);
    var u := MeasurementUnit(name, precision, abbreviation, 0);
    var (t2, w) := PutUnit(t1, id, u);
    if w == Written then (t2, Ok((id, u))) else (t2, Err(Conflict))
  }

  /** `createIngredientState({ name })`. */
  function CreateState(t: Tables, name: string): (Tables, Result<(Id, IngredientState)>) {
    var (t1, id) := Allocate(t);
    var st := IngredientState(name, 0);
    var (t2, w) := PutState(t1, id, st);
    if w == Written then (t2, Ok((id, st))) else (t2, Err(Conflict))
  }

  /** `createIngredientType({ name })`. */
  function CreateType(t: Tables, name: string): (Tables, Result<(Id, IngredientType)>) {
    var (t1, id) := Allocate(t);
    var ty := IngredientType(name, 0);
    var (t2, w) := PutType(t1, id, ty);
    if w == Written then (t2, Ok((id, ty))) else (t2, Err(Conflict))
  }

  /** `updateMeasurementUnit(id, { name, abbreviation, precision })`: an
      unknown id is NotFound. */
  function UpdateUnit(t: Tables, id: Id, name: string, abbreviation: string, precision: int)
    : (Tables, Result<MeasurementUnit>)
  {
    if id !in t.units then (t, Err(NotFound))
    else
      var u := t.units[id].(name := name, abbreviation := abbreviation, precision := precision);
      var (t1, w) := PutUnit(t, id, u);
      if w == Written then (t1, Ok(u)) else (t1, Err(Conflict))
  }

  /** `updateIngredientState(id, { name })`: there is no NotFound guard, so an
      unknown id makes the handler write to an undefined row and fail with an
      internal error. */
  function UpdateState(t: Tables, id: Id, name: string): (Tables, Result<IngredientState>) {
    if id !in t.states then (t, Err(Internal))
    else
      var st := t.states[id].(name := name);
      var (t1, w) := PutState(t, id, st);
      if w == Written then (t1, Ok(st)) else (t1, Err(Conflict))
  }

  /** `updateIngredientType(id, { name })`, likewise without a NotFound guard. */
  function UpdateType(t: Tables, id: Id, name: string): (Tables, Result<IngredientType>) {
    if id !in t.types then (t, Err(Internal))
    else
      var ty := t.types[id].(name := name);
      var (t1, w) := PutType(t, id, ty);
      if w == Written then (t1, Ok(ty)) else (t1, Err(Conflict))
  }

  /** A new key is free in every catalog and referenced by no ingredient. */
  lemma NextKeyUnused(t: Tables, c: Catalog)
    requires WellFormed(t)
    ensures !InCatalog(t, c, t.next) && !InUse(t.ingredients, c, t.next)
    ensures t.units - {t.next} == t.units && t.states - {t.next} == t.states && t.types - {t.next} == t.types
  {
    forall k | k in t.ingredients
      ensures Ref(c, t.ingredients[k]) != t.next
    {
      assert RefsExist(t, t.ingredients[k]);
    }
  }

  /** Creating a unit: Conflict exactly when another unit has the name, and
      then no row is added; otherwise the new row sits at the next key with
      the given columns and a counter of 0. */
  lemma CreateUnitEffect(t: Tables, name: string, precision: int, abbreviation: string)
    requires WellFormed(t)
    ensures var (t', r) := CreateUnit(t, name, precision, abbreviation);
      && (r == Err(Conflict) <==> NameUsed(t.units, UnitName, name))
      && (r.Err? ==> t' == t.(next := t.next + 1))
      && (r.Ok? ==> && r.value == (t.next, MeasurementUnit(name, precision, abbreviation, 0))
                    && t' == t.(units := t.units[t.next := r.value.1], next := t.next + 1))
  {
    NextKeyUnused(t, Units);
  }

  lemma CreateStateEffect(t: Tables, name: string)
    requires WellFormed(t)
    ensures var (t', r) := CreateState(t, name);
      && (r == Err(Conflict) <==> NameUsed(t.states, StateName, name))
      && (r.Err? ==> t' == t.(next := t.next + 1))
      && (r.Ok? ==> && r.value == (t.next, IngredientState(name, 0))
                    && t' == t.(states := t.states[t.next := r.value.1], next := t.next + 1))
  {
    NextKeyUnused(t, States);
  }

  lemma CreateTypeEffect(t: Tables, name: string)
    requires WellFormed(t)
    ensures var (t', r) := CreateType(t, name);
      && (r == Err(Conflict) <==> NameUsed(t.types, TypeName, name))
      && (r.Err? ==> t' == t.(next := t.next + 1))
      && (r.Ok? ==> && r.value == (t.next, IngredientType(name, 0))
                    && t' == t.(types := t.types[t.next := r.value.1], next := t.next + 1))
  {
    NextKeyUnused(t, Types);
  }

  /** A created unit, referenced by nobody, starts at 0: the constraints and
      the counters stay right. */
  lemma CreateUnitKeepsWellFormed(t: Tables, name: string, precision: int, abbreviation: string)
    requires WellFormed(t)
    ensures WellFormed(CreateUnit(t, name, precision, abbreviation).0)
  {
    AllocateKeepsWellFormed(t);
    PutUnitKeepsWellFormed(Allocate(t).0, t.next, MeasurementUnit(name, precision, abbreviation, 0));
  }

  lemma CreateUnitKeepsConsistent(t: Tables, name: string, precision: int, abbreviation: string)
    requires WellFormed(t) && Consistent(t)
    ensures Consistent(CreateUnit(t, name, precision, abbreviation).0)
  {
    CreateUnitEffect(t, name, precision, abbreviation);
    NextKeyUnused(t, Units);
    var t' := CreateUnit(t, name, precision, abbreviation).0;
    if CreateUnit(t, name, precision, abbreviation).1.Ok? {
      NewRowKeepsConsistent(t, t', Units, t.next);
    } else {
      ConsistentReadsRows(t, t');
    }
  }

  /** A created state, referenced by nobody, starts at 0: the constraints and
      the counters stay right. */
  lemma CreateStateKeepsWellFormed(t: Tables, name: string)
    requires WellFormed(t)
    ensures WellFormed(CreateState(t, name).0)
  {
    AllocateKeepsWellFormed(t);
    PutStateKeepsWellFormed(Allocate(t).0, t.next, IngredientState(name, 0));
  }

  lemma CreateStateKeepsConsistent(t: Tables, name: string)
    requires WellFormed(t) && Consistent(t)
    ensures Consistent(CreateState(t, name).0)
  {
    CreateStateEffect(t, name);
    NextKeyUnused(t, States);
    var t' := CreateState(t, name).0;
    if CreateState(t, name).1.Ok? {
      NewRowKeepsConsistent(t, t', States, t.next);
    } else {
      ConsistentReadsRows(t, t');
    }
  }

  /** A created type, referenced by nobody, starts at 0: the constraints and
      the counters stay right. */
  lemma CreateTypeKeepsWellFormed(t: Tables, name: string)
    requires WellFormed(t)
    ensures WellFormed(CreateType(t, name).0)
  {
    AllocateKeepsWellFormed(t);
    PutTypeKeepsWellFormed(Allocate(t).0, t.next, IngredientType(name, 0));
  }

  lemma CreateTypeKeepsConsistent(t: Tables, name: string)
    requires WellFormed(t) && Consistent(t)
    ensures Consistent(CreateType(t, name).0)
  {
    CreateTypeEffect(t, name);
    NextKeyUnused(t, Types);
    var t' := CreateType(t, name).0;
    if CreateType(t, name).1.Ok? {
      NewRowKeepsConsistent(t, t', Types, t.next);
    } else {
      ConsistentReadsRows(t, t');
    }
  }

  /** Updating a unit: NotFound exactly for an unknown id; Conflict exactly
      when a different unit holds the name, so keeping its own name never
      clashes; otherwise name, abbreviation and precision are replaced and
      the counter is kept. A refusal changes nothing. */
  lemma UpdateUnitEffect(t: Tables, id: Id, name: string, abbreviation: string, precision: int)
    ensures var (t', r) := UpdateUnit(t, id, name, abbreviation, precision);
      && (r == Err(NotFound) <==> id !in t.units)
      && (id in t.units ==> (r == Err(Conflict) <==> NameUsed(t.units - {id}, UnitName, name)))
      && (WellFormed(t) && id in t.units && name == t.units[id].name ==> r.Ok?)
      && (r.Err? ==> t' == t)
      && (r.Ok? ==> && r.value == MeasurementUnit(name, precision, abbreviation, t.units[id].ingredientsAssigned)
                    && t' == t.(units := t.units[id := r.value]))
  {
    if WellFormed(t) && id in t.units {
      OwnNameFree(t.units, UnitName, id);
    }
  }

  /** Updating a state: an unknown id fails (Internal, not NotFound); Conflict
      exactly when a different state holds the name; otherwise only the name
      changes. */
  lemma UpdateStateEffect(t: Tables, id: Id, name: string)
    ensures var (t', r) := UpdateState(t, id, name);
      && (r == Err(Internal) <==> id !in t.states)
      && (id in t.states ==> (r == Err(Conflict) <==> NameUsed(t.states - {id}, StateName, name)))
      && (WellFormed(t) && id in t.states && name == t.states[id].name ==> r.Ok?)
      && (r.Err? ==> t' == t)
      && (r.Ok? ==> r.value == IngredientState(name, t.states[id].ingredientsAssigned)
                    && t' == t.(states := t.states[id := r.value]))
  {
    if WellFormed(t) && id in t.states {
      OwnNameFree(t.states, StateName, id);
    }
  }

  lemma UpdateTypeEffect(t: Tables, id: Id, name: string)
    ensures var (t', r) := UpdateType(t, id, name);
      && (r == Err(Internal) <==> id !in t.types)
      && (id in t.types ==> (r == Err(Conflict) <==> NameUsed(t.types - {id}, TypeName, name)))
      && (WellFormed(t) && id in t.types && name == t.types[id].name ==> r.Ok?)
      && (r.Err? ==> t' == t)
      && (r.Ok? ==> r.value == IngredientType(name, t.types[id].ingredientsAssigned)
                    && t' == t.(types := t.types[id := r.value]))
  {
    if WellFormed(t) && id in t.types {
      OwnNameFree(t.types, TypeName, id);
    }
  }

  /** A rename keeps the constraints and, since no counter moves, the
      counters right. */
  lemma UpdateUnitKeepsInvariant(t: Tables, id: Id, name: string, abbreviation: string, precision: int)
    requires WellFormed(t) && Consistent(t)
    ensures WellFormed(UpdateUnit(t, id, name, abbreviation, precision).0)
    ensures Consistent(UpdateUnit(t, id, name, abbreviation, precision).0)
  {
    if id in t.units {
      var u := t.units[id].(name := name, abbreviation := abbreviation, precision := precision);
      PutUnitKeepsWellFormed(t, id, u);
      CountersKeptKeepConsistent(t, UpdateUnit(t, id, name, abbreviation, precision).0);
    }
  }

  lemma UpdateStateKeepsInvariant(t: Tables, id: Id, name: string)
    requires WellFormed(t) && Consistent(t)
    ensures WellFormed(UpdateState(t, id, name).0) && Consistent(UpdateState(t, id, name).0)
  {
    if id in t.states {
      PutStateKeepsWellFormed(t, id, t.states[id].(name := name));
      CountersKeptKeepConsistent(t, UpdateState(t, id, name).0);
    }
  }

  lemma UpdateTypeKeepsInvariant(t: Tables, id: Id, name: string)
    requires WellFormed(t) && Consistent(t)
    ensures WellFormed(UpdateType(t, id, name).0) && Consistent(UpdateType(t, id, name).0)
  {
    if id in t.types {
      PutTypeKeepsWellFormed(t, id, t.types[id].(name := name));
      CountersKeptKeepConsistent(t, UpdateType(t, id, name).0);
    }
  }
}
