/** `MeasurementUnitRepository`, `IngredientStateRepository` and
    `IngredientTypeRepository` over the store: a new row is filled in and
    saved, an update loads the row, overwrites its columns and saves it back,
    and a listing reads the whole table. Each method is proved to do what its
    value-level definition in `CatalogRows` says. */
module CatalogRepositories {
  import opened Domain
  import opened Persistence
  import opened Listing
  import opened CatalogRows
  import opened Stores

  /** `createMeasurementUnit(dto)`: a repeated name is Conflict. */
  method CreateMeasurementUnit(s: Store, name: string, precision: int, abbreviation: string)
    returns (r: Result<(Id, MeasurementUnit)>)
    modifies s
    ensures (s.Snapshot(), r) == CreateUnit(old(s.Snapshot()), name, precision, abbreviation)
  {
    var id := s.Allocate();
    var u := MeasurementUnit(name, precision, abbreviation, 0);
    var w := s.SaveUnit(id, u);
    if w == Written {
      r := Ok((id, u));
    } else {
      r := Err(Conflict);
    }
  }

  method CreateIngredientState(s: Store, name: string) returns (r: Result<(Id, IngredientState)>)
    modifies s
    ensures (s.Snapshot(), r) == CreateState(old(s.Snapshot()), name)
  {
    var id := s.Allocate();
    var st := IngredientState(name, 0);
    var w := s.SaveState(id, st);
    if w == Written {
      r := Ok((id, st));
    } else {
      r := Err(Conflict);
    }
  }

  method CreateIngredientType(s: Store, name: string) returns (r: Result<(Id, IngredientType)>)
    modifies s
    ensures (s.Snapshot(), r) == CreateType(old(s.Snapshot()), name)
  {
    var id := s.Allocate();
    var ty := IngredientType(name, 0);
    var w := s.SaveType(id, ty);
    if w == Written {
      r := Ok((id, ty));
    } else {
      r := Err(Conflict);
    }
  }

  /** `getMeasurementUnits()`: every stored unit, in key order. */
  function GetMeasurementUnits(s: Store): (r: seq<(Id, MeasurementUnit)>)
    reads s
    ensures WellFormed(s.Snapshot()) ==> forall e :: e in r <==> e.0 in s.units && s.units[e.0] == e.1
    ensures forall i, j :: 0 <= i < j < |r| ==> r[i].0 < r[j].0
  {
    Rows(s.units, s.nextId)
  }

  function GetIngredientStates(s: Store): (r: seq<(Id, IngredientState)>)
    reads s
    ensures WellFormed(s.Snapshot()) ==> forall e :: e in r <==> e.0 in s.states && s.states[e.0] == e.1
    ensures forall i, j :: 0 <= i < j < |r| ==> r[i].0 < r[j].0
  {
    Rows(s.states, s.nextId)
  }

  function GetIngredientTypes(s: Store): (r: seq<(Id, IngredientType)>)
    reads s
    ensures WellFormed(s.Snapshot()) ==> forall e :: e in r <==> e.0 in s.types && s.types[e.0] == e.1
    ensures forall i, j :: 0 <= i < j < |r| ==> r[i].0 < r[j].0
  {
    Rows(s.types, s.nextId)
  }

  /** `updateMeasurementUnit(id, dto)`: an unknown id is NotFound, a name held
      by another unit Conflict. */
  method UpdateMeasurementUnit(s: Store, id: Id, name: string, abbreviation: string, precision: int)
    returns (r: Result<MeasurementUnit>)
    modifies s
    ensures (s.Snapshot(), r) == UpdateUnit(old(s.Snapshot()), id, name, abbreviation, precision)
  {
    if id !in s.units {
      return Err(NotFound);
    }
    var u := s.units[id].(name := name, abbreviation := abbreviation, precision := precision);
    var w := s.SaveUnit(id, u);
    if w == Written {
      r := Ok(u);
    } else {
      r := Err(Conflict);
    }
  }

  /** `updateIngredientState(id, dto)`: the row is not checked for, so an
      unknown id fails while the handler writes to it. */
  method UpdateIngredientState(s: Store, id: Id, name: string) returns (r: Result<IngredientState>)
    modifies s
    ensures (s.Snapshot(), r) == UpdateState(old(s.Snapshot()), id, name)
  {
    if id !in s.states {
      return Err(Internal);
    }
    var st := s.states[id].(name := name);
    var w := s.SaveState(id, st);
    if w == Written {
      r := Ok(st);
    } else {
      r := Err(Conflict);
    }
  }

  method UpdateIngredientType(s: Store, id: Id, name: string) returns (r: Result<IngredientType>)
    modifies s
    ensures (s.Snapshot(), r) == UpdateType(old(s.Snapshot()), id, name)
  {
    if id !in s.types {
      return Err(Internal);
    }
    var ty := s.types[id].(name := name);
    var w := s.SaveType(id, ty);
    if w == Written {
      r := Ok(ty);
    } else {
      r := Err(Conflict);
    }
  }
}
