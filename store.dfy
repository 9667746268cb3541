/** The database as one mutable object: the five tables and the key counter,
    with the TypeORM primitives (`save`, `delete`, a bulk `DELETE … WHERE`) as
    methods that change the tables in place. Each primitive is proved to do
    what the value-level definition in `Persistence` says. */
module Stores {
  import opened Domain
  import opened Persistence

  class Store {
    var units: map<Id, MeasurementUnit>
    var states: map<Id, IngredientState>
    var types: map<Id, IngredientType>
    var ingredients: map<Id, Ingredient>
    var inflows: map<Id, Inflow>
    var nextId: nat

    /** The tables as a value. */
    function Snapshot(): Tables
      reads this
    {
      Tables(units, states, types, ingredients, inflows, nextId)
    }

    /** A fresh database. */
    constructor ()
      ensures Snapshot() == Empty
    {
      units := map[];
      states := map[];
      types := map[];
      ingredients := map[];
      inflows := map[];
      nextId := 0;
    }

    /** Hands out the next primary key. */
    method Allocate() returns (id: Id)
      modifies this
      ensures (Snapshot(), id) == Persistence.Allocate(old(Snapshot()))
    {
      id := nextId;
      nextId := nextId + 1;
    }

    method SaveUnit(id: Id, u: MeasurementUnit) returns (w: WriteStatus)
      modifies this
      ensures (Snapshot(), w) == PutUnit(old(Snapshot()), id, u)
    {
      if NameUsed(units - {id}, UnitName, u.name) {
        w := UniqueViolation;
      } else {
        units := units[id := u];
        w := Written;
      }
    }

    method SaveState(id: Id, st: IngredientState) returns (w: WriteStatus)
      modifies this
      ensures (Snapshot(), w) == PutState(old(Snapshot()), id, st)
    {
      if NameUsed(states - {id}, StateName, st.name) {
        w := UniqueViolation;
      } else {
        states := states[id := st];
        w := Written;
      }
    }

    method SaveType(id: Id, ty: IngredientType) returns (w: WriteStatus)
      modifies this
      ensures (Snapshot(), w) == PutType(old(Snapshot()), id, ty)
    {
      if NameUsed(types - {id}, TypeName, ty.name) {
        w := UniqueViolation;
      } else {
        types := types[id := ty];
        w := Written;
      }
    }

    /** Saves catalog row `id` of `c` back with its counter set to `v`. */
    method SaveAssigned(c: Catalog, id: Id, v: int) returns (w: WriteStatus)
      requires InCatalog(Snapshot(), c, id)
      modifies this
      ensures (Snapshot(), w) == PutAssigned(old(Snapshot()), c, id, v)
    {
      match c
      case Units => w := SaveUnit(id, units[id].(ingredientsAssigned := v));
      case States => w := SaveState(id, states[id].(ingredientsAssigned := v));
      case Types => w := SaveType(id, types[id].(ingredientsAssigned := v));
    }

    method SaveIngredient(id: Id, i: Ingredient) returns (w: WriteStatus)
      modifies this
      ensures (Snapshot(), w) == PutIngredient(old(Snapshot()), id, i)
    {
      if NameUsed(ingredients - {id}, IngredientName, i.name) {
        w := UniqueViolation;
      } else if !(i.measurementUnit in units && i.ingredientState in states && i.ingredientType in types) {
        w := ForeignKeyViolation;
      } else {
        ingredients := ingredients[id := i];
        w := Written;
      }
    }

    method SaveInflow(id: Id, f: Inflow) returns (w: WriteStatus)
      modifies this
      ensures (Snapshot(), w) == PutInflow(old(Snapshot()), id, f)
    {
      if f.additionalDetails.None? {
        w := NotNullViolation;
      } else if f.ingredientId !in ingredients {
        w := ForeignKeyViolation;
      } else {
        inflows := inflows[id := f];
        w := Written;
      }
    }

    method DeleteCatalogRow(c: Catalog, id: Id) returns (d: DeleteStatus)
      modifies this
      ensures (Snapshot(), d) == RemoveCatalogRow(old(Snapshot()), c, id)
    {
      if !InCatalog(Snapshot(), c, id) {
        d := Affected(0);
      } else if InUse(ingredients, c, id) {
        d := Referenced;
      } else {
        match c {
          case Units => units := units - {id};
          case States => states := states - {id};
          case Types => types := types - {id};
        }
        d := Affected(1);
      }
    }

    method DeleteIngredient(id: Id) returns (d: DeleteStatus)
      modifies this
      ensures (Snapshot(), d) == RemoveIngredient(old(Snapshot()), id)
    {
      if id !in ingredients {
        d := Affected(0);
      } else if exists k :: k in inflows && inflows[k].ingredientId == id {
        d := Referenced;
      } else {
        ingredients := ingredients - {id};
        d := Affected(1);
      }
    }

    method DeleteInflow(id: Id) returns (d: DeleteStatus)
      modifies this
      ensures (Snapshot(), d) == RemoveInflow(old(Snapshot()), id)
    {
      if id !in inflows {
        d := Affected(0);
      } else {
        inflows := inflows - {id};
        d := Affected(1);
      }
    }

    /** `DELETE FROM inflow WHERE ingredient_id = iid`. */
    method DeleteInflowsOf(iid: Id)
      modifies this
      ensures Snapshot() == RemoveInflowsOf(old(Snapshot()), iid)
    {
      inflows := map k | k in inflows && inflows[k].ingredientId != iid :: inflows[k];
    }
  }
}
