/** Rows, references and outcomes shared by every layer of the inventory backend:
    the five tables (measurement units, ingredient states, ingredient types,
    ingredients, inflows), the three catalogs an ingredient points at, and the
    error taxonomy the controllers report. */
module Domain {

  /** Primary keys. The tables use generated UUIDs; here the store hands out
      naturals in increasing order. */
  type Id = nat

  /** The HTTP exceptions the services and controllers raise. */
  datatype Error = NotFound | Conflict | BadRequest | Internal

  datatype Result<T> = Ok(value: T) | Err(error: Error)

  datatype Option<T> = None | Some(value: T)

  /** What the relational store answers to one `save()` of a row: PostgreSQL's
      unique_violation (23505), foreign_key_violation (23503) and
      not_null_violation (23502). */
  datatype WriteStatus = Written | UniqueViolation | ForeignKeyViolation | NotNullViolation

  /** What the relational store answers to one `delete(id)`: the affected-row
      count, or a refusal because another table still references the row. */
  datatype DeleteStatus = Affected(rows: nat) | Referenced

  /** Table `measurement_units`; `precision` is the number of decimal places
      used when quantities of ingredients in this unit are rounded. The column
      is a plain integer, so a negative precision can be stored too. */
  datatype MeasurementUnit = MeasurementUnit(name: string, precision: int, abbreviation: string,
                                             ingredientsAssigned: int)

  /** Table `ingredient_states`. */
  datatype IngredientState = IngredientState(name: string, ingredientsAssigned: int)

  /** Table `ingredient_types`. */
  datatype IngredientType = IngredientType(name: string, ingredientsAssigned: int)

  /** Table `ingredients`: the three catalog references are foreign keys. */
  datatype Ingredient = Ingredient(name: string, measurementUnit: Id, ingredientState: Id,
                                   ingredientType: Id, currentStock: real)

  /** Table `inflow`: one recorded stock addition. The `date` column is a day number.
      `additionalDetails` is optional in a request but its column is NOT NULL, so
      the entity object may hold `None` while no stored row does. */
  datatype Inflow = Inflow(ingredientId: Id, date: int, reason: string, price: real,
                           quantity: real, additionalDetails: Option<string>)

  /** The three catalogs whose rows carry an `ingredientsAssigned` counter. */
  datatype Catalog = Units | States | Types

  /** One row of some catalog, as returned by the counter update. */
  datatype CatalogRow = UnitRow(unit: MeasurementUnit) | StateRow(state: IngredientState)
                      | TypeRow(kind: IngredientType)
  {
    function IngredientsAssigned(): int {
      match this
      case UnitRow(u) => u.ingredientsAssigned
      case StateRow(st) => st.ingredientsAssigned
      case TypeRow(ty) => ty.ingredientsAssigned
    }
  }

  /** All five tables at one moment, and the next key the database will hand out. */
  datatype Tables = Tables(units: map<Id, MeasurementUnit>, states: map<Id, IngredientState>,
                           types: map<Id, IngredientType>, ingredients: map<Id, Ingredient>,
                           inflows: map<Id, Inflow>, next: nat)

  /** The database on first start. */
  const Empty := Tables(map[], map[], map[], map[], map[], 0)

  /** The reference an ingredient holds into catalog `c`. */
  function Ref(c: Catalog, i: Ingredient): Id {
    match c
    case Units => i.measurementUnit
    case States => i.ingredientState
    case Types => i.ingredientType
  }

  /** The ingredient with its reference into `c` switched to `target`. */
  function WithRef(c: Catalog, i: Ingredient, target: Id): (r: Ingredient)
    ensures Ref(c, r) == target
    ensures forall d :: d != c ==> Ref(d, r) == Ref(d, i)
    ensures r.name == i.name && r.currentStock == i.currentStock
  {
    match c
    case Units => i.(measurementUnit := target)
    case States => i.(ingredientState := target)
    case Types => i.(ingredientType := target)
  }

  /** The ingredient holds the same three references as `j`. */
  predicate SameRefs(i: Ingredient, j: Ingredient) {
    i.measurementUnit == j.measurementUnit && i.ingredientState == j.ingredientState
    && i.ingredientType == j.ingredientType
  }

  predicate InCatalog(t: Tables, c: Catalog, id: Id) {
    match c
    case Units => id in t.units
    case States => id in t.states
    case Types => id in t.types
  }

  /** The `ingredientsAssigned` counter of row `id` of catalog `c`. */
  function Assigned(t: Tables, c: Catalog, id: Id): int
    requires InCatalog(t, c, id)
  {
    match c
    case Units => t.units[id].ingredientsAssigned
    case States => t.states[id].ingredientsAssigned
    case Types => t.types[id].ingredientsAssigned
  }

  function RowOf(t: Tables, c: Catalog, id: Id): (r: CatalogRow)
    requires InCatalog(t, c, id)
    ensures r.IngredientsAssigned() == Assigned(t, c, id)
  {
    match c
    case Units => UnitRow(t.units[id])
    case States => StateRow(t.states[id])
    case Types => TypeRow(t.types[id])
  }

  /** The tables with the counter of row `id` of catalog `c` set to `v`, every
      other column and row as before. */
  function WithAssigned(t: Tables, c: Catalog, id: Id, v: int): (r: Tables)
    requires InCatalog(t, c, id)
    ensures r.ingredients == t.ingredients && r.inflows == t.inflows && r.next == t.next
    ensures forall d, x :: InCatalog(r, d, x) <==> InCatalog(t, d, x)
    ensures Assigned(r, c, id) == v
    ensures forall d, x :: InCatalog(t, d, x) && (d != c || x != id) ==> Assigned(r, d, x) == Assigned(t, d, x)
  {
    match c
    case Units => t.(units := t.units[id := t.units[id].(ingredientsAssigned := v)])
    case States => t.(states := t.states[id := t.states[id].(ingredientsAssigned := v)])
    case Types => t.(types := t.types[id := t.types[id].(ingredientsAssigned := v)])
  }

  /** Some ingredient references row `id` of catalog `c` (the foreign key that
      blocks deleting it). */
  predicate InUse(ings: map<Id, Ingredient>, c: Catalog, id: Id) {
    exists k :: k in ings && Ref(c, ings[k]) == id
  }

  /** Every reference of `i` names an existing catalog row. */
  predicate RefsExist(t: Tables, i: Ingredient) {
    i.measurementUnit in t.units && i.ingredientState in t.states && i.ingredientType in t.types
  }

  function UnitName(u: MeasurementUnit): string { u.name }
  function StateName(st: IngredientState): string { st.name }
  function TypeName(ty: IngredientType): string { ty.name }
  function IngredientName(i: Ingredient): string { i.name }

  /** Some row of `m` carries `name` (the `@Column({ unique: true })` check). */
  predicate NameUsed<V>(m: map<Id, V>, nameOf: V -> string, name: string) {
    exists k :: k in m && nameOf(m[k]) == name
  }

  /** Some row of `m` that carries `name`. */
  ghost function KeyOf<V>(m: map<Id, V>, nameOf: V -> string, name: string): (k: Id)
    requires NameUsed(m, nameOf, name)
    ensures k in m && nameOf(m[k]) == name
  {
    var k :| k in m && nameOf(m[k]) == name; k
  }

  /** No two rows of `m` carry the same name: every row is the one row its
      name picks out. */
  ghost predicate UniqueNames<V>(m: map<Id, V>, nameOf: V -> string) {
    forall a :: a in m ==> KeyOf(m, nameOf, nameOf(m[a])) == a
  }

  lemma UniqueNamesPairwise<V>(m: map<Id, V>, nameOf: V -> string, a: Id, b: Id)
    requires UniqueNames(m, nameOf) && a in m && b in m && nameOf(m[a]) == nameOf(m[b])
    ensures a == b
  {
    assert KeyOf(m, nameOf, nameOf(m[a])) == a;
    assert KeyOf(m, nameOf, nameOf(m[b])) == b;
  }

  lemma UniqueNamesFromPairwise<V>(m: map<Id, V>, nameOf: V -> string)
    requires forall a, b :: a in m && b in m && nameOf(m[a]) == nameOf(m[b]) ==> a == b
    ensures UniqueNames(m, nameOf)
  {
    forall a | a in m
      ensures KeyOf(m, nameOf, nameOf(m[a])) == a
    {
      var k := KeyOf(m, nameOf, nameOf(m[a]));
    }
  }

  /** The structural invariant the database's constraints maintain: keys below
      the next key to hand out, every foreign key resolves, names unique. */
  ghost predicate WellFormed(t: Tables) {
    && (forall k :: k in t.units ==> k < t.next)
    && (forall k :: k in t.states ==> k < t.next)
    && (forall k :: k in t.types ==> k < t.next)
    && (forall k :: k in t.ingredients ==> k < t.next)
    && (forall k :: k in t.inflows ==> k < t.next)
    && (forall k :: k in t.ingredients ==> RefsExist(t, t.ingredients[k]))
    && (forall k :: k in t.inflows ==> t.inflows[k].ingredientId in t.ingredients)
    && UniqueNames(t.units, UnitName)
    && UniqueNames(t.states, StateName)
    && UniqueNames(t.types, TypeName)
    && UniqueNames(t.ingredients, IngredientName)
  }

  /** While names are unique, no other row holds the name of row `id`. */
  lemma OwnNameFree<V>(m: map<Id, V>, nameOf: V -> string, id: Id)
    requires UniqueNames(m, nameOf) && id in m
    ensures !NameUsed(m - {id}, nameOf, nameOf(m[id]))
  {
    forall k | k in m - {id}
      ensures nameOf(m[k]) != nameOf(m[id])
    {
      assert KeyOf(m, nameOf, nameOf(m[k])) == k;
      assert KeyOf(m, nameOf, nameOf(m[id])) == id;
    }
  }

  /** Writing a row whose name no other row holds keeps the names unique. */
  lemma UniqueAfterPut<V>(m: map<Id, V>, nameOf: V -> string, id: Id, v: V)
    requires UniqueNames(m, nameOf)
    requires !NameUsed(m - {id}, nameOf, nameOf(v))
    ensures UniqueNames(m[id := v], nameOf)
  {
    var m' := m[id := v];
    forall a, b | a in m' && b in m' && nameOf(m'[a]) == nameOf(m'[b])
      ensures a == b
    {
      if a != id && b != id {
        UniqueNamesPairwise(m, nameOf, a, b);
      } else if a != id {
        assert a in m - {id};
      } else if b != id {
        assert b in m - {id};
      }
    }
    UniqueNamesFromPairwise(m', nameOf);
  }
}
