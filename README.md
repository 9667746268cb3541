# Restaurant inventory backend: ingredient catalogs, counters and inflows

This project models the core of a NestJS/TypeORM backend for a restaurant
inventory, and proves properties of that model in Dafny.

The backend keeps five tables:

- measurement units, ingredient states and ingredient types: the three
  *catalogs*;
- ingredients, each pointing at one row of every catalog;
- inflows, a ledger of stock additions.

Every catalog row carries an `ingredientsAssigned` counter. The services and
controllers keep that counter in step by hand whenever an ingredient is
created, deleted or moved to another row. The model's central invariant,
`Counting.Consistent`, says that every counter equals the number of
ingredients that point at its row. The project proves which operations
preserve it. For the operations that break it, it proves how they break it.

## Layers

The model has three layers.

- **Tables** (`Domain`, `Persistence`) are the database as a value. A TypeORM
  `save()` is an upsert that the database can refuse. It is refused with
  unique_violation when a `unique` name would repeat, and with
  foreign_key_violation when a reference would dangle. A `delete()` of a row
  that is still referenced is refused, because the relations use the default
  NO ACTION. `Domain.WellFormed` collects the constraints the database
  maintains: keys below the next key, references resolving, unique names.
- **Behaviour** (`CatalogLogic`, `CatalogRows`, `Assignment`,
  `IngredientLogic`, `InflowLogic`, `Listing`, `Rounding`, `Counting`) gives
  every service, repository and controller operation as a function from
  tables to tables and a `Result`. Lemmas state what each one does, which
  invariants it keeps, and what it does in the tests' scenarios.
- **The store** (`Stores.Store`) is one mutable object holding the five tables
  as `map` fields. The repositories, services and controllers
  (`CatalogRepositories`, `CatalogServices`, `CatalogControllers`,
  `IngredientRepository`, `IngredientsService`, `IngredientsController`,
  `InflowRepository`, `InflowsService`, `InflowsController`) are methods over
  it, in the same order of calls as the source. Each method is proved to leave
  exactly the tables, and return exactly the result, that its behaviour
  function gives for the old tables. The reassignment loop
  (`CatalogServices.AssignToIngredient`) is a `while` loop. Its invariant ties
  what has been done so far to the function `Assignment.AssignAll`.

Operations that run together under `Promise.all` are issued in the order
they are written. All of them run, and the first failure in that order is
reported. The three catalog services are one definition here, parameterised
by `Domain.Catalog`. In the source only the unit service is complete. The
state service defines the counter update but not the reassignment loop, and
the type service defines neither; their tests describe both, and those
counterparts are modelled on the unit service as the tests describe them.

Some things the source has no explicit check for are modelled from the
database's behaviour:

- Updating a state or type with an unknown id writes to an undefined row. The
  handler then fails with an internal error (`CatalogRows.UpdateState`).
- If renaming an ingredient during reassignment hits a name clash, the two
  counters of that step have already moved when the save is refused
  (`Assignment.AssignOne`).
- An inflow without `additionalDetails` passes validation, since the request
  field is optional, but its column is NOT NULL. The insert is refused with
  not_null_violation, after the controller has already raised the stock
  (`InflowLogic.CreateInflowWithoutDetailsKeepsStock`).
- A precision is a plain integer column, so it can be negative or above 100.
  `toFixed` then throws a RangeError and the stock update or inflow insert
  fails Internal (`Rounding.FixedDigits`).

## Model

| member | source | states |
|---|---|---|
| Domain.WithAssigned | src/ingredients/measurement-units/measurement-units.service.ts:70 | the counter of that one row becomes `v`; every other row, counter and table is as before |
| Domain.OwnNameFree | src/ingredients/measurement-units/measurement-unit.entity.ts:15-16 | while names are unique, no other row holds the row's own name |
| Domain.UniqueAfterPut | src/ingredients/ingredient.entity.ts:20-21 | writing a row whose name no other row holds keeps the names unique |
| Domain.UniqueNamesPairwise | src/ingredients/measurement-units/measurement-unit.entity.ts:15-16 | while names are unique, two rows with the same name are the same row |
| Domain.UniqueNamesFromPairwise | src/ingredients/ingredient-states/ingredient-state.entity.ts:15-16 | rows that pairwise differ in name satisfy the uniqueness constraint |
| Domain.WithRef | src/ingredients/measurement-units/measurement-units.service.ts:101-104 | the ingredient references the target in that catalog and keeps its other references, name and stock |
| Persistence.PutAssigned | src/ingredients/measurement-units/measurement-units.service.ts:70-76 | saving a counter back either writes exactly that counter or is refused as unique_violation with no change |
| Persistence.RemoveInflowsOf | src/inflows/inflow.repository.ts:57-61 | the bulk delete keeps exactly the inflows of other ingredients, unchanged, and touches no other table |
| Persistence.PutUnit | src/ingredients/measurement-units/measurement-unit.repository.ts:23-24 | the unit upsert: unique_violation with no change, or that one row written (proved in `Persistence.RefusedWriteChangesNothing` and `Persistence.PutUnitKeepsWellFormed`) |
| Persistence.PutState | src/ingredients/ingredient-states/ingredient-state.repository.ts:20-21 | the state upsert: unique_violation with no change, or that one row written (proved in `Persistence.PutStateKeepsWellFormed`) |
| Persistence.PutType | src/ingredients/ingredient-types/ingredient-type.repository.ts:20-21 | the type upsert: unique_violation with no change, or that one row written (proved in `Persistence.PutTypeKeepsWellFormed`) |
| Persistence.PutIngredient | src/ingredients/ingredient.repository.ts:27-28 | the ingredient upsert: unique_violation, then foreign_key_violation, each with no change, or that one row written (proved in `Persistence.RefusedWriteChangesNothing` and `Persistence.PutIngredientKeepsWellFormed`) |
| Persistence.PutInflow | src/inflows/inflow.entity.ts:40-41 | the inflow insert: not_null_violation without details, then foreign_key_violation, each with no change, or that one row written (proved in `Persistence.RefusedWriteChangesNothing` and `Persistence.PutInflowKeepsWellFormed`) |
| Persistence.RemoveCatalogRow | src/ingredients/measurement-units/measurement-units.service.ts:47 | the catalog delete: refused while an ingredient references the row, otherwise the affected count (proved in `Persistence.RemoveCatalogRowKeepsWellFormed`) |
| Persistence.RemoveIngredient | src/ingredients/ingredients.service.ts:55 | the ingredient delete: refused while it has inflows, otherwise the affected count (proved in `Persistence.RemoveIngredientKeepsWellFormed`) |
| Persistence.RemoveInflow | src/inflows/inflows.service.ts:43 | the inflow delete with its affected count (proved in `Persistence.RemoveInflowKeepsWellFormed`) |
| Persistence.RefusedWriteChangesNothing | src/ingredients/ingredient.repository.ts:27-35 | a refused save of a unit, ingredient or inflow leaves the tables as they were |
| Persistence.PutAssignedSucceeds | src/ingredients/measurement-units/measurement-units.service.ts:72-76 | while the constraints hold, saving a counter back always succeeds and sets that counter |
| Persistence.WithAssignedKeepsWellFormed | src/ingredients/measurement-units/measurement-unit.entity.ts:24-25 | changing a counter keeps every database constraint |
| Persistence.PutAssignedKeepsWellFormed | src/ingredients/measurement-units/measurement-units.service.ts:72-76 | the counter save keeps every database constraint |
| Persistence.AllocateKeepsWellFormed | src/ingredients/ingredient.entity.ts:17-18 | handing out a fresh key keeps every database constraint |
| Persistence.PutUnitKeepsWellFormed | src/ingredients/measurement-units/measurement-unit.entity.ts:15-16 | a unit save keeps unit names unique and every constraint |
| Persistence.PutStateKeepsWellFormed | src/ingredients/ingredient-states/ingredient-state.entity.ts:15-16 | a state save keeps state names unique and every constraint |
| Persistence.PutTypeKeepsWellFormed | src/ingredients/ingredient-types/ingredient-type.entity.ts:15-16 | a type save keeps type names unique and every constraint |
| Persistence.PutIngredientKeepsWellFormed | src/ingredients/ingredient.entity.ts:20-45 | an ingredient save keeps names unique and every reference resolving |
| Persistence.PutInflowKeepsWellFormed | src/inflows/inflow.entity.ts:17-26 | an inflow save keeps every inflow's ingredient resolving |
| Persistence.RemoveCatalogRowKeepsWellFormed | src/ingredients/ingredient.entity.ts:23-45 | deleting a catalog row (refused while referenced) leaves no dangling ingredient reference |
| Persistence.RemoveIngredientKeepsWellFormed | src/inflows/inflow.entity.ts:17-23 | deleting an ingredient (refused while it has inflows) leaves no dangling inflow |
| Persistence.RemoveInflowKeepsWellFormed | src/inflows/inflows.service.ts:42-43 | deleting an inflow keeps every constraint |
| Persistence.RemoveInflowsOfKeepsWellFormed | src/inflows/inflow.repository.ts:71-72 | the bulk inflow delete keeps every constraint |
| Stores.Store.Allocate | src/ingredients/ingredient.entity.ts:17-18 | the store hands out its next key and advances it |
| Stores.Store.SaveUnit | src/ingredients/measurement-units/measurement-unit.repository.ts:23-24 | the store's unit upsert does what `Persistence.PutUnit` says |
| Stores.Store.SaveState | src/ingredients/ingredient-states/ingredient-state.repository.ts:20-21 | the store's state upsert does what `Persistence.PutState` says |
| Stores.Store.SaveType | src/ingredients/ingredient-types/ingredient-type.repository.ts:20-21 | the store's type upsert does what `Persistence.PutType` says |
| Stores.Store.SaveAssigned | src/ingredients/measurement-units/measurement-units.service.ts:70-73 | the store's counter write-back does what `Persistence.PutAssigned` says |
| Stores.Store.SaveIngredient | src/ingredients/ingredient.repository.ts:27-28 | the store's ingredient upsert does what `Persistence.PutIngredient` says |
| Stores.Store.SaveInflow | src/inflows/inflow.repository.ts:31-32 | the store's inflow insert does what `Persistence.PutInflow` says |
| Stores.Store.DeleteCatalogRow | src/ingredients/measurement-units/measurement-units.service.ts:47 | the store's catalog delete does what `Persistence.RemoveCatalogRow` says |
| Stores.Store.DeleteIngredient | src/ingredients/ingredients.service.ts:55 | the store's ingredient delete does what `Persistence.RemoveIngredient` says |
| Stores.Store.DeleteInflow | src/inflows/inflows.service.ts:43 | the store's inflow delete does what `Persistence.RemoveInflow` says |
| Stores.Store.DeleteInflowsOf | src/inflows/inflow.repository.ts:57-61 | the store's bulk delete does what `Persistence.RemoveInflowsOf` says |
| Rounding.FixedDigits | src/ingredients/ingredient.repository.ts:100-102 | the digit counts `toFixed` accepts, 0 to 100 (used by `IngredientLogic.AddStockEffect` and `InflowLogic.CreateInflowRowEffect`) |
| Rounding.NearestInt | src/ingredients/ingredient.repository.ts:100-102 | the chosen integer is within one half of the input |
| Rounding.Round | src/ingredients/ingredient.repository.ts:100-102 | `toFixed` as exact decimal rounding, halves away from zero (proved in `Rounding.RoundOnGrid`, `Rounding.RoundError` and `Rounding.RoundIdempotent`) |
| Rounding.RoundOnGrid | src/ingredients/ingredient.repository.ts:100-102 | a rounded value has at most `precision` decimal places |
| Rounding.RoundFixesGrid | src/ingredients/ingredient.repository.ts:100-102 | rounding leaves a value that already has at most `precision` decimals unchanged |
| Rounding.RoundIdempotent | src/inflows/inflow.repository.ts:19-21 | rounding twice to the same precision is rounding once |
| Rounding.RoundError | src/ingredients/ingredient.repository.ts:100-102 | rounding moves a value by at most half a unit in the last kept decimal place |
| Rounding.RoundOdd | src/ingredients/ingredient.repository.ts:100-102 | rounding is symmetric: a negated value rounds to the negated result |
| Rounding.RoundExample | src/ingredients/ingredient.repository.spec.ts:18-35 | 5.46 rounded to one decimal place is 5.5 |
| Listing.Rows | src/ingredients/measurement-units/measurement-unit.repository.ts:39-47 | a table listing holds exactly the rows with key below the bound, in increasing key order |
| Listing.Restrict | src/ingredients/ingredient.repository.ts:49-51 | the filtered table holds exactly the rows whose key is among the requested ids |
| Listing.FilterIngredients | src/ingredients/ingredient.repository.ts:40-59 | with ids, exactly the listed ingredients; without, all of them; in key order |
| Listing.NewestFirstPairwise | src/inflows/inflow.repository.ts:42-45 | in a newest-first list every inflow is at least as recent as every later one |
| Listing.InsertByDate | src/inflows/inflow.repository.ts:42-45 | inserting by date keeps the list newest-first and adds exactly that one row |
| Listing.SortNewestFirst | src/inflows/inflow.repository.ts:42-45 | the sorted list is newest-first and a permutation of its input |
| Counting.InUseIffReferrers | src/ingredients/ingredient.entity.ts:23-45 | a catalog row is referenced exactly when its set of referring ingredients is non-empty |
| Counting.ReferrersAfterPut | src/ingredients/measurement-units/measurement-units.service.ts:101-104 | overwriting one ingredient changes each row's referrer count by the old and new reference only |
| Counting.ReferrersAfterRemove | src/ingredients/ingredients.service.ts:54-60 | removing one ingredient lowers by one the referrer count of the rows it referenced and no other |
| Counting.SumCountsReferrers | src/ingredients/measurement-units/measurement-unit.entity.ts:24-25 | while the counters are right, the counters below a key sum to the referrers of those rows |
| Counting.SumIsIngredientCount | src/ingredients/measurement-units/measurement-unit.entity.ts:24-25 | while the counters are right, a catalog's counters sum to the number of ingredients |
| Counting.SumAfterWithAssigned | src/ingredients/measurement-units/measurement-units.service.ts:70 | setting one counter changes that catalog's sum by exactly the difference |
| Counting.MoveKeepsSum | src/ingredients/measurement-units/measurement-units.service.ts:90-99 | one counter down and another up leaves every catalog's sum unchanged |
| Counting.SumReadsCatalogs | src/ingredients/measurement-units/measurement-unit.entity.ts:24-25 | the sums depend on the catalog tables only |
| Counting.RewriteKeepsConsistent | src/ingredients/ingredient.repository.ts:104-107 | overwriting an ingredient without changing its references keeps every counter right |
| Counting.InsertKeepsConsistent | src/ingredients/ingredients.controller.ts:50-70 | a new ingredient plus one more on each of its three rows keeps every counter right |
| Counting.RemoveKeepsConsistent | src/ingredients/ingredients.controller.ts:87-101 | a removed ingredient minus one on each of its three rows keeps every counter right |
| Counting.ConsistentReadsRows | src/ingredients/measurement-units/measurement-unit.entity.ts:24-25 | whether the counters are right depends only on the catalogs and the ingredients |
| Counting.CountersKeptKeepConsistent | src/ingredients/measurement-units/measurement-unit.repository.ts:60-65 | changes that keep the ingredients, the rows and every counter keep the counters right |
| Counting.NewRowKeepsConsistent | src/ingredients/measurement-units/measurement-unit.entity.ts:24-25 | a new unreferenced row with counter 0 keeps every counter right |
| CatalogLogic.UpdateAssigned | src/ingredients/measurement-units/measurement-units.service.ts:64-79 | the counter update touches no ingredient or inflow and adds or removes no catalog row |
| CatalogLogic.UpdateAssignedEffect | src/ingredients/measurement-units/measurement-units.service.ts:64-79 | an unknown row is NotFound; a failure changes nothing; success adds `delta` to that one counter and returns the row; while the constraints hold it succeeds |
| CatalogLogic.UpdateAssignedKeepsWellFormed | src/ingredients/ingredient-states/ingredient-states.service.ts:59-74 | the counter update keeps every database constraint |
| CatalogLogic.CatalogKeyBelowNext | src/ingredients/measurement-units/measurement-unit.entity.ts:12-13 | every catalog key is below the next key to hand out |
| CatalogLogic.UpdateAssignedFromZero | src/ingredients/ingredient-states/ingredient-states.service.spec.ts:153-175 | a counter at 0 raised by 1 reads 1 |
| CatalogLogic.DeleteById | src/ingredients/measurement-units/measurement-units.service.ts:46-52 | the service delete: NotFound exactly when nothing was deleted, otherwise exactly that row removed (proved in `CatalogLogic.DeleteByIdEffect`) |
| CatalogLogic.DeleteByIdEffect | src/ingredients/measurement-units/measurement-units.service.ts:46-52 | NotFound exactly when the row is absent; a failure changes nothing; success removes exactly that row |
| CatalogLogic.DeleteGuarded | src/ingredients/measurement-units/measurement-units.controller.ts:44-60 | the controller delete: lookup, then Conflict while the counter is non-zero, then the service delete (proved in `CatalogLogic.DeleteGuardedEffect`) |
| CatalogLogic.DeleteGuardedEffect | src/ingredients/measurement-units/measurement-units.controller.ts:44-60 | NotFound exactly for an absent row and Conflict exactly for a non-zero counter, both with no change; success removes exactly that row |
| CatalogLogic.DeleteGuardedSucceedsWhenUnused | src/ingredients/ingredient-states/ingredient-states.controller.ts:51-57 | while the counters are right, deleting an existing row succeeds exactly when its counter is 0, and is Conflict otherwise |
| CatalogLogic.WithoutRowKeepsConsistent | src/ingredients/ingredient-types/ingredient-types.controller.ts:48-54 | removing a catalog row keeps every remaining counter right |
| CatalogLogic.DeleteGuardedKeepsConsistent | src/ingredients/ingredient-types/ingredient-types.controller.ts:39-55 | the guarded delete keeps every counter right whatever its outcome |
| CatalogLogic.DeleteGuardedKeepsWellFormed | src/ingredients/measurement-units/measurement-units.controller.ts:44-60 | the guarded delete keeps every database constraint |
| CatalogRows.NextKeyUnused | src/ingredients/measurement-units/measurement-unit.entity.ts:12-13 | the next key is in no catalog and referenced by no ingredient |
| CatalogRows.CreateUnit | src/ingredients/measurement-units/measurement-unit.repository.ts:13-37 | the unit insert: Conflict on a repeated name, otherwise a new unit with counter 0 (proved in `CatalogRows.CreateUnitEffect`) |
| CatalogRows.CreateState | src/ingredients/ingredient-states/ingredient-state.repository.ts:12-33 | the state insert: Conflict on a repeated name, otherwise a new state with counter 0 (proved in `CatalogRows.CreateStateEffect`) |
| CatalogRows.CreateType | src/ingredients/ingredient-types/ingredient-type.repository.ts:12-32 | the type insert: Conflict on a repeated name, otherwise a new type with counter 0 (proved in `CatalogRows.CreateTypeEffect`) |
| CatalogRows.CreateUnitEffect | src/ingredients/measurement-units/measurement-unit.repository.ts:13-37 | Conflict exactly when some unit has the name, with no row added; otherwise the new unit holds the given columns with counter 0 |
| CatalogRows.CreateStateEffect | src/ingredients/ingredient-states/ingredient-state.repository.ts:12-33 | Conflict exactly for a repeated name, with no row added; otherwise the new state has the name and counter 0 |
| CatalogRows.CreateTypeEffect | src/ingredients/ingredient-types/ingredient-type.repository.ts:12-32 | Conflict exactly for a repeated name, with no row added; otherwise the new type has the name and counter 0 |
| CatalogRows.CreateUnitKeepsWellFormed | src/ingredients/measurement-units/measurement-unit.repository.ts:13-37 | creating a unit keeps every database constraint |
| CatalogRows.CreateUnitKeepsConsistent | src/ingredients/measurement-units/measurement-unit.entity.ts:24-25 | creating a unit keeps every counter right |
| CatalogRows.CreateStateKeepsWellFormed | src/ingredients/ingredient-states/ingredient-state.repository.ts:12-33 | creating a state keeps every database constraint |
| CatalogRows.CreateStateKeepsConsistent | src/ingredients/ingredient-states/ingredient-state.entity.ts:18-19 | creating a state keeps every counter right |
| CatalogRows.CreateTypeKeepsWellFormed | src/ingredients/ingredient-types/ingredient-type.repository.ts:12-32 | creating a type keeps every database constraint |
| CatalogRows.CreateTypeKeepsConsistent | src/ingredients/ingredient-types/ingredient-type.entity.ts:18-19 | creating a type keeps every counter right |
| CatalogRows.UpdateUnit | src/ingredients/measurement-units/measurement-unit.repository.ts:49-78 | the unit update: lookup, columns replaced, counter kept, save (proved in `CatalogRows.UpdateUnitEffect`) |
| CatalogRows.UpdateState | src/ingredients/ingredient-states/ingredient-state.repository.ts:45-67 | the state rename, an unknown id failing Internal (proved in `CatalogRows.UpdateStateEffect`) |
| CatalogRows.UpdateType | src/ingredients/ingredient-types/ingredient-type.repository.ts:44-62 | the type rename, an unknown id failing Internal (proved in `CatalogRows.UpdateTypeEffect`) |
| CatalogRows.UpdateUnitEffect | src/ingredients/measurement-units/measurement-unit.repository.ts:49-78 | NotFound exactly for an unknown id; Conflict exactly when a different unit holds the name, so keeping its own name never clashes; otherwise name, abbreviation and precision replaced and the counter kept; a refusal changes nothing |
| CatalogRows.UpdateStateEffect | src/ingredients/ingredient-states/ingredient-state.repository.ts:45-67 | an unknown id fails Internal; Conflict exactly when another state holds the name; otherwise only the name changes |
| CatalogRows.UpdateTypeEffect | src/ingredients/ingredient-types/ingredient-type.repository.ts:44-62 | an unknown id fails Internal; Conflict exactly when another type holds the name; otherwise only the name changes |
| CatalogRows.UpdateUnitKeepsInvariant | src/ingredients/measurement-units/measurement-unit.repository.ts:60-65 | updating a unit keeps the constraints and every counter right |
| CatalogRows.UpdateStateKeepsInvariant | src/ingredients/ingredient-states/ingredient-state.repository.ts:51-55 | renaming a state keeps the constraints and every counter right |
| CatalogRows.UpdateTypeKeepsInvariant | src/ingredients/ingredient-types/ingredient-type.repository.ts:50-54 | renaming a type keeps the constraints and every counter right |
| Assignment.AssignOne | src/ingredients/measurement-units/measurement-units.service.ts:86-109 | one step touches no inflow and no catalog row set, and changes at most that ingredient, and only to reference the target |
| Assignment.AssignAll | src/ingredients/measurement-units/measurement-units.service.ts:85-110 | a successful loop yields `Assignment.Switched` of the batch: in list order, each ingredient under its own key, now referencing the target with its other columns kept |
| Assignment.SwitchedAt | src/ingredients/measurement-units/measurement-units.service.ts:100-104 | position `k` of the switched batch is the batch's entry `k`, same key, its reference switched to the target |
| Assignment.AssignOneEffect | src/ingredients/measurement-units/measurement-units.service.ts:86-101 | an ingredient already on the target is skipped with no change; otherwise a success moves it: old row's counter down by 1, target's up by 1, reference switched |
| Assignment.AssignOneSwitchesLast | src/ingredients/measurement-units/measurement-units.service.ts:90-101 | when either counter update fails the step fails and no ingredient has been switched |
| Assignment.MoveKeepsConsistent | src/ingredients/measurement-units/measurement-units.service.ts:90-101 | moving one ingredient with both counters adjusted keeps every counter right |
| Assignment.AssignOneKeepsConsistent | src/ingredients/measurement-units/measurement-units.service.ts:86-109 | a successful step keeps every counter right |
| Assignment.CounterUpdatesKeepWellFormed | src/ingredients/measurement-units/measurement-units.service.ts:90-99 | the pair of counter updates keeps every database constraint |
| Assignment.AssignOneKeepsWellFormed | src/ingredients/measurement-units/measurement-units.service.ts:86-109 | a step keeps every database constraint whatever its outcome |
| Assignment.AssignOneKeepsFresh | src/ingredients/measurement-units/measurement-units.service.ts:85-101 | after a successful step the rest of the batch and the returned entry still match the stored rows |
| Assignment.AssignAllKeepsConsistent | src/ingredients/measurement-units/measurement-units.service.ts:85-110 | a successful loop keeps every counter right |
| Assignment.AssignAllYieldsFresh | src/ingredients/measurement-units/measurement-units.service.ts:85-110 | after a successful loop the returned entries match the stored rows |
| Assignment.AssignAllKeepsKeys | src/ingredients/measurement-units/measurement-units.service.ts:85-110 | the loop neither adds nor removes an ingredient |
| Assignment.AssignAllFrame | src/ingredients/measurement-units/measurement-units.service.ts:85-110 | an ingredient outside the batch is left exactly as it was |
| Assignment.AssignAllKeepsWellFormed | src/ingredients/measurement-units/measurement-units.service.ts:85-110 | the loop keeps every database constraint whatever its outcome |
| Assignment.MoveKeepsSums | src/ingredients/measurement-units/measurement-units.service.ts:90-101 | a move leaves the counter sum of every catalog unchanged |
| Assignment.AssignOneKeepsSum | src/ingredients/measurement-units/measurement-units.service.ts:86-109 | a successful step leaves every catalog's counter sum unchanged |
| Assignment.AssignAllKeepsSum | src/ingredients/measurement-units/measurement-units.service.ts:85-110 | a successful loop leaves every catalog's counter sum unchanged |
| Assignment.AssignAllNoop | src/ingredients/measurement-units/measurement-units.service.spec.ts:179-213 | a batch already on the target changes nothing and is returned as it is |
| Assignment.AssignAllStopsAtFirstFailure | src/ingredients/measurement-units/measurement-units.service.ts:85-110 | a failed loop failed at some ingredient: all before it succeeded in list order, that one failed, and none after it ran |
| Assignment.AssignAllStep | src/ingredients/measurement-units/measurement-units.service.ts:85-110 | the loop from position `i` is one step followed by the loop from `i + 1` |
| Assignment.ExtendTwice | src/ingredients/measurement-units/measurement-units.service.ts:85 | prefixing done entries twice is prefixing them once, joined |
| Assignment.AssignOneSucceeds | src/ingredients/measurement-units/measurement-units.service.ts:90-108 | while the constraints hold, a step towards an existing target succeeds on a stored ingredient, also when it was renamed to a name no other ingredient holds |
| Assignment.AssignOneKeepsRenamable | src/ingredients/measurement-units/measurement-units.service.ts:101-104 | after a successful step the returned entry keeps the stored references and a name no other ingredient holds |
| Assignment.StoredRenamable | src/ingredients/ingredient.entity.ts:20-21 | under the constraints a stored ingredient's own name is free among the others |
| Assignment.AssignOneKeepsLoaded | src/ingredients/measurement-units/measurement-units.service.ts:85-101 | after a successful step the rest of the batch are still stored rows |
| Assignment.AssignAllSucceeds | src/ingredients/measurement-units/measurement-units.service.ts:85-110 | while the constraints hold, the loop over stored ingredients with an existing target succeeds |
| Assignment.AssignOneOfTwo | src/ingredients/ingredient-types/ingredient-types.service.spec.ts:193-231 | of two ingredients, the one on the target is skipped and the other moved: one counter down, one up, one ingredient saved |
| Assignment.AssignAllOnTarget | src/ingredients/measurement-units/measurement-units.service.ts:85-110 | after a successful loop every ingredient of the batch references the target |
| Assignment.FilterIngredientsLoaded | src/ingredients/ingredient.repository.ts:40-59 | the id-filtered fetch returns stored rows with distinct keys |
| Assignment.AssignRoute | src/ingredients/measurement-units/measurement-units.controller.ts:74-91 | the assign route: target lookup, id-filtered fetch, then the loop (proved in `Assignment.AssignRouteKeepsInvariant`, `Assignment.AssignRouteSwitches` and `Assignment.AssignRouteFrame`) |
| Assignment.AssignRouteUnknownTarget | src/ingredients/measurement-units/measurement-units.controller.ts:80-82 | an unknown target fails NotFound with no change |
| Assignment.AssignRouteKeepsInvariant | src/ingredients/measurement-units/measurement-units.controller.ts:74-91 | while constraints and counters hold, the route succeeds exactly when the target exists, and keeps both |
| Assignment.AssignRouteSwitches | src/ingredients/measurement-units/measurement-units.controller.ts:79-90 | after success every requested stored ingredient, or every ingredient when no ids are given, references the target, and no ingredient is added or removed |
| Assignment.AssignRouteFrame | src/ingredients/measurement-units/measurement-units.controller.ts:83-85 | an ingredient not requested is left exactly as it was |
| Assignment.AssignRouteDropsUnknown | src/ingredients/ingredient.repository.ts:49-51 | an id that matches no ingredient is dropped silently: the route behaves as without it |
| IngredientLogic.AdjustCounters | src/ingredients/ingredients.controller.ts:50-63 | the three counter updates touch no ingredient or inflow and add or remove no catalog row |
| IngredientLogic.NextIsFree | src/ingredients/ingredient.entity.ts:17-18 | the next key is used by no ingredient or inflow |
| IngredientLogic.CreateIngredientRow | src/ingredients/ingredient.repository.ts:15-38 | the ingredient insert with stock 0 (proved in `IngredientLogic.CreateIngredientRowEffect`) |
| IngredientLogic.CreateIngredientRowEffect | src/ingredients/ingredient.repository.ts:15-38 | Conflict exactly for a repeated name, Internal exactly for a dangling reference, no ingredient added on either; otherwise the new row has the name, the three references and stock 0 |
| IngredientLogic.UpdateIngredientRow | src/ingredients/ingredient.repository.ts:61-89 | the repository update of name and references (proved in `IngredientLogic.UpdateIngredientRowEffect`) |
| IngredientLogic.UpdateIngredientRowEffect | src/ingredients/ingredient.repository.ts:61-89 | NotFound exactly for an unknown id; Conflict exactly when another ingredient holds the name; otherwise name and references overwritten and the stock kept; no counter touched |
| IngredientLogic.AddStock | src/ingredients/ingredient.repository.ts:96-114 | the stock update: precision read, `toFixed` (failing outside 0 to 100 digits), added, saved (proved in `IngredientLogic.AddStockEffect`) |
| IngredientLogic.AddStockEffect | src/ingredients/ingredient.repository.ts:96-114 | a unit precision outside the 0 to 100 digits `toFixed` accepts fails Internal with no change; a success raises that one ingredient's stock by the rounded value and changes nothing else; under the constraints a stored row with an accepted precision always succeeds |
| IngredientLogic.AddStockExample | src/ingredients/ingredient.repository.spec.ts:18-35 | a stock of 0 plus 5.46 at precision 1 becomes 5.5 |
| IngredientLogic.AddStockKeepsInvariant | src/ingredients/ingredient.repository.ts:96-114 | the stock update keeps the constraints and every counter right |
| IngredientLogic.DeleteIngredientRow | src/ingredients/ingredients.service.ts:54-60 | the service delete of an ingredient (proved in `IngredientLogic.DeleteIngredientRowEffect`) |
| IngredientLogic.DeleteIngredientRowEffect | src/ingredients/ingredients.service.ts:54-60 | NotFound exactly for an unknown id; Internal exactly while it has inflows; otherwise exactly that ingredient removed; no catalog or counter touched |
| IngredientLogic.AdjustCountersEffect | src/ingredients/ingredients.controller.ts:50-63 | a success adds `delta` to the counters of the three referenced rows and to no other; with resolving references it succeeds |
| IngredientLogic.CreateIngredient | src/ingredients/ingredients.controller.ts:31-73 | the controller creation: lookups, counters raised, row inserted (proved in `IngredientLogic.CreateIngredientEffect`) |
| IngredientLogic.CreateIngredientEffect | src/ingredients/ingredients.controller.ts:31-73 | any missing catalog row is NotFound with no change; under the constraints, with all three rows stored, it succeeds exactly when the name is free and is Conflict otherwise; a success inserts the new row and raises exactly its three rows' counters by 1 |
| IngredientLogic.CreateIngredientRowKeepsWellFormed | src/ingredients/ingredient.repository.ts:15-38 | inserting an ingredient keeps every database constraint |
| IngredientLogic.CreateIngredientKeepsWellFormed | src/ingredients/ingredients.controller.ts:31-73 | creation keeps every database constraint whatever its outcome |
| IngredientLogic.CreateIngredientKeepsConsistent | src/ingredients/ingredients.controller.ts:50-70 | a successful creation keeps every counter right |
| IngredientLogic.CreateIngredientConflictLeavesCountersRaised | src/ingredients/ingredients.controller.ts:50-70 | a repeated name is Conflict with no ingredient added, yet the unit counter is one higher, so the counters are no longer right |
| IngredientLogic.CreateIngredientChecked | src/ingredients/ingredients.controller.ts:50-70 | the corrected creation: the row inserted before the counters are raised (proved in `IngredientLogic.CreateIngredientCheckedEffect`) |
| IngredientLogic.CreateIngredientCheckedKeepsWellFormed | src/ingredients/ingredients.controller.ts:50-70 | the corrected creation keeps every database constraint |
| IngredientLogic.CreateIngredientCheckedEffect | src/ingredients/ingredients.controller.ts:50-70 | the corrected creation is Conflict exactly for a repeated name and then leaves catalogs and ingredients unchanged; a success inserts the row and raises its three counters by 1 |
| IngredientLogic.CreateIngredientCheckedKeepsConsistent | src/ingredients/ingredients.controller.ts:50-70 | the corrected creation keeps every counter right whatever its outcome |
| IngredientLogic.DeleteIngredient | src/ingredients/ingredients.controller.ts:83-102 | the controller delete: lookup, row deleted, counters lowered (proved in `IngredientLogic.DeleteIngredientEffect`) |
| IngredientLogic.DeleteIngredientEffect | src/ingredients/ingredients.controller.ts:83-102 | an unknown id is NotFound with no change; a success removes exactly that ingredient and lowers exactly its three rows' counters by 1 |
| IngredientLogic.DeleteIngredientSucceeds | src/ingredients/ingredients.controller.ts:83-102 | a stored ingredient without inflows is deleted successfully while the constraints hold |
| IngredientLogic.DeleteIngredientKeepsInvariant | src/ingredients/ingredients.controller.ts:83-102 | the delete keeps the constraints and every counter right, and succeeds exactly for a stored ingredient without inflows |
| IngredientLogic.DeleteUndoesInsert | src/ingredients/ingredients.controller.ts:87-101 | deleting an ingredient that was inserted with its counters raised restores the ingredients and every counter |
| IngredientLogic.CreateThenDeleteRestoresCounters | src/ingredients/ingredients.controller.ts:50-101 | creating an ingredient and deleting it again succeeds and restores the ingredients and every counter |
| IngredientLogic.AssignAllSingle | src/ingredients/ingredients.controller.ts:129-137 | the loop over one ingredient is one step |
| IngredientLogic.AssignSingleEntry | src/ingredients/ingredients.controller.ts:129-137 | a successful loop over one ingredient returns it referencing the target, matching the stored row |
| IngredientLogic.UpdateIngredient | src/ingredients/ingredients.controller.ts:104-140 | the controller update: lookups, rename in memory, the loop for units, states and types (proved in `IngredientLogic.UpdateIngredientEffect`) |
| IngredientLogic.UpdateIngredientEffect | src/ingredients/ingredients.controller.ts:104-140 | any failed lookup is NotFound with no change; under the constraints, with all four rows stored and a name no other ingredient holds, it succeeds; a success answers the new name, the new references and the old stock, and stores those references |
| IngredientLogic.UpdateIngredientSucceeds | src/ingredients/ingredients.controller.ts:128-137 | under the constraints, with stored rows and a name free among the other ingredients, all three reassignment loops on the one row succeed |
| IngredientLogic.UpdateIngredientKeepsInvariant | src/ingredients/ingredients.controller.ts:128-137 | a successful update keeps the constraints and every counter right |
| IngredientLogic.UpdateIngredientDropsRename | src/ingredients/ingredients.controller.ts:128-139 | a rename that keeps all three references answers the new name but stores nothing |
| IngredientLogic.UpdateIngredientSaved | src/ingredients/ingredients.controller.ts:128-139 | the corrected update that saves the renamed row (proved in `IngredientLogic.UpdateIngredientSavedStoresAnswer`) |
| IngredientLogic.UpdateIngredientSavedStoresAnswer | src/ingredients/ingredients.controller.ts:128-139 | the corrected update stores exactly the ingredient it answers and keeps every counter right |
| InflowLogic.GetInflow | src/inflows/inflows.service.ts:27-35 | the stored inflow when the id exists, otherwise NotFound |
| InflowLogic.CreateInflowRow | src/inflows/inflow.repository.ts:13-39 | the inflow insert with the rounded quantity (proved in `InflowLogic.CreateInflowRowEffect`) |
| InflowLogic.CreateInflowRowEffect | src/inflows/inflow.repository.ts:13-39 | the insert succeeds exactly for a stored ingredient with a stored unit, a precision `toFixed` accepts and details given, and fails Internal otherwise; the quantity is rounded to the unit's precision, every other column copied; only the new row and the key change, and no other table on any outcome |
| InflowLogic.CreateInflowRowExample | src/inflows/inflow.repository.spec.ts:18-43 | 5.46 at precision 1 is recorded as 5.5 |
| InflowLogic.DeleteInflows | src/inflows/inflow.repository.ts:55-77 | the bulk delete by ingredient (proved in `InflowLogic.DeleteInflowsEffect`) |
| InflowLogic.DeleteInflowsEffect | src/inflows/inflow.repository.ts:55-77 | BadRequest exactly without a filter, with no change; with one, exactly the inflows of that ingredient are removed and the others kept |
| InflowLogic.DeleteInflowsKeepsInvariant | src/inflows/inflow.repository.ts:55-77 | the bulk delete keeps the constraints and every counter right |
| InflowLogic.DeleteInflowRow | src/inflows/inflows.service.ts:42-48 | the service delete of one inflow (proved in `InflowLogic.DeleteInflowRowEffect`) |
| InflowLogic.DeleteInflowRowEffect | src/inflows/inflows.service.ts:42-48 | NotFound exactly for an unknown id, with no change; otherwise exactly that inflow removed and no stock touched |
| InflowLogic.CreateInflow | src/inflows/inflows.controller.ts:22-37 | the controller creation: lookup, stock raised, inflow inserted (proved in `InflowLogic.CreateInflowEffect` and `InflowLogic.CreateInflowWithoutDetailsKeepsStock`) |
| InflowLogic.CreateInflowEffect | src/inflows/inflows.controller.ts:22-37 | an unknown ingredient is NotFound and a precision `toFixed` refuses is Internal, both with no change; under the constraints it succeeds exactly when details are given; a success raises the stock by exactly the recorded, rounded quantity and records the inflow |
| InflowLogic.CreateInflowKeepsWellFormed | src/inflows/inflows.controller.ts:22-37 | recording an inflow keeps every database constraint |
| InflowLogic.CreateInflowKeepsConsistent | src/inflows/inflows.controller.ts:22-37 | recording an inflow keeps every counter right |
| InflowLogic.CreateInflowWithoutDetailsKeepsStock | src/inflows/inflows.controller.ts:31-36 | a request without details on a stored ingredient, with a precision `toFixed` accepts, fails Internal yet leaves the stock raised by the rounded quantity and records no inflow |
| InflowLogic.CreateInflowChecked | src/inflows/inflows.controller.ts:22-37 | the corrected creation: the inflow inserted before the stock is raised (proved in `InflowLogic.CreateInflowCheckedKeepsStockInStep`) |
| InflowLogic.CreateInflowCheckedKeepsStockInStep | src/inflows/inflows.controller.ts:31-36 | under the constraints the corrected creation changes neither stock nor inflows on failure, raises the stock by exactly the recorded quantity on success, and succeeds exactly when details are given |
| InflowLogic.RestockAndDelete | src/inflows/inflows.controller.ts:51-57 | the stock update and the delete issued together (proved in `InflowLogic.RestockAndDeleteEffect`) |
| InflowLogic.RestockAndDeleteEffect | src/inflows/inflows.controller.ts:51-57 | with a precision `toFixed` accepts, the paired stock update and delete succeed, set the stock to the old one plus the rounded value, and remove the inflow; otherwise the answer is Internal, the stock unchanged and the inflow still removed |
| InflowLogic.SettledKeepsWellFormed | src/inflows/inflows.controller.ts:51-57 | a changed stock with one inflow gone keeps every database constraint |
| InflowLogic.SettledKeepsConsistent | src/inflows/inflows.controller.ts:51-57 | a changed stock with one inflow gone keeps every counter right |
| InflowLogic.RestockAndDeleteKeepsWellFormed | src/inflows/inflows.controller.ts:51-57 | the paired update and delete keep every database constraint |
| InflowLogic.RestockAndDeleteKeepsConsistent | src/inflows/inflows.controller.ts:51-57 | the paired update and delete keep every counter right |
| InflowLogic.DeleteInflowById | src/inflows/inflows.controller.ts:44-58 | the controller delete as written (proved in `InflowLogic.DeleteInflowByIdEffect`) |
| InflowLogic.DeleteInflowByIdEffect | src/inflows/inflows.controller.ts:44-58 | an unknown inflow is NotFound with no change; otherwise the inflow is removed and, with a precision `toFixed` accepts, its rounded quantity is ADDED to the stock; with any other precision the answer is Internal, the stock unchanged |
| InflowLogic.DeleteInflowByIdChecked | src/inflows/inflows.controller.ts:44-58 | the controller delete with the sign corrected (proved in `InflowLogic.DeleteInflowByIdCheckedEffect`) |
| InflowLogic.DeleteInflowByIdCheckedEffect | src/inflows/inflows.service.ts:37-41 | the corrected delete removes the inflow and, with a precision `toFixed` accepts, subtracts its rounded quantity from the stock; with any other precision the answer is Internal, the stock unchanged |
| InflowLogic.DeleteInflowByIdKeepsInvariant | src/inflows/inflows.controller.ts:44-58 | the delete as written keeps the constraints and every counter right |
| InflowLogic.DeleteInflowByIdCheckedKeepsInvariant | src/inflows/inflows.controller.ts:44-58 | the corrected delete keeps the constraints and every counter right |
| InflowLogic.DropRecorded | src/inflows/inflows.controller.ts:51-57 | deleting the inflow just recorded, with a new stock, leaves the old tables with only the stock and the key changed |
| InflowLogic.CreateInflowRecorded | src/inflows/inflows.controller.ts:22-37 | with a precision `toFixed` accepts and details given, recording an inflow yields exactly the old tables with the raised stock and the new inflow, under the constraints; otherwise it fails Internal |
| InflowLogic.DeleteRecorded | src/inflows/inflows.controller.ts:44-58 | deleting a just-recorded inflow as written leaves the stock raised by twice its quantity |
| InflowLogic.DeleteRecordedChecked | src/inflows/inflows.controller.ts:44-58 | deleting a just-recorded inflow with the corrected sign restores the stock |
| InflowLogic.CreateThenDeleteAddsTwice | src/inflows/inflows.controller.ts:51-55 | when the recording succeeds, recording an inflow and deleting it as written leaves the stock raised by twice the rounded quantity |
| InflowLogic.CreateThenDeleteExample | src/inflows/inflows.controller.ts:22-58 | from stock 0, recording 5.46 at precision 1 and deleting it leaves a stock of 11 |
| InflowLogic.CreateThenDeleteCheckedRestores | src/inflows/inflows.service.ts:37-41 | when the recording succeeds, with the corrected sign, recording and deleting an inflow restores every table except the key |
| CatalogRepositories.CreateMeasurementUnit | src/ingredients/measurement-units/measurement-unit.repository.ts:13-37 | the store method does what `CatalogRows.CreateUnit` says |
| CatalogRepositories.CreateIngredientState | src/ingredients/ingredient-states/ingredient-state.repository.ts:12-33 | the store method does what `CatalogRows.CreateState` says |
| CatalogRepositories.CreateIngredientType | src/ingredients/ingredient-types/ingredient-type.repository.ts:12-32 | the store method does what `CatalogRows.CreateType` says |
| CatalogRepositories.GetMeasurementUnits | src/ingredients/measurement-units/measurement-unit.repository.ts:39-47 | under the constraints, exactly the stored units, each once, in key order |
| CatalogRepositories.GetIngredientStates | src/ingredients/ingredient-states/ingredient-state.repository.ts:35-43 | under the constraints, exactly the stored states, each once, in key order |
| CatalogRepositories.GetIngredientTypes | src/ingredients/ingredient-types/ingredient-type.repository.ts:34-42 | under the constraints, exactly the stored types, each once, in key order |
| CatalogRepositories.UpdateMeasurementUnit | src/ingredients/measurement-units/measurement-unit.repository.ts:49-78 | the store method does what `CatalogRows.UpdateUnit` says |
| CatalogRepositories.UpdateIngredientState | src/ingredients/ingredient-states/ingredient-state.repository.ts:45-67 | the store method does what `CatalogRows.UpdateState` says |
| CatalogRepositories.UpdateIngredientType | src/ingredients/ingredient-types/ingredient-type.repository.ts:44-62 | the store method does what `CatalogRows.UpdateType` says |
| CatalogServices.GetById | src/ingredients/measurement-units/measurement-units.service.ts:32-40 | the stored row exactly when it exists, otherwise NotFound |
| CatalogServices.DeleteById | src/ingredients/ingredient-types/ingredient-types.service.ts:41-47 | the store method does what `CatalogLogic.DeleteById` says |
| CatalogServices.UpdateIngredientsAssigned | src/ingredients/measurement-units/measurement-units.service.ts:64-79 | the store method does what `CatalogLogic.UpdateAssigned` says |
| CatalogServices.AssignStep | src/ingredients/measurement-units/measurement-units.service.ts:86-109 | one pass of the store loop's body does what `Assignment.AssignOne` says |
| CatalogServices.AssignToIngredient | src/ingredients/measurement-units/measurement-units.service.ts:81-111 | the store loop does what `Assignment.AssignAll` says, step by step |
| CatalogControllers.DeleteById | src/ingredients/ingredient-states/ingredient-states.controller.ts:39-58 | the store method does what `CatalogLogic.DeleteGuarded` says |
| CatalogControllers.AssignToIngredient | src/ingredients/measurement-units/measurement-units.controller.ts:74-91 | the store method does what `Assignment.AssignRoute` says |
| IngredientRepository.CreateIngredient | src/ingredients/ingredient.repository.ts:15-38 | the store method does what `IngredientLogic.CreateIngredientRow` says |
| IngredientRepository.GetIngredients | src/ingredients/ingredient.repository.ts:40-59 | under the constraints, exactly the stored ingredients whose key is requested, or all of them, in key order |
| IngredientRepository.UpdateIngredient | src/ingredients/ingredient.repository.ts:61-89 | the store method does what `IngredientLogic.UpdateIngredientRow` says |
| IngredientRepository.UpdateIngredientCurrentStock | src/ingredients/ingredient.repository.ts:96-114 | the store method does what `IngredientLogic.AddStock` says |
| IngredientsService.GetIngredientById | src/ingredients/ingredients.service.ts:31-39 | the stored ingredient exactly when it exists, otherwise NotFound |
| IngredientsService.DeleteIngredientById | src/ingredients/ingredients.service.ts:54-60 | the store method does what `IngredientLogic.DeleteIngredientRow` says |
| IngredientsController.AdjustCounters | src/ingredients/ingredients.controller.ts:88-101 | the store method does what `IngredientLogic.AdjustCounters` says |
| IngredientsController.CreateIngredient | src/ingredients/ingredients.controller.ts:30-73 | the store method does what `IngredientLogic.CreateIngredient` says |
| IngredientsController.DeleteIngredientById | src/ingredients/ingredients.controller.ts:82-102 | the store method does what `IngredientLogic.DeleteIngredient` says |
| IngredientsController.UpdateIngredient | src/ingredients/ingredients.controller.ts:104-140 | the store method does what `IngredientLogic.UpdateIngredient` says |
| InflowRepository.CreateInflow | src/inflows/inflow.repository.ts:13-39 | the store method does what `InflowLogic.CreateInflowRow` says |
| InflowRepository.GetInflows | src/inflows/inflow.repository.ts:41-53 | the listing is newest-first and a permutation of the stored inflows; under the constraints it holds exactly the stored inflows |
| InflowRepository.DeleteInflows | src/inflows/inflow.repository.ts:55-77 | the store method does what `InflowLogic.DeleteInflows` says |
| InflowsService.GetInflowById | src/inflows/inflows.service.ts:27-35 | the stored inflow exactly when it exists, otherwise NotFound |
| InflowsService.DeleteInflowById | src/inflows/inflows.service.ts:42-48 | the store method does what `InflowLogic.DeleteInflowRow` says |
| InflowsController.CreateInflow | src/inflows/inflows.controller.ts:22-37 | the store method does what `InflowLogic.CreateInflow` says |
| InflowsController.DeleteInflowById | src/inflows/inflows.controller.ts:44-58 | the store method does what `InflowLogic.DeleteInflowById` says, the sign as written |

## Left out

- HTTP routing, `ValidationPipe` and the class-validator DTOs are not modelled. A DTO constraint the model relies on is stated where it matters, for example that an assign request lists at least one id.
- Concurrency is not modelled. `Promise.all` and the read-modify-write race on counters across simultaneous requests become one fixed sequential order in a single-threaded store.
- `Number.prototype.toFixed` on binary floating point is not modelled. `Rounding.Round` is exact decimal rounding on `real`, with halves rounded away from zero. Floating-point mis-rounding of halves is not captured. Its RangeError for a digit count outside 0 to 100 is modelled.
- A precision is a whole number here. The DTO's `@IsNumber` would also let a fractional precision through, which `toFixed` truncates; that case is not modelled.
- The `date` column, a date string in the source, is a whole day number here. Newest-first ordering compares those numbers. The order among inflows of the same day is not fixed.
- Primary keys are naturals handed out in increasing order, not UUIDs. `findOne` and `getMany` without an ORDER BY list rows in key order.
- An optional request filter is `Option`. `None` stands both for an absent value and for the empty string, since both fail the source's truthiness test.
- The source's `if (!row)` checks after a lookup that already throws NotFound can never fire, so they have no counterpart.
- `console.log` of error stacks is not modelled. Database errors other than unique_violation, foreign_key_violation and not_null_violation are not modelled either. Every such failure is a single `Internal` outcome.
- The ingredient save inside the reassignment loop is not awaited in the source. It is modelled as a synchronous write whose refusal fails the loop with `Internal`.
- The state controller's assign route calls `assignToIngredient`, which the state service does not define. The type controller has no assign route, and the type service defines neither `assignToIngredient` nor `updateIngredientTypeIngredientsAssigned`, although the ingredients controller calls the latter. These missing members are modelled on the unit service's, as the state and type service tests describe them (src/ingredients/ingredient-states/ingredient-states.service.spec.ts:153-217, src/ingredients/ingredient-types/ingredient-types.service.spec.ts:169-233).
- The services' and controllers' create, list and update handlers pass the repository's answer through unchanged, so they have no members of their own. The same goes for `IngredientsService.createIngredient`, `getIngredients` and `updateIngredientCurrentStock`, and for `InflowsService.createInflow`, `getInflows` and `deleteInflows`.
- Dependency-injection wiring (`src/app.module.ts` and the module files) is not modelled. Neither are the jest mocks.
- `src/inflows/inflow-reason.enum.ts` is not part of this model. An inflow's reason is an unconstrained string.
- `Stores.Store.constructor`: it states only that a new store is empty. Like every store method its contract mentions `old`, and the lemmas about the corresponding functions carry the properties.

## Findings

| source | as written | input that shows it | evidently intended | confidence | as-written member | corrected member |
|---|---|---|---|---|---|---|
| src/ingredients/ingredients.controller.ts:50-70 | the three counters are raised before the ingredient is inserted, so an insert refused for a repeated name leaves them raised | create an ingredient whose name is already taken, with existing unit, state and type | a refused insert leaves every counter as it was | not executed | IngredientLogic.CreateIngredientConflictLeavesCountersRaised | IngredientLogic.CreateIngredientCheckedKeepsConsistent |
| src/inflows/inflows.controller.ts:51-55 | deleting an inflow passes its quantity to the stock update with a positive sign, so the stock rises again | record an inflow of 5.46 at precision 1 on a stock of 0, then delete it: the stock is 11 | deleting an inflow takes its quantity back out of the stock, as the service's note on deletion asks | not executed; the controller test asserts the positive sign | InflowLogic.CreateThenDeleteAddsTwice | InflowLogic.CreateThenDeleteCheckedRestores |
| src/ingredients/ingredients.controller.ts:128-139 | the new name is set only on the loaded object; it is saved only when some reference changes | rename an ingredient while keeping its unit, state and type: the answer has the new name, the table the old one | the ingredient is stored as answered | not executed | IngredientLogic.UpdateIngredientDropsRename | IngredientLogic.UpdateIngredientSavedStoresAnswer |
| src/inflows/inflows.controller.ts:31-36 | the stock is raised before the inflow is inserted, and a request may omit `additionalDetails` although its column is NOT NULL, so the insert is refused after the stock moved | record an inflow without details on a stored ingredient whose unit has precision 1: the answer is Internal, the stock is raised and no inflow records it | a refused insert leaves the stock as it was, so stock and inflows stay in step | not executed | InflowLogic.CreateInflowWithoutDetailsKeepsStock | InflowLogic.CreateInflowCheckedKeepsStockInStep |
