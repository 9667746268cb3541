/** `InflowRepository`, `InflowsService` and `InflowsController` on the value
    level: recording an inflow raises the ingredient's stock by the recorded
    quantity; deleting one is meant to take it back out. */
module InflowLogic {
  import opened Domain
  import opened Rounding
  import opened Persistence
  import opened Counting
  import opened Assignment
  import opened IngredientLogic

  /** `createInflow(dto, ingredient)` in the repository: a new inflow for the
      loaded ingredient `e` at a fresh key, its quantity rounded to the
      precision of the ingredient's unit; a precision `toFixed` refuses fails
      before anything is written, and a refused save (no details, a dangling
      ingredient) is Internal. */
  function CreateInflowRow(t: Tables, e: Entry, date: int, reason: string, price: real,
                           quantity: real, details: Option<string>): (Tables, Result<(Id, Inflow)>)
  {
    if e.1.measurementUnit !in t.units then (t, Err(Internal))
    else
      var p := t.units[e.1.measurementUnit].precision;
      if !FixedDigits(p) then (t, Err(Internal))
      else
        var f := Inflow(e.0, date, reason, price, Round(quantity, p), details);
        var (t1, id) := Allocate(t);
        var (t2, w) := PutInflow(t1, id, f);
        if w == Written then (t2, Ok((id, f))) else (t2, Err(Internal))
  }

  /** `getInflowById(id)`. */
  function GetInflow(t: Tables, id: Id): (r: Result<Inflow>)
    ensures r.Ok? <==> id in t.inflows
    ensures r.Ok? ==> r.value == t.inflows[id]
    ensures r.Err? ==> r.error == NotFound
  {
    if id in t.inflows then Ok(t.inflows[id]) else Err(NotFound)
  }

  /** `deleteInflowById(id)` in the service: nothing deleted is NotFound. */
  function DeleteInflowRow(t: Tables, id: Id): (Tables, Result<()>) {
    var (t1, d) := RemoveInflow(t, id);
    if d == Affected(0) then (t1, Err(NotFound)) else (t1, Ok(()))
  }

  /** `deleteInflows({ ingredientId })`: without a filter the request is
      refused with BadRequest before any query runs; with one, every inflow
      of that ingredient is deleted. */
  function DeleteInflows(t: Tables, ingredientId: Option<Id>): (Tables, Result<()>) {
    match ingredientId
    case None => (t, Err(BadRequest))
    case Some(iid) => (RemoveInflowsOf(t, iid), Ok(()))
  }

  /** `POST /inflows`: load the ingredient (NotFound), raise its stock by the
      quantity, then record the inflow; the first failure is reported. */
  function CreateInflow(t: Tables, ingredientId: Id, date: int, reason: string, price: real,
                        quantity: real, details: Option<string>): (Tables, Result<(Id, Inflow)>)
  {
    if ingredientId !in t.ingredients then (t, Err(NotFound))
    else
      var (t1, r1) := AddStock(t, (ingredientId, t.ingredients[ingredientId]), quantity);
      if r1.Err? then (t1, Err(r1.error))
      else CreateInflowRow(t1, r1.value, date, reason, price, quantity, details)
  }

  /** `POST /inflows` as evidently intended: the inflow is recorded first and
      the stock raised only once it is, so a refused insert leaves the stock
      alone. */
  function CreateInflowChecked(t: Tables, ingredientId: Id, date: int, reason: string, price: real,
                               quantity: real, details: Option<string>): (Tables, Result<(Id, Inflow)>)
  {
    if ingredientId !in t.ingredients then (t, Err(NotFound))
    else
      var e := (ingredientId, t.ingredients[ingredientId]);
      var (t1, r1) := CreateInflowRow(t, e, date, reason, price, quantity, details);
      if r1.Err? then (t1, Err(r1.error))
      else
        var (t2, r2) := AddStock(t1, e, quantity);
        if r2.Err? then (t2, Err(r2.error)) else (t2, r1)
  }

  /** `Promise.all([updateIngredientCurrentStock(e, valueAdded),
      deleteInflowById(id)])`: both calls are issued and the first failure is
      reported. */
  function RestockAndDelete(t: Tables, e: Entry, valueAdded: real, id: Id): (Tables, Result<()>) {
    var (t1, r1) := AddStock(t, e, valueAdded);
    var (t2, r2) := DeleteInflowRow(t1, id);
    if r1.Err? then (t2, Err(r1.error)) else (t2, r2)
  }

  /** `DELETE /inflows/:id` as written: load the inflow and its ingredient
      (NotFound), then restock by the inflow's quantity, so the stock is
      RAISED again, and delete the inflow. */
  function DeleteInflowById(t: Tables, id: Id): (Tables, Result<()>) {
    if id !in t.inflows then (t, Err(NotFound))
    else
      var f := t.inflows[id];
      if f.ingredientId !in t.ingredients then (t, Err(NotFound))
      else RestockAndDelete(t, (f.ingredientId, t.ingredients[f.ingredientId]), f.quantity, id)
  }

  /** The delete as evidently intended: the inflow's quantity is taken back
      out of the stock. */
  function DeleteInflowByIdChecked(t: Tables, id: Id): (Tables, Result<()>) {
    if id !in t.inflows then (t, Err(NotFound))
    else
      var f := t.inflows[id];
      if f.ingredientId !in t.ingredients then (t, Err(NotFound))
      else RestockAndDelete(t, (f.ingredientId, t.ingredients[f.ingredientId]), -f.quantity, id)
  }

  /** The repository's insert: it succeeds exactly when the ingredient and its
      unit exist, the unit's precision is one `toFixed` accepts and details
      are given; the stored quantity is the given one rounded to the unit's
      precision, every other column copied; nothing but the new row and the
      key counter changes, and a failure records nothing. */
  lemma CreateInflowRowEffect(t: Tables, e: Entry, date: int, reason: string, price: real,
                              quantity: real, details: Option<string>)
    ensures var (t', r) := CreateInflowRow(t, e, date, reason, price, quantity, details);
      && (r.Ok? <==> && e.1.measurementUnit in t.units
                     && FixedDigits(t.units[e.1.measurementUnit].precision)
                     && details.Some? && e.0 in t.ingredients)
      && (r.Err? ==> r.error == Internal && t'.inflows == t.inflows)
      && t'.ingredients == t.ingredients
      && t'.units == t.units && t'.states == t.states && t'.types == t.types
      && (r.Ok? ==> && var p := t.units[e.1.measurementUnit].precision;
                    && FixedDigits(p)
                    && var q := Round(quantity, p);
                    && r.value == (t.next, Inflow(e.0, date, reason, price, q, details))
                    && OnGrid(q, p)
                    && t' == t.(inflows := t.inflows[t.next := r.value.1], next := t.next + 1))
  {
    if e.1.measurementUnit in t.units && FixedDigits(t.units[e.1.measurementUnit].precision) {
      RoundOnGrid(quantity, t.units[e.1.measurementUnit].precision);
    }
  }

  /** The repository test's figures: 5.46 at precision 1 is stored as 5.5. */
  lemma CreateInflowRowExample(t: Tables, e: Entry)
    requires e.0 in t.ingredients && e.1.measurementUnit in t.units
    requires t.units[e.1.measurementUnit].precision == 1
    ensures CreateInflowRow(t, e, 0, "", 0.0, 5.46, Some("")).1.Ok?
    ensures CreateInflowRow(t, e, 0, "", 0.0, 5.46, Some("")).1.value.1.quantity == 5.5
  {
    RoundExample();
  }

  /** No filter is BadRequest and changes nothing; a filter removes exactly the
      inflows of that ingredient. */
  lemma DeleteInflowsEffect(t: Tables, ingredientId: Option<Id>)
    ensures var (t', r) := DeleteInflows(t, ingredientId);
      && (r == Err(BadRequest) <==> ingredientId.None?)
      && (r.Err? ==> t' == t)
      && (r.Ok? ==> && t' == t.(inflows := t'.inflows)
                    && (forall k :: k in t'.inflows <==> k in t.inflows && t.inflows[k].ingredientId != ingredientId.value)
                    && (forall k :: k in t'.inflows ==> t'.inflows[k] == t.inflows[k]))
  {
  }

  lemma DeleteInflowsKeepsInvariant(t: Tables, ingredientId: Option<Id>)
    requires WellFormed(t) && Consistent(t)
    ensures WellFormed(DeleteInflows(t, ingredientId).0) && Consistent(DeleteInflows(t, ingredientId).0)
  {
    if ingredientId.Some? {
      RemoveInflowsOfKeepsWellFormed(t, ingredientId.value);
      ConsistentReadsRows(t, RemoveInflowsOf(t, ingredientId.value));
    }
  }

  lemma DeleteInflowRowEffect(t: Tables, id: Id)
    ensures var (t', r) := DeleteInflowRow(t, id);
      && (r == Err(NotFound) <==> id !in t.inflows)
      && (r.Err? ==> t' == t)
      && (r.Ok? ==> t' == t.(inflows := t.inflows - {id}))
  {
  }

  /** Recording an inflow: an unknown ingredient is NotFound and changes
      nothing; a unit precision `toFixed` refuses is Internal and changes
      nothing; under the constraints any other precision succeeds exactly when
      details are given; on success the stock rises by exactly the quantity
      the new inflow records, which is the given quantity rounded to the
      unit's precision, and the inflow sits at a fresh key. */
  lemma CreateInflowEffect(t: Tables, iid: Id, date: int, reason: string, price: real,
                           quantity: real, details: Option<string>)
    ensures var (t', r) := CreateInflow(t, iid, date, reason, price, quantity, details);
      && (iid !in t.ingredients ==> t' == t && r == Err(NotFound))
      && ((iid in t.ingredients && t.ingredients[iid].measurementUnit in t.units
           && !FixedDigits(t.units[t.ingredients[iid].measurementUnit].precision)) ==> t' == t && r == Err(Internal))
      && (WellFormed(t) && iid in t.ingredients && FixedDigits(t.units[t.ingredients[iid].measurementUnit].precision)
          ==> (r.Ok? <==> details.Some?))
      && (r.Ok? ==> && iid in t.ingredients && iid in t'.ingredients
                    && var i := t.ingredients[iid];
                    && i.measurementUnit in t.units
                    && var p := t.units[i.measurementUnit].precision;
                    && FixedDigits(p)
                    && r.value == (t.next, Inflow(iid, date, reason, price, Round(quantity, p), details))
                    && t' == t.(ingredients := t.ingredients[iid := i.(currentStock := i.currentStock + r.value.1.quantity)],
                                inflows := t.inflows[t.next := r.value.1], next := t.next + 1))
  {
    if iid in t.ingredients {
      var e := (iid, t.ingredients[iid]);
      AddStockEffect(t, e, quantity);
      var (t1, r1) := AddStock(t, e, quantity);
      if r1.Ok? {
        CreateInflowRowEffect(t1, r1.value, date, reason, price, quantity, details);
      }
    }
  }

  /** A request without details, on a stored ingredient whose precision
      `toFixed` accepts: the stock is raised first, then the insert is refused
      by the NOT NULL column. The answer is Internal, yet the stock stays
      raised and no inflow records the addition. */
  lemma CreateInflowWithoutDetailsKeepsStock(t: Tables, iid: Id, date: int, reason: string, price: real,
                                             quantity: real)
    requires WellFormed(t) && iid in t.ingredients && t.ingredients[iid].measurementUnit in t.units
    requires FixedDigits(t.units[t.ingredients[iid].measurementUnit].precision)
    ensures var i := t.ingredients[iid];
      var q := Round(quantity, t.units[i.measurementUnit].precision);
      CreateInflow(t, iid, date, reason, price, quantity, None)
      == (t.(ingredients := t.ingredients[iid := i.(currentStock := i.currentStock + q)], next := t.next + 1), Err(Internal))
  {
    var e := (iid, t.ingredients[iid]);
    AddStockEffect(t, e, quantity);
  }

  /** The corrected recording keeps stock and ledger in step: under the
      constraints a failure changes neither the ingredients nor the inflows,
      a success raises the stock by exactly the quantity the new inflow
      records, and on a stored ingredient with a precision `toFixed` accepts
      it succeeds exactly when details are given. */
  lemma CreateInflowCheckedKeepsStockInStep(t: Tables, iid: Id, date: int, reason: string, price: real,
                                            quantity: real, details: Option<string>)
    requires WellFormed(t)
    ensures var (t', r) := CreateInflowChecked(t, iid, date, reason, price, quantity, details);
      && (r.Err? ==> t'.ingredients == t.ingredients && t'.inflows == t.inflows)
      && (iid in t.ingredients && FixedDigits(t.units[t.ingredients[iid].measurementUnit].precision)
          ==> (r.Ok? <==> details.Some?))
      && (r.Ok? ==> && iid in t.ingredients
                    && var i := t.ingredients[iid];
                    && r.value.0 == t.next && r.value.1.ingredientId == iid
                    && t'.inflows == t.inflows[t.next := r.value.1]
                    && t'.ingredients == t.ingredients[iid := i.(currentStock := i.currentStock + r.value.1.quantity)])
  {
    if iid in t.ingredients {
      var e := (iid, t.ingredients[iid]);
      CreateInflowRowEffect(t, e, date, reason, price, quantity, details);
      var (t1, r1) := CreateInflowRow(t, e, date, reason, price, quantity, details);
      if r1.Ok? {
        var p := t.units[e.1.measurementUnit].precision;
        AllocateKeepsWellFormed(t);
        PutInflowKeepsWellFormed(Allocate(t).0, t.next, r1.value.1);
        assert WellFormed(t1) && e.1 == t1.ingredients[e.0];
        AddStockEffect(t1, e, quantity);
      }
    }
  }

  lemma CreateInflowKeepsWellFormed(t: Tables, iid: Id, date: int, reason: string, price: real,
                                    quantity: real, details: Option<string>)
    requires WellFormed(t)
    ensures WellFormed(CreateInflow(t, iid, date, reason, price, quantity, details).0)
  {
    if iid in t.ingredients {
      var e := (iid, t.ingredients[iid]);
      AddStockEffect(t, e, quantity);
      var (t1, r1) := AddStock(t, e, quantity);
      if r1.Ok? {
        PutIngredientKeepsWellFormed(t, iid, r1.value.1);
        var p := t1.units[r1.value.1.measurementUnit].precision;
        AllocateKeepsWellFormed(t1);
        PutInflowKeepsWellFormed(Allocate(t1).0, t1.next, Inflow(iid, date, reason, price, Round(quantity, p), details));
      }
    }
  }

  /** An inflow moves no catalog counter. */
  lemma CreateInflowKeepsConsistent(t: Tables, iid: Id, date: int, reason: string, price: real,
                                    quantity: real, details: Option<string>)
    requires WellFormed(t) && Consistent(t)
    ensures Consistent(CreateInflow(t, iid, date, reason, price, quantity, details).0)
  {
    if iid in t.ingredients {
      var e := (iid, t.ingredients[iid]);
      AddStockKeepsInvariant(t, e, quantity);
      AddStockEffect(t, e, quantity);
      var (t1, r1) := AddStock(t, e, quantity);
      if r1.Ok? {
        CreateInflowRowEffect(t1, r1.value, date, reason, price, quantity, details);
        ConsistentReadsRows(t1, CreateInflow(t, iid, date, reason, price, quantity, details).0);
      }
    }
  }

  /** The tables with ingredient `iid`'s stock set to `stock` and inflow
      `id` gone. */
  function Settled(t: Tables, iid: Id, stock: real, id: Id): Tables
    requires iid in t.ingredients
  {
    t.(ingredients := t.ingredients[iid := t.ingredients[iid].(currentStock := stock)], inflows := t.inflows - {id})
  }

  /** Under the constraints the paired calls on a stored ingredient and a
      stored inflow both run: with a precision `toFixed` accepts the stock
      rises by `valueAdded` rounded to it and the inflow is gone; with any
      other precision the stock update fails Internal, yet the delete issued
      beside it still removes the inflow. */
  lemma RestockAndDeleteEffect(t: Tables, iid: Id, valueAdded: real, id: Id)
    requires WellFormed(t) && iid in t.ingredients && id in t.inflows
    ensures var i := t.ingredients[iid];
      var p := t.units[i.measurementUnit].precision;
      RestockAndDelete(t, (iid, i), valueAdded, id)
      == if FixedDigits(p) then (Settled(t, iid, i.currentStock + Round(valueAdded, p), id), Ok(()))
         else (t.(inflows := t.inflows - {id}), Err(Internal))
  {
    AddStockEffect(t, (iid, t.ingredients[iid]), valueAdded);
  }

  /** Setting one stored ingredient's stock and dropping one inflow keeps the
      constraints and moves no counter. */
  lemma SettledKeepsWellFormed(t: Tables, iid: Id, stock: real, id: Id)
    requires WellFormed(t) && iid in t.ingredients
    ensures WellFormed(Settled(t, iid, stock, id))
  {
    var j := t.ingredients[iid].(currentStock := stock);
    OwnNameFree(t.ingredients, IngredientName, iid);
    UniqueAfterPut(t.ingredients, IngredientName, iid, j);
  }

  lemma SettledKeepsConsistent(t: Tables, iid: Id, stock: real, id: Id)
    requires Consistent(t) && iid in t.ingredients
    ensures Consistent(Settled(t, iid, stock, id))
  {
    var j := t.ingredients[iid].(currentStock := stock);
    RewriteKeepsConsistent(t, iid, j);
    ConsistentReadsRows(t.(ingredients := t.ingredients[iid := j]), Settled(t, iid, stock, id));
  }

  lemma RestockAndDeleteKeepsWellFormed(t: Tables, iid: Id, valueAdded: real, id: Id)
    requires WellFormed(t) && iid in t.ingredients && id in t.inflows
    ensures WellFormed(RestockAndDelete(t, (iid, t.ingredients[iid]), valueAdded, id).0)
  {
    var i := t.ingredients[iid];
    var p := t.units[i.measurementUnit].precision;
    RestockAndDeleteEffect(t, iid, valueAdded, id);
    if FixedDigits(p) {
      SettledKeepsWellFormed(t, iid, i.currentStock + Round(valueAdded, p), id);
    } else {
      RemoveInflowKeepsWellFormed(t, id);
    }
  }

  lemma RestockAndDeleteKeepsConsistent(t: Tables, iid: Id, valueAdded: real, id: Id)
    requires WellFormed(t) && Consistent(t) && iid in t.ingredients && id in t.inflows
    ensures Consistent(RestockAndDelete(t, (iid, t.ingredients[iid]), valueAdded, id).0)
  {
    var i := t.ingredients[iid];
    var p := t.units[i.measurementUnit].precision;
    RestockAndDeleteEffect(t, iid, valueAdded, id);
    if FixedDigits(p) {
      SettledKeepsConsistent(t, iid, i.currentStock + Round(valueAdded, p), id);
    } else {
      ConsistentReadsRows(t, t.(inflows := t.inflows - {id}));
    }
  }

  /** Both deletes of a stored inflow of a stored ingredient are the paired
      calls, with the quantity and with its negation. */
  lemma DeleteInflowByIdSteps(t: Tables, id: Id, iid: Id, v: real)
    requires id in t.inflows && t.inflows[id].ingredientId == iid && iid in t.ingredients
    requires v == -t.inflows[id].quantity
    ensures DeleteInflowById(t, id) == RestockAndDelete(t, (iid, t.ingredients[iid]), t.inflows[id].quantity, id)
    ensures DeleteInflowByIdChecked(t, id) == RestockAndDelete(t, (iid, t.ingredients[iid]), v, id)
  {
  }

  /** Deleting an inflow as written: NotFound exactly when the inflow is
      absent, with no change; under the constraints a stored one is always
      deleted; with a precision `toFixed` accepts its ingredient's stock is
      then RAISED by its quantity once more, and with any other precision the
      answer is Internal although the inflow is gone. */
  lemma DeleteInflowByIdEffect(t: Tables, id: Id)
    requires WellFormed(t)
    ensures id !in t.inflows ==> DeleteInflowById(t, id) == (t, Err(NotFound))
    ensures id in t.inflows ==>
      var f := t.inflows[id];
      var i := t.ingredients[f.ingredientId];
      var p := t.units[i.measurementUnit].precision;
      DeleteInflowById(t, id)
      == if FixedDigits(p) then (Settled(t, f.ingredientId, i.currentStock + Round(f.quantity, p), id), Ok(()))
         else (t.(inflows := t.inflows - {id}), Err(Internal))
  {
    if id in t.inflows {
      var f := t.inflows[id];
      DeleteInflowByIdSteps(t, id, t.inflows[id].ingredientId, -t.inflows[id].quantity);
      RestockAndDeleteEffect(t, f.ingredientId, f.quantity, id);
    }
  }

  /** The corrected delete: the same outcomes, and the stock is LOWERED by
      the inflow's quantity. */
  lemma DeleteInflowByIdCheckedEffect(t: Tables, id: Id)
    requires WellFormed(t)
    ensures id !in t.inflows ==> DeleteInflowByIdChecked(t, id) == (t, Err(NotFound))
    ensures id in t.inflows ==>
      var f := t.inflows[id];
      var i := t.ingredients[f.ingredientId];
      var p := t.units[i.measurementUnit].precision;
      DeleteInflowByIdChecked(t, id)
      == if FixedDigits(p) then (Settled(t, f.ingredientId, i.currentStock - Round(f.quantity, p), id), Ok(()))
         else (t.(inflows := t.inflows - {id}), Err(Internal))
  {
    if id in t.inflows {
      var f := t.inflows[id];
      var i := t.ingredients[f.ingredientId];
      var p := t.units[i.measurementUnit].precision;
      var v := -f.quantity;
      DeleteInflowByIdSteps(t, id, f.ingredientId, v);
      RestockAndDeleteEffect(t, f.ingredientId, v, id);
      if FixedDigits(p) {
        RoundOdd(f.quantity, p);
        var stock := i.currentStock + Round(v, p);
        assert stock == i.currentStock - Round(f.quantity, p);
        assert Settled(t, f.ingredientId, stock, id) == Settled(t, f.ingredientId, i.currentStock - Round(f.quantity, p), id);
      }
    }
  }

  /** Both deletes keep the constraints and move no counter, whatever their
      outcome. */
  lemma DeleteInflowByIdKeepsInvariant(t: Tables, id: Id)
    requires WellFormed(t) && Consistent(t)
    ensures WellFormed(DeleteInflowById(t, id).0) && Consistent(DeleteInflowById(t, id).0)
  {
    if id in t.inflows {
      var f := t.inflows[id];
      DeleteInflowByIdSteps(t, id, t.inflows[id].ingredientId, -t.inflows[id].quantity);
      RestockAndDeleteKeepsWellFormed(t, f.ingredientId, f.quantity, id);
      RestockAndDeleteKeepsConsistent(t, f.ingredientId, f.quantity, id);
    }
  }

  lemma DeleteInflowByIdCheckedKeepsInvariant(t: Tables, id: Id)
    requires WellFormed(t) && Consistent(t)
    ensures WellFormed(DeleteInflowByIdChecked(t, id).0) && Consistent(DeleteInflowByIdChecked(t, id).0)
  {
    if id in t.inflows {
      var f := t.inflows[id];
      var v := -f.quantity;
      DeleteInflowByIdSteps(t, id, f.ingredientId, v);
      RestockAndDeleteKeepsWellFormed(t, f.ingredientId, v, id);
      RestockAndDeleteKeepsConsistent(t, f.ingredientId, v, id);
    }
  }

  /** The tables right after an inflow `f` of ingredient `iid` was recorded
      at the next key and the stock set to `stock`. */
  function Recorded(t: Tables, iid: Id, stock: real, f: Inflow): Tables
    requires iid in t.ingredients
  {
    t.(ingredients := t.ingredients[iid := t.ingredients[iid].(currentStock := stock)],
       inflows := t.inflows[t.next := f], next := t.next + 1)
  }

  /** What the recorded tables hold at the touched keys. */
  lemma RecordedRows(t: Tables, iid: Id, stock: real, f: Inflow)
    requires iid in t.ingredients
    ensures var t1 := Recorded(t, iid, stock, f);
      && t1.inflows[t.next] == f && t1.units == t.units
      && iid in t1.ingredients && t1.ingredients[iid] == t.ingredients[iid].(currentStock := stock)
  {
  }

  /** Dropping the inflow just recorded and setting the stock again leaves
      the tables as before the recording, with the stock set. */
  lemma DropRecorded(t: Tables, iid: Id, stock: real, f: Inflow, stock2: real)
    requires iid in t.ingredients && t.next !in t.inflows
    ensures Settled(Recorded(t, iid, stock, f), iid, stock2, t.next)
         == t.(ingredients := t.ingredients[iid := t.ingredients[iid].(currentStock := stock2)], next := t.next + 1)
  {
    var t1 := Recorded(t, iid, stock, f);
    var j := t.ingredients[iid].(currentStock := stock2);
    assert t1.ingredients[iid].(currentStock := stock2) == j;
    assert t1.ingredients[iid := j] == t.ingredients[iid := j];
    assert t.inflows[t.next := f] - {t.next} == t.inflows;
  }

  /** Recording an inflow of stored ingredient `i`: with a precision `toFixed`
      accepts and details given it lands in `Recorded`, the stock raised by
      the recorded quantity, the inflow at the next key; otherwise it fails
      Internal. */
  lemma CreateInflowRecorded(t: Tables, iid: Id, date: int, reason: string, price: real,
                             quantity: real, details: Option<string>, i: Ingredient)
    requires WellFormed(t) && iid in t.ingredients && t.ingredients[iid] == i
    ensures i.measurementUnit in t.units && t.next !in t.inflows
    ensures var p := t.units[i.measurementUnit].precision;
      !(FixedDigits(p) && details.Some?) ==> CreateInflow(t, iid, date, reason, price, quantity, details).1 == Err(Internal)
    ensures var p := t.units[i.measurementUnit].precision;
      FixedDigits(p) && details.Some? ==>
      var f := Inflow(iid, date, reason, price, Round(quantity, p), details);
      && CreateInflow(t, iid, date, reason, price, quantity, details)
         == (Recorded(t, iid, i.currentStock + f.quantity, f), Ok((t.next, f)))
      && WellFormed(Recorded(t, iid, i.currentStock + f.quantity, f))
  {
    CreateInflowEffect(t, iid, date, reason, price, quantity, details);
    CreateInflowKeepsWellFormed(t, iid, date, reason, price, quantity, details);
  }

  /** The recording of a given inflow `f`, once its precision and details pass,
      with what the deletes after it need. */
  lemma RecordedInflow(t: Tables, iid: Id, date: int, reason: string, price: real,
                       quantity: real, details: Option<string>, i: Ingredient, f: Inflow)
    requires WellFormed(t) && iid in t.ingredients && t.ingredients[iid] == i
    requires FixedDigits(t.units[i.measurementUnit].precision) && details.Some?
    requires f == Inflow(iid, date, reason, price, Round(quantity, t.units[i.measurementUnit].precision), details)
    ensures CreateInflow(t, iid, date, reason, price, quantity, details)
            == (Recorded(t, iid, i.currentStock + f.quantity, f), Ok((t.next, f)))
    ensures i.measurementUnit in t.units && t.next !in t.inflows && f.ingredientId == iid
    ensures Round(f.quantity, t.units[i.measurementUnit].precision) == f.quantity
    ensures WellFormed(Recorded(t, iid, i.currentStock + f.quantity, f))
  {
    CreateInflowRecorded(t, iid, date, reason, price, quantity, details, i);
    RoundIdempotent(quantity, t.units[i.measurementUnit].precision);
  }

  /** Deleting, as written, an inflow just recorded whose quantity is already
      rounded adds that quantity a second time; the inflow table is as before. */
  lemma DeleteRecorded(t: Tables, iid: Id, f: Inflow, i: Ingredient)
    requires iid in t.ingredients && t.ingredients[iid] == i && t.next !in t.inflows && f.ingredientId == iid
    requires i.measurementUnit in t.units && FixedDigits(t.units[i.measurementUnit].precision)
    requires Round(f.quantity, t.units[i.measurementUnit].precision) == f.quantity
    requires WellFormed(Recorded(t, iid, i.currentStock + f.quantity, f))
    ensures DeleteInflowById(Recorded(t, iid, i.currentStock + f.quantity, f), t.next)
         == (t.(ingredients := t.ingredients[iid := i.(currentStock := i.currentStock + 2.0 * f.quantity)],
                next := t.next + 1), Ok(()))
  {
    var t1 := Recorded(t, iid, i.currentStock + f.quantity, f);
    RecordedRows(t, iid, i.currentStock + f.quantity, f);
    DeleteInflowByIdEffect(t1, t.next);
    assert (i.currentStock + f.quantity) + f.quantity == i.currentStock + 2.0 * f.quantity;
    DropRecorded(t, iid, i.currentStock + f.quantity, f, i.currentStock + 2.0 * f.quantity);
  }

  /** The corrected delete of an inflow just recorded restores every table;
      only the key counter has moved on. */
  lemma DeleteRecordedChecked(t: Tables, iid: Id, f: Inflow, i: Ingredient)
    requires iid in t.ingredients && t.ingredients[iid] == i && t.next !in t.inflows && f.ingredientId == iid
    requires i.measurementUnit in t.units && FixedDigits(t.units[i.measurementUnit].precision)
    requires Round(f.quantity, t.units[i.measurementUnit].precision) == f.quantity
    requires WellFormed(Recorded(t, iid, i.currentStock + f.quantity, f))
    ensures DeleteInflowByIdChecked(Recorded(t, iid, i.currentStock + f.quantity, f), t.next)
         == (t.(next := t.next + 1), Ok(()))
  {
    var t1 := Recorded(t, iid, i.currentStock + f.quantity, f);
    RecordedRows(t, iid, i.currentStock + f.quantity, f);
    DeleteInflowByIdCheckedEffect(t1, t.next);
    assert (i.currentStock + f.quantity) - f.quantity == i.currentStock;
    DropRecorded(t, iid, i.currentStock + f.quantity, f, i.currentStock);
    assert i.(currentStock := i.currentStock) == i;
    assert t.ingredients[iid := i] == t.ingredients;
  }

  /** Recording an inflow and deleting it again as written leaves the
      ingredient with TWICE the recorded quantity added instead of none, and
      the inflow table as before (when the recording succeeds: a precision
      `toFixed` accepts and details given). */
  lemma CreateThenDeleteAddsTwice(t: Tables, iid: Id, date: int, reason: string, price: real,
                                  quantity: real, details: Option<string>)
    requires WellFormed(t) && iid in t.ingredients
    ensures var i := t.ingredients[iid];
      var p := t.units[i.measurementUnit].precision;
      FixedDigits(p) && details.Some? ==>
      var q := Round(quantity, p);
      var f := Inflow(iid, date, reason, price, q, details);
      && CreateInflow(t, iid, date, reason, price, quantity, details)
         == (Recorded(t, iid, i.currentStock + q, f), Ok((t.next, f)))
      && DeleteInflowById(Recorded(t, iid, i.currentStock + q, f), t.next)
         == (t.(ingredients := t.ingredients[iid := i.(currentStock := i.currentStock + 2.0 * q)], next := t.next + 1), Ok(()))
  {
    var i := t.ingredients[iid];
    var p := t.units[i.measurementUnit].precision;
    if FixedDigits(p) && details.Some? {
      var f := Inflow(iid, date, reason, price, Round(quantity, p), details);
      RecordedInflow(t, iid, date, reason, price, quantity, details, i, f);
      DeleteRecorded(t, iid, f, i);
    }
  }

  /** The counterexample: a stock of 0 in a unit of precision 1, an inflow of
      5.46 recorded at key `t.next` and deleted, ends at 11.0. */
  lemma CreateThenDeleteExample(t: Tables, iid: Id)
    requires WellFormed(t) && iid in t.ingredients && t.ingredients[iid].currentStock == 0.0
    requires t.units[t.ingredients[iid].measurementUnit].precision == 1
    ensures CreateInflow(t, iid, 0, "", 0.0, 5.46, Some("")).1 == Ok((t.next, Inflow(iid, 0, "", 0.0, 5.5, Some(""))))
    ensures DeleteInflowById(CreateInflow(t, iid, 0, "", 0.0, 5.46, Some("")).0, t.next).0.ingredients[iid].currentStock == 11.0
  {
    CreateThenDeleteAddsTwice(t, iid, 0, "", 0.0, 5.46, Some(""));
    RoundExample();
  }

  /** With the corrected delete, recording an inflow and deleting it again
      restores every table; only the key counter has moved on (when the
      recording succeeds: a precision `toFixed` accepts and details given). */
  lemma CreateThenDeleteCheckedRestores(t: Tables, iid: Id, date: int, reason: string, price: real,
                                        quantity: real, details: Option<string>)
    requires WellFormed(t) && iid in t.ingredients
    ensures var i := t.ingredients[iid];
      var p := t.units[i.measurementUnit].precision;
      FixedDigits(p) && details.Some? ==>
      var q := Round(quantity, p);
      var f := Inflow(iid, date, reason, price, q, details);
      && CreateInflow(t, iid, date, reason, price, quantity, details)
         == (Recorded(t, iid, i.currentStock + q, f), Ok((t.next, f)))
      && DeleteInflowByIdChecked(Recorded(t, iid, i.currentStock + q, f), t.next)
         == (t.(next := t.next + 1), Ok(()))
  {
    var i := t.ingredients[iid];
    var p := t.units[i.measurementUnit].precision;
    if FixedDigits(p) && details.Some? {
      var f := Inflow(iid, date, reason, price, Round(quantity, p), details);
      RecordedInflow(t, iid, date, reason, price, quantity, details, i, f);
      DeleteRecordedChecked(t, iid, f, i);
    }
  }
}
