/** `assignToIngredient(target, ingredients)` on the value level, written once
    for the three catalogs: for each ingredient in list order whose reference
    into the catalog differs from the target, the old row's counter drops by 1
    and the target's rises by 1 (both updates are issued and the first failure
    in that order is reported); only when both succeeded is the ingredient
    switched to the target and saved. The first failure ends the loop. */
module Assignment {
  import opened Domain
  import opened Persistence
  import opened Counting
  import opened CatalogLogic
  import opened Listing

  /** An ingredient as the loop holds it: its key and the loaded row. */
  type Entry = (Id, Ingredient)

  /** One iteration of the loop. */
  function AssignOne(t: Tables, c: Catalog, target: Id, e: Entry): (r: (Tables, Result<Entry>))
    ensures r.0.inflows == t.inflows && r.0.next == t.next
    ensures forall d, x :: InCatalog(r.0, d, x) <==> InCatalog(t, d, x)
    ensures r.0.ingredients == t.ingredients || r.0.ingredients == t.ingredients[e.0 := WithRef(c, e.1, target)]
    ensures r.1.Ok? ==> r.1.value == (e.0, WithRef(c, e.1, target))
  {
    if Ref(c, e.1) == target then (t, Ok(e))
    else
      var (t1, r1) := UpdateAssigned(t, c, Ref(c, e.1), -1);
      var (t2, r2) := UpdateAssigned(t1, c, target, 1);
      if r1.Err? then (t2, Err(r1.error))
      else if r2.Err? then (t2, Err(r2.error))
      else
        var switched := WithRef(c, e.1, target);
        var (t3, w) := PutIngredient(t2, e.0, switched);
        if w == Written then (t3, Ok((e.0, switched))) else (t3, Err(Internal))
  }

  /** Every entry of `batch` under its own key, switched to `target` in `c`. */
  function Switched(c: Catalog, target: Id, batch: seq<Entry>): seq<Entry> {
    if |batch| == 0 then [] else [(batch[0].0, WithRef(c, batch[0].1, target))] + Switched(c, target, batch[1..])
  }

  /** Position `k` of the switched batch is the batch's entry `k`, switched. */
  lemma {:induction false} SwitchedAt(c: Catalog, target: Id, batch: seq<Entry>, k: int)
    requires 0 <= k < |batch|
    ensures |Switched(c, target, batch)| == |batch|
    ensures Switched(c, target, batch)[k] == (batch[k].0, WithRef(c, batch[k].1, target))
    decreases |batch|
  {
    SwitchedLength(c, target, batch);
    if k > 0 {
      SwitchedAt(c, target, batch[1..], k - 1);
      assert batch[1..][k - 1] == batch[k];
    }
  }

  lemma {:induction false} SwitchedLength(c: Catalog, target: Id, batch: seq<Entry>)
    ensures |Switched(c, target, batch)| == |batch|
    decreases |batch|
  {
    if |batch| > 0 {
      SwitchedLength(c, target, batch[1..]);
    }
  }

  /** The whole loop; on success it yields the entries as they now stand. */
  function AssignAll(t: Tables, c: Catalog, target: Id, batch: seq<Entry>): (r: (Tables, Result<seq<Entry>>))
    ensures r.1.Ok? ==> |r.1.value| == |batch|
    ensures r.1.Ok? ==> r.1.value == Switched(c, target, batch)
    decreases |batch|
  {
    if |batch| == 0 then (t, Ok([]))
    else
      var (t1, r1) := AssignOne(t, c, target, batch[0]);
      if r1.Err? then (t1, Err(r1.error))
      else
        var (t2, r2) := AssignAll(t1, c, target, batch[1..]);
        if r2.Err? then (t2, r2) else (t2, Ok([r1.value] + r2.value))
  }

  /** The tables after ingredient `id` moved from row `from` to row `target`
      of `c`, to be stored as `i`, with both counters adjusted. */
  function Move(t: Tables, c: Catalog, from: Id, target: Id, id: Id, i: Ingredient): Tables
    requires InCatalog(t, c, from) && InCatalog(t, c, target)
  {
    WithAssigned(WithAssigned(t, c, from, Assigned(t, c, from) - 1), c, target, Assigned(t, c, target) + 1)
      .(ingredients := t.ingredients[id := i])
  }

  /** The entries were loaded from `t` and are pairwise distinct, as the
      id-filtered fetch returns them. */
  ghost predicate Fresh(t: Tables, batch: seq<Entry>) {
    && (forall k :: 0 <= k < |batch| ==> batch[k].0 in t.ingredients && SameRefs(batch[k].1, t.ingredients[batch[k].0]))
    && (forall j, k :: 0 <= j < k < |batch| ==> batch[j].0 != batch[k].0)
  }

  /** One iteration: an ingredient already on the target is left alone and
      nothing is written; otherwise, on success, the old row lost one, the
      target gained one, and the ingredient now references the target. */
  lemma AssignOneEffect(t: Tables, c: Catalog, target: Id, e: Entry)
    ensures var (t', r) := AssignOne(t, c, target, e);
      && (Ref(c, e.1) == target ==> t' == t && r == Ok(e))
      && (Ref(c, e.1) != target && r.Ok? ==>
            var from := Ref(c, e.1);
            && InCatalog(t, c, from) && InCatalog(t, c, target)
            && r.value == (e.0, WithRef(c, e.1, target))
            && t' == Move(t, c, from, target, e.0, WithRef(c, e.1, target)))
  {
    if Ref(c, e.1) != target {
      var from := Ref(c, e.1);
      UpdateAssignedEffect(t, c, from, -1);
      var t1 := UpdateAssigned(t, c, from, -1).0;
      UpdateAssignedEffect(t1, c, target, 1);
    }
  }

  /** The ingredient is switched only after both counter updates succeeded:
      when either fails, no ingredient row has changed. */
  lemma AssignOneSwitchesLast(t: Tables, c: Catalog, target: Id, e: Entry)
    requires Ref(c, e.1) != target
    requires var (t1, r1) := UpdateAssigned(t, c, Ref(c, e.1), -1);
             r1.Err? || UpdateAssigned(t1, c, target, 1).1.Err?
    ensures AssignOne(t, c, target, e).1.Err?
    ensures AssignOne(t, c, target, e).0.ingredients == t.ingredients
  {
    var from := Ref(c, e.1);
    UpdateAssignedEffect(t, c, from, -1);
    UpdateAssignedEffect(UpdateAssigned(t, c, from, -1).0, c, target, 1);
  }

  /** Moving ingredient `id` from row `from` to row `target` of `c` while
      lowering and raising those two counters keeps every counter right. */
  lemma MoveKeepsConsistent(t: Tables, c: Catalog, target: Id, id: Id, i: Ingredient)
    requires Consistent(t) && id in t.ingredients
    requires InCatalog(t, c, Ref(c, t.ingredients[id])) && InCatalog(t, c, target)
    requires Ref(c, t.ingredients[id]) != target && Ref(c, i) == target
    requires forall d :: d != c ==> Ref(d, i) == Ref(d, t.ingredients[id])
    ensures Consistent(Move(t, c, Ref(c, t.ingredients[id]), target, id, i))
  {
    var from := Ref(c, t.ingredients[id]);
    var t1 := WithAssigned(t, c, from, Assigned(t, c, from) - 1);
    var t2 := WithAssigned(t1, c, target, Assigned(t, c, target) + 1);
    var t3 := t2.(ingredients := t.ingredients[id := i]);
    assert Move(t, c, from, target, id, i) == t3;
    forall d, x | InCatalog(t3, d, x)
      ensures Assigned(t3, d, x) == |Referrers(t3.ingredients, d, x)|
    {
      ReferrersAfterPut(t.ingredients, d, id, i, x);
      assert InCatalog(t, d, x);
      assert Assigned(t, d, x) == |Referrers(t.ingredients, d, x)| by {
        assert CountedIn(t, d);
      }
    }
    assert CountedIn(t3, Units) && CountedIn(t3, States) && CountedIn(t3, Types);
  }

  /** A successful iteration on an entry loaded from the tables keeps every
      counter right. */
  lemma AssignOneKeepsConsistent(t: Tables, c: Catalog, target: Id, e: Entry)
    requires Consistent(t) && e.0 in t.ingredients && SameRefs(e.1, t.ingredients[e.0])
    requires AssignOne(t, c, target, e).1.Ok?
    ensures Consistent(AssignOne(t, c, target, e).0)
  {
    AssignOneEffect(t, c, target, e);
    if Ref(c, e.1) != target {
      assert Ref(c, e.1) == Ref(c, t.ingredients[e.0]);
      MoveKeepsConsistent(t, c, target, e.0, WithRef(c, e.1, target));
    }
  }

  /** The two counter updates of one iteration keep the constraints. */
  lemma CounterUpdatesKeepWellFormed(t: Tables, c: Catalog, from: Id, target: Id)
    requires WellFormed(t)
    ensures WellFormed(UpdateAssigned(UpdateAssigned(t, c, from, -1).0, c, target, 1).0)
  {
    UpdateAssignedKeepsWellFormed(t, c, from, -1);
    UpdateAssignedKeepsWellFormed(UpdateAssigned(t, c, from, -1).0, c, target, 1);
  }

  /** The tables one iteration leaves behind, step by step. */
  lemma AssignOneTables(t: Tables, c: Catalog, target: Id, e: Entry)
    ensures var t1 := UpdateAssigned(t, c, Ref(c, e.1), -1);
            var t2 := UpdateAssigned(t1.0, c, target, 1);
            AssignOne(t, c, target, e).0
              == if Ref(c, e.1) == target then t
                 else if t1.1.Err? || t2.1.Err? then t2.0
                 else PutIngredient(t2.0, e.0, WithRef(c, e.1, target)).0
  {
  }

  lemma AssignOneKeepsWellFormed(t: Tables, c: Catalog, target: Id, e: Entry)
    requires WellFormed(t) && e.0 in t.ingredients
    ensures WellFormed(AssignOne(t, c, target, e).0)
  {
    AssignOneTables(t, c, target, e);
    if Ref(c, e.1) != target {
      var t1 := UpdateAssigned(t, c, Ref(c, e.1), -1);
      var t2 := UpdateAssigned(t1.0, c, target, 1);
      CounterUpdatesKeepWellFormed(t, c, Ref(c, e.1), target);
      if t1.1.Ok? && t2.1.Ok? {
        PutIngredientKeepsWellFormed(t2.0, e.0, WithRef(c, e.1, target));
      }
    }
  }

  /** After a successful iteration the rest of a fresh batch is still fresh,
      and so is the entry it produced. */
  lemma AssignOneKeepsFresh(t: Tables, c: Catalog, target: Id, batch: seq<Entry>)
    requires |batch| > 0 && Fresh(t, batch)
    requires AssignOne(t, c, target, batch[0]).1.Ok?
    ensures var (t', r) := AssignOne(t, c, target, batch[0]);
      Fresh(t', batch[1..]) && Fresh(t', [r.value])
      && t'.ingredients.Keys == t.ingredients.Keys
  {
    AssignOneEffect(t, c, target, batch[0]);
    var t' := AssignOne(t, c, target, batch[0]).0;
    forall k | 0 <= k < |batch[1..]|
      ensures batch[1..][k].0 in t'.ingredients && SameRefs(batch[1..][k].1, t'.ingredients[batch[1..][k].0])
    {
      assert batch[1..][k] == batch[k + 1];
      assert batch[0].0 != batch[k + 1].0;
    }
  }

  /** The loop keeps every counter right when it succeeds on a fresh batch. */
  lemma {:induction false} AssignAllKeepsConsistent(t: Tables, c: Catalog, target: Id, batch: seq<Entry>)
    requires Consistent(t) && Fresh(t, batch)
    requires AssignAll(t, c, target, batch).1.Ok?
    ensures Consistent(AssignAll(t, c, target, batch).0)
    decreases |batch|
  {
    if |batch| > 0 {
      var (t1, r1) := AssignOne(t, c, target, batch[0]);
      AssignOneKeepsConsistent(t, c, target, batch[0]);
      AssignOneKeepsFresh(t, c, target, batch);
      AssignAllKeepsConsistent(t1, c, target, batch[1..]);
    }
  }

  /** A successful loop on a fresh batch hands back entries that are fresh in
      the new tables. */
  lemma {:induction false} AssignAllYieldsFresh(t: Tables, c: Catalog, target: Id, batch: seq<Entry>)
    requires Fresh(t, batch)
    requires AssignAll(t, c, target, batch).1.Ok?
    ensures Fresh(AssignAll(t, c, target, batch).0, AssignAll(t, c, target, batch).1.value)
    decreases |batch|
  {
    if |batch| > 0 {
      AssignAllTables(t, c, target, batch);
      var (t1, r1) := AssignOne(t, c, target, batch[0]);
      AssignOneEffect(t, c, target, batch[0]);
      AssignOneKeepsFresh(t, c, target, batch);
      AssignAllYieldsFresh(t1, c, target, batch[1..]);
      var (t2, r2) := AssignAll(t1, c, target, batch[1..]);
      forall k | 0 <= k < |batch[1..]| ensures batch[1..][k].0 != r1.value.0 {
        assert batch[1..][k] == batch[k + 1];
      }
      forall k | 0 <= k < |r2.value| ensures r2.value[k].0 != r1.value.0 {
        SwitchedAt(c, target, batch[1..], k);
      }
      AssignAllFrame(t1, c, target, batch[1..], r1.value.0);
      FreshCons(t2, r1.value, r2.value);
    }
  }

  /** The loop adds and removes no ingredient. */
  lemma {:induction false} AssignAllKeepsKeys(t: Tables, c: Catalog, target: Id, batch: seq<Entry>)
    requires Fresh(t, batch)
    ensures AssignAll(t, c, target, batch).0.ingredients.Keys == t.ingredients.Keys
    decreases |batch|
  {
    if |batch| > 0 {
      AssignOneEffect(t, c, target, batch[0]);
      var (t1, r1) := AssignOne(t, c, target, batch[0]);
      if r1.Ok? {
        AssignOneKeepsFresh(t, c, target, batch);
        AssignAllKeepsKeys(t1, c, target, batch[1..]);
      }
    }
  }

  /** An ingredient outside a fresh batch is not touched by the loop. */
  lemma {:induction false} AssignAllFrame(t: Tables, c: Catalog, target: Id, batch: seq<Entry>, id: Id)
    requires Fresh(t, batch) && id in t.ingredients
    requires forall k :: 0 <= k < |batch| ==> batch[k].0 != id
    ensures id in AssignAll(t, c, target, batch).0.ingredients
    ensures AssignAll(t, c, target, batch).0.ingredients[id] == t.ingredients[id]
    decreases |batch|
  {
    if |batch| > 0 {
      var (t1, r1) := AssignOne(t, c, target, batch[0]);
      if r1.Ok? {
        AssignOneKeepsFresh(t, c, target, batch);
        forall k | 0 <= k < |batch[1..]| ensures batch[1..][k].0 != id {
          assert batch[1..][k] == batch[k + 1];
        }
        AssignAllFrame(t1, c, target, batch[1..], id);
      }
    }
  }

  /** The tables the loop leaves behind, one iteration at a time. */
  lemma AssignAllTables(t: Tables, c: Catalog, target: Id, batch: seq<Entry>)
    requires |batch| > 0
    ensures var (t1, r1) := AssignOne(t, c, target, batch[0]);
            var (t2, r2) := AssignAll(t1, c, target, batch[1..]);
            AssignAll(t, c, target, batch)
              == if r1.Err? then (t1, Err(r1.error))
                 else if r2.Err? then (t2, r2)
                 else (t2, Ok([r1.value] + r2.value))
  {
  }

  /** An entry fresh in the tables and not among the keys of a fresh batch
      extends it to a fresh batch. */
  lemma FreshCons(t: Tables, e: Entry, rest: seq<Entry>)
    requires Fresh(t, [e]) && Fresh(t, rest)
    requires forall k :: 0 <= k < |rest| ==> rest[k].0 != e.0
    ensures Fresh(t, [e] + rest)
  {
    var out := [e] + rest;
    forall k | 0 < k < |out| ensures out[k] == rest[k - 1] {
    }
  }

  lemma {:induction false} AssignAllKeepsWellFormed(t: Tables, c: Catalog, target: Id, batch: seq<Entry>)
    requires WellFormed(t) && Fresh(t, batch)
    ensures WellFormed(AssignAll(t, c, target, batch).0)
    decreases |batch|
  {
    if |batch| > 0 {
      AssignAllTables(t, c, target, batch);
      AssignOneKeepsWellFormed(t, c, target, batch[0]);
      var (t1, r1) := AssignOne(t, c, target, batch[0]);
      if r1.Ok? {
        AssignOneKeepsFresh(t, c, target, batch);
        AssignAllKeepsWellFormed(t1, c, target, batch[1..]);
      }
    }
  }

  /** A move keeps every catalog's counter sum. */
  lemma MoveKeepsSums(t: Tables, c: Catalog, from: Id, target: Id, id: Id, i: Ingredient, d: Catalog)
    requires InCatalog(t, c, from) && InCatalog(t, c, target) && from != target
    requires from < t.next && target < t.next
    ensures SumAssigned(Move(t, c, from, target, id, i), d, t.next) == SumAssigned(t, d, t.next)
  {
    var t2 := WithAssigned(WithAssigned(t, c, from, Assigned(t, c, from) - 1), c, target,
                           Assigned(t, c, target) + 1);
    assert Move(t, c, from, target, id, i) == t2.(ingredients := t.ingredients[id := i]);
    MoveKeepsSum(t, c, from, target, d, t.next);
    SumReadsCatalogs(Move(t, c, from, target, id, i), t2, d, t.next);
  }

  /** A successful iteration leaves every catalog's counter sum unchanged. */
  lemma AssignOneKeepsSum(t: Tables, c: Catalog, target: Id, e: Entry, d: Catalog)
    requires WellFormed(t)
    requires AssignOne(t, c, target, e).1.Ok?
    ensures SumAssigned(AssignOne(t, c, target, e).0, d, t.next) == SumAssigned(t, d, t.next)
  {
    AssignOneEffect(t, c, target, e);
    if Ref(c, e.1) != target {
      CatalogKeyBelowNext(t, c, Ref(c, e.1));
      CatalogKeyBelowNext(t, c, target);
      MoveKeepsSums(t, c, Ref(c, e.1), target, e.0, WithRef(c, e.1, target), d);
    }
  }

  /** A successful loop leaves every catalog's counter sum unchanged. */
  lemma {:induction false} AssignAllKeepsSum(t: Tables, c: Catalog, target: Id, batch: seq<Entry>, d: Catalog)
    requires WellFormed(t) && Fresh(t, batch)
    requires AssignAll(t, c, target, batch).1.Ok?
    ensures SumAssigned(AssignAll(t, c, target, batch).0, d, t.next) == SumAssigned(t, d, t.next)
    decreases |batch|
  {
    if |batch| > 0 {
      var (t1, r1) := AssignOne(t, c, target, batch[0]);
      AssignOneKeepsSum(t, c, target, batch[0], d);
      AssignOneKeepsWellFormed(t, c, target, batch[0]);
      AssignOneKeepsFresh(t, c, target, batch);
      AssignAllKeepsSum(t1, c, target, batch[1..], d);
    }
  }

  /** A batch whose ingredients all reference the target already changes
      nothing. */
  lemma {:induction false} AssignAllNoop(t: Tables, c: Catalog, target: Id, batch: seq<Entry>)
    requires forall k :: 0 <= k < |batch| ==> Ref(c, batch[k].1) == target
    ensures AssignAll(t, c, target, batch) == (t, Ok(batch))
    decreases |batch|
  {
    if |batch| > 0 {
      assert forall k :: 0 <= k < |batch[1..]| ==> batch[1..][k] == batch[k + 1];
      AssignAllNoop(t, c, target, batch[1..]);
      assert [batch[0]] + batch[1..] == batch;
    }
  }

  /** Entry `k` is the first to fail: the entries before it all succeeded, and
      the loop's outcome is the state and error that entry left. */
  ghost predicate FailsAt(t: Tables, c: Catalog, target: Id, batch: seq<Entry>, k: nat)
    requires k < |batch|
  {
    var (tk, rk) := AssignAll(t, c, target, batch[..k]);
    var (tf, rf) := AssignOne(tk, c, target, batch[k]);
    rk.Ok? && rf.Err? && AssignAll(t, c, target, batch) == (tf, Err(rf.error))
  }

  /** The loop processes the list in order and the first failure ends it: the
      entries before it are done, the failing one is the last one touched, and
      the later ones are never touched. */
  lemma {:induction false} AssignAllStopsAtFirstFailure(t: Tables, c: Catalog, target: Id, batch: seq<Entry>)
    requires AssignAll(t, c, target, batch).1.Err?
    ensures exists k :: 0 <= k < |batch| && FailsAt(t, c, target, batch, k)
    decreases |batch|
  {
    AssignAllTables(t, c, target, batch);
    var (t1, r1) := AssignOne(t, c, target, batch[0]);
    if r1.Err? {
      assert batch[..0] == [];
      assert FailsAt(t, c, target, batch, 0);
    } else {
      AssignAllStopsAtFirstFailure(t1, c, target, batch[1..]);
      var k :| 0 <= k < |batch[1..]| && FailsAt(t1, c, target, batch[1..], k);
      var prefix := batch[..k + 1];
      assert prefix[1..] == batch[1..][..k] && prefix[0] == batch[0];
      AssignAllTables(t, c, target, prefix);
      assert batch[1..][k] == batch[k + 1];
      assert FailsAt(t, c, target, batch, k + 1);
    }
  }

  /** The loop's outcome with `done` put in front of the entries it yields. */
  function Extend(done: seq<Entry>, p: (Tables, Result<seq<Entry>>)): (Tables, Result<seq<Entry>>) {
    (p.0, if p.1.Ok? then Ok(done + p.1.value) else p.1)
  }

  /** The loop from entry `i` on is one iteration followed by the loop from
      entry `i + 1` on. */
  lemma AssignAllStep(t: Tables, c: Catalog, target: Id, batch: seq<Entry>, i: nat)
    requires i < |batch|
    ensures AssignAll(t, c, target, batch[i..])
         == var (t1, r1) := AssignOne(t, c, target, batch[i]);
            if r1.Err? then (t1, Err(r1.error)) else Extend([r1.value], AssignAll(t1, c, target, batch[i + 1..]))
  {
    assert batch[i..][0] == batch[i];
    assert batch[i..][1..] == batch[i + 1..];
  }

  lemma ExtendTwice(done: seq<Entry>, more: seq<Entry>, p: (Tables, Result<seq<Entry>>))
    ensures Extend(done, Extend(more, p)) == Extend(done + more, p)
  {
    if p.1.Ok? {
      assert done + (more + p.1.value) == (done + more) + p.1.value;
    }
  }

  /** The entries are exactly the stored rows, pairwise distinct: what the
      id-filtered fetch returns. */
  ghost predicate Loaded(t: Tables, batch: seq<Entry>) {
    Fresh(t, batch) && forall k :: 0 <= k < |batch| ==> batch[k].1 == t.ingredients[batch[k].0]
  }

  /** Entry `e` holds the stored row's references and a name no other
      ingredient holds: the stored row itself, or it renamed to a free name. */
  predicate Renamable(t: Tables, e: Entry) {
    e.0 in t.ingredients && SameRefs(e.1, t.ingredients[e.0])
    && !NameUsed(t.ingredients - {e.0}, IngredientName, e.1.name)
  }

  /** While the constraints hold, an iteration on a stored row, possibly
      renamed to a free name, towards an existing target never fails. */
  lemma AssignOneSucceeds(t: Tables, c: Catalog, target: Id, e: Entry)
    requires WellFormed(t) && InCatalog(t, c, target) && Renamable(t, e)
    ensures AssignOne(t, c, target, e).1.Ok?
  {
    var from := Ref(c, e.1);
    assert RefsExist(t, t.ingredients[e.0]);
    if from != target {
      assert RefsExist(t, e.1);
      assert InCatalog(t, c, from);
      UpdateAssignedEffect(t, c, from, -1);
      UpdateAssignedKeepsWellFormed(t, c, from, -1);
      var t1 := UpdateAssigned(t, c, from, -1).0;
      UpdateAssignedEffect(t1, c, target, 1);
      UpdateAssignedKeepsWellFormed(t1, c, target, 1);
      var t2 := UpdateAssigned(t1, c, target, 1).0;
      var switched := WithRef(c, e.1, target);
      assert InCatalog(t2, Units, Ref(Units, switched)) && InCatalog(t2, States, Ref(States, switched))
          && InCatalog(t2, Types, Ref(Types, switched)) by {
        assert InCatalog(t, Units, Ref(Units, e.1)) && InCatalog(t, States, Ref(States, e.1))
            && InCatalog(t, Types, Ref(Types, e.1));
      }
      assert RefsExist(t2, switched);
    }
  }

  /** What a successful iteration on a renamable row hands back is renamable
      in the new tables. */
  lemma AssignOneKeepsRenamable(t: Tables, c: Catalog, target: Id, e: Entry)
    requires Renamable(t, e) && AssignOne(t, c, target, e).1.Ok?
    ensures Renamable(AssignOne(t, c, target, e).0, AssignOne(t, c, target, e).1.value)
  {
    AssignOneEffect(t, c, target, e);
    var (t', r) := AssignOne(t, c, target, e);
    if Ref(c, e.1) != target {
      assert t'.ingredients == t.ingredients[e.0 := WithRef(c, e.1, target)];
      assert t'.ingredients - {e.0} == t.ingredients - {e.0};
    }
  }

  /** A row as stored is renamable: under the constraints its own name is free
      among the others. */
  lemma StoredRenamable(t: Tables, e: Entry)
    requires WellFormed(t) && e.0 in t.ingredients && e.1 == t.ingredients[e.0]
    ensures Renamable(t, e)
  {
    OwnNameFree(t.ingredients, IngredientName, e.0);
  }

  /** After a successful iteration the rest of a loaded batch is still loaded. */
  lemma AssignOneKeepsLoaded(t: Tables, c: Catalog, target: Id, batch: seq<Entry>)
    requires |batch| > 0 && Loaded(t, batch)
    requires AssignOne(t, c, target, batch[0]).1.Ok?
    ensures Loaded(AssignOne(t, c, target, batch[0]).0, batch[1..])
  {
    AssignOneKeepsFresh(t, c, target, batch);
    var t1 := AssignOne(t, c, target, batch[0]).0;
    forall k | 0 <= k < |batch[1..]|
      ensures batch[1..][k].1 == t1.ingredients[batch[1..][k].0]
    {
      assert batch[1..][k] == batch[k + 1];
      assert batch[0].0 != batch[k + 1].0;
    }
  }

  /** While the constraints hold, the loop over freshly loaded rows towards an
      existing target never fails. */
  lemma {:induction false} AssignAllSucceeds(t: Tables, c: Catalog, target: Id, batch: seq<Entry>)
    requires WellFormed(t) && InCatalog(t, c, target) && Loaded(t, batch)
    ensures AssignAll(t, c, target, batch).1.Ok?
    decreases |batch|
  {
    if |batch| > 0 {
      StoredRenamable(t, batch[0]);
      AssignOneSucceeds(t, c, target, batch[0]);
      AssignOneKeepsWellFormed(t, c, target, batch[0]);
      AssignOneKeepsLoaded(t, c, target, batch);
      var t1 := AssignOne(t, c, target, batch[0]).0;
      AssignAllSucceeds(t1, c, target, batch[1..]);
    }
  }

  /** The tests' case: of two loaded ingredients the first already points at
      the target and is skipped, the second is moved; the tables change by
      that one move, so by one counter down, one counter up and one saved
      ingredient. */
  lemma AssignOneOfTwo(t: Tables, c: Catalog, target: Id, a: Entry, b: Entry)
    requires WellFormed(t) && InCatalog(t, c, target)
    requires a.0 in t.ingredients && t.ingredients[a.0] == a.1 && Ref(c, a.1) == target
    requires b.0 in t.ingredients && t.ingredients[b.0] == b.1 && Ref(c, b.1) != target
    ensures InCatalog(t, c, Ref(c, b.1))
    ensures AssignAll(t, c, target, [a, b])
         == (Move(t, c, Ref(c, b.1), target, b.0, WithRef(c, b.1, target)),
             Ok([a, (b.0, WithRef(c, b.1, target))]))
  {
    AssignOneEffect(t, c, target, a);
    StoredRenamable(t, b);
    AssignOneSucceeds(t, c, target, b);
    AssignOneEffect(t, c, target, b);
    var moved := WithRef(c, b.1, target);
    AssignTwoSteps(t, c, target, a, b, Move(t, c, Ref(c, b.1), target, b.0, moved), (b.0, moved));
  }

  /** The loop over two entries when the first is skipped and the second
      succeeds. */
  lemma AssignTwoSteps(t: Tables, c: Catalog, target: Id, a: Entry, b: Entry, t2: Tables, e2: Entry)
    requires AssignOne(t, c, target, a) == (t, Ok(a))
    requires AssignOne(t, c, target, b) == (t2, Ok(e2))
    ensures AssignAll(t, c, target, [a, b]) == (t2, Ok([a, e2]))
  {
    AssignAllTables(t, c, target, [a, b]);
    assert [a, b][1..] == [b];
    AssignAllTables(t, c, target, [b]);
    assert [b][1..] == [];
    assert AssignAll(t2, c, target, []) == (t2, Ok([]));
    assert [e2] + [] == [e2] && [a] + [e2] == [a, e2];
    assert AssignAll(t, c, target, [b]) == (t2, Ok([e2]));
  }

  /** After a successful loop every ingredient of the batch references the
      target. */
  lemma {:induction false} AssignAllOnTarget(t: Tables, c: Catalog, target: Id, batch: seq<Entry>)
    requires Fresh(t, batch) && AssignAll(t, c, target, batch).1.Ok?
    ensures var t' := AssignAll(t, c, target, batch).0;
      forall k :: 0 <= k < |batch| ==> batch[k].0 in t'.ingredients && Ref(c, t'.ingredients[batch[k].0]) == target
    decreases |batch|
  {
    if |batch| > 0 {
      AssignOneEffect(t, c, target, batch[0]);
      AssignOneKeepsFresh(t, c, target, batch);
      var t1 := AssignOne(t, c, target, batch[0]).0;
      var t' := AssignAll(t, c, target, batch).0;
      assert t' == AssignAll(t1, c, target, batch[1..]).0;
      AssignAllOnTarget(t1, c, target, batch[1..]);
      forall k | 0 <= k < |batch[1..]| ensures batch[1..][k].0 != batch[0].0 {
        assert batch[1..][k] == batch[k + 1];
      }
      assert batch[0].0 in t1.ingredients && Ref(c, t1.ingredients[batch[0].0]) == target by {
        assert SameRefs(batch[0].1, t.ingredients[batch[0].0]);
        assert Ref(c, t.ingredients[batch[0].0]) == Ref(c, batch[0].1);
      }
      AssignAllFrame(t1, c, target, batch[1..], batch[0].0);
      forall k | 0 <= k < |batch| ensures batch[k].0 in t'.ingredients && Ref(c, t'.ingredients[batch[k].0]) == target {
        if k > 0 {
          assert batch[k] == batch[1..][k - 1];
        }
      }
    }
  }

  /** The assign route: look the target up (NotFound), fetch the requested
      ingredients, run the loop. */
  function AssignRoute(t: Tables, c: Catalog, target: Id, ids: seq<Id>): (Tables, Result<()>) {
    if !InCatalog(t, c, target) then (t, Err(NotFound))
    else
      var (t', r) := AssignAll(t, c, target, FilterIngredients(t, ids));
      (t', if r.Ok? then Ok(()) else Err(r.error))
  }

  /** The fetched rows form a loaded batch. */
  lemma FilterIngredientsLoaded(t: Tables, ids: seq<Id>)
    ensures Loaded(t, FilterIngredients(t, ids))
  {
    var b := FilterIngredients(t, ids);
    assert forall k :: 0 <= k < |b| ==> b[k] in b;
  }

  /** The route for an unknown target fails NotFound and changes nothing. */
  lemma AssignRouteUnknownTarget(t: Tables, c: Catalog, target: Id, ids: seq<Id>)
    requires !InCatalog(t, c, target)
    ensures AssignRoute(t, c, target, ids) == (t, Err(NotFound))
  {
  }

  /** With the constraints holding and the counters right, the route succeeds
      exactly when the target exists, and it keeps both. */
  lemma AssignRouteKeepsInvariant(t: Tables, c: Catalog, target: Id, ids: seq<Id>)
    requires WellFormed(t) && Consistent(t)
    ensures AssignRoute(t, c, target, ids).1.Ok? <==> InCatalog(t, c, target)
    ensures WellFormed(AssignRoute(t, c, target, ids).0) && Consistent(AssignRoute(t, c, target, ids).0)
  {
    if InCatalog(t, c, target) {
      var b := FilterIngredients(t, ids);
      FilterIngredientsLoaded(t, ids);
      AssignAllSucceeds(t, c, target, b);
      AssignAllKeepsConsistent(t, c, target, b);
      AssignAllKeepsWellFormed(t, c, target, b);
    }
  }

  /** On success every requested ingredient references the target and no
      ingredient was added or removed. */
  lemma AssignRouteSwitches(t: Tables, c: Catalog, target: Id, ids: seq<Id>)
    requires WellFormed(t) && AssignRoute(t, c, target, ids).1.Ok?
    ensures AssignRoute(t, c, target, ids).0.ingredients.Keys == t.ingredients.Keys
    ensures forall k :: k in t.ingredients && (|ids| > 0 ==> k in ids) ==>
                        Ref(c, AssignRoute(t, c, target, ids).0.ingredients[k]) == target
  {
    var b := FilterIngredients(t, ids);
    FilterIngredientsLoaded(t, ids);
    AssignAllKeepsKeys(t, c, target, b);
    AssignAllOnTarget(t, c, target, b);
    var t' := AssignAll(t, c, target, b).0;
    forall k | k in t.ingredients && (|ids| > 0 ==> k in ids)
      ensures Ref(c, t'.ingredients[k]) == target
    {
      assert (k, t.ingredients[k]) in b;
      var j :| 0 <= j < |b| && b[j] == (k, t.ingredients[k]);
    }
  }

  /** The ingredients that were not requested are left as they were. */
  lemma AssignRouteFrame(t: Tables, c: Catalog, target: Id, ids: seq<Id>, k: Id)
    requires |ids| > 0 && k in t.ingredients && k !in ids
    ensures k in AssignRoute(t, c, target, ids).0.ingredients
    ensures AssignRoute(t, c, target, ids).0.ingredients[k] == t.ingredients[k]
  {
    if InCatalog(t, c, target) {
      var b := FilterIngredients(t, ids);
      FilterIngredientsLoaded(t, ids);
      assert forall j :: 0 <= j < |b| ==> b[j] in b;
      AssignAllFrame(t, c, target, b, k);
    }
  }

  /** Requested ids that name no ingredient are dropped without a report: the
      route acts as if they had not been sent. */
  lemma AssignRouteDropsUnknown(t: Tables, c: Catalog, target: Id, ids: seq<Id>, unknown: Id)
    requires |ids| > 0 && unknown !in t.ingredients
    ensures AssignRoute(t, c, target, ids + [unknown]) == AssignRoute(t, c, target, ids)
  {
    assert Restrict(t.ingredients, ids + [unknown]) == Restrict(t.ingredients, ids);
  }
}
