/** The invariant the `ingredientsAssigned` columns are meant to keep: every
    catalog row's counter equals the number of ingredients that reference it.
    Consequently the counters of one catalog add up to the number of
    ingredients. */
module Counting {
  import opened Domain

  /** The ingredients whose reference into catalog `c` names row `x`. */
  ghost function Referrers(ings: map<Id, Ingredient>, c: Catalog, x: Id): set<Id> {
    set k | k in ings && Ref(c, ings[k]) == x
  }

  /** Every counter of catalog `c` equals its number of referrers. */
  ghost predicate CountedIn(t: Tables, c: Catalog) {
    forall x :: InCatalog(t, c, x) ==> Assigned(t, c, x) == |Referrers(t.ingredients, c, x)|
  }

  ghost predicate Consistent(t: Tables) {
    CountedIn(t, Units) && CountedIn(t, States) && CountedIn(t, Types)
  }

  /** A row is in use exactly when it has referrers; so under the invariant a
      row whose counter is 0 is referenced by no ingredient. */
  lemma InUseIffReferrers(ings: map<Id, Ingredient>, c: Catalog, x: Id)
    ensures InUse(ings, c, x) <==> |Referrers(ings, c, x)| > 0
  {
    if InUse(ings, c, x) {
      var k :| k in ings && Ref(c, ings[k]) == x;
      assert k in Referrers(ings, c, x);
    } else {
      assert Referrers(ings, c, x) == {};
    }
  }

  lemma CardWithout(s: set<Id>, id: Id)
    ensures |s| == |s - {id}| + (if id in s then 1 else 0)
  {
    if id in s {
      assert s == (s - {id}) + {id};
    } else {
      assert s - {id} == s;
    }
  }

  /** Writing ingredient `id` moves it out of the referrers of its old row and
      into those of its new row. */
  lemma ReferrersAfterPut(ings: map<Id, Ingredient>, c: Catalog, id: Id, i: Ingredient, x: Id)
    ensures |Referrers(ings[id := i], c, x)|
         == |Referrers(ings, c, x)| - (if id in ings && Ref(c, ings[id]) == x then 1 else 0)
            + (if Ref(c, i) == x then 1 else 0)
  {
    var before := Referrers(ings, c, x);
    var after := Referrers(ings[id := i], c, x);
    assert after - {id} == before - {id};
    assert id in after <==> Ref(c, i) == x;
    assert id in before <==> id in ings && Ref(c, ings[id]) == x;
    CardWithout(before, id);
    CardWithout(after, id);
  }

  /** Deleting ingredient `id` removes it from the referrers of its rows. */
  lemma ReferrersAfterRemove(ings: map<Id, Ingredient>, c: Catalog, id: Id, x: Id)
    ensures |Referrers(ings - {id}, c, x)|
         == |Referrers(ings, c, x)| - (if id in ings && Ref(c, ings[id]) == x then 1 else 0)
  {
    var before := Referrers(ings, c, x);
    assert Referrers(ings - {id}, c, x) == before - {id};
    CardWithout(before, id);
  }

  /** The counters of the rows of `c` with key below `n`, added up. */
  function SumAssigned(t: Tables, c: Catalog, n: nat): int {
    if n == 0 then 0
    else SumAssigned(t, c, n - 1) + (if InCatalog(t, c, n - 1) then Assigned(t, c, n - 1) else 0)
  }

  /** The ingredients whose reference into `c` is below `n`. */
  ghost function RefsBelow(ings: map<Id, Ingredient>, c: Catalog, n: nat): set<Id> {
    set k | k in ings && Ref(c, ings[k]) < n
  }

  /** Every reference into `c` names a row of `c`. */
  ghost predicate RefsResolve(t: Tables, c: Catalog) {
    forall k :: k in t.ingredients ==> InCatalog(t, c, Ref(c, t.ingredients[k]))
  }

  /** The references below `n + 1` are those below `n` and those to `n`. */
  lemma RefsBelowStep(ings: map<Id, Ingredient>, c: Catalog, n: nat)
    ensures |RefsBelow(ings, c, n + 1)| == |RefsBelow(ings, c, n)| + |Referrers(ings, c, n)|
  {
    var below := RefsBelow(ings, c, n);
    var at := Referrers(ings, c, n);
    assert RefsBelow(ings, c, n + 1) == below + at;
    assert below * at == {};
  }

  /** A row outside the catalog has no referrers while every reference
      resolves. */
  lemma NoReferrersOutside(t: Tables, c: Catalog, x: Id)
    requires RefsResolve(t, c) && !InCatalog(t, c, x)
    ensures Referrers(t.ingredients, c, x) == {}
  {
    forall k | k in t.ingredients ensures Ref(c, t.ingredients[k]) != x {
      assert InCatalog(t, c, Ref(c, t.ingredients[k]));
    }
  }

  lemma {:induction false} SumCountsReferrers(t: Tables, c: Catalog, n: nat)
    requires CountedIn(t, c) && RefsResolve(t, c)
    ensures SumAssigned(t, c, n) == |RefsBelow(t.ingredients, c, n)|
  {
    if n > 0 {
      SumCountsReferrers(t, c, n - 1);
      RefsBelowStep(t.ingredients, c, n - 1);
      if InCatalog(t, c, n - 1) {
        assert Assigned(t, c, n - 1) == |Referrers(t.ingredients, c, n - 1)|;
      } else {
        NoReferrersOutside(t, c, n - 1);
      }
    }
  }

  /** The counters of each catalog add up to the number of ingredients. */
  lemma SumIsIngredientCount(t: Tables, c: Catalog)
    requires WellFormed(t) && Consistent(t)
    ensures SumAssigned(t, c, t.next) == |t.ingredients|
  {
    SumCountsReferrers(t, c, t.next);
    assert RefsBelow(t.ingredients, c, t.next) == t.ingredients.Keys;
  }

  /** Setting one counter changes that catalog's sum by the difference and no
      other catalog's sum. */
  lemma {:induction false} SumAfterWithAssigned(t: Tables, c: Catalog, id: Id, v: int, d: Catalog, n: nat)
    requires InCatalog(t, c, id)
    ensures SumAssigned(WithAssigned(t, c, id, v), d, n)
         == SumAssigned(t, d, n) + (if d == c && id < n then v - Assigned(t, c, id) else 0)
  {
    if n > 0 {
      SumAfterWithAssigned(t, c, id, v, d, n - 1);
    }
  }

  /** Lowering one counter by 1 and raising another by 1 keeps every sum. */
  lemma MoveKeepsSum(t: Tables, c: Catalog, from: Id, target: Id, d: Catalog, n: nat)
    requires InCatalog(t, c, from) && InCatalog(t, c, target) && from != target
    requires from < n && target < n
    ensures SumAssigned(WithAssigned(WithAssigned(t, c, from, Assigned(t, c, from) - 1), c, target,
                                     Assigned(t, c, target) + 1), d, n)
         == SumAssigned(t, d, n)
  {
    var t1 := WithAssigned(t, c, from, Assigned(t, c, from) - 1);
    assert Assigned(t1, c, target) == Assigned(t, c, target);
    SumAfterWithAssigned(t, c, from, Assigned(t, c, from) - 1, d, n);
    SumAfterWithAssigned(t1, c, target, Assigned(t, c, target) + 1, d, n);
  }

  /** The sums read the catalogs only. */
  lemma {:induction false} SumReadsCatalogs(t: Tables, u: Tables, c: Catalog, n: nat)
    requires t.units == u.units && t.states == u.states && t.types == u.types
    ensures SumAssigned(t, c, n) == SumAssigned(u, c, n)
  {
    if n > 0 {
      SumReadsCatalogs(t, u, c, n - 1);
    }
  }

  /** Rewriting an ingredient with the same three references keeps every
      counter right. */
  lemma RewriteKeepsConsistent(t: Tables, id: Id, i: Ingredient)
    requires Consistent(t) && id in t.ingredients && SameRefs(i, t.ingredients[id])
    ensures Consistent(t.(ingredients := t.ingredients[id := i]))
  {
    var t' := t.(ingredients := t.ingredients[id := i]);
    forall c, x | InCatalog(t', c, x)
      ensures Assigned(t', c, x) == |Referrers(t'.ingredients, c, x)|
    {
      ReferrersAfterPut(t.ingredients, c, id, i, x);
      assert CountedIn(t, c);
    }
    assert CountedIn(t', Units) && CountedIn(t', States) && CountedIn(t', Types);
  }

  /** Adding ingredient `id` while raising by 1 exactly the counters of the
      rows it references keeps every counter right. */
  lemma InsertKeepsConsistent(t: Tables, u: Tables, id: Id, i: Ingredient)
    requires Consistent(t) && id !in t.ingredients
    requires u.ingredients == t.ingredients[id := i]
    requires forall c, x :: InCatalog(u, c, x) <==> InCatalog(t, c, x)
    requires forall c, x :: InCatalog(t, c, x) ==> Assigned(u, c, x) == Assigned(t, c, x) + (if x == Ref(c, i) then 1 else 0)
    ensures Consistent(u)
  {
    forall c, x | InCatalog(u, c, x)
      ensures Assigned(u, c, x) == |Referrers(u.ingredients, c, x)|
    {
      ReferrersAfterPut(t.ingredients, c, id, i, x);
      assert CountedIn(t, c);
    }
    assert CountedIn(u, Units) && CountedIn(u, States) && CountedIn(u, Types);
  }

  /** Removing ingredient `id` while lowering by 1 exactly the counters of the
      rows it referenced keeps every counter right. */
  lemma RemoveKeepsConsistent(t: Tables, u: Tables, id: Id)
    requires Consistent(t) && id in t.ingredients
    requires u.ingredients == t.ingredients - {id}
    requires forall c, x :: InCatalog(u, c, x) <==> InCatalog(t, c, x)
    requires forall c, x :: InCatalog(t, c, x) ==>
               Assigned(u, c, x) == Assigned(t, c, x) - (if x == Ref(c, t.ingredients[id]) then 1 else 0)
    ensures Consistent(u)
  {
    forall c, x | InCatalog(u, c, x)
      ensures Assigned(u, c, x) == |Referrers(u.ingredients, c, x)|
    {
      ReferrersAfterRemove(t.ingredients, c, id, x);
      assert CountedIn(t, c);
    }
    assert CountedIn(u, Units) && CountedIn(u, States) && CountedIn(u, Types);
  }

  /** Tables with the same catalogs have the same rows and counters. */
  lemma SameCatalogs(t: Tables, u: Tables)
    requires u.units == t.units && u.states == t.states && u.types == t.types
    ensures forall c, x :: InCatalog(u, c, x) <==> InCatalog(t, c, x)
    ensures forall c, x :: InCatalog(t, c, x) ==> Assigned(u, c, x) == Assigned(t, c, x)
  {
  }

  /** The invariant reads only the ingredients and the catalogs. */
  lemma ConsistentReadsRows(t: Tables, u: Tables)
    requires Consistent(t)
    requires u.ingredients == t.ingredients && u.units == t.units && u.states == t.states && u.types == t.types
    ensures Consistent(u)
  {
    assert CountedIn(u, Units) && CountedIn(u, States) && CountedIn(u, Types) by {
      assert CountedIn(t, Units) && CountedIn(t, States) && CountedIn(t, Types);
    }
  }

  /** Rewriting catalog rows without touching any counter or key keeps every
      counter right. */
  lemma CountersKeptKeepConsistent(t: Tables, u: Tables)
    requires Consistent(t) && u.ingredients == t.ingredients
    requires forall c, x :: InCatalog(u, c, x) <==> InCatalog(t, c, x)
    requires forall c, x :: InCatalog(t, c, x) ==> Assigned(u, c, x) == Assigned(t, c, x)
    ensures Consistent(u)
  {
    assert CountedIn(u, Units) && CountedIn(u, States) && CountedIn(u, Types) by {
      assert CountedIn(t, Units) && CountedIn(t, States) && CountedIn(t, Types);
    }
  }

  /** Adding catalog row `id` with counter 0, which no ingredient references,
      keeps every counter right. */
  lemma NewRowKeepsConsistent(t: Tables, u: Tables, c: Catalog, id: Id)
    requires Consistent(t) && u.ingredients == t.ingredients && !InUse(t.ingredients, c, id)
    requires forall d, x :: InCatalog(u, d, x) <==> InCatalog(t, d, x) || (d == c && x == id)
    requires InCatalog(u, c, id) && Assigned(u, c, id) == 0
    requires forall d, x :: InCatalog(t, d, x) && (d != c || x != id) ==> Assigned(u, d, x) == Assigned(t, d, x)
    ensures Consistent(u)
  {
    InUseIffReferrers(t.ingredients, c, id);
    assert CountedIn(u, Units) && CountedIn(u, States) && CountedIn(u, Types) by {
      assert CountedIn(t, Units) && CountedIn(t, States) && CountedIn(t, Types);
    }
  }
}
