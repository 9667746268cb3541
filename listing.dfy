/** Reads that return lists of rows: a whole table, the ingredients with the
    requested ids, and the inflows newest first. */
module Listing {
  import opened Domain

  /** The rows of `m` with key below `n`, in increasing key order. */
  function Rows<V(==,!new)>(m: map<Id, V>, n: nat): (r: seq<(Id, V)>)
    ensures forall e :: e in r <==> e.0 in m && e.0 < n && m[e.0] == e.1
    ensures forall i, j :: 0 <= i < j < |r| ==> r[i].0 < r[j].0
    ensures forall i :: 0 <= i < |r| ==> r[i].0 < n
  {
    if n == 0 then []
    else
      var before := Rows(m, n - 1);
      if n - 1 in m then before + [(n - 1, m[n - 1])] else before
  }

  /** The rows of `m` whose key is in `ids`. */
  function Restrict<V>(m: map<Id, V>, ids: seq<Id>): (r: map<Id, V>)
    ensures forall k :: k in r <==> k in m && k in ids
    ensures forall k :: k in r ==> r[k] == m[k]
  {
    map k | k in m && k in ids :: m[k]
  }

  /** `getIngredients({ ids })`: with a non-empty `ids` the ingredients whose key
      is listed, otherwise all of them. */
  function FilterIngredients(t: Tables, ids: seq<Id>): (r: seq<(Id, Ingredient)>)
    ensures forall e :: e in r <==> (e.0 in t.ingredients && e.0 < t.next && t.ingredients[e.0] == e.1
                                    && (|ids| > 0 ==> e.0 in ids))
    ensures forall i, j :: 0 <= i < j < |r| ==> r[i].0 < r[j].0
  {
    if |ids| > 0 then Rows(Restrict(t.ingredients, ids), t.next) else Rows(t.ingredients, t.next)
  }

  /** Each inflow is at least as recent as the next one. */
  predicate NewestFirst(rows: seq<(Id, Inflow)>) {
    forall i :: 0 < i < |rows| ==> rows[i - 1].1.date >= rows[i].1.date
  }

  /** So every inflow is at least as recent as every later one. */
  lemma {:induction false} NewestFirstPairwise(rows: seq<(Id, Inflow)>, i: nat, j: nat)
    requires NewestFirst(rows) && i <= j < |rows|
    ensures rows[i].1.date >= rows[j].1.date
    decreases j - i
  {
    if i < j {
      NewestFirstPairwise(rows, i + 1, j);
    }
  }

  /** Places `x` into a newest-first list after every row at least as recent. */
  function InsertByDate(x: (Id, Inflow), rows: seq<(Id, Inflow)>): (r: seq<(Id, Inflow)>)
    requires NewestFirst(rows)
    ensures NewestFirst(r)
    ensures multiset(r) == multiset(rows) + multiset{x}
    ensures r[0] == x || (|rows| > 0 && r[0] == rows[0])
  {
    if |rows| == 0 then [x]
    else if rows[0].1.date >= x.1.date then
      assert rows == [rows[0]] + rows[1..];
      NewestFirstTail(rows);
      var rest := InsertByDate(x, rows[1..]);
      NewestFirstCons(rows[0], rest);
      [rows[0]] + rest
    else
      NewestFirstCons(x, rows);
      [x] + rows
  }

  lemma NewestFirstTail(rows: seq<(Id, Inflow)>)
    requires NewestFirst(rows) && |rows| > 0
    ensures NewestFirst(rows[1..])
    ensures |rows| > 1 ==> rows[0].1.date >= rows[1].1.date
  {
    forall i | 0 < i < |rows| - 1
      ensures rows[1..][i - 1].1.date >= rows[1..][i].1.date
    {
      assert rows[1..][i - 1] == rows[i] && rows[1..][i] == rows[i + 1];
    }
  }

  lemma NewestFirstCons(a: (Id, Inflow), rest: seq<(Id, Inflow)>)
    requires NewestFirst(rest) && (|rest| > 0 ==> a.1.date >= rest[0].1.date)
    ensures NewestFirst([a] + rest)
  {
    var r := [a] + rest;
    forall i | 0 < i < |r|
      ensures r[i - 1].1.date >= r[i].1.date
    {
      if i > 1 {
        assert r[i - 1] == rest[i - 2] && r[i] == rest[i - 1];
      }
    }
  }

  /** `ORDER BY date DESC`: the same rows, newest first. */
  function SortNewestFirst(rows: seq<(Id, Inflow)>): (r: seq<(Id, Inflow)>)
    ensures NewestFirst(r)
    ensures multiset(r) == multiset(rows)
  {
    if |rows| == 0 then []
    else
      assert rows == [rows[0]] + rows[1..];
      InsertByDate(rows[0], SortNewestFirst(rows[1..]))
  }

  /** Rows with the same multiset hold the same members. */
  lemma SameMembers<T>(a: seq<T>, b: seq<T>)
    requires multiset(a) == multiset(b)
    ensures forall x :: x in a <==> x in b
  {
    forall x
      ensures x in a <==> x in b
    {
      assert x in a <==> x in multiset(a);
      assert x in b <==> x in multiset(b);
    }
  }
}
