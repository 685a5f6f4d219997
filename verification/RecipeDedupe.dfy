/** Merging duplicate recipe rows (alembic/versions/0067_stock_recipe_constraints_costs.py).
    Quantities are real numbers. */
module RecipeDedupe {

  import opened Common

  datatype Row = Row(target: int, ingredient: int, quantity: real, unit: Option<string>)

  type Table = map<nat, Row>

  datatype Pair = Pair(target: int, ingredient: int)

  function PairOf(r: Row): Pair {
    Pair(r.target, r.ingredient)
  }

  // ---------------------------------------------------------------- MIN and SUM

  predicate IsLeast(ids: set<nat>, m: nat) {
    m in ids && forall x :: x in ids ==> m <= x
  }

  lemma {:induction false} LeastExists(ids: set<nat>)
    requires ids != {}
    ensures exists m :: IsLeast(ids, m)
    decreases ids
  {
    var m :| m in ids;
    var rest := ids - {m};
    assert ids == rest + {m};
    if rest == {} {
      assert IsLeast(ids, m);
    } else {
      LeastExists(rest);
      var n :| IsLeast(rest, n);
      assert IsLeast(ids, if m < n then m else n);
    }
  }

  /** MIN(id) */
  function Least(ids: set<nat>): (m: nat)
    requires ids != {}
    ensures IsLeast(ids, m)
  {
    LeastExists(ids);
    var m :| IsLeast(ids, m);
    m
  }

  /** SUM(quantity) */
  function Sum(t: Table, ids: set<nat>): real
    requires ids <= t.Keys
    decreases ids
  {
    if ids == {} then 0.0 else t[Least(ids)].quantity + Sum(t, ids - {Least(ids)})
  }

  lemma {:induction false} SumTakes(t: Table, ids: set<nat>, x: nat)
    requires ids <= t.Keys && x in ids
    ensures Sum(t, ids) == t[x].quantity + Sum(t, ids - {x})
    decreases ids
  {
    var m := Least(ids);
    if m != x {
      SumTakes(t, ids - {m}, x);
      SumTakes(t, ids - {x}, m);
      assert ids - {m} - {x} == ids - {x} - {m};
    }
  }

  lemma {:induction false} SumSplits(t: Table, a: set<nat>, b: set<nat>)
    requires a + b <= t.Keys && a !! b
    ensures Sum(t, a + b) == Sum(t, a) + Sum(t, b)
    decreases a
  {
    if a == {} {
      assert a + b == b;
    } else {
      var x := Least(a);
      SumTakes(t, a + b, x);
      assert a + b - {x} == (a - {x}) + b;
      SumSplits(t, a - {x}, b);
    }
  }

  lemma {:induction false} SumSame(t: Table, u: Table, ids: set<nat>)
    requires ids <= t.Keys && ids <= u.Keys && forall x :: x in ids ==> t[x].quantity == u[x].quantity
    ensures Sum(t, ids) == Sum(u, ids)
    decreases ids
  {
    if ids != {} {
      SumSame(t, u, ids - {Least(ids)});
    }
  }

  lemma {:induction false} SumPositive(t: Table, ids: set<nat>)
    requires ids <= t.Keys && forall x :: x in ids ==> t[x].quantity > 0.0
    ensures Sum(t, ids) >= 0.0 && (ids != {} ==> Sum(t, ids) > 0.0)
    decreases ids
  {
    if ids != {} {
      SumPositive(t, ids - {Least(ids)});
    }
  }

  lemma SumSingle(t: Table, x: nat)
    requires x in t
    ensures Sum(t, {x}) == t[x].quantity
  {
    SumTakes(t, {x}, x);
    assert {x} - {x} == {};
  }

  // ---------------------------------------------------------------- the statements

  /** GROUP BY target, ingredient */
  function Group(t: Table, p: Pair): set<nat> {
    set id | id in t && PairOf(t[id]) == p
  }

  function Positive(t: Table): Table {
    map id | id in t && t[id].quantity > 0.0 :: t[id]
  }

  /** Groups HAVING COUNT(*) > 1 hand their sum to their lowest row. */
  function Summed(t: Table): Table {
    map id | id in t ::
      var g := Group(t, PairOf(t[id]));
      if |g| > 1 && id == LeastOf(t, id) then t[id].(quantity := Sum(t, g)) else t[id]
  }

  /** The lowest id of the row's group. */
  function LeastOf(t: Table, id: nat): nat
    requires id in t
  {
    assert id in Group(t, PairOf(t[id]));
    Least(Group(t, PairOf(t[id])))
  }

  /** Groups HAVING COUNT(*) > 1 lose all but their lowest row. */
  function Pruned(t: Table): Table {
    map id | id in t && (|Group(t, PairOf(t[id]))| <= 1 || id == LeastOf(t, id)) :: t[id]
  }

  /** Rows without a unit take their ingredient's. */
  function FillUnit(units: map<int, Option<string>>, r: Row): Row {
    if r.unit.None? && r.ingredient in units then r.(unit := units[r.ingredient]) else r
  }

  function Filled(t: Table, units: map<int, Option<string>>): Table {
    map id | id in t :: FillUnit(units, t[id])
  }

  // ---------------------------------------------------------------- reference definition

  /** The positive rows of a pair. */
  function Merged(t: Table, p: Pair): set<nat> {
    set id | id in t && t[id].quantity > 0.0 && PairOf(t[id]) == p
  }

  /** The row that its pair keeps: the lowest positive one. */
  ghost predicate Kept(t: Table, id: nat) {
    id in t && t[id].quantity > 0.0 && forall x :: x in Merged(t, PairOf(t[id])) ==> id <= x
  }

  /** One row per pair that has a positive row, holding the sum of the pair's positive rows. */
  ghost function Deduped(t: Table, units: map<int, Option<string>>): Table {
    map id | id in t && Kept(t, id) :: FillUnit(units, t[id].(quantity := Sum(t, Merged(t, PairOf(t[id])))))
  }

  class RecipeTable {
    var rows: Table

    constructor (t: Table)
      ensures rows == t
    {
      rows := t;
    }

    /** `_dedupe_recipe_table`: four statements, each on what the previous one left. */
    method Dedupe(units: map<int, Option<string>>)
      modifies this
      ensures rows == Deduped(old(rows), units)
    {
      rows := Positive(rows);
      rows := Summed(rows);
      rows := Pruned(rows);
      rows := Filled(rows, units);
      StatementsMerge(old(rows), units);
    }
  }

  lemma GroupOfPositive(t: Table, p: Pair)
    ensures Group(Positive(t), p) == Merged(t, p)
  {
  }

  lemma GroupOfSummed(t: Table, p: Pair)
    ensures Group(Summed(t), p) == Group(t, p)
  {
  }

  lemma OnlyOne(s: set<nat>, x: nat)
    requires x in s && |s| <= 1
    ensures s == {x}
  {
    assert |s - {x}| == 0;
    assert s == (s - {x}) + {x};
  }

  /** A row survives the two merging statements exactly when it is its group's lowest. */
  lemma PrunedSummed(t: Table, id: nat)
    requires id in t
    ensures id in Pruned(Summed(t)) <==> id == LeastOf(t, id)
    ensures id in Pruned(Summed(t)) ==> Pruned(Summed(t))[id] == t[id].(quantity := Sum(t, Group(t, PairOf(t[id]))))
  {
    var g := Group(t, PairOf(t[id]));
    var s := Summed(t);
    GroupOfSummed(t, PairOf(t[id]));
    assert id in g && PairOf(s[id]) == PairOf(t[id]);
    if |g| <= 1 {
      OnlyOne(g, id);
      SumSingle(t, id);
    }
  }

  /** What the merging statements leave of a row. */
  lemma MergedRow(t: Table, id: nat)
    ensures id in Pruned(Summed(Positive(t))) <==> Kept(t, id)
    ensures Kept(t, id) ==> Pruned(Summed(Positive(t)))[id] == t[id].(quantity := Sum(t, Merged(t, PairOf(t[id]))))
  {
    if id in Positive(t) {
      var pos, p := Positive(t), PairOf(t[id]);
      PrunedSummed(pos, id);
      GroupOfPositive(t, p);
      assert id in Merged(t, p);
      SumSame(pos, t, Merged(t, p));
    }
  }

  lemma FilledIsDeduped(t: Table, merged: Table, units: map<int, Option<string>>)
    requires forall id :: id in merged <==> Kept(t, id)
    requires forall id :: id in merged ==> id in t && merged[id] == t[id].(quantity := Sum(t, Merged(t, PairOf(t[id]))))
    ensures Filled(merged, units) == Deduped(t, units)
  {
  }

  /** The four statements together are the reference definition. */
  lemma StatementsMerge(t: Table, units: map<int, Option<string>>)
    ensures Filled(Pruned(Summed(Positive(t))), units) == Deduped(t, units)
  {
    forall id
      ensures id in Pruned(Summed(Positive(t))) <==> Kept(t, id)
      ensures Kept(t, id) ==> Pruned(Summed(Positive(t)))[id] == t[id].(quantity := Sum(t, Merged(t, PairOf(t[id]))))
    {
      MergedRow(t, id);
    }
    FilledIsDeduped(t, Pruned(Summed(Positive(t))), units);
  }

  // ---------------------------------------------------------------- results

  /** Afterwards pairs are unique and quantities positive: the constraints can be added. */
  lemma DedupedUniquePositive(t: Table, units: map<int, Option<string>>)
    ensures var d := Deduped(t, units);
            && (forall id :: id in d ==> d[id].quantity > 0.0)
            && (forall a, b :: a in d && b in d && a != b ==> PairOf(d[a]) != PairOf(d[b]))
  {
    var d := Deduped(t, units);
    forall id | id in d ensures d[id].quantity > 0.0 {
      assert id in Merged(t, PairOf(t[id]));
      SumPositive(t, Merged(t, PairOf(t[id])));
    }
    forall a, b | a in d && b in d && a != b ensures PairOf(d[a]) != PairOf(d[b]) {
      assert a in Merged(t, PairOf(t[a])) && b in Merged(t, PairOf(t[b]));
    }
  }

  /** A kept row has its own unit, or its ingredient's where it had none, and names what it named. */
  lemma KeptRowsUnit(t: Table, units: map<int, Option<string>>, id: nat)
    requires id in Deduped(t, units)
    ensures var row := Deduped(t, units)[id];
            && id in t && row.target == t[id].target && row.ingredient == t[id].ingredient
            && (t[id].unit.Some? ==> row.unit == t[id].unit)
            && (t[id].unit.None? && t[id].ingredient in units ==> row.unit == units[t[id].ingredient])
            && (t[id].unit.None? && t[id].ingredient !in units ==> row.unit.None?)
  {
  }

  /** A pair keeps a row exactly when it had a positive one; the row is the lowest of them and
      holds their sum. */
  lemma PairConserved(t: Table, units: map<int, Option<string>>, p: Pair)
    ensures Merged(t, p) == {} <==> Group(Deduped(t, units), p) == {}
    ensures Merged(t, p) != {} ==>
              var keep := Least(Merged(t, p));
              Group(Deduped(t, units), p) == {keep} && Deduped(t, units)[keep].quantity == Sum(t, Merged(t, p))
  {
    var d := Deduped(t, units);
    forall id | id in Group(d, p) ensures id in Merged(t, p) && forall x :: x in Merged(t, p) ==> id <= x {
    }
    if Merged(t, p) != {} {
      var keep := Least(Merged(t, p));
      assert Kept(t, keep);
      forall id | id in Group(d, p) ensures id == keep {
        assert id <= keep && keep <= id;
      }
      assert keep in Group(d, p);
    }
  }

  /** A table with unique pairs and positive quantities keeps all its rows and their quantities. */
  lemma UniquePositiveStays(d: Table, units: map<int, Option<string>>)
    requires forall id :: id in d ==> d[id].quantity > 0.0
    requires forall a, b :: a in d && b in d && a != b ==> PairOf(d[a]) != PairOf(d[b])
    ensures Deduped(d, units).Keys == d.Keys
    ensures forall id :: id in d ==> Deduped(d, units)[id] == FillUnit(units, d[id])
  {
    forall id | id in d ensures Kept(d, id) && Sum(d, Merged(d, PairOf(d[id]))) == d[id].quantity {
      assert Merged(d, PairOf(d[id])) == {id};
      SumSingle(d, id);
    }
  }

  /** Applying it a second time changes nothing. */
  lemma DedupeIdempotent(t: Table, units: map<int, Option<string>>)
    ensures Deduped(Deduped(t, units), units) == Deduped(t, units)
  {
    var d := Deduped(t, units);
    DedupedUniquePositive(t, units);
    UniquePositiveStays(d, units);
    forall id | id in d ensures FillUnit(units, d[id]) == d[id] { }
    assert forall id :: id in d ==> Deduped(d, units)[id] == d[id];
  }

  /** The positive rows whose pair is kept by one of `keepers`. */
  ghost function MergedInto(t: Table, keepers: set<nat>): set<nat> {
    set x | x in t && t[x].quantity > 0.0 && exists k :: k in keepers && k in t && PairOf(t[k]) == PairOf(t[x])
  }

  lemma MergedIntoNext(t: Table, units: map<int, Option<string>>, keepers: set<nat>, k: nat)
    requires keepers <= Deduped(t, units).Keys && k in keepers
    ensures MergedInto(t, keepers) == MergedInto(t, keepers - {k}) + Merged(t, PairOf(t[k]))
    ensures MergedInto(t, keepers - {k}) !! Merged(t, PairOf(t[k]))
  {
    var rest := keepers - {k};
    forall x | x in MergedInto(t, rest) ensures x !in Merged(t, PairOf(t[k])) {
      var j :| j in rest && j in t && PairOf(t[j]) == PairOf(t[x]);
      KeepersDiffer(t, units, j, k);
    }
    forall x | x in MergedInto(t, keepers) ensures x in MergedInto(t, rest) + Merged(t, PairOf(t[k])) {
      var j :| j in keepers && j in t && PairOf(t[j]) == PairOf(t[x]);
      assert j == k || j in rest;
    }
    forall x | x in Merged(t, PairOf(t[k])) ensures x in MergedInto(t, keepers) {
      assert k in keepers && k in t && PairOf(t[k]) == PairOf(t[x]);
    }
  }

  lemma KeepersDiffer(t: Table, units: map<int, Option<string>>, j: nat, k: nat)
    requires j in Deduped(t, units) && k in Deduped(t, units) && j != k
    ensures PairOf(t[j]) != PairOf(t[k])
  {
    DedupedUniquePositive(t, units);
    var d := Deduped(t, units);
    assert PairOf(d[j]) == PairOf(t[j]) && PairOf(d[k]) == PairOf(t[k]);
  }

  lemma {:induction false} KeepersHoldSum(t: Table, units: map<int, Option<string>>, keepers: set<nat>)
    requires keepers <= Deduped(t, units).Keys
    ensures Sum(Deduped(t, units), keepers) == Sum(t, MergedInto(t, keepers))
    decreases keepers
  {
    if keepers == {} {
      assert MergedInto(t, keepers) == {};
    } else {
      var k := Least(keepers);
      var rest := keepers - {k};
      KeepersHoldSum(t, units, rest);
      SumTakes(Deduped(t, units), keepers, k);
      MergedIntoNext(t, units, keepers, k);
      SumSplits(t, MergedInto(t, rest), Merged(t, PairOf(t[k])));
    }
  }

  /** Nothing is lost or invented: the table's total is the total of the positive rows. */
  lemma TotalConserved(t: Table, units: map<int, Option<string>>)
    ensures Positive(t).Keys <= t.Keys
    ensures Sum(Deduped(t, units), Deduped(t, units).Keys) == Sum(t, Positive(t).Keys)
  {
    var d := Deduped(t, units);
    KeepersHoldSum(t, units, d.Keys);
    forall x | x in Positive(t) ensures x in MergedInto(t, d.Keys) {
      var p := PairOf(t[x]);
      assert x in Merged(t, p);
      PairConserved(t, units, p);
      assert Least(Merged(t, p)) in d;
    }
    assert MergedInto(t, d.Keys) == Positive(t).Keys;
  }
}
