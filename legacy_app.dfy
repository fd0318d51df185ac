/**
 * The first version of the application: one table of records with no
 * owner, a fixed price of 50.0 per litre and a `total_cost` column holding
 * the running total at the moment each record was added.
 */
module LegacyApp {
  import opened Wrappers
  import opened Dates

  const LegacyPrice: real := 50.0

  datatype LegacyMilk = LegacyMilk(
    id: int,
    date: Option<string>,
    milkQty: Option<real>,
    cost: Option<real>,
    totalCost: Option<real>)

  /** `SELECT sum(cost)`, where NULL costs are skipped and `or 0.0` turns an empty sum into 0.0. */
  function SumStoredCosts(rows: seq<LegacyMilk>): (total: real)
    ensures (forall i :: 0 <= i < |rows| ==> rows[i].cost.GetOr(0.0) >= 0.0) ==> total >= 0.0
    ensures (forall i :: 0 <= i < |rows| ==> rows[i].cost.None?) ==> total == 0.0
  {
    if |rows| == 0 then 0.0
    else SumStoredCosts(rows[..|rows| - 1]) + rows[|rows| - 1].cost.GetOr(0.0)
  }

  /** Every record's `total_cost` is the sum of the costs up to and including it. */
  predicate RunningTotals(rows: seq<LegacyMilk>) {
    forall i :: 0 <= i < |rows| ==> rows[i].totalCost == Some(SumStoredCosts(rows[..i + 1]))
  }

  predicate IdsAscending(rows: seq<LegacyMilk>) {
    forall i, j :: 0 <= i < j < |rows| ==> rows[i].id < rows[j].id
  }

  datatype LegacyAddOutcome = QuantityNotNumber | LegacyAdded(id: int)
  datatype LegacyDeleteOutcome = NotFound | LegacyDeleted

  /** Position of the record with that primary key, or -1 (`get_or_404`). */
  function LegacyIndex(rows: seq<LegacyMilk>, id: int): (k: int)
    ensures -1 <= k < |rows|
    ensures k >= 0 ==> rows[k].id == id
    ensures k == -1 <==> forall i :: 0 <= i < |rows| ==> rows[i].id != id
  {
    if |rows| == 0 then -1
    else if rows[0].id == id then 0
    else
      var k := LegacyIndex(rows[1..], id);
      assert forall i :: 1 <= i < |rows| ==> rows[i] == rows[1..][i - 1];
      if k == -1 then -1 else k + 1
  }

  class LegacyStore {
    var rows: seq<LegacyMilk>
    var nextId: int

    ghost predicate Valid()
      reads this
    {
      IdsAscending(rows) && forall i :: 0 <= i < |rows| ==> rows[i].id < nextId
    }

    constructor ()
      ensures Valid() && rows == []
    {
      rows := [];
      nextId := 1;
    }

    /**
     * `add`: the cost is the quantity at the fixed price, the running total
     * is every stored cost so far plus this one, and the date is today's.
     * A quantity `float` cannot read raises and nothing is stored.
     */
    method Add(qty: Option<real>, today: Date) returns (o: LegacyAddOutcome)
      requires Valid() && ValidDate(today)
      modifies this
      ensures Valid()
      ensures qty.None? <==> o == QuantityNotNumber
      ensures o == QuantityNotNumber ==> rows == old(rows) && nextId == old(nextId)
      ensures o.LegacyAdded? ==>
        o.id == old(nextId) && nextId == old(nextId) + 1 &&
        rows == old(rows) + [LegacyMilk(o.id, Some(FormatDayMonthYear(today)), qty,
                                        Some(qty.value * LegacyPrice),
                                        Some(SumStoredCosts(old(rows)) + qty.value * LegacyPrice))]
    {
      if qty.None? {
        return QuantityNotNumber;
      }
      var cost := qty.value * LegacyPrice;
      var prevTotal := SumStoredCosts(rows);
      var row := LegacyMilk(nextId, Some(FormatDayMonthYear(today)), qty, Some(cost), Some(prevTotal + cost));
      rows := rows + [row];
      nextId := nextId + 1;
      return LegacyAdded(row.id);
    }

    /** `delete_data`: 404 for an unknown id; otherwise exactly that record goes. */
    method Delete(id: int) returns (o: LegacyDeleteOutcome)
      requires Valid()
      modifies this
      ensures Valid() && nextId == old(nextId)
      ensures var k := LegacyIndex(old(rows), id);
        && (k == -1 <==> o == NotFound)
        && (k == -1 ==> rows == old(rows))
        && (k >= 0 ==> rows == old(rows)[..k] + old(rows)[k + 1..])
    {
      var k := LegacyIndex(rows, id);
      if k == -1 {
        return NotFound;
      }
      var before := rows;
      rows := rows[..k] + rows[k + 1..];
      forall i, j | 0 <= i < j < |rows| ensures rows[i].id < rows[j].id {
        var a := if i < k then i else i + 1;
        var b := if j < k then j else j + 1;
        assert rows[i] == before[a] && rows[j] == before[b];
      }
      return LegacyDeleted;
    }

    /** `home`: every record, in ascending id order. */
    function Home(): (r: seq<LegacyMilk>)
      reads this
      requires Valid()
      ensures IdsAscending(r) && multiset(r) == multiset(rows)
    {
      rows
    }
  }

  /** Appending a record whose total is the sum before it plus its cost keeps every running total right. */
  lemma AddKeepsRunningTotals(rows: seq<LegacyMilk>, r: LegacyMilk)
    requires RunningTotals(rows)
    requires r.cost.Some? && r.totalCost == Some(SumStoredCosts(rows) + r.cost.value)
    ensures RunningTotals(rows + [r])
  {
    var s := rows + [r];
    assert s[..|s| - 1] == rows;
    assert SumStoredCosts(s) == SumStoredCosts(rows) + r.cost.value;
    forall i | 0 <= i < |s| ensures s[i].totalCost == Some(SumStoredCosts(s[..i + 1])) {
      if i < |rows| {
        assert s[..i + 1] == rows[..i + 1];
        assert s[i] == rows[i];
      } else {
        assert s[..i + 1] == s;
      }
    }
  }

  /** With running totals, the newest record's total is the sum of every stored cost. */
  lemma LastTotalIsSum(rows: seq<LegacyMilk>)
    requires RunningTotals(rows) && |rows| > 0
    ensures rows[|rows| - 1].totalCost == Some(SumStoredCosts(rows))
  {
    assert rows[..|rows|] == rows;
  }

  /** The stored totals are not recomputed: deleting an early record leaves a later total stale. */
  lemma DeleteLeavesStaleTotal()
    ensures var a := LegacyMilk(1, None, Some(1.0), Some(50.0), Some(50.0));
      var b := LegacyMilk(2, None, Some(1.0), Some(50.0), Some(100.0));
      RunningTotals([a, b]) && !RunningTotals([b])
  {
    var a := LegacyMilk(1, None, Some(1.0), Some(50.0), Some(50.0));
    var b := LegacyMilk(2, None, Some(1.0), Some(50.0), Some(100.0));
    assert [a][..0] == [] && [b][..0] == [];
    assert SumStoredCosts([a]) == 50.0 && SumStoredCosts([b]) == 50.0;
    assert [a, b][..1] == [a] && [a, b][..2] == [a, b];
    assert SumStoredCosts([a, b]) == 100.0;
    assert [b][..1] == [b];
    assert [b][0].totalCost != Some(SumStoredCosts([b][..1]));
  }
}
