/**
 * One debt's life from creation to deletion, followed through the data
 * layer: create it, mark it paid, try to edit it, delete it.
 */
module Scenario {
  import opened Common
  import opened Schema
  import opened DebtModel
  import opened Store

  /**
   * A user without debts creates "Loan" for 50.00: the listing holds just
   * that debt, unpaid with nothing paid. Marked paid, the aggregation counts
   * one paid debt of 50.00 and nothing pending. An edit of its amount is
   * refused because it is paid. Deleted, the listing is empty again.
   */
  lemma DebtLifecycle(t: Tables, userId: nat)
    requires TablesValid(t) && userId in t.users && ListDebts(t, userId, None) == []
    ensures var d := NewDebt(t, userId, "Loan", 5000, None);
      var t1 := Inserted(t, d);
      var p := PaidRow(d, t1.clock);
      var t2 := Replaced(t1, p);
      var t3 := t2.(debts := t2.debts - {d.id});
      && ListDebts(t1, userId, None) == [d] && !d.isPaid && d.paidAmount == 0
      && AggregateDebts(t2, userId) == Aggregations(1, 0, 1, Some(0), Some(5000), Some(5000))
      && UpdateOutcome(t2, d.id, userId, [SetAmount(7500)]) == Err(PaidDebtLocked)
      && ListDebts(t3, userId, None) == []
  {
    var d := NewDebt(t, userId, "Loan", 5000, None);
    assert Insertable(t, userId, "Loan", 5000);
    CreateAddsOneRow(t, userId, "Loan", 5000, None);
    var t1 := Inserted(t, d);
    var p := PaidRow(d, t1.clock);
    var t2 := Replaced(t1, p);
    UpdateInStoreMatchesUpdate(t1, p, userId);
    assert ListDebts(t2, userId, None) == [p];
    var ds := [p];
    assert Filter(ds, PaidIs(false)) == [];
    assert Filter(ds, PaidIs(true)) == [p];
    ReplaceKeepsOtherListings(t1, p);
    assert TablesValid(t2);
    RemoveDebtMatchesDelete(t2, d.id, userId, None);
    assert WithoutId([p], d.id) == [];
  }
}
