/**
 * The list the debts page shows: the store's debts under the store's
 * filter, where `true` shows the paid debts, `false` the pending ones, and
 * no filter all of them.
 */
module DebtsPage {
  import opened Common
  import opened Schema
  import opened DebtModel
  import opened Store

  /** Whether the page shows debt `d` under `filter`. */
  function Shows(filter: Option<bool>): Debt -> bool {
    (d: Debt) => if filter == Some(true) then d.isPaid else if filter == Some(false) then !d.isPaid else true
  }

  /** `filteredDebts`. */
  function FilteredDebts(ds: seq<Debt>, filter: Option<bool>): (r: seq<Debt>)
    ensures |r| <= |ds|
    ensures forall x :: x in r ==> x in ds && (filter == Some(true) ==> x.isPaid) && (filter == Some(false) ==> !x.isPaid)
  {
    Filter(ds, Shows(filter))
  }

  /** Filter true keeps exactly the paid debts, filter false exactly the pending ones, each as often as it occurs. */
  lemma FilteredExact(ds: seq<Debt>, b: bool)
    ensures forall x :: multiset(FilteredDebts(ds, Some(b)))[x] == if x.isPaid == b then multiset(ds)[x] else 0
    ensures forall x :: x in FilteredDebts(ds, Some(b)) <==> x in ds && x.isPaid == b
  {
    forall x ensures multiset(FilteredDebts(ds, Some(b)))[x] == if x.isPaid == b then multiset(ds)[x] else 0 {
      FilterMultiplicity(ds, Shows(Some(b)), x);
    }
  }

  /** No filter shows the whole list. */
  lemma NoFilterShowsAll(ds: seq<Debt>)
    ensures FilteredDebts(ds, None) == ds
  {
    FilterKeepsAll(ds, Shows(None));
  }

  /** The shown list keeps the store's order. */
  lemma FilteredIsSubsequence(ds: seq<Debt>, filter: Option<bool>)
    ensures IsSubsequence(FilteredDebts(ds, filter), ds)
  {
    FilterIsSubsequence(ds, Shows(filter));
  }

  /** The paid view and the pending view split the list: every debt is in exactly one, as often as in the list. */
  lemma PaidAndPendingPartition(ds: seq<Debt>)
    ensures |FilteredDebts(ds, Some(true))| + |FilteredDebts(ds, Some(false))| == |ds|
    ensures multiset(FilteredDebts(ds, Some(true))) + multiset(FilteredDebts(ds, Some(false))) == multiset(ds)
    ensures forall x :: x in ds ==> (x in FilteredDebts(ds, Some(true)) <==> x !in FilteredDebts(ds, Some(false)))
  {
    FilterComplement(ds, Shows(Some(true)), Shows(Some(false)));
    FilteredExact(ds, true);
    FilteredExact(ds, false);
  }

  /** Filtering the owner's full listing on the page gives the listing the server filters itself. */
  lemma PageFilterMatchesServer(t: Tables, userId: nat, b: bool)
    ensures FilteredDebts(ListDebts(t, userId, None), Some(b)) == ListDebts(t, userId, Some(b))
  {
    var all := ListDebts(t, userId, None);
    ListFromFiltered(t.debts, userId, b, t.nextDebtId);
    FilterCongruent(all, Shows(Some(b)), PaidIs(b));
  }

  /** The page refetches with its filter, so it filters an already filtered listing: that changes nothing. */
  lemma PageFilterOfFilteredListing(t: Tables, userId: nat, b: bool)
    ensures FilteredDebts(ListDebts(t, userId, Some(b)), Some(b)) == ListDebts(t, userId, Some(b))
  {
    var ds := ListDebts(t, userId, Some(b));
    ListFromFiltered(t.debts, userId, b, t.nextDebtId);
    assert forall i :: 0 <= i < |ds| ==> ds[i] in ds && ds[i].isPaid == b;
    FilterKeepsAll(ds, Shows(Some(b)));
  }

  // ------------------------------------- local store updates on the page

  /** Replacing by id commutes with a filter when the replacement passes the filter only if the row it replaces did. */
  lemma {:induction false} FilterReplacedFiltered(s: seq<Debt>, row: Debt, p: Debt -> bool)
    requires forall i :: 0 <= i < |s| && s[i].id == row.id ==> (p(row) ==> p(s[i]))
    ensures Filter(ReplacedById(Filter(s, p), row), p) == Filter(ReplacedById(s, row), p)
  {
    if s != [] {
      var x, rest := s[0], s[1..];
      var y := if x.id == row.id then row else x;
      forall i | 0 <= i < |rest| && rest[i].id == row.id ensures p(row) ==> p(rest[i]) {
        assert rest[i] == s[i + 1];
      }
      FilterReplacedFiltered(rest, row, p);
      var r := ReplacedById(s, row);
      assert r == [y] + ReplacedById(rest, row);
      assert r[0] == y && r[1..] == ReplacedById(rest, row);
      if p(x) {
        var f := Filter(s, p);
        assert f == [x] + Filter(rest, p);
        var rf := ReplacedById(f, row);
        assert f[0] == x && f[1..] == Filter(rest, p);
        assert rf == [y] + ReplacedById(Filter(rest, p), row);
        assert rf[0] == y && rf[1..] == ReplacedById(Filter(rest, p), row);
      } else {
        assert Filter(s, p) == Filter(rest, p);
        assert !p(y);
      }
    }
  }

  /**
   * After updateDebtInStore with a row the server rewrote, the page shows
   * what it would show after fetching the listing again under its filter,
   * provided the new row passes the filter only if the old one did.
   */
  lemma PageAfterUpdateInStore(t: Tables, row: Debt, userId: nat, filter: Option<bool>)
    requires TablesValid(t) && row.id in t.debts && t.debts[row.id].userId == row.userId
    requires filter.Some? && row.isPaid == filter.value ==> t.debts[row.id].isPaid == filter.value
    ensures FilteredDebts(ReplacedById(ListDebts(t, userId, filter), row), filter) ==
            FilteredDebts(ListDebts(Replaced(t, row), userId, filter), filter)
  {
    var all := ListDebts(t, userId, None);
    var t2 := Replaced(t, row);
    UpdateInStoreMatchesUpdate(t, row, userId);
    if filter.None? {
      NoFilterShowsAll(ReplacedById(all, row));
      NoFilterShowsAll(ListDebts(t2, userId, None));
    } else {
      var b := filter.value;
      ListFromFiltered(t.debts, userId, b, t.nextDebtId);
      ListFromContents(t.debts, userId, None, t.nextDebtId);
      forall i | 0 <= i < |all| && all[i].id == row.id ensures PaidIs(b)(row) ==> PaidIs(b)(all[i]) {
        assert all[i] in all;
      }
      FilterReplacedFiltered(all, row, PaidIs(b));
      ListFromFiltered(t2.debts, userId, b, t2.nextDebtId);
      FilterCongruent(ReplacedById(Filter(all, PaidIs(b)), row), Shows(Some(b)), PaidIs(b));
      PageFilterOfFilteredListing(t2, userId, b);
    }
  }

  /** Marking a shown debt paid and updating the store with the answer shows what a new fetch would show. */
  lemma PageAfterMarkAsPaid(t: Tables, debtId: nat, userId: nat, filter: Option<bool>)
    requires TablesValid(t) && Owned(t.debts, debtId, userId).Some?
    requires t.debts[debtId] in FilteredDebts(ListDebts(t, userId, filter), filter)
    ensures var p := PaidRow(t.debts[debtId], t.clock);
      FilteredDebts(ReplacedById(ListDebts(t, userId, filter), p), filter) ==
      FilteredDebts(ListDebts(Replaced(t, p), userId, filter), filter)
  {
    PageAfterUpdateInStore(t, PaidRow(t.debts[debtId], t.clock), userId, filter);
  }

  /** addDebt with a debt the server just created shows what a new fetch would show, under every filter. */
  lemma PageAfterAddDebt(t: Tables, userId: nat, description: string, amount: int, dueDate: Option<Date>,
                         filter: Option<bool>)
    requires TablesValid(t) && Insertable(t, userId, description, amount)
    ensures var d := NewDebt(t, userId, description, amount, dueDate);
      FilteredDebts([d] + ListDebts(t, userId, filter), filter) ==
      FilteredDebts(ListDebts(Inserted(t, d), userId, filter), filter)
  {
    var d := NewDebt(t, userId, description, amount, dueDate);
    var t2 := Inserted(t, d);
    var all := ListDebts(t, userId, None);
    CreateAddsOneRow(t, userId, description, amount, dueDate);
    if filter.None? {
      NoFilterShowsAll([d] + all);
      NoFilterShowsAll(ListDebts(t2, userId, None));
    } else {
      var b := filter.value;
      var l := ListDebts(t, userId, Some(b));
      ListFromFiltered(t.debts, userId, b, t.nextDebtId);
      ListFromFiltered(t2.debts, userId, b, t2.nextDebtId);
      PageFilterOfFilteredListing(t, userId, b);
      PageFilterOfFilteredListing(t2, userId, b);
      var s := [d] + all;
      assert s[0] == d && s[1..] == all;
      var s2 := [d] + l;
      assert s2[0] == d && s2[1..] == l;
      assert Shows(Some(b))(d) == PaidIs(b)(d);
    }
  }
}
