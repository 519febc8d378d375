/**
 * The debt operations of the backend's data layer: one SQL statement each,
 * every one of them scoped by `user_id`, over the `debts` table.
 *
 * The queries (lookup, listing, aggregation) are functions of the tables;
 * the statements that write (insert, update, mark paid, delete) are methods
 * on the database, each specified by what the tables become.
 */
module DebtModel {
  import opened Common
  import opened Schema

  // ---------------------------------------------------------------- lookup

  /** The row `SELECT * FROM debts WHERE id = $1 AND user_id = $2` finds. */
  function Owned(debts: map<nat, Debt>, debtId: nat, userId: nat): (r: Option<Debt>)
    ensures r.Some? <==> debtId in debts && debts[debtId].userId == userId
    ensures r.Some? ==> r.value == debts[debtId] && r.value.userId == userId
  {
    if debtId in debts && debts[debtId].userId == userId then Some(debts[debtId]) else None
  }

  /** getDebtById: a row comes back only when both its id and its owner match. */
  function GetDebtById(db: Database, debtId: nat, userId: nat): (r: Result<Option<Debt>, DbError>)
    reads db
    ensures r.Err? <==> !db.online
    ensures r.Err? ==> r.error == StoreUnavailable
    ensures r.Ok? && r.value.Some? ==>
              debtId in db.tables.debts && r.value.value == db.tables.debts[debtId] && r.value.value.userId == userId
    ensures r.Ok? && r.value.None? ==> debtId !in db.tables.debts || db.tables.debts[debtId].userId != userId
  {
    if db.online then Ok(Owned(db.tables.debts, debtId, userId)) else Err(StoreUnavailable)
  }

  /** A debt of another owner is looked up exactly as if its row did not exist. */
  lemma ForeignDebtLooksMissing(debts: map<nat, Debt>, debtId: nat, userId: nat)
    requires debtId in debts && debts[debtId].userId != userId
    ensures Owned(debts, debtId, userId) == Owned(debts - {debtId}, debtId, userId) == None
  {
    assert debtId !in debts - {debtId};
  }

  // --------------------------------------------------------------- listing

  /** Whether a row passes `WHERE user_id = $1`, and `AND is_paid = $2` when a filter is given. */
  predicate Selected(d: Debt, userId: nat, isPaid: Option<bool>) {
    d.userId == userId && (isPaid.None? || d.isPaid == isPaid.value)
  }

  /** The selected rows whose id is below `n`, highest id first. */
  function ListFrom(debts: map<nat, Debt>, userId: nat, isPaid: Option<bool>, n: nat): (r: seq<Debt>)
    ensures |r| <= n
    ensures forall d :: d in r ==> d in debts.Values && Selected(d, userId, isPaid)
  {
    if n == 0 then []
    else if n - 1 in debts && Selected(debts[n - 1], userId, isPaid) then
      [debts[n - 1]] + ListFrom(debts, userId, isPaid, n - 1)
    else ListFrom(debts, userId, isPaid, n - 1)
  }

  /** The result of getDebtsByUser on the tables `t`. */
  function ListDebts(t: Tables, userId: nat, isPaid: Option<bool>): (r: seq<Debt>)
    ensures |r| <= t.nextDebtId
    ensures forall d :: d in r ==> d in t.debts.Values && d.userId == userId && (isPaid.Some? ==> d.isPaid == isPaid.value)
  {
    ListFrom(t.debts, userId, isPaid, t.nextDebtId)
  }

  /** ORDER BY created_at DESC. */
  predicate NewestFirst(ds: seq<Debt>) {
    forall i, j :: 0 <= i < j < |ds| ==> ds[i].createdAt > ds[j].createdAt
  }

  /** The listing holds exactly the selected rows below `n`, in strictly decreasing id order. */
  lemma {:induction false} ListFromContents(debts: map<nat, Debt>, userId: nat, isPaid: Option<bool>, n: nat)
    requires forall id :: id in debts ==> debts[id].id == id
    ensures forall d :: d in ListFrom(debts, userId, isPaid, n) <==>
              d.id < n && d.id in debts && debts[d.id] == d && Selected(d, userId, isPaid)
    ensures forall i, j :: 0 <= i < j < |ListFrom(debts, userId, isPaid, n)| ==>
              ListFrom(debts, userId, isPaid, n)[i].id > ListFrom(debts, userId, isPaid, n)[j].id
  {
    if n > 0 {
      ListFromContents(debts, userId, isPaid, n - 1);
      var rest := ListFrom(debts, userId, isPaid, n - 1);
      if n - 1 in debts && Selected(debts[n - 1], userId, isPaid) {
        var ds := [debts[n - 1]] + rest;
        assert ds == ListFrom(debts, userId, isPaid, n);
        forall i, j | 0 <= i < j < |ds| ensures ds[i].id > ds[j].id {
          assert ds[j] == rest[j - 1] && rest[j - 1] in rest;
          if i > 0 {
            assert ds[i] == rest[i - 1];
          }
        }
      }
    }
  }

  /** Rows above `n` that the query does not select leave the listing as it is. */
  lemma {:induction false} ListFromBeyond(debts: map<nat, Debt>, userId: nat, isPaid: Option<bool>, n: nat, m: nat)
    requires n <= m
    requires forall id :: n <= id < m ==> Owned(debts, id, userId).None?
    ensures ListFrom(debts, userId, isPaid, m) == ListFrom(debts, userId, isPaid, n)
  {
    if m > n {
      assert Owned(debts, m - 1, userId).None?;
      ListFromBeyond(debts, userId, isPaid, n, m - 1);
    }
  }

  /** The listing of one owner reads only that owner's rows. */
  lemma {:induction false} ListFromOwnerRows(d1: map<nat, Debt>, d2: map<nat, Debt>, userId: nat, isPaid: Option<bool>, n: nat)
    requires forall id: nat :: id < n ==> Owned(d1, id, userId) == Owned(d2, id, userId)
    ensures ListFrom(d1, userId, isPaid, n) == ListFrom(d2, userId, isPaid, n)
  {
    if n > 0 {
      assert Owned(d1, n - 1, userId) == Owned(d2, n - 1, userId);
      ListFromOwnerRows(d1, d2, userId, isPaid, n - 1);
    }
  }

  /** Two states with the same rows for one owner give that owner the same listing, for every filter. */
  lemma ListDebtsOwnerRows(t1: Tables, t2: Tables, userId: nat, isPaid: Option<bool>)
    requires forall id :: id in t1.debts ==> id < t1.nextDebtId
    requires forall id :: id in t2.debts ==> id < t2.nextDebtId
    requires forall id: nat :: Owned(t1.debts, id, userId) == Owned(t2.debts, id, userId)
    ensures ListDebts(t1, userId, isPaid) == ListDebts(t2, userId, isPaid)
  {
    var m := if t1.nextDebtId < t2.nextDebtId then t2.nextDebtId else t1.nextDebtId;
    ListFromBeyond(t1.debts, userId, isPaid, t1.nextDebtId, m);
    ListFromBeyond(t2.debts, userId, isPaid, t2.nextDebtId, m);
    ListFromOwnerRows(t1.debts, t2.debts, userId, isPaid, m);
  }

  /** Whether a row's is_paid equals `b`. */
  function PaidIs(b: bool): Debt -> bool {
    (d: Debt) => d.isPaid == b
  }

  /** The filtered query is the unfiltered one with the rows of the other state dropped. */
  lemma {:induction false} ListFromFiltered(debts: map<nat, Debt>, userId: nat, b: bool, n: nat)
    ensures ListFrom(debts, userId, Some(b), n) == Filter(ListFrom(debts, userId, None, n), PaidIs(b))
  {
    if n > 0 {
      ListFromFiltered(debts, userId, b, n - 1);
      var all := ListFrom(debts, userId, None, n - 1);
      if n - 1 in debts && Selected(debts[n - 1], userId, None) {
        var s := [debts[n - 1]] + all;
        assert s[0] == debts[n - 1] && s[1..] == all;
      }
    }
  }

  /** getDebtsByUser: exactly the owner's rows that pass the filter, newest first. */
  function GetDebtsByUser(db: Database, userId: nat, isPaid: Option<bool> := None): (r: Result<seq<Debt>, DbError>)
    reads db
    requires db.Valid()
    ensures r.Ok? <==> db.online
    ensures r.Ok? ==> forall d :: d in r.value <==>
              d.id in db.tables.debts && db.tables.debts[d.id] == d && Selected(d, userId, isPaid)
    ensures r.Ok? ==> NewestFirst(r.value)
  {
    ListFromContents(db.tables.debts, userId, isPaid, db.tables.nextDebtId);
    ListDebtsNewestFirst(db.tables, userId, isPaid);
    if db.online then Ok(ListDebts(db.tables, userId, isPaid)) else Err(StoreUnavailable)
  }

  /** Since ids grow with creation time, the listing is ordered by created_at, newest first. */
  lemma ListDebtsNewestFirst(t: Tables, userId: nat, isPaid: Option<bool>)
    requires DebtsValid(t)
    ensures NewestFirst(ListDebts(t, userId, isPaid))
  {
    var ds := ListDebts(t, userId, isPaid);
    ListFromContents(t.debts, userId, isPaid, t.nextDebtId);
    forall i, j | 0 <= i < j < |ds| ensures ds[i].createdAt > ds[j].createdAt {
      assert ds[i] in ds && ds[j] in ds;
      assert ds[j].id < ds[i].id;
    }
  }

  // ----------------------------------------------------------- aggregation

  /** Amounts of DECIMAL type summed exactly, in cents. */
  function SumAmounts(ds: seq<Debt>): int {
    if ds == [] then 0 else ds[0].amount + SumAmounts(ds[1..])
  }

  /** The one row of the aggregation query; SUM over no rows is NULL. */
  datatype Aggregations = Aggregations(
    totalDebts: nat,
    pendingCount: nat,
    paidCount: nat,
    pendingTotal: Option<int>,
    paidTotal: Option<int>,
    totalAmount: Option<int>)

  /** COUNT(*), the two conditional COUNTs and the three SUMs over the rows `ds`. */
  function Aggregate(ds: seq<Debt>): (r: Aggregations)
    ensures r.totalDebts == |ds| && r.pendingCount <= |ds| && r.paidCount <= |ds|
    ensures r.totalAmount.Some? <==> ds != []
    ensures r.pendingTotal.Some? <==> ds != []
    ensures r.paidTotal.Some? <==> ds != []
    ensures ds != [] ==> r.totalAmount == Some(SumAmounts(ds))
  {
    var pending := Filter(ds, PaidIs(false));
    var paid := Filter(ds, PaidIs(true));
    Aggregations(
      |ds|, |pending|, |paid|,
      if ds == [] then None else Some(SumAmounts(pending)),
      if ds == [] then None else Some(SumAmounts(paid)),
      if ds == [] then None else Some(SumAmounts(ds)))
  }

  /** The aggregation over one owner's rows on the tables `t`. */
  function AggregateDebts(t: Tables, userId: nat): (r: Aggregations)
    ensures r.totalDebts == |ListDebts(t, userId, None)|
    ensures r.totalAmount.Some? <==> ListDebts(t, userId, None) != []
    ensures r.pendingTotal.Some? <==> ListDebts(t, userId, None) != []
    ensures r.paidTotal.Some? <==> ListDebts(t, userId, None) != []
    ensures ListDebts(t, userId, None) != [] ==> r.totalAmount == Some(SumAmounts(ListDebts(t, userId, None)))
  {
    Aggregate(ListDebts(t, userId, None))
  }

  /** Splitting a list by a predicate splits the sum of its amounts. */
  lemma {:induction false} SumAmountsSplit(ds: seq<Debt>, p: Debt -> bool, q: Debt -> bool)
    requires forall i :: 0 <= i < |ds| ==> q(ds[i]) == !p(ds[i])
    ensures SumAmounts(Filter(ds, p)) + SumAmounts(Filter(ds, q)) == SumAmounts(ds)
  {
    if ds != [] {
      assert q(ds[0]) == !p(ds[0]);
      SumAmountsSplit(ds[1..], p, q);
      if p(ds[0]) {
        var f := [ds[0]] + Filter(ds[1..], p);
        assert f[0] == ds[0] && f[1..] == Filter(ds[1..], p);
      } else {
        var f := [ds[0]] + Filter(ds[1..], q);
        assert f[0] == ds[0] && f[1..] == Filter(ds[1..], q);
      }
    }
  }

  /** The aggregation is consistent with itself: counts and totals each split into pending and paid. */
  lemma AggregateConsistent(ds: seq<Debt>)
    ensures Aggregate(ds).totalDebts == |ds|
    ensures Aggregate(ds).pendingCount + Aggregate(ds).paidCount == Aggregate(ds).totalDebts
    ensures Aggregate(ds).totalAmount.Some? <==> ds != []
    ensures Aggregate(ds).pendingTotal.Some? == Aggregate(ds).paidTotal.Some? == Aggregate(ds).totalAmount.Some?
    ensures ds != [] ==>
              Aggregate(ds).pendingTotal.value + Aggregate(ds).paidTotal.value == Aggregate(ds).totalAmount.value
  {
    forall i | 0 <= i < |ds| ensures PaidIs(true)(ds[i]) == !PaidIs(false)(ds[i]) {
    }
    FilterComplement(ds, PaidIs(false), PaidIs(true));
    SumAmountsSplit(ds, PaidIs(false), PaidIs(true));
  }

  /**
   * The aggregation agrees with the listings: its counts are the lengths of
   * the three listings and its totals the sums of their amounts.
   */
  lemma AggregateMatchesListings(t: Tables, userId: nat)
    ensures AggregateDebts(t, userId).totalDebts == |ListDebts(t, userId, None)|
    ensures AggregateDebts(t, userId).pendingCount == |ListDebts(t, userId, Some(false))|
    ensures AggregateDebts(t, userId).paidCount == |ListDebts(t, userId, Some(true))|
    ensures ListDebts(t, userId, None) != [] ==>
              && AggregateDebts(t, userId).totalAmount == Some(SumAmounts(ListDebts(t, userId, None)))
              && AggregateDebts(t, userId).pendingTotal == Some(SumAmounts(ListDebts(t, userId, Some(false))))
              && AggregateDebts(t, userId).paidTotal == Some(SumAmounts(ListDebts(t, userId, Some(true))))
  {
    ListFromFiltered(t.debts, userId, false, t.nextDebtId);
    ListFromFiltered(t.debts, userId, true, t.nextDebtId);
  }

  /** Every amount is at least one cent, so a sum of amounts is at least the number of rows summed. */
  lemma {:induction false} SumAmountsAtLeastCount(ds: seq<Debt>)
    requires forall i :: 0 <= i < |ds| ==> ds[i].amount > 0
    ensures SumAmounts(ds) >= |ds|
  {
    if ds != [] {
      assert ds[0].amount > 0;
      SumAmountsAtLeastCount(ds[1..]);
    }
  }

  /** On valid tables each total is at least its count: no total is negative, and a user with debts owes something. */
  lemma AggregateTotalsBounded(t: Tables, userId: nat)
    requires TablesValid(t)
    ensures var a := AggregateDebts(t, userId);
      a.totalAmount.Some? ==>
        a.totalAmount.value >= a.totalDebts > 0 &&
        a.pendingTotal.value >= a.pendingCount && a.paidTotal.value >= a.paidCount
  {
    var ds := ListDebts(t, userId, None);
    ListFromContents(t.debts, userId, None, t.nextDebtId);
    assert forall i :: 0 <= i < |ds| ==> ds[i] in ds && ds[i].amount > 0;
    SumAmountsAtLeastCount(ds);
    var pending, paid := Filter(ds, PaidIs(false)), Filter(ds, PaidIs(true));
    assert forall i :: 0 <= i < |pending| ==> pending[i] in pending && pending[i].amount > 0;
    assert forall i :: 0 <= i < |paid| ==> paid[i] in paid && paid[i].amount > 0;
    SumAmountsAtLeastCount(pending);
    SumAmountsAtLeastCount(paid);
  }

  /** getDebtAggregations: pending and paid split both the count and the total of the owner's listing. */
  function GetDebtAggregations(db: Database, userId: nat): (r: Result<Aggregations, DbError>)
    reads db
    ensures r.Ok? <==> db.online
    ensures r.Ok? ==> r.value.totalDebts == |ListDebts(db.tables, userId, None)|
    ensures r.Ok? ==> r.value.pendingCount == |ListDebts(db.tables, userId, Some(false))|
    ensures r.Ok? ==> r.value.paidCount == |ListDebts(db.tables, userId, Some(true))|
    ensures r.Ok? ==> r.value.pendingCount + r.value.paidCount == r.value.totalDebts
    ensures r.Ok? && r.value.totalDebts > 0 ==>
              && r.value.totalAmount == Some(SumAmounts(ListDebts(db.tables, userId, None)))
              && r.value.pendingTotal == Some(SumAmounts(ListDebts(db.tables, userId, Some(false))))
              && r.value.paidTotal == Some(SumAmounts(ListDebts(db.tables, userId, Some(true))))
    ensures r.Ok? ==> (r.value.totalAmount.Some? <==> r.value.totalDebts > 0)
    ensures r.Ok? ==> (r.value.pendingTotal.Some? <==> r.value.totalDebts > 0)
    ensures r.Ok? ==> (r.value.paidTotal.Some? <==> r.value.totalDebts > 0)
    ensures r.Ok? && r.value.totalAmount.Some? ==>
              r.value.pendingTotal.Some? && r.value.paidTotal.Some? &&
              r.value.pendingTotal.value + r.value.paidTotal.value == r.value.totalAmount.value
  {
    AggregateConsistent(ListDebts(db.tables, userId, None));
    AggregateMatchesListings(db.tables, userId);
    if db.online then Ok(AggregateDebts(db.tables, userId)) else Err(StoreUnavailable)
  }

  // -------------------------------------------------------------- creation

  /** Whether the INSERT of createDebt passes the foreign key, VARCHAR(255), DECIMAL(10, 2) and CHECK (amount > 0). */
  predicate Insertable(t: Tables, userId: nat, description: string, amount: int) {
    userId in t.users && FitsVarchar(description) && ValidAmount(amount)
  }

  /** The row the INSERT adds: next SERIAL id, paid_amount 0, is_paid false, both timestamps now. */
  function NewDebt(t: Tables, userId: nat, description: string, amount: int, dueDate: Option<Date>): (d: Debt)
    ensures d.id == t.nextDebtId && d.userId == userId
    ensures d.description == description && d.amount == amount && d.dueDate == dueDate
    ensures !d.isPaid && d.paidAmount == 0 && d.createdAt == d.updatedAt == t.clock
  {
    Debt(t.nextDebtId, userId, description, amount, 0, false, dueDate, t.clock, t.clock)
  }

  /** The tables after inserting row `d` under its id. */
  function Inserted(t: Tables, d: Debt): (r: Tables)
    ensures d.id in r.debts && r.debts[d.id] == d
    ensures forall id :: id != d.id ==> (id in r.debts <==> id in t.debts)
    ensures forall id :: id != d.id && id in t.debts ==> r.debts[id] == t.debts[id]
    ensures r.users == t.users && r.nextUserId == t.nextUserId
    ensures r.nextDebtId == t.nextDebtId + 1 && r.clock == t.clock + 1
  {
    t.(debts := t.debts[d.id := d], nextDebtId := t.nextDebtId + 1, clock := t.clock + 1)
  }

  /**
   * createDebt adds one row, owned by `userId`, with the given fields and
   * the column defaults; every other row stays; the new debt heads its
   * owner's listing and no other owner's listing changes.
   */
  lemma CreateAddsOneRow(t: Tables, userId: nat, description: string, amount: int, dueDate: Option<Date>)
    requires TablesValid(t) && Insertable(t, userId, description, amount)
    ensures var d := NewDebt(t, userId, description, amount, dueDate);
      && d.userId == userId && d.description == description && d.amount == amount && d.dueDate == dueDate
      && !d.isPaid && d.paidAmount == 0
      && d.id !in t.debts
      && Inserted(t, d).debts.Keys == t.debts.Keys + {d.id}
      && (forall id :: id in t.debts ==> Inserted(t, d).debts[id] == t.debts[id])
      && TablesValid(Inserted(t, d))
      && ListDebts(Inserted(t, d), userId, None) == [d] + ListDebts(t, userId, None)
      && OtherListingsKept(t, Inserted(t, d), userId)
  {
    var d := NewDebt(t, userId, description, amount, dueDate);
    var t2 := Inserted(t, d);
    assert forall id: nat :: id < t.nextDebtId ==> Owned(t2.debts, id, userId) == Owned(t.debts, id, userId);
    ListFromOwnerRows(t2.debts, t.debts, userId, None, t.nextDebtId);
    forall v: nat, f: Option<bool> | v != userId ensures ListDebts(t2, v, f) == ListDebts(t, v, f) {
      ListDebtsOwnerRows(t2, t, v, f);
    }
  }

  /** createDebt: the INSERT ... RETURNING * of one new row. */
  method CreateDebt(db: Database, userId: nat, description: string, amount: int, dueDate: Option<Date> := None)
    returns (r: Result<Debt, DbError>)
    requires db.Valid()
    modifies db
    ensures db.Valid() && db.online == old(db.online)
    ensures !old(db.online) ==> r == Err(StoreUnavailable)
    ensures old(db.online) && !Insertable(old(db.tables), userId, description, amount) ==> r == Err(ConstraintViolation)
    ensures old(db.online) && Insertable(old(db.tables), userId, description, amount) ==>
              r == Ok(NewDebt(old(db.tables), userId, description, amount, dueDate)) &&
              db.tables == Inserted(old(db.tables), r.value)
    ensures r.Err? ==> db.tables == old(db.tables)
  {
    if !db.online {
      return Err(StoreUnavailable);
    }
    if !Insertable(db.tables, userId, description, amount) {
      return Err(ConstraintViolation);
    }
    var d := NewDebt(db.tables, userId, description, amount, dueDate);
    CreateAddsOneRow(db.tables, userId, description, amount, dueDate);
    db.tables := Inserted(db.tables, d);
    r := Ok(d);
  }

  /** No owner but `userId` sees a different listing, under any filter, in `t2` than in `t1`. */
  ghost predicate OtherListingsKept(t1: Tables, t2: Tables, userId: nat) {
    forall v: nat, f: Option<bool> :: v != userId ==> ListDebts(t2, v, f) == ListDebts(t1, v, f)
  }

  /** Rewriting one row of an owner, keeping its id and owner, leaves every other owner's listing as it was. */
  lemma ReplaceKeepsOtherListings(t: Tables, row: Debt)
    requires TablesValid(t) && row.id in t.debts && t.debts[row.id].userId == row.userId
    ensures OtherListingsKept(t, Replaced(t, row), row.userId)
  {
    var t2 := Replaced(t, row);
    forall v: nat, f: Option<bool> | v != row.userId ensures ListDebts(t2, v, f) == ListDebts(t, v, f) {
      assert forall id: nat :: Owned(t2.debts, id, v) == Owned(t.debts, id, v);
      ListDebtsOwnerRows(t2, t, v, f);
    }
  }

  /** Deleting one row of an owner leaves every other owner's listing as it was. */
  lemma DeleteKeepsOtherListings(t: Tables, debtId: nat, userId: nat)
    requires TablesValid(t) && Owned(t.debts, debtId, userId).Some?
    ensures OtherListingsKept(t, t.(debts := t.debts - {debtId}), userId)
  {
    var t2 := t.(debts := t.debts - {debtId});
    forall v: nat, f: Option<bool> | v != userId ensures ListDebts(t2, v, f) == ListDebts(t, v, f) {
      assert forall id: nat :: Owned(t2.debts, id, v) == Owned(t.debts, id, v);
      ListDebtsOwnerRows(t2, t, v, f);
    }
  }

  // ---------------------------------------------------------------- update

  /** The columns an update may name. */
  datatype Column = DescriptionColumn | AmountColumn | PaidAmountColumn | IsPaidColumn | DueDateColumn

  /** One `key = value` of the SET clause. */
  datatype FieldUpdate =
    | SetDescription(description: string)
    | SetAmount(amount: int)
    | SetPaidAmount(paidAmount: int)
    | SetIsPaid(isPaid: bool)
    | SetDueDate(dueDate: Option<Date>)

  function ColumnOf(u: FieldUpdate): Column {
    match u
    case SetDescription(_) => DescriptionColumn
    case SetAmount(_) => AmountColumn
    case SetPaidAmount(_) => PaidAmountColumn
    case SetIsPaid(_) => IsPaidColumn
    case SetDueDate(_) => DueDateColumn
  }

  /** What column `c` of `d` holds, written as the assignment that would put it there. */
  function FieldOf(d: Debt, c: Column): (u: FieldUpdate)
    ensures ColumnOf(u) == c
  {
    match c
    case DescriptionColumn => SetDescription(d.description)
    case AmountColumn => SetAmount(d.amount)
    case PaidAmountColumn => SetPaidAmount(d.paidAmount)
    case IsPaidColumn => SetIsPaid(d.isPaid)
    case DueDateColumn => SetDueDate(d.dueDate)
  }

  /** The fields no SET clause of an update names. */
  predicate SameIdentity(a: Debt, b: Debt) {
    a.id == b.id && a.userId == b.userId && a.createdAt == b.createdAt && a.updatedAt == b.updatedAt
  }

  /** A row is determined by its identity fields and its five data columns. */
  lemma RowFromFields(a: Debt, b: Debt)
    requires SameIdentity(a, b)
    requires forall c :: FieldOf(a, c) == FieldOf(b, c)
    ensures a == b
  {
    assert FieldOf(a, DescriptionColumn) == FieldOf(b, DescriptionColumn);
    assert FieldOf(a, AmountColumn) == FieldOf(b, AmountColumn);
    assert FieldOf(a, PaidAmountColumn) == FieldOf(b, PaidAmountColumn);
    assert FieldOf(a, IsPaidColumn) == FieldOf(b, IsPaidColumn);
    assert FieldOf(a, DueDateColumn) == FieldOf(b, DueDateColumn);
  }

  /** One assignment sets its column and no other. */
  function Assign(d: Debt, u: FieldUpdate): (r: Debt)
    ensures SameIdentity(r, d)
    ensures FieldOf(r, ColumnOf(u)) == u
    ensures forall c :: c != ColumnOf(u) ==> FieldOf(r, c) == FieldOf(d, c)
  {
    match u
    case SetDescription(s) => d.(description := s)
    case SetAmount(a) => d.(amount := a)
    case SetPaidAmount(p) => d.(paidAmount := p)
    case SetIsPaid(b) => d.(isPaid := b)
    case SetDueDate(dd) => d.(dueDate := dd)
  }

  /** The assignments of a SET clause, in order. */
  function AssignAll(d: Debt, us: seq<FieldUpdate>): Debt
    decreases us
  {
    if us == [] then d else AssignAll(Assign(d, us[0]), us[1..])
  }

  /** No column is named twice, as the keys of a JavaScript object are distinct. */
  predicate DistinctColumns(us: seq<FieldUpdate>) {
    forall i, j :: 0 <= i < j < |us| ==> ColumnOf(us[i]) != ColumnOf(us[j])
  }

  /** Whether some assignment of `us` names column `c`. */
  predicate Names(us: seq<FieldUpdate>, c: Column) {
    exists k :: 0 <= k < |us| && ColumnOf(us[k]) == c
  }

  /** A SET clause gives every named column its value and leaves every other column as it was. */
  lemma {:induction false} AssignAllSets(d: Debt, us: seq<FieldUpdate>)
    requires DistinctColumns(us)
    decreases us
    ensures SameIdentity(AssignAll(d, us), d)
    ensures forall k :: 0 <= k < |us| ==> FieldOf(AssignAll(d, us), ColumnOf(us[k])) == us[k]
    ensures forall c :: !Names(us, c) ==> FieldOf(AssignAll(d, us), c) == FieldOf(d, c)
  {
    if us != [] {
      var d1 := Assign(d, us[0]);
      var tail := us[1..];
      assert DistinctColumns(tail) by {
        forall i, j | 0 <= i < j < |tail| ensures ColumnOf(tail[i]) != ColumnOf(tail[j]) {
          assert tail[i] == us[i + 1] && tail[j] == us[j + 1];
        }
      }
      AssignAllSets(d1, tail);
      var r := AssignAll(d, us);
      assert r == AssignAll(d1, tail);
      assert !Names(tail, ColumnOf(us[0])) by {
        forall k | 0 <= k < |tail| ensures ColumnOf(tail[k]) != ColumnOf(us[0]) {
          assert tail[k] == us[k + 1];
        }
      }
      forall k | 0 <= k < |us| ensures FieldOf(r, ColumnOf(us[k])) == us[k] {
        if k > 0 {
          assert us[k] == tail[k - 1];
        }
      }
      forall c | !Names(us, c) ensures FieldOf(r, c) == FieldOf(d, c) {
        assert ColumnOf(us[0]) != c;
        assert !Names(tail, c) by {
          forall k | 0 <= k < |tail| ensures ColumnOf(tail[k]) != c {
            assert tail[k] == us[k + 1];
          }
        }
      }
    }
  }

  /** The tables after row `row` replaces the row under its id at the current time. */
  function Replaced(t: Tables, row: Debt): (r: Tables)
    ensures row.id in r.debts && r.debts[row.id] == row
    ensures forall id :: id != row.id ==> (id in r.debts <==> id in t.debts)
    ensures forall id :: id != row.id && id in t.debts ==> r.debts[id] == t.debts[id]
    ensures r.users == t.users && r.nextUserId == t.nextUserId && r.nextDebtId == t.nextDebtId
    ensures r.clock == t.clock + 1
  {
    t.(debts := t.debts[row.id := row], clock := t.clock + 1)
  }

  /**
   * What updateDebt answers: "not found" for a missing or foreign debt, "cannot
   * edit a paid debt" for a paid one, the row as it is for an empty update,
   * a constraint violation when the new row breaks a column constraint, and
   * otherwise the row with exactly the given columns set and updated_at now.
   */
  function UpdateOutcome(t: Tables, debtId: nat, userId: nat, updates: seq<FieldUpdate>): (r: Result<Debt, DbError>)
    requires DistinctColumns(updates)
    ensures r == Err(NotFound) <==> Owned(t.debts, debtId, userId).None?
    ensures r == Err(PaidDebtLocked) <==> Owned(t.debts, debtId, userId).Some? && t.debts[debtId].isPaid
    ensures r.Err? ==> r.error != StoreUnavailable
    ensures Owned(t.debts, debtId, userId).Some? && !t.debts[debtId].isPaid && updates == [] ==>
              r == Ok(t.debts[debtId])
    ensures r == Err(ConstraintViolation) ==>
              debtId in t.debts && updates != [] && !RowValid(AssignAll(t.debts[debtId], updates), t.users)
    ensures r.Ok? && updates != [] ==>
              && debtId in t.debts && t.debts[debtId].userId == userId && !t.debts[debtId].isPaid
              && r.value.id == t.debts[debtId].id && r.value.userId == userId
              && r.value.createdAt == t.debts[debtId].createdAt && r.value.updatedAt == t.clock
              && (forall k :: 0 <= k < |updates| ==> FieldOf(r.value, ColumnOf(updates[k])) == updates[k])
              && (forall c :: !Names(updates, c) ==> FieldOf(r.value, c) == FieldOf(t.debts[debtId], c))
              && RowValid(r.value, t.users)
  {
    match Owned(t.debts, debtId, userId)
    case None => Err(NotFound)
    case Some(d) =>
      if d.isPaid then Err(PaidDebtLocked)
      else if updates == [] then Ok(d)
      else
        AssignAllSets(d, updates);
        var row := AssignAll(d, updates).(updatedAt := t.clock);
        assert forall c :: FieldOf(row, c) == FieldOf(AssignAll(d, updates), c);
        if RowValid(row, t.users) then Ok(row) else Err(ConstraintViolation)
  }

  /** A successful update that sets something leaves the tables valid. */
  lemma UpdateOutcomeWrites(t: Tables, debtId: nat, userId: nat, updates: seq<FieldUpdate>)
    requires TablesValid(t) && DistinctColumns(updates)
    requires UpdateOutcome(t, debtId, userId, updates).Ok? && updates != []
    ensures TablesValid(Replaced(t, UpdateOutcome(t, debtId, userId, updates).value))
  {
  }

  /**
   * updateDebt: look the debt up, refuse a missing, foreign or paid one,
   * collect the SET assignments key by key, and issue the UPDATE unless
   * there is nothing to set.
   */
  method UpdateDebt(db: Database, debtId: nat, userId: nat, updates: seq<FieldUpdate>) returns (r: Result<Debt, DbError>)
    requires db.Valid() && DistinctColumns(updates)
    modifies db
    ensures db.Valid() && db.online == old(db.online)
    ensures !old(db.online) ==> r == Err(StoreUnavailable)
    ensures old(db.online) ==> r == UpdateOutcome(old(db.tables), debtId, userId, updates)
    ensures db.tables == if r.Ok? && updates != [] then Replaced(old(db.tables), r.value) else old(db.tables)
  {
    var found := GetDebtById(db, debtId, userId);
    if found.Err? {
      return Err(found.error);
    }
    if found.value.None? {
      return Err(NotFound);
    }
    var debt := found.value.value;
    if debt.isPaid {
      return Err(PaidDebtLocked);
    }
    var fields: seq<FieldUpdate> := [];
    var paramCount := 1;
    var i := 0;
    while i < |updates|
      invariant 0 <= i <= |updates|
      invariant fields == updates[..i]
      invariant paramCount == |fields| + 1
    {
      if ColumnOf(updates[i]) != IsPaidColumn || !debt.isPaid {
        fields := fields + [updates[i]];
        paramCount := paramCount + 1;
      }
      i := i + 1;
    }
    assert fields == updates;
    if |fields| == 0 {
      return Ok(debt);
    }
    // The WHERE clause takes parameters $paramCount and $(paramCount + 1), after the |fields| values.
    var row := AssignAll(debt, fields).(updatedAt := db.tables.clock);
    if !RowValid(row, db.tables.users) {
      return Err(ConstraintViolation);
    }
    UpdateOutcomeWrites(db.tables, debtId, userId, updates);
    db.tables := Replaced(db.tables, row);
    r := Ok(row);
  }

  // ------------------------------------------------------------- payment

  /** The row after `SET is_paid = TRUE, paid_amount = amount, updated_at = now`. */
  function PaidRow(d: Debt, now: nat): (p: Debt)
    ensures p.isPaid && p.paidAmount == p.amount == d.amount
    ensures p.id == d.id && p.userId == d.userId && p.createdAt == d.createdAt && p.updatedAt == now
    ensures p.description == d.description && p.dueDate == d.dueDate
  {
    d.(isPaid := true, paidAmount := d.amount, updatedAt := now)
  }

  /** Paying a paid debt again only moves updated_at: the transition is one-way and settles. */
  lemma PaidRowSettles(d: Debt, first: nat, second: nat)
    ensures PaidRow(PaidRow(d, first), second) == PaidRow(d, second)
    ensures PaidRow(PaidRow(d, first), second) == PaidRow(d, first).(updatedAt := second)
  {
  }

  /** markDebtAsPaid: the owned row becomes paid in full; nothing comes back for a missing or foreign id. */
  method MarkDebtAsPaid(db: Database, debtId: nat, userId: nat) returns (r: Result<Option<Debt>, DbError>)
    requires db.Valid()
    modifies db
    ensures db.Valid() && db.online == old(db.online)
    ensures !old(db.online) ==> r == Err(StoreUnavailable) && db.tables == old(db.tables)
    ensures old(db.online) && Owned(old(db.tables).debts, debtId, userId).None? ==>
              r == Ok(None) && db.tables == old(db.tables)
    ensures old(db.online) && Owned(old(db.tables).debts, debtId, userId).Some? ==>
              r == Ok(Some(PaidRow(old(db.tables).debts[debtId], old(db.tables).clock))) &&
              db.tables == Replaced(old(db.tables), r.value.value)
  {
    if !db.online {
      return Err(StoreUnavailable);
    }
    match Owned(db.tables.debts, debtId, userId)
    case None =>
      r := Ok(None);
    case Some(d) =>
      var p := PaidRow(d, db.tables.clock);
      db.tables := Replaced(db.tables, p);
      r := Ok(Some(p));
  }

  /** A second markDebtAsPaid finds the same row, and leaves it as the first did up to updated_at. */
  lemma MarkPaidTwice(t: Tables, debtId: nat, userId: nat)
    requires DebtsValid(t)
    requires Owned(t.debts, debtId, userId).Some?
    ensures var t1 := Replaced(t, PaidRow(t.debts[debtId], t.clock));
      && Owned(t1.debts, debtId, userId).Some?
      && PaidRow(t1.debts[debtId], t1.clock) == t1.debts[debtId].(updatedAt := t1.clock)
      && Replaced(t1, PaidRow(t1.debts[debtId], t1.clock)).debts - {debtId} == t.debts - {debtId}
  {
    var t1 := Replaced(t, PaidRow(t.debts[debtId], t.clock));
    PaidRowSettles(t.debts[debtId], t.clock, t1.clock);
  }

  // --------------------------------------------------------------- delete

  /** deleteDebt: the owned row goes, paid or not, and comes back as it was. */
  method DeleteDebt(db: Database, debtId: nat, userId: nat) returns (r: Result<Debt, DbError>)
    requires db.Valid()
    modifies db
    ensures db.Valid() && db.online == old(db.online)
    ensures !old(db.online) ==> r == Err(StoreUnavailable)
    ensures old(db.online) && Owned(old(db.tables).debts, debtId, userId).None? ==> r == Err(NotFound)
    ensures old(db.online) && Owned(old(db.tables).debts, debtId, userId).Some? ==>
              r == Ok(old(db.tables).debts[debtId]) &&
              db.tables == old(db.tables).(debts := old(db.tables).debts - {debtId})
    ensures r.Err? ==> db.tables == old(db.tables)
  {
    var found := GetDebtById(db, debtId, userId);
    if found.Err? {
      return Err(found.error);
    }
    if found.value.None? {
      return Err(NotFound);
    }
    var d := found.value.value;
    db.tables := db.tables.(debts := db.tables.debts - {debtId});
    r := Ok(d);
  }
}
