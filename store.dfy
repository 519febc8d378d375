/**
 * The frontend's two zustand stores. Each action replaces fields of the
 * store's state; the new debt lists are built from the old one by
 * prepending, filtering by id and mapping by id. Browser storage holds the
 * token across page loads and is modelled as a field of the auth store.
 *
 * The list actions reproduce locally what the corresponding backend write
 * does to the owner's listing: after a delete or an update, applying the
 * action to the listing the server gave before the write yields the
 * listing the server gives after it.
 */
module Store {
  import opened Common
  import opened Schema
  import opened DebtModel
  import opened Http

  // --------------------------------------------------------- list updates

  /** Whether a debt's id differs from `id`. */
  function IdIsNot(id: nat): Debt -> bool {
    (d: Debt) => d.id != id
  }

  /** `debts.filter((d) => d.id !== debtId)`. */
  function WithoutId(ds: seq<Debt>, id: nat): (r: seq<Debt>)
    ensures |r| <= |ds|
    ensures forall d :: d in r ==> d in ds && d.id != id
  {
    Filter(ds, IdIsNot(id))
  }

  /** `debts.map((d) => d.id === updated.id ? updated : d)`. */
  function ReplacedById(ds: seq<Debt>, updated: Debt): (r: seq<Debt>)
    ensures |r| == |ds|
    ensures forall i :: 0 <= i < |ds| ==> r[i] == if ds[i].id == updated.id then updated else ds[i]
  {
    if ds == [] then []
    else [if ds[0].id == updated.id then updated else ds[0]] + ReplacedById(ds[1..], updated)
  }

  /** removeDebt drops every entry with the id, keeps every other entry as often as it was there, and keeps their order. */
  lemma WithoutIdExact(ds: seq<Debt>, id: nat)
    ensures forall d :: d in WithoutId(ds, id) ==> d.id != id
    ensures forall x :: multiset(WithoutId(ds, id))[x] == if x.id != id then multiset(ds)[x] else 0
    ensures IsSubsequence(WithoutId(ds, id), ds)
  {
    forall x ensures multiset(WithoutId(ds, id))[x] == if x.id != id then multiset(ds)[x] else 0 {
      FilterMultiplicity(ds, IdIsNot(id), x);
    }
    FilterIsSubsequence(ds, IdIsNot(id));
  }

  /** Updating an id that is not in the list leaves the list as it is. */
  lemma ReplacedByAbsentId(ds: seq<Debt>, updated: Debt)
    requires forall i :: 0 <= i < |ds| ==> ds[i].id != updated.id
    ensures ReplacedById(ds, updated) == ds
  {
  }

  // ----------------------------------------- agreement with the backend

  /** Map keys are row ids. */
  ghost predicate KeyedById(debts: map<nat, Debt>) {
    forall id :: id in debts ==> debts[id].id == id
  }

  lemma {:induction false} ListFromWithout(debts: map<nat, Debt>, userId: nat, isPaid: Option<bool>, debtId: nat, n: nat)
    requires KeyedById(debts)
    ensures ListFrom(debts - {debtId}, userId, isPaid, n) == WithoutId(ListFrom(debts, userId, isPaid, n), debtId)
  {
    if n > 0 {
      ListFromWithout(debts, userId, isPaid, debtId, n - 1);
      var rest := ListFrom(debts, userId, isPaid, n - 1);
      if n - 1 in debts && Selected(debts[n - 1], userId, isPaid) {
        var s := [debts[n - 1]] + rest;
        assert s[0] == debts[n - 1] && s[1..] == rest;
      }
    }
  }

  /** removeDebt applied to the owner's listing gives the listing after deleteDebt, under every filter. */
  lemma RemoveDebtMatchesDelete(t: Tables, debtId: nat, userId: nat, isPaid: Option<bool>)
    requires TablesValid(t)
    ensures ListDebts(t.(debts := t.debts - {debtId}), userId, isPaid) == WithoutId(ListDebts(t, userId, isPaid), debtId)
  {
    ListFromWithout(t.debts, userId, isPaid, debtId, t.nextDebtId);
  }

  lemma {:induction false} ListFromReplaced(debts: map<nat, Debt>, userId: nat, row: Debt, n: nat)
    requires KeyedById(debts) && row.id in debts && debts[row.id].userId == row.userId
    ensures ListFrom(debts[row.id := row], userId, None, n) == ReplacedById(ListFrom(debts, userId, None, n), row)
  {
    if n > 0 {
      ListFromReplaced(debts, userId, row, n - 1);
      var rest := ListFrom(debts, userId, None, n - 1);
      var d2 := debts[row.id := row];
      if n - 1 in debts && Selected(debts[n - 1], userId, None) {
        var s := [debts[n - 1]] + rest;
        assert s[0] == debts[n - 1] && s[1..] == rest;
        assert d2[n - 1] == if n - 1 == row.id then row else debts[n - 1];
        assert ReplacedById(s, row) == [d2[n - 1]] + ReplacedById(rest, row);
      }
    }
  }

  /** updateDebtInStore applied to the owner's full listing gives the full listing after the row is rewritten. */
  lemma UpdateInStoreMatchesUpdate(t: Tables, row: Debt, userId: nat)
    requires TablesValid(t) && row.id in t.debts && t.debts[row.id].userId == row.userId
    ensures ListDebts(Replaced(t, row), userId, None) == ReplacedById(ListDebts(t, userId, None), row)
  {
    ListFromReplaced(t.debts, userId, row, t.nextDebtId);
  }

  // ---------------------------------------------------------- the stores

  /** useDebtStore. */
  class DebtStore {
    var debts: seq<Debt>
    var selectedDebt: Option<Debt>
    var filter: Option<bool>
    var loading: bool

    /** The initial state: no debts, none selected, no filter, not loading. */
    constructor ()
      ensures debts == [] && selectedDebt.None? && filter.None? && !loading
    {
      debts := [];
      selectedDebt := None;
      filter := None;
      loading := false;
    }

    method SetDebts(ds: seq<Debt>)
      modifies this
      ensures debts == ds
      ensures selectedDebt == old(selectedDebt) && filter == old(filter) && loading == old(loading)
    {
      debts := ds;
    }

    method SetSelectedDebt(d: Option<Debt>)
      modifies this
      ensures selectedDebt == d
      ensures debts == old(debts) && filter == old(filter) && loading == old(loading)
    {
      selectedDebt := d;
    }

    method SetFilter(f: Option<bool>)
      modifies this
      ensures filter == f
      ensures debts == old(debts) && selectedDebt == old(selectedDebt) && loading == old(loading)
    {
      filter := f;
    }

    method SetLoading(b: bool)
      modifies this
      ensures loading == b
      ensures debts == old(debts) && selectedDebt == old(selectedDebt) && filter == old(filter)
    {
      loading := b;
    }

    /** addDebt: the new debt first, then the old list. */
    method AddDebt(d: Debt)
      modifies this
      ensures debts == [d] + old(debts)
      ensures selectedDebt == old(selectedDebt) && filter == old(filter) && loading == old(loading)
    {
      debts := [d] + debts;
    }

    /** removeDebt: every entry with the id dropped, the rest in order. */
    method RemoveDebt(debtId: nat)
      modifies this
      ensures debts == WithoutId(old(debts), debtId)
      ensures selectedDebt == old(selectedDebt) && filter == old(filter) && loading == old(loading)
    {
      debts := WithoutId(debts, debtId);
    }

    /** updateDebtInStore: every entry with the updated debt's id replaced by it. */
    method UpdateDebtInStore(updated: Debt)
      modifies this
      ensures debts == ReplacedById(old(debts), updated)
      ensures selectedDebt == old(selectedDebt) && filter == old(filter) && loading == old(loading)
    {
      debts := ReplacedById(debts, updated);
    }
  }

  /** The token the store starts with: `localStorage.getItem('token') || null`, so an empty stored token counts as none. */
  function InitialToken(stored: Option<string>): (t: Option<string>)
    ensures t.Some? <==> stored.Some? && stored.value != ""
    ensures t.Some? ==> t == stored
  {
    if stored.Some? && stored.value != "" then stored else None
  }

  /** useAuthStore, with the browser's stored token. */
  class AuthStore {
    var user: Option<UserView>
    var token: Option<string>
    var loading: bool
    var storedToken: Option<string>

    /** A page load: no user, the stored token if there is a non-empty one, not loading. */
    constructor (stored: Option<string>)
      ensures user.None? && token == InitialToken(stored) && !loading && storedToken == stored
    {
      user := None;
      token := InitialToken(stored);
      loading := false;
      storedToken := stored;
    }

    /** setUser: both fields set; the token is stored only when it is a non-empty one. */
    method SetUser(u: Option<UserView>, t: Option<string>)
      modifies this
      ensures user == u && token == t && loading == old(loading)
      ensures storedToken == if t.Some? && t.value != "" then t else old(storedToken)
    {
      user, token := u, t;
      if t.Some? && t.value != "" {
        storedToken := t;
      }
    }

    /** logout: user and token cleared, and the stored token removed. */
    method Logout()
      modifies this
      ensures user.None? && token.None? && storedToken.None? && loading == old(loading)
    {
      user, token := None, None;
      storedToken := None;
    }

    method SetLoading(b: bool)
      modifies this
      ensures loading == b
      ensures user == old(user) && token == old(token) && storedToken == old(storedToken)
    {
      loading := b;
    }
  }
}
