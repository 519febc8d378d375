/**
 * The debt handlers of the backend: each validates its input, runs one
 * operation of the data layer, invalidates the owner's cache entries after
 * a write, and answers with a status code and a JSON body. The two read
 * handlers go through the cache first.
 *
 * The correctness of the cache rests on one invariant, `Coherent`: every
 * cached listing or aggregation equals what the database would answer now.
 * Every handler keeps it, so every listing and every aggregation a handler
 * answers with is the database's current answer, whether it came from the
 * cache or not.
 */
module DebtController {
  import opened Common
  import opened Schema
  import opened DebtModel
  import opened Cache
  import opened Http

  /** What the handlers keep in the cache. */
  datatype CacheValue = DebtList(debts: seq<Debt>) | AggregationsValue(aggregations: Aggregations)

  /** The time to live getAggregations gives its entry: one hour, as the default for listings. */
  const AggregationsTtl: int := 3600

  // ------------------------------------------------------------------ keys

  /** The last part of a listing's key: the `isPaid` query parameter, or `all` when it is absent or empty. */
  function IsPaidSuffix(isPaid: Option<string>): string {
    if isPaid.None? || isPaid.value == "" then "all" else isPaid.value
  }

  /** The filter of a listing: only the exact texts `true` and `false` filter; any other value lists everything. */
  function PaidFilter(isPaid: Option<string>): (f: Option<bool>)
    ensures f == Some(true) <==> isPaid == Some("true")
    ensures f == Some(false) <==> isPaid == Some("false")
    ensures f.None? <==> isPaid != Some("true") && isPaid != Some("false")
  {
    if isPaid == Some("true") then Some(true)
    else if isPaid == Some("false") then Some(false)
    else None
  }

  /** The filter a key's last part stands for. */
  function SuffixFilter(suffix: string): Option<bool> {
    if suffix == "true" then Some(true) else if suffix == "false" then Some(false) else None
  }

  /** The key fixes the filter: the filter is a function of the key's last part. */
  lemma PaidFilterOfSuffix(isPaid: Option<string>)
    ensures PaidFilter(isPaid) == SuffixFilter(IsPaidSuffix(isPaid))
  {
  }

  /** `user:<id>:debts:<isPaid or all>`. */
  function DebtsKey(userId: nat, isPaid: Option<string>): (k: string)
    ensures UserPrefix(userId) <= k
    ensures k == UserPrefix(userId) + "debts:" + IsPaidSuffix(isPaid)
  {
    "user:" + Dec(userId) + ":debts:" + IsPaidSuffix(isPaid)
  }

  /** `user:<id>:aggregations`. */
  function AggregationsKey(userId: nat): (k: string)
    ensures UserPrefix(userId) <= k
    ensures k == UserPrefix(userId) + "aggregations"
  {
    "user:" + Dec(userId) + ":aggregations"
  }

  /** Two listings share a key only when they are of one user under one filter. */
  lemma DebtsKeyInjective(u: nat, q: Option<string>, v: nat, q2: Option<string>)
    requires DebtsKey(u, q) == DebtsKey(v, q2)
    ensures u == v
    ensures PaidFilter(q) == PaidFilter(q2)
  {
    var k := DebtsKey(u, q);
    assert k == UserPrefix(v) + ("debts:" + IsPaidSuffix(q2));
    PrefixDeterminesUser(u, v, "debts:" + IsPaidSuffix(q2));
    var n := |UserPrefix(u)| + 6;
    assert k[n..] == IsPaidSuffix(q);
    assert k[n..] == IsPaidSuffix(q2);
    PaidFilterOfSuffix(q);
    PaidFilterOfSuffix(q2);
  }

  /** An aggregation's key belongs to one user. */
  lemma AggregationsKeyInjective(u: nat, v: nat)
    requires AggregationsKey(u) == AggregationsKey(v)
    ensures u == v
  {
    PrefixDeterminesUser(u, v, "aggregations");
  }

  /** No listing shares its key with an aggregation. */
  lemma DebtsKeyNotAggregationsKey(u: nat, q: Option<string>, v: nat)
    ensures DebtsKey(u, q) != AggregationsKey(v)
  {
    var a, b := DebtsKey(u, q), AggregationsKey(v);
    if UserPrefix(u) <= b {
      PrefixDeterminesUser(u, v, "aggregations");
      var n := |UserPrefix(u)|;
      assert a[n] == 'd' && b[n] == 'a';
    }
  }

  // ------------------------------------------------------------- coherence

  /** Every cached listing and aggregation is the one the tables `t` give. */
  ghost predicate Coherent(entries: map<string, Entry<CacheValue>>, t: Tables) {
    && (forall u: nat, q: Option<string> :: DebtsKey(u, q) in entries ==>
          entries[DebtsKey(u, q)].value == DebtList(ListDebts(t, u, PaidFilter(q))))
    && (forall u: nat :: AggregationsKey(u) in entries ==>
          entries[AggregationsKey(u)].value == AggregationsValue(AggregateDebts(t, u)))
  }

  /** The cache serves nothing stale: either it fails, and so serves nothing, or it is coherent with the database. */
  ghost predicate Fresh(db: Database, cache: CacheService<CacheValue>)
    reads db, cache
  {
    cache.failing || Coherent(cache.entries, db.tables)
  }

  /** A write that changes only one user's rows, followed by the invalidation of that user, keeps the cache coherent. */
  lemma CoherentAfterWrite(entries: map<string, Entry<CacheValue>>, t1: Tables, t2: Tables, userId: nat)
    requires Coherent(entries, t1) && OtherListingsKept(t1, t2, userId)
    ensures Coherent(Invalidated(entries, userId), t2)
  {
    var e := Invalidated(entries, userId);
    forall v: nat, q: Option<string> | DebtsKey(v, q) in e
      ensures e[DebtsKey(v, q)].value == DebtList(ListDebts(t2, v, PaidFilter(q)))
    {
      assert v != userId;
      assert ListDebts(t2, v, PaidFilter(q)) == ListDebts(t1, v, PaidFilter(q));
    }
    forall v: nat | AggregationsKey(v) in e
      ensures e[AggregationsKey(v)].value == AggregationsValue(AggregateDebts(t2, v))
    {
      assert v != userId;
      assert ListDebts(t2, v, None) == ListDebts(t1, v, None);
    }
  }

  /** Caching the listing the tables give keeps the cache coherent. */
  lemma CoherentAfterStoreList(entries: map<string, Entry<CacheValue>>, t: Tables, userId: nat, isPaid: Option<string>, ttl: int)
    requires Coherent(entries, t)
    ensures Coherent(Stored(entries, DebtsKey(userId, isPaid), DebtList(ListDebts(t, userId, PaidFilter(isPaid))), ttl), t)
  {
    var key := DebtsKey(userId, isPaid);
    var e := Stored(entries, key, DebtList(ListDebts(t, userId, PaidFilter(isPaid))), ttl);
    forall v: nat, q: Option<string> | DebtsKey(v, q) in e
      ensures e[DebtsKey(v, q)].value == DebtList(ListDebts(t, v, PaidFilter(q)))
    {
      if DebtsKey(v, q) == key {
        DebtsKeyInjective(v, q, userId, isPaid);
      }
    }
    forall v: nat | AggregationsKey(v) in e
      ensures e[AggregationsKey(v)].value == AggregationsValue(AggregateDebts(t, v))
    {
      DebtsKeyNotAggregationsKey(userId, isPaid, v);
    }
  }

  /** Caching the aggregation the tables give keeps the cache coherent. */
  lemma CoherentAfterStoreAggregations(entries: map<string, Entry<CacheValue>>, t: Tables, userId: nat, ttl: int)
    requires Coherent(entries, t)
    ensures Coherent(Stored(entries, AggregationsKey(userId), AggregationsValue(AggregateDebts(t, userId)), ttl), t)
  {
    var key := AggregationsKey(userId);
    var e := Stored(entries, key, AggregationsValue(AggregateDebts(t, userId)), ttl);
    forall v: nat, q: Option<string> | DebtsKey(v, q) in e
      ensures e[DebtsKey(v, q)].value == DebtList(ListDebts(t, v, PaidFilter(q)))
    {
      DebtsKeyNotAggregationsKey(v, q, userId);
    }
    forall v: nat | AggregationsKey(v) in e
      ensures e[AggregationsKey(v)].value == AggregationsValue(AggregateDebts(t, v))
    {
      if AggregationsKey(v) == key {
        AggregationsKeyInjective(v, userId);
      }
    }
  }

  /** After an invalidation, no listing and no aggregation of the user is cached: the next read misses. */
  lemma InvalidatedMisses(entries: map<string, Entry<CacheValue>>, userId: nat)
    ensures forall q :: DebtsKey(userId, q) !in Invalidated(entries, userId)
    ensures AggregationsKey(userId) !in Invalidated(entries, userId)
  {
  }

  // -------------------------------------------------------------- handlers

  /** createNewDebt: refuse an amount that is not positive; insert; invalidate the owner's cache; answer 201. */
  method CreateNewDebt(db: Database, cache: CacheService<CacheValue>, userId: nat,
                       description: string, amount: int, dueDate: Option<Date>)
    returns (res: Response)
    requires db.Valid() && Fresh(db, cache)
    modifies db, cache
    ensures db.Valid() && Fresh(db, cache)
    ensures db.online == old(db.online) && cache.failing == old(cache.failing)
    ensures amount <= 0 ==>
              res == Response(400, Message("El monto debe ser mayor a 0")) &&
              db.tables == old(db.tables) && cache.entries == old(cache.entries)
    ensures amount > 0 && old(db.online) && Insertable(old(db.tables), userId, description, amount) ==>
              res == Response(201, WithDebt("Deuda creada exitosamente",
                                            NewDebt(old(db.tables), userId, description, amount, dueDate))) &&
              db.tables == Inserted(old(db.tables), NewDebt(old(db.tables), userId, description, amount, dueDate)) &&
              cache.entries == AfterInvalidation(old(cache.entries), cache.failing, userId)
    ensures amount > 0 && !(old(db.online) && Insertable(old(db.tables), userId, description, amount)) ==>
              res.status == 500 && db.tables == old(db.tables) && cache.entries == old(cache.entries)
  {
    if amount <= 0 {
      return Response(400, Message("El monto debe ser mayor a 0"));
    }
    ghost var before := db.tables;
    var created := CreateDebt(db, userId, description, amount, dueDate);
    if created.Err? {
      return Response(500, Failure("Error al crear deuda", ErrorMessage(created.error)));
    }
    CreateAddsOneRow(before, userId, description, amount, dueDate);
    if !cache.failing {
      CoherentAfterWrite(cache.entries, before, db.tables, userId);
    }
    cache.InvalidateUserCache(userId);
    res := Response(201, WithDebt("Deuda creada exitosamente", created.value));
  }

  /** getUserDebts: the cached listing on a hit; otherwise query, cache the result for an hour, and answer it. */
  method GetUserDebts(db: Database, cache: CacheService<CacheValue>, userId: nat, isPaid: Option<string>)
    returns (res: Response)
    requires db.Valid() && Fresh(db, cache)
    modifies cache
    ensures Fresh(db, cache) && cache.failing == old(cache.failing)
    ensures res.status == 200 ==>
              res.body.WithDebts? && res.body.debts == ListDebts(db.tables, userId, PaidFilter(isPaid))
    ensures Lookup(old(cache.entries), cache.failing, DebtsKey(userId, isPaid)).Some? ==>
              res == Response(200, WithDebts("Deudas obtenidas (caché)", ListDebts(db.tables, userId, PaidFilter(isPaid)))) &&
              cache.entries == old(cache.entries)
    ensures Lookup(old(cache.entries), cache.failing, DebtsKey(userId, isPaid)).None? && db.online ==>
              res == Response(200, WithDebts("Deudas obtenidas", ListDebts(db.tables, userId, PaidFilter(isPaid)))) &&
              cache.entries == (if cache.failing then old(cache.entries)
                                else Stored(old(cache.entries), DebtsKey(userId, isPaid),
                                            DebtList(ListDebts(db.tables, userId, PaidFilter(isPaid))), DefaultTtl))
    ensures Lookup(old(cache.entries), cache.failing, DebtsKey(userId, isPaid)).None? && !db.online ==>
              res == Response(500, Failure("Error al obtener deudas", ErrorMessage(StoreUnavailable))) &&
              cache.entries == old(cache.entries)
  {
    var key := DebtsKey(userId, isPaid);
    var cached := cache.Get(key);
    if cached.Some? {
      return Response(200, WithDebts("Deudas obtenidas (caché)", cached.value.debts));
    }
    var listed := GetDebtsByUser(db, userId, PaidFilter(isPaid));
    if listed.Err? {
      return Response(500, Failure("Error al obtener deudas", ErrorMessage(listed.error)));
    }
    if !cache.failing {
      CoherentAfterStoreList(cache.entries, db.tables, userId, isPaid, DefaultTtl);
    }
    cache.Set(key, DebtList(listed.value));
    res := Response(200, WithDebts("Deudas obtenidas", listed.value));
  }

  /** getDebt: 200 with the owned debt, 404 for a missing or foreign one. */
  method GetDebt(db: Database, userId: nat, debtId: nat) returns (res: Response)
    ensures res.status == 200 <==> db.online && Owned(db.tables.debts, debtId, userId).Some?
    ensures res.status == 200 ==> res.body == WithDebt("Deuda obtenida", db.tables.debts[debtId])
    ensures res.status == 404 <==> db.online && Owned(db.tables.debts, debtId, userId).None?
    ensures res.status == 404 ==> res.body == Message("Deuda no encontrada")
    ensures res.status == 500 <==> !db.online
    ensures res.status == 500 ==> res.body == Failure("Error al obtener deuda", ErrorMessage(StoreUnavailable))
  {
    var found := GetDebtById(db, debtId, userId);
    if found.Err? {
      return Response(500, Failure("Error al obtener deuda", ErrorMessage(found.error)));
    }
    if found.value.None? {
      return Response(404, Message("Deuda no encontrada"));
    }
    res := Response(200, WithDebt("Deuda obtenida", found.value.value));
  }

  /** The `updates` object updateDebtById builds: the provided fields only, dueDate written due_date. */
  function RequestedUpdates(description: Option<string>, amount: Option<int>, dueDate: Option<Option<Date>>): (us: seq<FieldUpdate>)
    ensures DistinctColumns(us)
    ensures Names(us, DescriptionColumn) <==> description.Some?
    ensures Names(us, AmountColumn) <==> amount.Some?
    ensures Names(us, DueDateColumn) <==> dueDate.Some?
    ensures !Names(us, PaidAmountColumn) && !Names(us, IsPaidColumn)
    ensures description.Some? ==> SetDescription(description.value) in us
    ensures amount.Some? ==> SetAmount(amount.value) in us
    ensures dueDate.Some? ==> SetDueDate(dueDate.value) in us
  {
    var a := if description.Some? then [SetDescription(description.value)] else [];
    var b := if amount.Some? then [SetAmount(amount.value)] else [];
    var c := if dueDate.Some? then [SetDueDate(dueDate.value)] else [];
    var us := a + b + c;
    assert forall k :: 0 <= k < |us| ==> us[k] in a || us[k] in b || us[k] in c;
    assert description.Some? ==> us[0] == SetDescription(description.value);
    assert amount.Some? ==> us[|a|] == SetAmount(amount.value);
    assert dueDate.Some? ==> us[|a| + |b|] == SetDueDate(dueDate.value);
    us
  }

  /**
   * updateDebtById: refuse a provided amount that is not positive; forward
   * the provided fields; answer 400 with the error's message when the
   * update fails, and otherwise invalidate the owner's cache and answer 200.
   */
  method UpdateDebtById(db: Database, cache: CacheService<CacheValue>, userId: nat, debtId: nat,
                        description: Option<string>, amount: Option<int>, dueDate: Option<Option<Date>>)
    returns (res: Response)
    requires db.Valid() && Fresh(db, cache)
    modifies db, cache
    ensures db.Valid() && Fresh(db, cache)
    ensures db.online == old(db.online) && cache.failing == old(cache.failing)
    ensures amount.Some? && amount.value <= 0 ==>
              res == Response(400, Message("El monto debe ser mayor a 0")) &&
              db.tables == old(db.tables) && cache.entries == old(cache.entries)
    ensures !old(db.online) && !(amount.Some? && amount.value <= 0) ==>
              res == Response(400, Failure(ErrorMessage(StoreUnavailable), ErrorMessage(StoreUnavailable))) &&
              db.tables == old(db.tables) && cache.entries == old(cache.entries)
    ensures old(db.online) && !(amount.Some? && amount.value <= 0) ==>
              var updates := RequestedUpdates(description, amount, dueDate);
              var outcome := UpdateOutcome(old(db.tables), debtId, userId, updates);
              && (outcome.Err? ==>
                    res == Response(400, Failure(ErrorMessage(outcome.error), ErrorMessage(outcome.error))) &&
                    db.tables == old(db.tables) && cache.entries == old(cache.entries))
              && (outcome.Ok? ==>
                    res == Response(200, WithDebt("Deuda actualizada", outcome.value)) &&
                    db.tables == (if updates == [] then old(db.tables) else Replaced(old(db.tables), outcome.value)) &&
                    cache.entries == AfterInvalidation(old(cache.entries), cache.failing, userId))
  {
    if amount.Some? && amount.value <= 0 {
      return Response(400, Message("El monto debe ser mayor a 0"));
    }
    var updates: seq<FieldUpdate> := [];
    if description.Some? {
      updates := updates + [SetDescription(description.value)];
    }
    if amount.Some? {
      updates := updates + [SetAmount(amount.value)];
    }
    if dueDate.Some? {
      updates := updates + [SetDueDate(dueDate.value)];
    }
    assert updates == RequestedUpdates(description, amount, dueDate);
    ghost var before := db.tables;
    var updated := UpdateDebt(db, debtId, userId, updates);
    if updated.Err? {
      var message := ErrorMessage(updated.error);
      return Response(400, Failure(message, message));
    }
    if updates == [] {
      assert OtherListingsKept(before, db.tables, userId);
    } else {
      ReplaceKeepsOtherListings(before, updated.value);
    }
    if !cache.failing {
      CoherentAfterWrite(cache.entries, before, db.tables, userId);
    }
    cache.InvalidateUserCache(userId);
    res := Response(200, WithDebt("Deuda actualizada", updated.value));
  }

  /** markAsPaid: 404 for a missing or foreign debt; otherwise invalidate the owner's cache and answer 200 with the paid row. */
  method MarkAsPaid(db: Database, cache: CacheService<CacheValue>, userId: nat, debtId: nat) returns (res: Response)
    requires db.Valid() && Fresh(db, cache)
    modifies db, cache
    ensures db.Valid() && Fresh(db, cache)
    ensures db.online == old(db.online) && cache.failing == old(cache.failing)
    ensures !old(db.online) ==>
              res == Response(500, Failure("Error al marcar como pagada", ErrorMessage(StoreUnavailable))) &&
              db.tables == old(db.tables) && cache.entries == old(cache.entries)
    ensures old(db.online) && Owned(old(db.tables).debts, debtId, userId).None? ==>
              res == Response(404, Message("Deuda no encontrada")) &&
              db.tables == old(db.tables) && cache.entries == old(cache.entries)
    ensures old(db.online) && Owned(old(db.tables).debts, debtId, userId).Some? ==>
              res == Response(200, WithDebt("Deuda marcada como pagada",
                                            PaidRow(old(db.tables).debts[debtId], old(db.tables).clock))) &&
              db.tables == Replaced(old(db.tables), PaidRow(old(db.tables).debts[debtId], old(db.tables).clock)) &&
              cache.entries == AfterInvalidation(old(cache.entries), cache.failing, userId)
  {
    ghost var before := db.tables;
    var paid := MarkDebtAsPaid(db, debtId, userId);
    if paid.Err? {
      return Response(500, Failure("Error al marcar como pagada", ErrorMessage(paid.error)));
    }
    if paid.value.None? {
      return Response(404, Message("Deuda no encontrada"));
    }
    ReplaceKeepsOtherListings(before, paid.value.value);
    if !cache.failing {
      CoherentAfterWrite(cache.entries, before, db.tables, userId);
    }
    cache.InvalidateUserCache(userId);
    res := Response(200, WithDebt("Deuda marcada como pagada", paid.value.value));
  }

  /** removeDebt: 400 with the error's message for a missing or foreign debt; otherwise invalidate and answer 200 with the deleted row. */
  method RemoveDebt(db: Database, cache: CacheService<CacheValue>, userId: nat, debtId: nat) returns (res: Response)
    requires db.Valid() && Fresh(db, cache)
    modifies db, cache
    ensures db.Valid() && Fresh(db, cache)
    ensures db.online == old(db.online) && cache.failing == old(cache.failing)
    ensures !old(db.online) ==>
              res == Response(400, Failure(ErrorMessage(StoreUnavailable), ErrorMessage(StoreUnavailable))) &&
              db.tables == old(db.tables) && cache.entries == old(cache.entries)
    ensures old(db.online) && Owned(old(db.tables).debts, debtId, userId).None? ==>
              res == Response(400, Failure("Deuda no encontrada", "Deuda no encontrada")) &&
              db.tables == old(db.tables) && cache.entries == old(cache.entries)
    ensures old(db.online) && Owned(old(db.tables).debts, debtId, userId).Some? ==>
              res == Response(200, WithDebt("Deuda eliminada", old(db.tables).debts[debtId])) &&
              db.tables == old(db.tables).(debts := old(db.tables).debts - {debtId}) &&
              cache.entries == AfterInvalidation(old(cache.entries), cache.failing, userId)
  {
    ghost var before := db.tables;
    var deleted := DeleteDebt(db, debtId, userId);
    if deleted.Err? {
      var message := ErrorMessage(deleted.error);
      return Response(400, Failure(message, message));
    }
    DeleteKeepsOtherListings(before, debtId, userId);
    if !cache.failing {
      CoherentAfterWrite(cache.entries, before, db.tables, userId);
    }
    cache.InvalidateUserCache(userId);
    res := Response(200, WithDebt("Deuda eliminada", deleted.value));
  }

  /** getAggregations: the cached aggregation on a hit; otherwise query, cache the result for an hour, and answer it. */
  method GetAggregations(db: Database, cache: CacheService<CacheValue>, userId: nat) returns (res: Response)
    requires db.Valid() && Fresh(db, cache)
    modifies cache
    ensures Fresh(db, cache) && cache.failing == old(cache.failing)
    ensures res.status == 200 ==>
              res.body.WithAggregations? && res.body.aggregations == AggregateDebts(db.tables, userId)
    ensures Lookup(old(cache.entries), cache.failing, AggregationsKey(userId)).Some? ==>
              res == Response(200, WithAggregations("Agregaciones obtenidas (caché)", AggregateDebts(db.tables, userId))) &&
              cache.entries == old(cache.entries)
    ensures Lookup(old(cache.entries), cache.failing, AggregationsKey(userId)).None? && db.online ==>
              res == Response(200, WithAggregations("Agregaciones obtenidas", AggregateDebts(db.tables, userId))) &&
              cache.entries == (if cache.failing then old(cache.entries)
                                else Stored(old(cache.entries), AggregationsKey(userId),
                                            AggregationsValue(AggregateDebts(db.tables, userId)), AggregationsTtl))
    ensures Lookup(old(cache.entries), cache.failing, AggregationsKey(userId)).None? && !db.online ==>
              res == Response(500, Failure("Error al obtener agregaciones", ErrorMessage(StoreUnavailable))) &&
              cache.entries == old(cache.entries)
  {
    var key := AggregationsKey(userId);
    var cached := cache.Get(key);
    if cached.Some? {
      return Response(200, WithAggregations("Agregaciones obtenidas (caché)", cached.value.aggregations));
    }
    var computed := GetDebtAggregations(db, userId);
    if computed.Err? {
      return Response(500, Failure("Error al obtener agregaciones", ErrorMessage(computed.error)));
    }
    if !cache.failing {
      CoherentAfterStoreAggregations(cache.entries, db.tables, userId, AggregationsTtl);
    }
    cache.Set(key, AggregationsValue(computed.value), AggregationsTtl);
    res := Response(200, WithAggregations("Agregaciones obtenidas", computed.value));
  }
}
