/**
 * The Redis cache in front of the database: a key to value store whose
 * entries carry a time to live, reached through a client that may fail.
 * Every operation swallows the client's failure, so none of them reports
 * an error to its caller: a read then answers "absent" and a write does
 * nothing.
 *
 * Keys are strings; invalidating a user removes every key that matches the
 * pattern `user:<id>:*`, that is, every key starting with `user:<id>:`.
 */
module Cache {
  import opened Common

  /** The time to live, in seconds, of an entry stored without one. */
  const DefaultTtl: int := 3600

  /** A stored value with the time to live of its SETEX. */
  datatype Entry<V> = Entry(value: V, ttl: int)

  // ------------------------------------------------------- the key space

  /** The prefix every key of one user starts with. */
  function UserPrefix(userId: nat): string {
    "user:" + Dec(userId) + ":"
  }

  /** The prefix of a key fixes the user: `user:1:` does not start `user:10:...`. */
  lemma PrefixDeterminesUser(u: nat, v: nat, rest: string)
    requires UserPrefix(u) <= UserPrefix(v) + rest
    ensures u == v
  {
    var a, b := Dec(u), Dec(v);
    var lhs, rhs := UserPrefix(u), UserPrefix(v) + rest;
    assert lhs == "user:" + a + ":" && |lhs| == 6 + |a|;
    assert rhs == "user:" + b + ":" + rest;
    assert forall i :: 0 <= i < |a| ==> lhs[5 + i] == a[i];
    assert forall i :: 0 <= i < |b| ==> rhs[5 + i] == b[i];
    assert lhs[5 + |a|] == ':' && rhs[5 + |b|] == ':';
    assert forall i :: 0 <= i < |lhs| ==> lhs[i] == rhs[i];
    assert |a| == |b|;
    assert a == b by {
      forall i | 0 <= i < |a| ensures a[i] == b[i] {
        assert lhs[5 + i] == rhs[5 + i];
      }
    }
    DecInjective(u, v);
  }

  /** The keys of `entries` the pattern `user:<userId>:*` matches. */
  function MatchingKeys<V>(entries: map<string, Entry<V>>, userId: nat): (keys: set<string>)
    ensures keys <= entries.Keys
    ensures forall k :: k in entries && UserPrefix(userId) <= k ==> k in keys
    ensures forall k :: k in keys ==> UserPrefix(userId) <= k
  {
    set k | k in entries && UserPrefix(userId) <= k
  }

  /** The entries that remain when one user's keys are deleted. */
  function Invalidated<V>(entries: map<string, Entry<V>>, userId: nat): (r: map<string, Entry<V>>)
    ensures forall k :: k in r <==> k in entries && !(UserPrefix(userId) <= k)
    ensures forall k :: k in r ==> r[k] == entries[k]
  {
    entries - MatchingKeys(entries, userId)
  }

  /** Invalidating a user keeps every key of every other user, with its entry. */
  lemma InvalidateKeepsOtherUsers<V>(entries: map<string, Entry<V>>, u: nat, v: nat, rest: string)
    requires u != v && UserPrefix(v) + rest in entries
    ensures UserPrefix(v) + rest in Invalidated(entries, u)
    ensures Invalidated(entries, u)[UserPrefix(v) + rest] == entries[UserPrefix(v) + rest]
  {
    if UserPrefix(u) <= UserPrefix(v) + rest {
      PrefixDeterminesUser(u, v, rest);
    }
  }

  /** For instance, invalidating user 1 leaves the listing of user 10 in place. */
  lemma InvalidateUserOneKeepsUserTen<V>(entries: map<string, Entry<V>>)
    requires "user:10:debts:all" in entries
    ensures "user:10:debts:all" in Invalidated(entries, 1)
  {
    assert Dec(10) == "10" by {
      assert Dec(1) == "1" && Dec(0) == "0";
    }
    assert "user:10:debts:all" == UserPrefix(10) + "debts:all";
    InvalidateKeepsOtherUsers(entries, 1, 10, "debts:all");
  }

  /** Invalidating twice is invalidating once. */
  lemma InvalidateIdempotent<V>(entries: map<string, Entry<V>>, userId: nat)
    ensures Invalidated(Invalidated(entries, userId), userId) == Invalidated(entries, userId)
  {
    var once := Invalidated(entries, userId);
    assert MatchingKeys(once, userId) == {};
  }

  /** With no matching key, invalidating deletes nothing. */
  lemma InvalidateNoMatch<V>(entries: map<string, Entry<V>>, userId: nat)
    requires forall k :: k in entries ==> !(UserPrefix(userId) <= k)
    ensures Invalidated(entries, userId) == entries
  {
    assert MatchingKeys(entries, userId) == {};
  }

  // ------------------------------------------------- the entries, as values

  /** What `get` finds: the stored value, or nothing when the key is absent or the client fails. */
  function Lookup<V>(entries: map<string, Entry<V>>, failing: bool, key: string): (r: Option<V>)
    ensures r.Some? <==> !failing && key in entries
    ensures r.Some? ==> r.value == entries[key].value
  {
    if !failing && key in entries then Some(entries[key].value) else None
  }

  /** The entries after a SETEX, which the server refuses for a time to live that is not positive. */
  function Stored<V>(entries: map<string, Entry<V>>, key: string, value: V, ttl: int): (r: map<string, Entry<V>>)
    ensures ttl > 0 ==> r.Keys == entries.Keys + {key} && r[key] == Entry(value, ttl)
    ensures ttl <= 0 ==> r == entries
    ensures forall k :: k != key ==> (k in r <==> k in entries)
    ensures forall k :: k != key && k in entries ==> r[k] == entries[k]
  {
    if ttl > 0 then entries[key := Entry(value, ttl)] else entries
  }

  /** Storing and then reading the same key before it expires gives back the value stored. */
  lemma SetThenGet<V>(entries: map<string, Entry<V>>, key: string, value: V, ttl: int)
    requires ttl > 0
    ensures Lookup(Stored(entries, key, value, ttl), false, key) == Some(value)
  {
  }

  /** The entries after a DEL of one key. */
  function Deleted<V>(entries: map<string, Entry<V>>, key: string): (r: map<string, Entry<V>>)
    ensures r.Keys == entries.Keys - {key}
    ensures forall k :: k in r ==> r[k] == entries[k]
  {
    entries - {key}
  }

  /** The entries after invalidateUserCache, which changes nothing while the client fails. */
  function AfterInvalidation<V>(entries: map<string, Entry<V>>, failing: bool, userId: nat): (r: map<string, Entry<V>>)
    ensures failing ==> r == entries
    ensures !failing ==> forall k :: k in r ==> !(UserPrefix(userId) <= k)
    ensures !failing ==> forall k :: k in r <==> k in entries && !(UserPrefix(userId) <= k)
    ensures !failing ==> forall k :: k in r ==> r[k] == entries[k]
  {
    if failing then entries else Invalidated(entries, userId)
  }

  // ---------------------------------------------------------- the service

  /** CacheService: the client's store, and whether the client currently fails. */
  class CacheService<V> {
    var entries: map<string, Entry<V>>
    var failing: bool

    /** An empty store behind a client that fails or not. */
    constructor (failing: bool)
      ensures entries == map[] && this.failing == failing
    {
      entries := map[];
      this.failing := failing;
    }

    /** get: the entry's value, or nothing; a failing client is read as an absent key. */
    method Get(key: string) returns (r: Option<V>)
      ensures r == Lookup(entries, failing, key)
    {
      if failing {
        return None;
      }
      if key in entries {
        r := Some(entries[key].value);
      } else {
        r := None;
      }
    }

    /** set: a SETEX of the value for `ttl` seconds, one hour by default; a failure is swallowed. */
    method Set(key: string, value: V, ttl: int := DefaultTtl)
      modifies this
      ensures failing == old(failing)
      ensures entries == if old(failing) then old(entries) else Stored(old(entries), key, value, ttl)
    {
      if failing || ttl <= 0 {
        return;
      }
      entries := entries[key := Entry(value, ttl)];
    }

    /** delete: a DEL of one key; a failure is swallowed. */
    method Delete(key: string)
      modifies this
      ensures failing == old(failing)
      ensures entries == if old(failing) then old(entries) else Deleted(old(entries), key)
    {
      if failing {
        return;
      }
      entries := entries - {key};
    }

    /** invalidateUserCache: KEYS user:<id>:*, then one DEL of all of them when there are any; a failure is swallowed. */
    method InvalidateUserCache(userId: nat)
      modifies this
      ensures failing == old(failing)
      ensures entries == AfterInvalidation(old(entries), old(failing), userId)
    {
      if failing {
        return;
      }
      var keys := MatchingKeys(entries, userId);
      if |keys| > 0 {
        entries := entries - keys;
      } else {
        InvalidateNoMatch(entries, userId);
      }
    }
  }
}
