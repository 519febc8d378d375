/**
 * The user operations of the backend's data layer: registration and the two
 * lookups; and what deleting a user does to the tables, which no operation
 * issues but the foreign key of `debts` defines: the cascade to that user's
 * debts.
 */
module UserModel {
  import opened Common
  import opened Schema
  import opened DebtModel

  /** The columns `RETURNING id, email, name, created_at` and getUserById select: no password. */
  datatype PublicUser = PublicUser(id: nat, email: string, name: Option<string>, createdAt: nat)

  function Public(u: User): PublicUser {
    PublicUser(u.id, u.email, u.name, u.createdAt)
  }

  // --------------------------------------------------------------- lookups

  /** The id of a user whose email is exactly `email`, among the ids below `n`. */
  function FindByEmail(users: map<nat, User>, email: string, n: nat): (r: Option<nat>)
    ensures r.Some? ==> r.value < n && r.value in users && users[r.value].email == email
    ensures r.None? ==> forall id :: id < n && id in users ==> users[id].email != email
  {
    if n == 0 then None
    else if n - 1 in users && users[n - 1].email == email then Some(n - 1)
    else FindByEmail(users, email, n - 1)
  }

  /** The row `SELECT * FROM users WHERE email = $1` returns on the tables `t`. */
  function UserWithEmail(t: Tables, email: string): (r: Option<User>)
    ensures r.Some? ==> r.value in t.users.Values && r.value.email == email
    ensures r.None? ==> forall id :: id < t.nextUserId && id in t.users ==> t.users[id].email != email
  {
    match FindByEmail(t.users, email, t.nextUserId)
    case None => None
    case Some(id) => Some(t.users[id])
  }

  /** Under UNIQUE (email), the lookup finds the one user with that email, and finds nobody exactly when there is none. */
  lemma UserWithEmailExact(t: Tables, email: string)
    requires UsersValid(t)
    ensures UserWithEmail(t, email).Some? <==> exists id :: id in t.users && t.users[id].email == email
    ensures UserWithEmail(t, email).Some? ==>
              var u := UserWithEmail(t, email).value;
              u.id in t.users && t.users[u.id] == u && u.email == email &&
              forall id :: id in t.users && t.users[id].email == email ==> id == u.id
  {
  }

  /** UNIQUE (email): no two users share an email. */
  lemma AtMostOneUserPerEmail(t: Tables, email: string)
    requires UsersValid(t)
    ensures |set id | id in t.users && t.users[id].email == email| <= 1
  {
    var s := set id | id in t.users && t.users[id].email == email;
    if s != {} {
      var x :| x in s;
      assert s == {x};
    }
  }

  /** getUserByEmail: the full row, password hash included, of the user with exactly this email. */
  function GetUserByEmail(db: Database, email: string): (r: Result<Option<User>, DbError>)
    reads db
    requires db.Valid()
    ensures r.Err? <==> !db.online
    ensures r.Err? ==> r.error == StoreUnavailable
    ensures r.Ok? && r.value.Some? ==>
              r.value.value.id in db.tables.users && db.tables.users[r.value.value.id] == r.value.value &&
              r.value.value.email == email
    ensures r.Ok? && r.value.None? ==> forall id :: id in db.tables.users ==> db.tables.users[id].email != email
  {
    UserWithEmailExact(db.tables, email);
    if db.online then Ok(UserWithEmail(db.tables, email)) else Err(StoreUnavailable)
  }

  /** getUserById: the user's public columns, without the password. */
  function GetUserById(db: Database, id: nat): (r: Result<Option<PublicUser>, DbError>)
    reads db
    ensures r.Err? <==> !db.online
    ensures r.Ok? ==> (r.value.Some? <==> id in db.tables.users)
    ensures r.Ok? && r.value.Some? ==>
              var u := db.tables.users[id];
              r.value.value.id == u.id && r.value.value.email == u.email &&
              r.value.value.name == u.name && r.value.value.createdAt == u.createdAt
  {
    if !db.online then Err(StoreUnavailable)
    else if id in db.tables.users then Ok(Some(Public(db.tables.users[id])))
    else Ok(None)
  }

  // ---------------------------------------------------------- registration

  /** The row registerUser inserts: next SERIAL id, the hash in place of the password, created now. */
  function NewUser(t: Tables, email: string, hashed: string, name: Option<string>): User {
    User(t.nextUserId, email, hashed, name, t.clock)
  }

  /** Whether that INSERT passes UNIQUE (email) and the VARCHAR(255) columns. */
  predicate Registrable(t: Tables, email: string, hashed: string, name: Option<string>) {
    FindByEmail(t.users, email, t.nextUserId).None? && UserRowValid(NewUser(t, email, hashed, name))
  }

  /** The tables after inserting user `u`. */
  function Registered(t: Tables, u: User): Tables {
    t.(users := t.users[u.id := u], nextUserId := t.nextUserId + 1, clock := t.clock + 1)
  }

  /** A registration keeps the tables valid, adds exactly one user, and leaves every debt listing alone. */
  lemma RegisterAddsOneUser(t: Tables, email: string, hashed: string, name: Option<string>)
    requires TablesValid(t) && Registrable(t, email, hashed, name)
    ensures var u := NewUser(t, email, hashed, name);
      && u.id !in t.users
      && TablesValid(Registered(t, u))
      && Registered(t, u).users.Keys == t.users.Keys + {u.id}
      && (forall v: nat, f: Option<bool> :: ListDebts(Registered(t, u), v, f) == ListDebts(t, v, f))
  {
    var u := NewUser(t, email, hashed, name);
    var t2 := Registered(t, u);
    assert forall i :: i in t.users ==> t.users[i].email != email;
    forall v: nat, f: Option<bool> ensures ListDebts(t2, v, f) == ListDebts(t, v, f) {
      assert forall id: nat :: Owned(t2.debts, id, v) == Owned(t.debts, id, v);
      ListDebtsOwnerRows(t2, t, v, f);
    }
  }

  /**
   * registerUser: hash the password, insert the row, and return its public
   * columns. The password column holds hashPassword(password); the password
   * column never comes back.
   */
  method RegisterUser(db: Database, email: string, password: string, name: Option<string>,
                      hashPassword: string -> string)
    returns (r: Result<PublicUser, DbError>)
    requires db.Valid()
    modifies db
    ensures db.Valid() && db.online == old(db.online)
    ensures !old(db.online) ==> r == Err(StoreUnavailable)
    ensures old(db.online) && !Registrable(old(db.tables), email, hashPassword(password), name) ==>
              r == Err(ConstraintViolation)
    ensures old(db.online) && Registrable(old(db.tables), email, hashPassword(password), name) ==>
              var u := NewUser(old(db.tables), email, hashPassword(password), name);
              r == Ok(Public(u)) && db.tables == Registered(old(db.tables), u) && u.password == hashPassword(password)
    ensures r.Err? ==> db.tables == old(db.tables)
  {
    var hashed := hashPassword(password);
    if !db.online {
      return Err(StoreUnavailable);
    }
    if !Registrable(db.tables, email, hashed, name) {
      return Err(ConstraintViolation);
    }
    var u := NewUser(db.tables, email, hashed, name);
    RegisterAddsOneUser(db.tables, email, hashed, name);
    db.tables := Registered(db.tables, u);
    r := Ok(Public(u));
  }

  // -------------------------------------------------------------- deletion

  /** The tables after `DELETE FROM users WHERE id = $1`, with ON DELETE CASCADE on debts.user_id. */
  function WithoutUser(t: Tables, userId: nat): (r: Tables)
    ensures r.users.Keys == t.users.Keys - {userId}
    ensures forall id :: id in r.users ==> r.users[id] == t.users[id]
    ensures forall id :: id in r.debts <==> id in t.debts && t.debts[id].userId != userId
    ensures forall id :: id in r.debts ==> r.debts[id] == t.debts[id]
    ensures r.nextUserId == t.nextUserId && r.nextDebtId == t.nextDebtId && r.clock == t.clock
  {
    t.(users := t.users - {userId},
       debts := map id | id in t.debts && t.debts[id].userId != userId :: t.debts[id])
  }

  /**
   * The cascade removes every debt of the user and nothing else: the tables
   * stay valid (no debt is left without its user), the user's listing is
   * empty, and every other owner's listing is as it was.
   */
  lemma DeleteUserCascades(t: Tables, userId: nat)
    requires TablesValid(t)
    ensures TablesValid(WithoutUser(t, userId))
    ensures forall id :: id in WithoutUser(t, userId).debts <==> id in t.debts && t.debts[id].userId != userId
    ensures forall f: Option<bool> :: ListDebts(WithoutUser(t, userId), userId, f) == []
    ensures OtherListingsKept(t, WithoutUser(t, userId), userId)
  {
    var t2 := WithoutUser(t, userId);
    forall f: Option<bool> ensures ListDebts(t2, userId, f) == [] {
      assert forall id: nat :: Owned(t2.debts, id, userId).None?;
      ListFromBeyond(t2.debts, userId, f, 0, t2.nextDebtId);
    }
    forall v: nat, f: Option<bool> | v != userId ensures ListDebts(t2, v, f) == ListDebts(t, v, f) {
      assert forall id: nat :: Owned(t2.debts, id, v) == Owned(t.debts, id, v);
      ListDebtsOwnerRows(t2, t, v, f);
    }
  }
}
