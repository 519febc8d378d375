/**
 * The authentication handlers: registration and login. Hashing, password
 * comparison and token signing are opaque functions passed in; the token of
 * a user is whatever `generateToken` makes of the user's id.
 */
module AuthController {
  import opened Common
  import opened Schema
  import opened UserModel
  import opened Http
  import Cache
  import DebtController

  /** A body field that JavaScript reads as true: present and not the empty string. */
  predicate Provided(s: Option<string>) {
    s.Some? && s.value != ""
  }

  /**
   * register writes the users table only: every debt listing and every
   * aggregation stays as it was, so the debt cache stays current without
   * an invalidation.
   */
  lemma RegisterKeepsCacheCoherent(entries: map<string, Cache.Entry<DebtController.CacheValue>>, t: Tables,
                                   email: string, hashed: string, name: Option<string>)
    requires TablesValid(t) && Registrable(t, email, hashed, name) && DebtController.Coherent(entries, t)
    ensures DebtController.Coherent(entries, Registered(t, NewUser(t, email, hashed, name)))
  {
    RegisterAddsOneUser(t, email, hashed, name);
  }

  /**
   * register: 400 when the email is taken, otherwise register the user and
   * answer 201 with its public fields and a token for its id; 500 when a
   * statement fails.
   */
  method Register(db: Database, email: string, password: string, name: Option<string>,
                  hashPassword: string -> string, generateToken: nat -> string)
    returns (res: Response)
    requires db.Valid()
    modifies db
    ensures db.Valid() && db.online == old(db.online)
    ensures !old(db.online) ==>
              res == Response(500, Failure("Error al registrar usuario", ErrorMessage(StoreUnavailable))) &&
              db.tables == old(db.tables)
    ensures old(db.online) && UserWithEmail(old(db.tables), email).Some? ==>
              res == Response(400, Message("El email ya está registrado")) && db.tables == old(db.tables)
    ensures old(db.online) && UserWithEmail(old(db.tables), email).None? &&
            !Registrable(old(db.tables), email, hashPassword(password), name) ==>
              res == Response(500, Failure("Error al registrar usuario", ErrorMessage(ConstraintViolation))) &&
              db.tables == old(db.tables)
    ensures old(db.online) && Registrable(old(db.tables), email, hashPassword(password), name) ==>
              var u := NewUser(old(db.tables), email, hashPassword(password), name);
              res == Response(201, WithUser("Usuario registrado exitosamente", UserView(u.id, email, name), generateToken(u.id))) &&
              db.tables == Registered(old(db.tables), u)
  {
    var existing := GetUserByEmail(db, email);
    if existing.Err? {
      return Response(500, Failure("Error al registrar usuario", ErrorMessage(existing.error)));
    }
    if existing.value.Some? {
      return Response(400, Message("El email ya está registrado"));
    }
    var registered := RegisterUser(db, email, password, name, hashPassword);
    if registered.Err? {
      return Response(500, Failure("Error al registrar usuario", ErrorMessage(registered.error)));
    }
    var user := registered.value;
    var token := generateToken(user.id);
    res := Response(201, WithUser("Usuario registrado exitosamente", UserView(user.id, user.email, user.name), token));
  }

  /**
   * login: 400 before any lookup when a field is missing; one and the same
   * 401 for an unknown email and for a wrong password; 200 with the user's
   * public fields and a token for its id.
   */
  method Login(db: Database, email: Option<string>, password: Option<string>,
               comparePassword: (string, string) -> bool, generateToken: nat -> string)
    returns (res: Response)
    requires db.Valid()
    ensures !Provided(email) || !Provided(password) ==>
              res == Response(400, Message("Email y contraseña son requeridos"))
    ensures Provided(email) && Provided(password) && !db.online ==>
              res == Response(500, Failure("Error al hacer login", ErrorMessage(StoreUnavailable)))
    ensures Provided(email) && Provided(password) && db.online && UserWithEmail(db.tables, email.value).None? ==>
              res == Response(401, Message("Email o contraseña inválidos"))
    ensures Provided(email) && Provided(password) && db.online && UserWithEmail(db.tables, email.value).Some? ==>
              var u := UserWithEmail(db.tables, email.value).value;
              res == if comparePassword(password.value, u.password)
                     then Response(200, WithUser("Login exitoso", UserView(u.id, u.email, u.name), generateToken(u.id)))
                     else Response(401, Message("Email o contraseña inválidos"))
    ensures res.status == 401 ==> res.body == Message("Email o contraseña inválidos")
    ensures res.status == 200 ==>
              res.body.WithUser? && res.body.user.id in db.tables.users &&
              res.body.user.email == email.value && res.body.token == generateToken(res.body.user.id) &&
              comparePassword(password.value, db.tables.users[res.body.user.id].password)
  {
    if !Provided(email) || !Provided(password) {
      return Response(400, Message("Email y contraseña son requeridos"));
    }
    var found := GetUserByEmail(db, email.value);
    if found.Err? {
      return Response(500, Failure("Error al hacer login", ErrorMessage(found.error)));
    }
    if found.value.None? {
      return Response(401, Message("Email o contraseña inválidos"));
    }
    var user := found.value.value;
    var valid := comparePassword(password.value, user.password);
    if !valid {
      return Response(401, Message("Email o contraseña inválidos"));
    }
    var token := generateToken(user.id);
    res := Response(200, WithUser("Login exitoso", UserView(user.id, user.email, user.name), token));
  }
}
