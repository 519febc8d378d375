/**
 * The two tables the backend keeps in PostgreSQL, as `createUserTable` and
 * `createDebtsTable` declare them: `users(id, email UNIQUE NOT NULL, password,
 * name, created_at)` and `debts(id, user_id REFERENCES users ON DELETE
 * CASCADE, description, amount CHECK (amount > 0), paid_amount DEFAULT 0,
 * is_paid DEFAULT FALSE, due_date, created_at, updated_at)`.
 *
 * Money is held as integer cents: a DECIMAL(10, 2) value is exactly an
 * integer number of cents of at most ten digits. SERIAL ids come from
 * counters, and CURRENT_TIMESTAMP from a logical clock that every writing
 * statement advances by one.
 */
module Schema {
  import opened Common

  /** A DATE, as a day number. */
  type Date = nat

  /** The longest string a VARCHAR(255) column accepts. */
  const MaxVarchar: nat := 255

  /** The largest magnitude, in cents, that DECIMAL(10, 2) holds: 99999999.99. */
  const MaxCents: int := 9_999_999_999

  predicate FitsVarchar(s: string) {
    |s| <= MaxVarchar
  }

  /** A value a DECIMAL(10, 2) column can store. */
  predicate FitsDecimal(cents: int) {
    -MaxCents <= cents <= MaxCents
  }

  /** A value the `amount` column accepts: it fits DECIMAL(10, 2) and passes CHECK (amount > 0). */
  predicate ValidAmount(cents: int) {
    0 < cents <= MaxCents
  }

  datatype User = User(id: nat, email: string, password: string, name: Option<string>, createdAt: nat)

  datatype Debt = Debt(
    id: nat,
    userId: nat,
    description: string,
    amount: int,
    paidAmount: int,
    isPaid: bool,
    dueDate: Option<Date>,
    createdAt: nat,
    updatedAt: nat)

  /** The state of the database: both tables, the two SERIAL counters and the clock. */
  datatype Tables = Tables(
    users: map<nat, User>,
    debts: map<nat, Debt>,
    nextUserId: nat,
    nextDebtId: nat,
    clock: nat)

  /** The row constraints one debt must meet against the users table. */
  predicate RowValid(d: Debt, users: map<nat, User>) {
    && d.userId in users
    && FitsVarchar(d.description)
    && ValidAmount(d.amount)
    && FitsDecimal(d.paidAmount)
  }

  predicate UserRowValid(u: User) {
    FitsVarchar(u.email) && FitsVarchar(u.password) && (u.name.Some? ==> FitsVarchar(u.name.value))
  }

  /** Primary keys, UNIQUE email and the column types of `users`. */
  ghost predicate UsersValid(t: Tables) {
    && (forall id :: id in t.users ==> t.users[id].id == id && id < t.nextUserId && UserRowValid(t.users[id]))
    && (forall i, j :: i in t.users && j in t.users && t.users[i].email == t.users[j].email ==> i == j)
  }

  /**
   * Primary keys, the row constraints and the foreign key of `debts`; and
   * since ids and timestamps both grow with every insert, a row with a
   * larger id was created later.
   */
  ghost predicate DebtsValid(t: Tables) {
    && (forall id :: id in t.debts ==>
          && t.debts[id].id == id
          && id < t.nextDebtId
          && t.debts[id].createdAt < t.clock
          && RowValid(t.debts[id], t.users))
    && (forall i, j :: i in t.debts && j in t.debts && i < j ==> t.debts[i].createdAt < t.debts[j].createdAt)
  }

  ghost predicate TablesValid(t: Tables) {
    UsersValid(t) && DebtsValid(t)
  }

  /** The ways a statement fails: the two errors the debt operations raise, and those of the server. */
  datatype DbError = NotFound | PaidDebtLocked | ConstraintViolation | StoreUnavailable

  /** The error's message, as `err.message` carries it to the controllers. */
  function ErrorMessage(e: DbError): string {
    match e
    case NotFound => "Deuda no encontrada"
    case PaidDebtLocked => "No se puede editar una deuda pagada"
    case ConstraintViolation => "violates a constraint of the table"
    case StoreUnavailable => "database server unreachable"
  }

  /**
   * The database server: the tables and whether the server can be reached.
   * Every statement issued while it cannot be reached fails and changes nothing.
   */
  class Database {
    var tables: Tables
    var online: bool

    ghost predicate Valid()
      reads this
    {
      TablesValid(tables)
    }

    /** Both tables freshly created, and empty. */
    constructor (online: bool)
      ensures Valid()
      ensures tables.users == map[] && tables.debts == map[]
      ensures this.online == online
    {
      tables := Tables(map[], map[], 0, 0, 0);
      this.online := online;
    }
  }
}
