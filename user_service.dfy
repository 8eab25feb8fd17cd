/** The users table behind src/services/userService.ts, held in memory.
    A row is `{id, email, password, created_at}`, where `password` is the
    column holding the bcrypt hash. The table enforces what the schema's
    `id UUID PRIMARY KEY` and `email TEXT UNIQUE` columns enforce. */
module Users {
  import opened Common
  import opened Hashing

  datatype User = User(id: string, email: string, password: string, createdAt: string)

  /** The object `SELECT *` hands back for a row, keyed by column name. */
  function RowObject(u: User): (o: JsonObject)
    ensures o.Keys == {"id", "email", "password", "created_at"}
  {
    map["id" := u.id, "email" := u.email, "password" := u.password, "created_at" := u.createdAt]
  }

  /** Both unique columns hold distinct values in distinct rows. */
  predicate UniqueKeys(rows: seq<User>)
  {
    forall i, j :: 0 <= i < j < |rows| ==> rows[i].email != rows[j].email && rows[i].id != rows[j].id
  }

  predicate EmailTaken(rows: seq<User>, email: string)
  {
    exists u :: u in rows && u.email == email
  }

  predicate IdTaken(rows: seq<User>, id: string)
  {
    exists u :: u in rows && u.id == id
  }

  /** Whether `INSERT INTO users` succeeds for a row with this email and id:
      neither unique column clashes and the database itself does not fail. */
  predicate InsertAccepted(rows: seq<User>, email: string, id: string, dbError: bool)
  {
    !dbError && !EmailTaken(rows, email) && !IdTaken(rows, id)
  }

  /** `findUserByEmail`: the first row with that email, or null. */
  function FindUserByEmail(rows: seq<User>, email: string): (r: Option<User>)
    ensures r.Some? ==> r.value in rows && r.value.email == email
    ensures r.None? <==> !EmailTaken(rows, email)
  {
    if |rows| == 0 then None
    else if rows[0].email == email then Some(rows[0])
    else FindUserByEmail(rows[1..], email)
  }

  /** `findUserById`: the first row with that id, or null. */
  function FindUserById(rows: seq<User>, id: string): (r: Option<User>)
    ensures r.Some? ==> r.value in rows && r.value.id == id
    ensures r.None? <==> !IdTaken(rows, id)
  {
    if |rows| == 0 then None
    else if rows[0].id == id then Some(rows[0])
    else FindUserById(rows[1..], id)
  }

  /** `validatePassword`: the hasher's verdict; a password always validates
      against its own hash when the hasher is sound. */
  function ValidatePassword(b: Bcrypt, plainPassword: string, hashedPassword: string): (r: bool)
    ensures Sound(b) && hashedPassword == b.hash(plainPassword) ==> r
  {
    b.compare(plainPassword, hashedPassword)
  }

  /** In a table with unique emails, the row `findUserByEmail` returns is the
      only one with that email. */
  lemma FindUserByEmailIsTheRow(rows: seq<User>, u: User)
    requires UniqueKeys(rows)
    requires u in rows
    ensures FindUserByEmail(rows, u.email) == Some(u)
  {
  }

  /** In a table with unique ids, the row `findUserById` returns is the only
      one with that id. */
  lemma FindUserByIdIsTheRow(rows: seq<User>, u: User)
    requires UniqueKeys(rows)
    requires u in rows
    ensures FindUserById(rows, u.id) == Some(u)
  {
  }

  /** Appending a row whose email and id are both new keeps the keys unique. */
  lemma InsertKeepsKeysUnique(rows: seq<User>, u: User)
    requires UniqueKeys(rows)
    requires !EmailTaken(rows, u.email) && !IdTaken(rows, u.id)
    ensures UniqueKeys(rows + [u])
  {
  }

  /** The users table the service writes to. */
  class UserService {
    var rows: seq<User>

    ghost predicate Valid()
      reads this
    {
      UniqueKeys(rows)
    }

    constructor ()
      ensures Valid() && rows == []
    {
      rows := [];
    }

    /** `createUser`: the password is hashed first; then exactly one row with
        the hash (never the plaintext) is added, or, on any insert failure,
        nothing changes and the error is always "User already exists".
        `id` and `createdAt` are the column defaults the database would
        fill in; `dbError` stands for an insert failure other than the
        unique constraints. */
    method CreateUser(email: string, password: string, b: Bcrypt, id: string, createdAt: string, dbError: bool)
      returns (error: Option<string>)
      requires Valid()
      modifies this
      ensures Valid()
      ensures error.None? <==> InsertAccepted(old(rows), email, id, dbError)
      ensures error.Some? ==> error.value == AlreadyExistsMessage && rows == old(rows)
      ensures error.None? ==> rows == old(rows) + [User(id, email, b.hash(password), createdAt)]
    {
      var hashedPassword := b.hash(password);
      if !InsertAccepted(rows, email, id, dbError) {
        return Some(AlreadyExistsMessage);
      }
      InsertKeepsKeysUnique(rows, User(id, email, hashedPassword, createdAt));
      rows := rows + [User(id, email, hashedPassword, createdAt)];
      return None;
    }
  }
}
