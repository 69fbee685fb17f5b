/** The user queries of server/src/services/user.service.ts over the `users` table. */
module UserService {
  import opened Wrappers
  import opened Tables

  /** `findUserByUsername`: the first row with exactly that user name, or `null`. */
  function FindUser(rows: seq<UserRow>, username: string): (r: Option<UserRow>)
    ensures r.Some? ==> r.value in rows && r.value.username == username
    ensures r.None? <==> forall i :: 0 <= i < |rows| ==> rows[i].username != username
  {
    if rows == [] then None
    else if rows[0].username == username then Some(rows[0])
    else FindUser(rows[1..], username)
  }

  /** A row added at the end is found only when no earlier row has the name. */
  lemma {:induction false} FindUserAppend(rows: seq<UserRow>, x: UserRow, username: string)
    ensures FindUser(rows + [x], username) ==
            if FindUser(rows, username).Some? then FindUser(rows, username)
            else if x.username == username then Some(x) else None
  {
    if rows == [] {
      assert rows + [x] == [x];
      assert [x][1..] == [];
    } else {
      assert (rows + [x])[1..] == rows[1..] + [x];
      FindUserAppend(rows[1..], x, username);
    }
  }

  /** `createUser`: `INSERT INTO users (username) ... RETURNING *`, the next SERIAL id. */
  function InsertUser(t: UsersTable, username: string): (r: (UsersTable, UserRow))
    ensures r.1.id == t.nextId && r.1.username == username
    ensures r.0.rows == t.rows + [r.1] && r.0.nextId == t.nextId + 1
  {
    var row := UserRow(t.nextId, username);
    (UsersTable(t.rows + [row], t.nextId + 1), row)
  }

  /** Inserting keeps the ids valid; the new row is found unless an older one has the name. */
  lemma InsertUserValid(t: UsersTable, username: string)
    requires UsersValid(t)
    ensures UsersValid(InsertUser(t, username).0)
    ensures FindUser(t.rows, username).None? ==>
              FindUser(InsertUser(t, username).0.rows, username) == Some(InsertUser(t, username).1)
  {
    var row := InsertUser(t, username).1;
    UsersValidAppend(t, row);
    FindUserAppend(t.rows, row, username);
  }

  datatype FoundOrCreated = FoundOrCreated(table: UsersTable, user: UserRow, isNew: bool)

  /** `findOrCreateUser`: the existing user, or a newly inserted one. */
  function FindOrCreate(t: UsersTable, username: string): (r: FoundOrCreated)
    ensures FindUser(t.rows, username).Some? ==>
              r.table == t && r.user == FindUser(t.rows, username).value && !r.isNew
    ensures FindUser(t.rows, username).None? ==>
              r.isNew && r.user == UserRow(t.nextId, username) &&
              r.table == UsersTable(t.rows + [r.user], t.nextId + 1)
  {
    match FindUser(t.rows, username)
    case Some(u) => FoundOrCreated(t, u, false)
    case None =>
      var (t', u) := InsertUser(t, username);
      FoundOrCreated(t', u, true)
  }

  /** Afterwards the name is found, and it is found as the returned user. */
  lemma FindOrCreateFinds(t: UsersTable, username: string)
    requires UsersValid(t)
    ensures UsersValid(FindOrCreate(t, username).table)
    ensures FindUser(FindOrCreate(t, username).table.rows, username) == Some(FindOrCreate(t, username).user)
  {
    InsertUserValid(t, username);
  }

  /** A second call with the same name returns the same user, is not new, and changes nothing. */
  lemma FindOrCreateIdempotent(t: UsersTable, username: string)
    requires UsersValid(t)
    ensures var first := FindOrCreate(t, username);
            FindOrCreate(first.table, username) == FoundOrCreated(first.table, first.user, false)
  {
    FindOrCreateFinds(t, username);
  }

  predicate UniqueUsernames(rows: seq<UserRow>)
  {
    forall i, j :: 0 <= i < j < |rows| ==> rows[i].username != rows[j].username
  }

  /** Users created only through find-or-create never share a name. */
  lemma FindOrCreateKeepsNamesUnique(t: UsersTable, username: string)
    requires UniqueUsernames(t.rows)
    ensures UniqueUsernames(FindOrCreate(t, username).table.rows)
  {
  }

  /** `createUser` itself inserts whatever name it is given, so calling it for a name that
      exists adds a second row with that name (the table's constraints are not part of this
      model). */
  lemma CreateUserAllowsDuplicate(t: UsersTable, username: string)
    requires FindUser(t.rows, username).Some?
    ensures !UniqueUsernames(InsertUser(t, username).0.rows)
  {
    var rows := InsertUser(t, username).0.rows;
    var u := FindUser(t.rows, username).value;
    var i :| 0 <= i < |t.rows| && t.rows[i] == u;
    assert rows[i].username == rows[|rows| - 1].username;
  }

  /** `findUserByUsername`: a read of the users table that changes nothing. */
  method FindUserByUsername(db: Database, username: string) returns (u: Option<UserRow>)
    requires db.Valid()
    ensures u == FindUser(db.users.rows, username)
    ensures u.Some? ==> u.value in db.users.rows && u.value.username == username
    ensures u.None? <==> forall i :: 0 <= i < |db.users.rows| ==> db.users.rows[i].username != username
  {
    u := FindUser(db.users.rows, username);
  }

  /** `createUser`. */
  method CreateUser(db: Database, username: string) returns (u: UserRow)
    requires db.Valid()
    modifies db
    ensures db.Valid()
    ensures (db.users, u) == InsertUser(old(db.users), username)
    ensures db.movies == old(db.movies) && db.favorites == old(db.favorites)
  {
    InsertUserValid(db.users, username);
    u := UserRow(db.users.nextId, username);
    db.users := UsersTable(db.users.rows + [u], db.users.nextId + 1);
  }

  /** `findOrCreateUser`: look the name up, and insert it when it is missing. */
  method FindOrCreateUser(db: Database, username: string) returns (u: UserRow, isNew: bool)
    requires db.Valid()
    modifies db
    ensures db.Valid()
    ensures FoundOrCreated(db.users, u, isNew) == FindOrCreate(old(db.users), username)
    ensures db.movies == old(db.movies) && db.favorites == old(db.favorites)
  {
    var found := FindUserByUsername(db, username);
    isNew := false;
    if found.None? {
      u := CreateUser(db, username);
      isNew := true;
    } else {
      u := found.value;
    }
  }

  /** `getUserIdByUsername`: the id of the user with that name, created first if missing. */
  method GetUserIdByUsername(db: Database, username: string) returns (id: int)
    requires db.Valid()
    modifies db
    ensures db.Valid()
    ensures db.users == FindOrCreate(old(db.users), username).table
    ensures id == FindOrCreate(old(db.users), username).user.id
    ensures db.movies == old(db.movies) && db.favorites == old(db.favorites)
  {
    var u, isNew := FindOrCreateUser(db, username);
    id := u.id;
  }

  /** Two sign-ins with the same name give the same id; only the first creates a user. */
  method SignInTwice(db: Database, username: string) returns (first: UserRow, second: UserRow, secondIsNew: bool)
    requires db.Valid()
    modifies db
    ensures first.id == second.id && !secondIsNew
  {
    var isNew;
    first, isNew := FindOrCreateUser(db, username);
    FindOrCreateIdempotent(old(db.users), username);
    second, secondIsNew := FindOrCreateUser(db, username);
  }
}
