/** The server's relational store as the services see it: the `users` and `movies` tables
    with their SERIAL id counters, and the `favorites` table of (user, movie) pairs. Rows are
    kept in creation order, so creation time orders them as the sequence does. */
module Tables {
  import opened Models
  import opened Seqs

  datatype UserRow = UserRow(id: int, username: string)
  datatype UsersTable = UsersTable(rows: seq<UserRow>, nextId: int)
  datatype MoviesTable = MoviesTable(rows: seq<Movie>, nextId: int)
  /** A `favorites` row; its key is the pair. */
  datatype FavoriteRow = FavoriteRow(userId: int, movieId: int)

  /** SERIAL ids: positive, increasing in creation order and below the next one. */
  predicate UsersValid(t: UsersTable)
  {
    t.nextId > 0 &&
    (forall i :: 0 <= i < |t.rows| ==> 0 < t.rows[i].id < t.nextId) &&
    (forall i, j :: 0 <= i < j < |t.rows| ==> t.rows[i].id < t.rows[j].id)
  }

  predicate MoviesValid(t: MoviesTable)
  {
    t.nextId > 0 &&
    (forall i :: 0 <= i < |t.rows| ==> 0 < t.rows[i].id < t.nextId) &&
    (forall i, j :: 0 <= i < j < |t.rows| ==> t.rows[i].id < t.rows[j].id)
  }

  /** Overwriting a row with one of the same id keeps the movies table valid. */
  lemma MoviesValidAfterWrite(t: MoviesTable, k: nat, m: Movie)
    requires k < |t.rows| && m.id == t.rows[k].id
    ensures MoviesValid(t) ==> MoviesValid(t.(rows := t.rows[k := m]))
  {
  }

  /** Appending a row under the next id, and advancing the counter, keeps the ids valid. */
  lemma UsersValidAppend(t: UsersTable, u: UserRow)
    requires UsersValid(t) && u.id == t.nextId
    ensures UsersValid(UsersTable(t.rows + [u], t.nextId + 1))
  {
    var rows := t.rows + [u];
    assert forall i :: 0 <= i < |t.rows| ==> rows[i] == t.rows[i];
    assert rows[|t.rows|] == u;
  }

  lemma MoviesValidAppend(t: MoviesTable, m: Movie)
    requires MoviesValid(t) && m.id == t.nextId
    ensures MoviesValid(MoviesTable(t.rows + [m], t.nextId + 1))
  {
    var rows := t.rows + [m];
    assert forall i :: 0 <= i < |t.rows| ==> rows[i] == t.rows[i];
    assert rows[|t.rows|] == m;
  }

  /** The pool's database: the three tables. */
  class Database {
    var users: UsersTable
    var movies: MoviesTable
    var favorites: seq<FavoriteRow>

    predicate Valid()
      reads this
    {
      UsersValid(users) && MoviesValid(movies) && Distinct(favorites)
    }

    /** Empty tables whose counters start at 1. */
    constructor ()
      ensures Valid()
      ensures users == UsersTable([], 1) && movies == MoviesTable([], 1) && favorites == []
    {
      users, movies, favorites := UsersTable([], 1), MoviesTable([], 1), [];
    }
  }
}
