/** The database queries of server/src/services/movies.service.ts over the `movies` table. */
module MoviesService {
  import opened Wrappers
  import opened Text
  import opened Models
  import opened Seqs
  import opened MovieLists
  import opened Tables

  const NotFoundMessage: string := "Movie not found"
  const InternalErrorMessage: string := "Internal server error"

  /** `getMoviesFromDatabase`: every row, `ORDER BY created_at DESC`. */
  function ListNewestFirst(t: MoviesTable): (r: seq<Movie>)
    ensures |r| == |t.rows|
    ensures forall m :: m in r <==> m in t.rows
  {
    var r := Reverse(t.rows);
    assert forall m :: m in t.rows ==> m in r by {
      forall m | m in t.rows ensures m in r {
        var i :| 0 <= i < |t.rows| && t.rows[i] == m;
        assert r[|t.rows| - 1 - i] == m;
      }
    }
    r
  }

  /** Newest first: since ids grow with creation, the listed ids go down. */
  lemma NewestFirstByDescendingId(t: MoviesTable)
    requires MoviesValid(t)
    ensures var r := ListNewestFirst(t); forall i, j :: 0 <= i < j < |r| ==> r[i].id > r[j].id
  {
  }

  /** `getMovieById`: the row with that id, or `null`. */
  function FindMovie(rows: seq<Movie>, id: int): (r: Option<Movie>)
    ensures r.Some? ==> r.value in rows && r.value.id == id
    ensures r.None? <==> forall m :: m in rows ==> m.id != id
  {
    match FindIndexById(rows, id)
    case None => None
    case Some(k) => Some(rows[k])
  }

  /** The columns `addMovieToDatabase` inserts: a movie without its id. */
  datatype NewMovie = NewMovie(
    user_id: int,
    title: string,
    year: Option<string>,
    runtime: Option<string>,
    poster: Option<string>,
    poster_local: Option<string>,
    genre: Option<string>,
    director: Option<string>,
    external_id: Option<string>,
    is_favorite: bool)

  function StoredRow(n: NewMovie, id: int): Movie
  {
    Movie(id, n.user_id, n.title, n.year, n.runtime, n.poster, n.poster_local,
          n.genre, n.director, n.external_id, n.is_favorite)
  }

  /** `addMovieToDatabase`: `INSERT ... RETURNING *` with the next SERIAL id. */
  function InsertMovie(t: MoviesTable, n: NewMovie): (r: (MoviesTable, Movie))
    ensures r.1.id == t.nextId && r.0.nextId == t.nextId + 1 && r.0.rows == t.rows + [r.1]
  {
    var row := StoredRow(n, t.nextId);
    (MoviesTable(t.rows + [row], t.nextId + 1), row)
  }

  /** The stored row holds every supplied column, is found under its new id, and no other id
      finds anything different. */
  lemma InsertThenFind(t: MoviesTable, n: NewMovie, id: int)
    requires MoviesValid(t)
    ensures var (t', m) := InsertMovie(t, n);
            MoviesValid(t') &&
            m.user_id == n.user_id && m.title == n.title && m.year == n.year && m.runtime == n.runtime &&
            m.poster == n.poster && m.poster_local == n.poster_local && m.genre == n.genre &&
            m.director == n.director && m.external_id == n.external_id && m.is_favorite == n.is_favorite &&
            FindMovie(t'.rows, t.nextId) == Some(m) &&
            (id != t.nextId ==> FindMovie(t'.rows, id) == FindMovie(t.rows, id))
  {
    var (t', m) := InsertMovie(t, n);
    MoviesValidAppend(t, m);
    FindIndexAppend(t.rows, m, t.nextId);
    FindIndexAppend(t.rows, m, id);
  }

  lemma {:induction false} FindIndexAppend(ms: seq<Movie>, x: Movie, id: int)
    ensures FindIndexById(ms + [x], id) ==
            if FindIndexById(ms, id).Some? then FindIndexById(ms, id)
            else if x.id == id then Some(|ms|) else None
  {
    if ms == [] {
      assert [x][1..] == [];
    } else {
      assert (ms + [x])[0] == ms[0];
      assert (ms + [x])[1..] == ms[1..] + [x];
      FindIndexAppend(ms[1..], x, id);
    }
  }

  /** `deleteMovieFromDatabase`: the table without that id, and whether a row went. */
  function DeleteMovie(t: MoviesTable, id: int): (r: (MoviesTable, bool))
    ensures r.0.nextId == t.nextId
  {
    (t.(rows := WithoutId(t.rows, id)), FindMovie(t.rows, id).Some?)
  }

  /** The result is true exactly when a row had the id; afterwards none has it, and every other
      row stays, in order, with the table still valid. */
  lemma DeleteReportsRemoval(t: MoviesTable, id: int)
    requires MoviesValid(t)
    ensures var (t', deleted) := DeleteMovie(t, id);
            (deleted <==> exists m :: m in t.rows && m.id == id) &&
            FindMovie(t'.rows, id).None? &&
            (forall m :: m in t'.rows <==> m in t.rows && m.id != id) &&
            IsSubsequence(t'.rows, t.rows) &&
            MoviesValid(t')
  {
    var (t', deleted) := DeleteMovie(t, id);
    forall m ensures m in t'.rows <==> m in t.rows && m.id != id {
      WithoutIdContents(t.rows, id, m);
    }
    FilterIsSubsequence(t.rows, KeepOtherId(id));
    SubsequenceKeepsValid(t'.rows, t.rows, t.nextId);
  }

  /** Rows taken in order from a valid table form a valid table. */
  lemma {:induction false} SubsequenceKeepsValid(a: seq<Movie>, b: seq<Movie>, nextId: int)
    requires IsSubsequence(a, b) && MoviesValid(MoviesTable(b, nextId))
    ensures MoviesValid(MoviesTable(a, nextId))
    decreases |b|
  {
    if a != [] {
      assert MoviesValid(MoviesTable(b[1..], nextId)) by {
        forall i, j | 0 <= i < j < |b[1..]| ensures b[1..][i].id < b[1..][j].id {
          assert b[1..][i] == b[i + 1] && b[1..][j] == b[j + 1];
        }
      }
      if a[0] == b[0] {
        SubsequenceKeepsValid(a[1..], b[1..], nextId);
        SubsequenceMembers(a[1..], b[1..]);
        var a' := a[1..];
        forall i, j | 0 <= i < j < |a| ensures a[i].id < a[j].id {
          if i == 0 {
            assert a[j] == a'[j - 1] && a'[j - 1] in b[1..];
            var k :| 0 <= k < |b[1..]| && b[1..][k] == a[j];
            assert b[k + 1] == a[j];
          } else {
            assert a[i] == a'[i - 1] && a[j] == a'[j - 1];
          }
        }
      } else {
        SubsequenceKeepsValid(a, b[1..], nextId);
      }
    }
  }

  lemma {:induction false} SubsequenceMembers<T>(a: seq<T>, b: seq<T>)
    requires IsSubsequence(a, b)
    ensures forall x :: x in a ==> x in b
    decreases |b|
  {
    if a != [] {
      if a[0] == b[0] {
        SubsequenceMembers(a[1..], b[1..]);
        assert forall x :: x in a ==> x == a[0] || x in a[1..];
      } else {
        SubsequenceMembers(a, b[1..]);
      }
    }
  }

  /** A missing `userId`, or `0`, is falsy: the check is then over every user's movies. */
  predicate Truthy(userId: Option<int>)
  {
    userId.Some? && userId.value != 0
  }

  /** `LOWER(title) = LOWER($1)` with `$1 = title.trim()`, and the user filter when given.
      `lower` is the database's per-character `LOWER`. */
  predicate TitleMatches(lower: char -> char, m: Movie, title: string, userId: Option<int>)
  {
    Lower(lower, m.title) == Lower(lower, Trim(title)) && (Truthy(userId) ==> m.user_id == userId.value)
  }

  /** `checkMovieExists(title, userId)`: whether the query returns any row. */
  function MovieExists(lower: char -> char, rows: seq<Movie>, title: string, userId: Option<int>): (b: bool)
    ensures b <==> exists i :: 0 <= i < |rows| && TitleMatches(lower, rows[i], title, userId)
  {
    if rows == [] then false
    else if TitleMatches(lower, rows[0], title, userId) then true
    else
      var rest := MovieExists(lower, rows[1..], title, userId);
      assert forall i :: 1 <= i < |rows| ==> rows[i] == rows[1..][i - 1];
      rest
  }

  /** Normalising the query a second time changes nothing. */
  lemma NormalizedQueryIsFixed(lower: char -> char, title: string)
    requires IsCaseFold(lower)
    ensures Lower(lower, Trim(Lower(lower, Trim(title)))) == Lower(lower, Trim(title))
  {
    var q := Trim(title);
    LowerKeepsTrimmed(lower, q);
    TrimOfTrimmed(Lower(lower, q));
    LowerIdempotent(lower, q);
  }

  /** For any case fold, the check ignores case and surrounding white space in the query. */
  lemma MovieExistsIgnoresCaseAndPadding(lower: char -> char, rows: seq<Movie>, title: string, userId: Option<int>)
    requires IsCaseFold(lower)
    ensures MovieExists(lower, rows, Lower(lower, Trim(title)), userId) == MovieExists(lower, rows, title, userId)
  {
    NormalizedQueryIsFixed(lower, title);
    forall i | 0 <= i < |rows|
      ensures TitleMatches(lower, rows[i], Lower(lower, Trim(title)), userId) == TitleMatches(lower, rows[i], title, userId)
    {
    }
  }

  /** A match for one user is a match over all users. */
  lemma UserMatchIsGlobalMatch(lower: char -> char, rows: seq<Movie>, title: string, userId: int)
    requires MovieExists(lower, rows, title, Some(userId))
    ensures MovieExists(lower, rows, title, None)
  {
  }

  /** The columns `updateMovieInDatabase` writes. `poster_local` is `None` when the field is
      not given (the column is kept) and `Some(v)` when it is (`v` is `None` for `null`). */
  datatype MovieUpdate = MovieUpdate(
    title: string,
    year: Option<string>,
    runtime: Option<string>,
    genre: Option<string>,
    director: Option<string>,
    poster_local: Option<Option<string>>)

  /** The row after the `UPDATE`: five columns always, `poster_local` only when given. */
  function ApplyUpdate(m: Movie, u: MovieUpdate): (r: Movie)
    ensures r.title == u.title && r.year == u.year && r.runtime == u.runtime
    ensures r.genre == u.genre && r.director == u.director
    ensures u.poster_local.Some? ==> r.poster_local == u.poster_local.value
    ensures u.poster_local.None? ==> r.poster_local == m.poster_local
    ensures r.id == m.id && r.user_id == m.user_id && r.poster == m.poster
    ensures r.external_id == m.external_id && r.is_favorite == m.is_favorite
  {
    m.(title := u.title, year := u.year, runtime := u.runtime, genre := u.genre, director := u.director,
       poster_local := if u.poster_local.Some? then u.poster_local.value else m.poster_local)
  }

  /** Rewrites the row with that id by f, or reports that there is none. */
  function UpdateWhere(t: MoviesTable, id: int, f: Movie -> Movie): (r: Result<(MoviesTable, Movie), string>)
    requires forall m :: f(m).id == m.id
    ensures r.Err? <==> FindMovie(t.rows, id).None?
    ensures r.Err? ==> r.error == NotFoundMessage
    ensures r.Ok? ==> r.value.1 == f(FindMovie(t.rows, id).value) && r.value.0.nextId == t.nextId
    ensures r.Ok? ==> FindMovie(r.value.0.rows, id) == Some(r.value.1)
    ensures r.Ok? ==> |r.value.0.rows| == |t.rows| &&
                      forall i :: 0 <= i < |t.rows| && t.rows[i].id != id ==> r.value.0.rows[i] == t.rows[i]
    ensures r.Ok? && MoviesValid(t) ==> MoviesValid(r.value.0)
  {
    match FindIndexById(t.rows, id)
    case None => Err(NotFoundMessage)
    case Some(k) =>
      var m := f(t.rows[k]);
      FindIndexAfterWrite(t.rows, k, m);
      MoviesValidAfterWrite(t, k, m);
      Ok((t.(rows := t.rows[k := m]), m))
  }

  function Updater(u: MovieUpdate): Movie -> Movie
  {
    (m: Movie) => ApplyUpdate(m, u)
  }

  function FlagSetter(flag: bool): Movie -> Movie
  {
    (m: Movie) => m.(is_favorite := flag)
  }

  /** `updateMovieInDatabase` as the corrected model has it: the updated row, or
      `'Movie not found'`. */
  function UpdateMovie(t: MoviesTable, id: int, u: MovieUpdate): (r: Result<(MoviesTable, Movie), string>)
    ensures r.Err? <==> FindMovie(t.rows, id).None?
    ensures r.Err? ==> r.error == NotFoundMessage
    ensures r.Ok? ==> r.value.1 == ApplyUpdate(FindMovie(t.rows, id).value, u)
    ensures r.Ok? ==> FindMovie(r.value.0.rows, id) == Some(r.value.1)
  {
    UpdateWhere(t, id, Updater(u))
  }

  /** `updateMovieFavoriteStatus` as the corrected model has it. */
  function SetFavorite(t: MoviesTable, id: int, flag: bool): (r: Result<(MoviesTable, Movie), string>)
    ensures r.Err? <==> FindMovie(t.rows, id).None?
    ensures r.Err? ==> r.error == NotFoundMessage
    ensures r.Ok? ==> r.value.1 == FindMovie(t.rows, id).value.(is_favorite := flag)
    ensures r.Ok? ==> |r.value.0.rows| == |t.rows| && forall i :: 0 <= i < |t.rows| && t.rows[i].id != id ==> r.value.0.rows[i] == t.rows[i]
  {
    UpdateWhere(t, id, FlagSetter(flag))
  }

  /** The catch block of both update functions: whatever was thrown, the caller receives
      `'Internal server error'`. */
  function Rethrown<T>(r: Result<T, string>): (r': Result<T, string>)
    ensures r.Ok? ==> r' == r
    ensures r.Err? ==> r' == Err(InternalErrorMessage)
  {
    if r.Ok? then r else Err(InternalErrorMessage)
  }

  /** `updateMovieInDatabase` as written: the not-found error is replaced by the catch block. */
  function UpdateMovieAsWritten(t: MoviesTable, id: int, u: MovieUpdate): (r: Result<(MoviesTable, Movie), string>)
    ensures r.Err? <==> FindMovie(t.rows, id).None?
    ensures r.Err? ==> r.error == InternalErrorMessage
    ensures r.Ok? ==> r.value.1 == ApplyUpdate(FindMovie(t.rows, id).value, u)
  {
    Rethrown(UpdateMovie(t, id, u))
  }

  /** `updateMovieFavoriteStatus` as written. */
  function SetFavoriteAsWritten(t: MoviesTable, id: int, flag: bool): (r: Result<(MoviesTable, Movie), string>)
    ensures r.Err? <==> FindMovie(t.rows, id).None?
    ensures r.Err? ==> r.error == InternalErrorMessage
    ensures r.Ok? ==> r.value.1 == FindMovie(t.rows, id).value.(is_favorite := flag)
  {
    Rethrown(SetFavorite(t, id, flag))
  }

  /** The status `updateMovieFavoriteController` answers for an outcome of the update. */
  function FavoriteUpdateStatus<T>(r: Result<T, string>): int
  {
    if r.Ok? then 200 else if r.error == NotFoundMessage then 404 else 500
  }

  /** As written, a missing id gives 500 and never the 404 the controller tests for; the
      corrected functions give 404. */
  lemma MissingMovieAnswers500(t: MoviesTable, id: int, flag: bool, u: MovieUpdate)
    requires FindMovie(t.rows, id).None?
    ensures FavoriteUpdateStatus(SetFavoriteAsWritten(t, id, flag)) == 500
    ensures UpdateMovieAsWritten(t, id, u) == Err(InternalErrorMessage)
    ensures FavoriteUpdateStatus(SetFavorite(t, id, flag)) == 404
    ensures UpdateMovie(t, id, u) == Err(NotFoundMessage)
  {
  }

  /** Whatever the table and id, the written favourite update never leads to a 404. */
  lemma NotFoundBranchUnreachable(t: MoviesTable, id: int, flag: bool)
    ensures FavoriteUpdateStatus(SetFavoriteAsWritten(t, id, flag)) != 404
  {
  }

  /** `getMoviesFromDatabase`: every row, the most recently created first. */
  method GetMoviesFromDatabase(db: Database) returns (movies: seq<Movie>)
    requires db.Valid()
    ensures movies == ListNewestFirst(db.movies)
    ensures forall i, j :: 0 <= i < j < |movies| ==> movies[i].id > movies[j].id
  {
    NewestFirstByDescendingId(db.movies);
    movies := ListNewestFirst(db.movies);
  }

  /** `getMovieById`: the row with that id, or `null`. */
  method GetMovieById(db: Database, id: int) returns (m: Option<Movie>)
    requires db.Valid()
    ensures m == FindMovie(db.movies.rows, id)
    ensures m.Some? ==> m.value in db.movies.rows && m.value.id == id
    ensures m.None? <==> forall x :: x in db.movies.rows ==> x.id != id
  {
    m := FindMovie(db.movies.rows, id);
  }

  /** `checkMovieExists(title, userId)`: some row has the query's title up to the database's
      case fold `lower`, within that user's movies when `userId` is truthy. */
  method CheckMovieExists(db: Database, lower: char -> char, title: string, userId: Option<int>) returns (found: bool)
    requires db.Valid()
    ensures found <==> exists i :: 0 <= i < |db.movies.rows| && TitleMatches(lower, db.movies.rows[i], title, userId)
  {
    found := MovieExists(lower, db.movies.rows, title, userId);
  }

  /** `addMovieToDatabase`. */
  method AddMovieToDatabase(db: Database, n: NewMovie) returns (m: Movie)
    requires db.Valid()
    modifies db
    ensures db.Valid()
    ensures (db.movies, m) == InsertMovie(old(db.movies), n)
    ensures db.users == old(db.users) && db.favorites == old(db.favorites)
  {
    InsertThenFind(db.movies, n, db.movies.nextId);
    m := StoredRow(n, db.movies.nextId);
    db.movies := MoviesTable(db.movies.rows + [m], db.movies.nextId + 1);
  }

  /** `deleteMovieFromDatabase`. */
  method DeleteMovieFromDatabase(db: Database, id: int) returns (deleted: bool)
    requires db.Valid()
    modifies db
    ensures db.Valid()
    ensures (db.movies, deleted) == DeleteMovie(old(db.movies), id)
    ensures db.users == old(db.users) && db.favorites == old(db.favorites)
  {
    DeleteReportsRemoval(db.movies, id);
    deleted := FindMovie(db.movies.rows, id).Some?;
    db.movies := db.movies.(rows := WithoutId(db.movies.rows, id));
  }

  /** `updateMovieFavoriteStatus`, with the not-found error passed on. */
  method UpdateMovieFavoriteStatus(db: Database, id: int, flag: bool) returns (r: Result<Movie, string>)
    requires db.Valid()
    modifies db
    ensures db.Valid()
    ensures var s := SetFavorite(old(db.movies), id, flag);
            (s.Ok? ==> db.movies == s.value.0 && r == Ok(s.value.1)) &&
            (s.Err? ==> db.movies == old(db.movies) && r == Err(s.error))
    ensures db.users == old(db.users) && db.favorites == old(db.favorites)
  {
    var s := SetFavorite(db.movies, id, flag);
    if s.Ok? {
      db.movies := s.value.0;
      r := Ok(s.value.1);
    } else {
      r := Err(s.error);
    }
  }

  /** `updateMovieInDatabase`, with the not-found error passed on. */
  method UpdateMovieInDatabase(db: Database, id: int, u: MovieUpdate) returns (r: Result<Movie, string>)
    requires db.Valid()
    modifies db
    ensures db.Valid()
    ensures var s := UpdateMovie(old(db.movies), id, u);
            (s.Ok? ==> db.movies == s.value.0 && r == Ok(s.value.1)) &&
            (s.Err? ==> db.movies == old(db.movies) && r == Err(s.error))
    ensures db.users == old(db.users) && db.favorites == old(db.favorites)
  {
    var s := UpdateMovie(db.movies, id, u);
    if s.Ok? {
      db.movies := s.value.0;
      r := Ok(s.value.1);
    } else {
      r := Err(s.error);
    }
  }
}
