/** The favourites queries of server/src/services/favorites.service.ts over the `favorites`
    table of (user, movie) pairs. Every query first resolves the user name it is given through
    `getUserIdByUsername`, so an unknown name creates that user. */
module FavoritesService {
  import opened Wrappers
  import opened Models
  import opened Seqs
  import opened Tables
  import opened UserService

  /** `SELECT EXISTS(... WHERE user_id = $1 AND movie_id = $2)`. */
  predicate HasFavorite(favs: seq<FavoriteRow>, userId: int, movieId: int)
  {
    FavoriteRow(userId, movieId) in favs
  }

  /** `INSERT ... ON CONFLICT (user_id, movie_id) DO NOTHING`. */
  function AddFavorite(favs: seq<FavoriteRow>, userId: int, movieId: int): (r: seq<FavoriteRow>)
    ensures forall f :: f in r <==> f in favs || f == FavoriteRow(userId, movieId)
    ensures HasFavorite(favs, userId, movieId) ==> r == favs
    ensures Distinct(favs) ==> Distinct(r)
  {
    if HasFavorite(favs, userId, movieId) then favs else favs + [FavoriteRow(userId, movieId)]
  }

  function KeepOtherPair(pair: FavoriteRow): FavoriteRow -> bool
  {
    (f: FavoriteRow) => f != pair
  }

  /** `DELETE FROM favorites WHERE user_id = $1 AND movie_id = $2`. */
  function RemoveFavorite(favs: seq<FavoriteRow>, userId: int, movieId: int): seq<FavoriteRow>
  {
    Filter(favs, KeepOtherPair(FavoriteRow(userId, movieId)))
  }

  /** The delete leaves exactly the other pairs, keeps the table free of repeats, and changes
      nothing when the pair is absent. */
  lemma RemoveFavoriteContents(favs: seq<FavoriteRow>, userId: int, movieId: int)
    ensures forall f :: f in RemoveFavorite(favs, userId, movieId) <==> f in favs && f != FavoriteRow(userId, movieId)
    ensures Distinct(favs) ==> Distinct(RemoveFavorite(favs, userId, movieId))
    ensures !HasFavorite(favs, userId, movieId) ==> RemoveFavorite(favs, userId, movieId) == favs
  {
    var p := KeepOtherPair(FavoriteRow(userId, movieId));
    forall f ensures f in Filter(favs, p) <==> f in favs && f != FavoriteRow(userId, movieId) {
      FilterMembership(favs, p, f);
    }
    if Distinct(favs) {
      FilterDistinct(favs, p);
    }
    if !HasFavorite(favs, userId, movieId) {
      FilterAllPass(favs, p);
    }
  }

  datatype Toggled = Toggled(favorites: seq<FavoriteRow>, isFavorite: bool)

  /** `toggleFavoriteStatus`: delete the pair when present, else insert it; the result is the
      new membership. */
  function ToggleFavorite(favs: seq<FavoriteRow>, userId: int, movieId: int): (r: Toggled)
    ensures r.isFavorite == !HasFavorite(favs, userId, movieId)
    ensures HasFavorite(r.favorites, userId, movieId) == r.isFavorite
    ensures forall f :: f != FavoriteRow(userId, movieId) ==> (f in r.favorites <==> f in favs)
    ensures Distinct(favs) ==> Distinct(r.favorites)
  {
    RemoveFavoriteContents(favs, userId, movieId);
    if HasFavorite(favs, userId, movieId) then Toggled(RemoveFavorite(favs, userId, movieId), false)
    else Toggled(AddFavorite(favs, userId, movieId), true)
  }

  /** Two toggles of the same pair restore every pair's membership; from an absent pair they
      restore the table itself. */
  lemma ToggleTwice(favs: seq<FavoriteRow>, userId: int, movieId: int)
    ensures var twice := ToggleFavorite(ToggleFavorite(favs, userId, movieId).favorites, userId, movieId);
            (forall f :: f in twice.favorites <==> f in favs) &&
            twice.isFavorite == HasFavorite(favs, userId, movieId) &&
            (!HasFavorite(favs, userId, movieId) ==> twice.favorites == favs)
  {
    var once := ToggleFavorite(favs, userId, movieId);
    if !HasFavorite(favs, userId, movieId) {
      var p := KeepOtherPair(FavoriteRow(userId, movieId));
      FilterConcat(favs, [FavoriteRow(userId, movieId)], p);
      FilterSingleton(FavoriteRow(userId, movieId), p);
      FilterAllPass(favs, p);
    }
  }

  function OfMovie(movieId: int): Movie -> bool
  {
    (m: Movie) => m.id == movieId
  }

  /** `getUserFavorites`: `movies JOIN favorites ON m.id = f.movie_id WHERE f.user_id = $1
      ORDER BY f.created_at DESC`, the latest favourite first. */
  function UserFavorites(favs: seq<FavoriteRow>, movies: seq<Movie>, userId: int): seq<Movie>
    decreases |favs|
  {
    if favs == [] then []
    else
      var f := favs[|favs| - 1];
      (if f.userId == userId then Filter(movies, OfMovie(f.movieId)) else []) +
      UserFavorites(favs[..|favs| - 1], movies, userId)
  }

  /** The list holds exactly the movies paired with the user. */
  lemma {:induction false} UserFavoritesContents(favs: seq<FavoriteRow>, movies: seq<Movie>, userId: int, m: Movie)
    ensures m in UserFavorites(favs, movies, userId) <==> m in movies && FavoriteRow(userId, m.id) in favs
    decreases |favs|
  {
    if favs != [] {
      var f := favs[|favs| - 1];
      var init := favs[..|favs| - 1];
      UserFavoritesContents(init, movies, userId, m);
      FilterMembership(movies, OfMovie(f.movieId), m);
      assert favs == init + [f];
      assert FavoriteRow(userId, m.id) in favs <==> FavoriteRow(userId, m.id) in init || FavoriteRow(userId, m.id) == f;
    }
  }

  /** A pair added last puts its movie ahead of all the user's earlier favourites. */
  lemma LatestFavoriteFirst(favs: seq<FavoriteRow>, movies: seq<Movie>, userId: int, movieId: int)
    ensures UserFavorites(favs + [FavoriteRow(userId, movieId)], movies, userId) ==
            Filter(movies, OfMovie(movieId)) + UserFavorites(favs, movies, userId)
  {
    assert (favs + [FavoriteRow(userId, movieId)])[..|favs|] == favs;
  }

  /** `checkFavoriteStatus(movieId, username)`. */
  method CheckFavoriteStatus(db: Database, movieId: int, username: string) returns (isFavorite: bool)
    requires db.Valid()
    modifies db
    ensures db.Valid()
    ensures db.users == FindOrCreate(old(db.users), username).table
    ensures isFavorite == HasFavorite(db.favorites, FindOrCreate(old(db.users), username).user.id, movieId)
    ensures db.movies == old(db.movies) && db.favorites == old(db.favorites)
  {
    var userId := GetUserIdByUsername(db, username);
    isFavorite := FavoriteRow(userId, movieId) in db.favorites;
  }

  /** `addToFavorites(movieId, username)`: the inserted row, or none when it was there. */
  method AddToFavorites(db: Database, movieId: int, username: string) returns (row: Option<FavoriteRow>)
    requires db.Valid()
    modifies db
    ensures db.Valid()
    ensures var userId := FindOrCreate(old(db.users), username).user.id;
            db.favorites == AddFavorite(old(db.favorites), userId, movieId) &&
            row == if HasFavorite(old(db.favorites), userId, movieId) then None else Some(FavoriteRow(userId, movieId))
    ensures db.users == FindOrCreate(old(db.users), username).table && db.movies == old(db.movies)
  {
    var userId := GetUserIdByUsername(db, username);
    var pair := FavoriteRow(userId, movieId);
    if pair in db.favorites {
      row := None;
    } else {
      db.favorites := db.favorites + [pair];
      row := Some(pair);
    }
  }

  /** `removeFromFavorites(movieId, username)`. */
  method RemoveFromFavorites(db: Database, movieId: int, username: string)
    requires db.Valid()
    modifies db
    ensures db.Valid()
    ensures db.favorites == RemoveFavorite(old(db.favorites), FindOrCreate(old(db.users), username).user.id, movieId)
    ensures db.users == FindOrCreate(old(db.users), username).table && db.movies == old(db.movies)
  {
    var userId := GetUserIdByUsername(db, username);
    RemoveFavoriteContents(db.favorites, userId, movieId);
    db.favorites := RemoveFavorite(db.favorites, userId, movieId);
  }

  /** `toggleFavoriteStatus(movieId, username)`: a check, then a delete or an insert, run one
      after the other. */
  method ToggleFavoriteStatus(db: Database, movieId: int, username: string) returns (isFavorite: bool)
    requires db.Valid()
    modifies db
    ensures db.Valid()
    ensures var userId := FindOrCreate(old(db.users), username).user.id;
            Toggled(db.favorites, isFavorite) == ToggleFavorite(old(db.favorites), userId, movieId)
    ensures db.users == FindOrCreate(old(db.users), username).table && db.movies == old(db.movies)
  {
    FindOrCreateIdempotent(db.users, username);
    var present := CheckFavoriteStatus(db, movieId, username);
    if present {
      RemoveFromFavorites(db, movieId, username);
      isFavorite := false;
    } else {
      var row := AddToFavorites(db, movieId, username);
      isFavorite := true;
    }
  }

  /** `getUserFavorites(username)`. */
  method GetUserFavorites(db: Database, username: string) returns (movies: seq<Movie>)
    requires db.Valid()
    modifies db
    ensures db.Valid()
    ensures movies == UserFavorites(db.favorites, db.movies.rows, FindOrCreate(old(db.users), username).user.id)
    ensures db.users == FindOrCreate(old(db.users), username).table
    ensures db.movies == old(db.movies) && db.favorites == old(db.favorites)
  {
    var userId := GetUserIdByUsername(db, username);
    movies := UserFavorites(db.favorites, db.movies.rows, userId);
  }
}
