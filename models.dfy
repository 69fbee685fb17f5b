/** The entities the client and the server exchange. */
module Models {
  import opened Wrappers

  /** A row of the `movies` table, and the client's `Movie`. Optional text columns are
      `None` where the column is NULL or the client field is absent. */
  datatype Movie = Movie(
    id: int,
    user_id: int,
    title: string,
    year: Option<string>,
    runtime: Option<string>,
    poster: Option<string>,
    poster_local: Option<string>,
    genre: Option<string>,
    director: Option<string>,
    external_id: Option<string>,
    is_favorite: bool)

  /** The client's `User`: what `POST /api/users` answers, with an optional greeting. */
  datatype User = User(id: int, username: string, message: Option<string>)
}
