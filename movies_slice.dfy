/** The client's movie store (client/src/store/moviesSlice.ts): its reducers and the effects
    of the fetch, toggle-favourite, delete and add-to-database results on the state. */
module MoviesSlice {
  import opened Wrappers
  import opened Models
  import opened Seqs
  import opened MovieLists
  import Js

  /** The first movie with m's id replaced by m; the list is unchanged if none has it. */
  function ReplaceById(ms: seq<Movie>, m: Movie): (r: seq<Movie>)
    ensures |r| == |ms|
    ensures FindIndexById(ms, m.id).None? ==> r == ms
    ensures FindIndexById(ms, m.id).Some? ==>
              var k := FindIndexById(ms, m.id).value;
              r[k] == m && forall j :: 0 <= j < |ms| && j != k ==> r[j] == ms[j]
  {
    match FindIndexById(ms, m.id)
    case None => ms
    case Some(k) => ms[k := m]
  }

  /** Replacing twice with the same movie is replacing once. */
  lemma ReplaceByIdIdempotent(ms: seq<Movie>, m: Movie)
    ensures ReplaceById(ReplaceById(ms, m), m) == ReplaceById(ms, m)
  {
    if FindIndexById(ms, m.id).Some? {
      FindIndexAfterWrite(ms, FindIndexById(ms, m.id).value, m);
    }
  }

  /** The first movie with that id gets the favourite flag; nothing else changes. */
  function SetFavoriteById(ms: seq<Movie>, id: int, flag: bool): (r: seq<Movie>)
    ensures |r| == |ms|
    ensures FindIndexById(ms, id).None? ==> r == ms
    ensures FindIndexById(ms, id).Some? ==>
              var k := FindIndexById(ms, id).value;
              r[k] == ms[k].(is_favorite := flag) && forall j :: 0 <= j < |ms| && j != k ==> r[j] == ms[j]
  {
    match FindIndexById(ms, id)
    case None => ms
    case Some(k) => ms[k := ms[k].(is_favorite := flag)]
  }

  /** Setting the flag and then setting it back to what it was restores the list. */
  lemma SetFavoriteUndo(ms: seq<Movie>, id: int, flag: bool)
    requires FindIndexById(ms, id).Some?
    ensures SetFavoriteById(SetFavoriteById(ms, id, flag), id, ms[FindIndexById(ms, id).value].is_favorite) == ms
  {
    var k := FindIndexById(ms, id).value;
    FindIndexAfterWrite(ms, k, ms[k].(is_favorite := flag));
  }

  predicate SameTitleYear(m: Movie, title: string, year: Option<string>)
  {
    m.title == title && m.year == year
  }

  /** The filter callbacks of the two removals. */
  function KeepOtherTitleYear(title: string, year: Option<string>): Movie -> bool
  {
    (m: Movie) => !SameTitleYear(m, title, year)
  }

  /** The movies whose (title, year) differs from the given pair, in their original order. */
  function WithoutTitleYear(ms: seq<Movie>, title: string, year: Option<string>): seq<Movie>
  {
    Filter(ms, KeepOtherTitleYear(title, year))
  }

  /** Removing by (title, year) keeps exactly the other movies. */
  lemma WithoutTitleYearContents(ms: seq<Movie>, title: string, year: Option<string>, x: Movie)
    ensures x in WithoutTitleYear(ms, title, year) <==> x in ms && !SameTitleYear(x, title, year)
  {
    FilterMembership(ms, KeepOtherTitleYear(title, year), x);
  }

  /** Removing by (title, year) keeps the order and splits over concatenation. */
  lemma WithoutTitleYearConcat(a: seq<Movie>, b: seq<Movie>, title: string, year: Option<string>)
    ensures WithoutTitleYear(a + b, title, year) == WithoutTitleYear(a, title, year) + WithoutTitleYear(b, title, year)
  {
    FilterConcat(a, b, KeepOtherTitleYear(title, year));
  }

  const FetchFailedMessage: string := "Failed to fetch movies"

  /** `MoviesState`. */
  class MoviesStore {
    var movies: seq<Movie>
    var searchResults: seq<Movie>
    var isLoading: bool
    var error: Option<string>
    var isSearching: bool

    /** `initialState`. */
    constructor ()
      ensures movies == [] && searchResults == [] && !isLoading && error == None && !isSearching
    {
      movies, searchResults, isLoading, error, isSearching := [], [], false, None, false;
    }

    /** `setSearchResults`: stores the results as given; searching iff there are any. */
    method SetSearchResults(payload: seq<Movie>)
      modifies this
      ensures searchResults == payload && isSearching == (|payload| > 0)
      ensures movies == old(movies) && isLoading == old(isLoading) && error == old(error)
    {
      searchResults := payload;
      isSearching := |payload| > 0;
    }

    /** `clearSearch`. */
    method ClearSearch()
      modifies this
      ensures searchResults == [] && !isSearching
      ensures movies == old(movies) && isLoading == old(isLoading) && error == old(error)
    {
      searchResults := [];
      isSearching := false;
    }

    /** `updateMovie`: replaces the first movie with the payload's id, if there is one. */
    method UpdateMovie(payload: Movie)
      modifies this
      ensures movies == ReplaceById(old(movies), payload)
      ensures searchResults == old(searchResults) && isLoading == old(isLoading)
      ensures error == old(error) && isSearching == old(isSearching)
    {
      var index := FindIndexById(movies, payload.id);
      if index.Some? {
        movies := movies[index.value := payload];
      }
    }

    /** `addMovie`: appends the payload. */
    method AddMovie(payload: Movie)
      modifies this
      ensures movies == old(movies) + [payload]
      ensures searchResults == old(searchResults) && isLoading == old(isLoading)
      ensures error == old(error) && isSearching == old(isSearching)
    {
      movies := movies + [payload];
    }

    /** `removeMovieFromSearch`: drops the search results with that title and year. */
    method RemoveMovieFromSearch(title: string, year: string)
      modifies this
      ensures searchResults == WithoutTitleYear(old(searchResults), title, Some(year))
      ensures movies == old(movies) && isLoading == old(isLoading)
      ensures error == old(error) && isSearching == old(isSearching)
    {
      searchResults := WithoutTitleYear(searchResults, title, Some(year));
    }

    /** `fetchMoviesAsync.pending`. */
    method FetchPending()
      modifies this
      ensures isLoading && error == None
      ensures movies == old(movies) && searchResults == old(searchResults) && isSearching == old(isSearching)
    {
      isLoading := true;
      error := None;
    }

    /** `fetchMoviesAsync.fulfilled`. */
    method FetchFulfilled(payload: seq<Movie>)
      modifies this
      ensures !isLoading && movies == payload
      ensures error == old(error) && searchResults == old(searchResults) && isSearching == old(isSearching)
    {
      isLoading := false;
      movies := payload;
    }

    /** `fetchMoviesAsync.rejected`: the error's message, or a fixed text when it has none. */
    method FetchRejected(message: Option<string>)
      modifies this
      ensures !isLoading && error == Some(Js.OrElse(message, FetchFailedMessage))
      ensures movies == old(movies) && searchResults == old(searchResults) && isSearching == old(isSearching)
    {
      isLoading := false;
      error := Some(Js.OrElse(message, FetchFailedMessage));
    }

    /** `toggleFavoriteAsync.fulfilled`: sets the flag on the first movie with that id in each list. */
    method ToggleFavoriteFulfilled(movieId: int, isFavorite: bool)
      modifies this
      ensures movies == SetFavoriteById(old(movies), movieId, isFavorite)
      ensures searchResults == SetFavoriteById(old(searchResults), movieId, isFavorite)
      ensures isLoading == old(isLoading) && error == old(error) && isSearching == old(isSearching)
    {
      var k := FindIndexById(movies, movieId);
      if k.Some? {
        movies := movies[k.value := movies[k.value].(is_favorite := isFavorite)];
      }
      var s := FindIndexById(searchResults, movieId);
      if s.Some? {
        searchResults := searchResults[s.value := searchResults[s.value].(is_favorite := isFavorite)];
      }
    }

    /** `deleteMovieAsync.fulfilled`: drops every movie with that id. */
    method DeleteFulfilled(movieId: int)
      modifies this
      ensures movies == WithoutId(old(movies), movieId)
      ensures searchResults == old(searchResults) && isLoading == old(isLoading)
      ensures error == old(error) && isSearching == old(isSearching)
    {
      movies := WithoutId(movies, movieId);
    }

    /** `addMovieToDatabaseAsync.fulfilled`: appends the saved movie and drops the search
        results with its title and year. */
    method AddToDatabaseFulfilled(payload: Movie)
      modifies this
      ensures movies == old(movies) + [payload]
      ensures searchResults == WithoutTitleYear(old(searchResults), payload.title, payload.year)
      ensures isLoading == old(isLoading) && error == old(error) && isSearching == old(isSearching)
    {
      movies := movies + [payload];
      searchResults := WithoutTitleYear(searchResults, payload.title, payload.year);
    }
  }

  /** After an add-to-database result the saved movie is in the collection and no search result
      with its title and year remains. */
  method AddFromSearchScenario(results: seq<Movie>, saved: Movie) returns (movies: seq<Movie>, search: seq<Movie>)
    ensures movies == [saved]
    ensures forall x :: x in search ==> x in results && !SameTitleYear(x, saved.title, saved.year)
  {
    var store := new MoviesStore();
    store.SetSearchResults(results);
    store.AddToDatabaseFulfilled(saved);
    movies, search := store.movies, store.searchResults;
    forall x | x in search
      ensures x in results && !SameTitleYear(x, saved.title, saved.year)
    {
      WithoutTitleYearContents(results, saved.title, saved.year, x);
    }
  }
}
