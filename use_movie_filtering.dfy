/** The `useMovieFiltering` hook (client/src/hooks/useMovieFiltering.ts): which list is shown
    and its favourites-only sub-list. */
module UseMovieFiltering {
  import opened Models
  import opened Seqs

  /** The list on screen: the search results while searching, else the collection. */
  function CurrentMovies(movies: seq<Movie>, searchResults: seq<Movie>, isSearching: bool): (r: seq<Movie>)
    ensures isSearching ==> r == searchResults
    ensures !isSearching ==> r == movies
  {
    if isSearching then searchResults else movies
  }

  function IsFavoriteMovie(): Movie -> bool
  {
    (m: Movie) => m.is_favorite
  }

  /** `filteredMovies`: the current list, or only its favourites when the filter is on. */
  function FilteredMovies(current: seq<Movie>, showOnlyFavorites: bool): (r: seq<Movie>)
    ensures !showOnlyFavorites ==> r == current
    ensures showOnlyFavorites ==> forall i :: 0 <= i < |r| ==> r[i].is_favorite
  {
    if showOnlyFavorites then Filter(current, IsFavoriteMovie()) else current
  }

  /** With the filter on, the list is exactly the favourites of the current list, each as often
      as it occurs there, in their order. */
  lemma FilteredIsFavoritesSubList(current: seq<Movie>, m: Movie)
    ensures IsSubsequence(FilteredMovies(current, true), current)
    ensures m in FilteredMovies(current, true) <==> m in current && m.is_favorite
    ensures multiset(FilteredMovies(current, true))[m] == if m.is_favorite then multiset(current)[m] else 0
  {
    FilterIsSubsequence(current, IsFavoriteMovie());
    FilterMembership(current, IsFavoriteMovie(), m);
    FilterCount(current, IsFavoriteMovie(), m);
  }

  /** The filter removes nothing from a list of favourites only. */
  lemma FilterKeepsAllFavorites(current: seq<Movie>)
    requires forall i :: 0 <= i < |current| ==> current[i].is_favorite
    ensures FilteredMovies(current, true) == current
  {
    FilterAllPass(current, IsFavoriteMovie());
  }

  const InitialShowOnlyFavorites: bool := false

  /** `toggleFavoritesFilter`. */
  function ToggleFavoritesFilter(show: bool): (r: bool)
    ensures r != show
  {
    !show
  }

  lemma ToggleTwice(show: bool)
    ensures ToggleFavoritesFilter(ToggleFavoritesFilter(show)) == show
  {
  }

  /** What the hook returns. */
  datatype FilteringView = FilteringView(filteredMovies: seq<Movie>, showOnlyFavorites: bool,
                                         isSearching: bool, hasMovies: bool)

  function View(movies: seq<Movie>, searchResults: seq<Movie>, isSearching: bool, showOnlyFavorites: bool): (v: FilteringView)
    ensures v.isSearching == isSearching && v.showOnlyFavorites == showOnlyFavorites
    ensures v.hasMovies <==> |v.filteredMovies| > 0
  {
    var filtered := FilteredMovies(CurrentMovies(movies, searchResults, isSearching), showOnlyFavorites);
    FilteringView(filtered, showOnlyFavorites, isSearching, |filtered| > 0)
  }

  /** Something is shown exactly when the current list holds a movie the filter lets through. */
  lemma HasMoviesIff(movies: seq<Movie>, searchResults: seq<Movie>, isSearching: bool, showOnlyFavorites: bool)
    ensures View(movies, searchResults, isSearching, showOnlyFavorites).hasMovies <==>
            exists m :: m in CurrentMovies(movies, searchResults, isSearching) && (showOnlyFavorites ==> m.is_favorite)
  {
    var current := CurrentMovies(movies, searchResults, isSearching);
    var r := FilteredMovies(current, showOnlyFavorites);
    if showOnlyFavorites {
      if |r| > 0 {
        FilterMembership(current, IsFavoriteMovie(), r[0]);
      } else {
        forall m | m in current && m.is_favorite
          ensures false
        {
          FilterMembership(current, IsFavoriteMovie(), m);
        }
      }
    } else if |r| > 0 {
      assert r[0] in current;
    }
  }
}
