# Movie catalogue: verified model of the client store, hooks, helpers and server services

This project models the logic of a movie-catalogue web application in Dafny. Users sign in
by name, keep a collection of movies with poster images, mark favourites, and search an
external movie database. The React client and the Express server are both covered, but only
the parts that hold logic. Those parts are:

- the movie form's validation rules and sanitiser (`Validation`);
- the client's Redux slices as classes with in-place reducers (`MoviesSlice`, `UserSlice`);
  the browser's `localStorage` is a `map<string, string>` field;
- the hooks: restoring a saved user (`UseUser`), the async-operation record (`UseAsync`), the
  modal cells (`UseModal`), list filtering (`UseMovieFiltering`) and favourite lookups
  (`UseFavorites`);
- the helpers: poster URL choice and upload checks (`ImageUtils`), error classes and messages
  (`Errors`), and URL joining (`Api`);
- the server's user, favourites and movies services (`UserService`, `FavoritesService`,
  `MoviesService`). They run over in-memory tables held by one `Tables.Database` object:
  - `users` and `movies` are row sequences in creation order, each with a SERIAL counter;
  - `favorites` is a sequence of distinct (user id, movie id) pairs in insertion order.

Shared pieces:

- `Models` holds the `Movie` and `User` values.
- `Js` holds JavaScript truthiness and the `||` fallback.
- `Text` holds `trim`, `startsWith`, lower-casing, decimal rendering and `parseInt(s, 10)`.
  `parseInt` is a leading-integer parse.
- `UserJson` holds the JSON text saved under the `'user'` key, with a proved round trip.
- `Seqs` holds `filter` and reversal with their lemmas.
- `MovieLists` holds lookup and removal by id.

Each service call is modelled as one sequential step. The current year, the API base URL,
the outcome of an awaited call and the saved browser storage are parameters.

Two points of the code shape the model:

- The `movies.is_favorite` column and the `favorites` table are independent.
  `updateMovieFavoriteStatus` writes only the column, and the favourites service reads and
  writes only the table (server/src/services/movies.service.ts:99-122,
  server/src/services/favorites.service.ts). The model keeps them independent too.
- The controller answers 404 for `'Movie not found'`
  (server/src/controllers/movies.controller.ts:129-130). The service, however, reports a
  missing movie as `'Internal server error'` (see Findings).

## Model

| member | source | states |
|---|---|---|
| `Validation.ValidateRequired` | client/src/utils/validation.ts:14-19 | a string passes iff something is left after trimming; any other value passes iff it is neither null nor undefined, so 0 and false pass |
| `Validation.RequiredRejectsBlank` | client/src/utils/validation.ts:15-17 | a string passes the required check iff it is not all white space |
| `Validation.ValidateLength` | client/src/utils/validation.ts:21-25 | empty or missing input fails; otherwise passes iff min ≤ trimmed length and, when max is truthy, trimmed length ≤ max |
| `Validation.ValidateYear` | client/src/utils/validation.ts:27-32 | empty or missing input passes; otherwise passes iff the leading integer parses and lies in [1900, currentYear + 1] |
| `Validation.YearOfDecimal` | client/src/utils/validation.ts:27-32 | a year written in decimal (negative ones included) passes iff it is in [1900, currentYear + 1] |
| `Validation.YearRejectsTextWithoutDigits` | client/src/utils/validation.ts:27-32 | non-empty text with no digit, such as `abc`, is never a valid year |
| `Validation.RuleError` | client/src/utils/validation.ts:71-73 | a failing rule throws a ValidationError carrying the rule's message and field name |
| `Validation.FirstFailure` | client/src/utils/validation.ts:34-65 | no index iff every rule of the list holds; otherwise the index of a broken rule with every earlier rule holding |
| `Validation.ValidateMovie` | client/src/utils/validation.ts:67-75 | passes iff every rule holds; otherwise fails with the ValidationError of the first broken rule in list order |
| `Validation.FirstFailureIs` | client/src/utils/validation.ts:67-75 | a broken rule preceded only by rules that hold is the one reported |
| `Validation.RulesUnfold` | client/src/utils/validation.ts:34-65 | the six rules are, in order: title required, title length 1..200, year range, optional genre, runtime and director lengths |
| `Validation.ValidIff` | client/src/utils/validation.ts:34-75 | a form is valid iff each of the six checks holds |
| `Validation.BlankTitleFailsFirst` | client/src/utils/validation.ts:35-39 | a missing or blank title breaks rule 0, "Title is required", before the length rule is reached |
| `Validation.LongTitleFailsSecond` | client/src/utils/validation.ts:40-44 | a title longer than 200 after trimming passes rule 0 and breaks rule 1 |
| `Validation.OptionalFieldRules` | client/src/utils/validation.ts:50-64 | genre, runtime and director pass when empty or missing, else need trimmed length in 1..100, 1..50 and 1..100 |
| `Validation.TitleOnlyFormIsValid` | client/src/utils/validation.ts:34-75 | a form with a title of trimmed length 1..200 and nothing else is valid |
| `Validation.SanitizeMovieData` | client/src/utils/validation.ts:77-87 | trimmed title, with `''` when missing; the other text fields trimmed, empty results dropped; posters kept when non-empty; is_favorite dropped |
| `Validation.SanitizeGivesSanitized` | client/src/utils/validation.ts:77-87 | every text field of the result is trimmed and every optional field present is non-empty |
| `Validation.SanitizeIdempotent` | client/src/utils/validation.ts:77-87 | sanitising twice equals sanitising once |
| `Validation.SanitizeKeepsValid` | client/src/utils/validation.ts:67-87 | sanitising a valid form gives a valid form |
| `Text.ParseIntRoundTrip` | client/src/utils/validation.ts:29 | `parseInt` reads back any integer written in decimal, whatever non-digit text follows |
| `Text.ParseIntTrim` | client/src/utils/validation.ts:29 | `parseInt` gives the same result on the trimmed text |
| `Errors.ErrorName` | client/src/utils/errors.ts:5-28 | the name is `ApiError` for ApiError, `ValidationError` for ValidationError, and `Error` for any other error |
| `Errors.HandleApiError` | client/src/utils/errors.ts:30-38 | the message of any Error, ApiError included; `An unexpected error occurred` for any other thrown value |
| `Errors.CreateApiError` | client/src/utils/errors.ts:40-45 | an ApiError with the response status; the supplied message when non-empty, else `HTTP <status>: <statusText>` |
| `Errors.HandleCreatedApiError` | client/src/utils/errors.ts:30-45 | the message shown for a created ApiError is the supplied message or the status line, never the generic fallback |
| `Errors.StatusLineShowsStatus` | client/src/utils/errors.ts:42 | the fallback message starts with `HTTP ` followed by the status in decimal |
| `ImageUtils.GetPosterUrl` | client/src/utils/imageUtils.ts:8-20 | a non-empty local poster wins, unchanged if it starts with `http`, else prefixed with the API base; then a non-empty external poster; then the placeholder |
| `ImageUtils.LocalPosterWins` | client/src/utils/imageUtils.ts:9-16 | with a non-empty local poster the external poster never matters, and the URL ends with the local path |
| `ImageUtils.PosterUrlNonEmpty` | client/src/utils/imageUtils.ts:8-20 | the URL is never empty |
| `ImageUtils.ValidateImageFile` | client/src/utils/imageUtils.ts:22-35 | accepts iff the type is one of the four allowed and size ≤ 5 MiB; the type error is raised before the size error |
| `ImageUtils.SizeBoundary` | client/src/utils/imageUtils.ts:24-31 | exactly 5 MiB is accepted, one byte more is refused, and a GIF is refused whatever its size |
| `ImageUtils.RejectionMessage` | client/src/utils/imageUtils.ts:26-32 | a caller catching the error sees the message of the check that failed |
| `Api.CleanEndpoint` | client/src/utils/api.ts:8 | an endpoint with a leading slash is kept; any other gets exactly one slash in front |
| `Api.BuildApiUrl` | client/src/utils/api.ts:6-10 | the URL is the base followed by a path starting with `/` |
| `Api.BuildApiUrlShape` | client/src/utils/api.ts:8-9 | base + endpoint when it starts with `/`, else base + `/` + endpoint |
| `Api.LeadingSlashOptional` | client/src/utils/api.ts:8 | an endpoint and the same endpoint with a slash in front give the same URL |
| `Api.EndpointRecoverable` | client/src/utils/api.ts:6-10 | the endpoint can be read back from the URL |
| `MovieLists.FindIndexById` | client/src/store/moviesSlice.ts:69 | the index of the first movie with that id, or none when no movie has it |
| `MovieLists.WithoutIdContents` | client/src/store/moviesSlice.ts:111-113 | removal by id keeps exactly the movies with another id, and none with that id is left |
| `MovieLists.WithoutIdConcat` | client/src/store/moviesSlice.ts:111-113 | removal by id keeps order: it splits over concatenation |
| `MovieLists.WithoutAbsentId` | client/src/store/moviesSlice.ts:111-113 | removing an id no movie has changes nothing |
| `MoviesSlice.ReplaceById` | client/src/store/moviesSlice.ts:68-73 | only the first movie with the payload's id is replaced; the length and every other entry are kept; no match changes nothing |
| `MoviesSlice.ReplaceByIdIdempotent` | client/src/store/moviesSlice.ts:68-73 | replacing twice with the same movie equals replacing once |
| `MoviesSlice.SetFavoriteById` | client/src/store/moviesSlice.ts:101-108 | only the first movie with that id gets the flag; everything else is kept |
| `MoviesSlice.SetFavoriteUndo` | client/src/store/moviesSlice.ts:99-109 | setting the flag and then setting it back to its old value restores the list |
| `MoviesSlice.WithoutTitleYearContents` | client/src/store/moviesSlice.ts:77-81 | removal keeps exactly the movies whose (title, year) differs from the payload |
| `MoviesSlice.WithoutTitleYearConcat` | client/src/store/moviesSlice.ts:77-81 | removal by (title, year) keeps the order of the rest |
| `MoviesSlice.MoviesStore.constructor` | client/src/store/moviesSlice.ts:15-21 | empty lists, not loading, no error, not searching |
| `MoviesSlice.MoviesStore.SetSearchResults` | client/src/store/moviesSlice.ts:60-63 | results stored as given; searching iff there are any; the other fields kept |
| `MoviesSlice.MoviesStore.ClearSearch` | client/src/store/moviesSlice.ts:64-67 | no results and not searching; the other fields kept |
| `MoviesSlice.MoviesStore.UpdateMovie` | client/src/store/moviesSlice.ts:68-73 | the movies become the replace-by-id of the old list; the other fields kept |
| `MoviesSlice.MoviesStore.AddMovie` | client/src/store/moviesSlice.ts:74-76 | the payload is appended at the end; the other fields kept |
| `MoviesSlice.MoviesStore.RemoveMovieFromSearch` | client/src/store/moviesSlice.ts:77-81 | the search results lose exactly the entries with that (title, year) |
| `MoviesSlice.MoviesStore.FetchPending` | client/src/store/moviesSlice.ts:86-89 | loading, no error; the lists kept |
| `MoviesSlice.MoviesStore.FetchFulfilled` | client/src/store/moviesSlice.ts:90-93 | not loading, movies replaced by the payload; the error kept |
| `MoviesSlice.MoviesStore.FetchRejected` | client/src/store/moviesSlice.ts:94-97 | not loading; the error is the message, or `Failed to fetch movies` when it is empty |
| `MoviesSlice.MoviesStore.ToggleFavoriteFulfilled` | client/src/store/moviesSlice.ts:99-109 | the first movie with that id in each list gets the flag; nothing else changes |
| `MoviesSlice.MoviesStore.DeleteFulfilled` | client/src/store/moviesSlice.ts:111-113 | every movie with that id is removed, the rest kept in order |
| `MoviesSlice.MoviesStore.AddToDatabaseFulfilled` | client/src/store/moviesSlice.ts:115-121 | the saved movie is appended and the search results with its title and year are removed |
| `MoviesSlice.AddFromSearchScenario` | client/src/store/moviesSlice.ts:115-121 | after saving a search result it is in the collection and no result with its title and year remains |
| `UserSlice.RequestUsername` | client/src/store/userSlice.ts:14 | the name posted is trimmed |
| `UserSlice.RequestUsernameIgnoresPadding` | client/src/store/userSlice.ts:14 | trimming an already trimmed name changes nothing |
| `UserSlice.FetchOrCreateOutcome` | client/src/store/userSlice.ts:17-22 | an ok response resolves with its body; any other throws `Failed to create/fetch user` |
| `UserSlice.UserStore.constructor` | client/src/store/userSlice.ts:26-32 | no user, not authenticated, not loading, no error, no success message |
| `UserSlice.UserStore.Logout` | client/src/store/userSlice.ts:38-44 | user, error and message nulled, not authenticated, the `'user'` entry removed; loading and other entries kept |
| `UserSlice.UserStore.LoadUserFromStorage` | client/src/store/userSlice.ts:45-48 | the user is the payload and authenticated; the rest kept |
| `UserSlice.UserStore.ClearError` | client/src/store/userSlice.ts:49-51 | only the error is nulled |
| `UserSlice.UserStore.ClearSuccessMessage` | client/src/store/userSlice.ts:52-54 | only the success message is nulled |
| `UserSlice.UserStore.Pending` | client/src/store/userSlice.ts:58-62 | loading, error and message nulled; user and authentication kept |
| `UserSlice.UserStore.Fulfilled` | client/src/store/userSlice.ts:63-72 | signed in as the payload with no error; message is the payload's when non-empty; the saved text reads back as the payload without its message |
| `UserSlice.UserStore.Rejected` | client/src/store/userSlice.ts:73-77 | not loading, no message; the error is the message, or `Failed to authenticate user` when it is empty |
| `UserSlice.UserStore.Settle` | client/src/store/userSlice.ts:56-77 | the combined effect of either outcome of the request |
| `UserSlice.SignInThenOut` | client/src/store/userSlice.ts:38-72 | pending, fulfilled, then logout leaves nobody signed in and no saved user, other entries untouched |
| `UserSlice.FailedSignIn` | client/src/store/userSlice.ts:17-19 | a failed response shows the thunk's own message and signs nobody in |
| `UserJson.Encode` | client/src/store/userSlice.ts:70-71 | the saved text is a JSON object starting with the id member |
| `UserJson.DecodeEncode` | client/src/store/userSlice.ts:70-71 | the saved text parses back to the user without its message |
| `UserJson.DecodeRejectsOtherText` | client/src/hooks/useUser.ts:15-21 | text that is not a JSON object, such as `invalid-json`, fails to parse |
| `UseUser.View` | client/src/hooks/useUser.ts:26-32 | the hook returns the five slice fields unchanged |
| `UseUser.SavedText` | client/src/hooks/useUser.ts:13-14 | the saved text counts only when the entry exists and is non-empty |
| `UseUser.RestoreUser` | client/src/hooks/useUser.ts:11-24 | signed in or nothing saved: no change; parsable text: that user is loaded; unparsable text: the entry is removed and nobody is signed in |
| `UseUser.ReloadRestoresUser` | client/src/hooks/useUser.ts:11-17 | after a sign-in, a fresh store over the same storage restores the same user |
| `UseUser.CorruptSavedUser` | client/src/hooks/useUser.ts:18-21 | unparsable saved text is removed and nobody is signed in |
| `UseAsync.AsyncHook.constructor` | client/src/hooks/useAsync.ts:21-25 | no data, not loading, no error |
| `UseAsync.AsyncHook.Start` | client/src/hooks/useAsync.ts:28 | loading and no error, the data kept |
| `UseAsync.AsyncHook.Succeed` | client/src/hooks/useAsync.ts:30-33 | the result as data, not loading, no error |
| `UseAsync.AsyncHook.Fail` | client/src/hooks/useAsync.ts:34-37 | the data kept, not loading, the error is `handleApiError` of what was thrown |
| `UseAsync.AsyncHook.Execute` | client/src/hooks/useAsync.ts:27-39 | returns the result or null; never loading afterwards; data and error as above |
| `UseAsync.AsyncHook.Reset` | client/src/hooks/useAsync.ts:41-43 | back to the initial state from any state |
| `UseAsync.SuccessThenFailure` | client/src/hooks/useAsync.ts:27-39 | a failure after a success keeps the earlier data and shows the error message |
| `UseAsync.ThrownValue` | client/src/hooks/useAsync.ts:34-37 | a thrown non-Error gives null and the fixed fallback text |
| `UseModal.Modal.constructor` | client/src/hooks/useModal.ts:15-17 | open iff the initial state says so, with no data |
| `UseModal.Modal.OpenModal` | client/src/hooks/useModal.ts:19-22 | open, holding the data, or null when the data is falsy |
| `UseModal.Modal.CloseModal` | client/src/hooks/useModal.ts:24-27 | closed with no data from any state |
| `UseModal.Modal.ToggleModal` | client/src/hooks/useModal.ts:29-34 | isOpen flips; closing clears the data, opening keeps it |
| `UseModal.OpenToggleToggle` | client/src/hooks/useModal.ts:19-34 | open with data, then two toggles: open again but empty |
| `UseModal.OpenWithEmptyText` | client/src/hooks/useModal.ts:19-22 | opening with `''` stores null |
| `UseMovieFiltering.CurrentMovies` | client/src/hooks/useMovieFiltering.ts:16-18 | the search results while searching, else the collection |
| `UseMovieFiltering.FilteredMovies` | client/src/hooks/useMovieFiltering.ts:20-25 | the current list when the filter is off; only favourites when it is on |
| `UseMovieFiltering.FilteredIsFavoritesSubList` | client/src/hooks/useMovieFiltering.ts:24 | with the filter on: an order-preserving sub-list holding each favourite as often as the current list does, and nothing else |
| `UseMovieFiltering.FilterKeepsAllFavorites` | client/src/hooks/useMovieFiltering.ts:24 | a list of favourites only is shown whole |
| `UseMovieFiltering.ToggleFavoritesFilter` | client/src/hooks/useMovieFiltering.ts:12-14 | the flag flips |
| `UseMovieFiltering.ToggleTwice` | client/src/hooks/useMovieFiltering.ts:12-14 | two toggles restore the flag |
| `UseMovieFiltering.View` | client/src/hooks/useMovieFiltering.ts:27-33 | hasMovies iff the filtered list is non-empty; the flags passed through |
| `UseMovieFiltering.HasMoviesIff` | client/src/hooks/useMovieFiltering.ts:32 | something is shown iff the current list holds a movie the filter lets through |
| `UseFavorites.IsFavorite` | client/src/hooks/useFavorites.ts:29-31 | the stored flag, false when the id is absent |
| `UseFavorites.GetFavoriteIds` | client/src/hooks/useFavorites.ts:34-38 | exactly the ids whose flag is true, each once, with the array-index ids (0 to 2^32 - 2) first and in increasing order |
| `UseFavorites.FavoriteIdsAgreeWithIsFavorite` | client/src/hooks/useFavorites.ts:29-38 | an id is listed iff it is a favourite |
| `UseFavorites.FavoriteIdsAscending` | client/src/hooks/useFavorites.ts:34-38 | when every key is an array index, as movie ids are, the whole list is in increasing order |
| `UseFavorites.UnflagRemovesId` | client/src/hooks/useFavorites.ts:34-38 | clearing one flag removes exactly that id from the list |
| `Tables.UsersValidAppend` | server/src/services/user.service.ts:17 | inserting under the next SERIAL id keeps ids positive, increasing and below the counter |
| `Tables.MoviesValidAppend` | server/src/services/movies.service.ts:40-46 | the same for the movies table |
| `UserService.FindUser` | server/src/services/user.service.ts:5-8 | a row with exactly that name, or none iff no row has it |
| `UserService.InsertUser` | server/src/services/user.service.ts:16-19 | one row appended with the next id and that name, and returned |
| `UserService.InsertUserValid` | server/src/services/user.service.ts:16-19 | the insert keeps the table valid, and a new name is then found as the new row |
| `UserService.FindOrCreate` | server/src/services/user.service.ts:22-30 | an existing name: that user, not new, table unchanged; an absent name: one user created and returned as new |
| `UserService.FindOrCreateFinds` | server/src/services/user.service.ts:22-30 | afterwards the name is found as the returned user |
| `UserService.FindOrCreateIdempotent` | server/src/services/user.service.ts:22-30 | a second call returns the same user, not new, and changes nothing |
| `UserService.FindOrCreateKeepsNamesUnique` | server/src/services/user.service.ts:22-30 | find-or-create never makes two users with one name |
| `UserService.CreateUserAllowsDuplicate` | server/src/services/user.service.ts:16-19 | `createUser` alone does not check the name, so it can duplicate one |
| `UserService.FindUserByUsername` | server/src/services/user.service.ts:5-13 | returns the lookup of the name and changes nothing |
| `UserService.CreateUser` | server/src/services/user.service.ts:16-19 | the users table becomes the insert; movies and favourites kept |
| `UserService.FindOrCreateUser` | server/src/services/user.service.ts:22-30 | the result and new users table are those of find-or-create |
| `UserService.GetUserIdByUsername` | server/src/services/user.service.ts:33-41 | the existing id, or the id of a user created first |
| `UserService.SignInTwice` | server/src/services/user.service.ts:22-30 | two calls with one name give the same id, the second not new |
| `FavoritesService.AddFavorite` | server/src/services/favorites.service.ts:32-39 | the pair is added; a pair already present leaves the table unchanged; no pair is duplicated |
| `FavoritesService.RemoveFavoriteContents` | server/src/services/favorites.service.ts:53-58 | exactly the other pairs remain; no change when the pair is absent |
| `FavoritesService.ToggleFavorite` | server/src/services/favorites.service.ts:66-81 | the result is the new membership, its negation before; other pairs unchanged |
| `FavoritesService.ToggleTwice` | server/src/services/favorites.service.ts:66-81 | two toggles restore every pair's membership, and the table itself from an absent pair |
| `FavoritesService.UserFavoritesContents` | server/src/services/favorites.service.ts:89-95 | the list holds exactly the movies paired with the user |
| `FavoritesService.LatestFavoriteFirst` | server/src/services/favorites.service.ts:89-95 | the latest favourite comes ahead of all earlier ones |
| `FavoritesService.CheckFavoriteStatus` | server/src/services/favorites.service.ts:6-24 | true iff the pair of the resolved user id and the movie is present; an unknown name creates its user |
| `FavoritesService.AddToFavorites` | server/src/services/favorites.service.ts:27-45 | insert-or-ignore of the pair; returns the new row, or none when it was present |
| `FavoritesService.RemoveFromFavorites` | server/src/services/favorites.service.ts:48-63 | the pair is deleted, or nothing happens if it is absent |
| `FavoritesService.ToggleFavoriteStatus` | server/src/services/favorites.service.ts:66-81 | the table and result are those of the toggle for the resolved user id |
| `FavoritesService.GetUserFavorites` | server/src/services/favorites.service.ts:84-103 | the user's favourite movies, latest first; an unknown name creates its user |
| `MoviesService.ListNewestFirst` | server/src/services/movies.service.ts:10-29 | every row exactly once per row |
| `MoviesService.NewestFirstByDescendingId` | server/src/services/movies.service.ts:26 | the listing is newest first, so ids go down |
| `MoviesService.FindMovie` | server/src/services/movies.service.ts:68-86 | the row with that id, or none iff no row has it |
| `MoviesService.InsertMovie` | server/src/services/movies.service.ts:38-60 | one row appended under the next id |
| `MoviesService.InsertThenFind` | server/src/services/movies.service.ts:38-60 | the stored row holds every supplied column, is found under its new id, and other ids find what they found before |
| `MoviesService.DeleteReportsRemoval` | server/src/services/movies.service.ts:126-129 | true iff a row had the id; afterwards none has it; the others stay in order |
| `MoviesService.MovieExists` | server/src/services/movies.service.ts:138-154 | true iff a row's title equals the trimmed query after the database's `LOWER` fold (a parameter), within the user only when userId is truthy |
| `MoviesService.MovieExistsIgnoresCaseAndPadding` | server/src/services/movies.service.ts:145-150 | for any fold that is idempotent and keeps white space apart from other characters, the check ignores the query's case and surrounding white space |
| `Text.AsciiLowerIsCaseFold` | server/src/services/movies.service.ts:145-150 | ASCII lower-casing, the C locale's `LOWER`, meets the fold conditions the title check relies on |
| `MoviesService.UserMatchIsGlobalMatch` | server/src/services/movies.service.ts:143-151 | a match within one user is a match over all users |
| `MoviesService.ApplyUpdate` | server/src/services/movies.service.ts:168-201 | title, year, runtime, genre and director overwritten; poster_local only when given; all other columns kept |
| `MoviesService.UpdateMovie` | server/src/services/movies.service.ts:162-209 | the updated row and table, or `Movie not found` iff no row has the id |
| `MoviesService.SetFavorite` | server/src/services/movies.service.ts:94-118 | is_favorite set on that row only, or `Movie not found` iff no row has the id |
| `MoviesService.Rethrown` | server/src/services/movies.service.ts:119-122 | the catch block turns any error into `Internal server error` |
| `MoviesService.UpdateMovieAsWritten` | server/src/services/movies.service.ts:162-213 | as written, a missing id gives `Internal server error` |
| `MoviesService.SetFavoriteAsWritten` | server/src/services/movies.service.ts:94-122 | as written, a missing id gives `Internal server error` |
| `MoviesService.MissingMovieAnswers500` | server/src/services/movies.service.ts:114-121 | as written a missing id gives 500; the corrected functions give 404 |
| `MoviesService.NotFoundBranchUnreachable` | server/src/services/movies.service.ts:114-121 | as written the favourite update never leads to the controller's 404 |
| `MoviesService.GetMoviesFromDatabase` | server/src/services/movies.service.ts:10-34 | every row, with ids descending |
| `MoviesService.GetMovieById` | server/src/services/movies.service.ts:68-91 | the row with that id, or null iff there is none |
| `MoviesService.CheckMovieExists` | server/src/services/movies.service.ts:138-159 | whether a row matches the title up to the database's case fold, scoped to the user when userId is truthy |
| `MoviesService.AddMovieToDatabase` | server/src/services/movies.service.ts:38-65 | the movies table becomes the insert and the stored row is returned |
| `MoviesService.DeleteMovieFromDatabase` | server/src/services/movies.service.ts:126-134 | the movies table loses the id; the result says whether a row existed |
| `MoviesService.UpdateMovieFavoriteStatus` | server/src/services/movies.service.ts:94-123 | the flag update, with not-found passed on (corrected) |
| `MoviesService.UpdateMovieInDatabase` | server/src/services/movies.service.ts:162-214 | the partial update, with not-found passed on (corrected) |

## Left out

- Network and HTTP I/O are not modelled:
  - the fetch client with its abort timeout (`client/src/utils/http.ts`);
  - `MovieService.ts`;
  - `apiFetch`;
  - the thunk bodies of both slices, which enter the model only through the outcome they
    resolve with (`UserSlice.FetchOrCreateOutcome`, the reducer methods);
  - the external movie database calls `searchMovies` and `getMovieDetails`.
- The Express controllers and routes only map requests to status codes. The one exception is
  the 404 test for the update error, kept in the Findings.
  - The favourites controller calls a `toggleFavorite` export and reads `isInFavorites`; the
    service offers neither, so the controller is not part of this model.
- The database pool and the server bootstrap are left out, and so is the multer upload
  middleware. Its file names come from the clock and a random source.
- The database's own failures are left out. These are the other ways each service's catch
  block turns an error into `Internal server error`.
- React components and the UI-only hooks are left out: `useNotification`, `useAuthAction`,
  `useMovieSearch` and `useMovieOperations`.
- The dispatch wrappers of `useFavorites` are left out.
- The react-hook-form rule configurations in `formValidation.ts` and in the modals are left
  out, because a form library interprets them.
- Concurrency is left out. Every service call is one sequential step. The check-then-act
  races of `toggleFavoriteStatus` and of find-or-create are not represented. Neither is the
  parallel fan-out.
- `favoritesMiddleware.ts`, `createImagePreview` (FileReader) and `logError` (console) are
  left out.
- Timestamps are left out. `created_at` order is the order of the table sequences. `updated_at`
  is not kept.
- The unique constraint on `users.username` is not modelled. `UserService.FindOrCreateKeepsNamesUnique`
  shows that find-or-create keeps names unique by itself.
- Strings are sequences of code points. JavaScript's `length` counts UTF-16 units, so a
  length rule over text outside the Basic Multilingual Plane is not modelled exactly.
- `Text.ParseInt`: only decimal `parseInt(s, 10)` on integers is modelled. JavaScript numbers
  are unbounded integers here. NaN is `None`, and a fractional tail is just text after the digits.
- `UserJson.Decode`: `JSON.parse` is modelled only for text of the shape `JSON.stringify`
  writes for a saved user. Any other text takes the parse-failure path, including other
  valid JSON and `\u` escapes of surrogate halves. The server replies with the whole users
  row (`SELECT *` / `RETURNING *`, server/src/services/user.service.ts:7,17). If that row has
  a `created_at` column, the text the client saves has a `created_at` member. The model's
  `Decode` rejects that text, so `UseUser.RestoreUser` would drop the entry that the source
  restores.
- `UseFavorites.GetFavoriteIds` is a ghost function. `Object.keys` lists array-index keys
  (0 to 2^32 - 2) in increasing order, then the other keys in insertion order. A map holds no
  insertion order, so the model promises only that the other keys come after the array
  indices. Keys of 10^21 and above, whose string form `parseInt` does not read back, are not
  modelled. It reads the `favorites` map, which the movies slice shown does not define, as
  a parameter.
- `MoviesService.MovieExists`, `MoviesService.MovieExistsIgnoresCaseAndPadding` and
  `MoviesService.CheckMovieExists` take PostgreSQL's `LOWER` as a per-character fold
  parameter, because which letters it folds depends on the database's `LC_CTYPE`.
  `Text.AsciiLower` is the C-locale instance. A locale whose lower-casing changes a string's
  length is not modelled.
- `MoviesService.UpdateMovieInDatabase` always writes a title. The source accepts a
  `Partial` movie and sends `movie.title` even when it is `undefined`, which writes `NULL`.
  The `title` column's constraints are in a schema file that is not part of this model, so
  an update without a title is not modelled.
- `MoviesService.DeleteMovieFromDatabase` leaves the favourites table as it is. The behaviour
  of the `favorites.movie_id` foreign key is in a schema file that is not part of this
  model. With `ON DELETE CASCADE` the movie's favourite pairs would also be removed. With a
  plain reference, deleting a favourited movie would fail with `'Internal server error'`.
- `ImageUtils.GetPosterUrl` and `Api.BuildApiUrl` take the configured API base URL as a
  parameter. `Validation.ValidateYear` takes the current year as a parameter.
- Two test expectations disagree with the code, and the model follows the code:
  - `validateRequired(0)` returns true (client/src/utils/validation.ts:18);
  - `logout` removes only the `'user'` entry (client/src/store/userSlice.ts:43).

## Findings

| source | as written | input that shows it | evidently intended | confidence | as-written member | corrected member |
|---|---|---|---|---|---|---|
| server/src/services/movies.service.ts:114-121 | the `'Movie not found'` error thrown inside the `try` is caught by the same function's `catch`, which throws `'Internal server error'` | `updateMovieFavoriteStatus` with an id no row has | a missing movie reaches the controller as `'Movie not found'`, so that it answers 404 (server/src/controllers/movies.controller.ts:129-130) | high, not executed | `MoviesService.NotFoundBranchUnreachable` | `MoviesService.SetFavorite` |
| server/src/services/movies.service.ts:205-212 | the same pattern in `updateMovieInDatabase` | `updateMovieInDatabase` with an id no row has | a missing movie is reported as `'Movie not found'` | high, not executed | `MoviesService.MissingMovieAnswers500` | `MoviesService.UpdateMovie` |
