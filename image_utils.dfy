/** Poster URLs and upload checks (client/src/utils/imageUtils.ts). */
module ImageUtils {
  import opened Wrappers
  import opened Text
  import opened Models
  import opened Errors
  import Js

  const PlaceholderPoster: string := "/placeholder-poster.jpg"

  /** `getPosterUrl(movie)` against the configured base URL: a non-empty local poster wins,
      absolute if it starts with `http`, else served from the API; then the external poster;
      then the placeholder. */
  function GetPosterUrl(baseUrl: string, movie: Movie): (url: string)
    ensures Js.NonEmpty(movie.poster_local).Some? && StartsWith(movie.poster_local.value, "http") ==>
              url == movie.poster_local.value
    ensures Js.NonEmpty(movie.poster_local).Some? && !StartsWith(movie.poster_local.value, "http") ==>
              url == baseUrl + movie.poster_local.value
    ensures Js.NonEmpty(movie.poster_local).None? ==> url == Js.OrElse(movie.poster, PlaceholderPoster)
  {
    if Js.NonEmpty(movie.poster_local).Some? then
      var local := movie.poster_local.value;
      if StartsWith(local, "http") then local else baseUrl + local
    else
      Js.OrElse(movie.poster, PlaceholderPoster)
  }

  /** A non-empty local poster decides the URL whatever the external poster is, and the URL
      always ends with it. */
  lemma LocalPosterWins(baseUrl: string, movie: Movie, poster: Option<string>)
    requires Js.NonEmpty(movie.poster_local).Some?
    ensures GetPosterUrl(baseUrl, movie.(poster := poster)) == GetPosterUrl(baseUrl, movie)
    ensures var url := GetPosterUrl(baseUrl, movie);
            |url| >= |movie.poster_local.value| &&
            url[|url| - |movie.poster_local.value|..] == movie.poster_local.value
  {
    var url := GetPosterUrl(baseUrl, movie);
    var local := movie.poster_local.value;
    if !StartsWith(local, "http") {
      assert url[|url| - |local|..] == (baseUrl + local)[|baseUrl|..];
    }
  }

  /** The URL is never empty, so an `<img>` always has a source. */
  lemma PosterUrlNonEmpty(baseUrl: string, movie: Movie)
    ensures GetPosterUrl(baseUrl, movie) != []
  {
  }

  const AllowedTypes: seq<string> := ["image/jpeg", "image/jpg", "image/png", "image/webp"]
  const MaxSize: int := 5 * 1024 * 1024
  const InvalidTypeMessage: string := "Invalid file type. Please upload JPEG, PNG, or WebP images."
  const TooLargeMessage: string := "File size too large. Please upload images smaller than 5MB."

  /** `validateImageFile(file)` for a file of that MIME type and size in bytes: `true`, or the
      error it throws; the type is checked before the size. */
  function ValidateImageFile(fileType: string, size: int): (r: Result<bool, ErrorObject>)
    ensures r.Ok? <==> fileType in AllowedTypes && size <= MaxSize
    ensures r.Ok? ==> r.value
    ensures fileType !in AllowedTypes ==> r == Err(OtherError(InvalidTypeMessage))
    ensures fileType in AllowedTypes && size > MaxSize ==> r == Err(OtherError(TooLargeMessage))
  {
    if fileType !in AllowedTypes then Err(OtherError(InvalidTypeMessage))
    else if size > MaxSize then Err(OtherError(TooLargeMessage))
    else Ok(true)
  }

  /** A file of exactly 5 MiB is accepted and one byte more is refused; an unknown type is
      refused however small. */
  lemma SizeBoundary()
    ensures ValidateImageFile("image/png", 5242880) == Ok(true)
    ensures ValidateImageFile("image/png", 5242881) == Err(OtherError(TooLargeMessage))
    ensures ValidateImageFile("image/gif", 0) == Err(OtherError(InvalidTypeMessage))
  {
    assert "image/png" == AllowedTypes[2];
    assert "image/gif" != AllowedTypes[0] && "image/gif" != AllowedTypes[1];
    assert "image/gif" != AllowedTypes[2] && "image/gif" != AllowedTypes[3];
  }

  /** What a caller catching the error shows: the message of the check that failed. */
  lemma RejectionMessage(fileType: string, size: int)
    requires ValidateImageFile(fileType, size).Err?
    ensures HandleApiError(Threw(ValidateImageFile(fileType, size).error)) ==
            if fileType !in AllowedTypes then InvalidTypeMessage else TooLargeMessage
  {
  }
}
