/** `buildApiUrl` (client/src/utils/api.ts): the API base URL joined to an endpoint path. */
module Api {
  import opened Text

  /** The endpoint with exactly one leading slash added when it has none. */
  function CleanEndpoint(endpoint: string): (r: string)
    ensures StartsWith(r, "/")
    ensures StartsWith(endpoint, "/") ==> r == endpoint
    ensures !StartsWith(endpoint, "/") ==> r == "/" + endpoint
  {
    if StartsWith(endpoint, "/") then endpoint else "/" + endpoint
  }

  /** `buildApiUrl(endpoint)` against the configured base URL. */
  function BuildApiUrl(baseUrl: string, endpoint: string): (url: string)
    ensures StartsWith(url, baseUrl)
    ensures StartsWith(url[|baseUrl|..], "/")
  {
    baseUrl + CleanEndpoint(endpoint)
  }

  /** A path that starts with a slash is appended unchanged; any other gets one slash in front. */
  lemma BuildApiUrlShape(baseUrl: string, endpoint: string)
    ensures StartsWith(endpoint, "/") ==> BuildApiUrl(baseUrl, endpoint) == baseUrl + endpoint
    ensures !StartsWith(endpoint, "/") ==> BuildApiUrl(baseUrl, endpoint) == baseUrl + "/" + endpoint
  {
  }

  /** Writing the leading slash or leaving it out names the same URL. */
  lemma LeadingSlashOptional(baseUrl: string, endpoint: string)
    requires !StartsWith(endpoint, "/")
    ensures BuildApiUrl(baseUrl, endpoint) == BuildApiUrl(baseUrl, "/" + endpoint)
  {
    assert StartsWith("/" + endpoint, "/");
  }

  /** The endpoint can be read back from the URL: it is what follows the base, less the slash
      that was added. */
  lemma EndpointRecoverable(baseUrl: string, endpoint: string)
    ensures var tail := BuildApiUrl(baseUrl, endpoint)[|baseUrl|..];
            tail == endpoint || tail[1..] == endpoint
  {
    var url := BuildApiUrl(baseUrl, endpoint);
    assert url[|baseUrl|..] == CleanEndpoint(endpoint);
    if !StartsWith(endpoint, "/") {
      assert CleanEndpoint(endpoint)[1..] == endpoint;
    }
  }
}
