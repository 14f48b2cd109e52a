/** The base API service's URL builder. */
module BaseApi {
  import opened Text

  /** The development `apiUrl`. */
  const ApiUrl: string := "http://localhost:8080/api"

  /** `getFullUrl`: an absolute endpoint (starting with "http") is used as
      is; anything else is appended to the API base URL. */
  function GetFullUrl(apiUrl: string, endpoint: string): (r: string)
    ensures StartsWith(endpoint, "http") ==> r == endpoint
    ensures !StartsWith(endpoint, "http") ==> StartsWith(r, apiUrl) && r[|apiUrl|..] == endpoint
    ensures |r| >= |endpoint| && r[|r| - |endpoint|..] == endpoint
  {
    if StartsWith(endpoint, "http") then endpoint
    else
      assert (apiUrl + endpoint)[..|apiUrl|] == apiUrl;
      apiUrl + endpoint
  }

  /** With an absolute base URL every result is absolute, so building a
      URL twice is building it once. */
  lemma GetFullUrlIdempotent(apiUrl: string, endpoint: string)
    requires StartsWith(apiUrl, "http")
    ensures GetFullUrl(apiUrl, GetFullUrl(apiUrl, endpoint)) == GetFullUrl(apiUrl, endpoint)
  {
    var r := GetFullUrl(apiUrl, endpoint);
    if !StartsWith(endpoint, "http") {
      assert r[..|apiUrl|] == apiUrl;
      assert r[..4] == apiUrl[..4];
    }
  }

  /** The configured base URL is absolute. */
  lemma ConfiguredUrlIsAbsolute()
    ensures StartsWith(ApiUrl, "http")
  {
  }
}
