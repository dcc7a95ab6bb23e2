/** machi-vue/src/config/api.js: how the client turns an endpoint path into
    the URL it fetches. The build-time variable `VITE_API_BASE_URL` is an
    input. */
module ApiConfig {
  import opened Wrappers
  import opened TextOps

  /** `import.meta.env.VITE_API_BASE_URL || ''`. */
  function BaseUrl(env: Option<string>): (r: string)
    ensures Truthy(env) ==> r == env.value
    ensures !Truthy(env) ==> r == ""
  {
    if Truthy(env) then env.value else ""
  }

  /** `API_CONFIG.getApiUrl(path)`: a path that already starts with `http`
      is a full URL and kept; any other is appended to the base URL. */
  function GetApiUrl(baseUrl: string, path: string): (r: string)
    ensures StartsWith(path, "http") ==> r == path
    ensures !StartsWith(path, "http") ==> EndsWith(r, path) && StartsWith(r, baseUrl) && |r| == |baseUrl| + |path|
  {
    if StartsWith(path, "http") then path else baseUrl + path
  }

  /** With the default empty base, every path is fetched as it is. */
  lemma DefaultBaseIsIdentity(path: string)
    ensures GetApiUrl(BaseUrl(None), path) == path
  {
    if !StartsWith(path, "http") {
      assert "" + path == path;
    }
  }

  /** The test is a literal prefix test: `httpfoo` is not a URL but is kept
      as if it were one. */
  lemma LiteralPrefixTest(baseUrl: string)
    ensures GetApiUrl(baseUrl, "httpfoo") == "httpfoo"
  {
    assert "httpfoo"[..4] == "http";
  }

  /** Asking for a URL that came out of `GetApiUrl` with an absolute base
      gives it back: absolute URLs are fixed points. */
  lemma AbsoluteBaseIsStable(baseUrl: string, path: string)
    requires StartsWith(baseUrl, "http")
    ensures GetApiUrl(baseUrl, GetApiUrl(baseUrl, path)) == GetApiUrl(baseUrl, path)
  {
    var r := GetApiUrl(baseUrl, path);
    if !StartsWith(path, "http") {
      assert r[..4] == baseUrl[..4];
    }
  }
}
