/** The API URL helpers of the frontend (frontend/lib/config.ts). */
module Config {
  import opened Wrappers

  const DefaultBase := "http://localhost:5051"

  /** `API_BASE_URL`: the environment's value unless it is unset or empty. */
  function ApiBaseUrl(env: Option<string>): (base: string)
    ensures env.Some? && env.value != "" ==> base == env.value
    ensures env.None? || env.value == "" ==> base == DefaultBase
    ensures base != ""
  {
    if env.Some? && env.value != "" then env.value else DefaultBase
  }

  /** The base with one trailing '/' removed, if it has one. */
  function CleanBase(base: string): (b: string)
    ensures |base| > 0 && base[|base| - 1] == '/' ==> b + "/" == base
    ensures !(|base| > 0 && base[|base| - 1] == '/') ==> b == base
  {
    if |base| > 0 && base[|base| - 1] == '/' then base[..|base| - 1] else base
  }

  /** The endpoint with a leading '/' added when it lacks one. */
  function CleanEndpoint(endpoint: string): (e: string)
    ensures |e| > 0 && e[0] == '/'
    ensures |endpoint| > 0 && endpoint[0] == '/' ==> e == endpoint
    ensures !(|endpoint| > 0 && endpoint[0] == '/') ==> e == "/" + endpoint
  {
    if |endpoint| > 0 && endpoint[0] == '/' then endpoint else "/" + endpoint
  }

  /** `getApiUrl`: the cleaned base followed by the cleaned endpoint. */
  function GetApiUrl(base: string, endpoint: string): (url: string)
    ensures |url| > |CleanBase(base)| && url[..|CleanBase(base)|] == CleanBase(base)
    ensures url[|CleanBase(base)|] == '/'
    ensures |url| >= |endpoint| && url[|url| - |endpoint|..] == endpoint
    ensures |url| == |CleanBase(base)| + |endpoint| + (if |endpoint| > 0 && endpoint[0] == '/' then 0 else 1)
  {
    CleanBase(base) + CleanEndpoint(endpoint)
  }

  /** Cleaning an endpoint twice is the same as once. */
  lemma CleanEndpointIdempotent(endpoint: string)
    ensures CleanEndpoint(CleanEndpoint(endpoint)) == CleanEndpoint(endpoint)
  {
  }

  /** Only one trailing '/' is dropped: a base ending in "//" keeps one. */
  lemma CleanBaseDropsOneSlash(base: string)
    requires |base| >= 2 && base[|base| - 1] == '/' && base[|base| - 2] == '/'
    ensures CleanBase(base) == base[..|base| - 1]
    ensures CleanBase(base)[|CleanBase(base)| - 1] == '/'
  {
  }

  /** A clean base and a clean endpoint are joined as they are. */
  lemma GetApiUrlClean(base: string, endpoint: string)
    requires !(|base| > 0 && base[|base| - 1] == '/')
    requires |endpoint| > 0 && endpoint[0] == '/'
    ensures GetApiUrl(base, endpoint) == base + endpoint
  {
  }

  /** With or without the leading '/', an endpoint gives the same URL. */
  lemma GetApiUrlSlashOptional(base: string, endpoint: string)
    requires !(|endpoint| > 0 && endpoint[0] == '/')
    ensures GetApiUrl(base, "/" + endpoint) == GetApiUrl(base, endpoint)
  {
  }

  /** The default backend and the log route. */
  lemma DefaultLogUrl()
    ensures GetApiUrl(ApiBaseUrl(None), "/api/log") == "http://localhost:5051/api/log"
    ensures GetApiUrl(ApiBaseUrl(Some("")), "api/log") == "http://localhost:5051/api/log"
  {
    assert CleanBase(DefaultBase) == DefaultBase;
    assert CleanEndpoint("api/log") == "/api/log";
  }
}
