/**
 * The public base URL of the site, used in e-mail links and redirects: the
 * configured `NEXTAUTH_URL` when it is usable, otherwise the host the
 * request arrived at (proxy headers first), otherwise the request's origin.
 */
module AppUrl {
  import opened JsText
  import opened Optional
  import Assoc

  /** The process environment the function reads. */
  datatype Env = Env(nextAuthUrl: Option<string>, nodeEnv: Option<string>)

  /** The request: header values by lower-case name, and `nextUrl.origin`. */
  datatype Request = Request(headers: seq<(string, string)>, origin: string)

  /** `trimTrailingSlash`. */
  function TrimTrailingSlash(url: string): (r: string)
    ensures r == [] || r[|r| - 1] != '/'
    ensures StartsWith(url, r) && forall j :: |r| <= j < |url| ==> url[j] == '/'
  {
    StripTrailingSlashesExact(url);
    StripTrailingSlashes(url)
  }

  /** `firstHeaderValue`: the trimmed text before the first comma; '' for a missing or empty header. */
  function FirstHeaderValue(value: Option<string>): (r: string)
    ensures value.None? ==> r == ""
    ensures ',' !in r
    ensures r == [] || (!IsWhitespace(r[0]) && !IsWhitespace(r[|r| - 1]))
  {
    if value.None? || value.value == "" then ""
    else
      var t := Trim(FirstPiece(value.value, ','));
      TrimIsSlice(FirstPiece(value.value, ','));
      t
  }

  predicate IsLocalHost(host: string) {
    StartsWith(host, "localhost") || StartsWith(host, "127.0.0.1")
  }

  function Header(req: Request, name: string): Option<string> {
    Assoc.Find(req.headers, name)
  }

  /** The configured URL, trimmed, or '' when it is missing. */
  function Configured(env: Env): string {
    if env.nextAuthUrl.None? then "" else Trim(env.nextAuthUrl.value)
  }

  /** Whether the configured URL is taken: set, parsable (`configuredHost` is the hostname
      `new URL` reports, `None` when it throws) and not a local host in production. */
  predicate UsesConfigured(env: Env, configuredHost: Option<string>) {
    Configured(env) != ""
    && configuredHost.Some?
    && !(env.nodeEnv == Some("production") && IsLocalHost(configuredHost.value))
  }

  /** The host the request names: `x-forwarded-host`, else `host`. */
  function RequestHost(req: Request): string {
    var forwarded := FirstHeaderValue(Header(req, "x-forwarded-host"));
    if forwarded != "" then forwarded else FirstHeaderValue(Header(req, "host"))
  }

  /** The protocol for `host`: `x-forwarded-proto`, else http for local hosts and https otherwise. */
  function RequestProto(req: Request, host: string): string {
    var forwarded := FirstHeaderValue(Header(req, "x-forwarded-proto"));
    if forwarded != "" then forwarded else if IsLocalHost(host) then "http" else "https"
  }

  /** `getAppBaseUrl`. */
  function GetAppBaseUrl(env: Env, configuredHost: Option<string>, req: Request): (r: string)
    ensures UsesConfigured(env, configuredHost) ==> r == TrimTrailingSlash(Configured(env))
    ensures UsesConfigured(env, configuredHost) ==> StartsWith(Configured(env), r) && (r == [] || r[|r| - 1] != '/')
    ensures !UsesConfigured(env, configuredHost) && RequestHost(req) != "" ==>
      r == RequestProto(req, RequestHost(req)) + "://" + RequestHost(req)
    ensures !UsesConfigured(env, configuredHost) && RequestHost(req) == "" ==>
      r == TrimTrailingSlash(req.origin) && StartsWith(req.origin, r) && (r == [] || r[|r| - 1] != '/')
  {
    if UsesConfigured(env, configuredHost) then TrimTrailingSlash(Configured(env))
    else
      var host := RequestHost(req);
      if host != "" then RequestProto(req, host) + "://" + host
      else TrimTrailingSlash(req.origin)
  }

  /** In production a configured local address is never used: the answer depends on the
      request alone. */
  lemma ProductionIgnoresLocalConfig(env: Env, host: string, req: Request, other: Env)
    requires env.nodeEnv == Some("production") && IsLocalHost(host)
    requires other.nextAuthUrl.None?
    ensures GetAppBaseUrl(env, Some(host), req) == GetAppBaseUrl(other, None, req)
  {
  }

  /** An unparsable configured URL falls back to the request as if nothing were configured. */
  lemma InvalidConfigFallsBack(env: Env, req: Request)
    ensures GetAppBaseUrl(env, None, req) == GetAppBaseUrl(Env(None, env.nodeEnv), None, req)
  {
  }

  /** `x-forwarded-host` wins over `host`, and a missing protocol header gives https for a
      public host. */
  lemma ForwardedHostWins(fwd: string, host: string, origin: string)
    requires fwd != "" && ',' !in fwd && NoWhitespace(fwd) && !IsLocalHost(fwd)
    ensures GetAppBaseUrl(Env(None, None), None,
              Request([("x-forwarded-host", fwd), ("host", host)], origin)) == "https://" + fwd
  {
    var req := Request([("x-forwarded-host", fwd), ("host", host)], origin);
    assert Header(req, "x-forwarded-host") == Some(fwd);
    assert FirstPiece(fwd, ',') == fwd;
    NoWhitespaceTrim(fwd);
    assert RequestHost(req) == fwd;
    assert "x-forwarded-proto" !in Assoc.Keys(req.headers);
  }

  lemma NoWhitespaceTrim(s: string)
    requires NoWhitespace(s)
    ensures Trim(s) == s
  {
    TrimIsSlice(s);
    if s != [] {
      assert !IsWhitespace(s[0]) && !IsWhitespace(s[|s| - 1]);
    }
  }

  // ---------------------------------------------------------------- buildAppUrl

  /** `scheme://authority` of an absolute URL: everything before the first '/' that follows "://". */
  function Origin(url: string): (r: string)
    ensures StartsWith(url, r)
  {
    var colon := IndexOf(url, ':');
    if colon + 3 <= |url| && url[colon..colon + 3] == "://" then
      var rest := url[colon + 3..];
      url[..colon + 3 + IndexOf(rest, '/')]
    else url
  }

  function Min(a: int, b: int): int {
    if a < b then a else b
  }

  /** Whether the reference starts with a scheme (letters, digits, '+', '-', '.' and then ':'). */
  predicate HasScheme(ref: string) {
    var colon := IndexOf(ref, ':');
    0 < colon < |ref| && ('a' <= ref[0] <= 'z' || 'A' <= ref[0] <= 'Z')
    && forall j :: 0 <= j < colon ==> ref[j] !in "/?#"
  }

  /** `new URL(ref, base + '/')` on the reference forms the site uses: an absolute URL is
      taken as it is, "//host…" keeps only the scheme, "/path" keeps the origin, and any
      other reference is appended to the base directory. */
  function BuildAppUrl(baseUrl: string, ref: string): (r: string)
    ensures StartsWith(ref, "/") && !StartsWith(ref, "//") ==> r == Origin(baseUrl + "/") + ref
  {
    var base := baseUrl + "/";
    if HasScheme(ref) then ref
    else if StartsWith(ref, "//") then base[..Min(IndexOf(base, ':') + 1, |base|)] + ref
    else if StartsWith(ref, "/") then Origin(base) + ref
    else base + ref
  }

  /** The verification redirects land on the base URL's own origin. */
  lemma RedirectStaysOnOrigin(proto: string, host: string, path: string)
    requires proto != [] && ':' !in proto && '/' !in proto
    requires '/' !in host
    requires StartsWith(path, "/") && !StartsWith(path, "//")
    ensures BuildAppUrl(proto + "://" + host, path) == proto + "://" + host + path
  {
    var base := proto + "://" + host + "/";
    assert base[|proto|] == ':';
    assert IndexOf(base, ':') == |proto|;
    assert base[|proto|..|proto| + 3] == "://";
    var rest := base[|proto| + 3..];
    assert rest == host + "/";
    assert rest[|host|] == '/';
    assert IndexOf(rest, '/') == |host|;
    assert base[..|proto| + 3 + |host|] == proto + "://" + host;
  }
}
