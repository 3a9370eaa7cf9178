/**
 * AppUrl: the normalisation of the runtime URL the user enters (scheme, trailing slash,
 * port) and the URLs derived from it, on iOS (`AppUrl.swift`) and Android (`AppUrl.java`).
 * The two platforms normalise differently: iOS trims whitespace and newlines before
 * removing a slash and only tests the scheme as a prefix; Java removes the slash
 * without trimming and tests the whole string against `https?://.*`, whose `.` does
 * not match a line terminator.
 */
module AppUrl {
  import opened Wrappers
  import opened Text

  // iOS (AppUrl.swift).

  const DefaultPackagerPort: int := 8083
  const QueryForDevMode: string := "platform=ios&dev=true&minify=false"
  const QueryProduction: string := "platform=ios&dev=false&minify=true"
  const DefaultUrlString: string := "http://localhost:8080"

  /** `UrlPath` and its raw values. */
  datatype UrlPath = Runtime | Validation | RuntimeInfo | PackagerStatus | Bundle

  function RawValue(p: UrlPath): (r: string)
    ensures r == "" <==> p == Validation
    ensures r != "" ==> r[0] == '/'
  {
    match p
    case Runtime => "/"
    case Validation => ""
    case RuntimeInfo => "/xas/"
    case PackagerStatus => "/status"
    case Bundle => "/index.bundle"
  }

  /** `UrlPath(rawValue:)`, the decoding direction of the raw values. */
  function FromRawValue(s: string): (r: Option<UrlPath>)
    ensures r.Some? ==> RawValue(r.value) == s
  {
    if s == "/" then Some(Runtime)
    else if s == "" then Some(Validation)
    else if s == "/xas/" then Some(RuntimeInfo)
    else if s == "/status" then Some(PackagerStatus)
    else if s == "/index.bundle" then Some(Bundle)
    else None
  }

  /** Every path decodes from its raw value, so distinct paths have distinct raw values. */
  lemma RawValueRoundTrip(p: UrlPath)
    ensures FromRawValue(RawValue(p)) == Some(p)
  {
    match p
    case Runtime =>
    case Validation =>
    case RuntimeInfo => assert "/xas/" != "/";
    case PackagerStatus => assert "/status" != "/" && "/status" != "/xas/";
    case Bundle => assert "/index.bundle" != "/" && "/index.bundle" != "/xas/" && "/index.bundle" != "/status";
  }

  /**
   * The parts of `URLComponents` the module reads or sets. `authority` stands for all
   * the rest (scheme, host, user), which the module passes through untouched.
   */
  datatype UrlComponents = UrlComponents(authority: string, path: string, port: Option<int>, query: Option<string>)

  /** `queryItems?.isEmpty ?? true`: no query, or an empty one. */
  predicate HasNoQueryItems(c: UrlComponents) {
    c.query.None? || c.query == Some("")
  }

  /** `ensurePort`: 0 stands for "unset" and becomes the default packager port. */
  function EnsurePort(port: int): (r: int)
    ensures r != 0
    ensures port != 0 ==> r == port
    ensures port == 0 ==> r == DefaultPackagerPort
  {
    if port != 0 then port else DefaultPackagerPort
  }

  lemma EnsurePortIdempotent(port: int)
    ensures EnsurePort(EnsurePort(port)) == EnsurePort(port)
  {
  }

  /** iOS `ensureProtocol`: a string with an http or https scheme is kept, any other gets "http://". */
  function IosEnsureProtocol(url: string): (r: string)
    ensures StartsWith(r, "http://") || StartsWith(r, "https://")
    ensures (StartsWith(url, "http://") || StartsWith(url, "https://")) ==> r == url
    ensures !(StartsWith(url, "http://") || StartsWith(url, "https://")) ==> r == "http://" + url
  {
    if StartsWith(url, "http://") || StartsWith(url, "https://") then url
    else
      assert ("http://" + url)[..7] == "http://";
      "http://" + url
  }

  lemma IosEnsureProtocolIdempotent(url: string)
    ensures IosEnsureProtocol(IosEnsureProtocol(url)) == IosEnsureProtocol(url)
  {
  }

  /**
   * iOS `removeTrailingSlash`: trims whitespace and newlines, then drops one trailing
   * slash, if there is one.
   */
  function IosRemoveTrailingSlash(url: string): (r: string)
    ensures var t := Trim(url, IsSwiftWhitespaceOrNewline);
      (EndsWith(t, "/") ==> r + "/" == t) && (!EndsWith(t, "/") ==> r == t)
  {
    var t := Trim(url, IsSwiftWhitespaceOrNewline);
    if EndsWith(t, "/") then
      assert t[..|t| - 1] + "/" == t;
      t[..|t| - 1]
    else t
  }

  /** `ensureProtocol(removeTrailingSlash(url))`, the first step of `createUrl` and `isValid`. */
  function IosProcessed(url: string): (r: string)
    ensures StartsWith(r, "http://") || StartsWith(r, "https://")
  {
    IosEnsureProtocol(IosRemoveTrailingSlash(url))
  }

  /**
   * `isValid`: a non-blank URL that, normalised, parses and has neither query items nor a
   * path beyond "/". `parse` is Foundation's `URLComponents(string:)`.
   */
  function IsValid(parse: string -> Option<UrlComponents>, url: string): (r: bool)
    ensures Trim(url, IsSwiftWhitespace) == "" ==> !r
    ensures r <==> (Trim(url, IsSwiftWhitespace) != "" &&
      match parse(IosProcessed(Trim(url, IsSwiftWhitespace)))
      case None => false
      case Some(c) => HasNoQueryItems(c) && (c.path == "" || c.path == "/"))
  {
    var trimmed := Trim(url, IsSwiftWhitespace);
    if |trimmed| < 1 then false
    else
      match parse(IosProcessed(trimmed))
      case None => false
      case Some(c) => HasNoQueryItems(c) && (c.path == "" || c.path == "/")
  }

  /** Validity does not depend on surrounding spaces and tabs. */
  lemma IsValidIgnoresSpaces(parse: string -> Option<UrlComponents>, url: string)
    ensures IsValid(parse, Trim(url, IsSwiftWhitespace)) == IsValid(parse, url)
  {
    TrimIdempotent(url, IsSwiftWhitespace);
  }

  /** A blank URL is never valid, whatever the parser says. */
  lemma BlankIsInvalid(parse: string -> Option<UrlComponents>, url: string)
    requires forall c :: c in url ==> IsSwiftWhitespace(c)
    ensures !IsValid(parse, url)
  {
  }

  /**
   * `createUrl`: the components of the normalised URL, or of the default URL when it does
   * not parse; then the path (appended or replaced), the port (through `ensurePort`) and
   * the query, each only when given. None when neither parses. `URL(string:
   * components.string)` is taken to give back the same components.
   */
  function CreateUrl(parse: string -> Option<UrlComponents>, url: string, path: Option<UrlPath>,
                     port: Option<int>, query: Option<string>, concatPath: bool): (r: Option<UrlComponents>)
    ensures r.None? <==> parse(IosProcessed(url)).None? && parse(DefaultUrlString).None?
    ensures r.Some? ==>
      var base := if parse(IosProcessed(url)).Some? then parse(IosProcessed(url)).value else parse(DefaultUrlString).value;
      r.value.authority == base.authority &&
      r.value.path == (if path.None? then base.path else if concatPath then base.path + RawValue(path.value) else RawValue(path.value)) &&
      r.value.port == (if port.None? then base.port else Some(EnsurePort(port.value))) &&
      r.value.query == (if query.None? then base.query else query)
  {
    var base := if parse(IosProcessed(url)).Some? then parse(IosProcessed(url)) else parse(DefaultUrlString);
    match base
    case None => None
    case Some(c) =>
      var c1 := if path.Some? then c.(path := if concatPath then c.path + RawValue(path.value) else RawValue(path.value)) else c;
      var c2 := if port.Some? then c1.(port := Some(EnsurePort(port.value))) else c1;
      var c3 := if query.Some? then c2.(query := query) else c2;
      Some(c3)
  }

  /** A string with no trimmable character at either end is its own trim. */
  lemma TrimOfUntrimmed(s: string, ws: char -> bool)
    requires |s| > 0 && !ws(s[0]) && !ws(s[|s| - 1])
    ensures Trim(s, ws) == s
  {
    assert SkipForward(s, ws, 0) == 0;
    assert SkipBackward(s, ws, |s|) == |s|;
    assert s[0..|s|] == s;
  }

  /** A URL with a scheme and no trailing slash or whitespace needs no normalisation. */
  lemma ProcessedOfNormal(s: string)
    requires |s| > 0 && !IsSwiftWhitespaceOrNewline(s[0])
    requires !IsSwiftWhitespaceOrNewline(s[|s| - 1]) && s[|s| - 1] != '/'
    requires StartsWith(s, "http://")
    ensures IosProcessed(s) == s
  {
    TrimOfUntrimmed(s, IsSwiftWhitespaceOrNewline);
    assert s[|s| - 1..] != "/";
  }

  /** The default URL needs no normalisation. */
  lemma DefaultIsNormalised()
    ensures IosProcessed(DefaultUrlString) == DefaultUrlString
  {
    var d := DefaultUrlString;
    assert d[0] == 'h' && d[|d| - 1] == '0';
    assert d[..7] == "http://";
    ProcessedOfNormal(d);
  }

  /** An unparsable URL silently becomes the default one, with the requested path, port and query. */
  lemma UnparsableUrlUsesDefault(parse: string -> Option<UrlComponents>, url: string, path: Option<UrlPath>,
                                 port: Option<int>, query: Option<string>, concatPath: bool)
    requires parse(IosProcessed(url)).None? && parse(DefaultUrlString).Some?
    ensures CreateUrl(parse, url, path, port, query, concatPath) == CreateUrl(parse, DefaultUrlString, path, port, query, concatPath)
  {
    DefaultIsNormalised();
  }

  /**
   * `forBundle`: "/index.bundle" appended to the path, the port made non-zero and the dev
   * query exactly when dev mode is on; `isDebuggingRemotely` plays no part. None stands
   * for the `fatalError`.
   */
  function ForBundle(parse: string -> Option<UrlComponents>, url: string, port: int,
                     isDebuggingRemotely: bool, isDevModeEnabled: bool): (r: Option<UrlComponents>)
    ensures r.Some? ==> EndsWith(r.value.path, "/index.bundle")
    ensures r.Some? ==> r.value.port == Some(EnsurePort(port)) && r.value.port != Some(0)
    ensures r.Some? ==> r.value.query == Some(if isDevModeEnabled then QueryForDevMode else QueryProduction)
    ensures r.None? <==> parse(IosProcessed(url)).None? && parse(DefaultUrlString).None?
  {
    var query := if isDevModeEnabled then QueryForDevMode else QueryProduction;
    var r := CreateUrl(parse, url, Some(Bundle), Some(port), Some(query), true);
    if r.Some? then
      assert r.value.path[|r.value.path| - |"/index.bundle"|..] == "/index.bundle";
      r
    else r
  }

  /** `forRuntime`: the path becomes "/", and nothing else is set. None stands for the `fatalError`. */
  function ForRuntime(parse: string -> Option<UrlComponents>, url: string): (r: Option<UrlComponents>)
    ensures r.Some? ==> r.value.path == "/"
    ensures r.Some? && parse(IosProcessed(url)).Some? ==>
      r.value == parse(IosProcessed(url)).value.(path := "/")
  {
    CreateUrl(parse, url, Some(Runtime), None, None, false)
  }

  /** `forValidation`: the path is cleared. */
  function ForValidation(parse: string -> Option<UrlComponents>, url: string): (r: Option<UrlComponents>)
    ensures r.Some? ==> r.value.path == ""
    ensures r.Some? && parse(IosProcessed(url)).Some? ==>
      r.value == parse(IosProcessed(url)).value.(path := "")
  {
    CreateUrl(parse, url, Some(Validation), None, None, false)
  }

  /** `forRuntimeInfo`: the path becomes "/xas/". */
  function ForRuntimeInfo(parse: string -> Option<UrlComponents>, url: string): (r: Option<UrlComponents>)
    ensures r.Some? ==> r.value.path == "/xas/"
    ensures r.Some? && parse(IosProcessed(url)).Some? ==>
      r.value == parse(IosProcessed(url)).value.(path := "/xas/")
  {
    CreateUrl(parse, url, Some(RuntimeInfo), None, None, false)
  }

  /** `forPackagerStatus`: the path becomes "/status" and the port is made non-zero. */
  function ForPackagerStatus(parse: string -> Option<UrlComponents>, url: string, port: int): (r: Option<UrlComponents>)
    ensures r.Some? ==> r.value.path == "/status" && r.value.port == Some(EnsurePort(port))
    ensures r.Some? && parse(IosProcessed(url)).Some? ==>
      r.value == parse(IosProcessed(url)).value.(path := "/status", port := Some(EnsurePort(port)))
  {
    CreateUrl(parse, url, Some(PackagerStatus), Some(port), None, false)
  }

  // Android (AppUrl.java).

  /** The line terminators of `java.util.regex`, which `.` does not match. */
  predicate IsJavaLineTerminator(c: char) {
    c == '\n' || c == '\r' || c == '\U{0085}' || c == '\U{2028}' || c == '\U{2029}'
  }

  predicate HasNoLineTerminator(s: string) {
    forall i :: 0 <= i < |s| ==> !IsJavaLineTerminator(s[i])
  }

  /** `url.matches("https?://.*")`. */
  predicate MatchesHttpScheme(url: string) {
    (StartsWith(url, "http://") && HasNoLineTerminator(url[7..]))
    || (StartsWith(url, "https://") && HasNoLineTerminator(url[8..]))
  }

  /** Java `removeTrailingSlash`: one trailing slash is dropped; there is no trimming. */
  function JavaRemoveTrailingSlash(url: string): (r: string)
    ensures EndsWith(url, "/") ==> r + "/" == url
    ensures !EndsWith(url, "/") ==> r == url
  {
    if EndsWith(url, "/") then
      assert url[..|url| - 1] + "/" == url;
      url[..|url| - 1]
    else url
  }

  /** Java `ensureProtocol`: "http://" is prepended to anything the pattern rejects. */
  function JavaEnsureProtocol(url: string): (r: string)
    ensures MatchesHttpScheme(url) ==> r == url
    ensures !MatchesHttpScheme(url) ==> r == "http://" + url
    ensures StartsWith(r, "http://") || StartsWith(r, "https://")
  {
    if MatchesHttpScheme(url) then url
    else
      assert ("http://" + url)[..7] == "http://";
      "http://" + url
  }

  /** Without line terminators the Java pattern and the iOS prefix test agree. */
  lemma EnsureProtocolPlatformsAgree(url: string)
    requires HasNoLineTerminator(url)
    ensures JavaEnsureProtocol(url) == IosEnsureProtocol(url)
  {
    if StartsWith(url, "http://") {
      assert HasNoLineTerminator(url[7..]) by {
        forall i | 0 <= i < |url[7..]| ensures !IsJavaLineTerminator(url[7..][i]) {
          assert url[7..][i] == url[i + 7];
        }
      }
    }
    if StartsWith(url, "https://") {
      assert HasNoLineTerminator(url[8..]) by {
        forall i | 0 <= i < |url[8..]| ensures !IsJavaLineTerminator(url[8..][i]) {
          assert url[8..][i] == url[i + 8];
        }
      }
    }
  }

  /** Appending "http://" keeps a string free of line terminators. */
  lemma WithSchemeHasNoLineTerminator(url: string)
    requires HasNoLineTerminator(url)
    ensures HasNoLineTerminator("http://" + url)
  {
    var s := "http://" + url;
    forall i | 0 <= i < |s| ensures !IsJavaLineTerminator(s[i]) {
      if i >= 7 {
        assert s[i] == url[i - 7];
      }
    }
  }

  /** On a URL without line terminators Java's `ensureProtocol` is idempotent. */
  lemma JavaEnsureProtocolIdempotent(url: string)
    requires HasNoLineTerminator(url)
    ensures JavaEnsureProtocol(JavaEnsureProtocol(url)) == JavaEnsureProtocol(url)
  {
    var r := JavaEnsureProtocol(url);
    if r != url {
      WithSchemeHasNoLineTerminator(url);
    }
    EnsureProtocolPlatformsAgree(r);
  }

  /**
   * A line break after the scheme defeats the pattern, so the scheme is prepended again,
   * and again on every further call.
   */
  lemma JavaEnsureProtocolNotIdempotentOnLineBreak()
    ensures JavaEnsureProtocol("http://a\nb") == "http://http://a\nb"
    ensures JavaEnsureProtocol(JavaEnsureProtocol("http://a\nb")) != JavaEnsureProtocol("http://a\nb")
  {
    var u := "http://a\nb";
    assert u[7..][1] == '\n';
    var v := "http://" + u;
    assert v[7..][8] == '\n';
    assert v[7] == 'h' && u[7] == 'a';
    assert v[..8] != "https://" && u[..8] != "https://";
  }

  /** Java `forRuntime`: the normalised URL followed by exactly one "/". */
  function JavaForRuntime(url: string): (r: string)
    ensures EndsWith(r, "/")
    ensures StartsWith(r, "http://") || StartsWith(r, "https://")
    ensures r == JavaEnsureProtocol(JavaRemoveTrailingSlash(url)) + "/"
  {
    var p := JavaEnsureProtocol(JavaRemoveTrailingSlash(url));
    assert (p + "/")[..|p|] == p;
    assert (p + "/")[|p|..] == "/";
    p + "/"
  }

  /** Dropping a slash keeps a string free of line terminators. */
  lemma RemoveSlashHasNoLineTerminator(url: string)
    requires HasNoLineTerminator(url)
    ensures HasNoLineTerminator(JavaRemoveTrailingSlash(url))
  {
    var r := JavaRemoveTrailingSlash(url);
    forall i | 0 <= i < |r| ensures !IsJavaLineTerminator(r[i]) {
      assert r[i] == url[i];
    }
  }

  /** A runtime URL is its own runtime URL when it has no line terminators. */
  lemma {:induction false} JavaForRuntimeIdempotent(url: string)
    requires HasNoLineTerminator(url)
    ensures JavaForRuntime(JavaForRuntime(url)) == JavaForRuntime(url)
  {
    var p := JavaEnsureProtocol(JavaRemoveTrailingSlash(url));
    RemoveSlashHasNoLineTerminator(url);
    JavaEnsureProtocolIdempotent(JavaRemoveTrailingSlash(url));
    assert JavaRemoveTrailingSlash(p + "/") == p by {
      assert (p + "/")[..|p + "/"| - 1] == p;
    }
  }

  /**
   * Java `forBundle`: `String.format("%s:%d", host, port)`. A missing host (`uri.getHost()`
   * is null) is formatted as "null".
   */
  function JavaForBundle(host: Option<string>, port: int): (r: string)
    ensures r == (if host.Some? then host.value else "null") + ":" + IntToString(port)
  {
    (if host.Some? then host.value else "null") + ":" + IntToString(port)
  }

  /** For one host, the bundle address identifies the port. */
  lemma JavaForBundleIdentifiesPort(host: Option<string>, p: int, q: int)
    requires JavaForBundle(host, p) == JavaForBundle(host, q)
    ensures p == q
  {
    var h := (if host.Some? then host.value else "null") + ":";
    assert JavaForBundle(host, p)[|h|..] == IntToString(p);
    assert JavaForBundle(host, q)[|h|..] == IntToString(q);
    IntToStringInjective(p, q);
  }

  // The platforms compared.

  /** iOS removes the slash Java would remove, after trimming whitespace and newlines. */
  lemma RemoveTrailingSlashIsJavaAfterTrim(url: string)
    ensures IosRemoveTrailingSlash(url) == JavaRemoveTrailingSlash(Trim(url, IsSwiftWhitespaceOrNewline))
  {
  }

  /** Surrounding spaces: iOS removes them and the slash, Java keeps both. */
  lemma RemoveTrailingSlashDiffersOnSpaces()
    ensures IosRemoveTrailingSlash(" a/ ") == "a"
    ensures JavaRemoveTrailingSlash(" a/ ") == " a/ "
  {
    var s := " a/ ";
    assert SkipForward(s, IsSwiftWhitespaceOrNewline, 0) == 1;
    assert SkipBackward(s, IsSwiftWhitespaceOrNewline, |s|) == 3;
    assert s[1..3] == "a/";
    assert Trim(s, IsSwiftWhitespaceOrNewline) == "a/";
    assert "a/"[..1] == "a";
  }

  /** Only one slash goes: "h//" becomes "h/" on both platforms. */
  lemma OnlyOneSlashRemoved()
    ensures JavaRemoveTrailingSlash("h//") == "h/"
    ensures IosRemoveTrailingSlash("h//") == "h/"
  {
    var s := "h//";
    assert SkipForward(s, IsSwiftWhitespaceOrNewline, 0) == 0;
    assert SkipBackward(s, IsSwiftWhitespaceOrNewline, |s|) == 3;
    assert s[0..3] == s;
    assert s[..2] == "h/";
  }
}
