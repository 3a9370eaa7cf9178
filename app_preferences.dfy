/**
 * AppPreferences (Android): the developer settings kept in the app's default shared
 * preferences. Most setters write one key; `setDevMode` writes three together, the
 * packager port defaults to 8083, the Metro host falls back to the app URL, and
 * `updatePackagerHost` writes the host only when the URL parses.
 */
module AppPreferences {
  import opened Wrappers
  import opened Text
  import AppUrl

  const LaunchUrlKey: string := "MX_APP_URL"
  const DevModeKey: string := "MX_DEV_MODE"
  const PackagerPortKey: string := "REMOTE_DEBUGGING_PACKAGER_PORT"
  const ServerHostKey: string := "debug_http_host"
  const RemoteJsDebugKey: string := "remote_js_debug"
  const JsMinifyDebugKey: string := "js_minify_debug"
  const JsDevModeDebugKey: string := "js_dev_mode_debug"
  const JsBundleDeltasKey: string := "js_bundle_deltas"
  const InspectorDebugKey: string := "inspector_debug"

  const DefaultPackagerPort: int := 8083

  /** A stored preference value. */
  datatype Pref = PString(str: string) | PBool(flag: bool) | PInt(num: int)

  /** The keys this class reads and writes hold values of the kind it writes. */
  predicate WellTyped(store: map<string, Pref>) {
    (LaunchUrlKey in store ==> store[LaunchUrlKey].PString?)
    && (ServerHostKey in store ==> store[ServerHostKey].PString?)
    && (PackagerPortKey in store ==> store[PackagerPortKey].PInt?)
    && (DevModeKey in store ==> store[DevModeKey].PBool?)
    && (RemoteJsDebugKey in store ==> store[RemoteJsDebugKey].PBool?)
    && (InspectorDebugKey in store ==> store[InspectorDebugKey].PBool?)
    && (JsMinifyDebugKey in store ==> store[JsMinifyDebugKey].PBool?)
    && (JsDevModeDebugKey in store ==> store[JsDevModeDebugKey].PBool?)
    && (JsBundleDeltasKey in store ==> store[JsBundleDeltasKey].PBool?)
  }

  /** `getString(key, default)`: the stored string, or the default when the key is absent. */
  function StringOr(store: map<string, Pref>, key: string, default: string): (r: string)
    requires key in store ==> store[key].PString?
    ensures key !in store ==> r == default
    ensures key in store ==> store[key] == PString(r)
  {
    if key in store then store[key].str else default
  }

  /** `getBoolean(key, default)`. */
  function BoolOr(store: map<string, Pref>, key: string, default: bool): (r: bool)
    requires key in store ==> store[key].PBool?
    ensures key !in store ==> r == default
    ensures key in store ==> store[key] == PBool(r)
  {
    if key in store then store[key].flag else default
  }

  /** `getInt(key, default)`. */
  function IntOr(store: map<string, Pref>, key: string, default: int): (r: int)
    requires key in store ==> store[key].PInt?
    ensures key !in store ==> r == default
    ensures key in store ==> store[key] == PInt(r)
  {
    if key in store then store[key].num else default
  }

  /** A write is read back, and leaves every other key as it was. */
  lemma PutThenGet(store: map<string, Pref>, key: string, value: Pref, other: string)
    requires other != key
    ensures key in store[key := value] && store[key := value][key] == value
    ensures (other in store[key := value]) == (other in store)
    ensures other in store ==> store[key := value][other] == store[other]
  {
  }

  /** Writing a key with the kind `WellTyped` expects keeps the store well typed. */
  lemma PutKeepsWellTyped(store: map<string, Pref>, key: string, value: Pref)
    requires WellTyped(store)
    requires key in {LaunchUrlKey, ServerHostKey} ==> value.PString?
    requires key == PackagerPortKey ==> value.PInt?
    requires key in {DevModeKey, RemoteJsDebugKey, InspectorDebugKey, JsMinifyDebugKey, JsDevModeDebugKey, JsBundleDeltasKey} ==> value.PBool?
    ensures WellTyped(store[key := value])
  {
  }

  /** The preferences object over the shared-preferences store. */
  class Preferences {
    var store: map<string, Pref>

    predicate Valid()
      reads this
    {
      WellTyped(store)
    }

    /** The store as the app finds it. */
    constructor (initial: map<string, Pref>)
      requires WellTyped(initial)
      ensures store == initial && Valid()
    {
      store := initial;
    }

    /** `getAppUrl()`: "" when never set. */
    function GetAppUrl(): (r: string)
      requires Valid()
      reads this
      ensures LaunchUrlKey !in store ==> r == ""
      ensures LaunchUrlKey in store ==> store[LaunchUrlKey] == PString(r)
    {
      StringOr(store, LaunchUrlKey, "")
    }

    /** `setAppUrl`: the URL is trimmed and given a scheme before it is stored. */
    method SetAppUrl(appUrl: string)
      requires Valid()
      modifies this
      ensures store == old(store)[LaunchUrlKey := PString(AppUrl.JavaEnsureProtocol(Trim(appUrl, IsJavaTrimmed)))]
      ensures Valid()
      ensures StartsWith(GetAppUrl(), "http://") || StartsWith(GetAppUrl(), "https://")
    {
      store := store[LaunchUrlKey := PString(AppUrl.JavaEnsureProtocol(Trim(appUrl, IsJavaTrimmed)))];
    }

    method SetRemoteDebugging(enabled: bool)
      requires Valid()
      modifies this
      ensures store == old(store)[RemoteJsDebugKey := PBool(enabled)]
      ensures Valid() && IsRemoteJsDebugEnabled() == enabled
    {
      store := store[RemoteJsDebugKey := PBool(enabled)];
    }

    /** `setDevMode`: dev mode, the dev-mode bundle flag and, negated, the minify flag. */
    method SetDevMode(devMode: bool)
      requires Valid()
      modifies this
      ensures store == old(store)[DevModeKey := PBool(devMode)][JsDevModeDebugKey := PBool(devMode)][JsMinifyDebugKey := PBool(!devMode)]
      ensures Valid()
      ensures IsDevModeEnabled() == devMode
      ensures BoolOr(store, JsDevModeDebugKey, false) == devMode && BoolOr(store, JsMinifyDebugKey, false) == !devMode
      ensures forall k :: k !in {DevModeKey, JsDevModeDebugKey, JsMinifyDebugKey} ==>
        (k in store <==> k in old(store)) && (k in store ==> store[k] == old(store)[k])
    {
      store := store[DevModeKey := PBool(devMode)];
      SetDevModeBundle(devMode);
      SetJsMinifyBundle(!devMode);
    }

    method SetDeltas(enabled: bool)
      requires Valid()
      modifies this
      ensures store == old(store)[JsBundleDeltasKey := PBool(enabled)]
      ensures Valid()
    {
      store := store[JsBundleDeltasKey := PBool(enabled)];
    }

    /** `isDevModeEnabled()`: false when never set. */
    function IsDevModeEnabled(): (r: bool)
      requires Valid()
      reads this
      ensures DevModeKey !in store ==> !r
      ensures DevModeKey in store ==> store[DevModeKey] == PBool(r)
    {
      BoolOr(store, DevModeKey, false)
    }

    method SetRemoteDebuggingPackagerPort(port: int)
      requires Valid()
      modifies this
      ensures store == old(store)[PackagerPortKey := PInt(port)]
      ensures Valid() && GetPackagerPort() == port
    {
      store := store[PackagerPortKey := PInt(port)];
    }

    /** `getPackagerPort()`: 8083 when never set. */
    function GetPackagerPort(): (r: int)
      requires Valid()
      reads this
      ensures PackagerPortKey !in store ==> r == DefaultPackagerPort
      ensures PackagerPortKey in store ==> store[PackagerPortKey] == PInt(r)
    {
      IntOr(store, PackagerPortKey, DefaultPackagerPort)
    }

    /** `getMetroBundlerHost()`: the stored packager host, and else the app URL. */
    function GetMetroBundlerHost(): (r: string)
      requires Valid()
      reads this
      ensures ServerHostKey !in store ==> r == GetAppUrl()
      ensures ServerHostKey in store ==> store[ServerHostKey] == PString(r)
    {
      StringOr(store, ServerHostKey, GetAppUrl())
    }

    method SetElementInspector(enabled: bool)
      requires Valid()
      modifies this
      ensures store == old(store)[InspectorDebugKey := PBool(enabled)]
      ensures Valid() && IsElementInspectorEnabled() == enabled
    {
      store := store[InspectorDebugKey := PBool(enabled)];
    }

    function IsElementInspectorEnabled(): (r: bool)
      requires Valid()
      reads this
      ensures InspectorDebugKey !in store ==> !r
      ensures InspectorDebugKey in store ==> store[InspectorDebugKey] == PBool(r)
    {
      BoolOr(store, InspectorDebugKey, false)
    }

    function IsRemoteJsDebugEnabled(): (r: bool)
      requires Valid()
      reads this
      ensures RemoteJsDebugKey !in store ==> !r
      ensures RemoteJsDebugKey in store ==> store[RemoteJsDebugKey] == PBool(r)
    {
      BoolOr(store, RemoteJsDebugKey, false)
    }

    method SetDevModeBundle(enabled: bool)
      requires Valid()
      modifies this
      ensures store == old(store)[JsDevModeDebugKey := PBool(enabled)]
      ensures Valid()
    {
      store := store[JsDevModeDebugKey := PBool(enabled)];
    }

    method SetJsMinifyBundle(enabled: bool)
      requires Valid()
      modifies this
      ensures store == old(store)[JsMinifyDebugKey := PBool(enabled)]
      ensures Valid()
    {
      store := store[JsMinifyDebugKey := PBool(enabled)];
    }

    /**
     * `updatePackagerHost`: `uriHost` is `URI.create` followed by `getHost()` (None when it
     * throws, `Some(None)` for a URI without a host). On success the host and the packager
     * port are stored as "host:port" and the result is true; when it throws nothing is
     * written and the result is false.
     */
    method UpdatePackagerHost(appUrl: string, uriHost: string -> Option<Option<string>>) returns (ok: bool)
      requires Valid()
      modifies this
      ensures ok <==> uriHost(AppUrl.JavaEnsureProtocol(appUrl)).Some?
      ensures !ok ==> store == old(store)
      ensures ok ==> store == old(store)[ServerHostKey := PString(AppUrl.JavaForBundle(uriHost(AppUrl.JavaEnsureProtocol(appUrl)).value, old(GetPackagerPort())))]
      ensures Valid()
      ensures ok ==> GetMetroBundlerHost() == AppUrl.JavaForBundle(uriHost(AppUrl.JavaEnsureProtocol(appUrl)).value, GetPackagerPort())
    {
      var uri := uriHost(AppUrl.JavaEnsureProtocol(appUrl));
      if uri.None? {
        return false;
      }
      var port := GetPackagerPort();
      store := store[ServerHostKey := PString(AppUrl.JavaForBundle(uri.value, port))];
      return true;
    }
  }
}
