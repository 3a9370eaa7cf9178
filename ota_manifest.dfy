/**
 * The OTA manifest: the three-field record both platforms store in manifest.json, the
 * map Android writes (`toHasMap`), Android's partial decoder (`readManifestJson`) and
 * iOS's dictionary reader (`readManifestAsDictionary`).
 */
module OtaManifest {
  import opened Wrappers
  import opened Json
  import opened FileTree
  import opened Platform
  import opened Text

  const IdKey: string := "otaDeploymentID"
  const BundlePathKey: string := "relativeBundlePath"
  const AppVersionKey: string := "appVersion"

  datatype Manifest = Manifest(otaDeploymentID: string, relativeBundlePath: string, appVersion: string)

  /** `OtaManifest.toHasMap()`: exactly the three keys, each holding its field as a string. */
  function ToMap(m: Manifest): (fields: map<string, Value>)
    ensures fields.Keys == {IdKey, BundlePathKey, AppVersionKey}
    ensures fields[IdKey] == JString(m.otaDeploymentID)
    ensures fields[BundlePathKey] == JString(m.relativeBundlePath)
    ensures fields[AppVersionKey] == JString(m.appVersion)
  {
    map[IdKey := JString(m.otaDeploymentID),
        BundlePathKey := JString(m.relativeBundlePath),
        AppVersionKey := JString(m.appVersion)]
  }

  /** The bytes `writeUnencryptedJson` / `JSONSerialization.data` produce for a manifest. */
  function ManifestBytes(c: Codecs, m: Manifest): Bytes {
    c.printJson(JObject(ToMap(m)))
  }

  /** The three members org.json's `getString` reads, or none when one is missing. */
  function ManifestFromObject(fields: map<string, Value>, compact: Value -> string): (r: Option<Manifest>)
    ensures r.Some? <==> IdKey in fields && BundlePathKey in fields && AppVersionKey in fields
    ensures r.Some? ==>
      Some(r.value.otaDeploymentID) == CoercedStringMember(fields, IdKey, compact) &&
      Some(r.value.relativeBundlePath) == CoercedStringMember(fields, BundlePathKey, compact) &&
      Some(r.value.appVersion) == CoercedStringMember(fields, AppVersionKey, compact)
  {
    var id := CoercedStringMember(fields, IdKey, compact);
    var path := CoercedStringMember(fields, BundlePathKey, compact);
    var version := CoercedStringMember(fields, AppVersionKey, compact);
    if id.Some? && path.Some? && version.Some? then Some(Manifest(id.value, path.value, version.value))
    else None
  }

  /**
   * `readManifestJson`: the manifest file's plain bytes (none when it cannot be read),
   * parsed as a JSON object; any failure gives none.
   */
  function ReadManifestJson(contents: Option<Bytes>, c: Codecs): (r: Option<Manifest>)
    ensures contents.None? ==> r.None?
    ensures r.Some? ==> (exists fields :: c.parseJson(contents.value) == Some(JObject(fields)) &&
                                          r == ManifestFromObject(fields, c.compactJson))
    ensures contents.Some? && c.parseJson(contents.value).Some? && !c.parseJson(contents.value).value.JObject? ==> r.None?
  {
    match contents
    case None => None
    case Some(data) =>
      match c.parseJson(data)
      case Some(JObject(fields)) => ManifestFromObject(fields, c.compactJson)
      case _ => None
  }

  /** What Android writes, Android reads back (given a JSON codec that round-trips). */
  lemma ManifestRoundTrip(c: Codecs, m: Manifest)
    requires JsonRoundTrips(c)
    ensures ReadManifestJson(Some(ManifestBytes(c, m)), c) == Some(m)
  {
    assert c.parseJson(c.printJson(JObject(ToMap(m)))) == Some(JObject(ToMap(m)));
  }

  /** The decoder looks at the three keys only: objects that agree on them decode alike. */
  lemma ManifestIgnoresOtherKeys(a: map<string, Value>, b: map<string, Value>, compact: Value -> string)
    requires forall k :: k in {IdKey, BundlePathKey, AppVersionKey} ==> (k in a <==> k in b) && (k in a ==> a[k] == b[k])
    ensures ManifestFromObject(a, compact) == ManifestFromObject(b, compact)
  {
    assert IdKey in {IdKey, BundlePathKey, AppVersionKey};
    assert BundlePathKey in {IdKey, BundlePathKey, AppVersionKey};
    assert AppVersionKey in {IdKey, BundlePathKey, AppVersionKey};
  }

  /** `readManifestAsDictionary`: the manifest file's bytes parsed as a JSON object, or none. */
  function ReadManifestAsDictionary(contents: Option<Bytes>, c: Codecs): (r: Option<map<string, Value>>)
    ensures r.Some? <==> contents.Some? && c.parseJson(contents.value).Some? && c.parseJson(contents.value).value.JObject?
    ensures r.Some? ==> c.parseJson(contents.value) == Some(JObject(r.value))
  {
    match contents
    case None => None
    case Some(data) =>
      match c.parseJson(data)
      case Some(JObject(fields)) => Some(fields)
      case _ => None
  }

  /** The iOS reading of a manifest map (`as? String` on each key). */
  function IosManifest(fields: map<string, Value>): (r: Option<Manifest>)
    ensures r.Some? <==> (StringMember(fields, IdKey).Some? && StringMember(fields, BundlePathKey).Some? &&
                          StringMember(fields, AppVersionKey).Some?)
    ensures r.Some? ==> JObject(ToMap(r.value)) == JObject(map k | k in {IdKey, BundlePathKey, AppVersionKey} :: fields[k])
  {
    var id := StringMember(fields, IdKey);
    var path := StringMember(fields, BundlePathKey);
    var version := StringMember(fields, AppVersionKey);
    if id.Some? && path.Some? && version.Some? then
      var m := Manifest(id.value, path.value, version.value);
      assert ToMap(m) == map k | k in {IdKey, BundlePathKey, AppVersionKey} :: fields[k];
      Some(m)
    else None
  }

  /**
   * A manifest written by either platform reads back the same through the other's reader:
   * the iOS strict reading and the Android lenient one agree on every manifest map.
   */
  lemma ManifestReadersAgree(c: Codecs, m: Manifest)
    requires JsonRoundTrips(c)
    ensures ReadManifestAsDictionary(Some(ManifestBytes(c, m)), c) == Some(ToMap(m))
    ensures IosManifest(ToMap(m)) == Some(m)
    ensures ReadManifestJson(Some(ManifestBytes(c, m)), c) == Some(m)
  {
    ManifestRoundTrip(c, m);
  }

  /** Where the readers part: a numeric id is a manifest on Android and none on iOS. */
  lemma NumericIdReadsOnlyOnAndroid(fields: map<string, Value>, compact: Value -> string)
    requires fields == map[IdKey := JNumber(7), BundlePathKey := JString("a/index.bundle"), AppVersionKey := JString("1.0-1")]
    ensures IosManifest(fields).None?
    ensures ManifestFromObject(fields, compact) == Some(Manifest("7", "a/index.bundle", "1.0-1"))
  {
    assert IntToString(7) == "7" by {
      assert NatToString(7) == [DigitChar(7)];
    }
  }
}
