/**
 * Choosing the JavaScript bundle at start-up: the OTA bundle the manifest names when
 * it was deployed for this exact app version and is present, the bundle shipped with
 * the app otherwise. Android's `OtaJSBundleUrlProvider.getJSBundleFile`, iOS's
 * `OtaJSBundleFileProvider.getBundleUrl` and `BundleHelper.getJSBundleFile`.
 */
module BundleResolver {
  import opened Wrappers
  import opened Text
  import opened Json
  import opened FileTree
  import opened Platform
  import opened OtaHelpers
  import opened OtaManifest
  import OtaAndroid
  import OtaIos

  // Android.

  /**
   * `getJSBundleFile`: none unless the manifest exists, reads as a manifest, was
   * written for `appVersion` and names a bundle that exists; then that bundle's
   * absolute path.
   */
  function AndroidBundleFile(t: Tree, c: Codecs, otaDir: Path, appVersion: string): (r: Option<Path>)
    requires IsDirPath(otaDir) && otaDir[0] == '/'
    ensures r.Some? <==>
      Canon(AndroidManifestPath(otaDir)) in t &&
      OtaAndroid.OldManifestOf(t, c, otaDir).Some? &&
      OtaAndroid.OldManifestOf(t, c, otaDir).value.appVersion == appVersion &&
      Canon(AndroidResolve(otaDir, OtaAndroid.OldManifestOf(t, c, otaDir).value.relativeBundlePath)) in t
    ensures r.Some? ==> r.value == AndroidResolve(otaDir, OtaAndroid.OldManifestOf(t, c, otaDir).value.relativeBundlePath)
    ensures r.Some? ==> r.value == otaDir || StartsWith(r.value, otaDir + "/")
  {
    if Canon(AndroidManifestPath(otaDir)) !in t then None
    else match OtaAndroid.OldManifestOf(t, c, otaDir)
      case None => None
      case Some(m) =>
        if m.appVersion != appVersion then None
        else
          var bundlePath := AndroidResolve(otaDir, m.relativeBundlePath);
          if Canon(bundlePath) !in t then None else Some(bundlePath)
  }

  /** A manifest from another app version is never used, whatever the tree holds besides. */
  lemma AndroidVersionMismatchFallsBack(t: Tree, c: Codecs, otaDir: Path, appVersion: string)
    requires IsDirPath(otaDir) && otaDir[0] == '/'
    requires OtaAndroid.OldManifestOf(t, c, otaDir).Some? && OtaAndroid.OldManifestOf(t, c, otaDir).value.appVersion != appVersion
    ensures AndroidBundleFile(t, c, otaDir, appVersion).None?
  {
  }

  /**
   * After a successful deploy, and as long as the unpacked archive held the bundle,
   * the next start picks the bundle in the new extraction directory.
   */
  lemma AndroidDeployThenResolve(t: Tree, u: set<Path>, c: Codecs, otaDir: Path, appVersion: string,
                                 config: map<string, Value>)
    requires IsDirPath(otaDir) && otaDir[0] == '/'
    requires JsonRoundTrips(c)
    requires OtaAndroid.DeploySpec(t, u, c, otaDir, appVersion, config).0.Resolved?
    requires var d := OtaAndroid.ReadDeployConfig(config).value;
      var removed := OtaAndroid.RemovedBundleDir(OtaAndroid.OldManifestOf(t, c, otaDir), otaDir, d.otaDeploymentID);
      Canon(OtaAndroid.PackagePath(otaDir, d)) != Canon(AndroidManifestPath(otaDir)) &&
      (removed.Some? ==> !Within(Canon(AndroidManifestPath(otaDir)), Canon(removed.value)))
    requires var ext := OtaAndroid.ExtractionPath(otaDir, OtaAndroid.ReadDeployConfig(config).value);
      Canon(ext + "/" + OtaAndroid.BundleFileName) in OtaAndroid.DeploySpec(t, u, c, otaDir, appVersion, config).1
    ensures var ext := OtaAndroid.ExtractionPath(otaDir, OtaAndroid.ReadDeployConfig(config).value);
      AndroidBundleFile(OtaAndroid.DeploySpec(t, u, c, otaDir, appVersion, config).1, c, otaDir, appVersion) ==
        Some(ext + "/" + OtaAndroid.BundleFileName)
  {
    var d := OtaAndroid.ReadDeployConfig(config).value;
    var after := OtaAndroid.DeploySpec(t, u, c, otaDir, appVersion, config).1;
    OtaAndroid.DeployedManifestReadsBack(t, u, c, otaDir, appVersion, config);
    OtaAndroid.BundlePathLocatesBundle(otaDir, OtaAndroid.ExtractionPath(otaDir, d));
    assert OtaAndroid.PlainContents(after, AndroidManifestPath(otaDir)).Some?;
  }

  // iOS.

  /**
   * `getBundleUrl`: none unless the manifest exists, reads as a dictionary, holds the
   * string app version `appVersion` and a string bundle path whose file exists; then
   * what `encode` (percent-encoding for a URL query and `URL(string:)`) makes of
   * that file's path.
   */
  function IosBundleUrl(t: Tree, c: Codecs, otaDir: string, layout: IosLayout, appVersion: string,
                        encode: string -> Option<string>): (r: Option<string>)
    ensures r.Some? ==>
      Canon(IosManifestPath(otaDir, layout)) in t &&
      OtaIos.OldManifestOf(t, c, otaDir, layout).Some? &&
      StringMember(OtaIos.OldManifestOf(t, c, otaDir, layout).value, AppVersionKey) == Some(appVersion) &&
      StringMember(OtaIos.OldManifestOf(t, c, otaDir, layout).value, BundlePathKey).Some? &&
      var bundlePath := IosResolve(otaDir, "/" + StringMember(OtaIos.OldManifestOf(t, c, otaDir, layout).value, BundlePathKey).value);
      Canon(bundlePath) in t && r == encode(bundlePath)
    ensures (OtaIos.OldManifestOf(t, c, otaDir, layout).Some? &&
             StringMember(OtaIos.OldManifestOf(t, c, otaDir, layout).value, AppVersionKey) == Some(appVersion) &&
             StringMember(OtaIos.OldManifestOf(t, c, otaDir, layout).value, BundlePathKey).Some? &&
             Canon(IosResolve(otaDir, "/" + StringMember(OtaIos.OldManifestOf(t, c, otaDir, layout).value, BundlePathKey).value)) in t) ==>
      r == encode(IosResolve(otaDir, "/" + StringMember(OtaIos.OldManifestOf(t, c, otaDir, layout).value, BundlePathKey).value))
  {
    if Canon(IosManifestPath(otaDir, layout)) !in t then None
    else match OtaIos.OldManifestOf(t, c, otaDir, layout)
      case None => None
      case Some(manifest) =>
        if StringMember(manifest, AppVersionKey) != Some(appVersion) then None
        else match StringMember(manifest, BundlePathKey)
          case None => None
          case Some(relativeBundlePath) =>
            var bundlePath := IosResolve(otaDir, "/" + relativeBundlePath);
            if Canon(bundlePath) !in t then None else encode(bundlePath)
  }

  /** `hasNativeOtaBundle()`: the manifest's contents can be read, i.e. it is a file. */
  function HasNativeOtaBundle(t: Tree, otaDir: string, layout: IosLayout): (b: bool)
    ensures b <==> OtaIos.FileContents(t, IosManifestPath(otaDir, layout)).Some?
  {
    IsFileIn(t, Canon(IosManifestPath(otaDir, layout)))
  }

  /**
   * `BundleHelper.getJSBundleFile()`: the OTA bundle's URL when there is an OTA
   * manifest and `getBundleUrl()` gives one, `shipped` (the app's own
   * `Bundle/index.ios.bundle`) otherwise.
   */
  function IosJsBundleFile(t: Tree, c: Codecs, otaDir: string, layout: IosLayout, appVersion: string,
                           encode: string -> Option<string>, shipped: Option<string>): (r: Option<string>)
    ensures !HasNativeOtaBundle(t, otaDir, layout) ==> r == shipped
  {
    if HasNativeOtaBundle(t, otaDir, layout) && IosBundleUrl(t, c, otaDir, layout, appVersion, encode).Some? then
      IosBundleUrl(t, c, otaDir, layout, appVersion, encode)
    else shipped
  }

  /** `getBundleUrl()` only yields a URL when the manifest is readable, so the `hasNativeOtaBundle()` guard never changes the choice. */
  lemma OtaBundlePreferred(t: Tree, c: Codecs, otaDir: string, layout: IosLayout, appVersion: string,
                           encode: string -> Option<string>, shipped: Option<string>)
    ensures IosJsBundleFile(t, c, otaDir, layout, appVersion, encode, shipped) ==
      if IosBundleUrl(t, c, otaDir, layout, appVersion, encode).Some? then IosBundleUrl(t, c, otaDir, layout, appVersion, encode)
      else shipped
  {
    if IosBundleUrl(t, c, otaDir, layout, appVersion, encode).Some? {
      var m := OtaIos.OldManifestOf(t, c, otaDir, layout);
      assert OtaIos.FileContents(t, IosManifestPath(otaDir, layout)).Some?;
    }
  }

  /**
   * After a successful deploy, and as long as the unpacked archive held the bundle,
   * the next start picks the bundle in the new extraction directory.
   */
  lemma IosDeployThenResolve(t: Tree, u: set<Path>, c: Codecs, otaDir: Path, layout: IosLayout, appVersion: string,
                             config: map<string, Value>, encode: string -> Option<string>)
    requires JsonRoundTrips(c)
    requires OtaIos.DeploySpec(t, u, c, otaDir, layout, appVersion, config).0.Resolved?
    requires var d := OtaIos.ReadDeployConfig(config).value;
      var removed := OtaIos.RemovedBundleDir(OtaIos.OldManifestOf(t, c, otaDir, layout), otaDir, d.otaDeploymentID);
      var manifest := Canon(IosManifestPath(otaDir, layout));
      !Within(manifest, Canon(IosResolve(otaDir, "/" + d.otaPackage))) &&
      (removed.Some? ==> !Within(manifest, Canon(removed.value)))
    requires var ext := IosResolve(otaDir, "/" + OtaIos.ReadDeployConfig(config).value.extractionDir);
      Canon(ext + "/" + OtaIos.BundleFileName) in OtaIos.DeploySpec(t, u, c, otaDir, layout, appVersion, config).1
    ensures var ext := IosResolve(otaDir, "/" + OtaIos.ReadDeployConfig(config).value.extractionDir);
      IosBundleUrl(OtaIos.DeploySpec(t, u, c, otaDir, layout, appVersion, config).1, c, otaDir, layout, appVersion, encode) ==
        encode(ext + "/" + OtaIos.BundleFileName)
  {
    var d := OtaIos.ReadDeployConfig(config).value;
    var after := OtaIos.DeploySpec(t, u, c, otaDir, layout, appVersion, config).1;
    assert OtaIos.OldManifestOf(after, c, otaDir, layout) == Some(ToMap(OtaIos.NewManifest(appVersion, d))) by {
      OtaIos.DeployedManifestReadsBack(t, u, c, otaDir, layout, appVersion, config);
    }
    NewManifestResolves(after, c, otaDir, layout, appVersion, encode, d);
  }

  /** The manifest a deploy writes resolves to the bundle in its extraction directory. */
  lemma NewManifestResolves(t: Tree, c: Codecs, otaDir: string, layout: IosLayout, appVersion: string,
                            encode: string -> Option<string>, d: OtaIos.DeployConfig)
    requires OtaIos.OldManifestOf(t, c, otaDir, layout) == Some(ToMap(OtaIos.NewManifest(appVersion, d)))
    requires Canon(IosResolve(otaDir, "/" + d.extractionDir) + "/" + OtaIos.BundleFileName) in t
    ensures IosBundleUrl(t, c, otaDir, layout, appVersion, encode) ==
      encode(IosResolve(otaDir, "/" + d.extractionDir) + "/" + OtaIos.BundleFileName)
  {
    var m := OtaIos.NewManifest(appVersion, d);
    assert IosResolve(otaDir, "/" + m.relativeBundlePath) == IosResolve(otaDir, "/" + d.extractionDir) + "/" + OtaIos.BundleFileName by {
      Regroup(otaDir, "/", d.extractionDir, OtaIos.BundleFileName);
    }
    ManifestBundleResolves(t, c, otaDir, layout, appVersion, encode, m);
  }

  lemma Regroup(a: string, sep: string, b: string, c: string)
    ensures a + (sep + (b + sep + c)) == a + sep + b + sep + c
  {
  }

  /** A readable manifest for this app version whose bundle exists resolves to that bundle. */
  lemma ManifestBundleResolves(t: Tree, c: Codecs, otaDir: string, layout: IosLayout, appVersion: string,
                               encode: string -> Option<string>, m: Manifest)
    requires OtaIos.OldManifestOf(t, c, otaDir, layout) == Some(ToMap(m)) && m.appVersion == appVersion
    requires Canon(IosResolve(otaDir, "/" + m.relativeBundlePath)) in t
    ensures IosBundleUrl(t, c, otaDir, layout, appVersion, encode) == encode(IosResolve(otaDir, "/" + m.relativeBundlePath))
  {
    assert StringMember(ToMap(m), AppVersionKey) == Some(appVersion);
    assert StringMember(ToMap(m), BundlePathKey) == Some(m.relativeBundlePath);
    assert OtaIos.FileContents(t, IosManifestPath(otaDir, layout)).Some?;
  }
}
