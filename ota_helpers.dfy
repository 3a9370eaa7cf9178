/**
 * Where the OTA machinery keeps its files and how it names the app version, on Android
 * (OtaHelpers.kt) and on iOS (OtaHelpers.swift).
 *
 * Android builds paths with java.io.File, which normalises them; iOS builds them by
 * string interpolation, which does not. The iOS constants OTA_DIR_NAME and
 * MANIFEST_FILE_NAME are declared in a header that is not part of this model, so the
 * iOS functions take them as a layout parameter.
 */
module OtaHelpers {
  import opened Wrappers
  import opened Text
  import opened Json
  import opened FileTree

  const OtaDirName: string := "Ota"
  const ManifestFileName: string := "manifest.json"

  /** API level 28, Build.VERSION_CODES.P. */
  const VersionCodeP: int := 28

  // Android.

  /** What OtaHelpers.kt reads from the Android Context and its PackageInfo. */
  datatype AndroidPackage = AndroidPackage(
    filesDir: Path,
    versionName: Option<string>,
    versionCode: int,
    longVersionCode: int,
    sdkInt: int)

  /** `File(p).absolutePath`: a relative path is resolved against the process directory, "/" on Android. */
  function Absolute(p: Path): (r: Path)
    ensures |r| > 0 && r[0] == '/'
    ensures |p| > 0 && p[0] == '/' ==> r == p
  {
    if |p| > 0 && p[0] == '/' then p
    else
      var r := Resolve("/", p);
      assert ("/" + "/" + p)[0] == '/';
      r
  }

  /** `getOtaDir`: the "Ota" directory next to `filesDir`, i.e. inside the parent of `filesDir`. */
  function AndroidOtaDir(filesDir: Path): (d: Path)
    ensures d == Absolute(Resolve(ParentOf(Canon(filesDir)).GetOr(""), OtaDirName))
  {
    Absolute(Resolve(ParentOf(Canon(filesDir)).GetOr(""), OtaDirName))
  }

  /** For an ordinary absolute `filesDir` the OTA directory is its sibling "Ota". */
  lemma AndroidOtaDirIsSibling(filesDir: Path, appDir: Path)
    requires IsDirPath(filesDir) && filesDir[0] == '/'
    requires ParentOf(filesDir) == Some(appDir) && appDir != "/"
    ensures AndroidOtaDir(filesDir) == appDir + "/" + OtaDirName
    ensures ParentOf(AndroidOtaDir(filesDir)) == Some(appDir)
  {
    CanonFixed(filesDir);
    ParentCanonical(filesDir);
    assert StartsWith(filesDir, appDir);
    assert appDir[0] == '/';
    CanonJoin(appDir, OtaDirName);
    ParentOfJoin(appDir, OtaDirName);
  }

  /** `resolveAbsolutePathRelativeToOtaDir`: `path` resolved under the OTA directory. */
  function AndroidResolve(otaDir: Path, path: string): (p: Path)
    requires IsDirPath(otaDir) && otaDir[0] == '/'
    ensures p == otaDir || StartsWith(p, otaDir + "/")
    ensures IsRelative(path) ==> p == otaDir + "/" + path
  {
    CanonUnder(otaDir, path);
    if IsRelative(path) then CanonJoin(otaDir, path); Absolute(Resolve(otaDir, path))
    else Absolute(Resolve(otaDir, path))
  }

  /** `getOtaManifestFilepath`: "manifest.json" inside the OTA directory. */
  function AndroidManifestPath(otaDir: Path): (p: Path)
    requires IsDirPath(otaDir) && otaDir[0] == '/'
    ensures p == otaDir + "/" + ManifestFileName
    ensures ParentOf(p) == Some(otaDir)
  {
    ParentOfJoin(otaDir, ManifestFileName);
    AndroidResolve(otaDir, ManifestFileName)
  }

  /** The version code OtaHelpers.kt reports: `longVersionCode` from API 28 on, `versionCode` before. */
  function AndroidVersionCode(pkg: AndroidPackage): (code: int)
    ensures pkg.sdkInt >= VersionCodeP ==> code == pkg.longVersionCode
    ensures pkg.sdkInt < VersionCodeP ==> code == pkg.versionCode
  {
    if pkg.sdkInt >= VersionCodeP then pkg.longVersionCode else pkg.versionCode
  }

  /** Kotlin's string template renders a missing `versionName` as "null". */
  function TemplateText(s: Option<string>): string {
    s.GetOr("null")
  }

  /** `resolveAppVersion(context)`: "<versionName>-<version code>". */
  function AndroidAppVersion(pkg: AndroidPackage): (v: string)
    ensures StartsWith(v, TemplateText(pkg.versionName) + "-")
  {
    TemplateText(pkg.versionName) + "-" + IntToString(AndroidVersionCode(pkg))
  }

  /** Two builds with the same version name report the same app version exactly when their version codes agree. */
  lemma AndroidAppVersionSeparatesCodes(a: AndroidPackage, b: AndroidPackage)
    requires a.versionName == b.versionName
    ensures AndroidAppVersion(a) == AndroidAppVersion(b) <==> AndroidVersionCode(a) == AndroidVersionCode(b)
  {
    var p := TemplateText(a.versionName) + "-";
    var sa, sb := IntToString(AndroidVersionCode(a)), IntToString(AndroidVersionCode(b));
    assert AndroidAppVersion(a) == p + sa && AndroidAppVersion(b) == p + sb;
    if p + sa == p + sb {
      assert sa == (p + sa)[|p|..] && sb == (p + sb)[|p|..];
      IntToStringInjective(AndroidVersionCode(a), AndroidVersionCode(b));
    }
  }

  /** `getNativeDependencies`: an empty resource is an empty map; otherwise Jackson reads it (none: it throws). */
  function AndroidNativeDependencies(resource: string, readMap: string -> Option<map<string, string>>): (r: Option<map<string, string>>)
    ensures resource == "" ==> r == Some(map[])
    ensures resource != "" ==> r == readMap(resource)
  {
    if resource == "" then Some(map[]) else readMap(resource)
  }

  // iOS.

  /** The values OtaHelpers.swift takes from `Bundle.main` and the search path. */
  datatype IosBundle = IosBundle(
    infoDictionary: Option<map<string, Value>>,
    applicationSupport: Option<Path>)

  /** `OTA_DIR_NAME` and `MANIFEST_FILE_NAME` of the iOS module. */
  datatype IosLayout = IosLayout(otaDirName: string, manifestFileName: string)

  /** `info?[key] as? String ?? ""`. */
  function InfoString(b: IosBundle, key: string): (s: string)
    ensures b.infoDictionary.Some? && StringMember(b.infoDictionary.value, key).Some? ==>
      s == StringMember(b.infoDictionary.value, key).value
    ensures b.infoDictionary.None? || StringMember(b.infoDictionary.value, key).None? ==> s == ""
  {
    match b.infoDictionary
    case None => ""
    case Some(info) => StringMember(info, key).GetOr("")
  }

  /** `resolveAppVersion()`: "<CFBundleShortVersionString>-<CFBundleVersion>". */
  function IosAppVersion(b: IosBundle): (v: string)
    ensures v == InfoString(b, "CFBundleShortVersionString") + "-" + InfoString(b, "CFBundleVersion")
  {
    InfoString(b, "CFBundleShortVersionString") + "-" + InfoString(b, "CFBundleVersion")
  }

  /** A short version without '-' is recovered from the app version, so versions with different short versions differ. */
  lemma IosAppVersionSeparatesShortVersions(a: IosBundle, b: IosBundle)
    requires '-' !in InfoString(a, "CFBundleShortVersionString") && '-' !in InfoString(b, "CFBundleShortVersionString")
    requires IosAppVersion(a) == IosAppVersion(b)
    ensures InfoString(a, "CFBundleShortVersionString") == InfoString(b, "CFBundleShortVersionString")
    ensures InfoString(a, "CFBundleVersion") == InfoString(b, "CFBundleVersion")
  {
    var sa, sb := InfoString(a, "CFBundleShortVersionString"), InfoString(b, "CFBundleShortVersionString");
    var va, vb := InfoString(a, "CFBundleVersion"), InfoString(b, "CFBundleVersion");
    FirstOccurrenceAfter(sa, "-", va);
    FirstOccurrenceAfter(sb, "-", vb);
    var v := IosAppVersion(a);
    assert |sa| == |sb|;
    assert sa == v[..|sa|] && sb == v[..|sb|];
    assert va == v[|sa| + 1..] && vb == v[|sb| + 1..];
  }

  /** `getOtaDir()`: "<application support>/<bundle identifier>/<OTA_DIR_NAME>", with "" for what is missing. */
  function IosOtaDir(b: IosBundle, layout: IosLayout): (d: string)
    ensures d == b.applicationSupport.GetOr("") + "/" + InfoString(b, "CFBundleIdentifier") + "/" + layout.otaDirName
  {
    b.applicationSupport.GetOr("") + "/" + InfoString(b, "CFBundleIdentifier") + "/" + layout.otaDirName
  }

  /** `resolveAbsolutePathRelativeToOtaDir(path)`: plain concatenation, without a separator. */
  function IosResolve(otaDir: string, path: string): (p: string)
    ensures StartsWith(p, otaDir) && p[|otaDir|..] == path
  {
    otaDir + path
  }

  /**
   * The two platforms agree on a relative name only when the iOS caller adds the '/'
   * itself: for a canonical relative name, iOS without the slash names a sibling of the
   * OTA directory's last component, never an entry inside it.
   */
  lemma ResolveDiffersWithoutSlash(otaDir: Path, name: string)
    requires IsDirPath(otaDir) && otaDir[0] == '/' && IsRelative(name)
    ensures AndroidResolve(otaDir, name) == IosResolve(otaDir, "/" + name)
    ensures !StartsWith(IosResolve(otaDir, name), otaDir + "/")
  {
    assert otaDir + "/" + name == otaDir + ("/" + name);
    var p := IosResolve(otaDir, name);
    assert p[|otaDir|] == name[0];
  }

  /** `getOtaManifestFilepath()`: the OTA directory followed by "/" and the manifest name. */
  function IosManifestPath(otaDir: string, layout: IosLayout): (p: string)
    ensures p == otaDir + "/" + layout.manifestFileName
  {
    IosResolve(otaDir, "/" + layout.manifestFileName)
  }
}
