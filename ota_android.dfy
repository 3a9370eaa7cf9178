/**
 * Android's NativeOtaModule (NativeOtaModule.kt): `download` fetches an OTA package
 * into the OTA directory, and `deploy` unpacks one, writes the manifest that the
 * bundle provider reads, and clears away the previous deployment.
 *
 * `DeploySpec` describes a deploy as a function of the tree, composed from the
 * FileBackend and java.io.File steps in the order the Kotlin code takes them;
 * `OtaModule.Deploy` performs the steps on the disk and also proves, from the event
 * log, the order in which the manifest write and the removals happen.
 */
module OtaAndroid {
  import opened Wrappers
  import opened Text
  import opened Json
  import opened FileTree
  import opened Platform
  import opened OtaHelpers
  import opened OtaManifest
  import opened FileBackend
  import DownloadAndroid

  const InvalidRuntimeUrl: string := "INVALID_RUNTIME_URL"
  const InvalidDeployConfig: string := "INVALID_DEPLOY_CONFIG"
  const InvalidDownloadConfig: string := "INVALID_DOWNLOAD_CONFIG"
  const OtaZipFileMissing: string := "OTA_ZIP_FILE_MISSING"
  const OtaDeploymentFailed: string := "OTA_DEPLOYMENT_FAILED"
  const OtaDownloadFailed: string := "OTA_DOWNLOAD_FAILED"

  const UrlKey: string := "url"
  const OtaPackageKey: string := "otaPackage"
  const DeploymentIdKey: string := "otaDeploymentID"
  const ExtractionDirKey: string := "extractionDir"
  const BundleFileName: string := "index.android.bundle"

  // download.

  /** `generateZipFilename()` for a given random UUID text. */
  function ZipFilename(uuid: string): (name: string)
    ensures EndsWith(name, ".zip") && StartsWith(name, uuid)
  {
    uuid + ".zip"
  }

  /**
   * The checks `download` makes before any download starts: a string `url` under the
   * runtime URL. `ReadableMap.getString` throws for a missing key and for a member
   * that is neither a string nor null; the exception escapes `download` and leaves
   * the promise pending. Only an explicit null reaches the INVALID_DOWNLOAD_CONFIG
   * rejection.
   */
  function DownloadUrl(config: map<string, Value>, runtimeUrl: Option<string>): (r: Result<string, Settlement>)
    ensures UrlKey !in config || !(config[UrlKey].JString? || config[UrlKey].JNull?) ==> r == Err(Pending)
    ensures UrlKey in config && config[UrlKey].JNull? ==> r == Err(Rejected(InvalidDownloadConfig, "Key url is invalid."))
    ensures StringMember(config, UrlKey).Some? && (runtimeUrl.None? || !StartsWith(StringMember(config, UrlKey).value, runtimeUrl.value)) ==>
      r == Err(Rejected(InvalidRuntimeUrl, "Invalid OTA URL."))
    ensures r.Ok? <==> StringMember(config, UrlKey).Some? && runtimeUrl.Some? && StartsWith(StringMember(config, UrlKey).value, runtimeUrl.value)
    ensures r.Ok? ==> r.value == StringMember(config, UrlKey).value
  {
    if UrlKey !in config then Err(Pending)
    else
      match config[UrlKey]
      case JNull => Err(Rejected(InvalidDownloadConfig, "Key url is invalid."))
      case JString(url) =>
        if runtimeUrl.None? || !StartsWith(url, runtimeUrl.value) then Err(Rejected(InvalidRuntimeUrl, "Invalid OTA URL."))
        else Ok(url)
      case _ => Err(Pending)
  }

  /** `{otaPackage: name}`, what a finished download resolves with. */
  function DownloadResult(name: string): (v: Value)
    ensures v.JObject? && v.fields.Keys == {OtaPackageKey} && v.fields[OtaPackageKey] == JString(name)
  {
    JObject(map[OtaPackageKey := JString(name)])
  }

  /** The promise after `downloadFile` (the exception's own message is not modelled). */
  function DownloadSettlement(o: DownloadAndroid.Outcome, name: string): (s: Settlement)
    ensures o.Threw? <==> s.Pending?
    ensures o.Succeeded? <==> s == Resolved(DownloadResult(name))
    ensures o.Failed? <==> s.Rejected? && s.code == OtaDownloadFailed
  {
    match o
    case Threw(_) => Pending
    case Succeeded => Resolved(DownloadResult(name))
    case Failed(_) => Rejected(OtaDownloadFailed, "")
  }

  // deploy.

  datatype DeployConfig = DeployConfig(otaDeploymentID: string, otaPackage: string, extractionDir: string)

  function KeyInvalid(key: string): Settlement {
    Rejected(InvalidDeployConfig, "Key " + key + " is invalid.")
  }

  /** The three keys, checked in the order otaDeploymentID, otaPackage, extractionDir; the first missing one is named. */
  function ReadDeployConfig(config: map<string, Value>): (r: Result<DeployConfig, Settlement>)
    ensures StringMember(config, DeploymentIdKey).None? ==> r == Err(KeyInvalid(DeploymentIdKey))
    ensures StringMember(config, DeploymentIdKey).Some? && StringMember(config, OtaPackageKey).None? ==>
      r == Err(KeyInvalid(OtaPackageKey))
    ensures (StringMember(config, DeploymentIdKey).Some? && StringMember(config, OtaPackageKey).Some? &&
             StringMember(config, ExtractionDirKey).None?) ==> r == Err(KeyInvalid(ExtractionDirKey))
    ensures r.Ok? ==>
      Some(r.value.otaDeploymentID) == StringMember(config, DeploymentIdKey) &&
      Some(r.value.otaPackage) == StringMember(config, OtaPackageKey) &&
      Some(r.value.extractionDir) == StringMember(config, ExtractionDirKey)
  {
    match StringMember(config, DeploymentIdKey)
    case None => Err(KeyInvalid(DeploymentIdKey))
    case Some(id) =>
      match StringMember(config, OtaPackageKey)
      case None => Err(KeyInvalid(OtaPackageKey))
      case Some(pkg) =>
        match StringMember(config, ExtractionDirKey)
        case None => Err(KeyInvalid(ExtractionDirKey))
        case Some(ed) => Ok(DeployConfig(id, pkg, ed))
  }

  /**
   * `File(extractionDir.relativeTo(File(otaDir)), "index.android.bundle").path`: the
   * bundle inside the extraction directory, relative to the OTA directory. When the two
   * directories coincide, java.io.File resolves the name against "/" instead.
   */
  function RelativeBundlePath(otaDir: Path, ext: Path): (rbp: string)
    requires IsDirPath(otaDir) && otaDir[0] == '/'
    requires IsCanonical(ext) && (ext == otaDir || StartsWith(ext, otaDir + "/"))
    ensures ext == otaDir ==> rbp == "/" + BundleFileName
    ensures ext != otaDir ==> rbp == ext[|otaDir| + 1..] + "/" + BundleFileName && IsRelative(rbp)
  {
    if ext == otaDir then
      assert "" + "/" + BundleFileName == "/" + BundleFileName;
      CanonFixed("/" + BundleFileName);
      Resolve("", BundleFileName)
    else
      var rel := ext[|otaDir| + 1..];
      assert ext == otaDir + "/" + rel;
      assert |rel| > 0;
      assert rel[0] != '/' by {
        assert ext[|otaDir|] == '/' && ext[|otaDir| + 1] == rel[0];
      }
      assert IsCanonical(rel) by {
        forall i | 0 <= i < |rel| - 1 ensures !(rel[i] == '/' && rel[i + 1] == '/') {
          assert rel[i] == ext[|otaDir| + 1 + i] && rel[i + 1] == ext[|otaDir| + 2 + i];
        }
        assert rel[|rel| - 1] == ext[|ext| - 1];
      }
      CanonJoin(rel, BundleFileName);
      Resolve(rel, BundleFileName)
  }

  /** The paths a deploy works on, from its config. */
  function PackagePath(otaDir: Path, d: DeployConfig): Path
    requires IsDirPath(otaDir) && otaDir[0] == '/'
  {
    AndroidResolve(otaDir, d.otaPackage)
  }

  function ExtractionPath(otaDir: Path, d: DeployConfig): (p: Path)
    requires IsDirPath(otaDir) && otaDir[0] == '/'
    ensures IsCanonical(p) && (p == otaDir || StartsWith(p, otaDir + "/"))
  {
    var p := AndroidResolve(otaDir, d.extractionDir);
    assert IsCanonical(Resolve(otaDir, d.extractionDir));
    p
  }

  /** The manifest a deploy writes. */
  function NewManifest(otaDir: Path, appVersion: string, d: DeployConfig): Manifest
    requires IsDirPath(otaDir) && otaDir[0] == '/'
  {
    Manifest(d.otaDeploymentID, RelativeBundlePath(otaDir, ExtractionPath(otaDir, d)), appVersion)
  }

  /** The manifest file's plain bytes, as `readAsUnencryptedFile` sees them. */
  function PlainContents(t: Tree, p: Path): (r: Option<Bytes>)
    ensures r.Some? <==> IsFileIn(t, Canon(p))
    ensures r.Some? ==> r.value == t[Canon(p)].data
  {
    if IsFileIn(t, Canon(p)) then Some(t[Canon(p)].data) else None
  }

  /** `oldManifest != null && oldManifest.otaDeploymentID != otaDeploymentID`. */
  predicate ShouldRemoveOldBundle(previous: Option<Manifest>, id: string) {
    previous.Some? && previous.value.otaDeploymentID != id
  }

  /** `File(resolveAbsolutePathRelativeToOtaDir(relativeBundlePath)).parentFile`. */
  function OldBundleDir(otaDir: Path, m: Manifest): Option<Path>
    requires IsDirPath(otaDir) && otaDir[0] == '/'
  {
    ParentOf(AndroidResolve(otaDir, m.relativeBundlePath))
  }

  const DeployFailed: Settlement := Rejected(OtaDeploymentFailed, "OTA deployment failed")
  const ZipMissing: Settlement := Rejected(OtaZipFileMissing, "OTA package does not exist")

  /** An existing extraction directory goes through `deleteDirectory` first. */
  function ClearedSpec(t: Tree, ext: Path): (r: Tree)
    ensures Canon(ext) !in t ==> r == t
  {
    if Canon(ext) in t then DeleteDirectorySpec(t, ext) else t
  }

  /** The directory the cleanup removes: the old bundle's, when the old manifest has another id. */
  function RemovedBundleDir(previous: Option<Manifest>, otaDir: Path, id: string): (r: Option<Path>)
    requires IsDirPath(otaDir) && otaDir[0] == '/'
    ensures r.Some? <==> ShouldRemoveOldBundle(previous, id) && OldBundleDir(otaDir, previous.value).Some?
    ensures r.Some? ==> r == OldBundleDir(otaDir, previous.value)
  {
    if ShouldRemoveOldBundle(previous, id) then OldBundleDir(otaDir, previous.value) else None
  }

  /**
   * The `try` block of `deploy` and its `catch`: unzip into `ext`, write the manifest
   * `bytes` at `manifestPath`, remove the old bundle directory `removed` and delete the
   * package; when the unzip or the write throws, the extraction directory is
   * removed and the deploy fails.
   */
  function InstallSpec(t: Tree, u: set<Path>, c: Codecs, zip: Path, ext: Path, manifestPath: Path,
                       bytes: Bytes, removed: Option<Path>): (r: (Settlement, Tree))
    ensures r.0 == Resolved(JNull) || r.0 == DeployFailed
    ensures r.0 == DeployFailed ==> forall k :: k in r.1 ==> !Within(k, Canon(ext))
  {
    var staged := StageSpec(t, u, c, zip, ext, manifestPath, bytes);
    if staged.thrown.Some? then (DeployFailed, WithoutTree(staged.tree, Canon(ext)))
    else (Resolved(JNull), DeleteSpec(if removed.Some? then WithoutTree(staged.tree, Canon(removed.value)) else staged.tree, zip))
  }

  /** The unzip followed, when it threw nothing, by the manifest write. */
  function StageSpec(t: Tree, u: set<Path>, c: Codecs, zip: Path, ext: Path, manifestPath: Path, bytes: Bytes): (s: Step)
  {
    var unzipped := UnzipSpec(t, u, c, zip, ext);
    if unzipped.thrown.Some? then unzipped
    else PlainWriteSpec(unzipped.tree, u, manifestPath, bytes)
  }

  /**
   * `deploy(deployConfig)`: the settlement and the tree it leaves. `c` are the
   * backend's codecs and `appVersion` is `getAppVersion(context)`. The old manifest
   * is read before anything changes.
   */
  function DeploySpec(t: Tree, u: set<Path>, c: Codecs, otaDir: Path, appVersion: string,
                      config: map<string, Value>): (r: (Settlement, Tree))
    requires IsDirPath(otaDir) && otaDir[0] == '/'
    ensures ReadDeployConfig(config).Err? ==> r == (ReadDeployConfig(config).error, t)
    ensures ReadDeployConfig(config).Ok? && Canon(PackagePath(otaDir, ReadDeployConfig(config).value)) !in t ==>
      r == (ZipMissing, t)
    ensures ReadDeployConfig(config).Ok? && Canon(PackagePath(otaDir, ReadDeployConfig(config).value)) in t ==>
      (r.0 == Resolved(JNull) || r.0 == DeployFailed)
  {
    match ReadDeployConfig(config)
    case Err(rejection) => (rejection, t)
    case Ok(d) => RequestSpec(t, u, c, otaDir, appVersion, d)
  }

  /** `deploy` once the three keys are read: the package must exist, then the install runs. */
  function RequestSpec(t: Tree, u: set<Path>, c: Codecs, otaDir: Path, appVersion: string, d: DeployConfig): (r: (Settlement, Tree))
    requires IsDirPath(otaDir) && otaDir[0] == '/'
    ensures Canon(PackagePath(otaDir, d)) !in t ==> r == (ZipMissing, t)
    ensures Canon(PackagePath(otaDir, d)) in t ==> (r.0 == Resolved(JNull) || r.0 == DeployFailed)
  {
    var zip := PackagePath(otaDir, d);
    var ext := ExtractionPath(otaDir, d);
    if Canon(zip) !in t then (ZipMissing, t)
    else
      InstallSpec(ClearedSpec(t, ext), u, c, zip, ext, AndroidManifestPath(otaDir),
                  ManifestBytes(c, NewManifest(otaDir, appVersion, d)),
                  RemovedBundleDir(OldManifestOf(t, c, otaDir), otaDir, d.otaDeploymentID))
  }

  /** The manifest `readManifestJson` finds in the OTA directory. */
  function OldManifestOf(t: Tree, c: Codecs, otaDir: Path): Option<Manifest>
    requires IsDirPath(otaDir) && otaDir[0] == '/'
  {
    ReadManifestJson(PlainContents(t, AndroidManifestPath(otaDir)), c)
  }

  /**
   * The module object: the FileBackend it owns, the OTA directory, and the app
   * version it stamps on manifests (`getAppVersion(context)`).
   */
  class OtaModule {
    const backend: Backend
    const otaDir: Path
    const appVersion: string

    /** The module's `init` block creates the OTA directory. */
    constructor (backend: Backend, otaDir: Path, appVersion: string)
      requires IsDirPath(otaDir) && otaDir[0] == '/'
      modifies backend.disk
      ensures this.backend == backend && this.otaDir == otaDir && this.appVersion == appVersion
      ensures backend.disk.tree == WithDirs(old(backend.disk.tree), otaDir)
    {
      this.backend := backend;
      this.otaDir := otaDir;
      this.appVersion := appVersion;
      new;
      var _ := backend.disk.Mkdirs(otaDir);
      CanonFixed(otaDir);
    }

    /**
     * `download(config)` with the runtime URL `runtimeUrl`, the random UUID `uuid`,
     * OkHttp's URL check `isHttpUrl` and the exchange OkHttp ends with: no download
     * starts unless the URL checks pass; then the package name is `<uuid>.zip` under
     * the OTA directory.
     */
    method Download(config: map<string, Value>, runtimeUrl: Option<string>, uuid: string,
                    isHttpUrl: string -> bool, x: DownloadAndroid.Exchange) returns (settlement: Settlement)
      requires IsDirPath(otaDir) && otaDir[0] == '/'
      requires DownloadAndroid.WellFormed(x)
      modifies backend.disk
      ensures DownloadUrl(config, runtimeUrl).Err? ==>
        settlement == DownloadUrl(config, runtimeUrl).error && backend.disk.tree == old(backend.disk.tree)
      ensures UrlKey !in config ==> settlement == Pending && backend.disk.tree == old(backend.disk.tree)
      ensures DownloadUrl(config, runtimeUrl).Ok? ==>
        var d := DownloadAndroid.DownloadSpec(old(backend.disk.tree), backend.disk.unwritable,
                                              AndroidResolve(otaDir, ZipFilename(uuid)),
                                              DownloadUrl(config, runtimeUrl).value, isHttpUrl, None, _ => None, x);
        settlement == DownloadSettlement(d.outcome, ZipFilename(uuid)) && backend.disk.tree == d.tree
    {
      var url := DownloadUrl(config, runtimeUrl);
      if url.Err? {
        return url.error;
      }
      var zipFileName := ZipFilename(uuid);
      var outcome, _ := DownloadAndroid.DownloadFile(backend.disk, AndroidResolve(otaDir, zipFileName), url.value, isHttpUrl,
                                                     None, _ => None, x);
      settlement := DownloadSettlement(outcome, zipFileName);
    }

    /**
     * `deploy(deployConfig)`: the final state `DeploySpec` describes, and the events in
     * the order `DeploysInOrder` states.
     */
    method Deploy(config: map<string, Value>) returns (settlement: Settlement, ghost manifestAt: nat)
      requires IsDirPath(otaDir) && otaDir[0] == '/'
      modifies backend.disk
      ensures (settlement, backend.disk.tree) ==
        DeploySpec(old(backend.disk.tree), backend.disk.unwritable, backend.codecs, otaDir, appVersion, config)
      ensures ReadDeployConfig(config).Err? ==> backend.disk.log == old(backend.disk.log)
      ensures ReadDeployConfig(config).Ok? ==> DeploysInOrder(ReadDeployConfig(config).value, settlement, manifestAt, old(backend.disk.log), backend.disk.log)
    {
      var request := ReadDeployConfig(config);
      if request.Err? {
        return request.error, 0;
      }
      settlement, manifestAt := Request(request.value);
    }

    /**
     * The order of a deploy's events after `before`: the manifest write (event
     * `manifestAt`) has no removal of a tree before it and only the old-bundle removal
     * and the package deletion after it; a failed deploy ends by removing the
     * extraction directory; a missing package changes nothing.
     */
    ghost predicate DeploysInOrder(d: DeployConfig, settlement: Settlement, manifestAt: nat, before: seq<Event>, log: seq<Event>)
      requires IsDirPath(otaDir) && otaDir[0] == '/'
      reads backend
    {
      |before| <= |log| && log[..|before|] == before &&
      (settlement.Resolved? ==>
        |before| <= manifestAt < |log| &&
        log[manifestAt] == Wrote(Canon(AndroidManifestPath(otaDir)), ManifestBytes(backend.codecs, NewManifest(otaDir, appVersion, d))) &&
        NoTreeRemoval(log[|before|..manifestAt]) &&
        forall i :: manifestAt < i < |log| ==> log[i].RemovedTree? || log[i] == Deleted(Canon(PackagePath(otaDir, d)))) &&
      (settlement == DeployFailed ==>
        |log| > 0 && log[|log| - 1] == RemovedTree(Canon(ExtractionPath(otaDir, d)))) &&
      (!(settlement.Resolved? || settlement == DeployFailed) ==> log == before)
    }

    /** `deploy` after the keys are read, as `RequestSpec` describes it. */
    method Request(d: DeployConfig) returns (settlement: Settlement, ghost manifestAt: nat)
      requires IsDirPath(otaDir) && otaDir[0] == '/'
      modifies backend.disk
      ensures (settlement, backend.disk.tree) ==
        RequestSpec(old(backend.disk.tree), backend.disk.unwritable, backend.codecs, otaDir, appVersion, d)
      ensures DeploysInOrder(d, settlement, manifestAt, old(backend.disk.log), backend.disk.log)
    {
      manifestAt := 0;
      var disk := backend.disk;
      var oldManifest := ReadManifestJson(disk.Contents(AndroidManifestPath(otaDir)), backend.codecs);
      assert oldManifest == OldManifestOf(disk.tree, backend.codecs, otaDir);
      if !disk.Exists(PackagePath(otaDir, d)) {
        assert disk.log[..|disk.log|] == disk.log;
        return ZipMissing, 0;
      }
      settlement, manifestAt := ClearAndInstall(d, RemovedBundleDir(oldManifest, otaDir, d.otaDeploymentID));
    }

    /** `deploy` once the package is known to exist: the extraction directory cleared, then the install. */
    method ClearAndInstall(d: DeployConfig, removed: Option<Path>) returns (settlement: Settlement, ghost manifestAt: nat)
      requires IsDirPath(otaDir) && otaDir[0] == '/'
      modifies backend.disk
      ensures (settlement, backend.disk.tree) ==
        InstallSpec(ClearedSpec(old(backend.disk.tree), ExtractionPath(otaDir, d)), backend.disk.unwritable, backend.codecs,
                    PackagePath(otaDir, d), ExtractionPath(otaDir, d), AndroidManifestPath(otaDir),
                    ManifestBytes(backend.codecs, NewManifest(otaDir, appVersion, d)), removed)
      ensures DeploysInOrder(d, settlement, manifestAt, old(backend.disk.log), backend.disk.log)
    {
      var disk := backend.disk;
      var ext := ExtractionPath(otaDir, d);
      Clear(ext);
      ghost var cleared := disk.log;
      settlement, manifestAt := Install(PackagePath(otaDir, d), ext, AndroidManifestPath(otaDir),
                                        JObject(ToMap(NewManifest(otaDir, appVersion, d))), removed);
      InOrderAfterInstall(d, settlement, manifestAt, old(disk.log), cleared, disk.log, removed);
    }

    /** The extraction directory is deleted, as `deleteDirectory` does it, when it exists. */
    method Clear(ext: Path)
      modifies backend.disk
      ensures backend.disk.tree == ClearedSpec(old(backend.disk.tree), ext)
      ensures GrowsWithoutRemoval(old(backend.disk.log), backend.disk.log)
    {
      if backend.disk.Exists(ext) {
        backend.DeleteDirectory(ext);
      } else {
        GrowsByOptional(old(backend.disk.log), backend.disk.log, Deleted(Canon(ext)));
      }
    }

    /** The events of the install, after those of the clearing, keep the order a deploy promises. */
    lemma InOrderAfterInstall(d: DeployConfig, settlement: Settlement, manifestAt: nat,
                              before: seq<Event>, cleared: seq<Event>, log: seq<Event>, removed: Option<Path>)
      requires IsDirPath(otaDir) && otaDir[0] == '/'
      requires GrowsWithoutRemoval(before, cleared)
      requires settlement.Resolved? || settlement == DeployFailed
      requires |cleared| <= |log| && log[..|cleared|] == cleared
      requires settlement.Resolved? ==>
        |cleared| <= manifestAt < |log| &&
        log[manifestAt] == Wrote(Canon(AndroidManifestPath(otaDir)), ManifestBytes(backend.codecs, NewManifest(otaDir, appVersion, d))) &&
        NoTreeRemoval(log[|cleared|..manifestAt]) &&
        forall i :: manifestAt < i < |log| ==>
          (removed.Some? && log[i] == RemovedTree(Canon(removed.value))) || log[i] == Deleted(Canon(PackagePath(otaDir, d)))
      requires settlement == DeployFailed ==> |log| > 0 && log[|log| - 1] == RemovedTree(Canon(ExtractionPath(otaDir, d)))
      ensures DeploysInOrder(d, settlement, manifestAt, before, log)
    {
      PrefixedBy(before, cleared, log, if settlement.Resolved? then manifestAt else |cleared|);
    }

    /**
     * The `try` block of `deploy` with its `catch`, as `InstallSpec` describes it; the
     * manifest `json` is written at event `manifestAt`.
     */
    method Install(zip: Path, ext: Path, manifestPath: Path, json: Value, removed: Option<Path>)
      returns (settlement: Settlement, ghost manifestAt: nat)
      modifies backend.disk
      ensures (settlement, backend.disk.tree) ==
        InstallSpec(old(backend.disk.tree), backend.disk.unwritable, backend.codecs, zip, ext, manifestPath,
                    backend.codecs.printJson(json), removed)
      ensures |old(backend.disk.log)| <= |backend.disk.log| && backend.disk.log[..|old(backend.disk.log)|] == old(backend.disk.log)
      ensures settlement.Resolved? ==>
        |old(backend.disk.log)| <= manifestAt < |backend.disk.log| &&
        backend.disk.log[manifestAt] == Wrote(Canon(manifestPath), backend.codecs.printJson(json)) &&
        NoTreeRemoval(backend.disk.log[|old(backend.disk.log)|..manifestAt]) &&
        forall i :: manifestAt < i < |backend.disk.log| ==>
          (removed.Some? && backend.disk.log[i] == RemovedTree(Canon(removed.value))) || backend.disk.log[i] == Deleted(Canon(zip))
      ensures settlement == DeployFailed ==>
        |backend.disk.log| > 0 && backend.disk.log[|backend.disk.log| - 1] == RemovedTree(Canon(ext))
    {
      var disk := backend.disk;
      var thrown;
      thrown, manifestAt := Stage(zip, ext, manifestPath, json);
      ghost var written := disk.log;
      if thrown.Some? {
        var _ := disk.RemoveTree(ext);
        PrefixOfPrefix(old(disk.log), written, disk.log);
        return DeployFailed, 0;
      }
      Cleanup(zip, removed);
      ExtendsWritten(old(disk.log), written, disk.log, manifestAt);
      settlement := Resolved(JNull);
    }

    /** After the manifest: the old bundle directory, if any, removed, then the package deleted, their failures ignored. */
    method Cleanup(zip: Path, removed: Option<Path>)
      modifies backend.disk
      ensures backend.disk.tree ==
        DeleteSpec(if removed.Some? then WithoutTree(old(backend.disk.tree), Canon(removed.value)) else old(backend.disk.tree), zip)
      ensures |old(backend.disk.log)| <= |backend.disk.log| && backend.disk.log[..|old(backend.disk.log)|] == old(backend.disk.log)
      ensures forall i :: |old(backend.disk.log)| <= i < |backend.disk.log| ==>
        (removed.Some? && backend.disk.log[i] == RemovedTree(Canon(removed.value))) || backend.disk.log[i] == Deleted(Canon(zip))
    {
      var disk := backend.disk;
      if removed.Some? {
        var _ := disk.RemoveTree(removed.value);
      }
      ghost var mid := disk.log;
      var _ := disk.Delete(zip);
      PrefixOfPrefix(old(disk.log), mid, disk.log);
    }

    /** The unzip and the manifest write, which becomes event `manifestAt`. */
    method Stage(zip: Path, ext: Path, manifestPath: Path, json: Value) returns (thrown: Option<Fault>, ghost manifestAt: nat)
      modifies backend.disk
      ensures Step(backend.disk.tree, thrown) ==
        StageSpec(old(backend.disk.tree), backend.disk.unwritable, backend.codecs, zip, ext, manifestPath, backend.codecs.printJson(json))
      ensures GrowsWithoutRemoval(old(backend.disk.log), backend.disk.log)
      ensures thrown.None? ==> manifestAt == |backend.disk.log| - 1 && |old(backend.disk.log)| <= manifestAt
      ensures thrown.None? ==> backend.disk.log[manifestAt] == Wrote(Canon(manifestPath), backend.codecs.printJson(json))
    {
      manifestAt := 0;
      var disk := backend.disk;
      thrown := backend.Unzip(zip, ext);
      if thrown.None? {
        ghost var unzipped := disk.log;
        thrown := backend.WriteUnencryptedJson(json, manifestPath);
        GrowsTransitive(old(disk.log), unzipped, disk.log);
        if thrown.None? {
          manifestAt := |disk.log| - 1;
        }
      }
    }
  }

  // What a deploy amounts to.

  /** Clearing the extraction directory touches nothing outside it. */
  lemma ClearedKeepsOutside(t: Tree, ext: Path)
    requires IsDirPath(ext)
    ensures forall k :: k in t && !Within(k, ext) ==> k in ClearedSpec(t, ext) && ClearedSpec(t, ext)[k] == t[k]
  {
    CanonFixed(ext);
  }

  /** A failed install leaves every entry outside the extraction directory as it was. */
  lemma InstallFailureKeepsOutside(t: Tree, u: set<Path>, c: Codecs, zip: Path, ext: Path, manifestPath: Path,
                                   bytes: Bytes, removed: Option<Path>)
    requires IsDirPath(ext)
    requires InstallSpec(t, u, c, zip, ext, manifestPath, bytes, removed).0 == DeployFailed
    ensures var r := InstallSpec(t, u, c, zip, ext, manifestPath, bytes, removed).1;
      forall k :: k in t && !Within(k, ext) ==> k in r && r[k] == t[k]
  {
    CanonFixed(ext);
    if IsFileIn(t, Canon(zip)) && c.zipEntries(t[Canon(zip)].data).Some? {
      ExtractKeepsOutside(t, u, ext, c.zipEntries(t[Canon(zip)].data).value);
    }
  }

  /** A successful install leaves the manifest bytes at the manifest path, unless the cleanup covers it. */
  lemma InstallWritesManifest(t: Tree, u: set<Path>, c: Codecs, zip: Path, ext: Path, manifestPath: Path,
                              bytes: Bytes, removed: Option<Path>)
    requires InstallSpec(t, u, c, zip, ext, manifestPath, bytes, removed).0.Resolved?
    requires Canon(zip) != Canon(manifestPath)
    requires removed.Some? ==> !Within(Canon(manifestPath), Canon(removed.value))
    ensures var r := InstallSpec(t, u, c, zip, ext, manifestPath, bytes, removed).1;
      IsFileIn(r, Canon(manifestPath)) && r[Canon(manifestPath)].data == bytes
  {
  }

  /**
   * A successful deploy leaves the new manifest, readable by `readManifestJson`, at
   * the manifest path, unless the cleanup removed it: the old bundle's directory or
   * the package is the manifest path or above it.
   */
  lemma DeployedManifestReadsBack(t: Tree, u: set<Path>, c: Codecs, otaDir: Path, appVersion: string, config: map<string, Value>)
    requires IsDirPath(otaDir) && otaDir[0] == '/'
    requires JsonRoundTrips(c)
    requires DeploySpec(t, u, c, otaDir, appVersion, config).0.Resolved?
    requires var d := ReadDeployConfig(config).value;
      var removed := RemovedBundleDir(OldManifestOf(t, c, otaDir), otaDir, d.otaDeploymentID);
      Canon(PackagePath(otaDir, d)) != Canon(AndroidManifestPath(otaDir)) &&
      (removed.Some? ==> !Within(Canon(AndroidManifestPath(otaDir)), Canon(removed.value)))
    ensures var d := ReadDeployConfig(config).value;
      OldManifestOf(DeploySpec(t, u, c, otaDir, appVersion, config).1, c, otaDir) == Some(NewManifest(otaDir, appVersion, d))
  {
    var d := ReadDeployConfig(config).value;
    var ext := ExtractionPath(otaDir, d);
    var m := NewManifest(otaDir, appVersion, d);
    InstallWritesManifest(ClearedSpec(t, ext), u, c, PackagePath(otaDir, d), ext, AndroidManifestPath(otaDir),
                          ManifestBytes(c, m), RemovedBundleDir(OldManifestOf(t, c, otaDir), otaDir, d.otaDeploymentID));
    ManifestRoundTrip(c, m);
  }

  /**
   * A failed deploy leaves nothing at or below the extraction directory, and every
   * other entry that existed before as it was.
   */
  lemma DeployFailureCleansUp(t: Tree, u: set<Path>, c: Codecs, otaDir: Path, appVersion: string, config: map<string, Value>)
    requires IsDirPath(otaDir) && otaDir[0] == '/'
    requires DeploySpec(t, u, c, otaDir, appVersion, config).0 == DeployFailed
    ensures var ext := ExtractionPath(otaDir, ReadDeployConfig(config).value);
      var r := DeploySpec(t, u, c, otaDir, appVersion, config).1;
      (forall k :: k in r ==> !Within(k, ext)) &&
      (forall k :: k in t && !Within(k, ext) ==> k in r && r[k] == t[k])
  {
    var d := ReadDeployConfig(config).value;
    var ext := ExtractionPath(otaDir, d);
    ExtractionDirIsDirPath(otaDir, ext);
    CanonFixed(ext);
    ClearedKeepsOutside(t, ext);
    InstallFailureKeepsOutside(ClearedSpec(t, ext), u, c, PackagePath(otaDir, d), ext, AndroidManifestPath(otaDir),
                               ManifestBytes(c, NewManifest(otaDir, appVersion, d)),
                               RemovedBundleDir(OldManifestOf(t, c, otaDir), otaDir, d.otaDeploymentID));
  }

  lemma ExtractionDirIsDirPath(otaDir: Path, ext: Path)
    requires IsDirPath(otaDir) && otaDir[0] == '/'
    requires IsCanonical(ext) && (ext == otaDir || StartsWith(ext, otaDir + "/"))
    ensures IsDirPath(ext)
  {
    if ext != otaDir {
      assert ext[|otaDir|] == '/';
    }
  }

  /** The OTA directory itself as extraction directory: the bundle path names the OTA directory's bundle anyway. */
  lemma BundlePathLocatesBundle(otaDir: Path, ext: Path)
    requires IsDirPath(otaDir) && otaDir[0] == '/'
    requires IsCanonical(ext) && (ext == otaDir || StartsWith(ext, otaDir + "/"))
    ensures AndroidResolve(otaDir, RelativeBundlePath(otaDir, ext)) == ext + "/" + BundleFileName
  {
    if ext == otaDir {
      RootedNameJoin(otaDir, BundleFileName);
    } else {
      var rel := ext[|otaDir| + 1..];
      assert ext == otaDir + "/" + rel;
      assert otaDir + "/" + (rel + "/" + BundleFileName) == ext + "/" + BundleFileName;
    }
  }

  lemma BundleFileNameIsName()
    ensures IsRelative(BundleFileName) && '/' !in BundleFileName
  {
  }

  /** java.io.File drops the doubled '/' of a name that starts with one. */
  lemma RootedNameJoin(a: Path, name: string)
    requires IsDirPath(a) && IsRelative(name)
    ensures Canon(a + "/" + ("/" + name)) == a + "/" + name
  {
    assert a + "/" + ("/" + name) == a + ("//" + name);
    CollapseAfter(a, "//" + name);
    DoubledSlashCollapses(name);
    assert a + ("/" + name) == a + "/" + name;
    LastCharOfJoin(a, name);
  }

  lemma LastCharOfJoin(a: Path, name: string)
    requires IsRelative(name)
    ensures |a + "/" + name| > 1 && (a + "/" + name)[|a + "/" + name| - 1] != '/'
  {
    assert (a + "/" + name)[|a + "/" + name| - 1] == name[|name| - 1];
  }

  lemma DoubledSlashCollapses(name: string)
    requires IsRelative(name)
    ensures Collapse("//" + name) == "/" + name
  {
    var s := "//" + name;
    assert s[1..] == "/" + name;
    assert NoDoubleSlash("/" + name) by {
      forall i | 0 <= i < |name| ensures !(("/" + name)[i] == '/' && ("/" + name)[i + 1] == '/') {
        if i > 0 {
          assert ("/" + name)[i] == name[i - 1] && ("/" + name)[i + 1] == name[i];
        }
      }
    }
    CollapseFixed("/" + name);
  }

  /**
   * The directory the next deploy with another id removes is exactly this deploy's
   * extraction directory, provided it is not the OTA directory itself.
   */
  lemma OldBundleDirIsExtractionDir(otaDir: Path, ext: Path, id: string, appVersion: string)
    requires IsDirPath(otaDir) && otaDir[0] == '/'
    requires IsCanonical(ext) && StartsWith(ext, otaDir + "/")
    ensures OldBundleDir(otaDir, Manifest(id, RelativeBundlePath(otaDir, ext), appVersion)) == Some(ext)
  {
    BundlePathLocatesBundle(otaDir, ext);
    ExtractionDirIsDirPath(otaDir, ext);
    BundleFileNameIsName();
    ParentOfJoin(ext, BundleFileName);
  }

  /**
   * A deploy into the extraction directory the current manifest already names, under
   * another id, removes what it has just unpacked: the cleanup takes the old bundle's
   * directory, which is the new one.
   */
  lemma RedeployIntoSameDirRemovesIt(t: Tree, u: set<Path>, c: Codecs, otaDir: Path, appVersion: string,
                                     d: DeployConfig, previousId: string, previousVersion: string)
    requires IsDirPath(otaDir) && otaDir[0] == '/'
    requires StartsWith(ExtractionPath(otaDir, d), otaDir + "/")
    requires OldManifestOf(t, c, otaDir) ==
      Some(Manifest(previousId, RelativeBundlePath(otaDir, ExtractionPath(otaDir, d)), previousVersion))
    requires previousId != d.otaDeploymentID
    requires RequestSpec(t, u, c, otaDir, appVersion, d).0.Resolved?
    ensures forall k :: k in RequestSpec(t, u, c, otaDir, appVersion, d).1 ==> !Within(k, ExtractionPath(otaDir, d))
  {
    var ext := ExtractionPath(otaDir, d);
    OldBundleDirIsExtractionDir(otaDir, ext, previousId, previousVersion);
    CanonFixed(ext);
  }
}
