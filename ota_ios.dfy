/**
 * iOS's NativeOtaModule (NativeOtaModule.swift): `download` fetches an OTA package
 * into the OTA directory through NativeDownloadHandler, and `deploy` unpacks one with
 * SSZipArchive, writes the manifest and clears away the previous deployment.
 *
 * Paths are built by string concatenation (`resolveAbsolutePathRelativeToOtaDir`);
 * the file system itself treats repeated '/' as one, as the `Disk` does. The codes
 * and key names are those the JavaScript side shares with Android: the header that
 * declares them on iOS is not part of this model.
 */
module OtaIos {
  import opened Wrappers
  import opened Text
  import opened Json
  import opened FileTree
  import opened Platform
  import opened OtaHelpers
  import opened OtaManifest
  import opened FileBackend
  import DownloadIos

  const InvalidRuntimeUrl: string := "INVALID_RUNTIME_URL"
  const InvalidDownloadConfig: string := "INVALID_DOWNLOAD_CONFIG"
  const OtaZipFileMissing: string := "OTA_ZIP_FILE_MISSING"
  const OtaDeploymentFailed: string := "OTA_DEPLOYMENT_FAILED"
  const OtaDownloadFailed: string := "OTA_DOWNLOAD_FAILED"

  const UrlKey: string := "url"
  const OtaPackageKey: string := "otaPackage"
  const ExtractionDirKey: string := "extractionDir"
  const BundleFileName: string := "index.ios.bundle"

  // download.

  /** The checks `download` makes after the OTA directory exists: a string `url` under the runtime URL. */
  function DownloadUrl(config: map<string, Value>, runtimeUrl: Option<string>): (r: Result<string, Settlement>)
    ensures StringMember(config, UrlKey).None? ==> r == Err(Rejected(InvalidDownloadConfig, "Key url is invalid."))
    ensures StringMember(config, UrlKey).Some? && runtimeUrl.None? ==>
      r == Err(Rejected(InvalidRuntimeUrl, "Runtime URL is not set."))
    ensures StringMember(config, UrlKey).Some? && runtimeUrl.Some? && !StartsWith(StringMember(config, UrlKey).value, runtimeUrl.value) ==>
      r == Err(Rejected(InvalidRuntimeUrl, "Invalid OTA URL."))
    ensures r.Ok? <==> StringMember(config, UrlKey).Some? && runtimeUrl.Some? && StartsWith(StringMember(config, UrlKey).value, runtimeUrl.value)
    ensures r.Ok? ==> r.value == StringMember(config, UrlKey).value
  {
    match StringMember(config, UrlKey)
    case None => Err(Rejected(InvalidDownloadConfig, "Key url is invalid."))
    case Some(url) =>
      if runtimeUrl.None? then Err(Rejected(InvalidRuntimeUrl, "Runtime URL is not set."))
      else if !StartsWith(url, runtimeUrl.value) then Err(Rejected(InvalidRuntimeUrl, "Invalid OTA URL."))
      else Ok(url)
  }

  /** `generateZipFilename()` for a given UUID string. */
  function ZipFilename(uuid: string): (name: string)
    ensures EndsWith(name, ".zip") && StartsWith(name, uuid)
  {
    uuid + ".zip"
  }

  /** `{otaPackage: name}`, what a finished download resolves with. */
  function DownloadResult(name: string): (v: Value)
    ensures v.JObject? && v.fields.Keys == {OtaPackageKey} && v.fields[OtaPackageKey] == JString(name)
  {
    JObject(map[OtaPackageKey := JString(name)])
  }

  /** The OTA download's promise after the handler's callbacks: done resolves the package name, any failure rejects. */
  function DownloadSettlement(calls: seq<DownloadIos.Callback>, name: string): (s: Settlement)
    ensures DownloadIos.FirstDecision(calls).None? <==> s.Pending?
    ensures DownloadIos.FirstDecision(calls) == Some(DownloadIos.Done) <==> s == Resolved(DownloadResult(name))
    ensures DownloadIos.FirstDecision(calls).Some? && DownloadIos.FirstDecision(calls).value.Fail? <==>
      s == Rejected(OtaDownloadFailed, "OTA download failed.")
  {
    var first := DownloadIos.FirstDecision(calls);
    if first.None? then Pending
    else if first.value.Done? then Resolved(DownloadResult(name))
    else Rejected(OtaDownloadFailed, "OTA download failed.")
  }

  // SSZipArchive's `unzipFile(atPath:toDestination:overwrite:false …)`.

  /**
   * One entry: a directory entry's directory is created; for a file entry its parent
   * is created (both ignoring failure), an existing file is kept (no overwrite), and
   * otherwise the file is written; false when that write fails.
   */
  function IosEntrySpec(t: Tree, u: set<Path>, dir: Path, e: ZipEntry): (r: (bool, Tree))
    ensures e.isDirectory ==> r == (true, WithDirs(t, Canon(dir + "/" + e.name)))
    ensures !e.isDirectory && !r.0 ==> r.1 == WithDirs(t, Canon(DeletingLastPathComponent(dir + "/" + e.name)))
    ensures forall k :: k in t ==> k in r.1 && r.1[k] == t[k]
  {
    var target := Canon(dir + "/" + e.name);
    if e.isDirectory then (true, WithDirs(t, target))
    else
      var t1 := WithDirs(t, Canon(DeletingLastPathComponent(dir + "/" + e.name)));
      if target in t1 then (true, t1)
      else if CanWrite(t1, u, target) then (true, t1[target := File(e.data)])
      else (false, t1)
  }

  /** The entries in order until the first that fails. */
  function IosExtractSpec(t: Tree, u: set<Path>, dir: Path, entries: seq<ZipEntry>): (r: (bool, Tree))
    decreases |entries|
  {
    if |entries| == 0 then (true, t)
    else
      var r := IosExtractSpec(t, u, dir, entries[..|entries| - 1]);
      if !r.0 then r else IosEntrySpec(r.1, u, dir, entries[|entries| - 1])
  }

  /** The archive is read from the file at `zip`; false when it is missing or not an archive. */
  function IosUnzipSpec(t: Tree, u: set<Path>, c: Codecs, zip: Path, dir: Path): (r: (bool, Tree))
    ensures !IsFileIn(t, Canon(zip)) || c.zipEntries(t[Canon(zip)].data).None? ==> r == (false, t)
  {
    if !IsFileIn(t, Canon(zip)) then (false, t)
    else match c.zipEntries(t[Canon(zip)].data)
      case None => (false, t)
      case Some(entries) => IosExtractSpec(t, u, dir, entries)
  }

  /** Extraction changes nothing outside the destination directory. */
  lemma {:induction false} IosExtractKeepsOutside(t: Tree, u: set<Path>, dir: Path, entries: seq<ZipEntry>)
    requires IsDirPath(dir)
    ensures var r := IosExtractSpec(t, u, dir, entries).1;
      forall k :: k in t && !Within(k, dir) ==> k in r && r[k] == t[k]
    decreases |entries|
  {
    if |entries| > 0 {
      IosExtractKeepsOutside(t, u, dir, entries[..|entries| - 1]);
      CanonUnder(dir, entries[|entries| - 1].name);
    }
  }

  /** A file entry never replaces what an earlier entry (or the tree) already put at its target. */
  lemma {:induction false} IosExtractKeepsExisting(t: Tree, u: set<Path>, dir: Path, entries: seq<ZipEntry>, k: Path)
    requires k in t
    ensures k in IosExtractSpec(t, u, dir, entries).1 && IosExtractSpec(t, u, dir, entries).1[k] == t[k]
    decreases |entries|
  {
    if |entries| > 0 {
      IosExtractKeepsExisting(t, u, dir, entries[..|entries| - 1], k);
    }
  }

  // deploy.

  datatype DeployConfig = DeployConfig(otaDeploymentID: string, otaPackage: string, extractionDir: string)

  function KeyInvalid(key: string): Settlement {
    Rejected(InvalidDownloadConfig, "Key " + key + " is invalid.")
  }

  /** The three keys in the order otaDeploymentID, otaPackage, extractionDir, each rejected with INVALID_DOWNLOAD_CONFIG. */
  function ReadDeployConfig(config: map<string, Value>): (r: Result<DeployConfig, Settlement>)
    ensures StringMember(config, IdKey).None? ==> r == Err(KeyInvalid(IdKey))
    ensures StringMember(config, IdKey).Some? && StringMember(config, OtaPackageKey).None? ==>
      r == Err(KeyInvalid(OtaPackageKey))
    ensures (StringMember(config, IdKey).Some? && StringMember(config, OtaPackageKey).Some? &&
             StringMember(config, ExtractionDirKey).None?) ==> r == Err(KeyInvalid(ExtractionDirKey))
    ensures r.Ok? ==>
      Some(r.value.otaDeploymentID) == StringMember(config, IdKey) &&
      Some(r.value.otaPackage) == StringMember(config, OtaPackageKey) &&
      Some(r.value.extractionDir) == StringMember(config, ExtractionDirKey)
  {
    match StringMember(config, IdKey)
    case None => Err(KeyInvalid(IdKey))
    case Some(id) =>
      match StringMember(config, OtaPackageKey)
      case None => Err(KeyInvalid(OtaPackageKey))
      case Some(pkg) =>
        match StringMember(config, ExtractionDirKey)
        case None => Err(KeyInvalid(ExtractionDirKey))
        case Some(ed) => Ok(DeployConfig(id, pkg, ed))
  }

  /** The manifest a deploy writes: the bundle path is the extraction directory as given, plus the bundle name. */
  function NewManifest(appVersion: string, d: DeployConfig): (m: Manifest)
    ensures m.otaDeploymentID == d.otaDeploymentID && m.appVersion == appVersion
    ensures m.relativeBundlePath == d.extractionDir + "/" + BundleFileName
  {
    Manifest(d.otaDeploymentID, d.extractionDir + "/" + BundleFileName, appVersion)
  }

  /** `NSData(contentsOfFile:)`: the bytes of a file, none for anything else. */
  function FileContents(t: Tree, p: Path): (r: Option<Bytes>)
    ensures r.Some? <==> IsFileIn(t, Canon(p))
    ensures r.Some? ==> r.value == t[Canon(p)].data
  {
    if IsFileIn(t, Canon(p)) then Some(t[Canon(p)].data) else None
  }

  /** `readManifestAsDictionary()` on the tree `t`. */
  function OldManifestOf(t: Tree, c: Codecs, otaDir: string, layout: IosLayout): Option<map<string, Value>> {
    ReadManifestAsDictionary(FileContents(t, IosManifestPath(otaDir, layout)), c)
  }

  /**
   * The old-bundle cleanup's target: when an old manifest exists and its id is not the
   * new one (a missing or non-string id counts as different) and it names a bundle
   * path, the directory of that path under the OTA directory.
   */
  function RemovedBundleDir(previous: Option<map<string, Value>>, otaDir: string, id: string): (r: Option<string>)
    ensures r.Some? <==> previous.Some? && StringMember(previous.value, IdKey) != Some(id) &&
                         StringMember(previous.value, BundlePathKey).Some?
    ensures r.Some? ==> r.value == IosResolve(otaDir, "/" + DeletingLastPathComponent(StringMember(previous.value, BundlePathKey).value))
  {
    if previous.Some? && StringMember(previous.value, IdKey) != Some(id) then
      match StringMember(previous.value, BundlePathKey)
      case None => None
      case Some(rbp) => Some(IosResolve(otaDir, "/" + DeletingLastPathComponent(rbp)))
    else None
  }

  const ZipMissing: Settlement := Rejected(OtaZipFileMissing, "[OTA] OTA package does not exist.")
  const UnzipFailed: Settlement := Rejected(OtaDeploymentFailed, "OTA deployment failed.")
  const ManifestFailed: Settlement := Rejected(OtaDeploymentFailed, "Writing OTA manifest failed.")

  /** The unzip, then, when it succeeded, the manifest write. */
  function StageSpec(t: Tree, u: set<Path>, c: Codecs, zip: Path, ext: Path, manifestPath: Path, bytes: Bytes): (r: (Settlement, Tree))
    ensures r.0 == Resolved(JNull) || r.0 == UnzipFailed || r.0 == ManifestFailed
  {
    var unzipped := IosUnzipSpec(t, u, c, zip, ext);
    if !unzipped.0 then (UnzipFailed, unzipped.1)
    else if !CanWrite(unzipped.1, u, Canon(manifestPath)) then (ManifestFailed, unzipped.1)
    else (Resolved(JNull), unzipped.1[Canon(manifestPath) := File(bytes)])
  }

  /**
   * From the unzip on: a failed unzip or manifest write removes the extraction
   * directory and rejects; otherwise the old bundle directory `removed` and the
   * package are removed (failures only logged) and the deploy resolves.
   */
  function InstallSpec(t: Tree, u: set<Path>, c: Codecs, zip: Path, ext: Path, manifestPath: Path,
                       bytes: Bytes, removed: Option<Path>): (r: (Settlement, Tree))
    ensures r.0 == Resolved(JNull) || r.0 == UnzipFailed || r.0 == ManifestFailed
    ensures r.0 != Resolved(JNull) ==> forall k :: k in r.1 ==> !Within(k, Canon(ext))
  {
    var staged := StageSpec(t, u, c, zip, ext, manifestPath, bytes);
    if staged.0 != Resolved(JNull) then (staged.0, WithoutTree(staged.1, Canon(ext)))
    else
      var t1 := if removed.Some? then WithoutTree(staged.1, Canon(removed.value)) else staged.1;
      (Resolved(JNull), WithoutTree(t1, Canon(zip)))
  }

  /** `deploy` once the keys are read. */
  function RequestSpec(t: Tree, u: set<Path>, c: Codecs, otaDir: string, layout: IosLayout, appVersion: string,
                       d: DeployConfig): (r: (Settlement, Tree))
    ensures Canon(IosResolve(otaDir, "/" + d.otaPackage)) !in t ==> r == (ZipMissing, t)
  {
    var zip := IosResolve(otaDir, "/" + d.otaPackage);
    var ext := IosResolve(otaDir, "/" + d.extractionDir);
    if Canon(zip) !in t then (ZipMissing, t)
    else
      var cleared := if Canon(ext) in t then WithoutTree(t, Canon(ext)) else t;
      InstallSpec(cleared, u, c, zip, ext, IosManifestPath(otaDir, layout),
                  ManifestBytes(c, NewManifest(appVersion, d)),
                  RemovedBundleDir(OldManifestOf(t, c, otaDir, layout), otaDir, d.otaDeploymentID))
  }

  /** `deploy(config)`: the settlement and the tree it leaves. */
  function DeploySpec(t: Tree, u: set<Path>, c: Codecs, otaDir: string, layout: IosLayout, appVersion: string,
                      config: map<string, Value>): (r: (Settlement, Tree))
    ensures ReadDeployConfig(config).Err? ==> r == (ReadDeployConfig(config).error, t)
    ensures ReadDeployConfig(config).Ok? ==> r == RequestSpec(t, u, c, otaDir, layout, appVersion, ReadDeployConfig(config).value)
  {
    match ReadDeployConfig(config)
    case Err(rejection) => (rejection, t)
    case Ok(d) => RequestSpec(t, u, c, otaDir, layout, appVersion, d)
  }

  /**
   * The module object: the disk, the codecs, the OTA directory `getOtaDir()` and the
   * app version `resolveAppVersion()`, both computed from the app bundle.
   */
  class OtaModule {
    const disk: Disk
    const codecs: Codecs
    const layout: IosLayout
    const otaDir: string
    const appVersion: string

    /** `init`: the OTA directory is created, a failure only logged. */
    constructor (disk: Disk, codecs: Codecs, bundle: IosBundle, layout: IosLayout)
      modifies disk
      ensures this.disk == disk && this.codecs == codecs && this.layout == layout
      ensures otaDir == IosOtaDir(bundle, layout) && appVersion == IosAppVersion(bundle)
      ensures disk.tree == WithDirs(old(disk.tree), Canon(IosOtaDir(bundle, layout)))
    {
      this.disk := disk;
      this.codecs := codecs;
      this.layout := layout;
      otaDir := IosOtaDir(bundle, layout);
      appVersion := IosAppVersion(bundle);
      new;
      var _ := disk.Mkdirs(otaDir);
    }

    /**
     * `download(config)` with the runtime URL, the UUID and what URL encoding makes of
     * the url. The handler is returned so that the session's delegate calls can be
     * made on it; `DownloadSettlement(handler.calls, name)` is the promise then.
     */
    method Download(config: map<string, Value>, runtimeUrl: Option<string>, uuid: string, encoded: Option<string>)
      returns (settlement: Settlement, handler: Option<DownloadIos.Handler>)
      modifies disk
      ensures !old(disk.Exists(otaDir)) && !DownloadIos.DirectoryReady(WithDirs(old(disk.tree), Canon(otaDir)), otaDir) ==>
        settlement == Rejected(OtaDownloadFailed, "Failed creating ota directories") && handler.None?
      ensures old(disk.Exists(otaDir)) ==> disk.tree == old(disk.tree)
      ensures !old(disk.Exists(otaDir)) ==> disk.tree == WithDirs(old(disk.tree), Canon(otaDir))
      ensures (old(disk.Exists(otaDir)) || DownloadIos.DirectoryReady(disk.tree, otaDir)) && DownloadUrl(config, runtimeUrl).Err? ==>
        settlement == DownloadUrl(config, runtimeUrl).error && handler.None?
      ensures handler.Some? ==>
        DownloadUrl(config, runtimeUrl).Ok? && fresh(handler.value) && handler.value.disk == disk &&
        !handler.value.reportsProgress && handler.value.mimeType.None? &&
        handler.value.downloadPath == IosResolve(otaDir, "/" + ZipFilename(uuid)) &&
        settlement == DownloadSettlement(handler.value.calls, ZipFilename(uuid)) &&
        (encoded.None? <==> settlement == Rejected(OtaDownloadFailed, "OTA download failed.")) &&
        (encoded.Some? ==> settlement.Pending?)
    {
      var ready := PrepareOtaDir();
      if !ready {
        return Rejected(OtaDownloadFailed, "Failed creating ota directories"), None;
      }
      settlement, handler := Start(config, runtimeUrl, uuid, encoded);
    }

    /** The start of `download`: the OTA directory is created when it is missing; false when it still is not a directory. */
    method PrepareOtaDir() returns (ready: bool)
      modifies disk
      ensures ready <==> old(disk.Exists(otaDir)) || DownloadIos.DirectoryReady(WithDirs(old(disk.tree), Canon(otaDir)), otaDir)
      ensures disk.tree == if old(disk.Exists(otaDir)) then old(disk.tree) else WithDirs(old(disk.tree), Canon(otaDir))
    {
      ready := true;
      if !disk.Exists(otaDir) {
        var _ := disk.Mkdirs(otaDir);
        ready := DownloadIos.DirectoryReady(disk.tree, otaDir);
      }
    }

    /** The rest of `download`: the url checks, then a handler without a configuration or progress callback. */
    method Start(config: map<string, Value>, runtimeUrl: Option<string>, uuid: string, encoded: Option<string>)
      returns (settlement: Settlement, handler: Option<DownloadIos.Handler>)
      ensures DownloadUrl(config, runtimeUrl).Err? <==> handler.None?
      ensures handler.None? ==> settlement == DownloadUrl(config, runtimeUrl).error
      ensures handler.Some? ==>
        fresh(handler.value) && handler.value.disk == disk &&
        !handler.value.reportsProgress && handler.value.mimeType.None? &&
        handler.value.downloadPath == IosResolve(otaDir, "/" + ZipFilename(uuid)) &&
        settlement == DownloadSettlement(handler.value.calls, ZipFilename(uuid)) &&
        (encoded.None? <==> settlement == Rejected(OtaDownloadFailed, "OTA download failed.")) &&
        (encoded.Some? ==> settlement.Pending?)
    {
      var url := DownloadUrl(config, runtimeUrl);
      if url.Err? {
        return url.error, None;
      }
      var zipFilename := ZipFilename(uuid);
      var h := new DownloadIos.Handler(disk, map[], false);
      var _ := h.Download(url.value, IosResolve(otaDir, "/" + zipFilename), encoded);
      settlement := DownloadSettlement(h.calls, zipFilename);
      handler := Some(h);
    }

    /** `deploy(config)`: the final state `DeploySpec` describes, and the events in the order `DeploysInOrder` states. */
    method Deploy(config: map<string, Value>) returns (settlement: Settlement, ghost manifestAt: nat)
      modifies disk
      ensures (settlement, disk.tree) == DeploySpec(old(disk.tree), disk.unwritable, codecs, otaDir, layout, appVersion, config)
      ensures ReadDeployConfig(config).Err? ==> disk.log == old(disk.log)
      ensures ReadDeployConfig(config).Ok? ==> DeploysInOrder(ReadDeployConfig(config).value, settlement, manifestAt, old(disk.log), disk.log)
    {
      var request := ReadDeployConfig(config);
      if request.Err? {
        return request.error, 0;
      }
      settlement, manifestAt := Request(request.value);
    }

    /**
     * The order of a deploy's events after `before`: before the manifest write (event
     * `manifestAt`) the only tree removal is that of a stale extraction directory;
     * after it come only removals of trees, the old bundle's and the package; a failed
     * unzip or write ends by removing the extraction directory; a missing package
     * changes nothing.
     */
    ghost predicate DeploysInOrder(d: DeployConfig, settlement: Settlement, manifestAt: nat, before: seq<Event>, log: seq<Event>)
      reads this
    {
      var ext := Canon(IosResolve(otaDir, "/" + d.extractionDir));
      |before| <= |log| && log[..|before|] == before &&
      (settlement.Resolved? ==>
        |before| <= manifestAt < |log| &&
        log[manifestAt] == Wrote(Canon(IosManifestPath(otaDir, layout)), ManifestBytes(codecs, NewManifest(appVersion, d))) &&
        (forall i :: |before| <= i < manifestAt && log[i].RemovedTree? ==> log[i] == RemovedTree(ext)) &&
        forall i :: manifestAt < i < |log| ==> log[i].RemovedTree?) &&
      (settlement == UnzipFailed || settlement == ManifestFailed ==>
        |log| > 0 && log[|log| - 1] == RemovedTree(ext)) &&
      (!(settlement.Resolved? || settlement == UnzipFailed || settlement == ManifestFailed) ==> log == before)
    }

    /** `deploy` after the keys are read, as `RequestSpec` describes it. */
    method Request(d: DeployConfig) returns (settlement: Settlement, ghost manifestAt: nat)
      modifies disk
      ensures (settlement, disk.tree) == RequestSpec(old(disk.tree), disk.unwritable, codecs, otaDir, layout, appVersion, d)
      ensures DeploysInOrder(d, settlement, manifestAt, old(disk.log), disk.log)
    {
      manifestAt := 0;
      var zipPath := IosResolve(otaDir, "/" + d.otaPackage);
      var unzipDir := IosResolve(otaDir, "/" + d.extractionDir);
      var oldManifest := ReadManifestAsDictionary(disk.Contents(IosManifestPath(otaDir, layout)), codecs);
      if !disk.Exists(zipPath) {
        return ZipMissing, 0;
      }
      ghost var stale: seq<Event> := [];
      if disk.Exists(unzipDir) {
        var _ := disk.RemoveTree(unzipDir);
        stale := [RemovedTree(Canon(unzipDir))];
      }
      assert disk.log == old(disk.log) + stale;
      ghost var cleared := disk.log;
      settlement, manifestAt := Install(zipPath, unzipDir, JObject(ToMap(NewManifest(appVersion, d))),
                                        RemovedBundleDir(oldManifest, otaDir, d.otaDeploymentID));
      if settlement.Resolved? {
        StaleRemovalFirst(old(disk.log), stale, disk.log, manifestAt, RemovedTree(Canon(unzipDir)));
      } else {
        assert disk.log[..|old(disk.log)|] == disk.log[..|cleared|][..|old(disk.log)|];
      }
    }

    /** From the unzip on, as `InstallSpec` describes it; the manifest is written at event `manifestAt`. */
    method Install(zip: Path, ext: Path, json: Value, removed: Option<Path>) returns (settlement: Settlement, ghost manifestAt: nat)
      modifies disk
      ensures (settlement, disk.tree) ==
        InstallSpec(old(disk.tree), disk.unwritable, codecs, zip, ext, IosManifestPath(otaDir, layout), codecs.printJson(json), removed)
      ensures |old(disk.log)| <= |disk.log| && disk.log[..|old(disk.log)|] == old(disk.log)
      ensures settlement.Resolved? ==>
        |old(disk.log)| <= manifestAt < |disk.log| &&
        disk.log[manifestAt] == Wrote(Canon(IosManifestPath(otaDir, layout)), codecs.printJson(json)) &&
        NoTreeRemoval(disk.log[|old(disk.log)|..manifestAt]) &&
        forall i :: manifestAt < i < |disk.log| ==> disk.log[i].RemovedTree?
      ensures !settlement.Resolved? ==> |disk.log| > 0 && disk.log[|disk.log| - 1] == RemovedTree(Canon(ext))
    {
      var ok;
      ok, manifestAt := Stage(zip, ext, json);
      ghost var written := disk.log;
      if !ok.Resolved? {
        var _ := disk.RemoveTree(ext);
        PrefixOfPrefix(old(disk.log), written, disk.log);
        return ok, 0;
      }
      Cleanup(zip, removed);
      ExtendsWritten(old(disk.log), written, disk.log, manifestAt);
      settlement := Resolved(JNull);
    }

    /** After the manifest: the old bundle directory, if any, and the package are removed, their failures only logged. */
    method Cleanup(zip: Path, removed: Option<Path>)
      modifies disk
      ensures disk.tree == WithoutTree(if removed.Some? then WithoutTree(old(disk.tree), Canon(removed.value)) else old(disk.tree), Canon(zip))
      ensures |old(disk.log)| < |disk.log| && disk.log[..|old(disk.log)|] == old(disk.log)
      ensures forall i :: |old(disk.log)| <= i < |disk.log| ==> disk.log[i].RemovedTree?
    {
      if removed.Some? {
        var _ := disk.RemoveTree(removed.value);
      }
      var _ := disk.RemoveTree(zip);
    }

    /** The unzip and the manifest write, which becomes event `manifestAt`. */
    method Stage(zip: Path, ext: Path, json: Value) returns (settlement: Settlement, ghost manifestAt: nat)
      modifies disk
      ensures (settlement, disk.tree) ==
        StageSpec(old(disk.tree), disk.unwritable, codecs, zip, ext, IosManifestPath(otaDir, layout), codecs.printJson(json))
      ensures GrowsWithoutRemoval(old(disk.log), disk.log)
      ensures settlement.Resolved? ==> manifestAt == |disk.log| - 1 && |old(disk.log)| <= manifestAt
      ensures settlement.Resolved? ==> disk.log[manifestAt] == Wrote(Canon(IosManifestPath(otaDir, layout)), codecs.printJson(json))
      ensures settlement.Resolved? ==> NoTreeRemoval(disk.log[|old(disk.log)|..manifestAt])
    {
      manifestAt := 0;
      var unzipped := Unzip(zip, ext);
      if !unzipped {
        return UnzipFailed, 0;
      }
      ghost var mid := disk.log;
      var written := disk.Write(IosManifestPath(otaDir, layout), codecs.printJson(json));
      if !written {
        return ManifestFailed, 0;
      }
      manifestAt := |disk.log| - 1;
      GrowsThenAppend(old(disk.log), mid, Wrote(Canon(IosManifestPath(otaDir, layout)), codecs.printJson(json)));
      settlement := Resolved(JNull);
    }

    /** SSZipArchive's unzip with `overwrite: false`: the entries in order until one fails. */
    method Unzip(zip: Path, dir: Path) returns (ok: bool)
      modifies disk
      ensures (ok, disk.tree) == IosUnzipSpec(old(disk.tree), disk.unwritable, codecs, zip, dir)
      ensures GrowsWithoutRemoval(old(disk.log), disk.log)
    {
      GrowsByOptional(old(disk.log), disk.log, MadeDirs(dir));
      if !disk.IsFile(zip) {
        return false;
      }
      var archive := codecs.zipEntries(disk.Contents(zip).value);
      if archive.None? {
        return false;
      }
      var entries := archive.value;
      ghost var t0 := disk.tree;
      ok := true;
      var i := 0;
      while i < |entries| && ok
        invariant 0 <= i <= |entries|
        invariant (ok, disk.tree) == IosExtractSpec(t0, disk.unwritable, dir, entries[..i])
        invariant GrowsWithoutRemoval(old(disk.log), disk.log)
        decreases |entries| - i
      {
        assert entries[..i + 1][..i] == entries[..i];
        ghost var before := disk.log;
        ok := ExtractEntry(dir, entries[i]);
        GrowsTransitive(old(disk.log), before, disk.log);
        i := i + 1;
      }
      IosExtractStops(t0, disk.unwritable, dir, entries, i);
    }

    /** One entry of the unzip loop, as `IosEntrySpec` says. */
    method ExtractEntry(dir: Path, e: ZipEntry) returns (ok: bool)
      modifies disk
      ensures (ok, disk.tree) == IosEntrySpec(old(disk.tree), disk.unwritable, dir, e)
      ensures GrowsWithoutRemoval(old(disk.log), disk.log)
    {
      var target := dir + "/" + e.name;
      if e.isDirectory {
        var _ := disk.Mkdirs(target);
        GrowsByOptional(old(disk.log), disk.log, MadeDirs(Canon(target)));
        return true;
      }
      var _ := disk.Mkdirs(DeletingLastPathComponent(target));
      ghost var mid := disk.log;
      GrowsByOptional(old(disk.log), mid, MadeDirs(Canon(DeletingLastPathComponent(target))));
      if disk.Exists(target) {
        return true;
      }
      ok := disk.Write(target, e.data);
      GrowsByOptional(mid, disk.log, Wrote(Canon(target), e.data));
      GrowsTransitive(old(disk.log), mid, disk.log);
    }
  }

  /** Once an entry fails, the rest leave the result alone. */
  lemma {:induction false} IosExtractStops(t: Tree, u: set<Path>, dir: Path, entries: seq<ZipEntry>, i: nat)
    requires i <= |entries|
    requires var r := IosExtractSpec(t, u, dir, entries[..i]); i == |entries| || !r.0
    ensures IosExtractSpec(t, u, dir, entries) == IosExtractSpec(t, u, dir, entries[..i])
    decreases |entries| - i
  {
    if i < |entries| {
      assert entries[..i + 1][..i] == entries[..i];
      IosExtractStops(t, u, dir, entries, i + 1);
    } else {
      assert entries[..i] == entries;
    }
  }

  /** A stale-directory removal followed by an install that writes at `at` keeps the order the deploy promises. */
  lemma StaleRemovalFirst(before: seq<Event>, stale: seq<Event>, log: seq<Event>, at: nat, e: Event)
    requires stale == [] || stale == [e]
    requires |before + stale| <= at < |log| && log[..|before + stale|] == before + stale
    requires NoTreeRemoval(log[|before + stale|..at])
    ensures |before| <= at && log[..|before|] == before
    ensures forall i :: |before| <= i < at && log[i].RemovedTree? ==> log[i] == e
  {
    assert log[..|before|] == log[..|before + stale|][..|before|];
    forall i | |before + stale| <= i < at ensures !log[i].RemovedTree? {
      assert log[i] == log[|before + stale|..at][i - |before + stale|];
    }
    forall i | |before| <= i < |before + stale| ensures log[i] == e {
      assert log[i] == (before + stale)[i];
    }
  }

  // What a deploy leaves behind.

  /** The extraction directory of a canonical relative name is a canonical directory path. */
  lemma ExtractionDirIsDirPath(otaDir: Path, extractionDir: string)
    requires IsDirPath(otaDir) && IsRelative(extractionDir)
    ensures IsDirPath(IosResolve(otaDir, "/" + extractionDir))
  {
    assert IosResolve(otaDir, "/" + extractionDir) == otaDir + "/" + extractionDir;
    CanonJoin(otaDir, extractionDir);
    CanonFixed(otaDir + "/" + extractionDir);
  }

  /** A failed unzip or manifest write changes nothing outside the extraction directory. */
  lemma InstallFailureKeepsOutside(t: Tree, u: set<Path>, c: Codecs, zip: Path, ext: Path, manifestPath: Path,
                                   bytes: Bytes, removed: Option<Path>)
    requires IsDirPath(ext)
    requires InstallSpec(t, u, c, zip, ext, manifestPath, bytes, removed).0 != Resolved(JNull)
    ensures var r := InstallSpec(t, u, c, zip, ext, manifestPath, bytes, removed).1;
      forall k :: k in t && !Within(k, ext) ==> k in r && r[k] == t[k]
  {
    CanonFixed(ext);
    if IsFileIn(t, Canon(zip)) && c.zipEntries(t[Canon(zip)].data).Some? {
      IosExtractKeepsOutside(t, u, ext, c.zipEntries(t[Canon(zip)].data).value);
    }
  }

  /**
   * A failed deploy leaves nothing within the extraction directory and changes
   * nothing outside it; in particular the package and the previous manifest remain.
   */
  lemma DeployFailureCleansUp(t: Tree, u: set<Path>, c: Codecs, otaDir: Path, layout: IosLayout, appVersion: string,
                              config: map<string, Value>)
    requires IsDirPath(otaDir)
    requires ReadDeployConfig(config).Ok? && IsRelative(ReadDeployConfig(config).value.extractionDir)
    requires var s := DeploySpec(t, u, c, otaDir, layout, appVersion, config).0; s == UnzipFailed || s == ManifestFailed
    ensures var ext := IosResolve(otaDir, "/" + ReadDeployConfig(config).value.extractionDir);
      var r := DeploySpec(t, u, c, otaDir, layout, appVersion, config).1;
      (forall k :: k in r ==> !Within(k, ext)) &&
      (forall k :: k in t && !Within(k, ext) ==> k in r && r[k] == t[k])
  {
    var d := ReadDeployConfig(config).value;
    var ext := IosResolve(otaDir, "/" + d.extractionDir);
    ExtractionDirIsDirPath(otaDir, d.extractionDir);
    CanonFixed(ext);
    var cleared := if ext in t then WithoutTree(t, ext) else t;
    InstallFailureKeepsOutside(cleared, u, c, IosResolve(otaDir, "/" + d.otaPackage), ext, IosManifestPath(otaDir, layout),
                               ManifestBytes(c, NewManifest(appVersion, d)),
                               RemovedBundleDir(OldManifestOf(t, c, otaDir, layout), otaDir, d.otaDeploymentID));
  }

  /** A successful install leaves the manifest it wrote, unless the cleanup that follows removes it. */
  lemma InstallWritesManifest(t: Tree, u: set<Path>, c: Codecs, zip: Path, ext: Path, manifestPath: Path,
                              bytes: Bytes, removed: Option<Path>)
    requires InstallSpec(t, u, c, zip, ext, manifestPath, bytes, removed).0.Resolved?
    requires !Within(Canon(manifestPath), Canon(zip))
    requires removed.Some? ==> !Within(Canon(manifestPath), Canon(removed.value))
    ensures var r := InstallSpec(t, u, c, zip, ext, manifestPath, bytes, removed).1;
      IsFileIn(r, Canon(manifestPath)) && r[Canon(manifestPath)].data == bytes
  {
  }

  /**
   * After a successful deploy `readManifestAsDictionary()` reads the new manifest's
   * dictionary back, and the three keys the JavaScript side reads are those it was
   * written with, provided the JSON codec round-trips and the cleanup does not cover
   * the manifest.
   */
  lemma DeployedManifestReadsBack(t: Tree, u: set<Path>, c: Codecs, otaDir: Path, layout: IosLayout, appVersion: string,
                                  config: map<string, Value>)
    requires JsonRoundTrips(c)
    requires DeploySpec(t, u, c, otaDir, layout, appVersion, config).0.Resolved?
    requires var d := ReadDeployConfig(config).value;
      var removed := RemovedBundleDir(OldManifestOf(t, c, otaDir, layout), otaDir, d.otaDeploymentID);
      var manifest := Canon(IosManifestPath(otaDir, layout));
      !Within(manifest, Canon(IosResolve(otaDir, "/" + d.otaPackage))) &&
      (removed.Some? ==> !Within(manifest, Canon(removed.value)))
    ensures var d := ReadDeployConfig(config).value;
      var after := OldManifestOf(DeploySpec(t, u, c, otaDir, layout, appVersion, config).1, c, otaDir, layout);
      after == Some(ToMap(NewManifest(appVersion, d))) && IosManifest(after.value) == Some(NewManifest(appVersion, d))
  {
    var d := ReadDeployConfig(config).value;
    var ext := IosResolve(otaDir, "/" + d.extractionDir);
    var m := NewManifest(appVersion, d);
    var cleared := if Canon(ext) in t then WithoutTree(t, Canon(ext)) else t;
    InstallWritesManifest(cleared, u, c, IosResolve(otaDir, "/" + d.otaPackage), ext, IosManifestPath(otaDir, layout),
                          ManifestBytes(c, m), RemovedBundleDir(OldManifestOf(t, c, otaDir, layout), otaDir, d.otaDeploymentID));
    ManifestReadersAgree(c, m);
  }

  /** The bundle file name is a single canonical path component. */
  lemma BundleFileNameIsName()
    ensures IsRelative(BundleFileName) && '/' !in BundleFileName
  {
  }

  /** The old-bundle directory of a manifest written for extraction directory `ed` is `ed` itself. */
  lemma BundleDirOfManifest(ed: string)
    requires IsRelative(ed)
    ensures DeletingLastPathComponent(ed + "/" + BundleFileName) == ed
  {
    BundleFileNameIsName();
    CanonJoin(ed, BundleFileName);
    ParentOfJoin(ed, BundleFileName);
  }

  /**
   * As on Android, redeploying into the extraction directory the previous manifest
   * names, under another deployment id, removes that directory, the bundle just
   * unpacked included, after the new manifest pointing at it has been written.
   */
  lemma RedeployIntoSameDirRemovesIt(t: Tree, u: set<Path>, c: Codecs, otaDir: Path, layout: IosLayout, appVersion: string,
                                     d: DeployConfig, previous: map<string, Value>)
    requires IsRelative(d.extractionDir)
    requires OldManifestOf(t, c, otaDir, layout) == Some(previous)
    requires StringMember(previous, IdKey) != Some(d.otaDeploymentID)
    requires StringMember(previous, BundlePathKey) == Some(d.extractionDir + "/" + BundleFileName)
    requires RequestSpec(t, u, c, otaDir, layout, appVersion, d).0.Resolved?
    ensures var ext := Canon(IosResolve(otaDir, "/" + d.extractionDir));
      forall k :: k in RequestSpec(t, u, c, otaDir, layout, appVersion, d).1 ==> !Within(k, ext)
  {
    var zip := IosResolve(otaDir, "/" + d.otaPackage);
    var ext := IosResolve(otaDir, "/" + d.extractionDir);
    var cleared := if Canon(ext) in t then WithoutTree(t, Canon(ext)) else t;
    var removed := RemovedBundleDir(OldManifestOf(t, c, otaDir, layout), otaDir, d.otaDeploymentID);
    assert removed == Some(ext) by {
      BundleDirOfManifest(d.extractionDir);
    }
    var bytes := ManifestBytes(c, NewManifest(appVersion, d));
    assert RequestSpec(t, u, c, otaDir, layout, appVersion, d) ==
      InstallSpec(cleared, u, c, zip, ext, IosManifestPath(otaDir, layout), bytes, removed);
    InstallRemovesOldBundleDir(cleared, u, c, zip, ext, IosManifestPath(otaDir, layout), bytes);
  }

  /** A resolved install whose old bundle directory is the extraction directory leaves nothing at or below it. */
  lemma InstallRemovesOldBundleDir(t: Tree, u: set<Path>, c: Codecs, zip: Path, ext: Path, manifestPath: Path, bytes: Bytes)
    requires InstallSpec(t, u, c, zip, ext, manifestPath, bytes, Some(ext)).0.Resolved?
    ensures forall k :: k in InstallSpec(t, u, c, zip, ext, manifestPath, bytes, Some(ext)).1 ==> !Within(k, Canon(ext))
  {
  }
}
