# mendix-native core, modelled in Dafny

This project is a Dafny model of the native core of mendix-native. That is the React Native module set that Mendix apps use on Android (Kotlin and Java) and iOS (Swift), plus one TypeScript helper. The model covers these parts:

- **Over-the-air (OTA) updates.** `download` checks the config and that the URL starts with the runtime URL, then names a fresh `<uuid>.zip` under the OTA directory. `deploy` runs its fixed sequence over the file system:
  - check the config keys;
  - read the old manifest;
  - check the package exists;
  - delete a stale extraction directory;
  - unzip;
  - write the manifest;
  - delete the old bundle;
  - delete the zip.

  The modules are `OtaAndroid`, `OtaIos`, `OtaHelpers` and `OtaManifest`. The file system is `FileTree`, a map from paths to files and directories behind a `Disk` class.
- **Bundle selection** at start-up (`BundleResolver`). The OTA bundle is used only when the manifest parses, its app version equals the running one, and the bundle file exists. Otherwise the app falls back to the next source.
- **The cookie-encryption interceptor** (`CookieInterceptor`).
  - Requests to the runtime host have their `MxEnc` cookies stripped of the prefix, split at `___enc___` and decrypted.
  - Each `Set-Cookie` of a response becomes an encrypted cookie plus an expired plaintext companion.
- **The file-system bridges** on both platforms (`FsAndroid`, `FsIos`), with Android's `FileBackend`:
  - the whitelist of accessible directories;
  - the error code each failure is reported with;
  - the file operations themselves.
- **The download handlers** (`DownloadAndroid`, `DownloadIos`):
  - config defaults;
  - the throttled progress callback;
  - the byte-copy loop;
  - how exceptions are classified;
  - the order of iOS's finish-download decisions.
- **Smaller helpers:**
  - the backwards-compatibility table (`Compat`);
  - URL building (`AppUrl`);
  - the Android developer preferences (`AppPreferences`);
  - the iOS warnings filter (`WarningsFilter`);
  - the three-finger developer-menu gesture (`TouchHandler`);
  - `relativeToDocumentsAbsolutePath` and `cast` from `file-system.ts` (`FileSystemJs`);
  - the keychain clean-up (`Keychain`);
  - the runtime-info record (`RuntimeInfo`).

Code that changes state step by step is modelled as classes and methods. This covers deploy, the file backend, the bridges, the download loop, the compat holders, the preferences and the touch handler. Each method is proved to end in the state given by a specification function. Its event log, where it has one, lets lemmas state the order of its steps. Pure code is modelled as functions with lemmas.

Some capabilities that lie outside the core are passed in as function-valued parameters:
- JSON text;
- zip listing;
- encryption;
- Base64;
- URL parsing;
- UUIDs;
- the network.

The legacy copies `android/mendixnative/.../fs/NativeFsModule.java` and `android/mendixnative/.../download/NativeDownloadModule.kt` have the same branches, error codes and constants as the Kotlin files the members below cite. The `FsAndroid` and `DownloadAndroid` members model them as well.

Some behaviours of the code that the model reproduces:
- On Android, the "delete a stale extraction directory" step of deploy only removes an empty directory. `deleteDirectory` goes through `collectFilesInDirectory`, which returns just the directory itself.
- Deploying a new deployment ID into the extraction directory the old manifest names deletes the freshly extracted bundle, on both platforms.
- No step confines the extraction directory under the OTA directory.
- Saving over an existing file with encryption on leaves it in plain text. The sealed temporary file is moved with `moveFile`, which decrypts it when encryption is on.
- The interceptor re-issues every cookie as a persistent one. `makeCookie` always calls `Cookie.Builder.expiresAt`, so a session cookie comes back with OkHttp's latest date as its expiry.

## Model

| member | source | states |
|---|---|---|
| Json.StringMember | ios/Modules/RuntimeInfoProvider/RuntimeInfo.swift:21-22 | a cast to `String` succeeds exactly for a member holding a string, and gives that string |
| Json.CoercedStringMember | android/src/main/java/com/mendix/mendixnative/react/ota/NativeOtaModule.kt:218-220 | `getString` fails exactly for a missing key, and gives a string member unchanged |
| Json.StrictReadingImpliesLenient | android/src/main/java/com/mendix/mendixnative/react/ota/NativeOtaModule.kt:218-220 | wherever the Swift cast reads a string, org.json reads the same one, and org.json also reads a number the cast refuses |
| OtaHelpers.Absolute | android/src/main/java/com/mendix/mendixnative/react/ota/OtaHelpers.kt:14-17 | `absolutePath` gives an absolute path and keeps one that already is |
| OtaHelpers.AndroidOtaDir | android/src/main/java/com/mendix/mendixnative/react/ota/OtaHelpers.kt:17 | the OTA directory is "Ota" resolved in the parent of `filesDir`, made absolute |
| OtaHelpers.AndroidOtaDirIsSibling | android/src/main/java/com/mendix/mendixnative/react/ota/OtaHelpers.kt:11-17 | for an ordinary `filesDir` the OTA directory is its sibling `<app dir>/Ota`, whose parent is the app directory |
| OtaHelpers.AndroidResolve | android/src/main/java/com/mendix/mendixnative/react/ota/OtaHelpers.kt:14-15 | a resolved path lies in the OTA directory; a relative name is joined to it with "/" |
| OtaHelpers.AndroidManifestPath | android/src/main/java/com/mendix/mendixnative/react/ota/OtaHelpers.kt:12-19 | the manifest is `<OTA dir>/manifest.json`, a direct child of the OTA directory |
| OtaHelpers.AndroidVersionCode | android/src/main/java/com/mendix/mendixnative/react/ota/OtaHelpers.kt:27-30 | `longVersionCode` from API 28 (P) on, `versionCode` below |
| OtaHelpers.AndroidAppVersion | android/src/main/java/com/mendix/mendixnative/react/ota/OtaHelpers.kt:21-33 | the app version is the version name (as a Kotlin template renders it), "-", then the version code |
| OtaHelpers.AndroidAppVersionSeparatesCodes | android/src/main/java/com/mendix/mendixnative/react/ota/OtaHelpers.kt:21-33 | with equal version names, app versions are equal exactly when the version codes are |
| OtaHelpers.AndroidNativeDependencies | android/src/main/java/com/mendix/mendixnative/react/ota/OtaHelpers.kt:35-42 | an empty resource gives the empty map; any other is what the JSON reader makes of it |
| OtaHelpers.InfoString | ios/Modules/NativeOtaModule/OtaHelpers.swift:5-18 | an Info.plist string, or "" when the dictionary or the string is missing |
| OtaHelpers.IosAppVersion | ios/Modules/NativeOtaModule/OtaHelpers.swift:20-22 | the app version is the short version, "-", then the build version |
| OtaHelpers.IosAppVersionSeparatesShortVersions | ios/Modules/NativeOtaModule/OtaHelpers.swift:20-22 | for short versions without "-", equal app versions mean equal short and build versions |
| OtaHelpers.IosOtaDir | ios/Modules/NativeOtaModule/OtaHelpers.swift:24-27 | the OTA directory is `<application support>/<bundle id>/<OTA dir name>`, with "" for what is missing |
| OtaHelpers.IosResolve | ios/Modules/NativeOtaModule/OtaHelpers.swift:33-35 | resolution is plain concatenation: the OTA directory followed by the path, no separator added |
| OtaHelpers.ResolveDiffersWithoutSlash | ios/Modules/NativeOtaModule/OtaHelpers.swift:29-35 | iOS with a leading "/" agrees with Android's resolution of a relative name; without it, the result is outside the OTA directory |
| OtaHelpers.IosManifestPath | ios/Modules/NativeOtaModule/OtaHelpers.swift:29-31 | the manifest is the OTA directory, "/", and the manifest file name |
| OtaManifest.ToMap | android/src/main/java/com/mendix/mendixnative/react/ota/NativeOtaModule.kt:233-239 | `toHasMap` holds exactly the three keys, each with its field as a string |
| OtaManifest.ManifestFromObject | android/src/main/java/com/mendix/mendixnative/react/ota/NativeOtaModule.kt:216-221 | a manifest exactly when all three keys are present, each read with org.json's coercing `getString` |
| OtaManifest.ReadManifestJson | android/src/main/java/com/mendix/mendixnative/react/ota/NativeOtaModule.kt:213-225 | none for an unreadable file or a non-object; otherwise the object's three keys |
| OtaManifest.ManifestRoundTrip | android/src/main/java/com/mendix/mendixnative/react/ota/NativeOtaModule.kt:213-239 | the manifest Android writes reads back as the same manifest |
| OtaManifest.ManifestIgnoresOtherKeys | android/src/main/java/com/mendix/mendixnative/react/ota/NativeOtaModule.kt:217-221 | only the three keys matter: objects agreeing on them decode alike |
| OtaManifest.ReadManifestAsDictionary | ios/Modules/NativeOtaModule/OtaHelpers.swift:37-50 | a dictionary exactly when the file is readable and parses to a JSON object; nil for a missing file, a parse error or another top level |
| OtaManifest.IosManifest | ios/Modules/JSBundleFileProvider/OtaJSBundleFileProvider.swift:33-47 | the iOS `as? String` reading: a manifest exactly when all three members are strings |
| OtaManifest.ManifestReadersAgree | ios/Modules/NativeOtaModule/NativeOtaModule.swift:146-162 | a written manifest reads back the same through the iOS dictionary reader and the Android reader |
| OtaManifest.NumericIdReadsOnlyOnAndroid | android/src/main/java/com/mendix/mendixnative/react/ota/NativeOtaModule.kt:216-221 | a numeric id is coerced to text on Android and refused on iOS |
| FileBackend.MkParent | android/src/main/java/com/mendix/mendixnative/react/fs/FileBackend.kt:74 | `parentFile?.mkdirs()` keeps every entry and adds only directories |
| FileBackend.DeleteSpec | android/src/main/java/com/mendix/mendixnative/react/fs/FileBackend.kt:247-249 | `File.delete()` removes a file or an empty directory, leaves a non-empty directory, and touches nothing else |
| FileBackend.WriteSpec | android/src/main/java/com/mendix/mendixnative/react/fs/FileBackend.kt:81 | a `FileOutputStream` write succeeds exactly when the path is writable, and then stores exactly the bytes there |
| FileBackend.PlainWriteSpec | android/src/main/java/com/mendix/mendixnative/react/fs/FileBackend.kt:79-82 | the parent directories are created, then the bytes written; the only failure is FileNotFoundException, after the directories exist |
| FileBackend.PlainReadSpec | android/src/main/java/com/mendix/mendixnative/react/fs/FileBackend.kt:257-261 | `readAsUnencryptedFile` gives a file's bytes, and FileNotFoundException for anything that is not a file |
| FileBackend.ReadSpec | android/src/main/java/com/mendix/mendixnative/react/fs/FileBackend.kt:47-58 | with encryption off, the plain read; with it on, the decrypted bytes when they decrypt and otherwise the plain-read fallback; an error only for a missing file |
| FileBackend.RenameSpec | android/src/main/java/com/mendix/mendixnative/react/fs/FileBackend.kt:236-245 | `moveFileByRename` fails and changes nothing unless the source is a file |
| FileBackend.SaveSpec | android/src/main/java/com/mendix/mendixnative/react/fs/FileBackend.kt:26-45 | with encryption off or a "GUID" path, the plain write; otherwise a sealed write to the path, or to path+"temp" followed by `moveFile` when the file exists |
| FileBackend.CollectFilesInDirectory | android/src/main/java/com/mendix/mendixnative/react/fs/FileBackend.kt:226-234 | the results of `plus` are discarded: the list is only the directory itself, and none for a non-directory |
| FileBackend.EntrySpec | android/src/main/java/com/mendix/mendixnative/react/fs/FileBackend.kt:156-167 | a directory entry only creates its parent; a file entry creates the parent and writes its bytes at `directory/name` |
| FileBackend.UnzipSpec | android/src/main/java/com/mendix/mendixnative/react/fs/FileBackend.kt:154-170 | an unreadable or unparsable archive throws and changes nothing; otherwise the entries are extracted in order |
| FileBackend.ListSpec | android/src/main/java/com/mendix/mendixnative/react/fs/FileBackend.kt:119-122 | the child names of a directory, and the empty array for anything else |
| FileBackend.Backend.SetEncryptionEnabled | android/src/main/java/com/mendix/mendixnative/react/fs/FileBackend.kt:22-24 | sets the flag and nothing else |
| FileBackend.Backend.Read | android/src/main/java/com/mendix/mendixnative/react/fs/FileBackend.kt:47-58 | `read` on the current disk and flag is ReadSpec |
| FileBackend.Backend.List | android/src/main/java/com/mendix/mendixnative/react/fs/FileBackend.kt:119-122 | `list` on the current disk is ListSpec |
| FileBackend.Backend.MakeParent | android/src/main/java/com/mendix/mendixnative/react/fs/FileBackend.kt:74 | the disk becomes MkParent of the old one, and no tree is removed |
| FileBackend.Backend.PlainWrite | android/src/main/java/com/mendix/mendixnative/react/fs/FileBackend.kt:79-82 | the disk and the thrown fault are PlainWriteSpec's; a success logs the write last |
| FileBackend.Backend.DeleteIgnoringResult | android/src/main/java/com/mendix/mendixnative/react/fs/FileBackend.kt:247-249 | the disk becomes DeleteSpec of the old one |
| FileBackend.Backend.MoveFile | android/src/main/java/com/mendix/mendixnative/react/fs/FileBackend.kt:97-109 | the disk and the thrown fault are MoveFileSpec's: rename when unencrypted, else read, plain write and delete |
| FileBackend.Backend.Save | android/src/main/java/com/mendix/mendixnative/react/fs/FileBackend.kt:26-45 | the disk and the thrown fault are SaveSpec's |
| FileBackend.Backend.DeleteFile | android/src/main/java/com/mendix/mendixnative/react/fs/FileBackend.kt:111-113 | the disk becomes DeleteSpec of the old one |
| FileBackend.Backend.DeleteDirectory | android/src/main/java/com/mendix/mendixnative/react/fs/FileBackend.kt:220-224 | the loop deletes the collected files in reverse; the disk becomes DeleteDirectorySpec of the old one |
| FileBackend.Backend.Unzip | android/src/main/java/com/mendix/mendixnative/react/fs/FileBackend.kt:154-170 | the loop over the entries gives UnzipSpec's disk and fault, stopping at the first entry that throws |
| FileBackend.Backend.ExtractEntry | android/src/main/java/com/mendix/mendixnative/react/fs/FileBackend.kt:156-167 | one pass of the loop is EntrySpec |
| FileBackend.Backend.WriteJson | android/src/main/java/com/mendix/mendixnative/react/fs/FileBackend.kt:172-177 | the printed JSON is saved through SaveSpec, so the encryption rule applies |
| FileBackend.Backend.WriteUnencryptedJson | android/src/main/java/com/mendix/mendixnative/react/fs/FileBackend.kt:179-183 | the printed JSON is written plain whatever the flag, and the write is logged last |
| FileBackend.Backend.MoveDirectory | android/src/main/java/com/mendix/mendixnative/react/fs/FileBackend.kt:186-218 | the result and the disk are MoveDirectorySpec's for the device's API level |
| FileBackend.ExtractStopsAtFailure | android/src/main/java/com/mendix/mendixnative/react/fs/FileBackend.kt:162-168 | once an entry throws, the later entries change nothing |
| FileBackend.SaveThenRead | android/src/main/java/com/mendix/mendixnative/react/fs/FileBackend.kt:26-58 | `read` returns what `save` stored, with encryption on or off |
| FileBackend.SaveStoredForm | android/src/main/java/com/mendix/mendixnative/react/fs/FileBackend.kt:29-41 | with encryption on a new file is stored sealed, but an overwritten one ends up in plaintext and the temp file is gone |
| FileBackend.SaveOverrideStored | android/src/main/java/com/mendix/mendixnative/react/fs/FileBackend.kt:39-41 | overwriting with encryption on decrypts the temp file into the path and deletes the temp file |
| FileBackend.MoveFileMoves | android/src/main/java/com/mendix/mendixnative/react/fs/FileBackend.kt:97-109 | a move that does not throw leaves `read(src)` at the target and nothing at the source; one that throws keeps a file source |
| FileBackend.MoveByCopy | android/src/main/java/com/mendix/mendixnative/react/fs/FileBackend.kt:101-108 | the copy-and-delete half of `moveFile`, from the tree a failed rename left |
| FileBackend.CopyThenDelete | android/src/main/java/com/mendix/mendixnative/react/fs/FileBackend.kt:104-107 | a written copy followed by deleting the source leaves the copy and removes the source |
| FileBackend.MoveFileOntoItselfDeletes | android/src/main/java/com/mendix/mendixnative/react/fs/FileBackend.kt:101-107 | with encryption on, moving a file onto itself deletes it |
| FileBackend.MoveFileOntoItselfPlain | android/src/main/java/com/mendix/mendixnative/react/fs/FileBackend.kt:101 | with encryption off the same move is a rename and keeps the file |
| FileBackend.DeleteDirectoryOnlyWhenEmpty | android/src/main/java/com/mendix/mendixnative/react/fs/FileBackend.kt:220-234 | `deleteDirectory` removes a directory exactly when it is empty and touches nothing else |
| FileBackend.MoveDirectoryBeforeOMovesNothing | android/src/main/java/com/mendix/mendixnative/react/fs/FileBackend.kt:204-217 | below API 26 every directory move reports success; a non-empty directory stays, an empty one disappears |
| FileBackend.MoveDirectoryFromOMovesAll | android/src/main/java/com/mendix/mendixnative/react/fs/FileBackend.kt:190-203 | from API 26 a successful move relocates every entry of the source below the target |
| FileBackend.ExtractKeepsOutside | android/src/main/java/com/mendix/mendixnative/react/fs/FileBackend.kt:154-170 | extraction changes nothing outside the extraction directory |
| FileBackend.EntryKeepsOutside | android/src/main/java/com/mendix/mendixnative/react/fs/FileBackend.kt:156-167 | one entry writes only at or below the extraction directory |
| FileBackend.ExtractWritesFiles | android/src/main/java/com/mendix/mendixnative/react/fs/FileBackend.kt:160-168 | after a clean extraction each file entry's bytes are at its target unless a later entry has the same name |
| FileBackend.ExtractFailureKind | android/src/main/java/com/mendix/mendixnative/react/fs/FileBackend.kt:163-166 | an extraction can only fail with FileNotFoundException, from a target that cannot be written |
| FileTree.Canon | android/src/main/java/com/mendix/mendixnative/react/fs/FileBackend.kt:62 | `File(path)` normalises: duplicate slashes collapse and a trailing slash goes; the result is canonical |
| FileTree.CanonIdempotent | android/src/main/java/com/mendix/mendixnative/react/fs/FileBackend.kt:62 | normalising a normalised path changes nothing |
| FileTree.Resolve | android/src/main/java/com/mendix/mendixnative/react/ota/OtaHelpers.kt:15 | `File(parent, child)`: a relative child is joined with "/", and the result is canonical |
| FileTree.ParentOf | android/src/main/java/com/mendix/mendixnative/react/fs/FileBackend.kt:74 | `parentFile`: the path before the last "/", the root for "/x", none for a bare name or the root |
| FileTree.WithDirs | android/src/main/java/com/mendix/mendixnative/react/fs/FileBackend.kt:74 | `mkdirs` creates every missing directory on the way, or nothing when a file is in the way |
| FileTree.ChildNames | android/src/main/java/com/mendix/mendixnative/react/fs/FileBackend.kt:121 | `File.list()`: the names of the direct children |
| FileTree.MovedTree | android/src/main/java/com/mendix/mendixnative/react/fs/FileBackend.kt:194-198 | `Files.move`: everything under the source moves below the target and the rest is kept |
| FileTree.Disk.Write | android/src/main/java/com/mendix/mendixnative/react/fs/FileBackend.kt:81 | a write stores the bytes at the path exactly when it is writable, and otherwise changes nothing |
| FileTree.Disk.Mkdirs | android/src/main/java/com/mendix/mendixnative/react/fs/FileBackend.kt:74 | `mkdirs` gives WithDirs, and reports true exactly when the directory was missing and could be made |
| FileTree.Disk.Delete | android/src/main/java/com/mendix/mendixnative/react/fs/FileBackend.kt:247-249 | `delete` removes a file or an empty directory and fails on anything else |
| FileTree.Disk.RenameFile | android/src/main/java/com/mendix/mendixnative/react/fs/FileBackend.kt:240 | `renameTo` moves a file source, replacing a file at the target, and fails onto a directory or an unwritable target |
| FileTree.Disk.MoveTree | android/src/main/java/com/mendix/mendixnative/react/fs/FileBackend.kt:194-198 | `Files.move` with REPLACE_EXISTING gives MovedTree when it can be done, and otherwise fails and changes nothing |
| FileTree.Disk.RemoveTree | ios/Modules/NativeFsModule/NativeFsModule.swift:92-99 | `removeItem` removes the path and everything below it, and says whether anything was there |
| DownloadAndroid.ThrottleSpaced | android/src/main/java/com/mendix/mendixnative/react/download/DownloadHelper.kt:66-77 | the progress invoker passes on only reports it was given, each at least one interval beyond the previous one passed on, and its threshold stays one interval beyond the last report passed on |
| DownloadAndroid.ThrottlePassesAllWhenIntervalNonPositive | android/src/main/java/com/mendix/mendixnative/react/download/DownloadHelper.kt:66-77 | with an interval of zero or less, every report of a non-negative, non-decreasing run goes through |
| DownloadAndroid.ProgressInvoker.constructor | android/src/main/java/com/mendix/mendixnative/react/download/DownloadHelper.kt:66-70 | the new invoker's threshold is the interval, and it has passed nothing on |
| DownloadAndroid.ProgressInvoker.Invoke | android/src/main/java/com/mendix/mendixnative/react/download/DownloadHelper.kt:71-76 | the callback runs exactly when the report reaches the threshold, which then moves to that report plus the interval; the invoker stays equal to the throttle over all reports so far |
| DownloadAndroid.Abs | android/src/main/java/com/mendix/mendixnative/react/download/DownloadHelper.kt:116 | `abs` gives the non-negative one of x and -x |
| DownloadAndroid.Received | android/src/main/java/com/mendix/mendixnative/react/download/DownloadHelper.kt:116 | `receivedBytes` after a loop iteration is the distance between the bytes still available and the content length |
| DownloadAndroid.Reports | android/src/main/java/com/mendix/mendixnative/react/download/DownloadHelper.kt:110-118 | one progress report per loop iteration, with that iteration's received count and the content length |
| DownloadAndroid.CompletedIterations | android/src/main/java/com/mendix/mendixnative/react/download/DownloadHelper.kt:111-118 | every iteration runs to its progress call when no read throws, and otherwise those before the failing read |
| DownloadAndroid.HandleSpec | android/src/main/java/com/mendix/mendixnative/react/download/DownloadHelper.kt:86-127 | an unsuccessful response throws ConnectException, a missing body NoDataException, a mismatched media type DownloadMimeTypeException; any throw deletes the output file; nothing else is touched; without a throw the file holds the body's bytes |
| DownloadAndroid.DownloadSpec | android/src/main/java/com/mendix/mendixnative/react/download/DownloadHelper.kt:32-63 | an existing target throws FileAlreadyExistsException and changes nothing; a URL OkHttp's request builder refuses throws after the empty output file is created, which stays; a failure reported to the callback is never FileAlreadyExistsException; a failed response leaves no output file; a success leaves the body at the path |
| DownloadAndroid.CopyBody | android/src/main/java/com/mendix/mendixnative/react/download/DownloadHelper.kt:99-119 | the copy loop reports failure exactly when a read throws, otherwise copies every byte, and makes exactly the progress calls the specification lists |
| DownloadAndroid.Handle | android/src/main/java/com/mendix/mendixnative/react/download/DownloadHelper.kt:79-127 | `handle()` ends in the state and with the exception HandleSpec gives |
| DownloadAndroid.DownloadFile | android/src/main/java/com/mendix/mendixnative/react/download/DownloadHelper.kt:32-63 | `downloadFile` ends in the state, outcome and progress DownloadSpec gives |
| DownloadAndroid.ToJavaInt | android/src/main/java/com/mendix/mendixnative/react/download/NativeDownloadModule.kt:20-21 | `getInt` narrows the configured number to a Java `int`, saturating at the largest one |
| DownloadAndroid.ReadConfig | android/src/main/java/com/mendix/mendixnative/react/download/NativeDownloadModule.kt:20-26 | the timeout is `connectionTimeout` narrowed to a Java `int`, or 10000 ms when absent; the MIME type is the `mimeType` string, or none when absent or null; the reads throw exactly for a timeout that is not a number or is negative (OkHttp's `connectTimeout` refuses it) and for a MIME type that is neither a string nor null |
| DownloadAndroid.Classify | android/src/main/java/com/mendix/mendixnative/react/download/NativeDownloadModule.kt:31-66 | the first matching branch in source order: FILE_ALREADY_EXISTS, ERROR_CONNECTION_FAILED for no data, FS_ACCESS_EXCEPTION for security, IO_EXCEPTION for corruption and every IOException including ConnectException, ERROR_DOWNLOAD_FAILED for a MIME mismatch and anything else |
| DownloadAndroid.SettlementOf | android/src/main/java/com/mendix/mendixnative/react/download/NativeDownloadModule.kt:24-67 | an exception before enqueuing leaves the promise unsettled; success resolves it with null; a failure rejects it as Classify says |
| DownloadAndroid.ProgressEvent | android/src/main/java/com/mendix/mendixnative/react/download/NativeDownloadModule.kt:76-83 | the event is NDM_DOWNLOAD_PROGRESS_EVENT with exactly the keys receivedBytes and totalBytes, holding the report |
| DownloadAndroid.NeverRejectsAlreadyExists | android/src/main/java/com/mendix/mendixnative/react/download/NativeDownloadModule.kt:39-43 | the FILE_ALREADY_EXISTS branch is unreachable: an existing target throws before the callback and leaves the promise pending |
| DownloadAndroid.Download | android/src/main/java/com/mendix/mendixnative/react/download/NativeDownloadModule.kt:13-74 | a config whose reads throw leaves the promise pending and nothing changed; a URL OkHttp refuses leaves it pending with no events; otherwise the settlement, tree and emitted events are those of DownloadSpec |
| OtaAndroid.ZipFilename | android/src/main/java/com/mendix/mendixnative/react/ota/NativeOtaModule.kt:187-189 | the package name is the UUID text followed by ".zip" |
| OtaAndroid.DownloadUrl | android/src/main/java/com/mendix/mendixnative/react/ota/NativeOtaModule.kt:71-77 | a missing `url`, or one that is neither a string nor null, makes `getString` throw and leaves the promise pending; a null `url` rejects with INVALID_DOWNLOAD_CONFIG; a string not under a set runtime URL rejects with INVALID_RUNTIME_URL; otherwise the URL is used as given |
| OtaAndroid.DownloadResult | android/src/main/java/com/mendix/mendixnative/react/ota/NativeOtaModule.kt:89-91 | a finished download resolves with an object whose only key `otaPackage` holds the package name |
| OtaAndroid.DownloadSettlement | android/src/main/java/com/mendix/mendixnative/react/ota/NativeOtaModule.kt:87-96 | success resolves with the package name, a reported failure rejects with OTA_DOWNLOAD_FAILED, and an exception before enqueuing leaves the promise pending |
| OtaAndroid.ReadDeployConfig | android/src/main/java/com/mendix/mendixnative/react/ota/NativeOtaModule.kt:117-139 | the keys are read in the order otaDeploymentID, otaPackage, extractionDir, and the first one that is missing or not a string is named in an INVALID_DEPLOY_CONFIG rejection |
| OtaAndroid.RelativeBundlePath | android/src/main/java/com/mendix/mendixnative/react/ota/NativeOtaModule.kt:160-163 | the manifest's bundle path is the extraction directory relative to the OTA directory joined with index.android.bundle; when the two coincide it is "/index.android.bundle" |
| OtaAndroid.ExtractionPath | android/src/main/java/com/mendix/mendixnative/react/ota/NativeOtaModule.kt:132-139 | the extraction directory is a canonical path, the OTA directory or below it |
| OtaAndroid.PlainContents | android/src/main/java/com/mendix/mendixnative/react/fs/FileBackend.kt:257-261 | the manifest bytes are found exactly when a file is there, and are that file's bytes |
| OtaAndroid.ClearedSpec | android/src/main/java/com/mendix/mendixnative/react/ota/NativeOtaModule.kt:148-151 | a missing extraction directory is left alone |
| OtaAndroid.RemovedBundleDir | android/src/main/java/com/mendix/mendixnative/react/ota/NativeOtaModule.kt:169-178 | the cleanup removes a directory exactly when an old manifest with another id exists and its bundle path has a parent, and that directory is the parent |
| OtaAndroid.InstallSpec | android/src/main/java/com/mendix/mendixnative/react/ota/NativeOtaModule.kt:153-183 | the install resolves with null or fails with OTA_DEPLOYMENT_FAILED; after a failure nothing remains at or below the extraction directory |
| OtaAndroid.RequestSpec | android/src/main/java/com/mendix/mendixnative/react/ota/NativeOtaModule.kt:144-183 | a missing package rejects with OTA_ZIP_FILE_MISSING and changes nothing; otherwise the deploy resolves or fails with OTA_DEPLOYMENT_FAILED |
| OtaAndroid.DeploySpec | android/src/main/java/com/mendix/mendixnative/react/ota/NativeOtaModule.kt:115-186 | an invalid config rejects before anything changes; with a missing package the rejection is OTA_ZIP_FILE_MISSING; otherwise RequestSpec decides |
| OtaAndroid.OtaModule.constructor | android/src/main/java/com/mendix/mendixnative/react/ota/NativeOtaModule.kt:50-56 | creating the module makes the OTA directory and its parents |
| OtaAndroid.OtaModule.Download | android/src/main/java/com/mendix/mendixnative/react/ota/NativeOtaModule.kt:69-98 | no download starts unless the URL checks pass, and a missing `url` leaves the promise pending with nothing changed; then the package `<uuid>.zip` is downloaded into the OTA directory and the promise settles as DownloadSettlement says |
| OtaAndroid.OtaModule.Deploy | android/src/main/java/com/mendix/mendixnative/react/ota/NativeOtaModule.kt:115-186 | `deploy` ends in the settlement and tree DeploySpec gives; an invalid config writes nothing; the manifest write comes after the extraction directory is cleared and before the old bundle and the package are removed, and a failure ends by removing the extraction directory |
| OtaAndroid.OtaModule.Request | android/src/main/java/com/mendix/mendixnative/react/ota/NativeOtaModule.kt:144-186 | the deploy after the keys are read ends as RequestSpec says, with its events in that order |
| OtaAndroid.OtaModule.ClearAndInstall | android/src/main/java/com/mendix/mendixnative/react/ota/NativeOtaModule.kt:148-183 | clearing and then installing ends as RequestSpec says for an existing package |
| OtaAndroid.OtaModule.Clear | android/src/main/java/com/mendix/mendixnative/react/ota/NativeOtaModule.kt:148-151 | an existing extraction directory is deleted as `deleteDirectory` does, with no event removing a tree |
| OtaAndroid.OtaModule.Install | android/src/main/java/com/mendix/mendixnative/react/ota/NativeOtaModule.kt:153-183 | the `try` block and its `catch` end as InstallSpec says, and only add events |
| OtaAndroid.OtaModule.Cleanup | android/src/main/java/com/mendix/mendixnative/react/ota/NativeOtaModule.kt:169-179 | after the manifest only the old bundle directory is removed and the package deleted, their failures ignored |
| OtaAndroid.OtaModule.Stage | android/src/main/java/com/mendix/mendixnative/react/ota/NativeOtaModule.kt:155-166 | the unzip, then the manifest write, which is the last event when nothing threw |
| OtaAndroid.ClearedKeepsOutside | android/src/main/java/com/mendix/mendixnative/react/ota/NativeOtaModule.kt:148-151 | clearing the extraction directory touches nothing outside it |
| OtaAndroid.InstallFailureKeepsOutside | android/src/main/java/com/mendix/mendixnative/react/ota/NativeOtaModule.kt:180-183 | a failed install leaves every entry outside the extraction directory as it was |
| OtaAndroid.InstallWritesManifest | android/src/main/java/com/mendix/mendixnative/react/ota/NativeOtaModule.kt:157-179 | a successful install leaves the manifest bytes at the manifest path, unless the cleanup removes that path |
| OtaAndroid.DeployedManifestReadsBack | android/src/main/java/com/mendix/mendixnative/react/ota/NativeOtaModule.kt:157-166 | after a successful deploy, `readManifestJson` finds the new manifest, unless the cleanup removed it |
| OtaAndroid.DeployFailureCleansUp | android/src/main/java/com/mendix/mendixnative/react/ota/NativeOtaModule.kt:180-183 | a failed deploy leaves nothing at or below the extraction directory and every other entry as it was |
| OtaAndroid.BundlePathLocatesBundle | android/src/main/java/com/mendix/mendixnative/react/ota/NativeOtaModule.kt:160-163 | resolving the manifest's bundle path against the OTA directory names the bundle in the extraction directory, even when that is the OTA directory |
| OtaAndroid.OldBundleDirIsExtractionDir | android/src/main/java/com/mendix/mendixnative/react/ota/NativeOtaModule.kt:169-178 | the directory a later deploy with another id removes is exactly this deploy's extraction directory |
| OtaAndroid.RedeployIntoSameDirRemovesIt | android/src/main/java/com/mendix/mendixnative/react/ota/NativeOtaModule.kt:148-178 | a deploy under a new id into the directory the current manifest names ends with nothing at or below that directory: the cleanup removes what was just unpacked |
| DownloadIos.WholeSeconds | ios/Modules/NativeDownloadHandler/NativeDownloadHandler.swift:24 | Swift's `/ 1000` truncates toward zero: the remainder is below 1000 in size and has the dividend's sign |
| DownloadIos.NumberMember | ios/Modules/NativeDownloadHandler/NativeDownloadHandler.swift:23 | `as? NSNumber` accepts numbers and booleans (as 1 and 0) and nothing else |
| DownloadIos.ReadConfig | ios/Modules/NativeDownloadHandler/NativeDownloadHandler.swift:23-28 | the timeout is the configured milliseconds in whole seconds, or 10 without a number; the MIME type is the `mimeType` string, if any |
| DownloadIos.FinishSpec | ios/Modules/NativeDownloadHandler/NativeDownloadHandler.swift:57-109 | a response whose MIME type differs from the expected one fails and changes nothing; then an existing destination fails and is kept; otherwise the file lands at the destination, or a failed replace leaves nothing there; nothing outside the destination changes |
| DownloadIos.Handler.constructor | ios/Modules/NativeDownloadHandler/NativeDownloadHandler.swift:17-33 | the handler keeps the config's timeout and MIME type, an empty destination and no callbacks |
| DownloadIos.Handler.Download | ios/Modules/NativeDownloadHandler/NativeDownloadHandler.swift:35-51 | the destination is recorded; a URL that cannot be encoded makes the fail callback with "Invalid URL" and starts no task |
| DownloadIos.Handler.DidFinishDownloading | ios/Modules/NativeDownloadHandler/NativeDownloadHandler.swift:57-109 | the file is placed and the callback made as FinishSpec says |
| DownloadIos.Handler.DidWriteData | ios/Modules/NativeDownloadHandler/NativeDownloadHandler.swift:111-114 | the totals go to the progress callback exactly when there is one |
| DownloadIos.Handler.DidComplete | ios/Modules/NativeDownloadHandler/NativeDownloadHandler.swift:120-124 | only an error makes a callback, the fail callback |
| DownloadIos.FormatMessage | ios/Modules/NativeDownloadHandler/NativeDownloadHandler.swift:4-6 | the message is prefixed by the handler's type name and ": " and kept whole |
| DownloadIos.FirstDecision | ios/Modules/NativeDownloadHandler/NativeDownloadHandler.swift:141-152 | the first done or fail callback, which is none exactly when every callback is a progress report |
| DownloadIos.FirstDecisionAt | ios/Modules/NativeDownloadHandler/NativeDownloadHandler.swift:141-152 | a decision preceded only by progress reports is the first decision |
| DownloadIos.FirstDecisionIgnoresLater | ios/Modules/NativeDownloadHandler/NativeDownloadHandler.swift:141-152 | callbacks after the first decision do not change it |
| DownloadIos.Settle | ios/Modules/NativeDownloadHandler/NativeDownloadHandler.swift:141-152 | the promise settles at the first decision: resolved with nil on done, ERROR_DOWNLOAD_FAILED with the formatted description on fail, and pending before |
| DownloadIos.ProgressPayload | ios/Modules/NativeDownloadHandler/NativeDownloadHandler.swift:146-148 | the `onProgress` payload has exactly the keys receivedBytes and totalBytes, holding the totals |
| DownloadIos.Download | ios/Modules/NativeDownloadHandler/NativeDownloadHandler.swift:133-155 | the bridge makes a handler with a progress callback for the config and path; its settlement is Settle of the handler's callbacks, a rejection with "Invalid URL" exactly when the URL cannot be encoded, and pending otherwise |
| DownloadIos.ExistingTargetKept | ios/Modules/NativeDownloadHandler/NativeDownloadHandler.swift:69-74 | an existing destination is never touched on either platform; iOS fails the promise after downloading, while Android throws before any request and leaves its promise pending |
| DownloadIos.FinishStoresDownload | ios/Modules/NativeDownloadHandler/NativeDownloadHandler.swift:60-103 | with a free destination whose directory can be made and a matching or unnamed MIME type, the downloaded bytes are stored at the destination and done is called |
| OtaIos.DownloadUrl | ios/Modules/NativeOtaModule/NativeOtaModule.swift:53-67 | a missing or non-string `url` rejects with INVALID_DOWNLOAD_CONFIG; a missing runtime URL, or a url not under it, rejects with INVALID_RUNTIME_URL; otherwise the url is used as given |
| OtaIos.ZipFilename | ios/Modules/NativeOtaModule/NativeOtaModule.swift:183-185 | the package name is the UUID string followed by ".zip" |
| OtaIos.DownloadResult | ios/Modules/NativeOtaModule/NativeOtaModule.swift:75 | a finished download resolves with an object whose only key `otaPackage` holds the package name |
| OtaIos.DownloadSettlement | ios/Modules/NativeOtaModule/NativeOtaModule.swift:72-81 | the promise settles at the handler's first decision: done resolves with the package name, a failure rejects with OTA_DOWNLOAD_FAILED, and it is pending before |
| OtaIos.IosEntrySpec | ios/Modules/NativeOtaModule/NativeOtaModule.swift:138 | with `overwrite: false` an entry creates its directory, or its parent, keeps a file already there and otherwise writes the file; no existing entry changes |
| OtaIos.IosUnzipSpec | ios/Modules/NativeOtaModule/NativeOtaModule.swift:138 | a missing package or one that is not an archive fails and changes nothing |
| OtaIos.IosExtractKeepsOutside | ios/Modules/NativeOtaModule/NativeOtaModule.swift:138 | unzipping changes nothing outside the destination directory |
| OtaIos.IosExtractKeepsExisting | ios/Modules/NativeOtaModule/NativeOtaModule.swift:138 | no entry replaces what the tree or an earlier entry already put at its target |
| OtaIos.IosExtractStops | ios/Modules/NativeOtaModule/NativeOtaModule.swift:138 | once an entry fails, the remaining entries change nothing |
| OtaIos.ReadDeployConfig | ios/Modules/NativeOtaModule/NativeOtaModule.swift:104-117 | the keys are read in the order otaDeploymentID, otaPackage, extractionDir, and the first one that is missing or not a string is named in an INVALID_DOWNLOAD_CONFIG rejection |
| OtaIos.NewManifest | ios/Modules/NativeOtaModule/NativeOtaModule.swift:146-150 | the manifest holds the deployment id, the app version, and the extraction directory as given followed by "/index.ios.bundle" |
| OtaIos.FileContents | ios/Modules/NativeOtaModule/NativeOtaModule.swift:122 | the bytes are found exactly when a file is there, and are that file's bytes |
| OtaIos.RemovedBundleDir | ios/Modules/NativeOtaModule/NativeOtaModule.swift:165-173 | a directory is removed exactly when an old manifest exists whose id is not the new one (a missing id counts as different) and it names a bundle path; it is that path's directory under the OTA directory |
| OtaIos.StageSpec | ios/Modules/NativeOtaModule/NativeOtaModule.swift:138-162 | the unzip and then the manifest write either succeed or fail with OTA_DEPLOYMENT_FAILED |
| OtaIos.InstallSpec | ios/Modules/NativeOtaModule/NativeOtaModule.swift:138-178 | an unzip or manifest failure removes the extraction directory and rejects with OTA_DEPLOYMENT_FAILED; otherwise the old bundle and package are removed and the deploy resolves |
| OtaIos.RequestSpec | ios/Modules/NativeOtaModule/NativeOtaModule.swift:119-178 | a missing package rejects with OTA_ZIP_FILE_MISSING and changes nothing |
| OtaIos.DeploySpec | ios/Modules/NativeOtaModule/NativeOtaModule.swift:102-179 | an invalid config rejects and changes nothing; otherwise RequestSpec decides |
| OtaIos.OtaModule.constructor | ios/Modules/NativeOtaModule/NativeOtaModule.swift:8-26 | `init` creates the OTA directory and its parents |
| OtaIos.OtaModule.Download | ios/Modules/NativeOtaModule/NativeOtaModule.swift:39-84 | a missing OTA directory is created, and if it cannot be the promise rejects with OTA_DOWNLOAD_FAILED; then the url checks; then a handler without progress or MIME type downloads `<uuid>.zip` into the OTA directory, and its first decision settles the promise |
| OtaIos.OtaModule.PrepareOtaDir | ios/Modules/NativeOtaModule/NativeOtaModule.swift:41-51 | the OTA directory is created only when missing, and the download goes on exactly when it is then a directory |
| OtaIos.OtaModule.Start | ios/Modules/NativeOtaModule/NativeOtaModule.swift:53-83 | a handler is made exactly when the url checks pass, and otherwise their rejection settles the promise |
| OtaIos.OtaModule.Deploy | ios/Modules/NativeOtaModule/NativeOtaModule.swift:102-179 | `deploy` ends in the settlement and tree DeploySpec gives; an invalid config writes nothing; only a stale extraction directory is removed before the manifest write and only the old bundle and package after it |
| OtaIos.OtaModule.Request | ios/Modules/NativeOtaModule/NativeOtaModule.swift:119-179 | the deploy after the keys are read ends as RequestSpec says, with its events in that order |
| OtaIos.OtaModule.Install | ios/Modules/NativeOtaModule/NativeOtaModule.swift:138-178 | ends as InstallSpec says; a failure's last event removes the extraction directory |
| OtaIos.OtaModule.Cleanup | ios/Modules/NativeOtaModule/NativeOtaModule.swift:164-175 | the old bundle directory, if any, and the package are removed, and nothing else happens |
| OtaIos.OtaModule.Stage | ios/Modules/NativeOtaModule/NativeOtaModule.swift:138-162 | the unzip and then the manifest write, which is the last event and preceded by no removal when it succeeds |
| OtaIos.OtaModule.Unzip | ios/Modules/NativeOtaModule/NativeOtaModule.swift:138 | the unzip ends as IosUnzipSpec says, without removals |
| OtaIos.OtaModule.ExtractEntry | ios/Modules/NativeOtaModule/NativeOtaModule.swift:138 | one entry ends as IosEntrySpec says |
| OtaIos.InstallFailureKeepsOutside | ios/Modules/NativeOtaModule/NativeOtaModule.swift:139-162 | a failed unzip or manifest write changes nothing outside the extraction directory |
| OtaIos.DeployFailureCleansUp | ios/Modules/NativeOtaModule/NativeOtaModule.swift:138-162 | a failed deploy leaves nothing within the extraction directory and nothing else changed, so the package and the previous manifest remain |
| OtaIos.InstallWritesManifest | ios/Modules/NativeOtaModule/NativeOtaModule.swift:152-175 | a successful install leaves the manifest it wrote, unless the cleanup covers it |
| OtaIos.DeployedManifestReadsBack | ios/Modules/NativeOtaModule/NativeOtaModule.swift:146-178 | after a successful deploy the manifest reads back as the dictionary written, and as the new manifest |
| OtaIos.BundleDirOfManifest | ios/Modules/NativeOtaModule/NativeOtaModule.swift:146-173 | the old-bundle directory of a manifest written for an extraction directory is that directory |
| OtaIos.RedeployIntoSameDirRemovesIt | ios/Modules/NativeOtaModule/NativeOtaModule.swift:132-173 | a deploy under a new id into the directory the previous manifest names ends with nothing within that directory, the bundle just unpacked included |
| OtaIos.InstallRemovesOldBundleDir | ios/Modules/NativeOtaModule/NativeOtaModule.swift:164-173 | a resolved install whose old bundle directory is the extraction directory leaves nothing at or below it |
| BundleResolver.AndroidBundleFile | android/src/main/java/com/mendix/mendixnative/react/ota/OTAJSBundleUrlProvider.kt:17-33 | an OTA bundle is used exactly when the manifest exists, reads as a manifest, was written for the running app version and names a bundle that exists; it is then that bundle's absolute path, inside the OTA directory |
| BundleResolver.AndroidVersionMismatchFallsBack | android/src/main/java/com/mendix/mendixnative/react/ota/OTAJSBundleUrlProvider.kt:24-28 | a manifest from another app version is never used |
| BundleResolver.AndroidDeployThenResolve | android/src/main/java/com/mendix/mendixnative/react/ota/OTAJSBundleUrlProvider.kt:17-33 | after a successful deploy whose archive held the bundle, the next start picks the bundle in the new extraction directory |
| BundleResolver.IosBundleUrl | ios/Modules/JSBundleFileProvider/OtaJSBundleFileProvider.swift:19-62 | a URL is given only when the manifest exists, reads as a dictionary, holds the running app version as a string and a string bundle path whose file exists; it is then the encoded path of that file |
| BundleResolver.HasNativeOtaBundle | ios/Modules/Helper/BundleHelper.swift:11-13 | there is an OTA bundle exactly when the manifest's contents can be read |
| BundleResolver.IosJsBundleFile | ios/Modules/Helper/BundleHelper.swift:4-9 | without a readable manifest the shipped bundle is used |
| BundleResolver.OtaBundlePreferred | ios/Modules/Helper/BundleHelper.swift:4-9 | the `hasNativeOtaBundle()` guard never changes the choice: the OTA URL when `getBundleUrl()` gives one, the shipped bundle otherwise |
| BundleResolver.IosDeployThenResolve | ios/Modules/JSBundleFileProvider/OtaJSBundleFileProvider.swift:19-62 | after a successful deploy whose archive held the bundle, the next start picks the bundle in the new extraction directory |
| BundleResolver.NewManifestResolves | ios/Modules/JSBundleFileProvider/OtaJSBundleFileProvider.swift:45-61 | the manifest a deploy writes resolves to the bundle in its extraction directory |
| BundleResolver.ManifestBundleResolves | ios/Modules/JSBundleFileProvider/OtaJSBundleFileProvider.swift:26-61 | a readable manifest for the running version whose bundle exists resolves to that bundle |
| CookieInterceptor.LastIndex | android/src/main/java/com/mendix/mendixnative/request/MendixNetworkInterceptor.kt:35 | the last header of that name, found case-insensitively, or none exactly when there is no such header |
| CookieInterceptor.LastValue | android/src/main/java/com/mendix/mendixnative/request/MendixNetworkInterceptor.kt:35 | `header("Cookie")` is the value of the last header of that name, and none exactly when there is none |
| CookieInterceptor.WithoutNamedMembers | android/src/main/java/com/mendix/mendixnative/request/MendixNetworkInterceptor.kt:86 | `removeAll` keeps exactly the headers of other names |
| CookieInterceptor.EncryptedCookieName | android/src/main/java/com/mendix/mendixnative/request/MendixNetworkInterceptor.kt:111 | the encrypted name is "MxEnc" followed by the name |
| CookieInterceptor.RemovePrefix | android/src/main/java/com/mendix/mendixnative/request/MendixNetworkInterceptor.kt:45 | a present prefix is stripped and the rest kept; otherwise the string is unchanged |
| CookieInterceptor.DecryptionParams | android/src/main/java/com/mendix/mendixnative/request/MendixNetworkInterceptor.kt:113-116 | without the delimiter "___enc___" the value is all cipher text; otherwise the two parts hold no delimiter and the value starts with them joined by it |
| CookieInterceptor.CookieValue | android/src/main/java/com/mendix/mendixnative/request/MendixNetworkInterceptor.kt:119-124 | the value is the cipher text, and for an encrypted result the delimiter and IV, quoted, with every line break removed |
| CookieInterceptor.CookieValueRoundTrip | android/src/main/java/com/mendix/mendixnative/request/MendixNetworkInterceptor.kt:113-124 | for texts free of '_', as Base64 is, the unquoted cookie value splits back into the cipher text and IV with line breaks removed |
| CookieInterceptor.DelimiterFreeHalvesCanMisparse | android/src/main/java/com/mendix/mendixnative/request/MendixNetworkInterceptor.kt:113-124 | texts that merely lack the delimiter can misparse: a cipher text ending in "___enc" is cut short on reading back |
| CookieInterceptor.DecryptPair | android/src/main/java/com/mendix/mendixnative/request/MendixNetworkInterceptor.kt:38-50 | a pair without '=' throws; with nothing encrypted a pair is kept; otherwise only pairs starting with "MxEnc" are kept, decrypted |
| CookieInterceptor.DecryptPairs | android/src/main/java/com/mendix/mendixnative/request/MendixNetworkInterceptor.kt:38-51 | the rewrite succeeds exactly when every pair has a '='; with nothing encrypted the pairs are kept as they are |
| CookieInterceptor.WithCookieHeader | android/src/main/java/com/mendix/mendixnative/request/MendixNetworkInterceptor.kt:54-56 | the new request has the same host and one `Cookie` header with the value, and every other header as before |
| CookieInterceptor.WithDecryptedCookies | android/src/main/java/com/mendix/mendixnative/request/MendixNetworkInterceptor.kt:34-60 | without a `Cookie` header the request is kept; otherwise it is rebuilt from the decrypted pairs unless they join to a blank text |
| CookieInterceptor.PlainCookiesKept | android/src/main/java/com/mendix/mendixnative/request/MendixNetworkInterceptor.kt:46-47 | without encrypted cookies the `Cookie` header keeps its value |
| CookieInterceptor.PairWithoutValueThrows | android/src/main/java/com/mendix/mendixnative/request/MendixNetworkInterceptor.kt:39 | a pair without '=' makes the rewrite throw even when nothing is encrypted |
| CookieInterceptor.EncryptedCookie | android/src/main/java/com/mendix/mendixnative/request/MendixNetworkInterceptor.kt:72-80 | the encrypted cookie has the prefixed name, host-only domain, and the original path and flags; it is always persistent, so a session cookie comes back persistent with OkHttp's latest date as its expiry; an expiry in range is kept and one at or before the epoch becomes `Long.MIN_VALUE` |
| CookieInterceptor.BuiltExpiry | android/src/main/java/com/mendix/mendixnative/request/MendixNetworkInterceptor.kt:104 | `Cookie.Builder.expiresAt` turns an expiry at or before the epoch into `Long.MIN_VALUE`, caps one beyond OkHttp's latest date at that date, and keeps the rest |
| CookieInterceptor.ExpiredCompanion | android/src/main/java/com/mendix/mendixnative/request/MendixNetworkInterceptor.kt:81-82 | the companion has the original name, domain (host-only), path and flags and an empty value; the builder makes it persistent and turns its expiry -1 into `Long.MIN_VALUE` |
| CookieInterceptor.SetCookies | android/src/main/java/com/mendix/mendixnative/request/MendixNetworkInterceptor.kt:87-90 | two `Set-Cookie` headers per cookie |
| CookieInterceptor.SetCookiesAt | android/src/main/java/com/mendix/mendixnative/request/MendixNetworkInterceptor.kt:87-90 | cookie i's encrypted form is header 2i and its expired companion header 2i+1 |
| CookieInterceptor.HeadersBuilder.constructor | android/src/main/java/com/mendix/mendixnative/request/MendixNetworkInterceptor.kt:85 | the builder starts from the response's headers |
| CookieInterceptor.HeadersBuilder.RemoveAll | android/src/main/java/com/mendix/mendixnative/request/MendixNetworkInterceptor.kt:86 | the headers of that name are removed and the rest kept in order |
| CookieInterceptor.HeadersBuilder.Add | android/src/main/java/com/mendix/mendixnative/request/MendixNetworkInterceptor.kt:88-89 | the header is appended |
| CookieInterceptor.WithEncryptedCookies | android/src/main/java/com/mendix/mendixnative/request/MendixNetworkInterceptor.kt:69-92 | every `Set-Cookie` header is removed and each cookie's encrypted form and expired companion are appended, in order |
| CookieInterceptor.Intercept | android/src/main/java/com/mendix/mendixnative/request/MendixNetworkInterceptor.kt:15-24 | a request to another host passes through; one to the runtime's host goes out with its cookies decrypted, or throws when that does, and its response has its cookies encrypted |
| CookieInterceptor.JarRoundTrip | android/src/main/java/com/mendix/mendixnative/request/MendixNetworkInterceptor.kt:34-92 | cookies the response side encrypted come back decrypted: a request carrying the encrypted pairs leaves with a `Cookie` header of the original pairs |
| CookieInterceptor.EncryptedPairDecrypts | android/src/main/java/com/mendix/mendixnative/request/MendixNetworkInterceptor.kt:38-45 | one encrypted cookie's pair starts with "MxEnc" and decrypts to the original pair |
| CookieInterceptor.DecryptAll | android/src/main/java/com/mendix/mendixnative/request/MendixNetworkInterceptor.kt:38-51 | every encrypted pair decrypts, in order |
| FsAndroid.NotAccessibleMessage | android/src/main/java/com/mendix/mendixnative/react/fs/PathNotAccessibleException.kt:3-6 | the message is "Cannot write to ", the path, and the fixed tail |
| FsAndroid.NotAccessibleMessageInjective | android/src/main/java/com/mendix/mendixnative/react/fs/PathNotAccessibleException.kt:3-6 | the message names the path: different paths give different messages |
| FsAndroid.BlobMap | android/src/main/java/com/mendix/mendixnative/react/fs/NativeFsModule.kt:237-247 | the map handed to JavaScript has exactly the keys blobId, offset 0 and size |
| FsAndroid.Caught | android/src/main/java/com/mendix/mendixnative/react/fs/NativeFsModule.kt:57-69 | bytes read go on; FileNotFoundException gives the caller's answer; any other IOException rejects with ERROR_READ_FAILED |
| FsAndroid.NativeMap | android/src/main/java/com/mendix/mendixnative/react/fs/NativeFsModule.kt:196-227 | an object resolves as it is and a top-level null as an empty map; anything else, unparsable text included, rejects with ERROR_SERIALIZATION_FAILED |
| FsAndroid.FsModule.constructor | android/src/main/java/com/mendix/mendixnative/react/fs/NativeFsModule.kt:22-25 | the module keeps its backend and the absolute files and cache directories |
| FsAndroid.FsModule.EnsureWhiteListedPath | android/src/main/java/com/mendix/mendixnative/react/fs/NativeFsModule.kt:249-255 | a path passes exactly when it starts with the files or the cache directory, and is kept as given; otherwise the error names it |
| FsAndroid.FsModule.WhitelistIsTextualPrefix | android/src/main/java/com/mendix/mendixnative/react/fs/NativeFsModule.kt:249-255 | the check is textual: anything after a directory's name passes, a sibling such as `filesDir + "-other"` and `filesDir + "/../x"` included |
| FsAndroid.FsModule.SetEncryptionEnabled | android/src/main/java/com/mendix/mendixnative/react/fs/NativeFsModule.kt:27-29 | the backend's encryption flag is set |
| FsAndroid.FsModule.Save | android/src/main/java/com/mendix/mendixnative/react/fs/NativeFsModule.kt:31-55 | an invalid blob rejects with ERROR_INVALID_BLOB and a path outside the whitelist with INVALID_PATH before anything is written; a failed save rejects with ERROR_CACHE_FAILED; the blob is released exactly when the promise resolves |
| FsAndroid.FsModule.Read | android/src/main/java/com/mendix/mendixnative/react/fs/NativeFsModule.kt:57-69 | outside the whitelist INVALID_PATH; a missing file resolves with null; otherwise the stored blob of the bytes |
| FsAndroid.FsModule.ReadFailsOnlyOnPath | android/src/main/java/com/mendix/mendixnative/react/fs/NativeFsModule.kt:57-69 | `read` never rejects with ERROR_READ_FAILED, because the backend's read only throws FileNotFoundException |
| FsAndroid.FsModule.ReadAsDataUrl | android/src/main/java/com/mendix/mendixnative/react/fs/NativeFsModule.kt:146-160 | outside the whitelist INVALID_PATH; a missing file resolves with null; otherwise FileReaderModule's data URL for the bytes |
| FsAndroid.FsModule.ReadAsText | android/src/main/java/com/mendix/mendixnative/react/fs/NativeFsModule.kt:162-168 | no whitelist check: a file resolves with its bytes as UTF-8, anything else rejects with "no text" |
| FsAndroid.FsModule.ReadAsTextIgnoresWhitelist | android/src/main/java/com/mendix/mendixnative/react/fs/NativeFsModule.kt:162-168 | a file outside the whitelist is read by `readAsText` while `read` refuses it |
| FsAndroid.FsModule.FileExists | android/src/main/java/com/mendix/mendixnative/react/fs/NativeFsModule.kt:170-177 | outside the whitelist INVALID_PATH; otherwise whether the path exists |
| FsAndroid.FsModule.ReadJson | android/src/main/java/com/mendix/mendixnative/react/fs/NativeFsModule.kt:196-227 | outside the whitelist INVALID_PATH; a missing file resolves with the string "null"; otherwise NativeMap of the parsed bytes |
| FsAndroid.FsModule.List | android/src/main/java/com/mendix/mendixnative/react/fs/NativeFsModule.kt:115-144 | anything but an existing directory gives an empty array before the whitelist is consulted; otherwise INVALID_PATH or the directory's entries |
| FsAndroid.FsModule.ListGivesChildren | android/src/main/java/com/mendix/mendixnative/react/fs/NativeFsModule.kt:115-144 | when `File.list()` yields each entry once, `list` resolves with exactly the names of the directory's children |
| FsAndroid.FsModule.Move | android/src/main/java/com/mendix/mendixnative/react/fs/NativeFsModule.kt:71-99 | both paths are whitelisted first; a missing source rejects but the move is still attempted and settles again; a directory goes through `moveDirectory`, anything else through `moveFile`, whose failure rejects with ERROR_MOVE_FAILED |
| FsAndroid.FsModule.Remove | android/src/main/java/com/mendix/mendixnative/react/fs/NativeFsModule.kt:101-113 | a directory is deleted, only when empty, without a whitelist check; anything else is whitelisted and then deleted |
| FsAndroid.FsModule.WriteJson | android/src/main/java/com/mendix/mendixnative/react/fs/NativeFsModule.kt:179-194 | outside the whitelist INVALID_PATH; otherwise the map's JSON is saved through `save`, failing with ERROR_CACHE_FAILED; a successful write reads back as the map when the codecs round-trip |
| FsAndroid.FsModule.Constants | android/src/main/java/com/mendix/mendixnative/react/fs/NativeFsModule.kt:229-235 | the constants are exactly the document directory and the two support flags, both true |
| FsIos.FormatError | ios/Modules/NativeFsModule/NativeFsModule.swift:23-25 | the message is prefixed by "NativeFsModule: " and kept whole |
| FsIos.OutsideMessage | ios/Modules/NativeFsModule/NativeFsModule.swift:110-114 | the error for a path outside the whitelist quotes the path in a fixed sentence |
| FsIos.DataUrl | ios/Modules/NativeFsModule/NativeFsModule.swift:209-223 | the data URL is the octet-stream Base64 prefix followed by the Base64 text |
| FsIos.DataUrlInjective | ios/Modules/NativeFsModule/NativeFsModule.swift:209-223 | different Base64 texts give different data URLs |
| FsIos.BlobRef | ios/Modules/NativeFsModule/NativeFsModule.swift:43-53 | the blob reference has exactly the keys blobId, offset 0 and length |
| FsIos.BlobRefKeysDifferFromAndroid | ios/Modules/NativeFsModule/NativeFsModule.swift:43-53 | iOS gives the byte count under "length" where Android gives it under "size" |
| FsIos.Descendants | ios/Modules/NativeFsModule/NativeFsModule.swift:119-124 | every path the deep enumerator yields lies below the directory |
| FsIos.DescendantsCoverChildren | ios/Modules/NativeFsModule/NativeFsModule.swift:119-124 | the listing is deep: it holds every name Android's `list` gives, and also paths two levels down, which Android's never holds |
| FsIos.CreateDirectorySpec | ios/Modules/NativeFsModule/NativeFsModule.swift:75-80 | creating a directory with intermediates succeeds exactly when no file stands in the way; it then makes every missing directory on the way and changes no existing entry |
| FsIos.SaveFileSpec | ios/Modules/NativeFsModule/NativeFsModule.swift:75-80 | a successful save leaves the bytes at the path; the atomic write either replaces the file whole or leaves every existing entry as it was |
| FsIos.MoveItemMissingSource | ios/Modules/NativeFsModule/NativeFsModule.swift:82-90 | a missing source throws "File does not exist" and changes nothing |
| FsIos.MoveItemFailureKeeps | ios/Modules/NativeFsModule/NativeFsModule.swift:82-90 | a failed move keeps every existing entry unchanged |
| FsIos.MoveItemMoves | ios/Modules/NativeFsModule/NativeFsModule.swift:82-90 | a successful move leaves nothing at the source and all of it under a target that did not exist before |
| FsIos.RemoveSpec | ios/Modules/NativeFsModule/NativeFsModule.swift:92-99 | a missing path is left alone; otherwise the path and everything below it go, and nothing else |
| FsIos.FsModule.constructor | ios/Modules/NativeFsModule/NativeFsModule.swift:101-104 | the whitelist directories come from the search-path lookups, "" when none is found, and encryption starts off |
| FsIos.FsModule.SetEncryptionEnabled | ios/Modules/NativeFsModule/NativeFsModule.swift:19-21 | the encryption flag is set |
| FsIos.FsModule.EnsureWhiteListedPath | ios/Modules/NativeFsModule/NativeFsModule.swift:101-117 | nothing is thrown exactly when every path starts with the documents, caches or temporary directory; otherwise error 999 names the first one that does not |
| FsIos.FsModule.NoDocumentsDirectoryAcceptsAll | ios/Modules/NativeFsModule/NativeFsModule.swift:101-117 | without a documents directory its path is "", and every path passes |
| FsIos.FsModule.IsWhiteListedPath | ios/Modules/NativeFsModule/NativeFsModule.swift:277-285 | a rejection is made exactly when some path is outside the whitelist, and it is INVALID_PATH "Path not accessible" |
| FsIos.FsModule.ReadData | ios/Modules/NativeFsModule/NativeFsModule.swift:55-65 | the bytes are found exactly when a file is there |
| FsIos.FsModule.ReadJsonObject | ios/Modules/NativeFsModule/NativeFsModule.swift:67-73 | a missing file and a top-level array give none, an object its dictionary, and anything else an error |
| FsIos.FsModule.ListTree | ios/Modules/NativeFsModule/NativeFsModule.swift:119-124 | when the enumerator lists each path once, the listing is exactly the paths below the directory |
| FsIos.FsModule.CreateDirectory | ios/Modules/NativeFsModule/NativeFsModule.swift:75-80 | ends as CreateDirectorySpec says |
| FsIos.FsModule.SaveFile | ios/Modules/NativeFsModule/NativeFsModule.swift:75-80 | ends as SaveFileSpec says, whatever protection option is chosen |
| FsIos.FsModule.MoveItem | ios/Modules/NativeFsModule/NativeFsModule.swift:82-90 | ends as MoveItemSpec says |
| FsIos.FsModule.RemoveItem | ios/Modules/NativeFsModule/NativeFsModule.swift:92-99 | ends as RemoveSpec says |
| FsIos.FsModule.Save | ios/Modules/NativeFsModule/NativeFsModule.swift:132-152 | outside the whitelist INVALID_PATH; no blob ERROR_READ_FAILED; otherwise the static save, whose failure is ERROR_SAVE_FAILED; a resolved save reads back as the blob's bytes |
| FsIos.FsModule.Read | ios/Modules/NativeFsModule/NativeFsModule.swift:154-171 | outside the whitelist INVALID_PATH; null exactly for a missing file; otherwise the blob reference of the bytes, or ERROR_READ_FAILED when no blob can be made |
| FsIos.FsModule.Move | ios/Modules/NativeFsModule/NativeFsModule.swift:173-186 | a path outside the whitelist rejects and changes nothing; otherwise the static move, whose failure is ERROR_MOVE_FAILED |
| FsIos.FsModule.Remove | ios/Modules/NativeFsModule/NativeFsModule.swift:188-198 | an accessible path always resolves with null, whether or not anything was there, and is removed with everything below it |
| FsIos.FsModule.List | ios/Modules/NativeFsModule/NativeFsModule.swift:200-207 | outside the whitelist INVALID_PATH; otherwise the listing's paths as strings |
| FsIos.FsModule.ReadAsDataUrl | ios/Modules/NativeFsModule/NativeFsModule.swift:209-223 | outside the whitelist INVALID_PATH; null for a missing file; otherwise the data URL of its Base64 text |
| FsIos.FsModule.FileExists | ios/Modules/NativeFsModule/NativeFsModule.swift:225-232 | outside the whitelist INVALID_PATH; otherwise true for a file or a directory |
| FsIos.FsModule.ReadJson | ios/Modules/NativeFsModule/NativeFsModule.swift:234-246 | outside the whitelist INVALID_PATH; null for a missing file or a top-level array; the dictionary for an object; ERROR_SERIALIZATION_FAILED otherwise |
| FsIos.FsModule.WriteJson | ios/Modules/NativeFsModule/NativeFsModule.swift:248-269 | outside the whitelist INVALID_PATH; otherwise the dictionary's JSON through the static save, whose failure is ERROR_SAVE_FAILED; a resolved write reads back as the dictionary when the codec round-trips |
| FsIos.FsModule.Constants | ios/Modules/NativeFsModule/NativeFsModule.swift:271-275 | the constants are exactly the documents path and the two support flags, both true |
| Compat.IosFeaturesFor | ios/Modules/MendixBackwardsCompatUtility/MendixBackwardsCompatUtility.swift:22-57 | the lookup always finds one of the table's entries, and with a DEFAULT entry it always finds one |
| Compat.AndroidFeaturesFor | android/mendixnative/src/main/java/com/mendix/mendixnative/util/MendixBackwardsCompatUtility.kt:31-36 | the lookup finds one of the table's entries or `UnsupportedFeatures()` |
| Compat.LookupsAgree | android/mendixnative/src/main/java/com/mendix/mendixnative/util/MendixBackwardsCompatUtility.kt:31-36 | with the same table, and a DEFAULT entry equal to Android's fallback, the two platforms find the same features for every version |
| Compat.AndroidSupportsEverything | android/mendixnative/src/main/java/com/mendix/mendixnative/util/MendixBackwardsCompatUtility.kt:27 | Android's empty table gives every version both flags false |
| Compat.IosFeaturesOfThree | ios/Modules/MendixBackwardsCompatUtility/MendixBackwardsCompatUtility.swift:29-56 | a three-component version tries itself, its first two components, its first component and then DEFAULT, in that order |
| Compat.PatchOf810TakesMinorEntry | ios/Modules/MendixBackwardsCompatUtility/MendixBackwardsCompatUtility.swift:5-11 | "8.10.3" takes the "8.10" entry: splash-screen hiding unsupported |
| Compat.Version8120IsListed | ios/Modules/MendixBackwardsCompatUtility/MendixBackwardsCompatUtility.swift:9 | "8.12.0" has its own entry |
| Compat.Version8121FallsToDefault | ios/Modules/MendixBackwardsCompatUtility/MendixBackwardsCompatUtility.swift:5-11 | "8.12.1" finds no key and gets DEFAULT: everything supported |
| Compat.IosCompat.constructor | ios/Modules/MendixBackwardsCompatUtility/MendixBackwardsCompatUtility.swift:13 | the initial value is the DEFAULT entry |
| Compat.IosCompat.UnsupportedFeaturesNow | ios/Modules/MendixBackwardsCompatUtility/MendixBackwardsCompatUtility.swift:16-20 | the stored features are always one of the table's entries |
| Compat.IosCompat.Update | ios/Modules/MendixBackwardsCompatUtility/MendixBackwardsCompatUtility.swift:22-57 | the stored features become IosFeaturesFor of the version, always a table entry |
| Compat.IosCompat.IsHideSplashScreenInClientSupported | ios/Modules/MendixBackwardsCompatUtility/MendixBackwardsCompatUtility.swift:59-66 | supported exactly when nothing is stored or the stored flag is off |
| Compat.AndroidCompat.constructor | android/mendixnative/src/main/java/com/mendix/mendixnative/util/MendixBackwardsCompatUtility.kt:28 | the initial features have both flags false |
| Compat.AndroidCompat.Update | android/mendixnative/src/main/java/com/mendix/mendixnative/util/MendixBackwardsCompatUtility.kt:31-36 | the features become AndroidFeaturesFor of the version, which is always both flags false |
| Compat.AndroidCompatHolder.constructor | android/mendixnative/src/main/java/com/mendix/mendixnative/util/MendixBackwardsCompatUtility.kt:8 | no instance exists at first |
| Compat.AndroidCompatHolder.GetInstance | android/mendixnative/src/main/java/com/mendix/mendixnative/util/MendixBackwardsCompatUtility.kt:10-20 | the existing instance is returned; otherwise a new one is made and kept |
| Compat.AndroidCompatHolder.GetInstanceTwice | android/mendixnative/src/main/java/com/mendix/mendixnative/util/MendixBackwardsCompatUtility.kt:10-20 | a second `getInstance()` returns the same object as the first |
| Compat.AndroidCompatHolder.UpdateVersion | android/mendixnative/src/main/java/com/mendix/mendixnative/util/MendixBackwardsCompatUtility.kt:22-24 | the static update goes to the kept instance, making one if needed |
| AppUrl.RawValue | ios/Modules/AppUrl/AppUrl.swift:92-98 | only `validation` has the empty raw value; every other path's starts with "/" |
| AppUrl.FromRawValue | ios/Modules/AppUrl/AppUrl.swift:92-98 | a raw value decodes only to the path whose raw value it is |
| AppUrl.RawValueRoundTrip | ios/Modules/AppUrl/AppUrl.swift:92-98 | every path decodes back from its raw value, so distinct paths have distinct raw values |
| AppUrl.EnsurePort | ios/Modules/AppUrl/AppUrl.swift:11-13 | the result is never 0: a non-zero port is kept, and 0 becomes 8083 |
| AppUrl.EnsurePortIdempotent | ios/Modules/AppUrl/AppUrl.swift:11-13 | applying `ensurePort` twice gives what once gives |
| AppUrl.IosEnsureProtocol | ios/Modules/AppUrl/AppUrl.swift:75-80 | the result has an http or https scheme; a string with one is kept, any other gets "http://" in front |
| AppUrl.IosEnsureProtocolIdempotent | ios/Modules/AppUrl/AppUrl.swift:75-80 | applying `ensureProtocol` twice gives what once gives |
| AppUrl.IosRemoveTrailingSlash | ios/Modules/AppUrl/AppUrl.swift:82-89 | whitespace and newlines are trimmed, and then one trailing slash, if any, is dropped |
| AppUrl.IosProcessed | ios/Modules/AppUrl/AppUrl.swift:59 | the normalised URL always has an http or https scheme |
| AppUrl.IsValid | ios/Modules/AppUrl/AppUrl.swift:42-55 | valid exactly when the space-trimmed URL is not empty and, normalised, parses with no query items and a path that is empty or "/" |
| AppUrl.IsValidIgnoresSpaces | ios/Modules/AppUrl/AppUrl.swift:42-55 | validity does not depend on surrounding spaces and tabs |
| AppUrl.BlankIsInvalid | ios/Modules/AppUrl/AppUrl.swift:45-47 | a blank URL is never valid, whatever the parser says |
| AppUrl.CreateUrl | ios/Modules/AppUrl/AppUrl.swift:58-73 | none exactly when neither the normalised URL nor the default parses; otherwise the parsed components, with the path appended or replaced, the port made non-zero and the query set, each only when given |
| AppUrl.ProcessedOfNormal | ios/Modules/AppUrl/AppUrl.swift:59 | a URL with a scheme and no trailing slash or whitespace needs no normalisation |
| AppUrl.DefaultIsNormalised | ios/Modules/AppUrl/AppUrl.swift:9 | "http://localhost:8080" needs no normalisation |
| AppUrl.UnparsableUrlUsesDefault | ios/Modules/AppUrl/AppUrl.swift:60 | an unparsable URL silently becomes the default URL, with the requested path, port and query |
| AppUrl.ForBundle | ios/Modules/AppUrl/AppUrl.swift:15-21 | the path ends with "/index.bundle", the port is non-zero, and the query is the dev query exactly when dev mode is on; remote debugging plays no part |
| AppUrl.ForRuntime | ios/Modules/AppUrl/AppUrl.swift:23-28 | the path becomes "/" and nothing else changes |
| AppUrl.ForValidation | ios/Modules/AppUrl/AppUrl.swift:30-32 | the path is cleared and nothing else changes |
| AppUrl.ForRuntimeInfo | ios/Modules/AppUrl/AppUrl.swift:34-36 | the path becomes "/xas/" and nothing else changes |
| AppUrl.ForPackagerStatus | ios/Modules/AppUrl/AppUrl.swift:38-40 | the path becomes "/status" and the port is made non-zero |
| AppUrl.JavaRemoveTrailingSlash | android/src/main/java/com/mendix/mendixnative/config/AppUrl.java:20-25 | one trailing slash is dropped, with no trimming |
| AppUrl.JavaEnsureProtocol | android/src/main/java/com/mendix/mendixnative/config/AppUrl.java:27-32 | a URL the pattern `https?://.*` matches is kept; any other gets "http://" in front; the result always starts with a scheme |
| AppUrl.EnsureProtocolPlatformsAgree | android/src/main/java/com/mendix/mendixnative/config/AppUrl.java:27-32 | without line terminators Java's pattern and the iOS prefix test give the same URL |
| AppUrl.JavaEnsureProtocolIdempotent | android/src/main/java/com/mendix/mendixnative/config/AppUrl.java:27-32 | on a URL without line terminators `ensureProtocol` is idempotent |
| AppUrl.JavaEnsureProtocolNotIdempotentOnLineBreak | android/src/main/java/com/mendix/mendixnative/config/AppUrl.java:28 | `.` does not match a line break, so "http://a\nb" gets a second scheme, and another on every further call |
| AppUrl.JavaForRuntime | android/src/main/java/com/mendix/mendixnative/config/AppUrl.java:9-18 | the runtime URL has a scheme and ends with exactly the one "/" the format adds |
| AppUrl.JavaForRuntimeIdempotent | android/src/main/java/com/mendix/mendixnative/config/AppUrl.java:16-18 | a runtime URL without line terminators is its own runtime URL |
| AppUrl.JavaForBundle | android/src/main/java/com/mendix/mendixnative/config/AppUrl.java:12-14 | the text is the host, "null" when there is none, then ":" and the port in decimal |
| AppUrl.JavaForBundleIdentifiesPort | android/src/main/java/com/mendix/mendixnative/config/AppUrl.java:12-14 | for one host, the bundle address determines the port |
| AppUrl.RemoveTrailingSlashIsJavaAfterTrim | ios/Modules/AppUrl/AppUrl.swift:82-89 | iOS drops the slash Java drops, after trimming whitespace and newlines |
| AppUrl.RemoveTrailingSlashDiffersOnSpaces | ios/Modules/AppUrl/AppUrl.swift:82-89 | on " a/ " iOS gives "a" while Java keeps " a/ " |
| AppUrl.OnlyOneSlashRemoved | android/src/main/java/com/mendix/mendixnative/config/AppUrl.java:20-25 | only one slash goes: "h//" becomes "h/" on both platforms |
| AppPreferences.StringOr | android/src/main/java/com/mendix/mendixnative/config/AppPreferences.java:45 | an absent key gives the default; a present one gives the string stored under it |
| AppPreferences.BoolOr | android/src/main/java/com/mendix/mendixnative/config/AppPreferences.java:68 | an absent key gives the default; a present one gives the flag stored under it |
| AppPreferences.IntOr | android/src/main/java/com/mendix/mendixnative/config/AppPreferences.java:76 | an absent key gives the default; a present one gives the number stored under it |
| AppPreferences.PutThenGet | android/src/main/java/com/mendix/mendixnative/config/AppPreferences.java:113-123 | a committed write is read back and leaves every other key, present or absent, as it was |
| AppPreferences.PutKeepsWellTyped | android/src/main/java/com/mendix/mendixnative/config/AppPreferences.java:113-123 | writing a key with the kind of value this class writes to it keeps every key of the class well typed |
| AppPreferences.Preferences.constructor | android/src/main/java/com/mendix/mendixnative/config/AppPreferences.java:40-42 | the object starts from the store as the app finds it |
| AppPreferences.Preferences.GetAppUrl | android/src/main/java/com/mendix/mendixnative/config/AppPreferences.java:44-46 | the stored launch URL, and "" when none was ever stored |
| AppPreferences.Preferences.SetAppUrl | android/src/main/java/com/mendix/mendixnative/config/AppPreferences.java:48-50 | only the launch URL changes: it becomes the trimmed URL with a scheme added when it lacks one, so it reads back starting with http:// or https:// |
| AppPreferences.Preferences.SetRemoteDebugging | android/src/main/java/com/mendix/mendixnative/config/AppPreferences.java:52-54 | only the remote-debugging flag changes, and it reads back as given |
| AppPreferences.Preferences.SetDevMode | android/src/main/java/com/mendix/mendixnative/config/AppPreferences.java:56-61 | dev mode and the dev-mode bundle flag become the value, the minify flag its negation, and no other key changes |
| AppPreferences.Preferences.SetDeltas | android/src/main/java/com/mendix/mendixnative/config/AppPreferences.java:63-65 | only the bundle-deltas flag changes |
| AppPreferences.Preferences.IsDevModeEnabled | android/src/main/java/com/mendix/mendixnative/config/AppPreferences.java:67-69 | the stored dev-mode flag, and false when none was stored |
| AppPreferences.Preferences.SetRemoteDebuggingPackagerPort | android/src/main/java/com/mendix/mendixnative/config/AppPreferences.java:71-73 | only the packager port changes, and it reads back as given |
| AppPreferences.Preferences.GetPackagerPort | android/src/main/java/com/mendix/mendixnative/config/AppPreferences.java:75-77 | the stored packager port, and 8083 when none was stored |
| AppPreferences.Preferences.GetMetroBundlerHost | android/src/main/java/com/mendix/mendixnative/config/AppPreferences.java:79-81 | the stored packager host, and else the app URL |
| AppPreferences.Preferences.SetElementInspector | android/src/main/java/com/mendix/mendixnative/config/AppPreferences.java:83-85 | only the inspector flag changes, and it reads back as given |
| AppPreferences.Preferences.IsElementInspectorEnabled | android/src/main/java/com/mendix/mendixnative/config/AppPreferences.java:87-89 | the stored inspector flag, and false when none was stored |
| AppPreferences.Preferences.IsRemoteJsDebugEnabled | android/src/main/java/com/mendix/mendixnative/config/AppPreferences.java:91-93 | the stored remote-debugging flag, and false when none was stored |
| AppPreferences.Preferences.SetDevModeBundle | android/src/main/java/com/mendix/mendixnative/config/AppPreferences.java:95-97 | only the dev-mode bundle flag changes |
| AppPreferences.Preferences.SetJsMinifyBundle | android/src/main/java/com/mendix/mendixnative/config/AppPreferences.java:99-101 | only the minify flag changes |
| AppPreferences.Preferences.UpdatePackagerHost | android/src/main/java/com/mendix/mendixnative/config/AppPreferences.java:103-111 | true exactly when the URL, given a scheme, parses; then only the packager host changes, to the host and the packager port as "host:port", and the Metro host reads back as that; when parsing throws nothing changes |
| WarningsFilter.RawValue | ios/Modules/WarningFilter/WarningsFilter.swift:3-6 | the raw values lie in 0 to 2 |
| WarningsFilter.FromRawValue | ios/Modules/WarningFilter/WarningsFilter.swift:3-6 | an integer gives a filter exactly when it lies in 0 to 2, and that filter has it as its raw value |
| WarningsFilter.RawValueRoundTrip | ios/Modules/WarningFilter/WarningsFilter.swift:3-6 | every filter is recovered from its raw value |
| WarningsFilter.StringValue | ios/Modules/WarningFilter/WarningsFilter.swift:9-18 | every name is a non-empty run of lower-case letters |
| WarningsFilter.StringValueInjective | ios/Modules/WarningFilter/WarningsFilter.swift:9-18 | distinct filters have distinct names |
| WarningsFilter.TableMatchesStringValue | ios/Modules/WarningFilter/WarningsFilter.swift:21-25 | the Objective-C table holds each filter's name at its raw value |
| WarningsFilter.StringFor | ios/Modules/WarningFilter/WarningsFilter.swift:28-33 | a name exactly for the indices 0 to 2, and it is the name of the filter with that raw value |
| WarningsFilter.Lowered | ios/Modules/WarningFilter/WarningsFilter.swift:37 | lowering keeps the length and lowers each character |
| WarningsFilter.From | ios/Modules/WarningFilter/WarningsFilter.swift:36-47 | a filter is found only for a string that spells its name in some case |
| WarningsFilter.LoweredMatches | ios/Modules/WarningFilter/WarningsFilter.swift:37 | a lowered string equals a lower-case name exactly when the two are equal ignoring case |
| WarningsFilter.FromIsCaseInsensitiveInverse | ios/Modules/WarningFilter/WarningsFilter.swift:36-47 | `from(string:)` gives a filter exactly when the string equals its name ignoring case |
| WarningsFilter.FromStringValue | ios/Modules/WarningFilter/WarningsFilter.swift:36-47 | every filter's name reads back as that filter, so `description` and the bridge's `toString` give names that read back |
| WarningsFilter.BridgeFilter | ios/Modules/WarningFilter/WarningsFilter.swift:65-70 | an index in 0 to 2 gives the filter with that raw value, and any other index gives `none` |
| WarningsFilter.BridgeFilterOfOwnIndex | ios/Modules/WarningFilter/WarningsFilter.swift:65-70 | the bridge gives back the filter whose raw value it is given |
| TouchHandler.Step | android/src/main/java/com/mendix/mendixnative/handler/DevMenuTouchEventHandler.kt:14-53 | only an Up of an armed gesture is consumed, and exactly then a gesture, Tap or LongPress by the time since the first touch, is reported; an Up disarms; a PointerDown arms exactly when three pointers are down; a PointerUp disarms exactly when three pointers lift more than 100 px away on either axis; other events change nothing |
| TouchHandler.Gestures | android/src/main/java/com/mendix/mendixnative/handler/DevMenuTouchEventHandler.kt:14-21 | a run of events reports at most one gesture per event |
| TouchHandler.ThreeFingerTap | android/src/main/java/com/mendix/mendixnative/handler/DevMenuTouchEventHandler.kt:23-53 | three fingers down and then lifted within 500 ms of the first touch report one tap, whatever came before |
| TouchHandler.ThreeFingerLongPress | android/src/main/java/com/mendix/mendixnative/handler/DevMenuTouchEventHandler.kt:41-53 | the same gesture held 500 ms or more reports one long press |
| TouchHandler.MovedGestureIsCancelled | android/src/main/java/com/mendix/mendixnative/handler/DevMenuTouchEventHandler.kt:31-39 | a three-pointer lift more than 100 px from where they went down cancels the gesture, so the final lift reports nothing |
| TouchHandler.TwoPointerLiftDoesNotCancel | android/src/main/java/com/mendix/mendixnative/handler/DevMenuTouchEventHandler.kt:31-39 | a lift that reports other than three pointers changes nothing |
| TouchHandler.ReportedOnce | android/src/main/java/com/mendix/mendixnative/handler/DevMenuTouchEventHandler.kt:41-53 | a second final lift after the first is never consumed |
| TouchHandler.DevMenuTouchEventHandler.constructor | android/src/main/java/com/mendix/mendixnative/handler/DevMenuTouchEventHandler.kt:6-12 | the handler starts disarmed at (0, 0) with nothing reported |
| TouchHandler.DevMenuTouchEventHandler.Handle | android/src/main/java/com/mendix/mendixnative/handler/DevMenuTouchEventHandler.kt:14-39 | the new state and the consumed flag are those of `Step`, and its gesture is passed to the listener when there is one |
| TouchHandler.DevMenuTouchEventHandler.OnUpAction | android/src/main/java/com/mendix/mendixnative/handler/DevMenuTouchEventHandler.kt:41-61 | consumed exactly when armed; then the gesture is classified by the 500 ms timeout, passed to the listener if there is one, and the recogniser is disarmed |
| FileSystemJs.RelativeToDocumentsAbsolutePath | src/file-system.ts:32-33 | the result always starts with the documents directory: a path already starting with it is kept, and any other is joined to it with "/" |
| FileSystemJs.ResolveIdempotent | src/file-system.ts:32-33 | resolving a resolved path changes nothing |
| FileSystemJs.ResolveKeepsRelativePath | src/file-system.ts:32-33 | a joined path ends with the original path right after the directory and the separator |
| FileSystemJs.AbsolutePathElsewhereIsNested | src/file-system.ts:32-33 | an absolute path outside the documents directory is nested rather than refused: "/a" under "/d" is "/d//a" |
| FileSystemJs.Cast | src/file-system.ts:37-42 | undefined exactly for undefined and null; any other value passes unchanged |
| FileSystemJs.CastIdempotent | src/file-system.ts:37-42 | a cast value casts to itself, since `cast` never yields null |
| Keychain.ToAppScopeKey | ios/Modules/Helper/KeychainHelper.swift:16-21 | a missing or empty scope leaves the key alone, any other gives "scope_key"; the result always ends with the key |
| Keychain.ToAppScopeKeyInjective | ios/Modules/Helper/KeychainHelper.swift:16-21 | within one scope distinct keys give distinct accounts |
| Keychain.ClearedKeys | ios/Modules/Helper/KeychainHelper.swift:5-14 | two distinct accounts, the scoped token and then the scoped session |
| Keychain.TokenAndSessionDiffer | ios/Modules/Helper/KeychainHelper.swift:5-14 | in every scope the token and the session are separate items |
| Keychain.Keychain.constructor | ios/Modules/Helper/KeychainHelper.swift:3 | the keychain holds the given accounts |
| Keychain.Keychain.DeleteKeychainItem | ios/Modules/Helper/KeychainHelper.swift:23-30 | the item with that account is gone and every other stays |
| Keychain.Keychain.Clear | ios/Modules/Helper/KeychainHelper.swift:5-14 | exactly the scoped token and session items are gone, and every other item stays |
| RuntimeInfo.IntMember | ios/Modules/RuntimeInfoProvider/RuntimeInfo.swift:23-24 | a number only for a member that holds one; a missing member or one of another type gives none |
| RuntimeInfo.FromDictionary | ios/Modules/RuntimeInfoProvider/RuntimeInfo.swift:20-31 | each field is the member of the same name, with `cacheburst` read from "cachebust", and "" or 0 when it is missing or of the wrong type |
| RuntimeInfo.FromToDictionary | ios/Modules/RuntimeInfoProvider/RuntimeInfo.swift:20-31 | a dictionary holding the four members with values of the right type decodes to the info they came from |
| RuntimeInfo.EmptyDictionaryDefaults | ios/Modules/RuntimeInfoProvider/RuntimeInfo.swift:20-31 | an empty dictionary decodes to empty strings and zeros |
| RuntimeInfo.WrongTypeDefaults | ios/Modules/RuntimeInfoProvider/RuntimeInfo.swift:24 | a packager port sent as a string reads as 0 rather than failing |
| RuntimeInfo.ToResponse | ios/Modules/RuntimeInfoProvider/RuntimeInfoResponse.swift:23-32 | the status is "SUCCESS", "FAILED" or "INACCESSIBLE", and the info is present exactly on success |
| RuntimeInfo.ResponseRoundTrip | ios/Modules/RuntimeInfoProvider/RuntimeInfoResponse.swift:18-33 | the response tells the three outcomes apart and gives back the info of a success |

## Left out

- JSON text, zip archives, `EncryptedFile` and the cipher, Base64, UTF-8, `URLComponents`/`URL(string:)`, `URI.create`, OkHttp's `Cookie.parseAll` and `toString`, OkHttp's parsing of a request URL, the blob store and `UUID()`: foreign libraries, so they are parameters of the model. A cookie is already parsed, and an archive is already a list of entries.
- AppUrl.CreateUrl: takes `URL(string: components.string)` to give back the same components, because the printing and parsing of `URLComponents` and `URL` are not modelled.
- The network (OkHttp, URLSession) and `chain.proceed`: a download is a completed outcome value passed in, and the interceptor returns the request it would send.
- The runtime URL, the app version, the directory roots and other `MxConfiguration` values: process-wide statics, so they are parameters.
- RuntimeInfoProvider.swift, RuntimeInfo.kt and the iOS AppPreferences.swift are not part of this model: network clients and a configuration holder.
- The iOS constants header, with the OTA directory name, the manifest file name and the config key names, is not part of this model. These names are parameters, and the deploy config is a record of optional fields.
- Exception messages and stack traces: a failure is its error code along with what the model can observe.
- Exceptions thrown by `decryptValue`: decryption is a total function here.
- JSON serialisation failures in `writeJson` (ERROR_SERIALIZATION_FAILED on writing): serialisation is total here.
- Failures of iOS `removeItem` on an existing item: the model's removal always succeeds, so the ERROR_DELETE_FAILED branch is unreachable.
- FileTree.Disk.Delete: `File.delete()` fails here only on a missing path or a non-empty directory. A refusal for lack of permission or an I/O error is not modelled, although writes can fail at the `unwritable` paths.
- FileTree.Disk.RemoveTree: `deleteRecursively()` and `removeItem(atPath:)` always remove the whole subtree here. A removal that fails part-way and leaves files behind is not modelled.
- OtaAndroid.InstallSpec: "nothing remains at or below the extraction directory after a failed install" holds only because removal cannot fail in the model. The Kotlin code ignores the result of `deleteRecursively()`, so a failed removal on a device can leave part of the extraction behind.
- OtaAndroid.DeployFailureCleansUp: holds only because removal cannot fail in the model, for the same reason as OtaAndroid.InstallSpec.
- OtaAndroid.ClearedSpec: `deleteDirectory` of an empty stale extraction directory always succeeds here. A permission or I/O failure of `File.delete()` is not modelled.
- OtaAndroid.OtaModule.Cleanup: removing the old bundle directory and deleting the package always succeed here. The Kotlin code ignores both results, so on a device either can be left behind.
- File-protection classes and attributes on iOS writes: they cannot be observed in the tree model.
- `standardizingPath` and `File` normalisation beyond collapsing duplicate slashes and dropping a trailing slash. ".." is not resolved, so zip-slip entries are not modelled.
- Locks, dispatch queues and concurrency: every operation runs to completion alone, and the compat `update` runs sequentially.
- A shared-preferences value of an unexpected type under one of the class's keys: the constructor requires the store to be well typed, where Android would throw `ClassCastException`.
- `lowercased()` is modelled as ASCII lowering; other Unicode case mappings are left out.
- The default locale of `String.format("%s:%d")` in Java's `forBundle`: the port is printed in ASCII decimal digits.
- `as? Int` bridging of NSNumber booleans and floating-point numbers: only integer JSON numbers read as `Int`.
- Promise settling, event emission and listener calls are recorded as logged values rather than performed.
- The status returned by `SecItemDelete` is ignored, as in the source: the model's delete always succeeds.
- `AppUrl.getUrlFromResource`: a resource read with no logic of its own.
- The `fatalError` of iOS `forBundle` and `forRuntime` when no URL can be built: the model returns no value instead of stopping the app.
- Touch coordinates and download progress are reals, and times are integer milliseconds: the code compares them against thresholds and does no rounding-sensitive arithmetic.
- AppUrl.JavaEnsureProtocolIdempotent: holds only for URLs without line terminators, because Java's regular-expression `.` does not match them (AppUrl.JavaEnsureProtocolNotIdempotentOnLineBreak shows the other case).
- AppUrl.JavaForRuntimeIdempotent: holds only for URLs without line terminators, for the same reason, since `forRuntime` goes through `ensureProtocol`.
