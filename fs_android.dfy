/**
 * Android's file-system bridge (NativeFsModule.kt, and the legacy NativeFsModule.java
 * with the same whitelist and the same dispatch): each bridge method checks the path
 * against the app's two private directories where it does so, calls FileBackend, and
 * maps what comes back (or what is thrown) onto the promise.
 *
 * Each bridge method returns every call it makes on its promise, in order: `move`
 * can make two, of which React Native keeps the first.
 */
module FsAndroid {
  import opened Wrappers
  import opened Text
  import opened Json
  import opened FileTree
  import opened Platform
  import opened FileBackend

  const ErrorInvalidBlob: string := "ERROR_INVALID_BLOB"
  const ErrorReadFailed: string := "ERROR_READ_FAILED"
  const ErrorCacheFailed: string := "ERROR_CACHE_FAILED"
  const ErrorMoveFailed: string := "ERROR_MOVE_FAILED"
  const ErrorSerializationFailed: string := "ERROR_SERIALIZATION_FAILED"
  const InvalidPath: string := "INVALID_PATH"
  const NoText: string := "no text"

  const PathHead: string := "Cannot write to "
  const PathTail: string := ". Path needs to be an absolute path to the apps accessible space."

  /** The message of `PathNotAccessibleException(path)`. */
  function NotAccessibleMessage(path: string): (m: string)
    ensures |m| == |PathHead| + |path| + |PathTail|
    ensures m[..|PathHead|] == PathHead && m[|PathHead|..|PathHead| + |path|] == path
    ensures m[|PathHead| + |path|..] == PathTail
  {
    PathHead + path + PathTail
  }

  /** The message names the path: two different paths never give the same message. */
  lemma NotAccessibleMessageInjective(p: string, q: string)
    requires NotAccessibleMessage(p) == NotAccessibleMessage(q)
    ensures p == q
  {
    var m := NotAccessibleMessage(p);
    assert |p| == |q|;
    assert p == m[|PathHead|..|PathHead| + |p|];
  }

  /** The map `read` hands to JavaScript: the blob the bytes were stored under, from offset 0, of their size. */
  function BlobMap(blobId: string, size: int): (v: Value)
    ensures v.JObject? && v.fields.Keys == {"blobId", "offset", "size"}
    ensures v.fields["blobId"] == JString(blobId) && v.fields["offset"] == JNumber(0) && v.fields["size"] == JNumber(size)
  {
    JObject(map["blobId" := JString(blobId), "offset" := JNumber(0), "size" := JNumber(size)])
  }

  /**
   * The catch clauses around a backend read: FileNotFoundException gives `missing`,
   * any other IOException ERROR_READ_FAILED, and the bytes read go to `found`.
   */
  function Caught(read: Result<Bytes, Fault>, found: Bytes -> Settlement, missing: Settlement): (s: Settlement)
    ensures read.Ok? ==> s == found(read.value)
    ensures read == Err(FileNotFound) ==> s == missing
    ensures read == Err(IoFailure) ==> s == Rejected(ErrorReadFailed, "Failed reading file from disk")
  {
    match read
    case Ok(data) => found(data)
    case Err(FileNotFound) => missing
    case Err(IoFailure) => Rejected(ErrorReadFailed, "Failed reading file from disk")
  }

  /**
   * Jackson's `readValue` into a map, then `Arguments.makeNativeMap`: an object as it
   * is, a top-level null (no map) as an empty map, and anything else, including text
   * that does not parse, ERROR_SERIALIZATION_FAILED.
   */
  function NativeMap(parsed: Option<Value>): (s: Settlement)
    ensures s.Resolved? <==> parsed.Some? && (parsed.value.JObject? || parsed.value.JNull?)
    ensures s.Resolved? ==> s.value.JObject? && (parsed.value.JObject? ==> s.value == parsed.value) &&
                            (parsed.value.JNull? ==> s.value.fields == map[])
    ensures s.Rejected? ==> s == Rejected(ErrorSerializationFailed, "Failed to deserialize JSON")
  {
    match parsed
    case Some(JObject(fields)) => Resolved(JObject(fields))
    case Some(JNull) => Resolved(JObject(map[]))
    case _ => Rejected(ErrorSerializationFailed, "Failed to deserialize JSON")
  }

  /**
   * The NativeFsModule object: the backend it calls, the absolute paths of the app's
   * files and cache directories, the device's API level, and the platform pieces whose
   * workings are outside the model: the blob store's id for stored bytes, the order
   * `File.list()` yields names in, the message of an IOException the backend throws,
   * UTF-8 decoding, and what FileReaderModule makes of a blob.
   */
  class FsModule {
    const backend: Backend
    const filesDir: Path
    const cacheDir: Path
    const sdkInt: int
    const store: Bytes -> string
    const order: set<string> -> seq<string>
    const faultMessage: Fault -> string
    const utf8: Bytes -> string
    const dataUrl: Value -> Settlement

    constructor (backend: Backend, filesDir: Path, cacheDir: Path, sdkInt: int, store: Bytes -> string,
                 order: set<string> -> seq<string>, faultMessage: Fault -> string, utf8: Bytes -> string,
                 dataUrl: Value -> Settlement)
      ensures this.backend == backend && this.filesDir == filesDir && this.cacheDir == cacheDir && this.sdkInt == sdkInt
      ensures this.store == store && this.order == order && this.faultMessage == faultMessage
      ensures this.utf8 == utf8 && this.dataUrl == dataUrl
    {
      this.backend := backend;
      this.filesDir := filesDir;
      this.cacheDir := cacheDir;
      this.sdkInt := sdkInt;
      this.store := store;
      this.order := order;
      this.faultMessage := faultMessage;
      this.utf8 := utf8;
      this.dataUrl := dataUrl;
    }

    /** `ensureWhiteListedPath`: the path itself when it starts with the files or the cache directory. */
    function EnsureWhiteListedPath(path: string): (r: Result<string, string>)
      ensures r.Ok? <==> StartsWith(path, filesDir) || StartsWith(path, cacheDir)
      ensures r.Ok? ==> r.value == path
      ensures r.Err? ==> r.error == NotAccessibleMessage(path)
    {
      if StartsWith(path, filesDir) || StartsWith(path, cacheDir) then Ok(path) else Err(NotAccessibleMessage(path))
    }

    /**
     * The check compares text only: anything after the directory's name passes, a
     * sibling such as `filesDir + "-other"` or a way out such as `filesDir + "/../x"`.
     */
    lemma WhitelistIsTextualPrefix(rest: string)
      ensures EnsureWhiteListedPath(filesDir + rest) == Ok(filesDir + rest)
      ensures EnsureWhiteListedPath(cacheDir + rest) == Ok(cacheDir + rest)
    {
      assert (filesDir + rest)[..|filesDir|] == filesDir;
      assert (cacheDir + rest)[..|cacheDir|] == cacheDir;
    }

    /** `setEncryptionEnabled(flag)`. */
    method SetEncryptionEnabled(enabled: bool)
      modifies backend
      ensures backend.encryptionEnabled == enabled
    {
      backend.SetEncryptionEnabled(enabled);
    }

    /**
     * `save(blob, filePath)` with what the blob module resolved the blob to: an invalid
     * blob or a path outside the whitelist rejects before anything is written; an
     * IOException from `save` rejects ERROR_CACHE_FAILED; the blob is released, and the
     * promise resolved, only after a successful save.
     */
    method Save(bytes: Option<Bytes>, filePath: string) returns (calls: seq<Settlement>, released: bool)
      modifies backend.disk
      ensures bytes.None? ==>
        calls == [Rejected(ErrorInvalidBlob, "The specified blob is invalid")] && !released && backend.disk.tree == old(backend.disk.tree)
      ensures bytes.Some? && EnsureWhiteListedPath(filePath).Err? ==>
        calls == [Rejected(InvalidPath, NotAccessibleMessage(filePath))] && !released && backend.disk.tree == old(backend.disk.tree)
      ensures bytes.Some? && EnsureWhiteListedPath(filePath).Ok? ==>
        var s := SaveSpec(old(backend.disk.tree), backend.disk.unwritable, backend.encryptionEnabled, backend.codecs, filePath, bytes.value);
        backend.disk.tree == s.tree &&
        (s.thrown.None? ==> calls == [Resolved(JNull)] && released) &&
        (s.thrown.Some? ==> calls == [Rejected(ErrorCacheFailed, "Failed writing file to disk")] && !released)
      ensures released <==> calls == [Resolved(JNull)]
      ensures released && SealRoundTrips(backend.codecs) && (backend.encryptionEnabled ==> backend.codecs.unseal(bytes.value).None?) ==>
        Read(filePath) == Resolved(BlobMap(store(bytes.value), |bytes.value|))
    {
      if bytes.None? {
        return [Rejected(ErrorInvalidBlob, "The specified blob is invalid")], false;
      }
      var path := EnsureWhiteListedPath(filePath);
      if path.Err? {
        return [Rejected(InvalidPath, path.error)], false;
      }
      var thrown := backend.Save(bytes.value, path.value);
      if thrown.Some? {
        return [Rejected(ErrorCacheFailed, "Failed writing file to disk")], false;
      }
      if SealRoundTrips(backend.codecs) && (backend.encryptionEnabled ==> backend.codecs.unseal(bytes.value).None?) {
        SaveThenRead(old(backend.disk.tree), backend.disk.unwritable, backend.encryptionEnabled, backend.codecs, filePath, bytes.value);
      }
      calls, released := [Resolved(JNull)], true;
    }

    /** `read(filePath)`: the stored blob of the bytes; null for a missing file. */
    function Read(filePath: string): (r: Settlement)
      reads backend, backend.disk
      ensures EnsureWhiteListedPath(filePath).Err? ==> r == Rejected(InvalidPath, NotAccessibleMessage(filePath))
      ensures EnsureWhiteListedPath(filePath).Ok? ==>
        (r == Resolved(JNull) <==> !IsFileIn(backend.disk.tree, Canon(filePath)))
      ensures EnsureWhiteListedPath(filePath).Ok? && backend.Read(filePath).Ok? ==>
        r == Resolved(BlobMap(store(backend.Read(filePath).value), |backend.Read(filePath).value|))
    {
      if EnsureWhiteListedPath(filePath).Err? then Rejected(InvalidPath, NotAccessibleMessage(filePath))
      else
        Caught(backend.Read(filePath), data => Resolved(BlobMap(store(data), |data|)), Resolved(JNull))
    }

    /** Reading never ends in ERROR_READ_FAILED: FileBackend's read only throws FileNotFoundException. */
    lemma ReadFailsOnlyOnPath(filePath: string)
      ensures Read(filePath).Rejected? ==> Read(filePath) == Rejected(InvalidPath, NotAccessibleMessage(filePath))
    {
      var r := backend.Read(filePath);
      assert r.Err? ==> r.error == FileNotFound;
    }

    /** `readAsDataURL(filePath)`: FileReaderModule's answer for the stored blob; null for a missing file. */
    function ReadAsDataUrl(filePath: string): (r: Settlement)
      reads backend, backend.disk
      ensures EnsureWhiteListedPath(filePath).Err? ==> r == Rejected(InvalidPath, NotAccessibleMessage(filePath))
      ensures EnsureWhiteListedPath(filePath).Ok? && !IsFileIn(backend.disk.tree, Canon(filePath)) ==> r == Resolved(JNull)
      ensures EnsureWhiteListedPath(filePath).Ok? && backend.Read(filePath).Ok? ==>
        r == dataUrl(BlobMap(store(backend.Read(filePath).value), |backend.Read(filePath).value|))
    {
      if EnsureWhiteListedPath(filePath).Err? then Rejected(InvalidPath, NotAccessibleMessage(filePath))
      else
        Caught(backend.Read(filePath), data => dataUrl(BlobMap(store(data), |data|)), Resolved(JNull))
    }

    /** `readAsText(filePath)`: no whitelist check; the bytes decoded as UTF-8, "no text" when reading throws. */
    function ReadAsText(filePath: string): (r: Settlement)
      reads backend, backend.disk
      ensures r.Resolved? <==> IsFileIn(backend.disk.tree, Canon(filePath))
      ensures r.Resolved? ==> r == Resolved(JString(utf8(backend.Read(filePath).value)))
      ensures r.Rejected? ==> r == Rejected(NoText, faultMessage(FileNotFound))
    {
      match backend.Read(filePath)
      case Ok(data) => Resolved(JString(utf8(data)))
      case Err(f) => Rejected(NoText, faultMessage(f))
    }

    /** A path outside the whitelist is still read by `readAsText`, whereas `read` refuses it. */
    lemma ReadAsTextIgnoresWhitelist(filePath: string)
      requires EnsureWhiteListedPath(filePath).Err? && IsFileIn(backend.disk.tree, Canon(filePath))
      ensures ReadAsText(filePath).Resolved? && Read(filePath).Rejected?
    {
    }

    /** `fileExists(filePath)`. */
    function FileExists(filePath: string): (r: Settlement)
      reads backend.disk
      ensures EnsureWhiteListedPath(filePath).Err? ==> r == Rejected(InvalidPath, NotAccessibleMessage(filePath))
      ensures EnsureWhiteListedPath(filePath).Ok? ==> r == Resolved(JBool(backend.disk.Exists(filePath)))
    {
      match EnsureWhiteListedPath(filePath)
      case Err(m) => Rejected(InvalidPath, m)
      case Ok(p) => Resolved(JBool(backend.disk.Exists(p)))
    }

    /**
     * `readJson(filepath)`: Jackson reads the bytes into a map; the string "null" for a
     * missing file; ERROR_SERIALIZATION_FAILED for text that is not JSON or not an
     * object. A top-level JSON null reads as no map, which `Arguments.makeNativeMap`
     * turns into an empty one.
     */
    function ReadJson(filepath: string): (r: Settlement)
      reads backend, backend.disk
      ensures EnsureWhiteListedPath(filepath).Err? ==> r == Rejected(InvalidPath, NotAccessibleMessage(filepath))
      ensures EnsureWhiteListedPath(filepath).Ok? ==>
        (r == Resolved(JString("null")) <==> !IsFileIn(backend.disk.tree, Canon(filepath)))
      ensures EnsureWhiteListedPath(filepath).Ok? && backend.Read(filepath).Ok? ==>
        var parsed := backend.codecs.parseJson(backend.Read(filepath).value);
        (parsed.Some? && parsed.value.JObject? ==> r == Resolved(parsed.value)) &&
        (parsed.Some? && parsed.value.JNull? ==> r == Resolved(JObject(map[]))) &&
        (parsed.None? || !(parsed.value.JObject? || parsed.value.JNull?) ==>
          r == Rejected(ErrorSerializationFailed, "Failed to deserialize JSON"))
    {
      if EnsureWhiteListedPath(filepath).Err? then Rejected(InvalidPath, NotAccessibleMessage(filepath))
      else
        Caught(backend.Read(filepath), bytes => NativeMap(backend.codecs.parseJson(bytes)), Resolved(JString("null")))
    }

    /**
     * `list(dirPath)`: an empty array for anything that is not an existing directory,
     * before the whitelist is consulted; the directory's entries otherwise.
     */
    function List(dirPath: string): (r: Settlement)
      reads backend, backend.disk
      ensures !backend.disk.IsDirectory(dirPath) ==> r == Resolved(JArray([]))
      ensures backend.disk.IsDirectory(dirPath) && EnsureWhiteListedPath(dirPath).Err? ==>
        r == Rejected(InvalidPath, NotAccessibleMessage(dirPath))
      ensures backend.disk.IsDirectory(dirPath) && EnsureWhiteListedPath(dirPath).Ok? ==>
        r == Resolved(JArray(Strings(order(backend.List(dirPath)))))
    {
      if !backend.disk.IsDirectory(dirPath) then Resolved(JArray([]))
      else match EnsureWhiteListedPath(dirPath)
        case Err(m) => Rejected(InvalidPath, m)
        case Ok(p) => Resolved(JArray(Strings(order(backend.List(p)))))
    }

    /** When `File.list()` lists each entry once, `list` resolves with exactly the names of the directory's children. */
    lemma ListGivesChildren(dirPath: string)
      requires Enumerates(order)
      requires backend.disk.IsDirectory(dirPath) && EnsureWhiteListedPath(dirPath).Ok?
      ensures List(dirPath).Resolved? && List(dirPath).value.JArray?
      ensures var items := List(dirPath).value.items;
        (forall i :: 0 <= i < |items| ==> items[i].JString? && items[i].str in ChildNames(backend.disk.tree, Canon(dirPath))) &&
        (forall n :: n in ChildNames(backend.disk.tree, Canon(dirPath)) ==> JString(n) in items)
    {
      var names := ChildNames(backend.disk.tree, Canon(dirPath));
      var listed := order(names);
      assert backend.List(dirPath) == names;
      var items := Strings(listed);
      forall n | n in names ensures JString(n) in items {
        var i :| 0 <= i < |listed| && listed[i] == n;
        assert items[i] == JString(n);
      }
    }

    /**
     * `move(filePath, newPath)`: both paths are whitelisted first. A missing source
     * rejects ERROR_READ_FAILED but does not return, so the move is attempted anyway
     * and settles the promise a second time, which React Native ignores. A directory
     * goes through `moveDirectory`, whose result is ignored; anything else through
     * `moveFile`, whose IOException becomes ERROR_MOVE_FAILED.
     */
    method Move(filePath: string, newPath: string) returns (calls: seq<Settlement>)
      modifies backend.disk
      ensures EnsureWhiteListedPath(filePath).Err? ==>
        calls == [Rejected(InvalidPath, NotAccessibleMessage(filePath))] && backend.disk.tree == old(backend.disk.tree)
      ensures EnsureWhiteListedPath(filePath).Ok? && EnsureWhiteListedPath(newPath).Err? ==>
        calls == [Rejected(InvalidPath, NotAccessibleMessage(newPath))] && backend.disk.tree == old(backend.disk.tree)
      ensures EnsureWhiteListedPath(filePath).Ok? && EnsureWhiteListedPath(newPath).Ok? ==>
        var t := old(backend.disk.tree);
        var missing := if Canon(filePath) in t then [] else [Rejected(ErrorReadFailed, "File does not exist")];
        if Canon(filePath) in t && t[Canon(filePath)] == Dir then
          backend.disk.tree == MoveDirectorySpec(t, backend.disk.unwritable, sdkInt, filePath, newPath).1 &&
          calls == missing + [Resolved(JNull)]
        else
          var s := MoveFileSpec(t, backend.disk.unwritable, backend.encryptionEnabled, backend.codecs, filePath, newPath);
          backend.disk.tree == s.tree &&
          calls == missing + [if s.thrown.None? then Resolved(JNull) else Rejected(ErrorMoveFailed, faultMessage(s.thrown.value))]
    {
      var fromPath := EnsureWhiteListedPath(filePath);
      if fromPath.Err? {
        return [Rejected(InvalidPath, fromPath.error)];
      }
      var toPath := EnsureWhiteListedPath(newPath);
      if toPath.Err? {
        return [Rejected(InvalidPath, toPath.error)];
      }
      calls := [];
      if !backend.disk.Exists(fromPath.value) {
        calls := [Rejected(ErrorReadFailed, "File does not exist")];
      }
      if backend.disk.IsDirectory(fromPath.value) {
        var _ := backend.MoveDirectory(fromPath.value, toPath.value, sdkInt);
        calls := calls + [Resolved(JNull)];
      } else {
        var thrown := backend.MoveFile(fromPath.value, toPath.value);
        if thrown.Some? {
          calls := calls + [Rejected(ErrorMoveFailed, faultMessage(thrown.value))];
        } else {
          calls := calls + [Resolved(JNull)];
        }
      }
    }

    /**
     * `remove(filePath)`: a directory is deleted (only when empty, see `deleteDirectory`)
     * without a whitelist check; anything else is whitelisted, then deleted.
     */
    method Remove(filePath: string) returns (calls: seq<Settlement>)
      modifies backend.disk
      ensures old(backend.disk.IsDirectory(filePath)) ==>
        calls == [Resolved(JNull)] && backend.disk.tree == DeleteDirectorySpec(old(backend.disk.tree), filePath)
      ensures !old(backend.disk.IsDirectory(filePath)) && EnsureWhiteListedPath(filePath).Err? ==>
        calls == [Rejected(InvalidPath, NotAccessibleMessage(filePath))] && backend.disk.tree == old(backend.disk.tree)
      ensures !old(backend.disk.IsDirectory(filePath)) && EnsureWhiteListedPath(filePath).Ok? ==>
        calls == [Resolved(JNull)] && backend.disk.tree == DeleteSpec(old(backend.disk.tree), filePath)
    {
      if backend.disk.IsDirectory(filePath) {
        backend.DeleteDirectory(filePath);
        return [Resolved(JNull)];
      }
      var path := EnsureWhiteListedPath(filePath);
      if path.Err? {
        return [Rejected(InvalidPath, path.error)];
      }
      backend.DeleteFile(path.value);
      calls := [Resolved(JNull)];
    }

    /** `writeJson(data, filepath)`: Jackson's text of the map, saved through `save` (so encryption applies). */
    method WriteJson(data: map<string, Value>, filepath: string) returns (calls: seq<Settlement>)
      modifies backend.disk
      ensures EnsureWhiteListedPath(filepath).Err? ==>
        calls == [Rejected(InvalidPath, NotAccessibleMessage(filepath))] && backend.disk.tree == old(backend.disk.tree)
      ensures EnsureWhiteListedPath(filepath).Ok? ==>
        var s := SaveSpec(old(backend.disk.tree), backend.disk.unwritable, backend.encryptionEnabled, backend.codecs,
                          filepath, backend.codecs.printJson(JObject(data)));
        backend.disk.tree == s.tree &&
        calls == [if s.thrown.None? then Resolved(JNull) else Rejected(ErrorCacheFailed, "Failed to write to disk")]
      ensures calls == [Resolved(JNull)] && JsonRoundTrips(backend.codecs) && SealRoundTrips(backend.codecs) &&
              (backend.encryptionEnabled ==> backend.codecs.unseal(backend.codecs.printJson(JObject(data))).None?) ==>
        ReadJson(filepath) == Resolved(JObject(data))
    {
      var path := EnsureWhiteListedPath(filepath);
      if path.Err? {
        return [Rejected(InvalidPath, path.error)];
      }
      var thrown := backend.WriteJson(JObject(data), path.value);
      var text := backend.codecs.printJson(JObject(data));
      if thrown.None? && SealRoundTrips(backend.codecs) && (backend.encryptionEnabled ==> backend.codecs.unseal(text).None?) {
        SaveThenRead(old(backend.disk.tree), backend.disk.unwritable, backend.encryptionEnabled, backend.codecs, filepath, text);
      }
      calls := [if thrown.None? then Resolved(JNull) else Rejected(ErrorCacheFailed, "Failed to write to disk")];
    }

    /** `getConstants()`. */
    function Constants(): (c: map<string, Value>)
      ensures c.Keys == {"DocumentDirectoryPath", "SUPPORTS_DIRECTORY_MOVE", "SUPPORTS_ENCRYPTION"}
      ensures c["DocumentDirectoryPath"] == JString(filesDir)
      ensures c["SUPPORTS_DIRECTORY_MOVE"] == JBool(true) && c["SUPPORTS_ENCRYPTION"] == JBool(true)
    {
      map["DocumentDirectoryPath" := JString(filesDir), "SUPPORTS_DIRECTORY_MOVE" := JBool(true),
          "SUPPORTS_ENCRYPTION" := JBool(true)]
    }
  }
}
