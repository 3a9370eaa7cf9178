/**
 * iOS's file-system bridge (NativeFsModule.swift). Unlike Android it calls
 * FileManager and `Data` directly: `save` creates the intermediate directories and
 * writes atomically, `move` refuses a missing source and creates the target's
 * directory first, `remove` of a missing path does nothing. Every bridge method checks
 * its paths against the documents, caches and temporary directories first and
 * rejects INVALID_PATH otherwise.
 */
module FsIos {
  import opened Wrappers
  import opened Text
  import opened Json
  import opened FileTree
  import opened Platform
  import FsAndroid

  const ErrorSaveFailed: string := "ERROR_SAVE_FAILED"
  const ErrorReadFailed: string := "ERROR_READ_FAILED"
  const ErrorMoveFailed: string := "ERROR_MOVE_FAILED"
  const ErrorSerializationFailed: string := "ERROR_SERIALIZATION_FAILED"
  const InvalidPath: string := "INVALID_PATH"

  /** The code of the error a path outside the whitelist raises. */
  const OutsideWhitelistCode: int := 999
  const DataUrlPrefix: string := "data:application/octet-stream;base64,"

  /**
   * What a static helper throws: an NSError of the module's own domain with a code and
   * a description, or an error Foundation raised (the reason is not modelled).
   */
  datatype Thrown = Raised(code: int, description: string) | CocoaError

  /** The tree after a FileManager call, and whether it threw. */
  datatype Outcome = Outcome(tree: Tree, thrown: Option<Thrown>)

  /** `formatError(message)`: the message prefixed with the class's name. */
  function FormatError(message: string): (r: string)
    ensures StartsWith(r, "NativeFsModule: ") && r[|"NativeFsModule: "|..] == message
  {
    "NativeFsModule: " + message
  }

  const OutsideHead: string := "The path "
  const OutsideTail: string := " does not point to the documents directory"

  /** The description of the error a path outside the whitelist raises: the path, quoted in a fixed sentence. */
  function OutsideMessage(path: string): (r: string)
    ensures |r| == |OutsideHead| + |path| + |OutsideTail|
    ensures r[..|OutsideHead|] == OutsideHead && r[|OutsideHead|..|OutsideHead| + |path|] == path
    ensures r[|OutsideHead| + |path|..] == OutsideTail
  {
    OutsideHead + path + OutsideTail
  }

  /** The data URL `readAsDataURL` builds around the Base64 text of the bytes (section 3 of RFC 2397). */
  function DataUrl(base64: string): (r: string)
    ensures StartsWith(r, DataUrlPrefix) && r[|DataUrlPrefix|..] == base64
  {
    DataUrlPrefix + base64
  }

  /** The payload after the prefix is the Base64 text, so different texts give different URLs. */
  lemma DataUrlInjective(a: string, b: string)
    requires DataUrl(a) == DataUrl(b)
    ensures a == b
  {
    assert a == DataUrl(a)[|DataUrlPrefix|..];
  }

  /** The blob reference `read` resolves with: the store's id, offset 0, and the byte count under "length". */
  function BlobRef(blobId: string, length: int): (v: Value)
    ensures v.JObject? && v.fields.Keys == {"blobId", "offset", "length"}
    ensures v.fields["blobId"] == JString(blobId) && v.fields["offset"] == JNumber(0) && v.fields["length"] == JNumber(length)
  {
    JObject(map["blobId" := JString(blobId), "offset" := JNumber(0), "length" := JNumber(length)])
  }

  /** The two platforms' `read` hand back the size under different keys: "length" here, "size" on Android. */
  lemma BlobRefKeysDifferFromAndroid(blobId: string, size: int)
    ensures "length" in BlobRef(blobId, size).fields && "length" !in FsAndroid.BlobMap(blobId, size).fields
    ensures "size" !in BlobRef(blobId, size).fields && "size" in FsAndroid.BlobMap(blobId, size).fields
  {
  }

  /** Every path below `c`, relative to it: what a deep `FileManager.enumerator(atPath:)` yields. */
  function Descendants(t: Tree, c: Path): (r: set<string>)
    ensures forall n :: n in r ==> c + "/" + n in t
  {
    var r := set k | k in t && StartsWith(k, c + "/") :: k[|c| + 1..];
    DescendantsIn(t, c, r);
    r
  }

  lemma DescendantsIn(t: Tree, c: Path, r: set<string>)
    requires r == set k | k in t && StartsWith(k, c + "/") :: k[|c| + 1..]
    ensures forall n :: n in r ==> c + "/" + n in t
  {
    forall n | n in r ensures c + "/" + n in t {
      var k :| k in t && StartsWith(k, c + "/") && n == k[|c| + 1..];
      assert k == k[..|c| + 1] + k[|c| + 1..];
    }
  }

  /**
   * The listing goes deep: every name Android's `list` gives is among them, and so is
   * a path two levels down, which Android's never gives.
   */
  lemma DescendantsCoverChildren(t: Tree, c: Path, a: string, b: string)
    ensures ChildNames(t, c) <= Descendants(t, c)
    ensures c + "/" + a + "/" + b in t ==> a + "/" + b in Descendants(t, c) && a + "/" + b !in ChildNames(t, c)
  {
    forall n | n in ChildNames(t, c) ensures n in Descendants(t, c) {
      var k := c + "/" + n;
      assert StartsWith(k, c + "/") && k[|c| + 1..] == n;
    }
    var k := c + "/" + a + "/" + b;
    if k in t {
      assert StartsWith(k, c + "/") && k[|c| + 1..] == a + "/" + b;
      assert (a + "/" + b)[|a|] == '/';
    }
  }

  /**
   * `createDirectory(at:withIntermediateDirectories: true)`: every missing directory on
   * the way is created, and it throws when a file stands in the way.
   */
  function CreateDirectorySpec(t: Tree, dir: Path): (r: Outcome)
    ensures r.thrown.None? <==> !Blocked(t, Canon(dir))
    ensures r.thrown.Some? ==> r == Outcome(t, Some(CocoaError))
    ensures forall k :: k in t ==> k in r.tree && r.tree[k] == t[k]
    ensures r.thrown.None? ==> forall a :: a in AncestorsOrSelf(Canon(dir)) ==> a in r.tree && r.tree[a] == Dir
    ensures forall k :: k in r.tree && k !in t ==> r.tree[k] == Dir
  {
    if Blocked(t, Canon(dir)) then Outcome(t, Some(CocoaError)) else Outcome(WithDirs(t, Canon(dir)), None)
  }

  /**
   * The static `save`: the directories up to the file's parent, then an atomic write of
   * the bytes. The write either replaces the file whole or leaves every entry as it
   * was; only the parent directories it created may remain after a failure.
   */
  function SaveFileSpec(t: Tree, unwritable: set<Path>, filepath: Path, data: Bytes): (r: Outcome)
    ensures r.thrown.None? ==> IsFileIn(r.tree, Canon(filepath)) && r.tree[Canon(filepath)] == File(data)
    ensures r.thrown.None? ==>
      forall a :: a in AncestorsOrSelf(Canon(DeletingLastPathComponent(filepath))) ==> a in r.tree && r.tree[a] == Dir
    ensures forall k :: k in t && k != Canon(filepath) ==> k in r.tree && r.tree[k] == t[k]
    ensures r.thrown.Some? ==> r.thrown == Some(CocoaError) && forall k :: k in t ==> k in r.tree && r.tree[k] == t[k]
    ensures forall k :: k in r.tree && k !in t && k != Canon(filepath) ==> r.tree[k] == Dir
  {
    var c := CreateDirectorySpec(t, DeletingLastPathComponent(filepath));
    if c.thrown.Some? then c
    else if CanWrite(c.tree, unwritable, Canon(filepath)) then Outcome(c.tree[Canon(filepath) := File(data)], None)
    else Outcome(c.tree, Some(CocoaError))
  }

  /** `moveItem(atPath:toPath:)`: like `Files.move`, except that it never replaces what stands at the target. */
  predicate CanMoveItem(t: Tree, unwritable: set<Path>, s: Path, d: Path) {
    s in t && d !in t && CanMoveTree(t, unwritable, s, d)
  }

  /**
   * The static `move`: "File does not exist" for a missing source; otherwise the
   * target's directories are created, and stay even when the move itself fails.
   */
  function MoveItemSpec(t: Tree, unwritable: set<Path>, src: Path, dst: Path): (r: Outcome)
  {
    if Canon(src) !in t then Outcome(t, Some(Raised(-1, "File does not exist")))
    else
      var c := CreateDirectorySpec(t, DeletingLastPathComponent(dst));
      if c.thrown.Some? then c
      else if CanMoveItem(c.tree, unwritable, Canon(src), Canon(dst)) then
        Outcome(MovedTree(c.tree, Canon(src), Canon(dst)), None)
      else Outcome(c.tree, Some(CocoaError))
  }

  /** A missing source throws "File does not exist" and changes nothing. */
  lemma MoveItemMissingSource(t: Tree, u: set<Path>, src: Path, dst: Path)
    requires Canon(src) !in t
    ensures MoveItemSpec(t, u, src, dst) == Outcome(t, Some(Raised(-1, "File does not exist")))
  {
  }

  /** A failed move loses nothing: every entry is still there, unchanged. */
  lemma MoveItemFailureKeeps(t: Tree, u: set<Path>, src: Path, dst: Path)
    requires MoveItemSpec(t, u, src, dst).thrown.Some?
    ensures var r := MoveItemSpec(t, u, src, dst); forall k :: k in t ==> k in r.tree && r.tree[k] == t[k]
  {
    var r := MoveItemSpec(t, u, src, dst);
    if Canon(src) in t {
      var c := CreateDirectorySpec(t, DeletingLastPathComponent(dst));
      assert r.tree == c.tree;
    }
  }

  /** Moving out of a tree that grew from `t`: the source goes, and what was under it in `t` is under the target. */
  lemma MovedFromGrownTree(t: Tree, c: Tree, s: Path, d: Path)
    requires forall k :: k in t ==> k in c && c[k] == t[k]
    requires s != d && !Within(s, d)
    ensures s !in MovedTree(c, s, d)
    ensures forall k :: k in t && Within(k, s) ==> d + k[|s|..] in MovedTree(c, s, d) && MovedTree(c, s, d)[d + k[|s|..]] == t[k]
  {
    var r := MovedTree(c, s, d);
    forall k | k in t && Within(k, s) ensures d + k[|s|..] in r && r[d + k[|s|..]] == t[k] {
      assert k in c && c[k] == t[k];
    }
  }

  /**
   * A move that works leaves nothing at the source, everything of it under the target,
   * and replaced nothing there.
   */
  lemma MoveItemMoves(t: Tree, u: set<Path>, src: Path, dst: Path)
    requires MoveItemSpec(t, u, src, dst).thrown.None?
    ensures var r := MoveItemSpec(t, u, src, dst); var s, d := Canon(src), Canon(dst);
      s in t && d !in t && s !in r.tree &&
      forall k :: k in t && Within(k, s) ==> d + k[|s|..] in r.tree && r.tree[d + k[|s|..]] == t[k]
  {
    var s, d := Canon(src), Canon(dst);
    var c := CreateDirectorySpec(t, DeletingLastPathComponent(dst));
    assert s in t && c.thrown.None? && CanMoveItem(c.tree, u, s, d);
    assert MoveItemSpec(t, u, src, dst).tree == MovedTree(c.tree, s, d);
    assert d !in c.tree && s != d;
    MovedFromGrownTree(t, c.tree, s, d);
  }

  /** The static `remove`: nothing for a missing path; otherwise the path and everything below it. */
  function RemoveSpec(t: Tree, filepath: Path): (r: Tree)
    ensures Canon(filepath) !in t ==> r == t
    ensures Canon(filepath) in t ==> forall k :: k in r <==> k in t && !Within(k, Canon(filepath))
    ensures forall k :: k in r ==> k in t && r[k] == t[k]
  {
    if Canon(filepath) in t then WithoutTree(t, Canon(filepath)) else t
  }

  /**
   * The NativeFsModule class: the file system, the search-path results for the
   * documents and caches directories (empty when the lookup finds none), the
   * temporary directory as `standardizingPath` leaves it, the JSON codec, Base64, the
   * blob manager's `store` (none when it is unavailable), and the order a directory
   * enumerator yields paths in.
   */
  class FsModule {
    var encryptionEnabled: bool
    const disk: Disk
    const documentsPath: string
    const cachesPath: string
    const tempPath: string
    const codecs: Codecs
    const base64: Bytes -> string
    const storeBlob: Bytes -> Option<string>
    const order: set<string> -> seq<string>

    constructor (disk: Disk, documentDirectory: Option<string>, cachesDirectory: Option<string>, temporaryDirectory: string,
                 codecs: Codecs, base64: Bytes -> string, storeBlob: Bytes -> Option<string>, order: set<string> -> seq<string>)
      ensures this.disk == disk && documentsPath == documentDirectory.GetOr("") && cachesPath == cachesDirectory.GetOr("")
      ensures tempPath == Canon(temporaryDirectory) && !encryptionEnabled
      ensures this.codecs == codecs && this.base64 == base64 && this.storeBlob == storeBlob && this.order == order
    {
      this.disk := disk;
      documentsPath := documentDirectory.GetOr("");
      cachesPath := cachesDirectory.GetOr("");
      tempPath := Canon(temporaryDirectory);
      this.codecs := codecs;
      this.base64 := base64;
      this.storeBlob := storeBlob;
      this.order := order;
      encryptionEnabled := false;
    }

    /** `setEncryptionEnabled`: only chooses the data-protection class of later writes. */
    method SetEncryptionEnabled(enabled: bool)
      modifies this`encryptionEnabled
      ensures encryptionEnabled == enabled
    {
      encryptionEnabled := enabled;
    }

    predicate IsAccessible(path: string) {
      StartsWith(path, documentsPath) || StartsWith(path, cachesPath) || StartsWith(path, tempPath)
    }

    predicate AllAccessible(paths: seq<string>) {
      forall i :: 0 <= i < |paths| ==> IsAccessible(paths[i])
    }

    /** `ensureWhiteListedPath(paths)`: nothing when every path is accessible; otherwise error 999 naming the first that is not. */
    method EnsureWhiteListedPath(paths: seq<string>) returns (thrown: Option<Thrown>)
      ensures thrown.None? <==> AllAccessible(paths)
      ensures thrown.Some? ==>
        exists i :: 0 <= i < |paths| && !IsAccessible(paths[i]) && (forall j :: 0 <= j < i ==> IsAccessible(paths[j])) &&
          thrown.value == Raised(OutsideWhitelistCode, OutsideMessage(paths[i]))
    {
      for i := 0 to |paths|
        invariant forall j :: 0 <= j < i ==> IsAccessible(paths[j])
      {
        if !IsAccessible(paths[i]) {
          return Some(Raised(OutsideWhitelistCode, OutsideMessage(paths[i])));
        }
      }
      return None;
    }

    /** When the documents directory cannot be found its path is "", which every path starts with. */
    lemma NoDocumentsDirectoryAcceptsAll(paths: seq<string>)
      requires documentsPath == ""
      ensures AllAccessible(paths)
    {
      forall i | 0 <= i < |paths| ensures IsAccessible(paths[i]) {
        assert paths[i][..0] == "";
      }
    }

    lemma AccessibleOne(path: string)
      ensures AllAccessible([path]) <==> IsAccessible(path)
    {
      assert [path][0] == path;
    }

    /** The guard every bridge method starts with: the rejection it makes for a path outside the whitelist. */
    method IsWhiteListedPath(paths: seq<string>) returns (rejection: Option<Settlement>)
      ensures rejection.None? <==> AllAccessible(paths)
      ensures rejection.Some? ==> rejection.value == Rejected(InvalidPath, FormatError("Path not accessible"))
    {
      var thrown := EnsureWhiteListedPath(paths);
      rejection := if thrown.None? then None else Some(Rejected(InvalidPath, FormatError("Path not accessible")));
    }

    /** The static `readData`: the bytes of an existing file; none for a missing path, and none for a directory (reading it throws). */
    function ReadData(filePath: string): (r: Option<Bytes>)
      reads disk
      ensures r.Some? <==> IsFileIn(disk.tree, Canon(filePath))
      ensures r.Some? ==> r.value == disk.tree[Canon(filePath)].data
    {
      if !disk.Exists(filePath) then None else disk.Contents(filePath)
    }

    /**
     * The static `readJson`: none for a missing file, and for a top level that is an
     * array; the dictionary for an object; an error for text that is not JSON or whose
     * top level is a bare value (fragments are not allowed).
     */
    function ReadJsonObject(filePath: string): (r: Result<Option<map<string, Value>>, Thrown>)
      reads disk
      ensures ReadData(filePath).None? ==> r == Ok(None)
      ensures ReadData(filePath).Some? ==>
        var parsed := codecs.parseJson(ReadData(filePath).value);
        (r.Ok? <==> parsed.Some? && (parsed.value.JObject? || parsed.value.JArray?)) &&
        (r.Ok? ==> r.value == if parsed.value.JObject? then Some(parsed.value.fields) else None)
    {
      match ReadData(filePath)
      case None => Ok(None)
      case Some(data) =>
        match codecs.parseJson(data)
        case Some(JObject(fields)) => Ok(Some(fields))
        case Some(JArray(_)) => Ok(None)
        case _ => Err(CocoaError)
    }

    /** The static `list`: the enumerator's paths below the directory, at every depth. */
    function ListTree(dirPath: string): (r: seq<string>)
      reads disk
      ensures Enumerates(order) ==>
        (forall i :: 0 <= i < |r| ==> Canon(dirPath) + "/" + r[i] in disk.tree) &&
        (forall k :: k in disk.tree && StartsWith(k, Canon(dirPath) + "/") ==> k[|Canon(dirPath)| + 1..] in r)
    {
      order(Descendants(disk.tree, Canon(dirPath)))
    }

    method CreateDirectory(dir: Path) returns (thrown: Option<Thrown>)
      modifies disk
      ensures Outcome(disk.tree, thrown) == CreateDirectorySpec(old(disk.tree), dir)
    {
      if Blocked(disk.tree, Canon(dir)) {
        return Some(CocoaError);
      }
      var _ := disk.Mkdirs(dir);
      thrown := None;
    }

    /** The static `save`; the protection option that encryption adds does not change what is stored. */
    method SaveFile(data: Bytes, filepath: string) returns (thrown: Option<Thrown>)
      modifies disk
      ensures Outcome(disk.tree, thrown) == SaveFileSpec(old(disk.tree), disk.unwritable, filepath, data)
    {
      thrown := CreateDirectory(DeletingLastPathComponent(filepath));
      if thrown.Some? {
        return;
      }
      var ok := disk.Write(filepath, data);
      if !ok {
        thrown := Some(CocoaError);
      }
    }

    /** The static `move`. */
    method MoveItem(filepath: string, newPath: string) returns (thrown: Option<Thrown>)
      modifies disk
      ensures Outcome(disk.tree, thrown) == MoveItemSpec(old(disk.tree), disk.unwritable, filepath, newPath)
    {
      if !disk.Exists(filepath) {
        return Some(Raised(-1, "File does not exist"));
      }
      thrown := CreateDirectory(DeletingLastPathComponent(newPath));
      if thrown.Some? {
        return;
      }
      if disk.Exists(newPath) {
        return Some(CocoaError);
      }
      var ok := disk.MoveTree(filepath, newPath);
      thrown := if ok then None else Some(CocoaError);
    }

    /** The static `remove`. */
    method RemoveItem(filepath: string)
      modifies disk
      ensures disk.tree == RemoveSpec(old(disk.tree), filepath)
    {
      if !disk.Exists(filepath) {
        return;
      }
      var _ := disk.RemoveTree(filepath);
    }

    /**
     * `save(blob, filepath)`: the whitelist first, then the blob; when it resolves, the
     * static `save`, and the promise resolves only when that did not throw, after which
     * the file holds the blob's bytes.
     */
    method Save(blob: Option<Bytes>, filepath: string) returns (s: Settlement)
      modifies disk
      ensures !IsAccessible(filepath) ==>
        s == Rejected(InvalidPath, FormatError("Path not accessible")) && disk.tree == old(disk.tree)
      ensures IsAccessible(filepath) && blob.None? ==>
        s == Rejected(ErrorReadFailed, FormatError("Failed to read blob")) && disk.tree == old(disk.tree)
      ensures IsAccessible(filepath) && blob.Some? ==>
        var o := SaveFileSpec(old(disk.tree), disk.unwritable, filepath, blob.value);
        disk.tree == o.tree &&
        s == if o.thrown.None? then Resolved(JNull) else Rejected(ErrorSaveFailed, FormatError("Save failed"))
      ensures s == Resolved(JNull) ==> blob.Some? && ReadData(filepath) == Some(blob.value)
    {
      AccessibleOne(filepath);
      var rejection := IsWhiteListedPath([filepath]);
      if rejection.Some? {
        return rejection.value;
      }
      if blob.None? {
        return Rejected(ErrorReadFailed, FormatError("Failed to read blob"));
      }
      var thrown := SaveFile(blob.value, filepath);
      s := if thrown.None? then Resolved(JNull) else Rejected(ErrorSaveFailed, FormatError("Save failed"));
    }

    /** `read(filepath)`: null for a missing file; the blob reference of the stored bytes, unless storing them fails. */
    method Read(filepath: string) returns (s: Settlement)
      ensures !IsAccessible(filepath) ==> s == Rejected(InvalidPath, FormatError("Path not accessible"))
      ensures IsAccessible(filepath) ==>
        (s == Resolved(JNull) <==> !IsFileIn(disk.tree, Canon(filepath)))
      ensures IsAccessible(filepath) && IsFileIn(disk.tree, Canon(filepath)) ==>
        var data := disk.tree[Canon(filepath)].data;
        s == if storeBlob(data).Some? then Resolved(BlobRef(storeBlob(data).value, |data|))
             else Rejected(ErrorReadFailed, FormatError("Failed to create blob"))
    {
      AccessibleOne(filepath);
      var rejection := IsWhiteListedPath([filepath]);
      if rejection.Some? {
        return rejection.value;
      }
      var data := ReadData(filepath);
      if data.None? {
        return Resolved(JNull);
      }
      var blobId := storeBlob(data.value);
      if blobId.None? {
        return Rejected(ErrorReadFailed, FormatError("Failed to create blob"));
      }
      s := Resolved(BlobRef(blobId.value, |data.value|));
    }

    /** `move(filepath, newPath)`: both paths whitelisted, then the static `move`. */
    method Move(filepath: string, newPath: string) returns (s: Settlement)
      modifies disk
      ensures !(IsAccessible(filepath) && IsAccessible(newPath)) ==>
        s == Rejected(InvalidPath, FormatError("Path not accessible")) && disk.tree == old(disk.tree)
      ensures IsAccessible(filepath) && IsAccessible(newPath) ==>
        var o := MoveItemSpec(old(disk.tree), disk.unwritable, filepath, newPath);
        disk.tree == o.tree &&
        s == if o.thrown.None? then Resolved(JNull) else Rejected(ErrorMoveFailed, FormatError("Failed to move file"))
    {
      var rejection := IsWhiteListedPath([filepath, newPath]);
      if rejection.Some? {
        assert !(AllAccessible([filepath, newPath]));
        return rejection.value;
      }
      assert [filepath, newPath][0] == filepath && [filepath, newPath][1] == newPath;
      var thrown := MoveItem(filepath, newPath);
      s := if thrown.None? then Resolved(JNull) else Rejected(ErrorMoveFailed, FormatError("Failed to move file"));
    }

    /** `remove(filepath)`: resolves null whenever the path is accessible, whether or not anything was there. */
    method Remove(filepath: string) returns (s: Settlement)
      modifies disk
      ensures !IsAccessible(filepath) ==>
        s == Rejected(InvalidPath, FormatError("Path not accessible")) && disk.tree == old(disk.tree)
      ensures IsAccessible(filepath) ==> s == Resolved(JNull) && disk.tree == RemoveSpec(old(disk.tree), filepath)
    {
      AccessibleOne(filepath);
      var rejection := IsWhiteListedPath([filepath]);
      if rejection.Some? {
        return rejection.value;
      }
      RemoveItem(filepath);
      s := Resolved(JNull);
    }

    /** `list(dirPath)`: the paths below the directory, as strings. */
    method List(dirPath: string) returns (s: Settlement)
      ensures !IsAccessible(dirPath) ==> s == Rejected(InvalidPath, FormatError("Path not accessible"))
      ensures IsAccessible(dirPath) ==>
        s.Resolved? && s.value.JArray? && |s.value.items| == |ListTree(dirPath)| &&
        (forall i :: 0 <= i < |s.value.items| ==> s.value.items[i] == JString(ListTree(dirPath)[i]))
    {
      AccessibleOne(dirPath);
      var rejection := IsWhiteListedPath([dirPath]);
      if rejection.Some? {
        return rejection.value;
      }
      s := Resolved(JArray(Strings(ListTree(dirPath))));
    }

    /** `readAsDataURL(filePath)`: null for a missing file; the data URL of its bytes otherwise. */
    method ReadAsDataUrl(filePath: string) returns (s: Settlement)
      ensures !IsAccessible(filePath) ==> s == Rejected(InvalidPath, FormatError("Path not accessible"))
      ensures IsAccessible(filePath) && !IsFileIn(disk.tree, Canon(filePath)) ==> s == Resolved(JNull)
      ensures IsAccessible(filePath) && IsFileIn(disk.tree, Canon(filePath)) ==>
        s.Resolved? && s.value.JString? && StartsWith(s.value.str, DataUrlPrefix) &&
        s.value.str[|DataUrlPrefix|..] == base64(disk.tree[Canon(filePath)].data)
    {
      AccessibleOne(filePath);
      var rejection := IsWhiteListedPath([filePath]);
      if rejection.Some? {
        return rejection.value;
      }
      var data := ReadData(filePath);
      if data.None? {
        return Resolved(JNull);
      }
      s := Resolved(JString(DataUrl(base64(data.value))));
    }

    /** `fileExists(filepath)`: true for a file or a directory. */
    method FileExists(filepath: string) returns (s: Settlement)
      ensures !IsAccessible(filepath) ==> s == Rejected(InvalidPath, FormatError("Path not accessible"))
      ensures IsAccessible(filepath) ==> s == Resolved(JBool(Canon(filepath) in disk.tree))
    {
      AccessibleOne(filepath);
      var rejection := IsWhiteListedPath([filepath]);
      if rejection.Some? {
        return rejection.value;
      }
      s := Resolved(JBool(disk.Exists(filepath)));
    }

    /** `readJson(filepath)`: the dictionary, or null (a missing file, a top-level array); ERROR_SERIALIZATION_FAILED otherwise. */
    method ReadJson(filepath: string) returns (s: Settlement)
      ensures !IsAccessible(filepath) ==> s == Rejected(InvalidPath, FormatError("Path not accessible"))
      ensures IsAccessible(filepath) && !IsFileIn(disk.tree, Canon(filepath)) ==> s == Resolved(JNull)
      ensures IsAccessible(filepath) && ReadJsonObject(filepath).Err? ==>
        s == Rejected(ErrorSerializationFailed, FormatError("Failed to deserialize JSON"))
      ensures IsAccessible(filepath) && ReadJsonObject(filepath).Ok? ==>
        s == if ReadJsonObject(filepath).value.Some? then Resolved(JObject(ReadJsonObject(filepath).value.value)) else Resolved(JNull)
    {
      AccessibleOne(filepath);
      var rejection := IsWhiteListedPath([filepath]);
      if rejection.Some? {
        return rejection.value;
      }
      match ReadJsonObject(filepath)
      case Err(_) => s := Rejected(ErrorSerializationFailed, FormatError("Failed to deserialize JSON"));
      case Ok(None) => s := Resolved(JNull);
      case Ok(Some(fields)) => s := Resolved(JObject(fields));
    }

    /**
     * `writeJson(data, filepath)`: JSONSerialization's text of the dictionary through the
     * static `save`; reading it back gives the dictionary when printed JSON parses back.
     */
    method WriteJson(data: map<string, Value>, filepath: string) returns (s: Settlement)
      modifies disk
      ensures !IsAccessible(filepath) ==>
        s == Rejected(InvalidPath, FormatError("Path not accessible")) && disk.tree == old(disk.tree)
      ensures IsAccessible(filepath) ==>
        var o := SaveFileSpec(old(disk.tree), disk.unwritable, filepath, codecs.printJson(JObject(data)));
        disk.tree == o.tree &&
        s == if o.thrown.None? then Resolved(JNull) else Rejected(ErrorSaveFailed, FormatError("Failed to write JSON"))
      ensures s == Resolved(JNull) && JsonRoundTrips(codecs) ==> ReadJsonObject(filepath) == Ok(Some(data))
    {
      AccessibleOne(filepath);
      var rejection := IsWhiteListedPath([filepath]);
      if rejection.Some? {
        return rejection.value;
      }
      var thrown := SaveFile(codecs.printJson(JObject(data)), filepath);
      s := if thrown.None? then Resolved(JNull) else Rejected(ErrorSaveFailed, FormatError("Failed to write JSON"));
    }

    /** `constants`. */
    function Constants(): (c: map<string, Value>)
      ensures c.Keys == {"DocumentDirectoryPath", "SUPPORTS_DIRECTORY_MOVE", "SUPPORTS_ENCRYPTION"}
      ensures c["DocumentDirectoryPath"] == JString(documentsPath)
      ensures c["SUPPORTS_DIRECTORY_MOVE"] == JBool(true) && c["SUPPORTS_ENCRYPTION"] == JBool(true)
    {
      map["DocumentDirectoryPath" := JString(documentsPath), "SUPPORTS_DIRECTORY_MOVE" := JBool(true),
          "SUPPORTS_ENCRYPTION" := JBool(true)]
    }
  }
}
