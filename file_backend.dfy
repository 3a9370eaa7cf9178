/**
 * Android's FileBackend (FileBackend.kt): the file operations behind the file-system
 * bridge and the OTA deploy, with optional EncryptedFile storage.
 *
 * Each operation is specified by a function on the file tree (`…Spec`), composed from
 * the java.io.File primitives exactly in the order the Kotlin code calls them; the
 * `Backend` methods perform those primitives on a `Disk` and are proved to end in the
 * state and outcome the function describes. The lemmas below state what the
 * composition amounts to.
 */
module FileBackend {
  import opened Wrappers
  import opened Text
  import opened FileTree
  import opened Platform

  /** The exception an operation ends with: FileNotFoundException, or another IOException. */
  datatype Fault = FileNotFound | IoFailure

  /** A tree together with the exception that ended the operation, if any. */
  datatype Step = Step(tree: Tree, thrown: Option<Fault>)

  const GuidMarker: string := "GUID"
  const TempSuffix: string := "temp"

  /** API level 26, Build.VERSION_CODES.O. */
  const VersionCodeO: int := 26

  // The primitives, as functions of the tree.

  /** `File(p).parentFile?.mkdirs()`. */
  function MkParent(t: Tree, p: Path): (r: Tree)
    ensures forall k :: k in t ==> k in r && r[k] == t[k]
    ensures forall k :: k in r && k !in t ==> r[k] == Dir
  {
    match ParentOf(Canon(p))
    case None => t
    case Some(q) => WithDirs(t, Canon(q))
  }

  /** `File(p).delete()`, with its result ignored. */
  function DeleteSpec(t: Tree, p: Path): (r: Tree)
    ensures forall k :: k != Canon(p) ==> (k in r <==> k in t) && (k in r ==> r[k] == t[k])
    ensures Canon(p) in r <==> Canon(p) in t && t[Canon(p)].Dir? && !NoChildren(t, Canon(p))
    ensures Canon(p) in r ==> r[Canon(p)] == Dir
  {
    var c := Canon(p);
    if c in t && (t[c].File? || NoChildren(t, c)) then t - {c} else t
  }

  /** A `FileOutputStream` at `p` writing `data`; none where opening it throws FileNotFoundException. */
  function WriteSpec(t: Tree, unwritable: set<Path>, p: Path, data: Bytes): (r: Option<Tree>)
    ensures r.Some? <==> CanWrite(t, unwritable, Canon(p))
    ensures r.Some? ==> r.value == t[Canon(p) := File(data)]
  {
    if CanWrite(t, unwritable, Canon(p)) then Some(t[Canon(p) := File(data)]) else None
  }

  /** `getUnencryptedFileOutputStream(data, p)`: create the parent directories, then write. */
  function PlainWriteSpec(t: Tree, unwritable: set<Path>, p: Path, data: Bytes): (s: Step)
    ensures s.thrown.None? ==> s.tree == MkParent(t, p)[Canon(p) := File(data)]
    ensures s.thrown.Some? ==> s.thrown == Some(FileNotFound) && s.tree == MkParent(t, p)
  {
    var t1 := MkParent(t, p);
    match WriteSpec(t1, unwritable, p, data)
    case None => Step(t1, Some(FileNotFound))
    case Some(t2) => Step(t2, None)
  }

  /** `readAsUnencryptedFile`: the bytes of a file; FileNotFoundException for anything else. */
  function PlainReadSpec(t: Tree, p: Path): (r: Result<Bytes, Fault>)
    ensures r.Ok? <==> IsFileIn(t, Canon(p))
    ensures r.Ok? ==> r.value == t[Canon(p)].data
    ensures r.Err? ==> r.error == FileNotFound
  {
    if IsFileIn(t, Canon(p)) then Ok(t[Canon(p)].data) else Err(FileNotFound)
  }

  /**
   * `read`: with encryption on, the decrypted contents when the file decrypts; any
   * IOException on that path (a missing file, bytes that do not decrypt) falls back to
   * the plain read.
   */
  function ReadSpec(t: Tree, encrypted: bool, c: Codecs, p: Path): (r: Result<Bytes, Fault>)
    ensures !encrypted ==> r == PlainReadSpec(t, p)
    ensures encrypted && IsFileIn(t, Canon(p)) && c.unseal(t[Canon(p)].data).Some? ==>
      r == Ok(c.unseal(t[Canon(p)].data).value)
    ensures r.Err? <==> !IsFileIn(t, Canon(p))
  {
    if encrypted && IsFileIn(t, Canon(p)) && c.unseal(t[Canon(p)].data).Some? then
      Ok(c.unseal(t[Canon(p)].data).value)
    else PlainReadSpec(t, p)
  }

  /** `moveFileByRename`: a file source, the target's parent created, then `renameTo`. */
  function RenameSpec(t: Tree, unwritable: set<Path>, src: Path, dst: Path): (r: (bool, Tree))
    ensures !IsFileIn(t, Canon(src)) ==> r == (false, t)
  {
    if !IsFileIn(t, Canon(src)) then (false, t)
    else
      var t1 := MkParent(t, dst);
      var s, d := Canon(src), Canon(dst);
      if IsFileIn(t1, s) && (s == d || CanWrite(t1, unwritable, d)) then (true, (t1 - {s})[d := t1[s]])
      else (false, t1)
  }

  /**
   * `moveFile(src, dst)`: a rename when encryption is off and the rename works;
   * otherwise `read(src)`, the target's parent created, a plain write of what was read,
   * and `src` deleted.
   */
  function MoveFileSpec(t: Tree, unwritable: set<Path>, encrypted: bool, c: Codecs, src: Path, dst: Path): (s: Step)
  {
    var (renamed, t1) := if encrypted then (false, t) else RenameSpec(t, unwritable, src, dst);
    if renamed then Step(t1, None)
    else
      match ReadSpec(t1, encrypted, c, src)
      case Err(f) => Step(t1, Some(f))
      case Ok(data) =>
        var w := PlainWriteSpec(t1, unwritable, dst, data);
        if w.thrown.Some? then w else Step(DeleteSpec(w.tree, src), None)
  }

  /** `isOfflineFile`: paths naming "GUID" are never encrypted. */
  predicate IsOfflineFile(p: Path) {
    Contains(p, GuidMarker)
  }

  /**
   * `save(data, p)`. With encryption on and an ordinary path: the target (or, when `p`
   * exists, `p + "temp"`) is deleted if present, its parent created, and a fresh
   * EncryptedFile written (an IOException when something is still in the way); an
   * existing `p` is then replaced by `moveFile(temp, p)`. Otherwise a plain write.
   */
  function SaveSpec(t: Tree, unwritable: set<Path>, encrypted: bool, c: Codecs, p: Path, data: Bytes): (s: Step)
    ensures !encrypted || IsOfflineFile(p) ==> s == PlainWriteSpec(t, unwritable, p, data)
  {
    if encrypted && !IsOfflineFile(p) then
      var isOverride := Canon(p) in t;
      var out := if isOverride then p + TempSuffix else p;
      var t1 := if Canon(out) in t then DeleteSpec(t, out) else t;
      var t2 := MkParent(t1, out);
      if Canon(out) in t2 then Step(t2, Some(IoFailure))
      else
        match WriteSpec(t2, unwritable, out, c.seal(data))
        case None => Step(t2, Some(FileNotFound))
        case Some(t3) => if isOverride then MoveFileSpec(t3, unwritable, true, c, out, p) else Step(t3, None)
    else PlainWriteSpec(t, unwritable, p, data)
  }

  /** `collectFilesInDirectory`: the results of `plus` are discarded, so only the directory itself. */
  function CollectFilesInDirectory(t: Tree, dir: Path): (files: Option<seq<Path>>)
    ensures files.Some? <==> Canon(dir) in t && t[Canon(dir)] == Dir
    ensures files.Some? ==> files.value == [dir]
  {
    if Canon(dir) in t && t[Canon(dir)] == Dir then Some([dir]) else None
  }

  /** `deleteDirectory`: a non-directory is left alone; a directory is deleted only when it is empty. */
  function DeleteDirectorySpec(t: Tree, dir: Path): (r: Tree)
  {
    match CollectFilesInDirectory(t, dir)
    case None => t
    case Some(files) => DeleteSpec(t, files[0])
  }

  /** What the unzip loop does for one entry: the parent of `directory/name` is created, and a file entry is written there. */
  function EntrySpec(t: Tree, unwritable: set<Path>, dir: Path, e: ZipEntry): (s: Step)
    ensures e.isDirectory ==> s == Step(MkParent(t, dir + "/" + e.name), None)
    ensures !e.isDirectory ==> s == PlainWriteSpec(t, unwritable, dir + "/" + e.name, e.data)
  {
    if e.isDirectory then Step(MkParent(t, dir + "/" + e.name), None)
    else PlainWriteSpec(t, unwritable, dir + "/" + e.name, e.data)
  }

  /** The entries handled in order until the first one that throws. */
  function ExtractSpec(t: Tree, unwritable: set<Path>, dir: Path, entries: seq<ZipEntry>): (s: Step)
    decreases |entries|
  {
    if |entries| == 0 then Step(t, None)
    else
      var s := ExtractSpec(t, unwritable, dir, entries[..|entries| - 1]);
      if s.thrown.Some? then s else EntrySpec(s.tree, unwritable, dir, entries[|entries| - 1])
  }

  /** `unzip(zip, directory)`: the archive is opened from the plain bytes at `zip` (an IOException when that fails), then extracted. */
  function UnzipSpec(t: Tree, unwritable: set<Path>, c: Codecs, zip: Path, dir: Path): (s: Step)
    ensures !IsFileIn(t, Canon(zip)) ==> s == Step(t, Some(IoFailure))
    ensures IsFileIn(t, Canon(zip)) && c.zipEntries(t[Canon(zip)].data).None? ==> s == Step(t, Some(IoFailure))
    ensures IsFileIn(t, Canon(zip)) && c.zipEntries(t[Canon(zip)].data).Some? ==>
      s == ExtractSpec(t, unwritable, dir, c.zipEntries(t[Canon(zip)].data).value)
  {
    if !IsFileIn(t, Canon(zip)) then Step(t, Some(IoFailure))
    else match c.zipEntries(t[Canon(zip)].data)
      case None => Step(t, Some(IoFailure))
      case Some(entries) => ExtractSpec(t, unwritable, dir, entries)
  }

  /**
   * `moveDirectory(src, dst)`. From API 26: the target's parent is created and
   * `Files.move` decides. Before it: false for a non-directory, and otherwise
   * `deleteDirectory(src)` after a loop that, given what `collectFilesInDirectory`
   * returns, moves nothing; true.
   */
  function MoveDirectorySpec(t: Tree, unwritable: set<Path>, sdkInt: int, src: Path, dst: Path): (r: (bool, Tree))
  {
    if sdkInt >= VersionCodeO then
      var t1 := MkParent(t, dst);
      if CanMoveTree(t1, unwritable, Canon(src), Canon(dst)) then (true, MovedTree(t1, Canon(src), Canon(dst)))
      else (false, t1)
    else if !(Canon(src) in t && t[Canon(src)] == Dir) then (false, t)
    else (true, DeleteDirectorySpec(t, src))
  }

  /** `list(dir)`: the names inside a directory, and nothing for anything else. */
  function ListSpec(t: Tree, dir: Path): (names: set<string>)
    ensures Canon(dir) in t && t[Canon(dir)] == Dir ==> names == ChildNames(t, Canon(dir))
    ensures !(Canon(dir) in t && t[Canon(dir)] == Dir) ==> names == {}
  {
    if Canon(dir) in t && t[Canon(dir)] == Dir then ChildNames(t, Canon(dir)) else {}
  }

  // The events a backend operation may record.

  /** None of the events removes a tree. */
  ghost predicate NoTreeRemoval(events: seq<Event>) {
    forall i :: 0 <= i < |events| ==> !events[i].RemovedTree?
  }

  /** `now` is `before` followed by events none of which removes a tree. */
  ghost predicate GrowsWithoutRemoval(before: seq<Event>, now: seq<Event>) {
    |before| <= |now| && now[..|before|] == before && NoTreeRemoval(now[|before|..])
  }

  lemma GrowsTransitive(a: seq<Event>, b: seq<Event>, c: seq<Event>)
    requires GrowsWithoutRemoval(a, b) && GrowsWithoutRemoval(b, c)
    ensures GrowsWithoutRemoval(a, c)
  {
    assert c[..|a|] == c[..|b|][..|a|];
    forall i | 0 <= i < |c| - |a| ensures !c[|a|..][i].RemovedTree? {
      if i < |b| - |a| {
        assert c[|a|..][i] == b[|a|..][i];
      } else {
        assert c[|a|..][i] == c[|b|..][i - (|b| - |a|)];
      }
    }
  }

  lemma GrowsByOne(a: seq<Event>, e: Event)
    requires !e.RemovedTree?
    ensures GrowsWithoutRemoval(a, a + [e])
  {
    assert (a + [e])[|a|..] == [e];
  }

  /** An operation that may append one event which removes no tree grows the log without removal. */
  lemma GrowsByOptional(a: seq<Event>, now: seq<Event>, e: Event)
    requires !e.RemovedTree? && (now == a || now == a + [e])
    ensures GrowsWithoutRemoval(a, now)
  {
    if now == a {
      assert now[..|a|] == a;
    } else {
      GrowsByOne(a, e);
    }
  }

  /** An event appended to a log that grew without removal: everything before it is still removal-free. */
  lemma GrowsThenAppend(before: seq<Event>, mid: seq<Event>, e: Event)
    requires GrowsWithoutRemoval(before, mid) && !e.RemovedTree?
    ensures var log := mid + [e];
      GrowsWithoutRemoval(before, log) && log[|mid|] == e && NoTreeRemoval(log[|before|..|mid|])
  {
    var log := mid + [e];
    GrowsByOne(mid, e);
    GrowsTransitive(before, mid, log);
    assert log[|before|..|mid|] == mid[|before|..];
  }

  /** A log extending `written`, whose last event is at `at`, keeps what `written` says up to `at`. */
  lemma ExtendsWritten(before: seq<Event>, written: seq<Event>, log: seq<Event>, at: nat)
    requires GrowsWithoutRemoval(before, written) && at == |written| - 1 && |before| <= at
    requires |written| <= |log| && log[..|written|] == written
    ensures log[..|before|] == before && log[at] == written[at] && NoTreeRemoval(log[|before|..at])
  {
    assert log[..|before|] == log[..|written|][..|before|];
    assert log[|before|..at] == written[|before|..][..at - |before|];
  }

  /** A prefix of a prefix. */
  lemma PrefixOfPrefix(before: seq<Event>, mid: seq<Event>, log: seq<Event>)
    requires |before| <= |mid| <= |log| && mid[..|before|] == before && log[..|mid|] == mid
    ensures log[..|before|] == before
  {
    assert log[..|before|] == log[..|mid|][..|before|];
  }

  /** A log that extends `mid` without removals up to `at` extends `before` so too, when `mid` extends `before` without removals. */
  lemma PrefixedBy(before: seq<Event>, mid: seq<Event>, log: seq<Event>, at: nat)
    requires GrowsWithoutRemoval(before, mid) && |mid| <= at <= |log| && log[..|mid|] == mid
    requires NoTreeRemoval(log[|mid|..at])
    ensures |before| <= |log| && log[..|before|] == before && NoTreeRemoval(log[|before|..at])
  {
    assert log[..|before|] == log[..|mid|][..|before|];
    forall i | 0 <= i < at - |before| ensures !log[|before|..at][i].RemovedTree? {
      if i < |mid| - |before| {
        assert log[|before|..at][i] == mid[|before|..][i];
      } else {
        assert log[|before|..at][i] == log[|mid|..at][i - (|mid| - |before|)];
      }
    }
  }

  /**
   * The FileBackend object: its `encryptionEnabled` flag, the disk it works on, and the
   * EncryptedFile and zip capabilities it calls.
   */
  class Backend {
    var encryptionEnabled: bool
    const disk: Disk
    const codecs: Codecs

    constructor (disk: Disk, codecs: Codecs)
      ensures this.disk == disk && this.codecs == codecs && !encryptionEnabled
    {
      this.disk := disk;
      this.codecs := codecs;
      encryptionEnabled := false;
    }

    method SetEncryptionEnabled(enabled: bool)
      modifies this`encryptionEnabled
      ensures encryptionEnabled == enabled
    {
      encryptionEnabled := enabled;
    }

    /** `read(p)`. */
    function Read(p: Path): (r: Result<Bytes, Fault>)
      reads this, disk
      ensures r == ReadSpec(disk.tree, encryptionEnabled, codecs, p)
    {
      ReadSpec(disk.tree, encryptionEnabled, codecs, p)
    }

    /** `list(dir)`. */
    function List(dir: Path): (names: set<string>)
      reads this, disk
      ensures names == ListSpec(disk.tree, dir)
    {
      ListSpec(disk.tree, dir)
    }

    method MakeParent(p: Path)
      modifies disk
      ensures disk.tree == MkParent(old(disk.tree), p)
      ensures GrowsWithoutRemoval(old(disk.log), disk.log)
    {
      match ParentOf(Canon(p))
      case None =>
      case Some(q) => {
        var _ := disk.Mkdirs(q);
        assert disk.log[..|old(disk.log)|] == old(disk.log);
        if disk.log != old(disk.log) {
          GrowsByOne(old(disk.log), MadeDirs(Canon(q)));
        }
      }
    }

    method PlainWrite(p: Path, data: Bytes) returns (thrown: Option<Fault>)
      modifies disk
      ensures Step(disk.tree, thrown) == PlainWriteSpec(old(disk.tree), disk.unwritable, p, data)
      ensures GrowsWithoutRemoval(old(disk.log), disk.log)
      ensures thrown.None? ==> |disk.log| > |old(disk.log)| && disk.log[|disk.log| - 1] == Wrote(Canon(p), data)
    {
      MakeParent(p);
      ghost var mid := disk.log;
      var ok := disk.Write(p, data);
      thrown := if ok then None else Some(FileNotFound);
      if ok {
        GrowsByOne(mid, Wrote(Canon(p), data));
        GrowsTransitive(old(disk.log), mid, disk.log);
      }
    }

    method DeleteIgnoringResult(p: Path)
      modifies disk
      ensures disk.tree == DeleteSpec(old(disk.tree), p)
      ensures GrowsWithoutRemoval(old(disk.log), disk.log)
    {
      var ok := disk.Delete(p);
      if ok {
        GrowsByOne(old(disk.log), Deleted(Canon(p)));
      } else {
        assert disk.log[..|old(disk.log)|] == old(disk.log);
      }
    }

    /** `moveFile(src, dst)`. */
    method MoveFile(src: Path, dst: Path) returns (thrown: Option<Fault>)
      modifies disk
      ensures Step(disk.tree, thrown) == MoveFileSpec(old(disk.tree), disk.unwritable, encryptionEnabled, codecs, src, dst)
      ensures GrowsWithoutRemoval(old(disk.log), disk.log)
    {
      var renamed := false;
      if !encryptionEnabled && disk.IsFile(src) {
        MakeParent(dst);
        ghost var mid := disk.log;
        renamed := disk.RenameFile(src, dst);
        if renamed {
          GrowsByOne(mid, Moved(Canon(src), Canon(dst)));
          GrowsTransitive(old(disk.log), mid, disk.log);
        }
      } else {
        assert disk.log[..|old(disk.log)|] == old(disk.log);
      }
      if renamed {
        thrown := None;
        return;
      }
      ghost var afterRename := disk.log;
      match Read(src)
      case Err(f) => {
        thrown := Some(f);
      }
      case Ok(data) => {
        thrown := PlainWrite(dst, data);
        GrowsTransitive(old(disk.log), afterRename, disk.log);
        if thrown.None? {
          ghost var mid := disk.log;
          DeleteIgnoringResult(src);
          GrowsTransitive(old(disk.log), mid, disk.log);
        }
      }
    }

    /** `save(data, p)`. */
    method Save(data: Bytes, p: Path) returns (thrown: Option<Fault>)
      modifies disk
      ensures Step(disk.tree, thrown) == SaveSpec(old(disk.tree), disk.unwritable, encryptionEnabled, codecs, p, data)
      ensures GrowsWithoutRemoval(old(disk.log), disk.log)
    {
      if encryptionEnabled && !IsOfflineFile(p) {
        var isOverride := disk.Exists(p);
        var out := if isOverride then p + TempSuffix else p;
        if disk.Exists(out) {
          DeleteIgnoringResult(out);
        } else {
          assert disk.log[..|old(disk.log)|] == old(disk.log);
        }
        ghost var l1 := disk.log;
        MakeParent(out);
        GrowsTransitive(old(disk.log), l1, disk.log);
        if disk.Exists(out) {
          thrown := Some(IoFailure);
          return;
        }
        ghost var l2 := disk.log;
        var ok := disk.Write(out, codecs.seal(data));
        if !ok {
          thrown := Some(FileNotFound);
          return;
        }
        GrowsByOne(l2, Wrote(Canon(out), codecs.seal(data)));
        GrowsTransitive(old(disk.log), l2, disk.log);
        if isOverride {
          ghost var l3 := disk.log;
          thrown := MoveFile(out, p);
          GrowsTransitive(old(disk.log), l3, disk.log);
        } else {
          thrown := None;
        }
      } else {
        thrown := PlainWrite(p, data);
      }
    }

    /** `deleteFile(p)`. */
    method DeleteFile(p: Path)
      modifies disk
      ensures disk.tree == DeleteSpec(old(disk.tree), p)
      ensures GrowsWithoutRemoval(old(disk.log), disk.log)
    {
      DeleteIgnoringResult(p);
    }

    /** `deleteDirectory(dir)`. */
    method DeleteDirectory(dir: Path)
      modifies disk
      ensures disk.tree == DeleteDirectorySpec(old(disk.tree), dir)
      ensures GrowsWithoutRemoval(old(disk.log), disk.log)
    {
      if !disk.IsDirectory(dir) {
        assert disk.log[..|old(disk.log)|] == old(disk.log);
        return;
      }
      var files := CollectFilesInDirectory(disk.tree, dir).value;
      var i := |files|;
      while i > 0
        invariant 0 <= i <= |files|
        invariant disk.tree == if i == 0 then DeleteSpec(old(disk.tree), dir) else old(disk.tree)
        invariant GrowsWithoutRemoval(old(disk.log), disk.log)
        decreases i
      {
        i := i - 1;
        DeleteIgnoringResult(files[i]);
      }
    }

    /** `unzip(zip, directory)`: the entries in order, each one's parent created before a file entry is written. */
    method Unzip(zip: Path, dir: Path) returns (thrown: Option<Fault>)
      modifies disk
      ensures Step(disk.tree, thrown) == UnzipSpec(old(disk.tree), disk.unwritable, codecs, zip, dir)
      ensures GrowsWithoutRemoval(old(disk.log), disk.log)
    {
      assert disk.log[..|old(disk.log)|] == old(disk.log);
      if !disk.IsFile(zip) {
        return Some(IoFailure);
      }
      var archive := codecs.zipEntries(disk.Contents(zip).value);
      if archive.None? {
        return Some(IoFailure);
      }
      var entries := archive.value;
      ghost var t0 := disk.tree;
      thrown := None;
      var i := 0;
      while i < |entries| && thrown.None?
        invariant 0 <= i <= |entries|
        invariant Step(disk.tree, thrown) == ExtractSpec(t0, disk.unwritable, dir, entries[..i])
        invariant GrowsWithoutRemoval(old(disk.log), disk.log)
        decreases |entries| - i
      {
        assert entries[..i + 1][..i] == entries[..i];
        ghost var before := disk.log;
        thrown := ExtractEntry(dir, entries[i]);
        GrowsTransitive(old(disk.log), before, disk.log);
        i := i + 1;
      }
      ExtractStopsAtFailure(t0, disk.unwritable, dir, entries, i);
    }

    /** One pass of the unzip loop: the entry's parent is created, and a file entry is written. */
    method ExtractEntry(dir: Path, e: ZipEntry) returns (thrown: Option<Fault>)
      modifies disk
      ensures Step(disk.tree, thrown) == EntrySpec(old(disk.tree), disk.unwritable, dir, e)
      ensures GrowsWithoutRemoval(old(disk.log), disk.log)
    {
      thrown := None;
      if e.isDirectory {
        MakeParent(dir + "/" + e.name);
      } else {
        thrown := PlainWrite(dir + "/" + e.name, e.data);
      }
    }

    /** `writeJson(map, p)`: Jackson's bytes through `save`, so encryption applies. */
    method WriteJson(json: Json.Value, p: Path) returns (thrown: Option<Fault>)
      modifies disk
      ensures Step(disk.tree, thrown) ==
        SaveSpec(old(disk.tree), disk.unwritable, encryptionEnabled, codecs, p, codecs.printJson(json))
      ensures GrowsWithoutRemoval(old(disk.log), disk.log)
    {
      thrown := Save(codecs.printJson(json), p);
    }

    /** `writeUnencryptedJson(map, p)`: Jackson's bytes written plain whatever the flag says. */
    method WriteUnencryptedJson(json: Json.Value, p: Path) returns (thrown: Option<Fault>)
      modifies disk
      ensures Step(disk.tree, thrown) == PlainWriteSpec(old(disk.tree), disk.unwritable, p, codecs.printJson(json))
      ensures GrowsWithoutRemoval(old(disk.log), disk.log)
      ensures thrown.None? ==> |disk.log| > |old(disk.log)| && disk.log[|disk.log| - 1] == Wrote(Canon(p), codecs.printJson(json))
    {
      thrown := PlainWrite(p, codecs.printJson(json));
    }

    /** `moveDirectory(src, dst)` on a device at API level `sdkInt`. */
    method MoveDirectory(src: Path, dst: Path, sdkInt: int) returns (moved: bool)
      modifies disk
      ensures (moved, disk.tree) == MoveDirectorySpec(old(disk.tree), disk.unwritable, sdkInt, src, dst)
    {
      if sdkInt >= VersionCodeO {
        MakeParent(dst);
        moved := disk.MoveTree(src, dst);
        return;
      }
      if !disk.IsDirectory(src) {
        return false;
      }
      var files := CollectFilesInDirectory(disk.tree, src).value;
      var i := |files|;
      while i > 0
        invariant 0 <= i <= |files|
        invariant disk.tree == old(disk.tree)
        decreases i
      {
        i := i - 1;
        if !disk.IsDirectory(files[i]) {
          assert false;
        }
      }
      DeleteDirectory(src);
      moved := true;
    }
  }

  /** Once an entry throws, the later entries change nothing. */
  lemma {:induction false} ExtractStopsAtFailure(t: Tree, unwritable: set<Path>, dir: Path, entries: seq<ZipEntry>, i: nat)
    requires i <= |entries|
    requires i == |entries| || ExtractSpec(t, unwritable, dir, entries[..i]).thrown.Some?
    ensures ExtractSpec(t, unwritable, dir, entries) == ExtractSpec(t, unwritable, dir, entries[..i])
    decreases |entries| - i
  {
    if i == |entries| {
      assert entries[..i] == entries;
    } else {
      var front := entries[..|entries| - 1];
      assert front[..i] == entries[..i];
      ExtractStopsAtFailure(t, unwritable, dir, front, i);
      var s := ExtractSpec(t, unwritable, dir, front);
      assert s.thrown.Some?;
      assert ExtractSpec(t, unwritable, dir, entries) == s;
    }
  }

  // What the operations amount to.

  /**
   * `read` returns what `save` stored, under either setting of the flag, provided
   * EncryptedFile round-trips and the plaintext itself does not pass for ciphertext.
   */
  lemma SaveThenRead(t: Tree, u: set<Path>, encrypted: bool, c: Codecs, p: Path, data: Bytes)
    requires SealRoundTrips(c)
    requires encrypted ==> c.unseal(data).None?
    requires SaveSpec(t, u, encrypted, c, p, data).thrown.None?
    ensures ReadSpec(SaveSpec(t, u, encrypted, c, p, data).tree, encrypted, c, p) == Ok(data)
  {
    if encrypted && !IsOfflineFile(p) {
      SaveStoredForm(t, u, c, p, data);
      assert c.unseal(c.seal(data)) == Some(data);
    }
  }

  /**
   * With encryption on, a new file is stored sealed, but overwriting an existing file
   * leaves it in PLAINTEXT: the sealed temporary file is moved by `moveFile`, which with
   * encryption on reads (decrypts) it and writes the result through a plain stream.
   */
  lemma SaveStoredForm(t: Tree, u: set<Path>, c: Codecs, p: Path, data: Bytes)
    requires SealRoundTrips(c)
    requires !IsOfflineFile(p)
    requires SaveSpec(t, u, true, c, p, data).thrown.None?
    ensures Canon(p) in SaveSpec(t, u, true, c, p, data).tree &&
      (Canon(p) !in t ==> SaveSpec(t, u, true, c, p, data).tree[Canon(p)] == File(c.seal(data)))
    ensures Canon(p) in t ==> SaveSpec(t, u, true, c, p, data).tree[Canon(p)] == File(data)
    ensures Canon(p) in t ==> Canon(p + TempSuffix) !in SaveSpec(t, u, true, c, p, data).tree
  {
    if Canon(p) in t {
      SaveOverrideStored(t, u, c, p, data);
    } else {
      var t2 := MkParent(t, p);
      assert Canon(p) !in t2;
      assert WriteSpec(t2, u, p, c.seal(data)).Some?;
    }
  }

  /** Overwriting with encryption on: the sealed temporary file is decrypted into `p` and deleted. */
  lemma SaveOverrideStored(t: Tree, u: set<Path>, c: Codecs, p: Path, data: Bytes)
    requires SealRoundTrips(c)
    requires !IsOfflineFile(p) && Canon(p) in t
    requires SaveSpec(t, u, true, c, p, data).thrown.None?
    ensures Canon(p) in SaveSpec(t, u, true, c, p, data).tree && SaveSpec(t, u, true, c, p, data).tree[Canon(p)] == File(data)
    ensures Canon(p + TempSuffix) !in SaveSpec(t, u, true, c, p, data).tree
  {
    var out := p + TempSuffix;
    SuffixedPathDiffers(p, TempSuffix);
    var t1 := if Canon(out) in t then DeleteSpec(t, out) else t;
    var t2 := MkParent(t1, out);
    assert Canon(out) !in t2;
    var t3 := WriteSpec(t2, u, out, c.seal(data)).value;
    assert SaveSpec(t, u, true, c, p, data) == MoveFileSpec(t3, u, true, c, out, p);
    assert t3[Canon(out)] == File(c.seal(data));
    assert ReadSpec(t3, true, c, out) == Ok(data) by {
      assert c.unseal(c.seal(data)) == Some(data);
    }
    var w := PlainWriteSpec(t3, u, p, data);
    assert w.thrown.None?;
    assert MoveFileSpec(t3, u, true, c, out, p) == Step(DeleteSpec(w.tree, out), None);
    assert w.tree[Canon(out)] == File(c.seal(data));
  }

  /**
   * A `moveFile` that does not throw leaves what `read(src)` returned at `dst` and
   * nothing at `src`; one that throws keeps a file source as it was.
   */
  lemma MoveFileMoves(t: Tree, u: set<Path>, encrypted: bool, c: Codecs, src: Path, dst: Path)
    requires Canon(src) != Canon(dst)
    ensures var s := MoveFileSpec(t, u, encrypted, c, src, dst);
      s.thrown.None? ==>
        ReadSpec(t, encrypted, c, src).Ok? && Canon(src) !in s.tree &&
        Canon(dst) in s.tree && s.tree[Canon(dst)] == File(ReadSpec(t, encrypted, c, src).value)
    ensures var s := MoveFileSpec(t, u, encrypted, c, src, dst);
      s.thrown.Some? && IsFileIn(t, Canon(src)) ==> Canon(src) in s.tree && s.tree[Canon(src)] == t[Canon(src)]
  {
    var sc, dc := Canon(src), Canon(dst);
    var m := MkParent(t, dst);
    var rename := RenameSpec(t, u, src, dst);
    if !encrypted && rename.0 {
      assert MoveFileSpec(t, u, encrypted, c, src, dst) == Step(rename.1, None);
      assert rename.1 == (m - {sc})[dc := m[sc]];
    } else {
      var t1 := if encrypted then t else rename.1;
      assert t1 == t || t1 == m;
      assert forall k :: k in t ==> k in t1 && t1[k] == t[k];
      assert IsFileIn(t1, sc) <==> IsFileIn(t, sc);
      assert ReadSpec(t1, encrypted, c, src) == ReadSpec(t, encrypted, c, src);
      MoveByCopy(t, t1, u, encrypted, c, src, dst);
    }
  }

  /** The copying half of `moveFile`, from the tree the failed rename left. */
  lemma MoveByCopy(t: Tree, t1: Tree, u: set<Path>, encrypted: bool, c: Codecs, src: Path, dst: Path)
    requires Canon(src) != Canon(dst)
    requires forall k :: k in t ==> k in t1 && t1[k] == t[k]
    requires ReadSpec(t1, encrypted, c, src) == ReadSpec(t, encrypted, c, src)
    requires !encrypted ==> !RenameSpec(t, u, src, dst).0
    requires t1 == if encrypted then t else RenameSpec(t, u, src, dst).1
    ensures var s := MoveFileSpec(t, u, encrypted, c, src, dst);
      s.thrown.None? ==>
        ReadSpec(t, encrypted, c, src).Ok? && Canon(src) !in s.tree &&
        Canon(dst) in s.tree && s.tree[Canon(dst)] == File(ReadSpec(t, encrypted, c, src).value)
    ensures var s := MoveFileSpec(t, u, encrypted, c, src, dst);
      s.thrown.Some? && IsFileIn(t, Canon(src)) ==> Canon(src) in s.tree && s.tree[Canon(src)] == t[Canon(src)]
  {
    match ReadSpec(t1, encrypted, c, src)
    case Err(f) =>
      assert MoveFileSpec(t, u, encrypted, c, src, dst) == Step(t1, Some(f));
    case Ok(data) =>
      var w := PlainWriteSpec(t1, u, dst, data);
      assert IsFileIn(t1, Canon(src));
      if w.thrown.Some? {
        assert MoveFileSpec(t, u, encrypted, c, src, dst) == w;
        assert Canon(src) in w.tree && w.tree[Canon(src)] == t1[Canon(src)];
      } else {
        assert MoveFileSpec(t, u, encrypted, c, src, dst) == Step(DeleteSpec(w.tree, src), None);
        CopyThenDelete(t1, u, src, dst, data);
      }
  }

  /** A successful copy of a file to another path, followed by deleting the source. */
  lemma CopyThenDelete(t: Tree, u: set<Path>, src: Path, dst: Path, data: Bytes)
    requires Canon(src) != Canon(dst) && IsFileIn(t, Canon(src))
    requires PlainWriteSpec(t, u, dst, data).thrown.None?
    ensures var r := DeleteSpec(PlainWriteSpec(t, u, dst, data).tree, src);
      Canon(src) !in r && Canon(dst) in r && r[Canon(dst)] == File(data)
  {
    var w := PlainWriteSpec(t, u, dst, data).tree;
    assert Canon(src) in w && w[Canon(src)].File?;
  }

  /** With encryption on, moving a file onto itself deletes it: it is rewritten in place and then deleted as the source. */
  lemma MoveFileOntoItselfDeletes(t: Tree, u: set<Path>, c: Codecs, p: Path)
    requires MoveFileSpec(t, u, true, c, p, p).thrown.None?
    ensures Canon(p) !in MoveFileSpec(t, u, true, c, p, p).tree
  {
  }

  /** With encryption off the same move is a rename onto itself and keeps the file. */
  lemma MoveFileOntoItselfPlain(t: Tree, u: set<Path>, c: Codecs, p: Path)
    requires IsFileIn(t, Canon(p))
    ensures MoveFileSpec(t, u, false, c, p, p).thrown.None?
    ensures Canon(p) in MoveFileSpec(t, u, false, c, p, p).tree
    ensures MoveFileSpec(t, u, false, c, p, p).tree[Canon(p)] == t[Canon(p)]
  {
  }

  /**
   * Because `collectFilesInDirectory` returns only the directory, `deleteDirectory`
   * removes a directory exactly when it is empty, and never touches anything else.
   */
  lemma DeleteDirectoryOnlyWhenEmpty(t: Tree, dir: Path)
    ensures forall k :: k != Canon(dir) ==> (k in DeleteDirectorySpec(t, dir) <==> k in t)
    ensures Canon(dir) in t && t[Canon(dir)] == Dir ==>
      (Canon(dir) !in DeleteDirectorySpec(t, dir) <==> NoChildren(t, Canon(dir)))
    ensures !(Canon(dir) in t && t[Canon(dir)] == Dir) ==> DeleteDirectorySpec(t, dir) == t
  {
  }

  /**
   * Below API 26 `moveDirectory` reports success for every directory while moving
   * nothing: a directory with contents stays as it is, an empty one disappears, and
   * nothing appears at the target.
   */
  lemma MoveDirectoryBeforeOMovesNothing(t: Tree, u: set<Path>, sdkInt: int, src: Path, dst: Path)
    requires sdkInt < VersionCodeO
    requires Canon(src) in t && t[Canon(src)] == Dir
    ensures MoveDirectorySpec(t, u, sdkInt, src, dst).0
    ensures !NoChildren(t, Canon(src)) ==> MoveDirectorySpec(t, u, sdkInt, src, dst).1 == t
    ensures NoChildren(t, Canon(src)) ==> MoveDirectorySpec(t, u, sdkInt, src, dst).1 == t - {Canon(src)}
  {
  }

  /** From API 26 a successful `moveDirectory` relocates every entry of the source below the target. */
  lemma MoveDirectoryFromOMovesAll(t: Tree, u: set<Path>, sdkInt: int, src: Path, dst: Path)
    requires sdkInt >= VersionCodeO && Canon(src) != Canon(dst)
    requires MoveDirectorySpec(t, u, sdkInt, src, dst).0
    ensures var r := MoveDirectorySpec(t, u, sdkInt, src, dst).1;
      forall k :: k in t && Within(k, Canon(src)) ==>
        Canon(dst) + k[|Canon(src)|..] in r && r[Canon(dst) + k[|Canon(src)|..]] == t[k]
    ensures var r := MoveDirectorySpec(t, u, sdkInt, src, dst).1;
      forall k :: k in r ==> !Within(k, Canon(src)) || Within(k, Canon(dst))
  {
    var t1 := MkParent(t, dst);
    var s, d := Canon(src), Canon(dst);
    assert CanMoveTree(t1, u, s, d);
    var r := MovedTree(t1, s, d);
    forall k | k in r && Within(k, s) ensures Within(k, d) {
    }
  }

  /** The file `directory/name` an entry is extracted to. */
  function EntryTarget(dir: Path, e: ZipEntry): Path {
    Canon(dir + "/" + e.name)
  }

  /** Extraction writes only at or below the extraction directory; any other existing entry keeps its value. */
  lemma {:induction false} ExtractKeepsOutside(t: Tree, u: set<Path>, dir: Path, entries: seq<ZipEntry>)
    requires IsDirPath(dir)
    ensures var r := ExtractSpec(t, u, dir, entries).tree;
      forall k :: k in t && !Within(k, dir) ==> k in r && r[k] == t[k]
    decreases |entries|
  {
    if |entries| > 0 {
      var front := entries[..|entries| - 1];
      ExtractKeepsOutside(t, u, dir, front);
      var s := ExtractSpec(t, u, dir, front);
      if s.thrown.None? {
        EntryKeepsOutside(s.tree, u, dir, entries[|entries| - 1]);
      }
    }
  }

  /** One entry writes only at or below the extraction directory. */
  lemma EntryKeepsOutside(t: Tree, u: set<Path>, dir: Path, e: ZipEntry)
    requires IsDirPath(dir)
    ensures var r := EntrySpec(t, u, dir, e).tree;
      forall k :: k in t && !Within(k, dir) ==> k in r && r[k] == t[k]
  {
    var target := Canon(dir + "/" + e.name);
    CanonUnder(dir, e.name);
    assert Within(target, dir);
    forall k | k in t && !Within(k, dir)
      ensures k != target
    {
    }
  }

  /**
   * After an extraction that threw nothing, each file entry's bytes are at its target,
   * unless a later file entry has the same target.
   */
  lemma {:induction false} ExtractWritesFiles(t: Tree, u: set<Path>, dir: Path, entries: seq<ZipEntry>, i: nat)
    requires i < |entries| && !entries[i].isDirectory
    requires forall j :: i < j < |entries| && !entries[j].isDirectory ==> EntryTarget(dir, entries[j]) != EntryTarget(dir, entries[i])
    requires ExtractSpec(t, u, dir, entries).thrown.None?
    ensures var r := ExtractSpec(t, u, dir, entries).tree;
      EntryTarget(dir, entries[i]) in r && r[EntryTarget(dir, entries[i])] == File(entries[i].data)
    decreases |entries|
  {
    var front := entries[..|entries| - 1];
    var s := ExtractSpec(t, u, dir, front);
    assert s.thrown.None?;
    if i < |entries| - 1 {
      ExtractWritesFiles(t, u, dir, front, i);
    }
  }

  /** A file entry whose target cannot be written stops the extraction with FileNotFoundException; nothing else throws. */
  lemma {:induction false} ExtractFailureKind(t: Tree, u: set<Path>, dir: Path, entries: seq<ZipEntry>)
    ensures ExtractSpec(t, u, dir, entries).thrown.Some? ==> ExtractSpec(t, u, dir, entries).thrown == Some(FileNotFound)
    decreases |entries|
  {
    if |entries| > 0 {
      ExtractFailureKind(t, u, dir, entries[..|entries| - 1]);
    }
  }
}
