/**
 * The device file system the native modules work on: a map from canonical absolute
 * paths to nodes (a file with its bytes, or a directory), plus the primitive operations
 * of java.io.File, kotlin.io and Foundation's FileManager that the modules call.
 *
 * Paths are canonicalised the way java.io.File normalises them and the way POSIX path
 * resolution reads them: runs of '/' count as one and a trailing '/' is dropped. The
 * components "." and ".." are ordinary names here.
 */
module FileTree {
  import opened Wrappers
  import opened Text

  type Bytes = seq<bv8>
  type Path = string

  datatype Node = Dir | File(data: Bytes)

  type Tree = map<Path, Node>

  /** A successful mutation of the tree, recorded in the order it happened. */
  datatype Event =
    | Wrote(path: Path, data: Bytes)
    | MadeDirs(path: Path)
    | RemovedTree(path: Path)
    | Deleted(path: Path)
    | Moved(from: Path, to: Path)

  // Canonical paths.

  predicate NoDoubleSlash(s: string) {
    forall i :: 0 <= i < |s| - 1 ==> !(s[i] == '/' && s[i + 1] == '/')
  }

  /** Normalised: no repeated '/', and no trailing '/' except for the root itself. */
  predicate IsCanonical(s: string) {
    NoDoubleSlash(s) && (|s| > 1 ==> s[|s| - 1] != '/')
  }

  /** Collapses every run of '/' into one. */
  function Collapse(s: string): (r: string)
    ensures |s| > 0 ==> |r| > 0 && r[0] == s[0] && r[|r| - 1] == s[|s| - 1]
    ensures |s| == 0 ==> r == ""
    ensures NoDoubleSlash(r)
    decreases |s|
  {
    if |s| <= 1 then s
    else if s[0] == '/' && s[1] == '/' then Collapse(s[1..])
    else
      var t := Collapse(s[1..]);
      assert [s[0]] + t == [s[0]] + t;
      [s[0]] + t
  }

  /** The path as java.io.File stores it (`File(s).path`). */
  function Canon(s: string): (c: string)
    ensures IsCanonical(c)
    ensures |s| > 0 ==> |c| > 0
  {
    var t := Collapse(s);
    if |t| > 1 && t[|t| - 1] == '/' then
      assert t[|t| - 2] != '/';
      t[..|t| - 1]
    else t
  }

  lemma {:induction false} CollapseFixed(s: string)
    requires NoDoubleSlash(s)
    ensures Collapse(s) == s
    decreases |s|
  {
    if |s| > 1 {
      CollapseFixed(s[1..]);
    }
  }

  /** Canonicalising a canonical path changes nothing. */
  lemma CanonFixed(s: string)
    requires IsCanonical(s)
    ensures Canon(s) == s
  {
    CollapseFixed(s);
  }

  lemma CanonIdempotent(s: string)
    ensures Canon(Canon(s)) == Canon(s)
  {
    CanonFixed(Canon(s));
  }

  /** A canonical directory path that is neither empty nor the root. */
  predicate IsDirPath(a: string) {
    IsCanonical(a) && |a| > 0 && a[|a| - 1] != '/'
  }

  /** A relative path of one or more components in canonical form. */
  predicate IsRelative(b: string) {
    IsCanonical(b) && |b| > 0 && b[0] != '/'
  }

  /** Joining a directory and a canonical relative path needs no normalisation. */
  lemma CanonJoin(a: string, b: string)
    requires IsDirPath(a) && IsRelative(b)
    ensures Canon(a + "/" + b) == a + "/" + b
  {
    var s := a + "/" + b;
    forall i | 0 <= i < |s| - 1 ensures !(s[i] == '/' && s[i + 1] == '/') {
      if i < |a| - 1 {
        assert s[i] == a[i] && s[i + 1] == a[i + 1];
      } else if i == |a| - 1 {
        assert s[i] == a[|a| - 1];
      } else if i == |a| {
        assert s[i + 1] == b[0];
      } else {
        assert s[i] == b[i - |a| - 1] && s[i + 1] == b[i - |a|];
      }
    }
    assert s[|s| - 1] == b[|b| - 1];
    CanonFixed(s);
  }

  lemma {:induction false} CollapseAfter(a: string, t: string)
    requires IsDirPath(a)
    ensures Collapse(a + t) == a + Collapse(t)
    decreases |a|
  {
    var s := a + t;
    if |a| == 1 {
      if |t| == 0 {
        assert s == a;
      } else {
        assert s[0] == a[0] && s[0] != '/';
        assert s[1..] == t;
        assert Collapse(s) == [a[0]] + Collapse(t);
        assert a == [a[0]];
      }
    } else {
      assert s[0] == a[0] && s[1] == a[1];
      assert a[0] != '/' || a[1] != '/';
      assert s[1..] == a[1..] + t;
      DirPathTail(a);
      CollapseAfter(a[1..], t);
      assert Collapse(s) == [a[0]] + (a[1..] + Collapse(t));
      assert a == [a[0]] + a[1..];
      AppendAssoc3([a[0]], a[1..], Collapse(t));
    }
  }

  lemma AppendAssoc3(x: string, y: string, z: string)
    ensures x + (y + z) == x + y + z
  {
  }

  /** A directory path without its first character is still one. */
  lemma DirPathTail(a: string)
    requires IsDirPath(a) && |a| > 1
    ensures IsDirPath(a[1..])
  {
    forall i | 0 <= i < |a[1..]| - 1 ensures !(a[1..][i] == '/' && a[1..][i + 1] == '/') {
      assert a[1..][i] == a[i + 1] && a[1..][i + 1] == a[i + 2];
    }
  }

  /** Appending text without '/' commutes with collapsing. */
  lemma {:induction false} CollapseAppendPlain(x: string, y: string)
    requires '/' !in y
    ensures Collapse(x + y) == Collapse(x) + y
    decreases |x|
  {
    if |x| == 0 {
      assert x + y == y;
      CollapseFixed(y);
    } else if |x| == 1 {
      if |y| > 0 {
        assert (x + y)[1..] == y;
        assert y[0] in y;
        CollapseFixed(y);
      } else {
        assert x + y == x;
      }
    } else {
      assert (x + y)[1..] == x[1..] + y;
      CollapseAppendPlain(x[1..], y);
    }
  }

  /** A suffix without '/' always names a different file: `File(p + "temp")` is never `File(p)`. */
  lemma SuffixedPathDiffers(p: string, suffix: string)
    requires '/' !in suffix && |suffix| > 0
    ensures Canon(p + suffix) != Canon(p)
    ensures |Canon(p + suffix)| > |Canon(p)|
  {
    CollapseAppendPlain(p, suffix);
    assert suffix[|suffix| - 1] in suffix;
    assert (Collapse(p) + suffix)[|Collapse(p) + suffix| - 1] == suffix[|suffix| - 1];
  }

  /** Resolving any name under a directory lands on the directory itself or below it. */
  lemma CanonUnder(a: string, n: string)
    requires IsDirPath(a)
    ensures Canon(a + "/" + n) == a || StartsWith(Canon(a + "/" + n), a + "/")
  {
    assert a + "/" + n == a + ("/" + n);
    CollapseAfter(a, "/" + n);
    var u := Collapse("/" + n);
    assert u[0] == '/';
    var t := a + u;
    if |u| == 1 {
      assert t == a + "/";
    } else {
      assert t[..|a| + 1] == a + "/";
      if |t| > 1 && t[|t| - 1] == '/' {
        assert t[..|t| - 1][..|a| + 1] == a + "/";
      }
    }
  }

  /** `File(parent, child).path`: the child resolved against the parent and normalised. */
  function Resolve(parent: Path, child: string): (p: Path)
    ensures IsCanonical(p)
  {
    Canon(parent + "/" + child)
  }

  function LastSlash(s: string): (r: Option<nat>)
    ensures r.Some? ==> r.value < |s| && s[r.value] == '/' && forall k :: r.value < k < |s| ==> s[k] != '/'
    ensures r.None? ==> '/' !in s
    decreases |s|
  {
    if |s| == 0 then None
    else if s[|s| - 1] == '/' then Some(|s| - 1)
    else LastSlash(s[..|s| - 1])
  }

  /** `File(c).parent` on a canonical path: everything before the last '/', the root for "/x", none for a bare name or the root. */
  function ParentOf(c: Path): (r: Option<Path>)
    ensures r.Some? ==> |r.value| < |c| && StartsWith(c, r.value)
    ensures r.None? <==> '/' !in c || c == "/"
  {
    match LastSlash(c)
    case None => None
    case Some(j) =>
      if j == 0 then (if |c| > 1 then Some("/") else None)
      else Some(c[..j])
  }

  /** The parent of a canonical path is canonical. */
  lemma ParentCanonical(c: Path)
    requires IsCanonical(c) && ParentOf(c).Some?
    ensures IsCanonical(ParentOf(c).value)
  {
    var j := LastSlash(c).value;
    if j > 0 {
      var p := c[..j];
      assert c[j] == '/';
      assert c[j - 1] != '/';
      forall i | 0 <= i < |p| - 1 ensures !(p[i] == '/' && p[i + 1] == '/') {
        assert p[i] == c[i] && p[i + 1] == c[i + 1];
      }
    }
  }

  /** The parent of a directory joined with a one-component name is that directory. */
  lemma ParentOfJoin(a: string, name: string)
    requires IsDirPath(a) && IsRelative(name) && '/' !in name
    ensures ParentOf(a + "/" + name) == Some(a)
  {
    var s := a + "/" + name;
    var j := LastSlash(s);
    assert s[|a|] == '/';
    forall k | |a| < k < |s| ensures s[k] != '/' {
      assert s[k] == name[k - |a| - 1];
    }
    assert j == Some(|a|);
    if |a| == 0 {
    } else {
      assert s[..|a|] == a;
    }
  }

  /** NSString's `deletingLastPathComponent`: the parent, "/" for the root, "" for a bare name. */
  function DeletingLastPathComponent(s: string): (r: string)
    ensures IsCanonical(r)
  {
    var c := Canon(s);
    match ParentOf(c)
    case Some(p) => ParentCanonical(c); p
    case None => if c == "/" then "/" else ""
  }

  // Regions of the tree.

  /** `k` is `c` itself or lies below the directory `c`. */
  predicate Within(k: Path, c: Path) {
    k == c || StartsWith(k, c + "/")
  }

  /** `c` and every directory above it, without the root. */
  function AncestorsOrSelf(c: Path): (r: set<Path>)
    ensures |c| > 0 ==> c in r
    ensures forall a :: a in r ==> StartsWith(c, a) && |a| > 0
  {
    assert |c| > 0 ==> c == c[..|c|];
    set i | 0 < i <= |c| && (i == |c| || c[i] == '/') :: c[..i]
  }

  /** Some existing file stands where `mkdirs` would need a directory. */
  predicate Blocked(t: Tree, c: Path) {
    exists a :: a in AncestorsOrSelf(c) && a in t && t[a].File?
  }

  /** The tree after `mkdirs`: every missing directory on the way to `c` is created, or nothing if a file is in the way. */
  function WithDirs(t: Tree, c: Path): (r: Tree)
    ensures forall k :: k in t ==> k in r && r[k] == t[k]
    ensures forall k :: k in r && k !in t ==> r[k] == Dir && k in AncestorsOrSelf(c)
    ensures !Blocked(t, c) ==> forall a :: a in AncestorsOrSelf(c) ==> a in r && r[a] == Dir
    ensures Blocked(t, c) ==> r == t
  {
    if Blocked(t, c) then t
    else t + map a | a in AncestorsOrSelf(c) && a !in t :: Dir
  }

  /** The tree without `c` and everything below it. */
  function WithoutTree(t: Tree, c: Path): (r: Tree)
    ensures forall k :: k in r <==> k in t && !Within(k, c)
    ensures forall k :: k in r ==> r[k] == t[k]
  {
    map k | k in t && !Within(k, c) :: t[k]
  }

  /** Nothing lies below `c`. */
  predicate NoChildren(t: Tree, c: Path) {
    forall k :: k in t ==> !StartsWith(k, c + "/")
  }

  /** The directory holding `c` exists, so a file can be created at `c`. */
  predicate ParentReady(t: Tree, c: Path) {
    match ParentOf(c)
    case None => true
    case Some(q) => q == "/" || (q in t && t[q] == Dir)
  }

  /** Opening a `FileOutputStream` (or an atomic write) at `c` succeeds. */
  predicate CanWrite(t: Tree, unwritable: set<Path>, c: Path) {
    c !in unwritable && !(c in t && t[c] == Dir) && ParentReady(t, c)
  }

  /** After `mkdirs` of the parent, a file can be created unless something blocks it. */
  lemma ParentReadyAfterMkdirs(t: Tree, c: Path)
    requires ParentOf(c).Some? && ParentOf(c).value != "/"
    requires !Blocked(t, ParentOf(c).value)
    ensures ParentReady(WithDirs(t, ParentOf(c).value), c)
  {
    var q := ParentOf(c).value;
    assert q in AncestorsOrSelf(q);
  }

  /** The names of the entries directly inside `c`. */
  function ChildNames(t: Tree, c: Path): (r: set<string>)
    ensures forall n :: n in r ==> c + "/" + n in t && '/' !in n
  {
    var r := set k | k in t && StartsWith(k, c + "/") && '/' !in k[|c| + 1..] :: k[|c| + 1..];
    ChildNamesIn(t, c, r);
    r
  }

  lemma ChildNamesIn(t: Tree, c: Path, r: set<string>)
    requires r == set k | k in t && StartsWith(k, c + "/") && '/' !in k[|c| + 1..] :: k[|c| + 1..]
    ensures forall n :: n in r ==> c + "/" + n in t && '/' !in n
  {
    forall n | n in r ensures c + "/" + n in t && '/' !in n {
      var k :| k in t && StartsWith(k, c + "/") && '/' !in k[|c| + 1..] && n == k[|c| + 1..];
      assert k == k[..|c| + 1] + k[|c| + 1..];
    }
  }

  /**
   * The file system state of the device. `unwritable` stands for the paths at which
   * the platform refuses to create or overwrite a file (full or read-only storage);
   * `log` records every successful mutation in order.
   */
  class Disk {
    var tree: Tree
    ghost var log: seq<Event>
    const unwritable: set<Path>

    constructor (initial: Tree, unwritable: set<Path>)
      ensures tree == initial && this.unwritable == unwritable && log == []
    {
      tree := initial;
      this.unwritable := unwritable;
      log := [];
    }

    /** `File(p).exists()` / `FileManager.fileExists(atPath:)`: true for files and directories. */
    function Exists(p: Path): bool reads this {
      Canon(p) in tree
    }

    function IsDirectory(p: Path): bool reads this {
      Canon(p) in tree && tree[Canon(p)] == Dir
    }

    function IsFile(p: Path): bool reads this {
      Canon(p) in tree && tree[Canon(p)].File?
    }

    /** The bytes a plain read of `p` returns, or none when it is missing or a directory. */
    function Contents(p: Path): (r: Option<Bytes>) reads this
      ensures r.Some? <==> IsFile(p)
    {
      if IsFile(p) then Some(tree[Canon(p)].data) else None
    }

    /** Creates or truncates and writes the file at `p`. */
    method Write(p: Path, data: Bytes) returns (ok: bool)
      modifies this`tree, this`log
      ensures ok == CanWrite(old(tree), unwritable, Canon(p))
      ensures tree == if ok then old(tree)[Canon(p) := File(data)] else old(tree)
      ensures log == if ok then old(log) + [Wrote(Canon(p), data)] else old(log)
    {
      var c := Canon(p);
      ok := CanWrite(tree, unwritable, c);
      if ok {
        tree := tree[c := File(data)];
        log := log + [Wrote(c, data)];
      }
    }

    /** `File(p).mkdirs()`; true iff the directory did not exist and now does. */
    method Mkdirs(p: Path) returns (created: bool)
      modifies this`tree, this`log
      ensures tree == WithDirs(old(tree), Canon(p))
      ensures created == (Canon(p) !in old(tree) && !Blocked(old(tree), Canon(p)) && |Canon(p)| > 0)
      ensures log == if tree == old(tree) then old(log) else old(log) + [MadeDirs(Canon(p))]
    {
      var c := Canon(p);
      created := c !in tree && !Blocked(tree, c) && |c| > 0;
      var t := WithDirs(tree, c);
      if t != tree {
        tree := t;
        log := log + [MadeDirs(c)];
      }
    }

    /** Removes `p` with everything below it (`deleteRecursively`, `removeItem(atPath:)`); false when nothing was there. */
    method RemoveTree(p: Path) returns (existed: bool)
      modifies this`tree, this`log
      ensures existed == (Canon(p) in old(tree))
      ensures tree == WithoutTree(old(tree), Canon(p))
      ensures log == old(log) + [RemovedTree(Canon(p))]
    {
      var c := Canon(p);
      existed := c in tree;
      tree := WithoutTree(tree, c);
      log := log + [RemovedTree(c)];
    }

    /** `File(p).delete()`: removes a file or an empty directory, and fails on anything else. */
    method Delete(p: Path) returns (ok: bool)
      modifies this`tree, this`log
      ensures ok == (Canon(p) in old(tree) && (old(tree)[Canon(p)].File? || NoChildren(old(tree), Canon(p))))
      ensures tree == if ok then old(tree) - {Canon(p)} else old(tree)
      ensures log == if ok then old(log) + [Deleted(Canon(p))] else old(log)
    {
      var c := Canon(p);
      ok := c in tree && (tree[c].File? || NoChildren(tree, c));
      if ok {
        tree := tree - {c};
        log := log + [Deleted(c)];
      }
    }

    /** `File(src).renameTo(File(dst))` for a file: replaces a file at `dst`, fails onto a directory; renaming onto itself succeeds. */
    method RenameFile(src: Path, dst: Path) returns (ok: bool)
      modifies this`tree, this`log
      ensures ok == (IsFileIn(old(tree), Canon(src)) && (Canon(src) == Canon(dst) || CanWrite(old(tree), unwritable, Canon(dst))))
      ensures tree == if ok then (old(tree) - {Canon(src)})[Canon(dst) := old(tree)[Canon(src)]] else old(tree)
      ensures log == if ok then old(log) + [Moved(Canon(src), Canon(dst))] else old(log)
    {
      var s, d := Canon(src), Canon(dst);
      ok := IsFileIn(tree, s) && (s == d || CanWrite(tree, unwritable, d));
      if ok {
        tree := (tree - {s})[d := tree[s]];
        log := log + [Moved(s, d)];
      }
    }

    /** `Files.move(src, dst, REPLACE_EXISTING)` on one file system; false where it throws. */
    method MoveTree(src: Path, dst: Path) returns (ok: bool)
      modifies this`tree, this`log
      ensures ok == CanMoveTree(old(tree), unwritable, Canon(src), Canon(dst))
      ensures tree == if ok then MovedTree(old(tree), Canon(src), Canon(dst)) else old(tree)
      ensures log == if ok then old(log) + [Moved(Canon(src), Canon(dst))] else old(log)
    {
      var s, d := Canon(src), Canon(dst);
      ok := CanMoveTree(tree, unwritable, s, d);
      if ok {
        tree := MovedTree(tree, s, d);
        log := log + [Moved(s, d)];
      }
    }
  }

  /**
   * When `Files.move` with REPLACE_EXISTING succeeds: the source exists, and it is the
   * target itself, or the target is not inside the source, its directory exists, and
   * whatever stands at the target has nothing below it.
   */
  predicate CanMoveTree(t: Tree, unwritable: set<Path>, s: Path, d: Path) {
    s in t &&
    (s == d || (!StartsWith(d, s + "/") && d !in unwritable && ParentReady(t, d) && NoChildren(t, d) && !Within(s, d)))
  }

  /** The entries of `s` and below, relocated to `d`. */
  function Relocated(t: Tree, s: Path, d: Path): (r: Tree)
    ensures forall k :: k in t && Within(k, s) ==> d + k[|s|..] in r && r[d + k[|s|..]] == t[k]
    ensures forall k :: k in r ==> Within(k, d) && s + k[|d|..] in t && Within(s + k[|d|..], s)
  {
    var keys := set k | k in t && Within(k, s) :: d + k[|s|..];
    RelocatedKeys(t, s, d, keys);
    var r := map k | k in keys :: t[s + k[|d|..]];
    forall k | k in t && Within(k, s) ensures d + k[|s|..] in r && r[d + k[|s|..]] == t[k] {
      assert (d + k[|s|..])[|d|..] == k[|s|..];
      assert k == s + k[|s|..];
    }
    r
  }

  lemma RelocatedKeys(t: Tree, s: Path, d: Path, keys: set<Path>)
    requires keys == set k | k in t && Within(k, s) :: d + k[|s|..]
    ensures forall k :: k in keys ==> Within(k, d) && s + k[|d|..] in t && Within(s + k[|d|..], s)
  {
    forall k | k in keys ensures Within(k, d) && s + k[|d|..] in t && Within(s + k[|d|..], s) {
      var k0 :| k0 in t && Within(k0, s) && k == d + k0[|s|..];
      assert k[|d|..] == k0[|s|..];
      assert k0 == s + k0[|s|..];
      if k0 != s {
        assert k0[|s|..][..1] == "/";
        assert k[..|d| + 1] == d + "/";
      }
    }
  }

  /** The tree after moving `s` (with everything below it) to `d`, replacing what stood at `d`. */
  function MovedTree(t: Tree, s: Path, d: Path): (r: Tree)
    ensures s == d ==> r == t
    ensures s != d ==> forall k :: k in t && Within(k, s) ==> d + k[|s|..] in r && r[d + k[|s|..]] == t[k]
    ensures s != d ==> forall k :: k in t && !Within(k, s) && !Within(k, d) ==> k in r && r[k] == t[k]
    ensures s != d ==> forall k :: k in r ==> (k in t && !Within(k, s) && k != d) || Within(k, d)
  {
    if s == d then t
    else
      var rel := Relocated(t, s, d);
      map k | k in (t.Keys + rel.Keys) && (k in rel || (!Within(k, s) && k != d)) ::
        if k in rel then rel[k] else t[k]
  }

  predicate IsFileIn(t: Tree, c: Path) {
    c in t && t[c].File?
  }

  /** Every key of the tree is reached through `Canon`, so keys are canonical. */
  ghost predicate CanonicalKeys(t: Tree) {
    forall k :: k in t ==> IsCanonical(k)
  }
}
