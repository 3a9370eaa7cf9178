/**
 * The JavaScript side of the file-system module (`src/file-system.ts`): the helper that
 * places a relative path under the documents directory, and the `cast` of the native
 * constants that turns null into undefined.
 */
module FileSystemJs {
  import opened Wrappers
  import opened Text

  /**
   * `relativeToDocumentsAbsolutePath`: a path that already starts with the documents
   * directory is kept; any other is joined to it with "/". The test is textual, so
   * "/docsX" counts as inside "/docs", and an absolute path elsewhere is appended too.
   */
  function RelativeToDocumentsAbsolutePath(docDirPath: string, path: string): (r: string)
    ensures StartsWith(r, docDirPath)
    ensures StartsWith(path, docDirPath) ==> r == path
    ensures !StartsWith(path, docDirPath) ==> r == docDirPath + "/" + path
  {
    if StartsWith(path, docDirPath) then path
    else
      assert (docDirPath + "/" + path)[..|docDirPath|] == docDirPath;
      docDirPath + "/" + path
  }

  /** Resolving an already resolved path changes nothing. */
  lemma ResolveIdempotent(docDirPath: string, path: string)
    ensures RelativeToDocumentsAbsolutePath(docDirPath, RelativeToDocumentsAbsolutePath(docDirPath, path))
      == RelativeToDocumentsAbsolutePath(docDirPath, path)
  {
  }

  /** The original path is what follows the directory and the separator. */
  lemma ResolveKeepsRelativePath(docDirPath: string, path: string)
    requires !StartsWith(path, docDirPath)
    ensures RelativeToDocumentsAbsolutePath(docDirPath, path)[|docDirPath| + 1..] == path
  {
    assert (docDirPath + "/" + path)[|docDirPath| + 1..] == path;
  }

  /** An absolute path outside the documents directory is not rejected but nested: "/a" under "/d" is "/d//a". */
  lemma AbsolutePathElsewhereIsNested()
    ensures RelativeToDocumentsAbsolutePath("/d", "/a") == "/d//a"
  {
    assert "/a"[1] == 'a' && "/d"[1] == 'd';
    assert !StartsWith("/a", "/d");
  }

  /** A JavaScript value of unknown type: `undefined`, `null`, or a value of type T. */
  datatype Unknown<T> = Undefined | Null | Defined(value: T)

  /** `cast`: undefined and null both become undefined (None); any other value passes unchanged. */
  function Cast<T>(value: Unknown<T>): (r: Option<T>)
    ensures r.None? <==> value.Undefined? || value.Null?
    ensures value.Defined? ==> r == Some(value.value)
  {
    match value
    case Defined(v) => Some(v)
    case _ => None
  }

  /** Back as an unknown value, a cast value casts to itself: `cast` never yields null. */
  lemma CastIdempotent<T>(value: Unknown<T>)
    ensures var r := Cast(value); Cast(if r.Some? then Defined(r.value) else Undefined) == r
  {
  }
}
