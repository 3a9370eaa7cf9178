/**
 * The foreign capabilities the modules call but whose inner workings are not part of
 * this model: JSON text, zip archives and EncryptedFile. Each is a total function
 * handed to the model as a value, so the model holds for every implementation; the
 * laws below are the only facts assumed of them, and only where a lemma says so.
 */
module Platform {
  import opened Wrappers
  import opened Json
  import opened FileTree

  /** One entry of a zip archive's central directory. */
  datatype ZipEntry = ZipEntry(name: string, isDirectory: bool, data: Bytes)

  datatype Codecs = Codecs(
    /** Parses UTF-8 JSON text; none on a syntax error. */
    parseJson: Bytes -> Option<Value>,
    /** Jackson's / JSONSerialization's rendering of a value as UTF-8 JSON text. */
    printJson: Value -> Bytes,
    /** org.json's compact `toString` of a nested array or object. */
    compactJson: Value -> string,
    /** The entries of a zip archive in directory order; none when the bytes are not an archive. */
    zipEntries: Bytes -> Option<seq<ZipEntry>>,
    /** The bytes EncryptedFile stores for a plaintext (AES-256-GCM with the app's master key). */
    seal: Bytes -> Bytes,
    /** The plaintext EncryptedFile reads back from stored bytes; none when they do not decrypt (an IOException). */
    unseal: Bytes -> Option<Bytes>
  )

  /**
   * What became of a React Native promise: never settled (an exception escaped the
   * bridge method), resolved with a value, or rejected with a code and a message.
   */
  datatype Settlement = Pending | Resolved(value: Value) | Rejected(code: string, message: string)

  /** Printed JSON parses back to the same value. */
  ghost predicate JsonRoundTrips(c: Codecs) {
    forall v :: c.parseJson(c.printJson(v)) == Some(v)
  }

  /** What EncryptedFile wrote it can read back. */
  ghost predicate SealRoundTrips(c: Codecs) {
    forall b :: c.unseal(c.seal(b)) == Some(b)
  }

  /**
   * A directory listing order (`File.list()`, an `NSDirectoryEnumerator`) names every
   * member of the set once, and nothing else.
   */
  ghost predicate Enumerates(order: set<string> -> seq<string>) {
    forall s :: (forall i :: 0 <= i < |order(s)| ==> order(s)[i] in s) &&
                (forall n :: n in s ==> n in order(s)) &&
                (forall i, j :: 0 <= i < j < |order(s)| ==> order(s)[i] != order(s)[j])
  }
}
