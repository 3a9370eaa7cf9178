/**
 * iOS's download path (NativeDownloadHandler.swift): the handler reads its config,
 * starts a URLSession download task, and its delegate callbacks place the downloaded
 * file; the bridge method `NativeDownloadModule.download` turns the callbacks into a
 * promise settlement and progress notifications.
 *
 * The network is not modelled: URLSession's delegate calls are methods the caller
 * makes, with what the session would hand them as arguments. The callbacks the
 * handler invokes are recorded, in order, in its `calls` field.
 */
module DownloadIos {
  import opened Wrappers
  import opened Json
  import opened FileTree
  import opened Platform
  import DownloadAndroid

  const TimeoutKey: string := "connectionTimeout"
  const MimeTypeKey: string := "mimeType"
  /** Seconds, when the config gives no timeout. */
  const DefaultTimeoutSeconds: int := 10
  const ErrorDownloadFailed: string := "ERROR_DOWNLOAD_FAILED"
  const HandlerName: string := "NativeDownloadHandler"

  /**
   * `milliseconds / 1000` on Swift's `Int`: the quotient truncated toward zero, so
   * the remainder left over has the sign of the dividend.
   */
  function WholeSeconds(milliseconds: int): (seconds: int)
    ensures milliseconds >= 0 ==> 0 <= milliseconds - seconds * 1000 < 1000
    ensures milliseconds < 0 ==> -1000 < milliseconds - seconds * 1000 <= 0
  {
    if milliseconds >= 0 then milliseconds / 1000 else -((-milliseconds) / 1000)
  }

  /** `config["connectionTimeout"] as? NSNumber`: numbers, and booleans as 1 and 0, bridge to NSNumber. */
  function NumberMember(config: map<string, Value>, key: string): (r: Option<int>)
    ensures r.Some? <==> key in config && (config[key].JNumber? || config[key].JBool?)
    ensures r.Some? && config[key].JNumber? ==> r.value == config[key].num
    ensures r.Some? && config[key].JBool? ==> r.value == (if config[key].flag then 1 else 0)
  {
    if key !in config then None
    else match config[key]
      case JNumber(n) => Some(n)
      case JBool(b) => Some(if b then 1 else 0)
      case _ => None
  }

  datatype HandlerConfig = HandlerConfig(connectionTimeout: int, mimeType: Option<string>)

  /** The handler's `init`: the timeout is the configured milliseconds in whole seconds, else 10. */
  function ReadConfig(config: map<string, Value>): (r: HandlerConfig)
    ensures NumberMember(config, TimeoutKey).Some? ==> r.connectionTimeout == WholeSeconds(NumberMember(config, TimeoutKey).value)
    ensures NumberMember(config, TimeoutKey).None? ==> r.connectionTimeout == DefaultTimeoutSeconds
    ensures r.mimeType == StringMember(config, MimeTypeKey)
  {
    var timeout := NumberMember(config, TimeoutKey);
    HandlerConfig(if timeout.Some? then WholeSeconds(timeout.value) else DefaultTimeoutSeconds,
                  StringMember(config, MimeTypeKey))
  }

  /** Why the fail callback was called. */
  datatype FailReason =
    | InvalidUrl
    | MimeTypeNotExpected
    | FileAlreadyExists
    | CreateDirectoryFailed
    | ReplaceFailed
    | TaskFailed(description: string)

  /** The callbacks a handler invokes. */
  datatype Callback = Done | Fail(reason: FailReason) | Progressed(written: int, expected: int)

  /**
   * The error's `localizedDescription`: the handler's own NSErrors carry a fixed text;
   * Foundation's errors from `createDirectory` and `replaceItem` are not modelled and
   * read as "".
   */
  function Description(f: FailReason): string {
    match f
    case InvalidUrl => "Invalid URL"
    case MimeTypeNotExpected => "MIME type not expected."
    case FileAlreadyExists => "File already exists in the same path."
    case CreateDirectoryFailed => ""
    case ReplaceFailed => ""
    case TaskFailed(d) => d
  }

  /** The directory `createDirectory(withIntermediateDirectories: true)` is asked for exists afterwards. */
  predicate DirectoryReady(t: Tree, dir: Path) {
    Canon(dir) == "" || Canon(dir) == "/" || (Canon(dir) in t && t[Canon(dir)] == Dir)
  }

  /** What `didFinishDownloadingTo` leaves: the tree, and the callback it makes. */
  datatype Finished = Finished(tree: Tree, call: Callback)

  /**
   * `urlSession(_:downloadTask:didFinishDownloadingTo:)` for a download of `data` whose
   * response has MIME type `responseMime`: the checks in the order the source makes
   * them, then `replaceItem`, which puts the downloaded file at the destination where
   * a file can be created there.
   */
  function FinishSpec(t: Tree, u: set<Path>, path: Path, mimeType: Option<string>,
                      responseMime: Option<string>, data: Bytes): (r: Finished)
    ensures mimeType.Some? && responseMime.Some? && responseMime != mimeType ==> r == Finished(t, Fail(MimeTypeNotExpected))
    ensures !(mimeType.Some? && responseMime.Some? && responseMime != mimeType) && Canon(path) in t ==>
      r == Finished(t, Fail(FileAlreadyExists))
    ensures r.call.Done? || r.call.Fail?
    ensures r.call.Done? ==> Canon(path) !in t && r.tree == WithDirs(t, Canon(DeletingLastPathComponent(path)))[Canon(path) := File(data)]
    ensures r.call.Fail? && r.call.reason.ReplaceFailed? ==> forall k :: k in r.tree ==> !Within(k, Canon(path))
    ensures forall k :: k in t && !Within(k, Canon(path)) ==> k in r.tree && r.tree[k] == t[k]
  {
    if mimeType.Some? && responseMime.Some? && responseMime != mimeType then Finished(t, Fail(MimeTypeNotExpected))
    else if Canon(path) in t then Finished(t, Fail(FileAlreadyExists))
    else
      var dir := DeletingLastPathComponent(path);
      var t1 := WithDirs(t, Canon(dir));
      if !DirectoryReady(t1, dir) then Finished(t1, Fail(CreateDirectoryFailed))
      else if !CanWrite(t1, u, Canon(path)) then Finished(WithoutTree(t1, Canon(path)), Fail(ReplaceFailed))
      else Finished(t1[Canon(path) := File(data)], Done)
  }

  /**
   * `NativeDownloadHandler`: its configuration, the destination `download` sets, and
   * the callbacks made so far.
   */
  class Handler {
    const disk: Disk
    const mimeType: Option<string>
    const connectionTimeout: int
    /** Whether a progress callback was given (the OTA download passes none). */
    const reportsProgress: bool
    var downloadPath: Path
    var calls: seq<Callback>

    constructor (disk: Disk, config: map<string, Value>, reportsProgress: bool)
      ensures this.disk == disk && this.reportsProgress == reportsProgress
      ensures mimeType == ReadConfig(config).mimeType && connectionTimeout == ReadConfig(config).connectionTimeout
      ensures downloadPath == "" && calls == []
    {
      this.disk := disk;
      var c := ReadConfig(config);
      mimeType := c.mimeType;
      connectionTimeout := c.connectionTimeout;
      this.reportsProgress := reportsProgress;
      downloadPath := "";
      calls := [];
    }

    /**
     * `download(urlString, downloadPath)`. `encoded` is the URL that percent-encoding
     * and `URL(string:)` make of the text, or none; without one the fail callback is
     * made and no task starts.
     */
    method Download(urlString: string, downloadPath: Path, encoded: Option<string>) returns (started: bool)
      modifies this
      ensures this.downloadPath == downloadPath
      ensures started == encoded.Some?
      ensures calls == if started then old(calls) else old(calls) + [Fail(InvalidUrl)]
    {
      this.downloadPath := downloadPath;
      if encoded.None? {
        calls := calls + [Fail(InvalidUrl)];
        return false;
      }
      started := true;
    }

    /** `didFinishDownloadingTo`: the file is placed as `FinishSpec` says, and its callback made. */
    method DidFinishDownloading(responseMime: Option<string>, data: Bytes)
      modifies this`calls, disk
      ensures var r := FinishSpec(old(disk.tree), disk.unwritable, downloadPath, mimeType, responseMime, data);
        disk.tree == r.tree && calls == old(calls) + [r.call]
    {
      if mimeType.Some? && responseMime.Some? && responseMime != mimeType {
        calls := calls + [Fail(MimeTypeNotExpected)];
        return;
      }
      if disk.Exists(downloadPath) {
        calls := calls + [Fail(FileAlreadyExists)];
        return;
      }
      var dir := DeletingLastPathComponent(downloadPath);
      var _ := disk.Mkdirs(dir);
      if !DirectoryReady(disk.tree, dir) {
        calls := calls + [Fail(CreateDirectoryFailed)];
        return;
      }
      var replaced := disk.Write(downloadPath, data);
      if !replaced {
        var _ := disk.RemoveTree(downloadPath);
        calls := calls + [Fail(ReplaceFailed)];
        return;
      }
      calls := calls + [Done];
    }

    /** `didWriteData`: the totals go to the progress callback, when there is one. */
    method DidWriteData(totalWritten: int, totalExpected: int)
      modifies this`calls
      ensures calls == if reportsProgress then old(calls) + [Progressed(totalWritten, totalExpected)] else old(calls)
    {
      if reportsProgress {
        calls := calls + [Progressed(totalWritten, totalExpected)];
      }
    }

    /** `didCompleteWithError`: only an error makes a callback. */
    method DidComplete(error: Option<string>)
      modifies this`calls
      ensures calls == if error.Some? then old(calls) + [Fail(TaskFailed(error.value))] else old(calls)
    {
      if error.Some? {
        calls := calls + [Fail(TaskFailed(error.value))];
      }
    }
  }

  // The bridge: `NativeDownloadModule.download`.

  /** `formatMessage`: the handler's type name before the message. */
  function FormatMessage(message: string): (s: string)
    ensures |s| == |HandlerName| + 2 + |message| && s[|HandlerName| + 2..] == message
  {
    HandlerName + ": " + message
  }

  /** The first callback that is not a progress report, if any. */
  function FirstDecision(calls: seq<Callback>): (r: Option<Callback>)
    ensures r.None? <==> forall i :: 0 <= i < |calls| ==> calls[i].Progressed?
    ensures r.Some? ==> !r.value.Progressed? && r.value in calls
    decreases |calls|
  {
    if |calls| == 0 then None
    else if !calls[0].Progressed? then Some(calls[0])
    else
      var r := FirstDecision(calls[1..]);
      assert forall i :: 1 <= i < |calls| ==> calls[i] == calls[1..][i - 1];
      r
  }

  /** A decision preceded only by progress reports is the first decision. */
  lemma {:induction false} FirstDecisionAt(calls: seq<Callback>, i: nat)
    requires i < |calls| && !calls[i].Progressed?
    requires forall j :: 0 <= j < i ==> calls[j].Progressed?
    ensures FirstDecision(calls) == Some(calls[i])
    decreases i
  {
    if i > 0 {
      assert calls[0].Progressed?;
      FirstDecisionAt(calls[1..], i - 1);
    }
  }

  /** Later callbacks do not change a decision already made. */
  lemma {:induction false} FirstDecisionIgnoresLater(calls: seq<Callback>, more: seq<Callback>)
    requires FirstDecision(calls).Some?
    ensures FirstDecision(calls + more) == FirstDecision(calls)
    decreases |calls|
  {
    assert (calls + more)[0] == calls[0];
    if calls[0].Progressed? {
      assert (calls + more)[1..] == calls[1..] + more;
      FirstDecisionIgnoresLater(calls[1..], more);
    }
  }

  /**
   * The promise after the callbacks `calls`: it settles at the first done or fail
   * callback (a React Native promise ignores later ones); every failure is
   * ERROR_DOWNLOAD_FAILED with the formatted description.
   */
  function Settle(calls: seq<Callback>): (s: Settlement)
    ensures FirstDecision(calls).None? <==> s.Pending?
    ensures FirstDecision(calls) == Some(Done) <==> s == Resolved(JNull)
    ensures FirstDecision(calls).Some? && FirstDecision(calls).value.Fail? ==>
      s == Rejected(ErrorDownloadFailed, FormatMessage(Description(FirstDecision(calls).value.reason)))
  {
    match FirstDecision(calls)
    case None => Pending
    case Some(Done) => Resolved(JNull)
    case Some(Fail(f)) => Rejected(ErrorDownloadFailed, FormatMessage(Description(f)))
  }

  /** The `onProgress` payload of a progress callback. */
  function ProgressPayload(c: Callback): (m: map<string, int>)
    requires c.Progressed?
    ensures m.Keys == {"receivedBytes", "totalBytes"}
    ensures m["receivedBytes"] == c.written && m["totalBytes"] == c.expected
  {
    map["receivedBytes" := c.written, "totalBytes" := c.expected]
  }

  /** The payloads sent to `onProgress`, in order. */
  function ProgressPayloads(calls: seq<Callback>): (ps: seq<map<string, int>>)
    ensures |ps| <= |calls|
    decreases |calls|
  {
    if |calls| == 0 then []
    else
      var rest := ProgressPayloads(calls[1..]);
      if calls[0].Progressed? then [ProgressPayload(calls[0])] + rest else rest
  }

  /**
   * `NativeDownloadModule.download(url, downloadPath, config, …)`: the handler is
   * made with a progress callback and asked to download; the promise stays pending
   * unless the URL was refused at once.
   */
  method Download(disk: Disk, url: string, downloadPath: Path, config: map<string, Value>, encoded: Option<string>)
    returns (handler: Handler, settlement: Settlement)
    ensures fresh(handler) && handler.disk == disk && handler.reportsProgress
    ensures handler.downloadPath == downloadPath
    ensures handler.mimeType == ReadConfig(config).mimeType && handler.connectionTimeout == ReadConfig(config).connectionTimeout
    ensures settlement == Settle(handler.calls)
    ensures encoded.None? <==> settlement == Rejected(ErrorDownloadFailed, FormatMessage("Invalid URL"))
    ensures encoded.Some? ==> settlement.Pending?
  {
    handler := new Handler(disk, config, true);
    var _ := handler.Download(url, downloadPath, encoded);
    settlement := Settle(handler.calls);
  }

  // The two platforms side by side.

  /**
   * An existing file at the destination is never touched. Android refuses before any
   * request (FileAlreadyExistsException, which the bridge does not settle), while iOS
   * downloads first and then fails the promise.
   */
  lemma ExistingTargetKept(t: Tree, u: set<Path>, path: Path, url: string, isHttpUrl: string -> bool,
                           mimeType: Option<string>, responseMime: Option<string>,
                           data: Bytes, parseMediaType: string -> Option<string>, x: DownloadAndroid.Exchange)
    requires Canon(path) in t
    requires DownloadAndroid.WellFormed(x)
    ensures FinishSpec(t, u, path, mimeType, responseMime, data).tree == t
    ensures FinishSpec(t, u, path, mimeType, responseMime, data).call.Fail?
    ensures DownloadAndroid.DownloadSpec(t, u, path, url, isHttpUrl, mimeType, parseMediaType, x) ==
      DownloadAndroid.Downloaded(DownloadAndroid.Threw(DownloadAndroid.AlreadyExists), t, [])
    ensures DownloadAndroid.SettlementOf(DownloadAndroid.Threw(DownloadAndroid.AlreadyExists)).Pending?
  {
  }

  /**
   * When the destination is free and a file can be created, both platforms store the
   * downloaded bytes at it; iOS checks the MIME type only when the response names one.
   */
  lemma FinishStoresDownload(t: Tree, u: set<Path>, path: Path, mimeType: Option<string>, responseMime: Option<string>, data: Bytes)
    requires Canon(path) !in t
    requires mimeType.None? || responseMime.None? || responseMime == mimeType
    requires DirectoryReady(WithDirs(t, Canon(DeletingLastPathComponent(path))), DeletingLastPathComponent(path))
    requires CanWrite(WithDirs(t, Canon(DeletingLastPathComponent(path))), u, Canon(path))
    ensures var r := FinishSpec(t, u, path, mimeType, responseMime, data);
      r.call == Done && Canon(path) in r.tree && r.tree[Canon(path)] == File(data)
  {
  }
}
