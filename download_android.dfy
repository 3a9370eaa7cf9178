/**
 * Android's download path: `downloadFile`, the progress invoker and
 * `DownloadResponseHandler.handle` (DownloadHelper.kt), and the bridge method of
 * NativeDownloadModule.kt, whose two copies (the current module and the legacy
 * `mendixnative` one) read the config and classify failures identically.
 *
 * The HTTP exchange is not performed: what OkHttp hands the callback is a parameter,
 * an `Exchange`. The whole download is specified by `DownloadSpec`, a function of the
 * tree and the exchange; the methods perform it on a `Disk` and are proved to end
 * where it says.
 */
module DownloadAndroid {
  import opened Wrappers
  import opened Json
  import opened FileTree
  import opened Platform
  import FileBackend

  // Progress throttling: `makeProgressCallbackInvoker`.

  /** One `(receivedBytes, totalBytes)` report; the source's doubles are reals here. */
  datatype Progress = Progress(received: real, total: real)

  /**
   * The invoker's state after it has been handed `reports` in order: the threshold
   * `invokeNext` (initially the interval) and the reports it passed on to the callback.
   * A report is passed on when it reaches the threshold, which then moves to that
   * report plus the interval.
   */
  function Throttle(interval: real, reports: seq<Progress>): (s: (real, seq<Progress>))
    decreases |reports|
  {
    if |reports| == 0 then (interval, [])
    else
      var prior := Throttle(interval, reports[..|reports| - 1]);
      var p := reports[|reports| - 1];
      if p.received >= prior.0 then (p.received + interval, prior.1 + [p]) else prior
  }

  /**
   * What the throttle guarantees: the callback sees only reports that were made, each
   * at least one interval beyond the one before, and the threshold sits one interval
   * beyond the last report passed on.
   */
  lemma {:induction false} ThrottleSpaced(interval: real, reports: seq<Progress>)
    ensures |Throttle(interval, reports).1| == 0 ==> Throttle(interval, reports).0 == interval
    ensures |Throttle(interval, reports).1| > 0 ==>
      Throttle(interval, reports).0 == Throttle(interval, reports).1[|Throttle(interval, reports).1| - 1].received + interval
    ensures forall i :: 0 < i < |Throttle(interval, reports).1| ==>
      Throttle(interval, reports).1[i].received >= Throttle(interval, reports).1[i - 1].received + interval
    ensures forall p :: p in Throttle(interval, reports).1 ==> p in reports
    ensures |Throttle(interval, reports).1| <= |reports|
    decreases |reports|
  {
    if |reports| > 0 {
      var front := reports[..|reports| - 1];
      ThrottleSpaced(interval, front);
      assert forall p :: p in front ==> p in reports;
    }
  }

  /** With an interval of zero or less, a non-negative, non-decreasing run of reports is passed on entirely. */
  lemma {:induction false} ThrottlePassesAllWhenIntervalNonPositive(interval: real, reports: seq<Progress>)
    requires interval <= 0.0
    requires forall i :: 0 <= i < |reports| ==> reports[i].received >= 0.0
    requires forall i, j :: 0 <= i < j < |reports| ==> reports[i].received <= reports[j].received
    ensures Throttle(interval, reports).1 == reports
    decreases |reports|
  {
    if |reports| > 0 {
      var front := reports[..|reports| - 1];
      ThrottlePassesAllWhenIntervalNonPositive(interval, front);
      ThrottleSpaced(interval, front);
      assert reports == front + [reports[|reports| - 1]];
    }
  }

  /** The closure `makeProgressCallbackInvoker` returns, with its captured `invokeNext`. */
  class ProgressInvoker {
    const interval: real
    var invokeNext: real
    /** The reports passed on to the callback, in order. */
    var passedOn: seq<Progress>
    /** Every report handed to the invoker, in order. */
    ghost var reports: seq<Progress>

    ghost predicate Valid()
      reads this
    {
      (invokeNext, passedOn) == Throttle(interval, reports)
    }

    constructor (bytesInterval: real)
      ensures interval == bytesInterval && invokeNext == bytesInterval
      ensures passedOn == [] && reports == [] && Valid()
    {
      interval := bytesInterval;
      invokeNext := bytesInterval;
      passedOn := [];
      reports := [];
    }

    /** One call of the closure; `called` tells whether it invoked the callback. */
    method Invoke(receivedBytes: real, totalBytes: real) returns (called: bool)
      requires Valid()
      modifies this
      ensures Valid() && reports == old(reports) + [Progress(receivedBytes, totalBytes)]
      ensures called == (receivedBytes >= old(invokeNext))
      ensures invokeNext == if called then receivedBytes + interval else old(invokeNext)
      ensures passedOn == if called then old(passedOn) + [Progress(receivedBytes, totalBytes)] else old(passedOn)
    {
      reports := reports + [Progress(receivedBytes, totalBytes)];
      assert reports[..|reports| - 1] == old(reports);
      called := receivedBytes >= invokeNext;
      if called {
        invokeNext := receivedBytes + interval;
        passedOn := passedOn + [Progress(receivedBytes, totalBytes)];
      }
    }
  }

  // The exchange and the response.

  /**
   * The exceptions the download path raises, by Kotlin class. `AlreadyExists` is
   * kotlin.io's FileAlreadyExistsException and `Connect` java.net's ConnectException,
   * both IOExceptions; NoDataException and FileCorruptionException are
   * IllegalStateExceptions and DownloadMimeTypeException a RuntimeException.
   * `InvalidUrl` is the IllegalArgumentException OkHttp's `Request.Builder.url`
   * throws for a URL that is not an http or https URL.
   */
  datatype Failure =
    | MimeTypeMismatch
    | AlreadyExists
    | NoData
    | Corruption
    | Connect
    | OtherIo
    | Security
    | InvalidUrl
    | Unexpected

  predicate IsIOException(f: Failure) {
    f.AlreadyExists? || f.Connect? || f.OtherIo?
  }

  /**
   * A response body. `contentType` is the parsed media type OkHttp reports, `fault`
   * the number of the `read()` call (counting from 0) that throws an IOException, if
   * one does, and `available` the estimate `available()` gives after a number of reads.
   */
  datatype Body = Body(
    contentType: Option<string>,
    contentLength: int,
    bytes: Bytes,
    fault: Option<nat>,
    available: nat -> nat)

  datatype Response = Response(successful: bool, body: Option<Body>)

  /** What OkHttp hands the callback: `onFailure` with an IOException, or `onResponse`. */
  datatype Exchange = TransportFailed(error: Failure) | Responded(response: Response)

  /** OkHttp's `onFailure` receives a connection or other I/O failure. */
  predicate WellFormed(x: Exchange) {
    x.TransportFailed? ==> x.error.Connect? || x.error.OtherIo?
  }

  function Abs(x: real): (r: real)
    ensures r >= 0.0 && (r == x || r == -x)
  {
    if x < 0.0 then -x else x
  }

  /** `receivedBytes` after loop iteration `j`: reads `0 .. j + 1` have been made. */
  function Received(b: Body, j: nat): (r: real)
    ensures r == Abs(b.available(j + 2) as real - b.contentLength as real)
  {
    Abs(b.available(j + 2) as real - b.contentLength as real)
  }

  /** The reports of the first `m` loop iterations. */
  function Reports(b: Body, m: nat): (rs: seq<Progress>)
    ensures |rs| == m
    ensures forall j :: 0 <= j < m ==> rs[j] == Progress(Received(b, j), b.contentLength as real)
  {
    seq(m, j requires 0 <= j => Progress(Received(b, j), b.contentLength as real))
  }

  /** One of the `|bytes| + 1` reads (the last one reports the end) throws. */
  predicate StreamFails(b: Body) {
    b.fault.Some? && b.fault.value <= |b.bytes|
  }

  /** The loop iterations that run to the progress call: all of them, or those before the failing read. */
  function CompletedIterations(b: Body): (m: nat)
    ensures m <= |b.bytes|
    ensures !StreamFails(b) ==> m == |b.bytes|
    ensures StreamFails(b) && b.fault.value > 0 ==> m == b.fault.value - 1
  {
    if !StreamFails(b) then |b.bytes|
    else if b.fault.value == 0 then 0
    else b.fault.value - 1
  }

  /** The reports the callback receives while the body is read. */
  function PassedOn(b: Body): seq<Progress> {
    Throttle(b.contentLength as real / 100.0, Reports(b, CompletedIterations(b))).1
  }

  /** `expectedMimeType != null && mediaType != expectedMimeType.toMediaTypeOrNull()`. */
  predicate MimeMismatch(b: Body, expected: Option<string>, parseMediaType: string -> Option<string>) {
    expected.Some? && b.contentType != parseMediaType(expected.value)
  }

  datatype Handled = Handled(thrown: Option<Failure>, tree: Tree, progress: seq<Progress>)

  /**
   * `DownloadResponseHandler.handle()` on a tree where the output file exists: the
   * response checks, then the output stream opened over the file, the body copied with
   * the progress calls, and the stream flushed; whatever throws deletes the output file.
   */
  function HandleSpec(t: Tree, u: set<Path>, path: Path, expected: Option<string>,
                      parseMediaType: string -> Option<string>, r: Response): (h: Handled)
    ensures !r.successful ==> h.thrown == Some(Connect)
    ensures r.successful && r.body.None? ==> h.thrown == Some(NoData)
    ensures r.successful && r.body.Some? && MimeMismatch(r.body.value, expected, parseMediaType) ==>
      h.thrown == Some(MimeTypeMismatch) && h.progress == []
    ensures h.thrown.Some? && IsFileIn(t, Canon(path)) ==> Canon(path) !in h.tree
    ensures forall k :: k != Canon(path) ==> (k in h.tree <==> k in t) && (k in t ==> h.tree[k] == t[k])
    ensures h.thrown.None? ==>
      r.successful && r.body.Some? && !MimeMismatch(r.body.value, expected, parseMediaType) &&
      !StreamFails(r.body.value) && h.tree == t[Canon(path) := File(r.body.value.bytes)] &&
      h.progress == PassedOn(r.body.value)
    ensures h.thrown.Some? ==> h.thrown.value in {Connect, NoData, MimeTypeMismatch, OtherIo}
  {
    var c := Canon(path);
    if !r.successful then Handled(Some(Connect), FileBackend.DeleteSpec(t, path), [])
    else if r.body.None? then Handled(Some(NoData), FileBackend.DeleteSpec(t, path), [])
    else
      var b := r.body.value;
      if MimeMismatch(b, expected, parseMediaType) then Handled(Some(MimeTypeMismatch), FileBackend.DeleteSpec(t, path), [])
      else if !CanWrite(t, u, c) then Handled(Some(OtherIo), FileBackend.DeleteSpec(t, path), [])
      else
        var truncated := t[c := File([])];
        if StreamFails(b) then Handled(Some(OtherIo), FileBackend.DeleteSpec(truncated, path), PassedOn(b))
        else if !CanWrite(truncated, u, c) then Handled(Some(OtherIo), FileBackend.DeleteSpec(truncated, path), PassedOn(b))
        else Handled(None, truncated[c := File(b.bytes)], PassedOn(b))
  }

  /** How `downloadFile` ended: it threw before enqueuing, or called `onSuccess` or `onFailure`. */
  datatype Outcome = Threw(error: Failure) | Succeeded | Failed(error: Failure)

  datatype Downloaded = Downloaded(outcome: Outcome, tree: Tree, progress: seq<Progress>)

  /**
   * `downloadFile(client, url, path, expectedMimeType, …)`: an existing target throws
   * at once; otherwise the parent directories and an empty file are created, the
   * request is built (`isHttpUrl` tells whether OkHttp accepts the URL; when it does
   * not, the builder throws and the empty file stays), the request is enqueued, and
   * its callback decides.
   */
  function DownloadSpec(t: Tree, u: set<Path>, path: Path, url: string, isHttpUrl: string -> bool,
                        expected: Option<string>, parseMediaType: string -> Option<string>,
                        x: Exchange): (d: Downloaded)
    requires WellFormed(x)
    ensures Canon(path) in t ==> d == Downloaded(Threw(AlreadyExists), t, [])
    ensures d.outcome.Threw? && Canon(path) !in t ==> d.outcome.error == OtherIo || d.outcome.error == InvalidUrl
    ensures d.outcome == Threw(InvalidUrl) ==>
      !isHttpUrl(url) && Canon(path) in d.tree && d.tree[Canon(path)] == File([])
    ensures !isHttpUrl(url) ==> d.outcome.Threw? && d.progress == []
    ensures d.outcome.Failed? ==> !d.outcome.error.AlreadyExists?
    ensures d.outcome.Failed? && x.Responded? ==> Canon(path) !in d.tree
    ensures d.outcome.Failed? && x.TransportFailed? ==>
      d.outcome.error == x.error && Canon(path) in d.tree && d.tree[Canon(path)] == File([])
    ensures d.outcome.Succeeded? ==>
      x.Responded? && x.response.successful && x.response.body.Some? &&
      Canon(path) in d.tree && d.tree[Canon(path)] == File(x.response.body.value.bytes) &&
      d.progress == PassedOn(x.response.body.value)
    ensures forall k :: k in t && k != Canon(path) ==> k in d.tree && d.tree[k] == t[k]
  {
    var c := Canon(path);
    if c in t then Downloaded(Threw(AlreadyExists), t, [])
    else
      var t1 := FileBackend.MkParent(t, path);
      if !CanWrite(t1, u, c) then Downloaded(Threw(OtherIo), t1, [])
      else
        var created := t1[c := File([])];
        if !isHttpUrl(url) then Downloaded(Threw(InvalidUrl), created, [])
        else
        match x
        case TransportFailed(e) => Downloaded(Failed(e), created, [])
        case Responded(r) =>
          var h := HandleSpec(created, u, path, expected, parseMediaType, r);
          assert created[c := File([])] == created;
          Downloaded(if h.thrown.Some? then Failed(h.thrown.value) else Succeeded, h.tree, h.progress)
  }

  /**
   * The copy loop of `handle`: the first `read()`, then for every byte a `write`, the
   * next `read()` and a progress call through a fresh invoker at one hundredth of the
   * content length. `failed` tells whether a read threw.
   */
  method CopyBody(b: Body) returns (output: Bytes, failed: bool, passedOn: seq<Progress>)
    ensures failed == StreamFails(b)
    ensures !failed ==> output == b.bytes
    ensures passedOn == PassedOn(b)
  {
    var totalBytes := b.contentLength as real;
    var invoker := new ProgressInvoker(totalBytes / 100.0);
    output := [];
    failed := false;
    if b.fault == Some(0) {
      failed := true;
    } else {
      var i := 0;
      while i < |b.bytes|
        invariant 0 <= i <= |b.bytes|
        invariant output == b.bytes[..i]
        invariant b.fault.None? || b.fault.value > i
        invariant invoker.Valid() && invoker.interval == totalBytes / 100.0
        invariant invoker.reports == Reports(b, i)
        decreases |b.bytes| - i
      {
        output := output + [b.bytes[i]];
        if b.fault == Some(i + 1) {
          failed := true;
          break;
        }
        i := i + 1;
        assert Reports(b, i) == Reports(b, i - 1) + [Progress(Received(b, i - 1), totalBytes)];
        var _ := invoker.Invoke(Received(b, i - 1), totalBytes);
      }
      assert !failed ==> output == b.bytes;
      assert CompletedIterations(b) == i;
    }
    passedOn := invoker.passedOn;
  }

  /** `DownloadResponseHandler(response, expectedMimeType, outputFile, progressCallback).handle()`. */
  method Handle(disk: Disk, path: Path, expected: Option<string>, parseMediaType: string -> Option<string>,
                r: Response) returns (thrown: Option<Failure>, progress: seq<Progress>)
    modifies disk
    ensures Handled(thrown, disk.tree, progress) == HandleSpec(old(disk.tree), disk.unwritable, path, expected, parseMediaType, r)
  {
    progress := [];
    if !r.successful {
      thrown := Some(Connect);
    } else if r.body.None? {
      thrown := Some(NoData);
    } else if MimeMismatch(r.body.value, expected, parseMediaType) {
      thrown := Some(MimeTypeMismatch);
    } else {
      var b := r.body.value;
      var truncated := disk.Write(path, []);
      if !truncated {
        thrown := Some(OtherIo);
      } else {
        var output, failed;
        output, failed, progress := CopyBody(b);
        if failed {
          thrown := Some(OtherIo);
        } else {
          var flushed := disk.Write(path, output);
          thrown := if flushed then None else Some(OtherIo);
        }
      }
    }
    if thrown.Some? {
      var _ := disk.Delete(path);
    }
  }

  /** `downloadFile`: the outcome, and the progress reports its callback received. */
  method DownloadFile(disk: Disk, path: Path, url: string, isHttpUrl: string -> bool, expected: Option<string>,
                      parseMediaType: string -> Option<string>, x: Exchange) returns (outcome: Outcome, progress: seq<Progress>)
    requires WellFormed(x)
    modifies disk
    ensures Downloaded(outcome, disk.tree, progress) ==
      DownloadSpec(old(disk.tree), disk.unwritable, path, url, isHttpUrl, expected, parseMediaType, x)
  {
    progress := [];
    if disk.Exists(path) {
      return Threw(AlreadyExists), [];
    }
    var parent := ParentOf(Canon(path));
    if parent.Some? {
      var _ := disk.Mkdirs(parent.value);
    }
    var created := disk.Write(path, []);
    if !created {
      return Threw(OtherIo), [];
    }
    if !isHttpUrl(url) {
      return Threw(InvalidUrl), [];
    }
    match x
    case TransportFailed(e) => {
      outcome := Failed(e);
    }
    case Responded(r) => {
      var thrown;
      thrown, progress := Handle(disk, path, expected, parseMediaType, r);
      outcome := if thrown.Some? then Failed(thrown.value) else Succeeded;
    }
  }

  // NativeDownloadModule.

  const TimeoutKey: string := "connectionTimeout"
  const MimeTypeKey: string := "mimeType"
  const DefaultTimeout: int := 10000

  const DownloadProgressEvent: string := "NDM_DOWNLOAD_PROGRESS_EVENT"
  const ErrorDownloadFailed: string := "ERROR_DOWNLOAD_FAILED"
  const FileAlreadyExists: string := "FILE_ALREADY_EXISTS"
  const ErrorConnectionFailed: string := "ERROR_CONNECTION_FAILED"
  const FsAccessException: string := "FS_ACCESS_EXCEPTION"
  const IoException: string := "IO_EXCEPTION"

  /** The largest Java `int`; `ReadableMap.getInt` narrows a number to it. */
  const IntMax: int := 0x7fff_ffff

  datatype DownloadConfig = DownloadConfig(timeoutMillis: int, mimeType: Option<string>)

  /** `getInt`'s narrowing of a number to a Java `int`, which saturates at the top. */
  function ToJavaInt(n: int): (r: int)
    ensures r <= IntMax && (r == n || (n > IntMax && r == IntMax))
  {
    if n > IntMax then IntMax else n
  }

  /** A timeout `getInt` reads and OkHttp's `connectTimeout` accepts: a number that is not negative. */
  predicate TimeoutAccepted(config: map<string, Value>) {
    TimeoutKey in config ==> config[TimeoutKey].JNumber? && config[TimeoutKey].num >= 0
  }

  /** A MIME type `getString` reads: absent, a string or null. */
  predicate MimeTypeReadable(config: map<string, Value>) {
    MimeTypeKey in config ==> config[MimeTypeKey].JString? || config[MimeTypeKey].JNull?
  }

  /**
   * The config `download` reads before it calls `downloadFile`: `connectionTimeout`
   * (10000 ms when absent) and `mimeType` (none when absent or null). None when one
   * of the reads throws: `getInt` on a timeout that is not a number, `connectTimeout`
   * on a negative one, or `getString` on a MIME type that is neither a string nor null.
   */
  function ReadConfig(config: map<string, Value>): (r: Option<DownloadConfig>)
    ensures r.Some? <==> TimeoutAccepted(config) && MimeTypeReadable(config)
    ensures r.Some? && TimeoutKey !in config ==> r.value.timeoutMillis == DefaultTimeout
    ensures r.Some? && TimeoutKey in config ==> r.value.timeoutMillis == ToJavaInt(config[TimeoutKey].num)
    ensures r.Some? ==> 0 <= r.value.timeoutMillis <= IntMax
    ensures r.Some? ==> r.value.mimeType == StringMember(config, MimeTypeKey)
    ensures r.Some? && MimeTypeKey !in config ==> r.value.mimeType.None?
  {
    if !TimeoutAccepted(config) || !MimeTypeReadable(config) then None
    else
      var timeout := if TimeoutKey in config then ToJavaInt(config[TimeoutKey].num) else DefaultTimeout;
      var mimeType := if MimeTypeKey in config then StringMember(config, MimeTypeKey) else None;
      Some(DownloadConfig(timeout, mimeType))
  }

  /**
   * The `when (e)` of the failure callback: the first branch whose class `e` belongs
   * to, in source order. ConnectException is an IOException, so the IOException
   * branch, which comes first, takes it.
   */
  function Classify(f: Failure): (s: Settlement)
    ensures s.Rejected?
    ensures s.code == FileAlreadyExists <==> f.AlreadyExists?
    ensures s.code == ErrorConnectionFailed <==> f.NoData?
    ensures s.code == FsAccessException <==> f.Security?
    ensures s.code == IoException <==> f.Corruption? || f.Connect? || f.OtherIo?
    ensures s.code == ErrorDownloadFailed <==> f.MimeTypeMismatch? || f.InvalidUrl? || f.Unexpected?
    ensures f.Connect? ==> s == Rejected(IoException, "IO exception")
  {
    if f.MimeTypeMismatch? then Rejected(ErrorDownloadFailed, "Mime type check failed")
    else if f.AlreadyExists? then Rejected(FileAlreadyExists, "File already exists")
    else if f.NoData? then Rejected(ErrorConnectionFailed, "No data found")
    else if f.Corruption? then Rejected(IoException, "File corrupted")
    else if IsIOException(f) then Rejected(IoException, "IO exception")
    else if f.Security? then Rejected(FsAccessException, "Access to filesystem denied")
    else if f.Connect? then Rejected(ErrorDownloadFailed, "Failed to connect to endpoint")
    else Rejected(ErrorDownloadFailed, "Failed to download file")
  }

  /** The promise after `downloadFile`: an exception thrown before enqueuing escapes and leaves it unsettled. */
  function SettlementOf(o: Outcome): (s: Settlement)
    ensures o.Threw? <==> s.Pending?
    ensures o.Succeeded? <==> s == Resolved(JNull)
    ensures o.Failed? ==> s == Classify(o.error)
  {
    match o
    case Threw(_) => Pending
    case Succeeded => Resolved(JNull)
    case Failed(e) => Classify(e)
  }

  /** The event `postProgressEvent` emits. */
  datatype EmittedEvent = EmittedEvent(name: string, params: map<string, real>)

  function ProgressEvent(p: Progress): (e: EmittedEvent)
    ensures e.name == DownloadProgressEvent
    ensures e.params.Keys == {"receivedBytes", "totalBytes"}
    ensures e.params["receivedBytes"] == p.received && e.params["totalBytes"] == p.total
  {
    EmittedEvent(DownloadProgressEvent, map["receivedBytes" := p.received, "totalBytes" := p.total])
  }

  /**
   * No download is ever rejected with FILE_ALREADY_EXISTS: an existing target makes
   * `downloadFile` throw before any callback, which leaves the promise unsettled.
   */
  lemma NeverRejectsAlreadyExists(t: Tree, u: set<Path>, path: Path, url: string, isHttpUrl: string -> bool,
                                  expected: Option<string>, parseMediaType: string -> Option<string>, x: Exchange)
    requires WellFormed(x)
    ensures SettlementOf(DownloadSpec(t, u, path, url, isHttpUrl, expected, parseMediaType, x).outcome) !=
      Rejected(FileAlreadyExists, "File already exists")
    ensures Canon(path) in t ==> SettlementOf(DownloadSpec(t, u, path, url, isHttpUrl, expected, parseMediaType, x).outcome) == Pending
  {
    var d := DownloadSpec(t, u, path, url, isHttpUrl, expected, parseMediaType, x);
    if d.outcome.Failed? {
      assert !d.outcome.error.AlreadyExists?;
    }
  }

  /**
   * `NativeDownloadModule.download(url, downloadPath, config, promise)`: the
   * settlement and the progress events emitted. An unreadable config throws before
   * anything happens; a URL OkHttp refuses throws after the empty target is created.
   */
  method Download(disk: Disk, url: string, path: Path, config: map<string, Value>, isHttpUrl: string -> bool,
                  parseMediaType: string -> Option<string>, x: Exchange) returns (settlement: Settlement, events: seq<EmittedEvent>)
    requires WellFormed(x)
    modifies disk
    ensures ReadConfig(config).None? ==> settlement == Pending && events == [] && disk.tree == old(disk.tree)
    ensures ReadConfig(config).Some? && !isHttpUrl(url) ==> settlement == Pending && events == []
    ensures ReadConfig(config).Some? ==>
      var d := DownloadSpec(old(disk.tree), disk.unwritable, path, url, isHttpUrl, ReadConfig(config).value.mimeType, parseMediaType, x);
      settlement == SettlementOf(d.outcome) && disk.tree == d.tree &&
      |events| == |d.progress| && forall i :: 0 <= i < |events| ==> events[i] == ProgressEvent(d.progress[i])
  {
    var cfg := ReadConfig(config);
    if cfg.None? {
      return Pending, [];
    }
    var outcome, progress := DownloadFile(disk, path, url, isHttpUrl, cfg.value.mimeType, parseMediaType, x);
    settlement := SettlementOf(outcome);
    events := seq(|progress|, i requires 0 <= i < |progress| => ProgressEvent(progress[i]));
  }
}
