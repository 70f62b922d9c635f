/** The download controller of internal/downloader/downloader.go, run sequentially.

    HTTP, the file system, `io.CopyN` and the lifecycle callbacks are replaced by values the
    caller supplies: an `Environment` says what the HEAD and GET requests answer, whether the
    directory and the file can be created, and what each iteration of the copy loop sees (one
    `Block` per iteration). Every callback the controller invokes is recorded as an `Event` in
    the ghost `trace` of the `Downloader`; the error a callback returns is an argument ("hook").
    The concurrency slot is a no-op and goroutines run to completion one after the other. */
module Downloader {
  import opened Common
  import opened Chunks

  /** Bytes requested from `io.CopyN` per iteration of the copy loop. */
  const BlockSize: int := 32 * 1024
  const StatusOK: int := 200

  datatype Error =
    | HeadFailed              // http.Head could not be sent
    | BadStatus(status: int)  // HEAD or GET answered something other than 200
    | MkdirFailed             // the download directory could not be created
    | CreateFailed            // the destination file could not be created
    | GetFailed               // http.Get could not be sent
    | DownloadCancelled       // the cancel channel fired ("téléchargement annulé")
    | WriteFailed             // io.CopyN failed with an error other than io.EOF
    | HookFailed(reason: string)  // an error returned by a lifecycle callback

  /** What an HTTP request returns: a transport error, or a status and a content length
      (-1 when the server does not say). */
  datatype Response = TransportError | Response(status: int, contentLength: int)

  /** How one `io.CopyN(out, reader, 32 KiB)` call ended. */
  datatype CopyEnd = Full | EndOfStream | CopyError
  datatype Block = Block(n: int, end: CopyEnd)

  /** `io.CopyN` copies at most the requested count and returns no error exactly when it
      copied all of it. */
  predicate ValidBlock(b: Block) {
    0 <= b.n <= BlockSize && (b.end == Full <==> b.n == BlockSize)
  }

  predicate ValidTicks(ticks: seq<Block>) {
    forall i :: 0 <= i < |ticks| ==> ValidBlock(ticks[i])
  }

  datatype Environment = Environment(
    head: Response,
    onAdded: Option<Error>,
    mkdir: Option<Error>,
    create: Option<Error>,
    get: Response,
    ticks: seq<Block>,
    onComplete: Option<Error>)

  /** A callback invocation or a visible side effect, in the order it happened. A progress
      report carries the numerator and denominator of the reported fraction. */
  datatype Event =
    | Added(url: string, totalSize: int)
    | FileCreated(url: string)
    | Requested(url: string)
    | Progress(url: string, done: int, total: int)
    | Completed(url: string)
    | Paused(url: string)
    | Resumed(url: string)
    | Relaunched(url: string)
    | Cancelled(url: string)
    | Deleted(url: string, deleteFile: bool)
    | ErrorReported(url: string, err: Error)

  /** The end of a `Download` call: the error it returned, or still inside the copy loop when
      the supplied iterations ran out (the source would keep looping). */
  datatype Outcome = Returned(err: Option<Error>) | StillRunning

  /** The copy loop with nobody pausing or cancelling in between: the paused flag stays as it
      was when the loop started, and the fresh cancel channel never fires. */
  function LoopOutcome(paused: bool, totalSize: int, downloaded: int, ticks: seq<Block>): Outcome
    decreases |ticks|
  {
    if ticks == [] then StillRunning
    else if paused then LoopOutcome(paused, totalSize, downloaded, ticks[1..])
    else if ticks[0].end == CopyError then Returned(Some(WriteFailed))
    else if downloaded + ticks[0].n >= totalSize then Returned(None)
    else LoopOutcome(paused, totalSize, downloaded + ticks[0].n, ticks[1..])
  }

  /** What a whole `Download` call returns when it runs alone. The total size comes from the
      HEAD answer; the callbacks' errors do not appear: the source discards them. */
  function DownloadOutcome(env: Environment, paused: bool): Outcome
  {
    match env.head
    case TransportError => Returned(Some(HeadFailed))
    case Response(status, totalSize) =>
      if status != StatusOK then Returned(Some(BadStatus(status)))
      else if env.mkdir.Some? then Returned(Some(MkdirFailed))
      else if env.create.Some? then Returned(Some(CreateFailed))
      else match env.get
        case TransportError => Returned(Some(GetFailed))
        case Response(getStatus, _) =>
          if getStatus != StatusOK then Returned(Some(BadStatus(getStatus)))
          else LoopOutcome(paused, totalSize, 0, env.ticks)
  }

  /** The callbacks made before the copy loop starts: `OnDownloadAdded` once HEAD succeeded,
      then the creation of the destination file, then the GET request. */
  function EntryEvents(url: string, env: Environment): seq<Event>
  {
    match env.head
    case TransportError => []
    case Response(status, totalSize) =>
      if status != StatusOK then []
      else (
        [Added(url, totalSize)]
        + (if env.mkdir.Some? || env.create.Some? then [] else [FileCreated(url), Requested(url)]))
  }

  predicate GetSucceeded(env: Environment)
  {
    env.head.Response? && env.head.status == StatusOK && env.mkdir.None? && env.create.None?
    && env.get.Response? && env.get.status == StatusOK
  }

  function SumN(ticks: seq<Block>): int
  {
    if ticks == [] then 0 else ticks[0].n + SumN(ticks[1..])
  }

  /** A loop that finds its download paused never ends on its own. */
  lemma {:induction false} PausedLoopNeverEnds(totalSize: int, downloaded: int, ticks: seq<Block>)
    ensures LoopOutcome(true, totalSize, downloaded, ticks) == StillRunning
  {
    if ticks != [] {
      PausedLoopNeverEnds(totalSize, downloaded, ticks[1..]);
    }
  }

  /** Without copy errors and with at least one iteration, the loop ends normally exactly when
      the blocks bring the running count up to the total size, and otherwise is still
      running; it never returns an error. */
  lemma {:induction false} LoopCompletesIff(totalSize: int, downloaded: int, ticks: seq<Block>)
    requires ticks != [] && ValidTicks(ticks)
    requires forall i :: 0 <= i < |ticks| ==> ticks[i].end != CopyError
    ensures LoopOutcome(false, totalSize, downloaded, ticks) == Returned(None) <==> downloaded + SumN(ticks) >= totalSize
    ensures LoopOutcome(false, totalSize, downloaded, ticks) != Returned(None) ==> LoopOutcome(false, totalSize, downloaded, ticks) == StillRunning
    decreases |ticks|
  {
    var d := downloaded + ticks[0].n;
    if d < totalSize {
      if ticks[1..] == [] {
        assert SumN(ticks) == ticks[0].n;
      } else {
        assert ValidTicks(ticks[1..]);
        LoopCompletesIff(totalSize, d, ticks[1..]);
      }
    } else {
      SumNNonNegative(ticks[1..]);
    }
  }

  lemma {:induction false} SumNNonNegative(ticks: seq<Block>)
    requires ValidTicks(ticks)
    ensures SumN(ticks) >= 0
  {
    if ticks != [] {
      assert ValidTicks(ticks[1..]);
      SumNNonNegative(ticks[1..]);
    }
  }

  /** With a total size of 0 or less (a server that sends no length reports -1) the loop ends
      after its first copy, whatever the stream still holds: the file keeps at most 32 KiB. */
  lemma NonPositiveTotalEndsAfterFirstCopy(totalSize: int, ticks: seq<Block>)
    requires totalSize <= 0 && ticks != [] && ValidBlock(ticks[0])
    ensures LoopOutcome(false, totalSize, 0, ticks)
      == if ticks[0].end == CopyError then Returned(Some(WriteFailed)) else Returned(None)
  {
  }

  /** A failed or refused HEAD request ends the call before anything else happens. */
  lemma HeadFailureComesFirst(env: Environment, paused: bool)
    requires env.head.TransportError? || env.head.status != StatusOK
    ensures DownloadOutcome(env, paused).Returned? && DownloadOutcome(env, paused).err.Some?
    ensures forall url :: EntryEvents(url, env) == []
  {
  }

  /** The unbuffered channel of `cancelDownloads`: closed by `CancelDownload`, or holding the
      value that `DeleteDownload` sends until the copy loop receives it. */
  class Channel {
    var closed: bool
    var pendingSend: bool

    constructor ()
      ensures !closed && !pendingSend
    {
      closed, pendingSend := false, false;
    }

    predicate Ready()
      reads this
    {
      closed || pendingSend
    }
  }

  /** The reader wrapped around the response body: it counts the bytes that pass and reports
      the fraction read/total through the progress callback of its downloader. */
  class ProgressReader {
    const owner: Downloader
    const url: string
    const total: int
    var read: int

    constructor (owner: Downloader, url: string, total: int)
      ensures this.owner == owner && this.url == url && this.total == total && read == 0
    {
      this.owner, this.url, this.total := owner, url, total;
      read := 0;
    }

    /** One read of the wrapped stream that returned `n` bytes. */
    method Read(n: int)
      modifies this, owner`trace
      ensures read == old(read) + n
      ensures owner.trace == old(owner.trace) + [Progress(url, read, total)]
    {
      read := read + n;
      owner.trace := owner.trace + [Progress(url, read, total)];
    }
  }

  /** How one iteration of the copy loop ends: `continue`, `break` out of the `for`, or return
      an error. */
  datatype StepResult = Continue | Exit | Abort(err: Error)

  /** The local state of one `Download` call once the GET succeeded: the copy loop. */
  class TransferLoop {
    const owner: Downloader
    const url: string
    const cancelChan: Channel
    const totalSize: int
    const chunks: array<Chunk>
    const reader: ProgressReader
    var downloaded: int

    /** The running count only grows from 0, the reader has counted exactly the bytes the loop
        added, the chunk sizes still add up to the total and no chunk is ahead of the count. */
    ghost predicate Valid()
      reads this, chunks, reader
    {
      && downloaded >= 0
      && reader.read == downloaded
      && reader.owner == owner && reader.url == url && reader.total == totalSize
      && chunks.Length >= 1
      && TotalSize(chunks[..]) == totalSize
      && Bounded(chunks[..], downloaded)
    }

    constructor (owner: Downloader, url: string, cancelChan: Channel, totalSize: int, chunks: array<Chunk>, reader: ProgressReader)
      requires chunks.Length >= 1 && chunks[..] == InitialChunks(totalSize, chunks.Length)
      requires reader.owner == owner && reader.url == url && reader.total == totalSize && reader.read == 0
      ensures Valid()
      ensures this.owner == owner && this.url == url && this.cancelChan == cancelChan
      ensures this.totalSize == totalSize && this.chunks == chunks && this.reader == reader
      ensures downloaded == 0
    {
      this.owner, this.url, this.cancelChan, this.totalSize := owner, url, cancelChan, totalSize;
      this.chunks, this.reader := chunks, reader;
      downloaded := 0;
      new;
      InitialChunksSumToTotal(totalSize, chunks.Length);
      InitialChunksBounded(totalSize, chunks.Length);
    }

    /** One iteration of the copy loop. The cancel channel is looked at first, then the paused
        flag, and only then is a block copied. */
    method Step(block: Block) returns (r: StepResult)
      requires Valid() && ValidBlock(block)
      modifies this, chunks, reader, cancelChan, owner`trace
      ensures Valid()
      ensures ProgressGrew(old(chunks[..]), chunks[..])
      // cancel wins over pause
      ensures old(cancelChan.Ready()) ==>
        && r == Abort(DownloadCancelled) && !cancelChan.pendingSend && cancelChan.closed == old(cancelChan.closed)
        && downloaded == old(downloaded) && chunks[..] == old(chunks[..]) && owner.trace == old(owner.trace)
      ensures !old(cancelChan.Ready()) ==> unchanged(cancelChan)
      // a paused iteration sleeps and copies nothing; the end-of-transfer test is skipped
      ensures !old(cancelChan.Ready()) && url in owner.paused ==>
        && r == Continue
        && downloaded == old(downloaded) && chunks[..] == old(chunks[..]) && owner.trace == old(owner.trace)
      // otherwise one block is copied and counted
      ensures !old(cancelChan.Ready()) && url !in owner.paused ==> CopyEffect(block, r,
        old(downloaded), downloaded, old(chunks[..]), chunks[..], old(owner.trace), owner.trace)
    {
      BoundedInUnitRange(chunks[..], downloaded);
      if cancelChan.Ready() {
        cancelChan.pendingSend := false;
        return Abort(DownloadCancelled);
      }
      if url in owner.paused {
        return Continue;
      }
      r := Copy(block);
    }

    /** What copying one block does: the count grows by the block's size and one progress
        report is made; a copy error aborts, an end of stream skips the chunk update, a full
        block updates the chunks and reports again. The loop ends once the count reaches the
        total. */
    ghost predicate CopyEffect(block: Block, r: StepResult, d0: int, d: int,
                               cs0: seq<Chunk>, cs: seq<Chunk>, trace0: seq<Event>, trace: seq<Event>)
      requires d >= 0
    {
      && d == d0 + block.n
      && (block.end == CopyError ==>
            r == Abort(WriteFailed) && cs == cs0 && trace == trace0 + [Progress(url, d, totalSize)])
      && (block.end == EndOfStream ==>
            r == (if d >= totalSize then Exit else Continue) && cs == cs0
            && trace == trace0 + [Progress(url, d, totalSize)])
      && (block.end == Full ==>
            r == (if d >= totalSize then Exit else Continue) && cs == Updated(cs0, d)
            && trace == trace0 + [Progress(url, d, totalSize), Progress(url, d, totalSize)])
    }

    /** The copy part of an iteration that was neither cancelled nor paused. */
    method Copy(block: Block) returns (r: StepResult)
      requires Valid() && ValidBlock(block)
      modifies this, chunks, reader, owner`trace
      ensures Valid()
      ensures ProgressGrew(old(chunks[..]), chunks[..])
      ensures CopyEffect(block, r, old(downloaded), downloaded, old(chunks[..]), chunks[..], old(owner.trace), owner.trace)
    {
      ghost var before := chunks[..];
      ghost var d0 := downloaded;
      reader.Read(block.n);
      downloaded := downloaded + block.n;
      if block.end == CopyError {
        BoundedAsCountGrows(before, d0, downloaded);
        BoundedInUnitRange(chunks[..], downloaded);
        return Abort(WriteFailed);
      }
      if block.end == Full {
        owner.trace := owner.trace + [Progress(url, downloaded, totalSize)];
        UpdateMonotone(before, d0, downloaded);
        StopIndexSameSizes(before, Updated(before, downloaded), downloaded);
        UpdateChunks(chunks, downloaded);
        TotalSizeSameSizes(before, chunks[..]);
      } else {
        BoundedAsCountGrows(before, d0, downloaded);
      }
      BoundedInUnitRange(chunks[..], downloaded);
      r := if downloaded >= totalSize then Exit else Continue;
    }
  }

  /** No chunk lost progress or changed size, and every progress is at most 1. */
  ghost predicate ProgressGrew(before: seq<Chunk>, after: seq<Chunk>)
  {
    && |after| == |before|
    && forall i :: 0 <= i < |before| ==>
         before[i].progress <= after[i].progress <= 1.0 && after[i].size == before[i].size
  }

  lemma {:induction false} TotalSizeSameSizes(cs: seq<Chunk>, ds: seq<Chunk>)
    requires |cs| == |ds|
    requires forall i :: 0 <= i < |cs| ==> cs[i].size == ds[i].size
    ensures TotalSize(cs) == TotalSize(ds)
  {
    if cs != [] {
      TotalSizeSameSizes(cs[1..], ds[1..]);
    }
  }

  /** The `Downloader` struct: configuration, the three per-URL structures (`pausedDownloads`,
      `cancelDownloads`, `activeDownloads`) and the record of callbacks made so far. */
  class Downloader {
    var downloadDir: string
    var maxConcurrent: int
    var maxChunks: int
    var paused: set<string>
    var cancels: map<string, Channel>
    var active: set<string>
    ghost var trace: seq<Event>

    /** `NewDownloader`: at most 5 simultaneous transfers, nothing paused, cancellable or
        active. The directory (the user's Downloads folder) is given by the caller. */
    constructor (maxChunks: int, downloadDir: string)
      ensures this.maxChunks == maxChunks && this.downloadDir == downloadDir && maxConcurrent == 5
      ensures paused == {} && cancels == map[] && active == {} && trace == []
    {
      this.maxChunks, this.downloadDir, maxConcurrent := maxChunks, downloadDir, 5;
      paused, cancels, active := {}, map[], {};
      trace := [];
    }

    /** `Download` up to the copy loop: marks the URL active, probes with HEAD, announces the
        download, creates the directory and the file, sends the GET, stores a fresh cancel
        channel and builds the chunk table. An early return also ends the URL's active mark. */
    method StartTransfer(url: string, env: Environment) returns (err: Option<Error>, t: TransferLoop?)
      requires maxChunks >= 1
      modifies this
      ensures err.None? <==> t != null
      ensures err.None? <==> GetSucceeded(env)
      ensures err.Some? ==> Returned(err) == DownloadOutcome(env, url in paused)
      ensures trace == old(trace) + EntryEvents(url, env)
      ensures paused == old(paused) && downloadDir == old(downloadDir)
      ensures maxChunks == old(maxChunks) && maxConcurrent == old(maxConcurrent)
      ensures err.Some? ==> active == old(active) - {url} && cancels == old(cancels)
      ensures t != null ==>
        && active == old(active) + {url}
        && fresh(t) && fresh(t.chunks) && fresh(t.reader) && fresh(t.cancelChan)
        && t.Valid() && t.owner == this && t.url == url && t.downloaded == 0
        && t.totalSize == env.head.contentLength && t.chunks.Length == maxChunks
        && !t.cancelChan.closed && !t.cancelChan.pendingSend
        && cancels == old(cancels)[url := t.cancelChan]
    {
      active := active + {url};
      t := null;
      if env.head.TransportError? {
        active := active - {url};
        return Some(HeadFailed), null;
      }
      if env.head.status != StatusOK {
        active := active - {url};
        return Some(BadStatus(env.head.status)), null;
      }
      var totalSize := env.head.contentLength;
      // the error of OnDownloadAdded is overwritten before anyone looks at it
      trace := trace + [Added(url, totalSize)];
      if env.mkdir.Some? {
        active := active - {url};
        return Some(MkdirFailed), null;
      }
      if env.create.Some? {
        active := active - {url};
        return Some(CreateFailed), null;
      }
      trace := trace + [FileCreated(url), Requested(url)];
      if env.get.TransportError? {
        active := active - {url};
        return Some(GetFailed), null;
      }
      if env.get.status != StatusOK {
        active := active - {url};
        return Some(BadStatus(env.get.status)), null;
      }
      var cancelChan := new Channel();
      cancels := cancels[url := cancelChan];
      var chunks := NewChunks(totalSize, maxChunks);
      var reader := new ProgressReader(this, url, totalSize);
      t := new TransferLoop(this, url, cancelChan, totalSize, chunks, reader);
      err := None;
    }

    /** After the loop's `break`: `OnComplete` (its error is ignored), the final progress report
        of 1.0, and the deferred removal of the active mark. */
    method FinishTransfer(url: string)
      modifies this`trace, this`active
      ensures trace == old(trace) + [Completed(url), Progress(url, 1, 1)]
      ensures active == old(active) - {url}
    {
      trace := trace + [Completed(url), Progress(url, 1, 1)];
      active := active - {url};
    }

    /** A whole `Download` call with nobody else touching the downloader meanwhile. */
    method Download(url: string, env: Environment) returns (outcome: Outcome)
      requires maxChunks >= 1 && ValidTicks(env.ticks)
      modifies this
      ensures outcome == DownloadOutcome(env, url in old(paused))
      ensures paused == old(paused) && downloadDir == old(downloadDir)
      ensures maxChunks == old(maxChunks) && maxConcurrent == old(maxConcurrent)
      ensures outcome.Returned? ==> active == old(active) - {url}
      ensures outcome.StillRunning? ==> active == old(active) + {url}
      ensures GetSucceeded(env) ==>
        url in cancels && fresh(cancels[url]) && cancels == old(cancels)[url := cancels[url]]
      ensures !GetSucceeded(env) ==> cancels == old(cancels)
      ensures old(trace) + EntryEvents(url, env) <= trace
      ensures !GetSucceeded(env) ==> trace == old(trace) + EntryEvents(url, env)
      ensures outcome == Returned(None) ==>
        |trace| >= 2 && trace[|trace| - 2..] == [Completed(url), Progress(url, 1, 1)]
    {
      var err, t := StartTransfer(url, env);
      if err.Some? {
        return Returned(err);
      }
      ghost var isPaused := url in paused;
      ghost var prefix := trace;
      var ticks := env.ticks;
      var i := 0;
      while i < |ticks|
        invariant 0 <= i <= |ticks|
        invariant t.Valid() && t.owner == this && t.url == url
        invariant !t.cancelChan.closed && !t.cancelChan.pendingSend
        invariant paused == old(paused) && active == old(active) + {url}
        invariant cancels == old(cancels)[url := t.cancelChan]
        invariant downloadDir == old(downloadDir) && maxChunks == old(maxChunks) && maxConcurrent == old(maxConcurrent)
        invariant prefix <= trace
        invariant LoopOutcome(isPaused, t.totalSize, t.downloaded, ticks[i..]) == DownloadOutcome(env, isPaused)
      {
        var r := t.Step(ticks[i]);
        i := i + 1;
        if r.Abort? {
          active := active - {url};
          return Returned(Some(r.err));
        }
        if r.Exit? {
          FinishTransfer(url);
          return Returned(None);
        }
      }
      outcome := StillRunning;
    }

    /** The goroutine that `ResumeDownload` starts: a new `Download`, whose error goes to
        `OnError`. */
    method RunRelaunched(url: string, env: Environment) returns (outcome: Outcome)
      requires maxChunks >= 1 && ValidTicks(env.ticks)
      modifies this
      ensures outcome == DownloadOutcome(env, url in old(paused))
      ensures paused == old(paused)
      ensures outcome.Returned? && outcome.err.Some? ==>
        |trace| >= 1 && trace[|trace| - 1] == ErrorReported(url, outcome.err.value)
    {
      outcome := Download(url, env);
      if outcome.Returned? && outcome.err.Some? {
        trace := trace + [ErrorReported(url, outcome.err.value)];
      }
    }

    /** `DownloadMultiple`: one `Download` per URL; result i belongs to URL i. */
    method DownloadMultiple(urls: seq<string>, envs: seq<Environment>) returns (outcomes: seq<Outcome>)
      requires |envs| == |urls| && maxChunks >= 1
      requires forall i :: 0 <= i < |envs| ==> ValidTicks(envs[i].ticks)
      modifies this
      ensures |outcomes| == |urls|
      ensures forall i :: 0 <= i < |urls| ==> outcomes[i] == DownloadOutcome(envs[i], urls[i] in old(paused))
      ensures paused == old(paused) && maxChunks == old(maxChunks) && downloadDir == old(downloadDir)
    {
      outcomes := [];
      var i := 0;
      while i < |urls|
        invariant 0 <= i <= |urls| && |outcomes| == i
        invariant paused == old(paused) && maxChunks == old(maxChunks) && downloadDir == old(downloadDir)
        invariant forall j :: 0 <= j < i ==> outcomes[j] == DownloadOutcome(envs[j], urls[j] in old(paused))
      {
        var o := Download(urls[i], envs[i]);
        outcomes := outcomes + [o];
        i := i + 1;
      }
    }

    /** `ResumePendingDownloads`: runs the given URLs as one batch and always reports success. */
    method ResumePendingDownloads(pending: seq<string>, envs: seq<Environment>) returns (err: Option<Error>)
      requires |envs| == |pending| && maxChunks >= 1
      requires forall i :: 0 <= i < |envs| ==> ValidTicks(envs[i].ticks)
      modifies this
      ensures err == None
      ensures paused == old(paused) && maxChunks == old(maxChunks)
    {
      var urls := pending;
      var _ := DownloadMultiple(urls, envs);
      err := None;
    }

    /** `PauseDownload`: the URL is flagged as paused whatever `OnPause` returns. */
    method PauseDownload(url: string, hook: Option<Error>) returns (err: Option<Error>)
      modifies this`paused, this`trace
      ensures paused == old(paused) + {url}
      ensures trace == old(trace) + [Paused(url)]
      ensures err == hook
    {
      paused := paused + {url};
      trace := trace + [Paused(url)];
      err := hook;
    }

    /** `ResumeDownload`: clears the flag, calls `OnResume`, and only if that succeeded starts
        a new `Download` of the URL in the background. */
    method ResumeDownload(url: string, hook: Option<Error>) returns (err: Option<Error>)
      modifies this`paused, this`trace
      ensures paused == old(paused) - {url}
      ensures err == hook
      ensures trace == old(trace) + [Resumed(url)] + (if hook.None? then [Relaunched(url)] else [])
    {
      paused := paused - {url};
      trace := trace + [Resumed(url)];
      if hook.Some? {
        return hook;
      }
      trace := trace + [Relaunched(url)];
      err := None;
    }

    /** `CancelDownload`: closes the stored channel (the entry stays), clears the paused flag
        and returns what `OnCancel` returns. Closing a channel twice panics in Go, so the
        stored channel must still be open. */
    method CancelDownload(url: string, hook: Option<Error>) returns (err: Option<Error>)
      requires url in cancels ==> !cancels[url].closed
      modifies this`paused, this`trace, if url in cancels then {cancels[url]} else {}
      ensures url in cancels ==> cancels[url].closed && cancels[url].pendingSend == old(cancels[url].pendingSend)
      ensures paused == old(paused) - {url}
      ensures trace == old(trace) + [Cancelled(url)]
      ensures err == hook
    {
      if url in cancels {
        cancels[url].closed := true;
      }
      paused := paused - {url};
      trace := trace + [Cancelled(url)];
      err := hook;
    }

    /** `DeleteDownload`: hands a cancel value to a stored channel and drops the entry, calls
        `OnDeleted`, and clears the active mark only when that succeeded. The paused flag is
        left alone. Sending on a closed channel panics in Go, so the stored channel must still
        be open. */
    method DeleteDownload(url: string, deleteFile: bool, hook: Option<Error>) returns (err: Option<Error>)
      requires url in cancels ==> !cancels[url].closed
      modifies this`cancels, this`active, this`trace, if url in cancels then {cancels[url]} else {}
      ensures old(url in cancels) ==> old(cancels[url]).pendingSend && !old(cancels[url]).closed
      ensures cancels == old(cancels) - {url}
      ensures trace == old(trace) + [Deleted(url, deleteFile)]
      ensures err == hook
      ensures active == if hook.None? then old(active) - {url} else old(active)
    {
      if url in cancels {
        cancels[url].pendingSend := true;
        cancels := cancels - {url};
      }
      trace := trace + [Deleted(url, deleteFile)];
      if hook.Some? {
        return hook;
      }
      active := active - {url};
      err := None;
    }

    /** `SetDownloadStatusDeleted`: only `OnDeleted` with deleteFile = false. */
    method SetDownloadStatusDeleted(url: string, hook: Option<Error>) returns (err: Option<Error>)
      modifies this`trace
      ensures trace == old(trace) + [Deleted(url, false)]
      ensures err == hook
    {
      trace := trace + [Deleted(url, false)];
      err := hook;
    }
  }
}
