/** The video downloader: picks a route (yt-dlp for stream and player URLs, a
    plain streamed GET otherwise), retries the plain route a bounded number of
    times, rejects HTML and tiny payloads by deleting them, and finds the file
    yt-dlp actually wrote. The network and yt-dlp are oracles. */
module Downloader {
  import opened Wrappers
  import opened Text
  import opened Files

  newtype byte = x: int | 0 <= x < 256

  /** `bytes.lower()` on one byte: only ASCII capitals change. */
  function LowerByte(b: byte): byte {
    if 65 <= b <= 90 then b + 32 else b
  }

  function LowerBytes(s: seq<byte>): (r: seq<byte>)
    ensures |r| == |s| && forall i :: 0 <= i < |s| ==> r[i] == LowerByte(s[i])
  {
    seq(|s|, i requires 0 <= i < |s| => LowerByte(s[i]))
  }

  predicate BytesAt(s: seq<byte>, sub: seq<byte>, i: int) {
    0 <= i && i + |sub| <= |s| && s[i..i + |sub|] == sub
  }

  /** `sub in s` on byte strings. */
  predicate ContainsBytes(s: seq<byte>, sub: seq<byte>) {
    exists i :: 0 <= i <= |s| - |sub| && BytesAt(s, sub, i)
  }

  /** b"<!doctype" */
  const Doctype: seq<byte> := [60, 33, 100, 111, 99, 116, 121, 112, 101]
  /** b"<html" */
  const HtmlTag: seq<byte> := [60, 104, 116, 109, 108]

  /** The HTML test on the first kilobyte: either marker in the lower-cased
      bytes, or "<html" in the bytes as received. */
  predicate LooksLikeHtml(head: seq<byte>) {
    ContainsBytes(LowerBytes(head), Doctype) || ContainsBytes(LowerBytes(head), HtmlTag) || ContainsBytes(head, HtmlTag)
  }

  /** The third test adds nothing: "<html" has no capitals, so lower-casing
      keeps every occurrence of it. */
  lemma HtmlTestOnRawBytesRedundant(head: seq<byte>)
    ensures LooksLikeHtml(head) <==> ContainsBytes(LowerBytes(head), Doctype) || ContainsBytes(LowerBytes(head), HtmlTag)
  {
    if ContainsBytes(head, HtmlTag) {
      var i :| 0 <= i <= |head| - |HtmlTag| && BytesAt(head, HtmlTag, i);
      var low := LowerBytes(head);
      forall k | 0 <= k < |HtmlTag| ensures low[i + k] == HtmlTag[k] {
        assert head[i + k] == head[i..i + |HtmlTag|][k];
      }
      assert low[i..i + |HtmlTag|] == HtmlTag;
      assert BytesAt(low, HtmlTag, i);
    }
  }

  /** Why a download failed; each case is one error message of the source. */
  datatype DownloadError =
    | RequestError(reason: string)
    | UnexpectedError(reason: string)
    | HtmlInsteadOfVideo(url: string)
    | TooSmall(bytes: nat)
    | YtdlpMissing
    | YtdlpFailed(reason: string)
    | OutputNotFound
    | RetriesExhausted(maxRetries: int, lastError: Option<DownloadError>)
    | ServiceError(reason: string)

  /** The outcome of one download. */
  datatype DownloadResult = DownloadResult(
    success: bool,
    videoId: string,
    filePath: Option<string> := None,
    error: Option<DownloadError> := None,
    bytesDownloaded: nat := 0)

  function Succeeded(videoId: string, path: string, size: nat): DownloadResult {
    DownloadResult(true, videoId, Some(path), None, size)
  }

  function Failed(videoId: string, e: DownloadError): DownloadResult {
    DownloadResult(false, videoId, error := Some(e))
  }

  /** What `int(headers.get("content-length", 0))` meets. */
  datatype ContentLength = NoHeader | Numeric(n: int) | Malformed(text: string)

  /** What the server does with one GET: fail before the body (connection
      error, timeout, error status), or send a body in chunks, possibly
      breaking off after them. */
  datatype Response =
    | RequestFailed(reason: string)
    | Body(length: ContentLength, chunks: seq<seq<byte>>, streamError: Option<string>)

  /** All bytes written, in order. Empty chunks add nothing. */
  function Received(chunks: seq<seq<byte>>): (r: seq<byte>)
  {
    if |chunks| == 0 then [] else Received(chunks[..|chunks| - 1]) + chunks[|chunks| - 1]
  }

  /** The first non-empty chunk. */
  function FirstNonEmpty(chunks: seq<seq<byte>>): (r: Option<seq<byte>>)
    ensures r.Some? ==> r.value != [] && exists k :: 0 <= k < |chunks| && chunks[k] == r.value
                                               && forall j :: 0 <= j < k ==> chunks[j] == []
    ensures r.None? ==> forall k :: 0 <= k < |chunks| ==> chunks[k] == []
  {
    if |chunks| == 0 then None
    else
      var init := chunks[..|chunks| - 1];
      var p := FirstNonEmpty(init);
      if p.Some? then
        assert forall k :: 0 <= k < |init| ==> init[k] == chunks[k];
        p
      else if chunks[|chunks| - 1] != [] then Some(chunks[|chunks| - 1])
      else None
  }

  /** `chunk[:1024]` */
  function Head(chunk: seq<byte>): (r: seq<byte>)
    ensures chunk != [] ==> r != []
    ensures |r| <= 1024 && |r| <= |chunk| && r == chunk[..|r|]
  {
    if |chunk| <= 1024 then chunk else chunk[..1024]
  }

  predicate KnownSize(len: ContentLength) {
    len.Numeric? && len.n > 0
  }

  /** The bytes kept for validation: the head of the first non-empty chunk,
      and only when the size was announced. */
  function Sniffed(len: ContentLength, chunks: seq<seq<byte>>): Option<seq<byte>> {
    if KnownSize(len) && FirstNonEmpty(chunks).Some? then Some(Head(FirstNonEmpty(chunks).value)) else None
  }

  /** The result once the whole body is written. */
  function Verdict(url: string, out: string, videoId: string, len: ContentLength, chunks: seq<seq<byte>>): DownloadResult {
    var n := |Received(chunks)|;
    var head := Sniffed(len, chunks);
    if head.Some? && LooksLikeHtml(head.value) then Failed(videoId, HtmlInsteadOfVideo(url))
    else if head.Some? && n < 1000 then Failed(videoId, TooSmall(n))
    else Succeeded(videoId, out, n)
  }

  /** The result of one `_download_with_progress` call. */
  function AttemptResult(url: string, out: string, videoId: string, resp: Response): DownloadResult {
    match resp
    case RequestFailed(m) => Failed(videoId, RequestError(m))
    case Body(len, chunks, err) =>
      if len.Malformed? then Failed(videoId, UnexpectedError("invalid literal for int() with base 10: '" + len.text + "'"))
      else if err.Some? then Failed(videoId, RequestError(err.value))
      else Verdict(url, out, videoId, len, chunks)
  }

  /** The files after one `_download_with_progress` call: untouched when it
      fails before opening the output, the partial file after a broken
      stream, no file after a rejected payload, the whole payload otherwise. */
  function AttemptFiles(files: map<string, nat>, url: string, out: string, resp: Response): map<string, nat> {
    match resp
    case RequestFailed(_) => files
    case Body(len, chunks, err) =>
      if len.Malformed? then files
      else if err.Some? then files[out := |Received(chunks)|]
      else if Verdict(url, out, "", len, chunks).success then files[out := |Received(chunks)|]
      else files - {out}
  }

  /** An announced size with HTML in the first kilobyte: the file is deleted
      and the attempt fails. */
  lemma HtmlPayloadDeleted(url: string, out: string, videoId: string, files: map<string, nat>, n: int,
                           chunks: seq<seq<byte>>)
    requires n > 0 && FirstNonEmpty(chunks).Some? && LooksLikeHtml(Head(FirstNonEmpty(chunks).value))
    ensures AttemptResult(url, out, videoId, Body(Numeric(n), chunks, None)) == Failed(videoId, HtmlInsteadOfVideo(url))
    ensures out !in AttemptFiles(files, url, out, Body(Numeric(n), chunks, None))
  {
  }

  /** Without an announced size nothing is validated: whatever arrived,
      HTML or a handful of bytes, is kept and reported as a success. */
  lemma UnknownSizeNotValidated(url: string, out: string, videoId: string, files: map<string, nat>,
                                len: ContentLength, chunks: seq<seq<byte>>)
    requires len.NoHeader? || (len.Numeric? && len.n <= 0)
    ensures AttemptResult(url, out, videoId, Body(len, chunks, None)) == Succeeded(videoId, out, |Received(chunks)|)
    ensures AttemptFiles(files, url, out, Body(len, chunks, None)) == files[out := |Received(chunks)|]
  {
  }

  /** A stream that breaks off leaves the partial file on disk. */
  lemma BrokenStreamLeavesPartialFile(url: string, out: string, videoId: string, files: map<string, nat>,
                                      n: int, chunks: seq<seq<byte>>, reason: string)
    ensures !AttemptResult(url, out, videoId, Body(Numeric(n), chunks, Some(reason))).success
    ensures AttemptFiles(files, url, out, Body(Numeric(n), chunks, Some(reason))) == files[out := |Received(chunks)|]
  {
  }

  /** A successful attempt leaves its payload at the output path; with an
      announced size it passed both checks. */
  lemma SuccessfulAttemptKeepsFile(url: string, out: string, videoId: string, files: map<string, nat>, resp: Response)
    requires AttemptResult(url, out, videoId, resp).success
    ensures var r := AttemptResult(url, out, videoId, resp);
            var f := AttemptFiles(files, url, out, resp);
            r.filePath == Some(out) && out in f && f[out] == r.bytesDownloaded
    ensures resp.Body? && KnownSize(resp.length) && FirstNonEmpty(resp.chunks).Some? ==>
              AttemptResult(url, out, videoId, resp).bytesDownloaded >= 1000
              && !LooksLikeHtml(Head(FirstNonEmpty(resp.chunks).value))
  {
    var r := AttemptResult(url, out, videoId, resp);
    assert resp.Body? && !resp.length.Malformed? && resp.streamError.None?;
    assert r == Verdict(url, out, videoId, resp.length, resp.chunks);
    assert Verdict(url, out, "", resp.length, resp.chunks).success;
  }

  /** The chunk loop of `_download_with_progress`: the output file grows by
      each non-empty chunk, and the first such chunk's head is kept when the
      size was announced. */
  method WriteChunks(out: string, len: ContentLength, chunks: seq<seq<byte>>, disk: Disk)
    returns (written: nat, first: Option<seq<byte>>)
    requires !len.Malformed?
    modifies disk
    ensures written == |Received(chunks)| && first == Sniffed(len, chunks)
    ensures disk.files == old(disk.files)[out := written]
  {
    var total := if len.Numeric? then len.n else 0;
    disk.Write(out, 0);
    written, first := 0, None;
    var i := 0;
    while i < |chunks|
      invariant 0 <= i <= |chunks|
      invariant written == |Received(chunks[..i])|
      invariant first == Sniffed(len, chunks[..i])
      invariant disk.files == old(disk.files)[out := written]
    {
      var chunk := chunks[i];
      ChunkStep(len, chunks, i);
      if |chunk| > 0 {
        if total > 0 && first.None? {
          first := Some(Head(chunk));
        }
        written := written + |chunk|;
        disk.Write(out, written);
      }
      i := i + 1;
    }
    assert chunks[..i] == chunks;
  }

  /** What one more chunk adds to the bytes received and the head kept. */
  lemma ChunkStep(len: ContentLength, chunks: seq<seq<byte>>, i: int)
    requires 0 <= i < |chunks|
    ensures |Received(chunks[..i + 1])| == |Received(chunks[..i])| + |chunks[i]|
    ensures Sniffed(len, chunks[..i + 1])
            == if Sniffed(len, chunks[..i]).None? && KnownSize(len) && chunks[i] != [] then Some(Head(chunks[i]))
               else Sniffed(len, chunks[..i])
  {
    var p := chunks[..i + 1];
    assert p[..|p| - 1] == chunks[..i] && p[|p| - 1] == chunks[i];
    ChunkLast(len, p);
  }

  lemma ChunkLast(len: ContentLength, chunks: seq<seq<byte>>)
    requires 0 < |chunks|
    ensures |Received(chunks)| == |Received(chunks[..|chunks| - 1])| + |chunks[|chunks| - 1]|
    ensures Sniffed(len, chunks)
            == if Sniffed(len, chunks[..|chunks| - 1]).None? && KnownSize(len) && chunks[|chunks| - 1] != []
               then Some(Head(chunks[|chunks| - 1]))
               else Sniffed(len, chunks[..|chunks| - 1])
  {
  }

  /** `_download_with_progress`: one streamed GET written chunk by chunk. */
  method DownloadWithProgress(url: string, out: string, videoId: string, resp: Response, disk: Disk)
    returns (r: DownloadResult)
    modifies disk
    ensures r == AttemptResult(url, out, videoId, resp)
    ensures disk.files == AttemptFiles(old(disk.files), url, out, resp)
  {
    if resp.RequestFailed? {
      return Failed(videoId, RequestError(resp.reason));
    }
    var len := resp.length;
    if len.Malformed? {
      return Failed(videoId, UnexpectedError("invalid literal for int() with base 10: '" + len.text + "'"));
    }
    var written, first := WriteChunks(out, len, resp.chunks, disk);
    if resp.streamError.Some? {
      return Failed(videoId, RequestError(resp.streamError.value));
    }
    if first.Some? {
      if LooksLikeHtml(first.value) {
        var removed := disk.Unlink(out);
        return Failed(videoId, HtmlInsteadOfVideo(url));
      }
      if written < 1000 {
        var removed := disk.Unlink(out);
        return Failed(videoId, TooSmall(written));
      }
    }
    return Succeeded(videoId, out, written);
  }

  /** The direct route from attempt `attempt` on: the first successful
      attempt's result, or a failure naming `maxRetries` and the last
      attempt's error; the files as the attempts left them. `fetch(k)` is
      what the server does on attempt k. */
  function Retry(url: string, out: string, videoId: string, fetch: int -> Response, files: map<string, nat>,
                 attempt: int, maxRetries: int, lastError: Option<DownloadError>): (res: (DownloadResult, map<string, nat>))
    ensures res.0.videoId == videoId
    decreases maxRetries - attempt
  {
    if attempt > maxRetries then (Failed(videoId, RetriesExhausted(maxRetries, lastError)), files)
    else
      var r := AttemptResult(url, out, videoId, fetch(attempt));
      var f := AttemptFiles(files, url, out, fetch(attempt));
      if r.success then (r, f)
      else Retry(url, out, videoId, fetch, f, attempt + 1, maxRetries, r.error)
  }

  /** The direct route succeeds iff some attempt in range succeeds, and then
      its result is that of the first successful attempt. */
  lemma {:induction false} RetrySucceedsIff(url: string, out: string, videoId: string, fetch: int -> Response,
                                            files: map<string, nat>, attempt: int, maxRetries: int,
                                            lastError: Option<DownloadError>)
    ensures var r := Retry(url, out, videoId, fetch, files, attempt, maxRetries, lastError).0;
            r.success <==> exists k :: attempt <= k <= maxRetries && AttemptResult(url, out, videoId, fetch(k)).success
    ensures var r := Retry(url, out, videoId, fetch, files, attempt, maxRetries, lastError).0;
            r.success ==> exists k :: attempt <= k <= maxRetries && r == AttemptResult(url, out, videoId, fetch(k))
                                      && forall j :: attempt <= j < k ==> !AttemptResult(url, out, videoId, fetch(j)).success
    decreases maxRetries - attempt
  {
    if attempt <= maxRetries {
      var r := AttemptResult(url, out, videoId, fetch(attempt));
      var f := AttemptFiles(files, url, out, fetch(attempt));
      var whole := Retry(url, out, videoId, fetch, files, attempt, maxRetries, lastError).0;
      if r.success {
        assert whole == r;
      } else {
        var rest := Retry(url, out, videoId, fetch, f, attempt + 1, maxRetries, r.error).0;
        assert whole == rest;
        RetrySucceedsIff(url, out, videoId, fetch, f, attempt + 1, maxRetries, r.error);
        if whole.success {
          var k :| attempt + 1 <= k <= maxRetries && whole == AttemptResult(url, out, videoId, fetch(k))
                   && forall j :: attempt + 1 <= j < k ==> !AttemptResult(url, out, videoId, fetch(j)).success;
          assert forall j :: attempt <= j < k ==> !AttemptResult(url, out, videoId, fetch(j)).success;
        } else {
          forall k | attempt <= k <= maxRetries ensures !AttemptResult(url, out, videoId, fetch(k)).success {
          }
        }
      }
    }
  }

  /** When every attempt fails, the failure names `maxRetries` and carries
      the error of the final attempt (none when no attempt was made). */
  lemma {:induction false} RetryFailureReportsLastError(url: string, out: string, videoId: string,
                                                        fetch: int -> Response, files: map<string, nat>,
                                                        attempt: int, maxRetries: int, lastError: Option<DownloadError>)
    requires !Retry(url, out, videoId, fetch, files, attempt, maxRetries, lastError).0.success
    ensures var r := Retry(url, out, videoId, fetch, files, attempt, maxRetries, lastError).0;
            r.error == Some(RetriesExhausted(maxRetries,
                              if attempt <= maxRetries then AttemptResult(url, out, videoId, fetch(maxRetries)).error
                              else lastError))
    decreases maxRetries - attempt
  {
    if attempt <= maxRetries {
      var r := AttemptResult(url, out, videoId, fetch(attempt));
      var f := AttemptFiles(files, url, out, fetch(attempt));
      RetryFailureReportsLastError(url, out, videoId, fetch, f, attempt + 1, maxRetries, r.error);
    }
  }

  /** Attempts after `maxRetries` are never made: two servers that behave
      alike on attempts 1..maxRetries give the same outcome. */
  lemma {:induction false} RetryBounded(url: string, out: string, videoId: string, fetch: int -> Response,
                                        fetch2: int -> Response, files: map<string, nat>, attempt: int,
                                        maxRetries: int, lastError: Option<DownloadError>)
    requires forall k :: attempt <= k <= maxRetries ==> fetch(k) == fetch2(k)
    ensures Retry(url, out, videoId, fetch, files, attempt, maxRetries, lastError)
            == Retry(url, out, videoId, fetch2, files, attempt, maxRetries, lastError)
    decreases maxRetries - attempt
  {
    if attempt <= maxRetries {
      var r := AttemptResult(url, out, videoId, fetch(attempt));
      var f := AttemptFiles(files, url, out, fetch(attempt));
      RetryBounded(url, out, videoId, fetch, fetch2, f, attempt + 1, maxRetries, r.error);
    }
  }

  /** URLs that go to yt-dlp: HLS playlists, player pages and both
      legislatures' video hosts. */
  predicate UseYtdlp(url: string) {
    EndsWith(url, ".m3u8") || Contains(url, ".m3u8") || Contains(url, "VideoArchivePlayer")
    || Contains(url, "cloud.castus.tv") || Contains(url, "house.mi.gov") || Contains(url, "cloudfront.net")
  }

  /** The `endswith` test is subsumed by the `in` test. */
  lemma UseYtdlpIff(url: string)
    ensures UseYtdlp(url) <==> (Contains(url, ".m3u8") || Contains(url, "VideoArchivePlayer")
                                || Contains(url, "cloud.castus.tv") || Contains(url, "house.mi.gov")
                                || Contains(url, "cloudfront.net"))
  {
    if EndsWith(url, ".m3u8") {
      assert OccursAt(url, ".m3u8", |url| - 5);
    }
  }

  /** The Referer and Origin headers sent to yt-dlp. */
  function Referer(url: string): (r: (string, string))
    ensures Contains(url, "house.mi.gov") || Contains(url, "VideoArchivePlayer") ==>
              r == ("https://house.mi.gov/", "https://house.mi.gov")
    ensures !(Contains(url, "house.mi.gov") || Contains(url, "VideoArchivePlayer"))
            && (Contains(url, "cloudfront.net") || Contains(url, "castus.tv")) ==>
              r == ("https://cloud.castus.tv/vod/misenate/", "https://cloud.castus.tv")
    ensures !(Contains(url, "house.mi.gov") || Contains(url, "VideoArchivePlayer")
              || Contains(url, "cloudfront.net") || Contains(url, "castus.tv")) ==>
              r.0 == r.1 && StartsWith(url, r.0) && !Contains(r.0, "/outputs")
              && (Contains(url, "/outputs") ==> OccursAt(url, "/outputs", |r.0|))
              && (!Contains(url, "/outputs") ==> r.0 == url)
  {
    if Contains(url, "house.mi.gov") || Contains(url, "VideoArchivePlayer") then
      ("https://house.mi.gov/", "https://house.mi.gov")
    else if Contains(url, "cloudfront.net") || Contains(url, "castus.tv") then
      ("https://cloud.castus.tv/vod/misenate/", "https://cloud.castus.tv")
    else
      match FindSub(url, "/outputs")
      case None => (url, url)
      case Some(i) =>
        var ref := url[..i];
        NoEarlierOccurrence(url, "/outputs", i);
        (ref, ref)
  }

  /** A prefix that ends before the first occurrence does not contain it. */
  lemma NoEarlierOccurrence(s: string, sub: string, i: nat)
    requires |sub| > 0 && OccursAt(s, sub, i) && forall j :: 0 <= j < i ==> !OccursAt(s, sub, j)
    ensures !Contains(s[..i], sub)
  {
    if Contains(s[..i], sub) {
      var j :| 0 <= j <= |s[..i]| - |sub| && OccursAt(s[..i], sub, j);
      assert j < i;
      assert s[..i][j..j + |sub|] == s[j..j + |sub|];
      assert OccursAt(s, sub, j);
    }
  }

  /** What running yt-dlp does: raise, or finish having written some files. */
  datatype YtdlpRun = Raised(reason: string) | Finished(written: map<string, nat>)

  /** yt-dlp given the URL, the output template, the Referer and the Origin. */
  type YtdlpOracle = (string, string, string, string) -> YtdlpRun

  /** The extensions tried after the exact and extensionless paths. */
  const Extensions: seq<string> := [".mp4", ".mkv", ".webm"]

  /** Where the finished download was found. */
  datatype Located = AtTarget | Move(from: string) | NotFound | Raises

  /** The extension loop from the `i`-th extension on: the first `base` +
      extension that exists and is not the output path itself. */
  function SearchExtensions(files: map<string, nat>, out: string, base: string, exts: seq<string>, i: nat)
    : (r: Located)
    requires i <= |exts|
    ensures !r.AtTarget?
    ensures r.Move? ==> r.from in files && r.from != out
    decreases |exts| - i
  {
    if i == |exts| then NotFound
    else
      var alt := WithSuffix(base, exts[i]);
      if alt.None? then Raises
      else if alt.value in files && alt.value != out then Move(alt.value)
      else SearchExtensions(files, out, base, exts, i + 1)
  }

  /** The search after yt-dlp finishes: the exact path, then the template path
      without extension, then the template with each extension in turn. */
  function Locate(files: map<string, nat>, out: string, base: string): (r: Located)
    ensures r.AtTarget? <==> out in files
    ensures r.Move? ==> out !in files && r.from in files && r.from != out
    ensures r.NotFound? ==> out !in files && base !in files
  {
    if out in files then AtTarget
    else if base in files then Move(base)
    else SearchExtensions(files, out, base, Extensions, 0)
  }

  /** What the search's finding leaves: the file found at the output path is
      reported as it is, one found elsewhere is moved onto the output path. */
  function Settle(videoId: string, out: string, f: map<string, nat>, loc: Located)
    : (res: (DownloadResult, map<string, nat>))
    requires loc.AtTarget? ==> out in f
    requires loc.Move? ==> loc.from in f
    ensures res.0.videoId == videoId
    ensures res.0.success <==> loc.AtTarget? || loc.Move?
    ensures res.0.success ==> res.0.filePath == Some(out) && out in res.1 && res.1[out] == res.0.bytesDownloaded
    ensures !loc.Move? ==> res.1 == f
  {
    match loc
    case AtTarget => (Succeeded(videoId, out, f[out]), f)
    case Move(src) => (Succeeded(videoId, out, f[src]), (f - {src})[out := f[src]])
    case NotFound => (Failed(videoId, OutputNotFound), f)
    case Raises => (Failed(videoId, YtdlpFailed("empty name")), f)
  }

  /** The result of `_download_with_ytdlp` and the files it leaves. */
  function YtdlpOutcome(url: string, out: string, videoId: string, run: YtdlpOracle, files: map<string, nat>)
    : (res: (DownloadResult, map<string, nat>))
    ensures res.0.videoId == videoId
    ensures res.0.success ==> res.0.filePath == Some(out) && out in res.1 && res.1[out] == res.0.bytesDownloaded
  {
    match WithSuffix(out, "")
    case None => (Failed(videoId, YtdlpFailed("empty name")), files)
    case Some(base) =>
      var headers := Referer(url);
      match run(url, base, headers.0, headers.1)
      case Raised(m) => (Failed(videoId, YtdlpFailed(m)), files)
      case Finished(written) =>
        var f := files + written;
        Settle(videoId, out, f, Locate(f, out, base))
  }

  /** For an output "<dir>/<stem>.mp4": a file yt-dlp wrote at the exact path
      is used as it is, one written without extension or as ".mkv" is moved
      onto the output path, and the extensionless file is preferred. */
  lemma YtdlpSearchOrder(dir: string, stem: string, files: map<string, nat>)
    requires |stem| > 0 && '.' !in stem && '/' !in stem
    ensures var out := dir + "/" + stem + ".mp4";
            var base := dir + "/" + stem;
            WithSuffix(out, "") == Some(base)
            && (out !in files && base in files ==> Locate(files, out, base) == Move(base))
            && (out !in files && base !in files && base + ".mkv" in files ==> Locate(files, out, base) == Move(base + ".mkv"))
  {
    var out := dir + "/" + stem + ".mp4";
    var base := dir + "/" + stem;
    TemplateOfMp4(dir, stem);
    if out !in files && base !in files && base + ".mkv" in files {
      SearchMkv(files, dir, stem);
    }
  }

  lemma TemplateOfMp4(dir: string, stem: string)
    requires |stem| > 0 && '.' !in stem && '/' !in stem
    ensures WithSuffix(dir + "/" + stem + ".mp4", "") == Some(dir + "/" + stem)
  {
    assert IsExtension(".mp4") by { assert ".mp4"[1..] == "mp4"; }
    DropSuffix(dir, stem, ".mp4");
  }

  lemma SearchMkv(files: map<string, nat>, dir: string, stem: string)
    requires |stem| > 0 && '.' !in stem && '/' !in stem
    requires var base := dir + "/" + stem; base !in files && base + ".mkv" in files
    ensures var base := dir + "/" + stem;
            SearchExtensions(files, base + ".mp4", base, Extensions, 0) == Move(base + ".mkv")
  {
    var base := dir + "/" + stem;
    var out := base + ".mp4";
    AddSuffix(dir, stem, ".mp4");
    AddSuffix(dir, stem, ".mkv");
    assert (base + ".mkv")[|base| + 2] != out[|base| + 2];
    SearchSkips(files, out, base, Extensions, 0);
    SearchMoves(files, out, base, Extensions, 1, base + ".mkv");
  }

  /** A candidate that is the output path itself is passed over. */
  lemma SearchSkips(files: map<string, nat>, out: string, base: string, exts: seq<string>, i: nat)
    requires i < |exts| && WithSuffix(base, exts[i]) == Some(out)
    ensures SearchExtensions(files, out, base, exts, i) == SearchExtensions(files, out, base, exts, i + 1)
  {
  }

  /** A candidate that exists and is not the output path is moved. */
  lemma SearchMoves(files: map<string, nat>, out: string, base: string, exts: seq<string>, i: nat, alt: string)
    requires i < |exts| && WithSuffix(base, exts[i]) == Some(alt) && alt in files && alt != out
    ensures SearchExtensions(files, out, base, exts, i) == Move(alt)
  {
  }

  /** `_download_with_ytdlp`: runs yt-dlp, then looks for what it wrote and
      moves it onto the output path. */
  method DownloadWithYtdlp(url: string, out: string, videoId: string, run: YtdlpOracle, disk: Disk)
    returns (r: DownloadResult)
    modifies disk
    ensures (r, disk.files) == YtdlpOutcome(url, out, videoId, run, old(disk.files))
  {
    var template := WithSuffix(out, "");
    if template.None? {
      return Failed(videoId, YtdlpFailed("empty name"));
    }
    var base := template.value;
    var headers := Referer(url);
    var outcome := run(url, base, headers.0, headers.1);
    if outcome.Raised? {
      return Failed(videoId, YtdlpFailed(outcome.reason));
    }
    disk.Merge(outcome.written);
    r := PlaceOutput(out, base, videoId, disk);
  }

  /** The search once yt-dlp has finished, on the files it left. */
  method PlaceOutput(out: string, base: string, videoId: string, disk: Disk) returns (r: DownloadResult)
    modifies disk
    ensures (r, disk.files) == Settle(videoId, out, old(disk.files), Locate(old(disk.files), out, base))
  {
    if disk.Exists(out) {
      return Succeeded(videoId, out, disk.Size(out));
    }
    if disk.Exists(base) {
      r := MoveOnto(base, out, videoId, disk);
      return;
    }
    r := MoveFirstExtension(out, base, videoId, disk);
  }

  /** The extension loop: the first candidate that exists and is not the
      output path is moved onto it. */
  method MoveFirstExtension(out: string, base: string, videoId: string, disk: Disk) returns (r: DownloadResult)
    modifies disk
    ensures (r, disk.files) == Settle(videoId, out, old(disk.files), SearchExtensions(old(disk.files), out, base, Extensions, 0))
  {
    var loc := FindCandidate(out, base, disk);
    match loc
    case Move(src) =>
      r := MoveOnto(src, out, videoId, disk);
    case Raises =>
      r := Failed(videoId, YtdlpFailed("empty name"));
    case _ =>
      r := Failed(videoId, OutputNotFound);
  }

  /** The candidates in extension order: the first that exists and is not
      the output path, `Raises` when a candidate cannot be formed. */
  method FindCandidate(out: string, base: string, disk: Disk) returns (loc: Located)
    ensures loc == SearchExtensions(disk.files, out, base, Extensions, 0)
  {
    var i := 0;
    while i < |Extensions|
      invariant 0 <= i <= |Extensions|
      invariant SearchExtensions(disk.files, out, base, Extensions, 0) == SearchExtensions(disk.files, out, base, Extensions, i)
    {
      var alt := WithSuffix(base, Extensions[i]);
      if alt.None? {
        return Raises;
      }
      var present := disk.Exists(alt.value);
      if present && alt.value != out {
        return Move(alt.value);
      }
      i := i + 1;
    }
    return NotFound;
  }

  /** `os.rename(candidate, output_path)`, reported as a success with the
      moved file's size. */
  method MoveOnto(src: string, out: string, videoId: string, disk: Disk) returns (r: DownloadResult)
    requires src in disk.files
    modifies disk
    ensures (r, disk.files) == Settle(videoId, out, old(disk.files), Move(src))
  {
    var moved := disk.Rename(src, out);
    return Succeeded(videoId, out, disk.Size(out));
  }

  /** The result of `download` and the files it leaves. */
  function DownloadOutcome(url: string, out: string, videoId: string, maxRetries: int, ytdlpAvailable: bool,
                           fetch: int -> Response, run: YtdlpOracle, files: map<string, nat>)
    : (res: (DownloadResult, map<string, nat>))
    ensures res.0.videoId == videoId
  {
    if out in files then (Succeeded(videoId, out, files[out]), files)
    else if UseYtdlp(url) then
      if !ytdlpAvailable then (Failed(videoId, YtdlpMissing), files)
      else YtdlpOutcome(url, out, videoId, run, files)
    else Retry(url, out, videoId, fetch, files, 1, maxRetries, None)
  }

  /** An existing output file is reported as downloaded, with its size, and
      nothing is fetched: the outcome is the same whatever the server and
      yt-dlp would do. */
  lemma ExistingFileShortcut(url: string, out: string, videoId: string, maxRetries: int, ytdlpAvailable: bool,
                             fetch: int -> Response, run: YtdlpOracle, fetch2: int -> Response,
                             run2: YtdlpOracle, files: map<string, nat>)
    requires out in files
    ensures DownloadOutcome(url, out, videoId, maxRetries, ytdlpAvailable, fetch, run, files)
            == (Succeeded(videoId, out, files[out]), files)
    ensures DownloadOutcome(url, out, videoId, maxRetries, ytdlpAvailable, fetch, run, files)
            == DownloadOutcome(url, out, videoId, maxRetries, ytdlpAvailable, fetch2, run2, files)
  {
  }

  /** A successful download always leaves its file at the output path with
      the reported size, whichever route it took. */
  lemma SuccessLeavesFile(url: string, out: string, videoId: string, maxRetries: int, ytdlpAvailable: bool,
                          fetch: int -> Response, run: YtdlpOracle, files: map<string, nat>)
    requires DownloadOutcome(url, out, videoId, maxRetries, ytdlpAvailable, fetch, run, files).0.success
    ensures var res := DownloadOutcome(url, out, videoId, maxRetries, ytdlpAvailable, fetch, run, files);
            res.0.filePath == Some(out) && out in res.1 && res.1[out] == res.0.bytesDownloaded
  {
    if out !in files && !UseYtdlp(url) {
      RetryKeepsFile(url, out, videoId, fetch, files, 1, maxRetries, None);
    }
  }

  lemma {:induction false} RetryKeepsFile(url: string, out: string, videoId: string, fetch: int -> Response,
                                          files: map<string, nat>, attempt: int, maxRetries: int,
                                          lastError: Option<DownloadError>)
    requires Retry(url, out, videoId, fetch, files, attempt, maxRetries, lastError).0.success
    ensures var res := Retry(url, out, videoId, fetch, files, attempt, maxRetries, lastError);
            res.0.filePath == Some(out) && out in res.1 && res.1[out] == res.0.bytesDownloaded
    decreases maxRetries - attempt
  {
    var r := AttemptResult(url, out, videoId, fetch(attempt));
    var f := AttemptFiles(files, url, out, fetch(attempt));
    if r.success {
      SuccessfulAttemptKeepsFile(url, out, videoId, files, fetch(attempt));
    } else {
      RetryKeepsFile(url, out, videoId, fetch, f, attempt + 1, maxRetries, r.error);
    }
  }

  class VideoDownloader {
    const maxRetries: int
    const ytdlpAvailable: bool

    /** `max_retries` defaults to 3; whether yt-dlp imported is fixed at load. */
    constructor (maxRetries: int := 3, ytdlpAvailable: bool := true)
      ensures this.maxRetries == maxRetries && this.ytdlpAvailable == ytdlpAvailable
    {
      this.maxRetries := maxRetries;
      this.ytdlpAvailable := ytdlpAvailable;
    }

    /** `download`: the existing-file shortcut, the route choice, and the
        bounded retry of the direct route. */
    method Download(url: string, out: string, videoId: string, fetch: int -> Response, run: YtdlpOracle, disk: Disk)
      returns (r: DownloadResult)
      modifies disk
      ensures (r, disk.files) == DownloadOutcome(url, out, videoId, maxRetries, ytdlpAvailable, fetch, run, old(disk.files))
    {
      if disk.Exists(out) {
        return Succeeded(videoId, out, disk.Size(out));
      }
      if UseYtdlp(url) {
        if !ytdlpAvailable {
          return Failed(videoId, YtdlpMissing);
        }
        r := DownloadWithYtdlp(url, out, videoId, run, disk);
        return;
      }
      var lastError: Option<DownloadError> := None;
      var attempt := 1;
      while attempt <= maxRetries
        invariant attempt >= 1
        invariant Retry(url, out, videoId, fetch, disk.files, attempt, maxRetries, lastError)
                  == Retry(url, out, videoId, fetch, old(disk.files), 1, maxRetries, None)
        decreases maxRetries - attempt
      {
        var result := DownloadWithProgress(url, out, videoId, fetch(attempt), disk);
        if result.success {
          return result;
        }
        lastError := result.error;
        attempt := attempt + 1;
      }
      return Failed(videoId, RetriesExhausted(maxRetries, lastError));
    }

    /** `get_direct_video_url`: every branch returns the URL it was given. */
    function GetDirectVideoUrl(url: string): (r: Option<string>)
      ensures r == Some(url)
    {
      Some(url)
    }
  }
}
