/** The download service: skips videos already on disk, marks the rest in
    progress, chooses the URL to fetch, runs the downloader and records the
    terminal download status. */
module DownloadSvc {
  import opened Wrappers
  import opened Text
  import opened Database
  import opened Metadata
  import opened Status
  import opened State
  import opened Files
  import opened Downloader
  import opened Blob

  /** A scraper's `resolve_stream_url` for one video: a URL, nothing, or an
      exception with its text. */
  type Resolver = VideoMetadata -> Result<Option<string>, string>

  /** The server's behaviour per URL and attempt number. */
  type Fetcher = string -> int -> Response

  /** `_resolve_stream_url`: the house or senate resolver by exact source
      name; any other source, and any exception, give nothing. */
  function ResolveStreamUrl(v: VideoMetadata, house: Resolver, senate: Resolver): (r: Option<string>)
    ensures v.source != "house" && v.source != "senate" ==> r.None?
    ensures v.source == "house" ==> r == (if house(v).Success? then house(v).value else None)
    ensures v.source == "senate" ==> r == (if senate(v).Success? then senate(v).value else None)
  {
    var outcome := if v.source == "house" then house(v)
                   else if v.source == "senate" then senate(v)
                   else Success(None);
    if outcome.Success? then outcome.value else None
  }

  /** Which URL is fetched. */
  datatype UrlChoice = Stored(url: string) | Resolved(url: string) | Origin(url: string) | NoUrl

  /** The stored stream URL when non-empty; else a non-empty resolved URL;
      else the origin URL, passed through the blob handler when it contains
      "blob:" (which may give nothing). */
  function ChooseUrl(v: VideoMetadata, resolved: Option<string>, extracted: Option<string>): UrlChoice {
    if Truthy(v.streamUrl) then Stored(v.streamUrl.value)
    else if Truthy(resolved) then Resolved(resolved.value)
    else if Contains(v.url, "blob:") then
      if extracted.Some? then Origin(extracted.value) else NoUrl
    else Origin(v.url)
  }

  /** The stored stream URL wins; the resolver is consulted only without
      one, and the blob handler only for an origin URL containing "blob:". */
  lemma ChooseUrlPriorities(v: VideoMetadata, resolved: Option<string>, resolved2: Option<string>,
                            extracted: Option<string>, extracted2: Option<string>)
    ensures Truthy(v.streamUrl) ==> ChooseUrl(v, resolved, extracted) == ChooseUrl(v, resolved2, extracted2)
    ensures !Contains(v.url, "blob:") ==> ChooseUrl(v, resolved, extracted) == ChooseUrl(v, resolved, extracted2)
    ensures !Truthy(v.streamUrl) && !Truthy(resolved) && !Contains(v.url, "blob:") ==>
              ChooseUrl(v, resolved, extracted) == Origin(v.url)
    ensures ChooseUrl(v, resolved, extracted).NoUrl? ==> Contains(v.url, "blob:") && extracted.None?
  {
  }

  /** Characters replaced by "_" in file names. */
  const Unsafe: set<char> := {'<', '>', ':', '"', '/', '\\', '|', '?', '*'}

  /** `_generate_filename`: the id with ".mp4" appended unless already there,
      then every unsafe character replaced. */
  function GenerateFilename(videoId: string): (r: string)
    ensures EndsWith(r, ".mp4")
    ensures forall i :: 0 <= i < |r| ==> r[i] !in Unsafe
    ensures |r| == if EndsWith(videoId, ".mp4") then |videoId| else |videoId| + 4
    ensures forall i :: 0 <= i < |videoId| ==> r[i] == (if videoId[i] in Unsafe then '_' else videoId[i])
  {
    var base := if EndsWith(videoId, ".mp4") then videoId else videoId + ".mp4";
    var r := ReplaceChars(base, Unsafe, '_');
    assert r[|r| - 4..] == base[|base| - 4..] by {
      forall i | |r| - 4 <= i < |r| ensures r[i] == base[i] {
        assert base[i] == base[|base| - 4..][i - (|base| - 4)];
      }
    }
    r
  }

  /** The file name is a single path component, so the output path's name
      is exactly that file name. */
  lemma FilenameIsOneComponent(dir: string, videoId: string)
    ensures '/' !in GenerateFilename(videoId)
    ensures Name(JoinPath(dir, GenerateFilename(videoId))) == GenerateFilename(videoId)
  {
    var f := GenerateFilename(videoId);
    assert '/' !in f by {
      forall i | 0 <= i < |f| ensures f[i] != '/' { assert f[i] !in Unsafe; }
    }
    NameAfterSlash(dir, f);
  }

  /** The status writes of one `download_video` call that does not take the
      shortcut: in progress first, the stream URL when one was resolved,
      then downloaded with the file path or failed. */
  function ServiceRows(rows: seq<VideoRecord>, v: VideoMetadata, choice: UrlChoice, result: DownloadResult)
    : seq<VideoRecord>
  {
    var marked := PatchRows(rows, v.videoId, v.source,
                            ProcessedPatch(ProcessingStatus(download := DownloadStatus.InProgress), None));
    var streamed := if choice.Resolved? then SetStreamUrl(marked, v.videoId, v.source, choice.url) else marked;
    var terminal := if result.success then ProcessedPatch(ProcessingStatus(download := DownloadStatus.Downloaded), result.filePath)
                    else ProcessedPatch(ProcessingStatus(download := DownloadStatus.Failed), None);
    PatchRows(streamed, v.videoId, v.source, terminal)
  }

  /** After a download that did not take the shortcut, the video's row is
      "downloaded" with the file path when the result is a success and
      "failed" otherwise; its audio and transcription columns are untouched,
      its stream URL changes only to a resolved one, and no other row
      changes. */
  lemma ServiceRowsTerminal(rows: seq<VideoRecord>, v: VideoMetadata, choice: UrlChoice, result: DownloadResult)
    requires UniqueIds(rows)
    ensures var r := ServiceRows(rows, v, choice, result);
            |r| == |rows| && UniqueIds(r)
            && (forall k :: 0 <= k < |rows| && Some(k) != Find(rows, v.videoId, v.source) ==> r[k] == rows[k])
    ensures Find(ServiceRows(rows, v, choice, result), v.videoId, v.source) == Find(rows, v.videoId, v.source)
    ensures Find(rows, v.videoId, v.source).Some? ==>
              var i := Find(rows, v.videoId, v.source).value;
              var r := ServiceRows(rows, v, choice, result);
              r[i] == rows[i].(downloadStatus := if result.success then "downloaded" else "failed",
                               downloadPath := if result.success && Truthy(result.filePath) then result.filePath
                                               else rows[i].downloadPath,
                               streamUrl := if choice.Resolved? then Some(choice.url) else rows[i].streamUrl)
  {
    var r := ServiceRows(rows, v, choice, result);
    match Find(rows, v.videoId, v.source)
    case None =>
      assert r == rows;
    case Some(i) =>
      ServiceRowsAt(rows, v, choice, result, i);
  }

  /** The found row is the only one replaced. */
  lemma ServiceRowsAt(rows: seq<VideoRecord>, v: VideoMetadata, choice: UrlChoice, result: DownloadResult, i: nat)
    requires UniqueIds(rows) && Find(rows, v.videoId, v.source) == Some(i)
    ensures var r := ServiceRows(rows, v, choice, result);
            r == rows[i := rows[i].(downloadStatus := if result.success then "downloaded" else "failed",
                                    downloadPath := if result.success && Truthy(result.filePath) then result.filePath
                                                    else rows[i].downloadPath,
                                    streamUrl := if choice.Resolved? then Some(choice.url) else rows[i].streamUrl)]
            && UniqueIds(r) && Find(r, v.videoId, v.source) == Some(i)
  {
    var id, src := v.videoId, v.source;
    var p1 := ProcessedPatch(ProcessingStatus(download := DownloadStatus.InProgress), None);
    var p2 := if result.success then ProcessedPatch(ProcessingStatus(download := DownloadStatus.Downloaded), result.filePath)
              else ProcessedPatch(ProcessingStatus(download := DownloadStatus.Failed), None);
    var marked := PatchRows(rows, id, src, p1);
    var streamed := if choice.Resolved? then SetStreamUrl(marked, id, src, choice.url) else marked;
    var x := rows[i];
    PatchAt(rows, id, src, p1, i);
    var y := if choice.Resolved? then Apply(x, p1).(streamUrl := Some(choice.url)) else Apply(x, p1);
    if choice.Resolved? {
      UpdateTwice(rows, i, Apply(x, p1), y);
    }
    StreamedKeys(rows, i, y);
    PatchAt(streamed, id, src, p2, i);
    UpdateTwice(rows, i, y, Apply(y, p2));
    TerminalRecord(x, choice, result);
  }

  /** The writes of one call change only the video's own row, keep every
      key, and leave that row with the status the result stands for. */
  lemma ServiceRowsFrame(rows: seq<VideoRecord>, v: VideoMetadata, choice: UrlChoice, result: DownloadResult)
    requires UniqueIds(rows)
    ensures var r := ServiceRows(rows, v, choice, result);
            UniqueIds(r) && SameKeys(r, rows)
            && (forall k :: 0 <= k < |rows| && !(rows[k].id == v.videoId && rows[k].source == v.source) ==> r[k] == rows[k])
            && (Find(rows, v.videoId, v.source).Some? ==>
                  r[Find(rows, v.videoId, v.source).value].downloadStatus == TerminalStatus(result))
  {
    ServiceRowsTerminal(rows, v, choice, result);
    var r := ServiceRows(rows, v, choice, result);
    assert TerminalStatus(result) == if result.success then "downloaded" else "failed";
    forall k | 0 <= k < |rows| && !(rows[k].id == v.videoId && rows[k].source == v.source) ensures r[k] == rows[k] {
      assert Some(k) != Find(rows, v.videoId, v.source);
    }
    forall k | 0 <= k < |rows| ensures r[k].id == rows[k].id && r[k].source == rows[k].source {
      if Some(k) != Find(rows, v.videoId, v.source) {
        assert r[k] == rows[k];
      }
    }
  }

  lemma UpdateTwice(s: seq<VideoRecord>, i: nat, a: VideoRecord, b: VideoRecord)
    requires i < |s|
    ensures s[i := a][i := b] == s[i := b]
  {
  }

  /** Replacing one row by a row with the same keys keeps ids unique and
      every lookup where it was. */
  lemma StreamedKeys(rows: seq<VideoRecord>, i: nat, y: VideoRecord)
    requires UniqueIds(rows) && i < |rows| && y.id == rows[i].id && y.source == rows[i].source
    ensures UniqueIds(rows[i := y])
    ensures forall id, source :: Find(rows[i := y], id, source) == Find(rows, id, source)
  {
    var r := rows[i := y];
    assert forall k :: 0 <= k < |r| ==> r[k].id == rows[k].id && r[k].source == rows[k].source;
    forall id, source ensures Find(r, id, source) == Find(rows, id, source) {
      SameKeysSameFind(rows, r, id, source);
    }
  }

  /** The video's own row through the three writes. */
  lemma TerminalRecord(x: VideoRecord, choice: UrlChoice, result: DownloadResult)
    ensures var p1 := ProcessedPatch(ProcessingStatus(download := DownloadStatus.InProgress), None);
            var p2 := if result.success then ProcessedPatch(ProcessingStatus(download := DownloadStatus.Downloaded), result.filePath)
                      else ProcessedPatch(ProcessingStatus(download := DownloadStatus.Failed), None);
            var y := if choice.Resolved? then Apply(x, p1).(streamUrl := Some(choice.url)) else Apply(x, p1);
            Apply(y, p2) == x.(downloadStatus := if result.success then "downloaded" else "failed",
                               downloadPath := if result.success && Truthy(result.filePath) then result.filePath
                                               else x.downloadPath,
                               streamUrl := if choice.Resolved? then Some(choice.url) else x.streamUrl)
  {
  }

  /** The shortcut of `download_video`: the video's row says "downloaded"
      and names a stored path that exists on the disk. */
  predicate DoneIn(rows: seq<VideoRecord>, files: map<string, nat>, v: VideoMetadata) {
    match Find(rows, v.videoId, v.source)
    case None => false
    case Some(i) => rows[i].downloadStatus == "downloaded" && Truthy(rows[i].downloadPath)
                    && rows[i].downloadPath.value in files
  }

  /** The download status a row is left with by a call with this result. */
  function TerminalStatus(r: DownloadResult): string {
    if r.success then DownloadStatus.Downloaded.Value() else DownloadStatus.Failed.Value()
  }

  /** What one `download_video` call leaves: its result, the rows, the files. */
  datatype Outcome = Outcome(result: DownloadResult, rows: seq<VideoRecord>, files: map<string, nat>)

  /** What `download_videos` leaves: the results in order, the rows, the files. */
  datatype RunOutcome = RunOutcome(results: seq<DownloadResult>, rows: seq<VideoRecord>, files: map<string, nat>)

  /** No later video in the list has the same id and source as video `j`. */
  predicate LastOfKey(videos: seq<VideoMetadata>, j: int)
    requires 0 <= j < |videos|
  {
    forall l :: j < l < |videos| ==> !(videos[l].videoId == videos[j].videoId && videos[l].source == videos[j].source)
  }

  /** No video in the list has the id and source of `x`. */
  predicate Unlisted(videos: seq<VideoMetadata>, x: VideoRecord) {
    forall j :: 0 <= j < |videos| ==> !(videos[j].videoId == x.id && videos[j].source == x.source)
  }

  class DownloadService {
    const state: StateService
    const outputDirectory: string
    const downloader: VideoDownloader
    const blob: BlobHandler
    const disk: Disk

    constructor (state: StateService, outputDirectory: string, disk: Disk, maxRetries: int := 3,
                 useBlobHandler: bool := false, ytdlpAvailable: bool := true)
      ensures this.state == state && this.outputDirectory == outputDirectory && this.disk == disk
      ensures downloader.maxRetries == maxRetries && downloader.ytdlpAvailable == ytdlpAvailable
      ensures blob.useBrowser == useBlobHandler
    {
      this.state := state;
      this.outputDirectory := outputDirectory;
      this.disk := disk;
      downloader := new VideoDownloader(maxRetries, ytdlpAvailable);
      blob := new BlobHandler(useBlobHandler);
    }

    /** The shortcut: the store says downloaded and the stored path exists. */
    predicate AlreadyDownloaded(v: VideoMetadata)
      requires state.db.Valid()
      reads state.db, disk
    {
      state.IsVideoProcessed(v.videoId, v.source)
      && state.GetDownloadPath(v.videoId, v.source).Some?
      && disk.Exists(state.GetDownloadPath(v.videoId, v.source).value)
    }

    /** The output path of a video. */
    function OutputPath(v: VideoMetadata): string {
      JoinPath(outputDirectory, GenerateFilename(v.videoId))
    }

    /** The URL choice for a video against the resolvers and the browser. */
    function Choice(v: VideoMetadata, house: Resolver, senate: Resolver, browse: Browser): UrlChoice {
      var extracted := blob.ExtractVideoUrl(v.url, browse(v.url));
      ChooseUrl(v, ResolveStreamUrl(v, house, senate),
                if extracted.Some? then downloader.GetDirectVideoUrl(extracted.value) else None)
    }

    /** One `download_video` call as a function of the rows and the files
        it starts from. Only the video's own row changes, and it is left
        with the status its result stands for. */
    function Step(rows: seq<VideoRecord>, files: map<string, nat>, v: VideoMetadata, house: Resolver, senate: Resolver,
                  browse: Browser, fetch: Fetcher, run: YtdlpOracle): (o: Outcome)
      requires UniqueIds(rows)
      ensures o.result.videoId == v.videoId && UniqueIds(o.rows) && SameKeys(o.rows, rows)
      ensures forall k :: 0 <= k < |rows| && !(rows[k].id == v.videoId && rows[k].source == v.source) ==> o.rows[k] == rows[k]
      ensures Find(rows, v.videoId, v.source).Some? ==>
                o.rows[Find(rows, v.videoId, v.source).value].downloadStatus == TerminalStatus(o.result)
    {
      if DoneIn(rows, files, v) then
        Outcome(DownloadResult(true, v.videoId, rows[Find(rows, v.videoId, v.source).value].downloadPath), rows, files)
      else
        var choice := Choice(v, house, senate, browse);
        var fetched := Fetched(v, choice, fetch, run, files);
        ServiceRowsFrame(rows, v, choice, fetched.0);
        Outcome(fetched.0, ServiceRows(rows, v, choice, fetched.0), fetched.1)
    }

    /** The result and the files of the fetch for a chosen URL; with no URL
        the call fails before touching the disk. */
    function Fetched(v: VideoMetadata, choice: UrlChoice, fetch: Fetcher, run: YtdlpOracle, files: map<string, nat>)
      : (res: (DownloadResult, map<string, nat>))
      ensures res.0.videoId == v.videoId
      ensures choice.NoUrl? ==> !res.0.success && res.1 == files
    {
      if choice.NoUrl? then (Downloader.Failed(v.videoId, ServiceError("no URL to download")), files)
      else DownloadOutcome(choice.url, OutputPath(v), v.videoId, downloader.maxRetries,
                           downloader.ytdlpAvailable, fetch(choice.url), run, files)
    }

    /** `download_videos` as a function: the calls one after the other, each
        on what the previous ones left. */
    function Run(rows: seq<VideoRecord>, files: map<string, nat>, videos: seq<VideoMetadata>, house: Resolver,
                 senate: Resolver, browse: Browser, fetch: Fetcher, run: YtdlpOracle): (o: RunOutcome)
      requires UniqueIds(rows)
      ensures UniqueIds(o.rows) && SameKeys(o.rows, rows) && |o.results| == |videos|
      ensures forall j :: 0 <= j < |videos| ==> o.results[j].videoId == videos[j].videoId
      decreases |videos|
    {
      if |videos| == 0 then RunOutcome([], rows, files)
      else
        var init := videos[..|videos| - 1];
        var before := Run(rows, files, init, house, senate, browse, fetch, run);
        var last := Step(before.rows, before.files, videos[|videos| - 1], house, senate, browse, fetch, run);
        var results := before.results + [last.result];
        assert SameKeys(last.rows, rows) by {
          forall k | 0 <= k < |rows| ensures last.rows[k].id == rows[k].id && last.rows[k].source == rows[k].source {
            assert last.rows[k].id == before.rows[k].id && last.rows[k].source == before.rows[k].source;
          }
        }
        assert forall j :: 0 <= j < |videos| ==> results[j].videoId == videos[j].videoId by {
          forall j | 0 <= j < |videos| ensures results[j].videoId == videos[j].videoId {
            if j < |init| {
              assert results[j] == before.results[j] && init[j] == videos[j];
            } else {
              assert results[j] == last.result;
            }
          }
        }
        RunOutcome(results, last.rows, last.files)
    }

    /** A row whose key no listed video has is left as it was. */
    lemma {:induction false} RunKeepsOthers(rows: seq<VideoRecord>, files: map<string, nat>, videos: seq<VideoMetadata>,
                                            house: Resolver, senate: Resolver, browse: Browser, fetch: Fetcher,
                                            run: YtdlpOracle)
      requires UniqueIds(rows)
      ensures var o := Run(rows, files, videos, house, senate, browse, fetch, run);
              forall k :: 0 <= k < |rows| && Unlisted(videos, rows[k]) ==> o.rows[k] == rows[k]
      decreases |videos|
    {
      if |videos| > 0 {
        var init := videos[..|videos| - 1];
        var v := videos[|videos| - 1];
        RunKeepsOthers(rows, files, init, house, senate, browse, fetch, run);
        var before := Run(rows, files, init, house, senate, browse, fetch, run);
        var last := Step(before.rows, before.files, v, house, senate, browse, fetch, run);
        forall k | 0 <= k < |rows| && Unlisted(videos, rows[k]) ensures last.rows[k] == rows[k] {
          assert Unlisted(init, rows[k]) by {
            forall j | 0 <= j < |init| ensures !(init[j].videoId == rows[k].id && init[j].source == rows[k].source) {
              assert init[j] == videos[j];
            }
          }
          assert before.rows[k] == rows[k];
          assert !(v.videoId == rows[k].id && v.source == rows[k].source);
        }
      }
    }

    /** The row of a listed video ends with the status its last call's
        result stands for, at the position it had. */
    lemma {:induction false} RunTerminal(rows: seq<VideoRecord>, files: map<string, nat>, videos: seq<VideoMetadata>,
                                         house: Resolver, senate: Resolver, browse: Browser, fetch: Fetcher,
                                         run: YtdlpOracle, j: int)
      requires UniqueIds(rows) && 0 <= j < |videos| && LastOfKey(videos, j)
      requires Find(rows, videos[j].videoId, videos[j].source).Some?
      ensures var o := Run(rows, files, videos, house, senate, browse, fetch, run);
              var i := Find(rows, videos[j].videoId, videos[j].source).value;
              Find(o.rows, videos[j].videoId, videos[j].source) == Some(i)
              && o.rows[i].downloadStatus == TerminalStatus(o.results[j])
      decreases |videos|
    {
      var init := videos[..|videos| - 1];
      var v := videos[|videos| - 1];
      var before := Run(rows, files, init, house, senate, browse, fetch, run);
      var last := Step(before.rows, before.files, v, house, senate, browse, fetch, run);
      var id, src := videos[j].videoId, videos[j].source;
      var i := Find(rows, id, src).value;
      assert Run(rows, files, videos, house, senate, browse, fetch, run)
             == RunOutcome(before.results + [last.result], last.rows, last.files);
      SameKeysSameFind(before.rows, rows, id, src);
      SameKeysSameFind(last.rows, before.rows, id, src);
      if j < |videos| - 1 {
        LastOfKeyInit(videos, j);
        RunTerminal(rows, files, init, house, senate, browse, fetch, run, j);
        assert !(before.rows[i].id == v.videoId && before.rows[i].source == v.source);
        assert (before.results + [last.result])[j] == before.results[j];
      }
    }

    lemma LastOfKeyInit(videos: seq<VideoMetadata>, j: int)
      requires 0 <= j < |videos| - 1 && LastOfKey(videos, j)
      ensures videos[..|videos| - 1][j] == videos[j] && LastOfKey(videos[..|videos| - 1], j)
      ensures !(videos[|videos| - 1].videoId == videos[j].videoId && videos[|videos| - 1].source == videos[j].source)
    {
    }

    /** Every listed video that has a row: the row ends with the status of
        the video's last call's result. */
    lemma RunTerminalAll(rows: seq<VideoRecord>, files: map<string, nat>, videos: seq<VideoMetadata>,
                         house: Resolver, senate: Resolver, browse: Browser, fetch: Fetcher, run: YtdlpOracle)
      requires UniqueIds(rows)
      ensures var o := Run(rows, files, videos, house, senate, browse, fetch, run);
              forall j :: 0 <= j < |videos| && LastOfKey(videos, j) && Find(rows, videos[j].videoId, videos[j].source).Some? ==>
                o.rows[Find(rows, videos[j].videoId, videos[j].source).value].downloadStatus == TerminalStatus(o.results[j])
    {
      forall j | 0 <= j < |videos| && LastOfKey(videos, j) && Find(rows, videos[j].videoId, videos[j].source).Some? {
        RunTerminal(rows, files, videos, house, senate, browse, fetch, run, j);
      }
    }

    /** `download_video`, with the status writes `mark_video_processed` is
        meant to make. */
    method DownloadVideo(v: VideoMetadata, house: Resolver, senate: Resolver, browse: Browser,
                         fetch: Fetcher, run: YtdlpOracle) returns (r: DownloadResult)
      requires state.db.Valid()
      modifies state.db, disk
      ensures state.db.Valid() && state.db.transcripts == old(state.db.transcripts)
      ensures r.videoId == v.videoId
      ensures old(AlreadyDownloaded(v)) ==>
                r == DownloadResult(true, v.videoId, old(state.GetDownloadPath(v.videoId, v.source)))
                && state.db.rows == old(state.db.rows) && disk.files == old(disk.files)
      ensures !old(AlreadyDownloaded(v)) ==>
                var choice := Choice(v, house, senate, browse);
                state.db.rows == ServiceRows(old(state.db.rows), v, choice, r)
                && (choice.NoUrl? ==> r == Downloader.Failed(v.videoId, ServiceError("no URL to download"))
                                      && disk.files == old(disk.files))
                && (!choice.NoUrl? ==>
                      (r, disk.files) == DownloadOutcome(choice.url, OutputPath(v), v.videoId, downloader.maxRetries,
                                                         downloader.ytdlpAvailable, fetch(choice.url), run,
                                                         old(disk.files)))
      ensures Step(old(state.db.rows), old(disk.files), v, house, senate, browse, fetch, run)
              == Outcome(r, state.db.rows, disk.files)
    {
      AlreadyDownloadedIn(v);
      if state.IsVideoProcessed(v.videoId, v.source) {
        var existing := state.GetDownloadPath(v.videoId, v.source);
        if existing.Some? && disk.Exists(existing.value) {
          return DownloadResult(true, v.videoId, existing);
        }
      }
      r := DownloadFresh(v, house, senate, browse, fetch, run);
    }

    /** The shortcut test on the store and the disk is `DoneIn` on their
        contents, and the path it returns is the row's. */
    lemma AlreadyDownloadedIn(v: VideoMetadata)
      requires state.db.Valid()
      ensures AlreadyDownloaded(v) <==> DoneIn(state.db.rows, disk.files, v)
      ensures AlreadyDownloaded(v) ==>
                state.GetDownloadPath(v.videoId, v.source)
                == state.db.rows[Find(state.db.rows, v.videoId, v.source).value].downloadPath
    {
    }

    /** `download_video` past the shortcut: the in-progress write, the URL,
        the download and the terminal status write; an exception on the way
        to the URL records the failure. */
    method DownloadFresh(v: VideoMetadata, house: Resolver, senate: Resolver, browse: Browser,
                         fetch: Fetcher, run: YtdlpOracle) returns (r: DownloadResult)
      requires state.db.Valid()
      modifies state.db, disk
      ensures state.db.Valid() && state.db.transcripts == old(state.db.transcripts)
      ensures r.videoId == v.videoId
      ensures var choice := Choice(v, house, senate, browse);
              state.db.rows == ServiceRows(old(state.db.rows), v, choice, r)
              && (choice.NoUrl? ==> r == Downloader.Failed(v.videoId, ServiceError("no URL to download"))
                                    && disk.files == old(disk.files))
              && (!choice.NoUrl? ==>
                    (r, disk.files) == DownloadOutcome(choice.url, OutputPath(v), v.videoId, downloader.maxRetries,
                                                       downloader.ytdlpAvailable, fetch(choice.url), run,
                                                       old(disk.files)))
    {
      state.MarkVideoProcessed(v, ProcessingStatus(download := DownloadStatus.InProgress), None);
      var url := PickUrl(v, house, senate, browse);
      if url.None? {
        // get_direct_video_url(None) raises; the handler records the failure
        r := Downloader.Failed(v.videoId, ServiceError("no URL to download"));
        state.MarkVideoProcessed(v, ProcessingStatus(download := DownloadStatus.Failed), None);
        return;
      }
      var out := JoinPath(outputDirectory, GenerateFilename(v.videoId));
      r := downloader.Download(url.value, out, v.videoId, fetch(url.value), run, disk);
      if r.success {
        state.MarkVideoProcessed(v, ProcessingStatus(download := DownloadStatus.Downloaded), r.filePath);
      } else {
        state.MarkVideoProcessed(v, ProcessingStatus(download := DownloadStatus.Failed), None);
      }
    }

    /** The URL `download_video` fetches: the stored stream URL, else a
        resolved one (written to the store), else the origin URL through the
        blob handler and the downloader's normalisation; nothing where
        those raise. */
    method PickUrl(v: VideoMetadata, house: Resolver, senate: Resolver, browse: Browser) returns (url: Option<string>)
      requires state.db.Valid()
      modifies state.db
      ensures state.db.Valid() && state.db.transcripts == old(state.db.transcripts)
      ensures var choice := Choice(v, house, senate, browse);
              url == (if choice.NoUrl? then None else Some(choice.url))
              && state.db.rows == (if choice.Resolved? then SetStreamUrl(old(state.db.rows), v.videoId, v.source, choice.url)
                                   else old(state.db.rows))
    {
      if Truthy(v.streamUrl) {
        return v.streamUrl;
      }
      var resolved := ResolveStreamUrl(v, house, senate);
      if Truthy(resolved) {
        state.db.UpdateStreamUrl(v.videoId, v.source, resolved.value);
        return resolved;
      }
      var extracted: Option<string>;
      if Contains(v.url, "blob:") {
        extracted := blob.ExtractVideoUrl(v.url, browse(v.url));
      } else {
        extracted := Some(v.url);
      }
      if extracted.None? {
        return None;
      }
      url := downloader.GetDirectVideoUrl(extracted.value);
    }

    /** `download_videos`: the calls one after the other, each on what the
        previous ones left. Rows of unlisted videos stay as they were, the
        transcripts are untouched, and a listed video's row ends with the
        status of its last call's result. */
    method DownloadVideos(videos: seq<VideoMetadata>, house: Resolver, senate: Resolver, browse: Browser,
                          fetch: Fetcher, run: YtdlpOracle) returns (results: seq<DownloadResult>)
      requires state.db.Valid()
      modifies state.db, disk
      ensures state.db.Valid() && state.db.transcripts == old(state.db.transcripts)
      ensures |results| == |videos|
      ensures forall k :: 0 <= k < |videos| ==> results[k].videoId == videos[k].videoId
      ensures Run(old(state.db.rows), old(disk.files), videos, house, senate, browse, fetch, run)
              == RunOutcome(results, state.db.rows, disk.files)
      ensures SameKeys(state.db.rows, old(state.db.rows))
      ensures forall k :: 0 <= k < |old(state.db.rows)| && Unlisted(videos, old(state.db.rows)[k]) ==>
                state.db.rows[k] == old(state.db.rows)[k]
      ensures forall j :: 0 <= j < |videos| && LastOfKey(videos, j) && Find(old(state.db.rows), videos[j].videoId, videos[j].source).Some? ==>
                state.db.rows[Find(old(state.db.rows), videos[j].videoId, videos[j].source).value].downloadStatus
                == TerminalStatus(results[j])
    {
      ghost var rows0, files0 := state.db.rows, disk.files;
      results := [];
      for i := 0 to |videos|
        invariant state.db.Valid() && state.db.transcripts == old(state.db.transcripts)
        invariant Run(rows0, files0, videos[..i], house, senate, browse, fetch, run)
                  == RunOutcome(results, state.db.rows, disk.files)
      {
        ghost var rows, files := state.db.rows, disk.files;
        var result := DownloadVideo(videos[i], house, senate, browse, fetch, run);
        assert videos[..i + 1][..i] == videos[..i] && videos[..i + 1][i] == videos[i];
        assert Step(rows, files, videos[i], house, senate, browse, fetch, run) == Outcome(result, state.db.rows, disk.files);
        results := results + [result];
      }
      assert videos[..|videos|] == videos;
      RunKeepsOthers(rows0, files0, videos, house, senate, browse, fetch, run);
      RunTerminalAll(rows0, files0, videos, house, senate, browse, fetch, run);
    }
  }
}
