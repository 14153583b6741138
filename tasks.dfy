/** The Celery task bodies of the pipeline: discovery registers videos and
    dispatches one download each; the download task downloads, extracts the
    audio and dispatches a transcription; the transcription task stores a
    transcript; the sweeper re-dispatches failed work. Every task opens
    its own services over the shared record store, broker and disk. */
module Tasks {
  import opened Wrappers
  import opened Text
  import opened Clock
  import opened Metadata
  import opened Database
  import opened State
  import opened Files
  import opened Dispatch
  import opened DateParser
  import opened Discovery
  import opened Downloader
  import opened Blob
  import opened DownloadSvc

  /** `os.getenv(name, default)`: the default only when the variable is unset. */
  function EnvOr(value: Option<string>, default: string): (r: string)
    ensures value.Some? ==> r == value.value
    ensures value.None? ==> r == default
  {
    if value.Some? then value.value else default
  }

  // ---------------------------------------------------------------------
  // discover_videos_task

  /** Why a task raised instead of finishing. */
  datatype TaskError = BadDate(text: string) | Store(error: DbError)

  /** The dates discovery runs with: an explicit range, or a cutoff. */
  datatype Window = Range(start: DateTime, end: DateTime) | Since(cutoff: DateTime)

  /** A date argument as the task reads it: ten characters go through
      `strptime("%Y-%m-%d")` (an end date then moved to 23:59:59), anything
      else through `fromisoformat` with "Z" spelled "+00:00"; where that
      first attempt raises, `fromisoformat` of the raw text; `None` where
      the second attempt raises too. `iso` stands in for `fromisoformat`. */
  function ParseArgument(s: string, endOfDay: bool, iso: DateOracle): (r: Option<DateTime>)
    ensures |s| == 10 && ParseYmd(s).Some? ==>
              r == Some(if endOfDay then EndOfDay(ParseYmd(s).value) else ParseYmd(s).value)
    ensures |s| != 10 && iso(ReplaceChar(s, 'Z', "+00:00")).Some? ==> r == iso(ReplaceChar(s, 'Z', "+00:00"))
    ensures (|s| == 10 && ParseYmd(s).None?) || (|s| != 10 && iso(ReplaceChar(s, 'Z', "+00:00")).None?) ==>
              r == iso(s)
  {
    var first := if |s| == 10 then
                   (match ParseYmd(s)
                    case Some(t) => Some(if endOfDay then EndOfDay(t) else t)
                    case None => None)
                 else iso(ReplaceChar(s, 'Z', "+00:00"));
    if first.Some? then first else iso(s)
  }

  /** A ten-character start date means midnight of that day, a
      ten-character end date the last second of it, so a range from a day
      to the same day holds every valid instant of that day. */
  lemma DayArguments(s: string, iso: DateOracle, t: DateTime)
    requires ParseYmd(s).Some?
    requires Valid(t) && (t.year, t.month, t.day) == (ParseYmd(s).value.year, ParseYmd(s).value.month, ParseYmd(s).value.day)
    ensures var start := ParseArgument(s, false, iso);
            var end := ParseArgument(s, true, iso);
            start.Some? && end.Some?
            && (start.value.hour, start.value.minute, start.value.second) == (0, 0, 0)
            && (end.value.hour, end.value.minute, end.value.second) == (23, 59, 59)
            && Le(start.value, t) && Le(t, end.value)
  {
  }

  /** The window of a discovery run: a range when both date texts are
      non-empty (a text neither parse accepts makes the task raise), else
      `days or 2` days back from now. */
  function TaskWindow(days: Option<int>, startDate: Option<string>, endDate: Option<string>, now: DateTime,
                      iso: DateOracle): (r: Result<Window, TaskError>)
    requires Valid(now)
    ensures Truthy(startDate) && Truthy(endDate) ==>
              (r.Success? <==> ParseArgument(startDate.value, false, iso).Some?
                               && ParseArgument(endDate.value, true, iso).Some?)
              && (r.Success? ==> r.value == Range(ParseArgument(startDate.value, false, iso).value,
                                                  ParseArgument(endDate.value, true, iso).value))
    ensures !(Truthy(startDate) && Truthy(endDate)) ==>
              r == Success(Since(ShiftDays(now, -(if days.None? || days.value == 0 then 2 else days.value))))
  {
    if Truthy(startDate) && Truthy(endDate) then
      var start := ParseArgument(startDate.value, false, iso);
      if start.None? then Failure(BadDate(startDate.value))
      else
        var end := ParseArgument(endDate.value, true, iso);
        if end.None? then Failure(BadDate(endDate.value))
        else Success(Range(start.value, end.value))
    else
      var d := if days.None? || days.value == 0 then 2 else days.value;
      Success(Since(ShiftDays(now, -d)))
  }

  /** Without a range and without a day count, discovery looks two days
      back, and that cutoff lies before now. */
  lemma DefaultLookback(now: DateTime, iso: DateOracle)
    requires Valid(now)
    ensures TaskWindow(None, None, None, now, iso) == Success(Since(ShiftDays(now, -2)))
    ensures Lt(ShiftDays(now, -2), now)
  {
    ShiftBackEarlier(now, 2);
  }

  /** What discovery returns for a window: the services' defaults (archive
      URLs from the environment, 60-day fallback, no limit, streams
      resolved). */
  function DiscoveredIn(w: Window, source: Option<string>, now: DateTime, io: Io,
                        getenv: string -> Option<string>): seq<VideoMetadata>
    requires Valid(now)
  {
    var houseUrl := Pick(None, getenv("HOUSE_ARCHIVE_URL"), DefaultHouseArchiveUrl);
    var senateUrl := Pick(None, getenv("SENATE_API_URL"), DefaultSenateApiUrl);
    match w
    case Range(start, end) => Discovered(houseUrl, senateUrl, None, 60, None, source, true, Some(start), Some(end), now, io)
    case Since(cutoff) => Discovered(houseUrl, senateUrl, Some(cutoff), 60, None, source, true, None, None, now, io)
  }

  /** The download message for a video. */
  function DownloadCall(v: VideoMetadata): TaskCall {
    TaskCall(DownloadTask, v.videoId, v.source)
  }

  /** Registering a video fails when its id belongs to a row of another
      source: the insert hits the primary key. */
  predicate Clashes(rows: seq<VideoRecord>, v: VideoMetadata) {
    Find(rows, v.videoId, v.source).None? && IndexOfId(rows, v.videoId).Some?
  }

  /** The store, the messages sent and whether the loop finished. */
  datatype Registration = Registration(rows: seq<VideoRecord>, sent: seq<TaskCall>, ok: bool)

  /** The registration loop: each video registered and then sent to the
      download queue, in order, until a registration raises. */
  function Register(rows: seq<VideoRecord>, vs: seq<VideoMetadata>, now: DateTime): (r: Registration)
    ensures |r.sent| <= |vs| && (r.ok ==> |r.sent| == |vs|)
    decreases |vs|
  {
    if |vs| == 0 then Registration(rows, [], true)
    else if Clashes(rows, vs[0]) then Registration(rows, [], false)
    else
      var rest := Register(DiscoverRows(rows, vs[0], now), vs[1..], now);
      Registration(rest.rows, [DownloadCall(vs[0])] + rest.sent, rest.ok)
  }

  /** The loop sends one download per registered video, in the videos'
      order. */
  lemma {:induction false} RegisterSends(rows: seq<VideoRecord>, vs: seq<VideoMetadata>, now: DateTime)
    ensures var r := Register(rows, vs, now);
            forall k :: 0 <= k < |r.sent| ==> r.sent[k] == DownloadCall(vs[k])
    decreases |vs|
  {
    if |vs| > 0 && !Clashes(rows, vs[0]) {
      var rows1 := DiscoverRows(rows, vs[0], now);
      RegisterSends(rows1, vs[1..], now);
      var rest := Register(rows1, vs[1..], now);
      var sent := [DownloadCall(vs[0])] + rest.sent;
      assert Register(rows, vs, now).sent == sent;
      assert forall k :: 1 <= k < |sent| ==> sent[k] == rest.sent[k - 1] && vs[1..][k - 1] == vs[k];
    }
  }

  /** The loop only appends rows: every row it found stays as it was. */
  lemma {:induction false} RegisterAppends(rows: seq<VideoRecord>, vs: seq<VideoMetadata>, now: DateTime)
    ensures var r := Register(rows, vs, now);
            |r.rows| >= |rows| && r.rows[..|rows|] == rows
    decreases |vs|
  {
    if |vs| > 0 && !Clashes(rows, vs[0]) {
      var rows1 := DiscoverRows(rows, vs[0], now);
      RegisterAppends(rows1, vs[1..], now);
      var rest := Register(rows1, vs[1..], now);
      assert Register(rows, vs, now).rows == rest.rows;
      assert rest.rows[..|rows|] == rows1[..|rows|];
    }
  }

  /** `r` with `calls` sent before its own messages. */
  function After(calls: seq<TaskCall>, r: Registration): Registration {
    r.(sent := calls + r.sent)
  }

  /** Appending a row with a new id leaves every existing id where it was. */
  lemma {:induction false} IndexOfIdAppendKeeps(rows: seq<VideoRecord>, x: VideoRecord, id: string)
    requires IndexOfId(rows, id).Some?
    ensures IndexOfId(rows + [x], id) == IndexOfId(rows, id)
  {
    if rows[0].id != id {
      assert (rows + [x])[1..] == rows[1..] + [x];
      IndexOfIdAppendKeeps(rows[1..], x, id);
    }
  }

  /** Registration never loses a row that lookups already find. */
  lemma DiscoverKeepsFinds(rows: seq<VideoRecord>, v: VideoMetadata, now: DateTime, id: string, source: string)
    requires Find(rows, id, source).Some?
    ensures Find(DiscoverRows(rows, v, now), id, source) == Find(rows, id, source)
  {
    if DiscoverRows(rows, v, now) != rows {
      var x := NewRecord(v.videoId, v.source, v.filename, v.url, v.dateRecorded, v.committee, v.title, None, now);
      IndexOfIdAppendKeeps(rows, x, id);
    }
  }

  /** When the loop finishes, every discovered video has a row under its own
      (id, source), so every dispatched download finds its record. */
  lemma {:induction false} RegisterFindsAll(rows: seq<VideoRecord>, vs: seq<VideoMetadata>, now: DateTime)
    ensures var r := Register(rows, vs, now);
            r.ok ==> forall v :: v in vs ==> Find(r.rows, v.videoId, v.source).Some?
    decreases |vs|
  {
    var r := Register(rows, vs, now);
    if |vs| > 0 && !Clashes(rows, vs[0]) {
      var rows1 := DiscoverRows(rows, vs[0], now);
      DiscoverRegisters(rows, vs[0], now);
      assert Find(rows1, vs[0].videoId, vs[0].source).Some?;
      RegisterFindsAll(rows1, vs[1..], now);
      RegisterKeepsFinds(rows1, vs[1..], now, vs[0].videoId, vs[0].source);
      forall v | v in vs && r.ok ensures Find(r.rows, v.videoId, v.source).Some? {
        if v != vs[0] {
          assert v in vs[1..];
        }
      }
    }
  }

  lemma {:induction false} RegisterKeepsFinds(rows: seq<VideoRecord>, vs: seq<VideoMetadata>, now: DateTime,
                                              id: string, source: string)
    requires Find(rows, id, source).Some?
    ensures Find(Register(rows, vs, now).rows, id, source) == Find(rows, id, source)
    decreases |vs|
  {
    if |vs| > 0 && !Clashes(rows, vs[0]) {
      DiscoverKeepsFinds(rows, vs[0], now, id, source);
      RegisterKeepsFinds(DiscoverRows(rows, vs[0], now), vs[1..], now, id, source);
    }
  }

  /** Over a store that already holds every video, the loop changes no row
      and sends one download per video. */
  lemma {:induction false} RegisterKnown(rows: seq<VideoRecord>, vs: seq<VideoMetadata>, now: DateTime)
    requires forall v :: v in vs ==> Find(rows, v.videoId, v.source).Some?
    ensures Register(rows, vs, now).rows == rows && Register(rows, vs, now).ok
    decreases |vs|
  {
    if |vs| > 0 {
      assert vs[0] in vs;
      assert DiscoverRows(rows, vs[0], now) == rows;
      RegisterKnown(rows, vs[1..], now);
    }
  }

  /** Registration is idempotent: running the loop again over the same
      videos, at any later time, changes no row and dispatches the same
      downloads again. */
  lemma RegisterIdempotent(rows: seq<VideoRecord>, vs: seq<VideoMetadata>, now: DateTime, later: DateTime)
    requires Register(rows, vs, now).ok
    ensures var once := Register(rows, vs, now);
            Register(once.rows, vs, later) == once
  {
    var once := Register(rows, vs, now);
    RegisterFindsAll(rows, vs, now);
    RegisterKnown(once.rows, vs, later);
    RegisterSends(rows, vs, now);
    RegisterSends(once.rows, vs, later);
  }

  /** `discover_videos_task`: works out the window, discovers, then
      registers each video and dispatches its download. The result is the
      number of downloads dispatched, or the exception the task raised. */
  method DiscoverVideosTask(source: Option<string>, days: Option<int>, startDate: Option<string>,
                            endDate: Option<string>, now: DateTime, io: Io, iso: DateOracle,
                            getenv: string -> Option<string>, db: DatabaseManager, broker: Broker)
    returns (r: Result<nat, TaskError>)
    requires Valid(now) && db.Valid()
    modifies db, broker
    ensures db.Valid() && db.transcripts == old(db.transcripts)
    ensures TaskWindow(days, startDate, endDate, now, iso).Failure? ==>
              r == Failure(TaskWindow(days, startDate, endDate, now, iso).error)
              && db.rows == old(db.rows) && broker.sent == old(broker.sent)
    ensures TaskWindow(days, startDate, endDate, now, iso).Success? ==>
              var vs := DiscoveredIn(TaskWindow(days, startDate, endDate, now, iso).value, source, now, io, getenv);
              var reg := Register(old(db.rows), vs, now);
              db.rows == reg.rows && broker.sent == old(broker.sent) + reg.sent
              && (r.Success? <==> reg.ok) && (r.Success? ==> r.value == |vs|)
  {
    var window: Window;
    if Truthy(startDate) && Truthy(endDate) {
      var start := ParseArgument(startDate.value, false, iso);
      if start.None? {
        return Failure(BadDate(startDate.value));
      }
      var end := ParseArgument(endDate.value, true, iso);
      if end.None? {
        return Failure(BadDate(endDate.value));
      }
      window := Range(start.value, end.value);
    } else {
      var d := if days.None? || days.value == 0 then 2 else days.value;
      window := Since(ShiftDays(now, -d));
    }
    assert TaskWindow(days, startDate, endDate, now, iso) == Success(window);
    var videos := RunDiscovery(window, source, now, io, getenv);
    var state := new StateService(db);
    r := RegisterAll(state, broker, videos, now);
  }

  /** The discovery call of the task, over a fresh `DiscoveryService`. */
  method RunDiscovery(window: Window, source: Option<string>, now: DateTime, io: Io,
                      getenv: string -> Option<string>) returns (videos: seq<VideoMetadata>)
    requires Valid(now)
    ensures videos == DiscoveredIn(window, source, now, io, getenv)
  {
    var discovery := new DiscoveryService(None, None, getenv);
    match window
    case Range(start, end) =>
      videos := discovery.DiscoverVideos(None, 60, None, source, true, Some(start), Some(end), now, io);
    case Since(cutoff) =>
      videos := discovery.DiscoverVideos(Some(cutoff), 60, None, source, true, None, None, now, io);
  }

  /** The loop of `discover_videos_task`: register, then dispatch. */
  method RegisterAll(state: StateService, broker: Broker, vs: seq<VideoMetadata>, now: DateTime)
    returns (r: Result<nat, TaskError>)
    requires state.db.Valid()
    modifies state.db, broker
    ensures state.db.Valid() && state.db.transcripts == old(state.db.transcripts)
    ensures var reg := Register(old(state.db.rows), vs, now);
            state.db.rows == reg.rows && broker.sent == old(broker.sent) + reg.sent
            && (r.Success? <==> reg.ok) && (r.Success? ==> r.value == |vs|)
  {
    ghost var rows0, sent0 := state.db.rows, broker.sent;
    ghost var reg := Register(rows0, vs, now);
    ghost var calls: seq<TaskCall> := [];
    var i := 0;
    while i < |vs|
      invariant 0 <= i <= |vs|
      invariant state.db.Valid() && state.db.transcripts == old(state.db.transcripts)
      invariant broker.sent == sent0 + calls
      invariant reg == After(calls, Register(state.db.rows, vs[i..], now))
    {
      var error;
      error, calls := RegisterTurn(state, broker, vs, i, now, reg, calls, sent0);
      if error.Some? {
        return Failure(Store(error.value));
      }
      i := i + 1;
    }
    RegisterEnd(reg, vs, now, calls, state.db.rows);
    return Success(|vs|);
  }

  /** One turn of the loop, for the `i`-th video, with `calls` sent so far
      and `reg` what the whole registration gives. */
  method RegisterTurn(state: StateService, broker: Broker, vs: seq<VideoMetadata>, i: nat, now: DateTime,
                      ghost reg: Registration, ghost calls: seq<TaskCall>, ghost sent0: seq<TaskCall>)
    returns (error: Option<DbError>, ghost calls': seq<TaskCall>)
    requires i < |vs| && state.db.Valid()
    requires reg == After(calls, Register(state.db.rows, vs[i..], now)) && broker.sent == sent0 + calls
    modifies state.db, broker
    ensures state.db.Valid() && state.db.transcripts == old(state.db.transcripts)
    ensures broker.sent == sent0 + calls'
    ensures error.Some? ==> reg == Registration(state.db.rows, calls', false)
    ensures error.None? ==> reg == After(calls', Register(state.db.rows, vs[i + 1..], now))
  {
    RegisterStep(reg, vs, i, now, calls, state.db.rows);
    error := RegisterOne(state, broker, vs[i], now);
    calls' := if error.Some? then calls else calls + [DownloadCall(vs[i])];
  }

  /** What the loop knows before handling the `i`-th video: a clash ends the
      registration with the rows as they are, anything else moves it on. */
  lemma RegisterStep(reg: Registration, vs: seq<VideoMetadata>, i: int, now: DateTime,
                     calls: seq<TaskCall>, rows: seq<VideoRecord>)
    requires 0 <= i < |vs|
    requires reg == After(calls, Register(rows, vs[i..], now))
    ensures Clashes(rows, vs[i]) ==> reg == Registration(rows, calls, false)
    ensures !Clashes(rows, vs[i]) ==>
              reg == After(calls + [DownloadCall(vs[i])], Register(DiscoverRows(rows, vs[i], now), vs[i + 1..], now))
  {
    RegisterUnfold(rows, vs, i, now);
    if !Clashes(rows, vs[i]) {
      AfterAfter(calls, [DownloadCall(vs[i])], Register(DiscoverRows(rows, vs[i], now), vs[i + 1..], now));
    }
  }

  lemma RegisterEnd(reg: Registration, vs: seq<VideoMetadata>, now: DateTime,
                    calls: seq<TaskCall>, rows: seq<VideoRecord>)
    requires reg == After(calls, Register(rows, vs[|vs|..], now))
    ensures reg == Registration(rows, calls, true)
  {
    assert vs[|vs|..] == [];
  }

  /** One turn of the loop: `mark_video_discovered`, then the download
      message when it did not raise. */
  method RegisterOne(state: StateService, broker: Broker, v: VideoMetadata, now: DateTime)
    returns (error: Option<DbError>)
    requires state.db.Valid()
    modifies state.db, broker
    ensures state.db.Valid() && state.db.transcripts == old(state.db.transcripts)
    ensures error.Some? <==> Clashes(old(state.db.rows), v)
    ensures state.db.rows == DiscoverRows(old(state.db.rows), v, now)
    ensures error.Some? ==> state.db.rows == old(state.db.rows)
    ensures broker.sent == old(broker.sent) + (if error.None? then [DownloadCall(v)] else [])
  {
    var marked := state.MarkVideoDiscovered(v, now);
    if marked.Failure? {
      return Some(marked.error);
    }
    broker.Send(DownloadTask, v.videoId, v.source);
    return None;
  }

  /** One turn of the registration loop. */
  lemma RegisterUnfold(rows: seq<VideoRecord>, vs: seq<VideoMetadata>, i: int, now: DateTime)
    requires 0 <= i < |vs|
    ensures Register(rows, vs[i..], now)
            == if Clashes(rows, vs[i]) then Registration(rows, [], false)
               else After([DownloadCall(vs[i])], Register(DiscoverRows(rows, vs[i], now), vs[i + 1..], now))
  {
    var rest := vs[i..];
    assert rest[0] == vs[i] && rest[1..] == vs[i + 1..];
    RegisterHead(rows, rest, now);
  }

  lemma RegisterHead(rows: seq<VideoRecord>, vs: seq<VideoMetadata>, now: DateTime)
    requires 0 < |vs|
    ensures Register(rows, vs, now)
            == if Clashes(rows, vs[0]) then Registration(rows, [], false)
               else After([DownloadCall(vs[0])], Register(DiscoverRows(rows, vs[0], now), vs[1..], now))
  {
  }

  lemma AfterAfter(a: seq<TaskCall>, b: seq<TaskCall>, r: Registration)
    ensures After(a, After(b, r)) == After(a + b, r)
  {
    assert a + (b + r.sent) == (a + b) + r.sent;
  }

  // ---------------------------------------------------------------------
  // download_video_task

  /** `extract_audio(video_path, output_dir)`: the WAV file ffmpeg wrote,
      with its size, or nothing where extraction failed. */
  type AudioExtractor = (string, string) -> Option<(string, nat)>

  /** The provider's transcript text for (provider type, audio path), or
      nothing where building the provider or transcribing raised. */
  type Transcriber = (string, string) -> Option<string>

  /** What the workers reach outside the store: the environment, the
      scrapers' resolvers, the browser, the network, yt-dlp, ffmpeg and the
      speech-to-text provider. */
  datatype Workers = Workers(getenv: string -> Option<string>, house: Resolver, senate: Resolver, browse: Browser,
                             fetch: Fetcher, run: YtdlpOracle, extract: AudioExtractor, transcribe: Transcriber)

  /** `os.getenv("STORAGE_PATH", "./data")` */
  function Storage(env: Workers): string {
    EnvOr(env.getenv("STORAGE_PATH"), "./data")
  }

  /** `str(result.file_path)`, which spells a missing path "None". */
  function PathText(p: Option<string>): (r: string)
    ensures p.Some? ==> r == p.value
    ensures p.None? ==> r != ""
  {
    if p.Some? then p.value else "None"
  }

  /** The path of an extracted audio file. */
  function AudioPath(extracted: Option<(string, nat)>): (r: Option<string>)
    ensures r.Some? <==> extracted.Some?
    ensures r.Some? ==> r.value == extracted.value.0
  {
    if extracted.Some? then Some(extracted.value.0) else None
  }

  /** The dictionary the download task builds from a stored row: every
      column of the metadata except the discovery time. */
  function RecordDict(x: VideoRecord): (d: Dict)
    ensures d.Keys == Keys - {"date_discovered"}
  {
    map["id" := Text(x.id), "source" := Text(x.source), "filename" := Text(x.filename), "url" := Text(x.url),
        "stream_url" := OptText(x.streamUrl), "date_recorded" := Date(x.dateRecorded),
        "committee" := OptText(x.committee), "title" := OptText(x.title)]
  }

  /** The metadata rebuilt from a row always exists; it carries the row's
      columns, and its discovery time is the task's clock, not the stored
      one. */
  lemma RecordMetadata(x: VideoRecord, now: DateTime)
    ensures FromDict(RecordDict(x), now)
            == Success(VideoMetadata(x.id, x.source, x.filename, x.url, x.dateRecorded, x.streamUrl, x.committee,
                                     x.title, now))
  {
  }

  /** The outcome of a download task: no record, or the download result
      and the audio path extraction gave (nothing when it did not run). */
  datatype DownloadRun = NoRecord | Ran(download: DownloadResult, audio: Option<string>)

  /** The row after a download task: the download status from the result;
      on success the path as text, and the audio status and path from the
      extraction; the stream URL kept or replaced by a non-empty resolved
      one; every other column as before. */
  predicate DownloadedRow(x0: VideoRecord, x: VideoRecord, result: DownloadResult, audio: Option<string>) {
    var ok := result.success;
    var path := PathText(result.filePath);
    x == x0.(streamUrl := x.streamUrl,
             downloadStatus := if ok then "downloaded" else "failed",
             audioStatus := if !ok then x0.audioStatus else if Truthy(audio) then "extracted" else "failed",
             downloadPath := if ok && path != "" then Some(path) else x0.downloadPath,
             audioPath := if ok && Truthy(audio) then audio else x0.audioPath)
    && (x.streamUrl == x0.streamUrl || Truthy(x.streamUrl))
  }

  /** `download_video_task`: reads the row, marks the download in
      progress, runs the download service, then records the outcome; after
      a successful download it extracts the audio and, when that gives a
      path, dispatches the transcription. */
  method DownloadVideoTask(videoId: string, source: string, env: Workers, now: DateTime, db: DatabaseManager,
                           broker: Broker, disk: Disk) returns (r: DownloadRun)
    requires db.Valid()
    modifies db, broker, disk
    ensures db.Valid() && db.transcripts == old(db.transcripts)
    ensures r.NoRecord? <==> old(db.GetVideoRecord(videoId, source)).None?
    ensures r.NoRecord? ==> db.rows == old(db.rows) && broker.sent == old(broker.sent) && disk.files == old(disk.files)
    ensures r.Ran? ==>
              var i := Find(old(db.rows), videoId, source).value;
              |db.rows| == |old(db.rows)|
              && (forall k :: 0 <= k < |db.rows| && k != i ==> db.rows[k] == old(db.rows)[k])
              && DownloadedRow(old(db.rows)[i], db.rows[i], r.download, r.audio)
    ensures r.Ran? ==> r.download.videoId == videoId
    ensures r.Ran? && !r.download.success ==> r.audio.None?
    ensures r.Ran? && r.download.success ==>
              r.audio == AudioPath(env.extract(PathText(r.download.filePath), JoinPath(Storage(env), "audio")))
    ensures r.Ran? && r.download.success && r.audio.Some? ==> r.audio.value in disk.files
    ensures broker.sent == old(broker.sent) + (if r.Ran? && r.download.success && Truthy(r.audio)
                                               then [TaskCall(TranscriptionTask, videoId, source)] else [])
  {
    var record := db.GetVideoRecord(videoId, source);
    if record.None? {
      return NoRecord;
    }
    ghost var rows0 := db.rows;
    ghost var i := Find(rows0, videoId, source).value;
    var result := RunDownload(videoId, source, record.value, env, now, db, disk);
    if result.success {
      var audio := RecordDownloaded(videoId, source, i, PathText(result.filePath), env, db, broker, disk);
      r := Ran(result, audio);
    } else {
      PatchAt(db.rows, videoId, source, StatusPatch(downloadStatus := Some("failed")), i);
      db.UpdateVideoStatus(videoId, source, StatusPatch(downloadStatus := Some("failed")));
      r := Ran(result, None);
    }
  }

  /** The success branch of the download task: downloaded with the path,
      audio extracting, then extracted with its path and a transcription
      dispatched, or audio failed. */
  method RecordDownloaded(videoId: string, source: string, ghost i: nat, path: string, env: Workers,
                          db: DatabaseManager, broker: Broker, disk: Disk) returns (audio: Option<string>)
    requires db.Valid() && Find(db.rows, videoId, source) == Some(i)
    modifies db, broker, disk
    ensures db.Valid() && db.transcripts == old(db.transcripts)
    ensures Find(db.rows, videoId, source) == Some(i)
    ensures db.rows == old(db.rows)[i := old(db.rows)[i].(downloadStatus := "downloaded",
                                                          downloadPath := if path != "" then Some(path) else old(db.rows)[i].downloadPath,
                                                          audioStatus := if Truthy(audio) then "extracted" else "failed",
                                                          audioPath := if Truthy(audio) then audio else old(db.rows)[i].audioPath)]
    ensures audio == AudioPath(env.extract(path, JoinPath(Storage(env), "audio")))
    ensures audio.Some? ==> audio.value in disk.files
    ensures broker.sent == old(broker.sent) + (if Truthy(audio) then [TaskCall(TranscriptionTask, videoId, source)] else [])
  {
    ghost var rows0 := db.rows;
    var downloaded := StatusPatch(downloadStatus := Some("downloaded"), downloadPath := Some(path));
    db.UpdateVideoStatus(videoId, source, downloaded);
    db.UpdateVideoStatus(videoId, source, StatusPatch(audioStatus := Some("extracting")));
    var extracted := env.extract(path, JoinPath(Storage(env), "audio"));
    if extracted.Some? {
      disk.Write(extracted.value.0, extracted.value.1);
    }
    audio := AudioPath(extracted);
    DownloadedWrites(rows0, videoId, source, i, path, audio);
    RecordAudio(videoId, source, audio, db, broker);
  }

  /** The end of the download task: the audio's outcome written, and the
      transcription dispatched when there is an audio path. */
  method RecordAudio(videoId: string, source: string, audio: Option<string>, db: DatabaseManager, broker: Broker)
    requires db.Valid()
    modifies db, broker
    ensures db.Valid() && db.transcripts == old(db.transcripts)
    ensures db.rows == PatchRows(old(db.rows), videoId, source,
                                 if Truthy(audio) then StatusPatch(audioStatus := Some("extracted"), audioPath := audio)
                                 else StatusPatch(audioStatus := Some("failed")))
    ensures broker.sent == old(broker.sent) + (if Truthy(audio) then [TaskCall(TranscriptionTask, videoId, source)] else [])
  {
    if Truthy(audio) {
      db.UpdateVideoStatus(videoId, source, StatusPatch(audioStatus := Some("extracted"), audioPath := audio));
      broker.Send(TranscriptionTask, videoId, source);
    } else {
      db.UpdateVideoStatus(videoId, source, StatusPatch(audioStatus := Some("failed")));
    }
  }

  /** The writes after a successful download: downloaded with the path, audio
      extracting, then audio extracted with its path or failed. Together they
      change only the row's download and audio columns. */
  lemma DownloadedWrites(rows: seq<VideoRecord>, id: string, source: string, i: nat, path: string,
                         audio: Option<string>)
    requires UniqueIds(rows) && Find(rows, id, source) == Some(i)
    ensures var r1 := PatchRows(rows, id, source, StatusPatch(downloadStatus := Some("downloaded"), downloadPath := Some(path)));
            var r2 := PatchRows(r1, id, source, StatusPatch(audioStatus := Some("extracting")));
            var last := if Truthy(audio) then StatusPatch(audioStatus := Some("extracted"), audioPath := audio)
                        else StatusPatch(audioStatus := Some("failed"));
            UniqueIds(r2) && Find(r2, id, source) == Some(i)
            && Find(PatchRows(r2, id, source, last), id, source) == Some(i)
            && PatchRows(r2, id, source, last)
               == rows[i := rows[i].(downloadStatus := "downloaded",
                                     downloadPath := if path != "" then Some(path) else rows[i].downloadPath,
                                     audioStatus := if Truthy(audio) then "extracted" else "failed",
                                     audioPath := if Truthy(audio) then audio else rows[i].audioPath)]
  {
    var p1 := StatusPatch(downloadStatus := Some("downloaded"), downloadPath := Some(path));
    var p2 := StatusPatch(audioStatus := Some("extracting"));
    var p3 := if Truthy(audio) then StatusPatch(audioStatus := Some("extracted"), audioPath := audio)
              else StatusPatch(audioStatus := Some("failed"));
    PatchAt(rows, id, source, p1, i);
    var r1 := PatchRows(rows, id, source, p1);
    PatchAt(r1, id, source, p2, i);
    var r2 := PatchRows(r1, id, source, p2);
    PatchAt(r2, id, source, p3, i);
    var a, b := Apply(rows[i], p1), Apply(Apply(rows[i], p1), p2);
    UpdateTwice(rows, i, a, b);
    UpdateTwice(rows, i, b, Apply(b, p3));
  }

  /** The part of the download task up to the service's result: the row
      rebuilt as metadata, the status set in progress, and the download
      service run over a fresh state service. The row then holds the
      service's terminal status. */
  method RunDownload(videoId: string, source: string, record: VideoRecord, env: Workers, now: DateTime,
                     db: DatabaseManager, disk: Disk) returns (result: DownloadResult)
    requires db.Valid() && db.GetVideoRecord(videoId, source) == Some(record)
    modifies db, disk
    ensures db.Valid() && db.transcripts == old(db.transcripts)
    ensures var i := Find(old(db.rows), videoId, source).value;
            |db.rows| == |old(db.rows)| && Find(db.rows, videoId, source) == Some(i)
            && (forall k :: 0 <= k < |db.rows| && k != i ==> db.rows[k] == old(db.rows)[k])
            && db.rows[i] == old(db.rows)[i].(downloadStatus := db.rows[i].downloadStatus,
                                              downloadPath := db.rows[i].downloadPath,
                                              streamUrl := db.rows[i].streamUrl)
            && db.rows[i].downloadStatus == (if result.success then "downloaded" else "failed")
            && db.rows[i].downloadPath == (if result.success && Truthy(result.filePath) then result.filePath
                                           else old(db.rows)[i].downloadPath)
            && (db.rows[i].streamUrl == old(db.rows)[i].streamUrl || Truthy(db.rows[i].streamUrl))
    ensures result.videoId == videoId
  {
    ghost var rows0 := db.rows;
    ghost var i := Find(rows0, videoId, source).value;
    RecordMetadata(record, now);
    var meta := FromDict(RecordDict(record), now).value;
    var inProgress := StatusPatch(downloadStatus := Some("in_progress"));
    PatchAt(db.rows, videoId, source, inProgress, i);
    db.UpdateVideoStatus(videoId, source, inProgress);
    ghost var choice;
    result, choice := RunService(meta, env, db, disk, i);
    DownloadRows(rows0, i, meta, choice, result);
  }

  /** The download service run over a fresh state service, for a row the
      task has just marked in progress: the service does not take its
      shortcut, and makes its status writes for the URL it chose. */
  method RunService(meta: VideoMetadata, env: Workers, db: DatabaseManager, disk: Disk, ghost i: nat)
    returns (result: DownloadResult, ghost choice: UrlChoice)
    requires db.Valid() && Find(db.rows, meta.videoId, meta.source) == Some(i)
    requires db.rows[i].downloadStatus == "in_progress"
    modifies db, disk
    ensures db.Valid() && db.transcripts == old(db.transcripts)
    ensures result.videoId == meta.videoId
    ensures choice.Resolved? ==> choice.url != ""
    ensures db.rows == ServiceRows(old(db.rows), meta, choice, result)
  {
    var state := new StateService(db);
    var service := new DownloadService(state, JoinPath(Storage(env), "videos"), disk);
    assert !service.AlreadyDownloaded(meta);
    choice := service.Choice(meta, env.house, env.senate, env.browse);
    assert choice.Resolved? ==> choice.url != "";
    result := service.DownloadVideo(meta, env.house, env.senate, env.browse, env.fetch, env.run);
  }

  /** The rows after the task's in-progress write and the download
      service's writes: only the task's row changes, and only in its
      download status, download path and stream URL. */
  lemma DownloadRows(rows0: seq<VideoRecord>, i: nat, meta: VideoMetadata, choice: UrlChoice, result: DownloadResult)
    requires UniqueIds(rows0) && Find(rows0, meta.videoId, meta.source) == Some(i)
    requires choice.Resolved? ==> choice.url != ""
    ensures var rows1 := PatchRows(rows0, meta.videoId, meta.source, StatusPatch(downloadStatus := Some("in_progress")));
            var r := ServiceRows(rows1, meta, choice, result);
            UniqueIds(r) && |r| == |rows0| && Find(r, meta.videoId, meta.source) == Some(i)
            && (forall k :: 0 <= k < |r| && k != i ==> r[k] == rows0[k])
            && r[i] == rows0[i].(downloadStatus := r[i].downloadStatus, downloadPath := r[i].downloadPath,
                                 streamUrl := r[i].streamUrl)
            && r[i].downloadStatus == (if result.success then "downloaded" else "failed")
            && r[i].downloadPath == (if result.success && Truthy(result.filePath) then result.filePath
                                     else rows0[i].downloadPath)
            && (r[i].streamUrl == rows0[i].streamUrl || Truthy(r[i].streamUrl))
  {
    var inProgress := StatusPatch(downloadStatus := Some("in_progress"));
    PatchAt(rows0, meta.videoId, meta.source, inProgress, i);
    var rows1 := PatchRows(rows0, meta.videoId, meta.source, inProgress);
    ServiceRowsAt(rows1, meta, choice, result, i);
    var z := rows1[i].(downloadStatus := if result.success then "downloaded" else "failed",
                       downloadPath := if result.success && Truthy(result.filePath) then result.filePath
                                       else rows1[i].downloadPath,
                       streamUrl := if choice.Resolved? then Some(choice.url) else rows1[i].streamUrl);
    UpdateTwice(rows0, i, rows1[i], z);
  }

  // ---------------------------------------------------------------------
  // transcribe_audio_task

  /** `os.getenv("TRANSCRIPTION_PROVIDER", "local")` */
  function Provider(env: Workers): string {
    EnvOr(env.getenv("TRANSCRIPTION_PROVIDER"), "local")
  }

  /** Where the transcript text is saved: `<storage>/transcripts/<id>.txt`. */
  function TranscriptPath(env: Workers, videoId: string): (r: string)
    ensures EndsWith(r, videoId + ".txt")
  {
    JoinPath(JoinPath(Storage(env), "transcripts"), videoId + ".txt")
  }

  /** No stored transcript has this identifier. */
  predicate FreshId(ts: seq<TranscriptRecord>, uuid: string) {
    forall k :: 0 <= k < |ts| ==> ts[k].id != uuid
  }

  /** The outcome of a transcription task: no audio to work on, a stored
      transcript, or a failure the task caught. */
  datatype TranscriptionRun = NoAudio | Transcribed(transcript: TranscriptRecord) | Failed

  /** `transcribe_audio_task`: runs only for a row with a non-empty audio
      path, whatever its audio status. It marks the transcription in
      progress, asks the provider, saves the text to disk, appends the
      transcript (`uuid` stands in for `uuid4()`) and marks it completed;
      any exception on the way marks it failed. */
  method TranscribeAudioTask(videoId: string, source: string, env: Workers, uuid: string, now: DateTime,
                             db: DatabaseManager, disk: Disk) returns (r: TranscriptionRun)
    requires db.Valid()
    modifies db, disk
    ensures db.Valid()
    ensures var rec := old(db.GetVideoRecord(videoId, source));
            r.NoAudio? <==> rec.None? || !Truthy(rec.value.audioPath)
    ensures r.NoAudio? ==>
              db.rows == old(db.rows) && db.transcripts == old(db.transcripts) && disk.files == old(disk.files)
    ensures !r.NoAudio? ==>
              var i := Find(old(db.rows), videoId, source).value;
              var text := env.transcribe(Provider(env), old(db.rows)[i].audioPath.value);
              db.rows == old(db.rows)[i := old(db.rows)[i].(transcriptionStatus := if r.Transcribed? then "completed"
                                                                                    else "failed")]
              && (r.Transcribed? <==> text.Some? && FreshId(old(db.transcripts), uuid))
              && (r.Transcribed? ==>
                    r.transcript == TranscriptRecord(uuid, videoId, Provider(env), text.value,
                                                     Some(TranscriptPath(env, videoId)), now))
              && disk.files == (if text.Some? then old(disk.files)[TranscriptPath(env, videoId) := |text.value|]
                                else old(disk.files))
    ensures r.Transcribed? ==> db.transcripts == old(db.transcripts) + [r.transcript]
    ensures !r.Transcribed? ==> db.transcripts == old(db.transcripts)
  {
    var record := db.GetVideoRecord(videoId, source);
    if record.None? || !Truthy(record.value.audioPath) {
      return NoAudio;
    }
    r := TranscribeRow(videoId, source, record.value.audioPath.value, env, uuid, now, db, disk,
                       Find(db.rows, videoId, source).value);
  }

  /** The task past the audio check, for the `i`-th row, whose audio path
      is `audio`. */
  method TranscribeRow(videoId: string, source: string, audio: string, env: Workers, uuid: string, now: DateTime,
                       db: DatabaseManager, disk: Disk, ghost i: nat) returns (r: TranscriptionRun)
    requires db.Valid() && Find(db.rows, videoId, source) == Some(i) && db.rows[i].audioPath == Some(audio)
    modifies db, disk
    ensures db.Valid() && !r.NoAudio?
    ensures var text := env.transcribe(Provider(env), audio);
            db.rows == old(db.rows)[i := old(db.rows)[i].(transcriptionStatus := if r.Transcribed? then "completed"
                                                                                  else "failed")]
            && (r.Transcribed? <==> text.Some? && FreshId(old(db.transcripts), uuid))
            && (r.Transcribed? ==>
                  r.transcript == TranscriptRecord(uuid, videoId, Provider(env), text.value,
                                                   Some(TranscriptPath(env, videoId)), now))
            && disk.files == (if text.Some? then old(disk.files)[TranscriptPath(env, videoId) := |text.value|]
                              else old(disk.files))
    ensures r.Transcribed? ==> db.transcripts == old(db.transcripts) + [r.transcript]
    ensures !r.Transcribed? ==> db.transcripts == old(db.transcripts)
  {
    ghost var rows0 := db.rows;
    TranscriptionWrites(rows0, videoId, source, i);
    db.UpdateVideoStatus(videoId, source, StatusPatch(transcriptionStatus := Some("in_progress")));
    var text := env.transcribe(Provider(env), audio);
    if text.Some? {
      var path := TranscriptPath(env, videoId);
      disk.Write(path, |text.value|);
      var added := db.AddTranscript(videoId, Provider(env), text.value, Some(path), uuid, now);
      if added.Success? {
        db.UpdateVideoStatus(videoId, source, StatusPatch(transcriptionStatus := Some("completed")));
        return Transcribed(added.value);
      }
    }
    db.UpdateVideoStatus(videoId, source, StatusPatch(transcriptionStatus := Some("failed")));
    return TranscriptionRun.Failed;
  }

  /** The in-progress write followed by either terminal write changes only
      the row's transcription status, to the terminal one. */
  lemma TranscriptionWrites(rows: seq<VideoRecord>, id: string, source: string, i: nat)
    requires UniqueIds(rows) && Find(rows, id, source) == Some(i)
    ensures var mid := PatchRows(rows, id, source, StatusPatch(transcriptionStatus := Some("in_progress")));
            UniqueIds(mid) && Find(mid, id, source) == Some(i)
            && PatchRows(mid, id, source, StatusPatch(transcriptionStatus := Some("completed")))
               == rows[i := rows[i].(transcriptionStatus := "completed")]
            && PatchRows(mid, id, source, StatusPatch(transcriptionStatus := Some("failed")))
               == rows[i := rows[i].(transcriptionStatus := "failed")]
  {
    var mid := PatchRows(rows, id, source, StatusPatch(transcriptionStatus := Some("in_progress")));
    PatchAt(rows, id, source, StatusPatch(transcriptionStatus := Some("in_progress")), i);
    PatchAt(mid, id, source, StatusPatch(transcriptionStatus := Some("completed")), i);
    PatchAt(mid, id, source, StatusPatch(transcriptionStatus := Some("failed")), i);
    var a := Apply(rows[i], StatusPatch(transcriptionStatus := Some("in_progress")));
    UpdateTwice(rows, i, a, Apply(a, StatusPatch(transcriptionStatus := Some("completed"))));
    UpdateTwice(rows, i, a, Apply(a, StatusPatch(transcriptionStatus := Some("failed"))));
  }

  // ---------------------------------------------------------------------
  // requeue_failed_tasks

  /** The audio of a row is usable: a non-empty path that exists on disk. */
  predicate AudioOnDisk(x: VideoRecord, files: map<string, nat>) {
    Truthy(x.audioPath) && x.audioPath.value in files
  }

  /** Back to the start: download and transcription pending. */
  const RestartPatch := StatusPatch(downloadStatus := Some("pending"), transcriptionStatus := Some("pending"))

  /** A failed download back to pending. */
  const RetryPatch := StatusPatch(downloadStatus := Some("pending"))

  /** The failed transcriptions the first pass restarts from the download:
      those without usable audio. */
  function NeedsRestart(files: map<string, nat>): VideoRecord -> bool {
    x => !AudioOnDisk(x, files)
  }

  /** The message the first pass sends for a failed transcription: the
      transcription again when its audio is on disk, else a download. */
  function RetryCall(x: VideoRecord, files: map<string, nat>): (c: TaskCall)
    ensures c.videoId == x.id && c.source == x.source
    ensures c.task == TranscriptionTask <==> AudioOnDisk(x, files)
  {
    TaskCall(if AudioOnDisk(x, files) then TranscriptionTask else DownloadTask, x.id, x.source)
  }

  /** The messages of the first pass, in order. */
  function RetryCalls(xs: seq<VideoRecord>, files: map<string, nat>): (r: seq<TaskCall>)
    ensures |r| == |xs| && forall k :: 0 <= k < |xs| ==> r[k] == RetryCall(xs[k], files)
  {
    if |xs| == 0 then [] else RetryCalls(xs[..|xs| - 1], files) + [RetryCall(xs[|xs| - 1], files)]
  }

  /** The download messages of the second pass, in order. */
  function DownloadCalls(xs: seq<VideoRecord>): (r: seq<TaskCall>)
    ensures |r| == |xs| && forall k :: 0 <= k < |xs| ==> r[k] == TaskCall(DownloadTask, xs[k].id, xs[k].source)
  {
    if |xs| == 0 then [] else DownloadCalls(xs[..|xs| - 1]) + [TaskCall(DownloadTask, xs[|xs| - 1].id, xs[|xs| - 1].source)]
  }

  /** How many of the records have usable audio. */
  function CountAudio(xs: seq<VideoRecord>, files: map<string, nat>): (n: nat)
    ensures n <= |xs|
  {
    if |xs| == 0 then 0
    else CountAudio(xs[..|xs| - 1], files) + (if AudioOnDisk(xs[|xs| - 1], files) then 1 else 0)
  }

  /** A row after the first pass. */
  function AfterTranscriptionPass(x: VideoRecord, files: map<string, nat>): (r: VideoRecord)
    ensures TranscriptionFailed(x) && AudioOnDisk(x, files) ==> r == x
    ensures TranscriptionFailed(x) && !AudioOnDisk(x, files) ==>
              r == x.(downloadStatus := "pending", transcriptionStatus := "pending")
    ensures !TranscriptionFailed(x) ==> r == x
  {
    if TranscriptionFailed(x) && NeedsRestart(files)(x) then Apply(x, RestartPatch) else x
  }

  /** A row after the second pass. */
  function AfterDownloadPass(x: VideoRecord): (r: VideoRecord)
    ensures !DownloadFailed(r)
    ensures DownloadFailed(x) ==> r == x.(downloadStatus := "pending")
    ensures !DownloadFailed(x) ==> r == x
  {
    if DownloadFailed(x) then Apply(x, RetryPatch) else x
  }

  /** The table between the two passes. */
  function MiddleRows(rows: seq<VideoRecord>, files: map<string, nat>): (r: seq<VideoRecord>)
    ensures |r| == |rows| && forall k :: 0 <= k < |rows| ==> r[k] == AfterTranscriptionPass(rows[k], files)
  {
    seq(|rows|, k requires 0 <= k < |rows| => AfterTranscriptionPass(rows[k], files))
  }

  /** Every message the sweeper sends: the first pass over the failed
      transcriptions, then the second over the downloads failed after it. */
  function SweepCalls(rows: seq<VideoRecord>, files: map<string, nat>): seq<TaskCall> {
    RetryCalls(Select(rows, TranscriptionFailed), files)
    + DownloadCalls(Select(MiddleRows(rows, files), DownloadFailed))
  }

  /** The sweeper never dispatches a transcription without audio: every
      transcription message is for a row whose transcription failed and
      whose audio file exists. */
  lemma SweepNeedsAudio(rows: seq<VideoRecord>, files: map<string, nat>)
    ensures forall c :: c in SweepCalls(rows, files) && c.task == TranscriptionTask ==>
              exists x :: x in rows && TranscriptionFailed(x) && AudioOnDisk(x, files)
                          && x.id == c.videoId && x.source == c.source
  {
    forall c | c in SweepCalls(rows, files) && c.task == TranscriptionTask
      ensures exists x :: x in rows && TranscriptionFailed(x) && AudioOnDisk(x, files)
                          && x.id == c.videoId && x.source == c.source
    {
      var x := TranscriptionSource(rows, files, c);
    }
  }

  /** The row a transcription message of the sweep was sent for. */
  lemma TranscriptionSource(rows: seq<VideoRecord>, files: map<string, nat>, c: TaskCall) returns (x: VideoRecord)
    requires c in SweepCalls(rows, files) && c.task == TranscriptionTask
    ensures x in rows && TranscriptionFailed(x) && AudioOnDisk(x, files) && x.id == c.videoId && x.source == c.source
  {
    var failed := Select(rows, TranscriptionFailed);
    var first := RetryCalls(failed, files);
    var second := DownloadCalls(Select(MiddleRows(rows, files), DownloadFailed));
    // The second pass sends only downloads, so `c` is from the first.
    assert c !in second;
    var k :| 0 <= k < |first| && first[k] == c;
    x := failed[k];
  }

  /** The state of the first pass after `i` of the `failed` records. */
  predicate FirstPassAt(rows: seq<VideoRecord>, sent: seq<TaskCall>, requeued: nat, restarted: nat,
                        rows0: seq<VideoRecord>, sent0: seq<TaskCall>, failed: seq<VideoRecord>,
                        files: map<string, nat>, i: nat) {
    i <= |failed|
    && PatchedWhere(rows, rows0, failed[..i], NeedsRestart(files), RestartPatch)
    && sent == sent0 + RetryCalls(failed[..i], files)
    && requeued == CountAudio(failed[..i], files) && requeued + restarted == i
  }

  lemma FirstPassStep(rows: seq<VideoRecord>, sent: seq<TaskCall>, requeued: nat, restarted: nat,
                      rows0: seq<VideoRecord>, sent0: seq<TaskCall>, failed: seq<VideoRecord>,
                      files: map<string, nat>, i: nat, rows': seq<VideoRecord>, sent': seq<TaskCall>)
    requires UniqueIds(rows0) && i < |failed| && failed[i] in rows0
    requires FirstPassAt(rows, sent, requeued, restarted, rows0, sent0, failed, files, i)
    requires rows' == if AudioOnDisk(failed[i], files) then rows
                      else PatchRows(rows, failed[i].id, failed[i].source, RestartPatch)
    requires sent' == sent + [RetryCall(failed[i], files)]
    ensures UniqueIds(rows)
    ensures AudioOnDisk(failed[i], files) ==>
              FirstPassAt(rows', sent', requeued + 1, restarted, rows0, sent0, failed, files, i + 1)
    ensures !AudioOnDisk(failed[i], files) ==>
              FirstPassAt(rows', sent', requeued, restarted + 1, rows0, sent0, failed, files, i + 1)
  {
    var x := failed[i];
    PrefixStep(failed, i, files);
    var j :| 0 <= j < |rows0| && rows0[j] == x;
    PatchedWhereStep(rows0, failed[..i], x, j, rows, NeedsRestart(files), RestartPatch);
    PatchedWhereSame(rows', rows0, failed[..i] + [x], failed[..i + 1], NeedsRestart(files), RestartPatch);
    AppendAssoc(sent0, RetryCalls(failed[..i], files), [RetryCall(x, files)]);
  }

  /** `PatchedWhere` over two equal lists; stated apart for the same reason. */
  lemma PatchedWhereSame(rows: seq<VideoRecord>, rows0: seq<VideoRecord>, a: seq<VideoRecord>, b: seq<VideoRecord>,
                         reset: VideoRecord -> bool, p: StatusPatch)
    requires a == b && PatchedWhere(rows, rows0, a, reset, p)
    ensures PatchedWhere(rows, rows0, b, reset, p)
  {
  }

  /** The messages and the count of one more record of the list. */
  lemma PrefixStep(xs: seq<VideoRecord>, i: int, files: map<string, nat>)
    requires 0 <= i < |xs|
    ensures xs[..i + 1] == xs[..i] + [xs[i]]
    ensures RetryCalls(xs[..i + 1], files) == RetryCalls(xs[..i], files) + [RetryCall(xs[i], files)]
    ensures DownloadCalls(xs[..i + 1]) == DownloadCalls(xs[..i]) + [TaskCall(DownloadTask, xs[i].id, xs[i].source)]
    ensures CountAudio(xs[..i + 1], files) == CountAudio(xs[..i], files) + (if AudioOnDisk(xs[i], files) then 1 else 0)
  {
    var p := xs[..i + 1];
    assert p[..|p| - 1] == xs[..i] && p[|p| - 1] == xs[i];
    assert p == xs[..i] + [xs[i]];
  }

  /** The first pass, over the failed transcriptions read at its start. */
  method RetryTranscriptions(db: DatabaseManager, broker: Broker, files: map<string, nat>, failed: seq<VideoRecord>)
    returns (requeued: nat, restarted: nat)
    requires db.Valid() && forall x :: x in failed ==> x in db.rows
    modifies db, broker
    ensures db.Valid() && db.transcripts == old(db.transcripts)
    ensures PatchedWhere(db.rows, old(db.rows), failed, NeedsRestart(files), RestartPatch)
    ensures broker.sent == old(broker.sent) + RetryCalls(failed, files)
    ensures requeued == CountAudio(failed, files) && requeued + restarted == |failed|
  {
    ghost var rows0, sent0 := db.rows, broker.sent;
    requeued, restarted := 0, 0;
    for i := 0 to |failed|
      invariant db.Valid() && db.transcripts == old(db.transcripts)
      invariant FirstPassAt(db.rows, broker.sent, requeued, restarted, rows0, sent0, failed, files, i)
    {
      requeued, restarted := FirstPassTurn(db, broker, files, failed, i, requeued, restarted, rows0, sent0);
    }
    assert failed[..|failed|] == failed;
  }

  /** One turn of the first pass, for the `i`-th failed transcription:
      requeued when its audio is on disk, else reset and sent to download. */
  method FirstPassTurn(db: DatabaseManager, broker: Broker, files: map<string, nat>, failed: seq<VideoRecord>,
                       i: nat, requeued: nat, restarted: nat, ghost rows0: seq<VideoRecord>, ghost sent0: seq<TaskCall>)
    returns (requeued': nat, restarted': nat)
    requires db.Valid() && UniqueIds(rows0) && i < |failed| && failed[i] in rows0
    requires FirstPassAt(db.rows, broker.sent, requeued, restarted, rows0, sent0, failed, files, i)
    modifies db, broker
    ensures db.Valid() && db.transcripts == old(db.transcripts)
    ensures FirstPassAt(db.rows, broker.sent, requeued', restarted', rows0, sent0, failed, files, i + 1)
  {
    var x := failed[i];
    ghost var rows, sent := db.rows, broker.sent;
    if AudioOnDisk(x, files) {
      broker.Send(TranscriptionTask, x.id, x.source);
      FirstPassStep(rows, sent, requeued, restarted, rows0, sent0, failed, files, i, db.rows, broker.sent);
      requeued', restarted' := requeued + 1, restarted;
    } else {
      db.UpdateVideoStatus(x.id, x.source, RestartPatch);
      broker.Send(DownloadTask, x.id, x.source);
      FirstPassStep(rows, sent, requeued, restarted, rows0, sent0, failed, files, i, db.rows, broker.sent);
      requeued', restarted' := requeued, restarted + 1;
    }
  }

  /** The state of the second pass after `i` of the `failed` records. */
  predicate SecondPassAt(rows: seq<VideoRecord>, sent: seq<TaskCall>, rows0: seq<VideoRecord>,
                         sent0: seq<TaskCall>, failed: seq<VideoRecord>, i: nat) {
    i <= |failed|
    && PatchedWhere(rows, rows0, failed[..i], DownloadFailed, RetryPatch)
    && sent == sent0 + DownloadCalls(failed[..i])
  }

  lemma SecondPassStep(rows: seq<VideoRecord>, sent: seq<TaskCall>, rows0: seq<VideoRecord>,
                       sent0: seq<TaskCall>, failed: seq<VideoRecord>, i: nat)
    requires UniqueIds(rows0) && i < |failed| && failed[i] in rows0 && DownloadFailed(failed[i])
    requires SecondPassAt(rows, sent, rows0, sent0, failed, i)
    ensures UniqueIds(rows)
    ensures SecondPassAt(PatchRows(rows, failed[i].id, failed[i].source, RetryPatch),
                         sent + [TaskCall(DownloadTask, failed[i].id, failed[i].source)], rows0, sent0, failed, i + 1)
  {
    var x := failed[i];
    PrefixStep(failed, i, map[]);
    var j :| 0 <= j < |rows0| && rows0[j] == x;
    PatchedWhereStep(rows0, failed[..i], x, j, rows, DownloadFailed, RetryPatch);
    PatchedWhereSame(PatchRows(rows, x.id, x.source, RetryPatch), rows0, failed[..i] + [x], failed[..i + 1],
                     DownloadFailed, RetryPatch);
    AppendAssoc(sent0, DownloadCalls(failed[..i]), [TaskCall(DownloadTask, x.id, x.source)]);
  }

  /** Concatenation regrouped; stated apart so that the proofs using it see
      the one equation they need rather than the sequences' axioms at large. */
  lemma AppendAssoc<T>(a: seq<T>, b: seq<T>, c: seq<T>)
    ensures (a + b) + c == a + (b + c)
  {
  }

  /** The second pass, over the failed downloads read after the first. */
  method RetryDownloads(db: DatabaseManager, broker: Broker, failed: seq<VideoRecord>) returns (restarted: nat)
    requires db.Valid() && forall x :: x in failed ==> x in db.rows && DownloadFailed(x)
    modifies db, broker
    ensures db.Valid() && db.transcripts == old(db.transcripts)
    ensures PatchedWhere(db.rows, old(db.rows), failed, DownloadFailed, RetryPatch)
    ensures broker.sent == old(broker.sent) + DownloadCalls(failed)
    ensures restarted == |failed|
  {
    ghost var rows0, sent0 := db.rows, broker.sent;
    restarted := 0;
    for i := 0 to |failed|
      invariant db.Valid() && db.transcripts == old(db.transcripts)
      invariant SecondPassAt(db.rows, broker.sent, rows0, sent0, failed, i) && restarted == i
    {
      var x := failed[i];
      SecondPassStep(db.rows, broker.sent, rows0, sent0, failed, i);
      db.UpdateVideoStatus(x.id, x.source, RetryPatch);
      broker.Send(DownloadTask, x.id, x.source);
      restarted := restarted + 1;
    }
    assert failed[..|failed|] == failed;
  }

  /** `requeue_failed_tasks`: a failed transcription whose audio is on disk
      gets only a new transcription message; any other failed
      transcription is reset to pending and downloaded again; then every
      download still failed is reset to pending and downloaded again. The
      counts add up to the messages sent. */
  method RequeueFailedTasks(db: DatabaseManager, broker: Broker, disk: Disk) returns (requeued: nat, restarted: nat)
    requires db.Valid()
    modifies db, broker
    ensures db.Valid() && db.transcripts == old(db.transcripts)
    ensures |db.rows| == |old(db.rows)|
    ensures forall k :: 0 <= k < |db.rows| ==>
              db.rows[k] == AfterDownloadPass(AfterTranscriptionPass(old(db.rows)[k], disk.files))
    ensures broker.sent == old(broker.sent) + SweepCalls(old(db.rows), disk.files)
    ensures requeued == CountAudio(Select(old(db.rows), TranscriptionFailed), disk.files)
    ensures requeued + restarted == |broker.sent| - |old(broker.sent)|
  {
    ghost var rows0 := db.rows;
    var failedTranscripts := Select(db.rows, TranscriptionFailed);
    var restartedFirst;
    requeued, restartedFirst := RetryTranscriptions(db, broker, disk.files, failedTranscripts);
    MiddleAfterFirstPass(rows0, db.rows, disk.files);
    ghost var sent1 := broker.sent;
    var failedDownloads := Select(db.rows, DownloadFailed);
    var restartedSecond := RetryDownloads(db, broker, failedDownloads);
    restarted := restartedFirst + restartedSecond;
    SweepRows(rows0, db.rows, disk.files);
    SweepMessages(rows0, disk.files, old(broker.sent), sent1, broker.sent);
  }

  /** The two passes together give each row its two updates. */
  lemma SweepRows(rows0: seq<VideoRecord>, rows: seq<VideoRecord>, files: map<string, nat>)
    requires PatchedWhere(rows, MiddleRows(rows0, files), Select(MiddleRows(rows0, files), DownloadFailed),
                          DownloadFailed, RetryPatch)
    ensures |rows| == |rows0|
    ensures forall k :: 0 <= k < |rows| ==> rows[k] == AfterDownloadPass(AfterTranscriptionPass(rows0[k], files))
  {
    var mid := MiddleRows(rows0, files);
    var again := Select(mid, DownloadFailed);
    forall k | 0 <= k < |rows| ensures rows[k] == AfterDownloadPass(AfterTranscriptionPass(rows0[k], files)) {
      assert mid[k] == AfterTranscriptionPass(rows0[k], files);
      assert mid[k] in again <==> DownloadFailed(mid[k]);
    }
  }

  /** The two passes send the messages of both, one per restart or requeue. */
  lemma SweepMessages(rows0: seq<VideoRecord>, files: map<string, nat>,
                      sent0: seq<TaskCall>, sent1: seq<TaskCall>, sent: seq<TaskCall>)
    requires sent1 == sent0 + RetryCalls(Select(rows0, TranscriptionFailed), files)
    requires sent == sent1 + DownloadCalls(Select(MiddleRows(rows0, files), DownloadFailed))
    ensures sent == sent0 + SweepCalls(rows0, files)
  {
    AppendAssoc(sent0, RetryCalls(Select(rows0, TranscriptionFailed), files),
                DownloadCalls(Select(MiddleRows(rows0, files), DownloadFailed)));
  }

  /** The first pass leaves exactly the middle table. */
  lemma MiddleAfterFirstPass(rows0: seq<VideoRecord>, rows: seq<VideoRecord>, files: map<string, nat>)
    requires PatchedWhere(rows, rows0, Select(rows0, TranscriptionFailed), NeedsRestart(files), RestartPatch)
    ensures rows == MiddleRows(rows0, files)
  {
  }
}
