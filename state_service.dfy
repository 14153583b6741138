/** Idempotent registration of discovered videos and the status helpers the
    services use on top of the record store. */
module State {
  import opened Wrappers
  import opened Text
  import opened Clock
  import opened Database
  import opened Metadata
  import opened Status

  /** The table after `mark_video_discovered(v)`: unchanged when a row with
      that (id, source) exists, unchanged when the insert is rolled back
      because the id is taken by another source, and otherwise extended by a
      pending row built from the metadata without its stream URL. */
  function DiscoverRows(rows: seq<VideoRecord>, v: VideoMetadata, now: DateTime): (r: seq<VideoRecord>)
    ensures |r| >= |rows| && r[..|rows|] == rows
  {
    if Find(rows, v.videoId, v.source).Some? then rows
    else if IndexOfId(rows, v.videoId).Some? then rows
    else rows + [NewRecord(v.videoId, v.source, v.filename, v.url, v.dateRecorded, v.committee, v.title, None, now)]
  }

  /** Appending a row whose id is new makes that row the one found by id. */
  lemma {:induction false} IndexOfIdAppend(rows: seq<VideoRecord>, x: VideoRecord)
    requires IndexOfId(rows, x.id).None?
    ensures IndexOfId(rows + [x], x.id) == Some(|rows|)
  {
    if |rows| > 0 {
      assert (rows + [x])[1..] == rows[1..] + [x];
      IndexOfIdAppend(rows[1..], x);
    }
  }

  /** After registration the video is found under its (id, source), unless
      its id already belongs to a row of another source; a row it creates
      is pending in every stage and has no stream URL. */
  lemma DiscoverRegisters(rows: seq<VideoRecord>, v: VideoMetadata, now: DateTime)
    ensures IndexOfId(rows, v.videoId).None? ==>
              Find(DiscoverRows(rows, v, now), v.videoId, v.source) == Some(|rows|)
    ensures IndexOfId(rows, v.videoId).None? ==>
              var rec := DiscoverRows(rows, v, now)[|rows|];
              rec.streamUrl.None? && rec.downloadStatus == "pending" && rec.audioStatus == "pending"
              && rec.transcriptionStatus == "pending" && rec.dateDiscovered == now
    ensures IndexOfId(rows, v.videoId).Some? ==> DiscoverRows(rows, v, now) == rows
  {
    if IndexOfId(rows, v.videoId).None? {
      var x := NewRecord(v.videoId, v.source, v.filename, v.url, v.dateRecorded, v.committee, v.title, None, now);
      IndexOfIdAppend(rows, x);
    } else {
      assert Find(rows, v.videoId, v.source).Some? || IndexOfId(rows, v.videoId).Some?;
    }
  }

  /** Registering a video twice, at any two times, is the same as
      registering it once. */
  lemma DiscoverIdempotent(rows: seq<VideoRecord>, v: VideoMetadata, now: DateTime, later: DateTime)
    ensures DiscoverRows(DiscoverRows(rows, v, now), v, later) == DiscoverRows(rows, v, now)
  {
    DiscoverRegisters(rows, v, now);
    var once := DiscoverRows(rows, v, now);
    if IndexOfId(rows, v.videoId).None? {
      assert Find(once, v.videoId, v.source).Some?;
    } else {
      assert once == rows;
    }
  }

  /** The methods `DatabaseManager` defines. */
  const DatabaseMethods: set<string> :=
    {"get_session", "create_video_record", "update_video_status", "add_transcript", "get_video_record",
     "video_exists", "update_stream_url", "get_all_videos", "get_unprocessed_videos", "search_transcripts",
     "get_stats", "get_last_downloaded_date"}

  datatype CallError = MissingAttribute(name: string)

  /** The arguments `mark_video_processed` means to write: the download status
      of `status`, and the path only when one is given. */
  function ProcessedPatch(status: ProcessingStatus, path: Option<string>): StatusPatch {
    StatusPatch(downloadStatus := Some(status.download.Value()), downloadPath := path)
  }

  /** `mark_video_processed` as written: it looks up `update_download_status`
      on the store, and the table changes only if that attribute exists. */
  function MarkVideoProcessedAsWritten(rows: seq<VideoRecord>, v: VideoMetadata, status: ProcessingStatus,
                                       path: Option<string>): (r: Result<seq<VideoRecord>, CallError>)
    ensures r.Failure? <==> "update_download_status" !in DatabaseMethods
    ensures r.Success? ==> r.value == PatchRows(rows, v.videoId, v.source, ProcessedPatch(status, path))
  {
    if "update_download_status" in DatabaseMethods then Success(PatchRows(rows, v.videoId, v.source, ProcessedPatch(status, path)))
    else Failure(MissingAttribute("update_download_status"))
  }

  /** Every call of `mark_video_processed` as written raises
      AttributeError and writes nothing. */
  lemma MarkVideoProcessedAlwaysRaises(rows: seq<VideoRecord>, v: VideoMetadata, status: ProcessingStatus,
                                       path: Option<string>)
    ensures MarkVideoProcessedAsWritten(rows, v, status, path) == Failure(MissingAttribute("update_download_status"))
  {
  }

  /** The corrected `mark_video_processed` touches only the download status
      and, when a non-empty path is given, the download path of the matching
      row; every other row and every other column stays as it was. */
  lemma MarkProcessedTouchesOnlyDownload(rows: seq<VideoRecord>, v: VideoMetadata, status: ProcessingStatus,
                                         path: Option<string>)
    ensures var r := PatchRows(rows, v.videoId, v.source, ProcessedPatch(status, path));
            |r| == |rows|
            && (forall k :: 0 <= k < |rows| && Some(k) != Find(rows, v.videoId, v.source) ==> r[k] == rows[k])
            && (Find(rows, v.videoId, v.source).Some? ==>
                  var i := Find(rows, v.videoId, v.source).value;
                  r[i] == rows[i].(downloadStatus := status.download.Value(),
                                   downloadPath := if Truthy(path) then path else rows[i].downloadPath))
  {
    var r := PatchRows(rows, v.videoId, v.source, ProcessedPatch(status, path));
    match Find(rows, v.videoId, v.source)
    case None =>
    case Some(i) =>
      assert status.download.Value() in DownloadValues;
      assert Truthy(Some(status.download.Value()));
  }

  /** A stored row as metadata: every descriptive column and the discovery
      time are carried over, the stream URL is not. */
  function FromRecord(r: VideoRecord): (m: VideoMetadata)
    ensures m.videoId == r.id && m.source == r.source && m.filename == r.filename && m.url == r.url
    ensures m.dateRecorded == r.dateRecorded && m.committee == r.committee && m.title == r.title
    ensures m.streamUrl.None? && m.dateDiscovered == r.dateDiscovered
    ensures ToDict(m)["id"] == Metadata.Text(r.id)
  {
    Make(r.id, r.source, r.filename, r.url, r.dateRecorded, r.dateDiscovered, committee := r.committee,
         title := r.title, dateDiscovered := Some(r.dateDiscovered))
  }

  /** The conversion loop shared by both listings. */
  method FromRecords(records: seq<VideoRecord>) returns (videos: seq<VideoMetadata>)
    ensures |videos| == |records|
    ensures forall k :: 0 <= k < |records| ==> videos[k] == FromRecord(records[k])
  {
    videos := [];
    for i := 0 to |records|
      invariant |videos| == i
      invariant forall k :: 0 <= k < i ==> videos[k] == FromRecord(records[k])
    {
      videos := videos + [FromRecord(records[i])];
    }
  }

  class StateService {
    const db: DatabaseManager

    constructor (db: DatabaseManager)
      ensures this.db == db
    {
      this.db := db;
    }

    /** `get_download_path`: the stored path of the matching row when it is
        non-empty, whatever the row's status. */
    function GetDownloadPath(id: string, source: string): (r: Option<string>)
      requires db.Valid()
      reads db
      ensures r.Some? <==> exists k :: 0 <= k < |db.rows| && db.rows[k].id == id && db.rows[k].source == source
                                      && Truthy(db.rows[k].downloadPath)
      ensures r.Some? ==> exists k :: 0 <= k < |db.rows| && db.rows[k].id == id && db.rows[k].source == source
                                      && r == db.rows[k].downloadPath && r.value != ""
    {
      match Find(db.rows, id, source)
      case None => None
      case Some(i) => if Truthy(db.rows[i].downloadPath) then db.rows[i].downloadPath else None
    }

    /** `is_video_processed`: the matching row exists and its download status
        is "downloaded". */
    function IsVideoProcessed(id: string, source: string): (b: bool)
      requires db.Valid()
      reads db
      ensures b <==> exists k :: 0 <= k < |db.rows| && db.rows[k].id == id && db.rows[k].source == source
                                 && db.rows[k].downloadStatus == DownloadStatus.Downloaded.Value()
    {
      match Find(db.rows, id, source)
      case None => false
      case Some(i) => db.rows[i].downloadStatus == "downloaded"
    }

    /** `mark_video_discovered`: inserts a row only when none matches. The
        result is `Success(true)` for an insert, `Success(false)` when the
        video was already there, and the store's error when the id is taken
        by another source. */
    method MarkVideoDiscovered(v: VideoMetadata, now: DateTime) returns (r: Result<bool, DbError>)
      requires db.Valid()
      modifies db
      ensures db.Valid() && db.transcripts == old(db.transcripts)
      ensures db.rows == DiscoverRows(old(db.rows), v, now)
      ensures r == Success(true) <==> IndexOfId(old(db.rows), v.videoId).None?
      ensures r.Failure? <==> Find(old(db.rows), v.videoId, v.source).None? && IndexOfId(old(db.rows), v.videoId).Some?
    {
      if !db.VideoExists(v.videoId, v.source) {
        var created := db.CreateVideoRecord(v.videoId, v.source, v.filename, v.url, v.dateRecorded, now,
                                            v.committee, v.title);
        if created.Failure? {
          return Failure(created.error);
        }
        return Success(true);
      }
      return Success(false);
    }

    /** `mark_video_processed` with the write it means: `update_video_status`
        of the download status and the path. */
    method MarkVideoProcessed(v: VideoMetadata, status: ProcessingStatus, path: Option<string>)
      requires db.Valid()
      modifies db
      ensures db.Valid() && db.transcripts == old(db.transcripts)
      ensures db.rows == PatchRows(old(db.rows), v.videoId, v.source, ProcessedPatch(status, path))
    {
      db.UpdateVideoStatus(v.videoId, v.source, ProcessedPatch(status, path));
    }

    /** `get_unprocessed_videos`: one metadata per pending row selected by
        the store, in the store's order. */
    method GetUnprocessedVideos(cutoff: Option<DateTime>, source: Option<string>) returns (videos: seq<VideoMetadata>)
      ensures |videos| == |UnprocessedVideos(db.rows, cutoff, "pending", source)|
      ensures forall k :: 0 <= k < |videos| ==> videos[k] == FromRecord(UnprocessedVideos(db.rows, cutoff, "pending", source)[k])
      ensures forall k :: 0 <= k < |videos| ==>
                exists x :: x in db.rows && x.downloadStatus == "pending" && OnOrAfter(x, cutoff) && videos[k] == FromRecord(x)
    {
      var records := UnprocessedVideos(db.rows, cutoff, "pending", source);
      videos := FromRecords(records);
      forall k | 0 <= k < |videos|
        ensures exists x :: x in db.rows && x.downloadStatus == "pending" && OnOrAfter(x, cutoff) && videos[k] == FromRecord(x)
      {
        assert records[k] in records;
      }
    }

    /** `get_all_videos`: one metadata per row on or after the cutoff, newest
        recording first. */
    method GetAllVideos(cutoff: Option<DateTime>) returns (videos: seq<VideoMetadata>)
      ensures |videos| == |AllVideos(db.rows, cutoff)|
      ensures forall k :: 0 <= k < |videos| ==> videos[k] == FromRecord(AllVideos(db.rows, cutoff)[k])
      ensures forall i, j :: 0 <= i < j < |videos| ==> Le(videos[j].dateRecorded, videos[i].dateRecorded)
    {
      var records := AllVideos(db.rows, cutoff);
      videos := FromRecords(records);
    }
  }
}
