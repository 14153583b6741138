/** The metadata a scraper produces for one archived video, and its dictionary
    form used for storage. */
module Metadata {
  import opened Wrappers
  import opened Clock

  /** A video found in a source archive. `dateDiscovered` is filled in at
      construction, so it is always present. */
  datatype VideoMetadata = VideoMetadata(
    videoId: string,
    source: string,
    filename: string,
    url: string,
    dateRecorded: DateTime,
    streamUrl: Option<string>,
    committee: Option<string>,
    title: Option<string>,
    dateDiscovered: DateTime)

  /** The constructor with its defaults: the optional text fields are absent
      unless given, and a missing discovery time becomes `now`. */
  function Make(videoId: string, source: string, filename: string, url: string, dateRecorded: DateTime,
                now: DateTime, streamUrl: Option<string> := None, committee: Option<string> := None,
                title: Option<string> := None, dateDiscovered: Option<DateTime> := None): (v: VideoMetadata)
    ensures (v.videoId, v.source, v.filename, v.url, v.dateRecorded) == (videoId, source, filename, url, dateRecorded)
    ensures (v.streamUrl, v.committee, v.title) == (streamUrl, committee, title)
    ensures dateDiscovered.Some? ==> v.dateDiscovered == dateDiscovered.value
    ensures dateDiscovered.None? ==> v.dateDiscovered == now
  {
    VideoMetadata(videoId, source, filename, url, dateRecorded, streamUrl, committee, title,
                  dateDiscovered.GetOr(now))
  }

  /** A video inside a date window: recorded not before its start and, when
      the window has an end, not after it. */
  predicate InWindow(v: VideoMetadata, start: DateTime, end: Option<DateTime>) {
    !Lt(v.dateRecorded, start) && (end.Some? ==> !Lt(end.value, v.dateRecorded))
  }

  /** A value in the dictionary form. */
  datatype Field = Text(text: string) | Date(date: DateTime) | Null

  type Dict = map<string, Field>

  datatype DictError = MissingKey(key: string) | WrongType(key: string)

  const Keys: set<string> := {"id", "source", "filename", "url", "stream_url", "date_recorded",
                              "committee", "title", "date_discovered"}

  function OptText(o: Option<string>): Field {
    match o
    case Some(s) => Text(s)
    case None => Null
  }

  /** The dictionary form: one entry per field, the identifier under "id", absent
      optional values as `Null`. */
  function ToDict(v: VideoMetadata): (d: Dict)
    ensures d.Keys == Keys
    ensures d["id"] == Text(v.videoId) && d["source"] == Text(v.source)
    ensures d["filename"] == Text(v.filename) && d["url"] == Text(v.url)
    ensures d["date_recorded"] == Date(v.dateRecorded) && d["date_discovered"] == Date(v.dateDiscovered)
    ensures d["stream_url"] == (if v.streamUrl.Some? then Text(v.streamUrl.value) else Null)
    ensures d["committee"] == (if v.committee.Some? then Text(v.committee.value) else Null)
    ensures d["title"] == (if v.title.Some? then Text(v.title.value) else Null)
  {
    map["id" := Text(v.videoId), "source" := Text(v.source), "filename" := Text(v.filename),
        "url" := Text(v.url), "stream_url" := OptText(v.streamUrl), "date_recorded" := Date(v.dateRecorded),
        "committee" := OptText(v.committee), "title" := OptText(v.title),
        "date_discovered" := Date(v.dateDiscovered)]
  }

  /** `data[key]` for a text field. */
  function RequiredText(d: Dict, key: string): Result<string, DictError> {
    if key !in d then Failure(MissingKey(key))
    else match d[key]
      case Text(s) => Success(s)
      case _ => Failure(WrongType(key))
  }

  /** `data.get(key)` for an optional text field: missing and `Null` are both absent. */
  function OptionalText(d: Dict, key: string): Result<Option<string>, DictError> {
    if key !in d then Success(None)
    else match d[key]
      case Text(s) => Success(Some(s))
      case Null => Success(None)
      case _ => Failure(WrongType(key))
  }

  function RequiredDate(d: Dict, key: string): Result<DateTime, DictError> {
    if key !in d then Failure(MissingKey(key))
    else match d[key]
      case Date(t) => Success(t)
      case _ => Failure(WrongType(key))
  }

  function OptionalDate(d: Dict, key: string): Result<Option<DateTime>, DictError> {
    if key !in d then Success(None)
    else match d[key]
      case Date(t) => Success(Some(t))
      case Null => Success(None)
      case _ => Failure(WrongType(key))
  }

  /** Rebuilds metadata from its dictionary form. The keys are read in the
      order the constructor call lists them, so the first missing required key
      is the one reported; `now` stands in for the clock. */
  function FromDict(d: Dict, now: DateTime): (r: Result<VideoMetadata, DictError>)
    ensures "id" !in d ==> r == Failure(MissingKey("id"))
    ensures r.Success? ==> "id" in d && "source" in d && "filename" in d && "url" in d && "date_recorded" in d
    ensures r.Success? ==> d["id"] == Text(r.value.videoId)
    ensures r.Success? && "date_discovered" !in d ==> r.value.dateDiscovered == now
    ensures r.Success? && "stream_url" !in d ==> r.value.streamUrl.None?
  {
    var id :- RequiredText(d, "id");
    var source :- RequiredText(d, "source");
    var filename :- RequiredText(d, "filename");
    var url :- RequiredText(d, "url");
    var streamUrl :- OptionalText(d, "stream_url");
    var recorded :- RequiredDate(d, "date_recorded");
    var committee :- OptionalText(d, "committee");
    var title :- OptionalText(d, "title");
    var discovered :- OptionalDate(d, "date_discovered");
    Success(Make(id, source, filename, url, recorded, now, streamUrl, committee, title, discovered))
  }

  /** Storing metadata and reading it back reproduces every field, whatever
      the clock says. */
  lemma RoundTrip(v: VideoMetadata, now: DateTime)
    ensures FromDict(ToDict(v), now) == Success(v)
  {
  }
}
