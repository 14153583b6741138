/** The Senate archive scraper: one JSON listing from the archive API, each
    entry turned into a video when it has an id and a date inside the window,
    and the stream URL asked of the Castus API with a fixed CloudFront
    pattern as fallback. The HTTP requests and the general date parser are
    parameters. */
module Senate {
  import opened Wrappers
  import opened Text
  import opened Clock
  import opened Metadata
  import opened DateParser

  const PlayerUrlPrefix: string := "https://cloud.castus.tv/vod/misenate/video/"
  const CloudfrontOutputs: string := "https://dlttx48mxf9m3.cloudfront.net/outputs"

  /** The keys that may hold the listing, in the order they are tried. */
  const ListKeys: seq<string> := ["allFiles", "items", "videos", "results", "data"]

  /** A decoded JSON value. Numbers are integers. */
  datatype Json = JNull | JBool(b: bool) | JNum(n: int) | JStr(s: string) | JList(items: seq<Json>)
                | JObj(fields: map<string, Json>)

  /** Python's truth value of a decoded value; an absent value is false. */
  predicate JTruthy(j: Option<Json>) {
    match j
    case None => false
    case Some(JNull) => false
    case Some(JBool(b)) => b
    case Some(JNum(n)) => n != 0
    case Some(JStr(s)) => s != ""
    case Some(JList(items)) => |items| > 0
    case Some(JObj(fields)) => |fields| > 0
  }

  /** `d.get(key)` on an object; `None` for a missing key. */
  function Get(d: Json, key: string): (r: Option<Json>)
    ensures d.JObj? && key in d.fields ==> r == Some(d.fields[key])
    ensures !(d.JObj? && key in d.fields) ==> r.None?
  {
    if d.JObj? && key in d.fields then Some(d.fields[key]) else None
  }

  /** `d.get(key, {})` */
  function GetOrEmpty(d: Json, key: string): Json {
    match Get(d, key)
    case None => JObj(map[])
    case Some(v) => v
  }

  /** Python's `a or b`: `a` when it is true, `b` otherwise. */
  function Or(a: Option<Json>, b: Option<Json>): (r: Option<Json>)
    ensures JTruthy(r) <==> JTruthy(a) || JTruthy(b)
    ensures JTruthy(a) ==> r == a
  {
    if JTruthy(a) then a else b
  }

  /** A string value as text; other kinds give nothing. */
  function TextOf(j: Option<Json>): Option<string> {
    if j.Some? && j.value.JStr? then Some(j.value.s) else None
  }

  /** The first key of `keys` whose value in `fields` is a list. */
  function FirstListKey(fields: map<string, Json>, keys: seq<string>): (r: Option<nat>)
    ensures r.Some? ==> r.value < |keys| && keys[r.value] in fields && fields[keys[r.value]].JList?
    ensures r.Some? ==> forall k :: 0 <= k < r.value ==> !(keys[k] in fields && fields[keys[k]].JList?)
    ensures r.None? ==> forall k :: 0 <= k < |keys| ==> !(keys[k] in fields && fields[keys[k]].JList?)
  {
    if |keys| == 0 then None
    else if keys[0] in fields && fields[keys[0]].JList? then Some(0)
    else
      var r := FirstListKey(fields, keys[1..]);
      if r.Some? then Some(r.value + 1) else None
  }

  /** `_extract_video_list`: a list as it is; for an object the list under
      the first of allFiles, items, videos, results, data that holds one;
      nothing otherwise. */
  function ExtractVideoList(data: Json): (r: seq<Json>)
    ensures data.JList? ==> r == data.items
    ensures data.JObj? && FirstListKey(data.fields, ListKeys).Some? ==>
              r == data.fields[ListKeys[FirstListKey(data.fields, ListKeys).value]].items
    ensures data.JObj? && FirstListKey(data.fields, ListKeys).None? ==> r == []
    ensures !data.JList? && !data.JObj? ==> r == []
  {
    if data.JList? then data.items
    else if !data.JObj? then []
    else match FirstListKey(data.fields, ListKeys)
      case None => []
      case Some(k) => data.fields[ListKeys[k]].items
  }

  /** An "allFiles" list wins over every other key. */
  lemma AllFilesFirst(fields: map<string, Json>, items: seq<Json>)
    requires "allFiles" in fields && fields["allFiles"] == JList(items)
    ensures ExtractVideoList(JObj(fields)) == items
  {
  }

  /** The answer of the Castus stream API: no answer, or a status and a body. */
  datatype CastusReply = PostFailed | Reply(status: int, body: Json)

  type CastusApi = string -> CastusReply

  /** The body holds the text `s` at `response.payload.data`, each step an
      object. */
  predicate DataIs(body: Json, s: string) {
    body.JObj? && "response" in body.fields
    && var response := body.fields["response"];
    response.JObj? && "payload" in response.fields
    && var payload := response.fields["payload"];
    payload.JObj? && "data" in payload.fields && payload.fields["data"] == JStr(s)
  }

  /** The stream URL the Castus API gives: `response.payload.data` of a 200
      answer when it is a non-empty string, cut at its first '?'. A step that
      is not an object raises and gives nothing. */
  function ApiStreamUrl(reply: CastusReply): (r: Option<string>)
    ensures r.Some? <==> reply.Reply? && reply.status == 200 && exists s :: s != "" && DataIs(reply.body, s)
    ensures forall s :: reply.Reply? && reply.status == 200 && s != "" && DataIs(reply.body, s) ==>
              r == Some(BeforeFirst(s, '?'))
    ensures r.Some? ==> '?' !in r.value
  {
    if reply.PostFailed? || reply.status != 200 || !reply.body.JObj? then None
    else
      var response := GetOrEmpty(reply.body, "response");
      if !response.JObj? then None
      else
        var payload := GetOrEmpty(response, "payload");
        if !payload.JObj? then None
        else
          var data := Get(payload, "data");
          if JTruthy(data) && data.value.JStr? then
            assert DataIs(reply.body, data.value.s);
            Some(BeforeFirst(data.value.s, '?'))
          else None
  }

  /** The fixed CloudFront pattern. */
  function FallbackUrl(videoId: string): string {
    CloudfrontOutputs + "/" + videoId + "/Default/HLS/out.m3u8"
  }

  /** `_construct_cloudfront_url`: always a URL, the API's when it gives one
      and the CloudFront pattern otherwise. */
  function ConstructCloudfrontUrl(videoId: string, castus: CastusApi): (r: string)
    ensures ApiStreamUrl(castus(videoId)).Some? ==> r == ApiStreamUrl(castus(videoId)).value && '?' !in r
    ensures ApiStreamUrl(castus(videoId)).None? ==> r == FallbackUrl(videoId) && EndsWith(r, ".m3u8")
  {
    match ApiStreamUrl(castus(videoId))
    case Some(u) => u
    case None =>
      var r := FallbackUrl(videoId);
      assert r[|r| - 5..] == ".m3u8";
      r
  }

  /** `resolve_stream_url` of the Senate scraper: never nothing. */
  function ResolveStreamUrl(v: VideoMetadata, castus: CastusApi): (r: Option<string>)
    ensures r.Some? && r.value == ConstructCloudfrontUrl(v.videoId, castus)
  {
    Some(ConstructCloudfrontUrl(v.videoId, castus))
  }

  /** The entry's id as text: `str()` of a string or an integer. */
  function IdText(j: Option<Json>): Option<string> {
    if !JTruthy(j) then None
    else match j.value
      case JStr(s) => Some(s)
      case JNum(n) => Some(IntToString(n))
      case _ => None
  }

  /** The recording date of an entry: "date", else "original_date"; a string
      goes to the general parser and, when that fails, to the senate label
      parser; an integer only to the senate label parser. */
  function EntryDate(d: Json, parse: DateOracle): Option<DateTime> {
    var raw := Or(Get(d, "date"), Get(d, "original_date"));
    if !JTruthy(raw) then None
    else match raw.value
      case JStr(s) => if parse(s).Some? then parse(s) else ParseSenateDate(s, parse)
      case JNum(n) => ParseSenateDate(IntToString(n), parse)
      case _ => None
  }

  /** `d.get(outer, {}).get(key)` when the outer value is an object; nothing
      otherwise. */
  function Nested(d: Json, outer: string, key: string): Option<Json> {
    var o := GetOrEmpty(d, outer);
    if o.JObj? then Get(o, key) else None
  }

  /** The title: metadata.title, else title, else name, else "". The first
      true value wins; a value that is not text gives no title. */
  function EntryTitle(d: Json): (r: Option<string>)
    ensures JTruthy(Nested(d, "metadata", "title")) ==> r == TextOf(Nested(d, "metadata", "title"))
    ensures !JTruthy(Nested(d, "metadata", "title")) && JTruthy(Get(d, "title")) ==> r == TextOf(Get(d, "title"))
    ensures !JTruthy(Nested(d, "metadata", "title")) && !JTruthy(Get(d, "title")) && JTruthy(Get(d, "name")) ==>
              r == TextOf(Get(d, "name"))
    ensures !JTruthy(Nested(d, "metadata", "title")) && !JTruthy(Get(d, "title")) && !JTruthy(Get(d, "name")) ==>
              r == Some("")
  {
    var t := Or(Or(Nested(d, "metadata", "title"), Get(d, "title")), Get(d, "name"));
    if JTruthy(t) then TextOf(t) else Some("")
  }

  /** Neither the agenda's name nor its title is a true value. */
  predicate NoAgendaCommittee(d: Json) {
    !JTruthy(Nested(d, "agenda", "name")) && !JTruthy(Nested(d, "agenda", "title"))
  }

  /** The committee: agenda name or title, else metadata committee or
      playlist. The first true value wins; when none is true the last value
      consulted stands, so a blank string gives a blank committee. */
  function EntryCommittee(d: Json): (r: Option<string>)
    ensures JTruthy(Nested(d, "agenda", "name")) ==> r == TextOf(Nested(d, "agenda", "name"))
    ensures !JTruthy(Nested(d, "agenda", "name")) && JTruthy(Nested(d, "agenda", "title")) ==>
              r == TextOf(Nested(d, "agenda", "title"))
    ensures NoAgendaCommittee(d) && JTruthy(Nested(d, "metadata", "committee")) ==>
              r == TextOf(Nested(d, "metadata", "committee"))
    ensures NoAgendaCommittee(d) && !JTruthy(Nested(d, "metadata", "committee")) && JTruthy(Nested(d, "metadata", "playlist")) ==>
              r == TextOf(Nested(d, "metadata", "playlist"))
    ensures NoAgendaCommittee(d) && !JTruthy(Nested(d, "metadata", "committee")) && !JTruthy(Nested(d, "metadata", "playlist")) ==>
              r.None? || r == Some("")
  {
    var agenda := GetOrEmpty(d, "agenda");
    var fromAgenda := if agenda.JObj? then Or(Get(agenda, "name"), Get(agenda, "title")) else None;
    var c := if !JTruthy(fromAgenda) && GetOrEmpty(d, "metadata").JObj?
             then Or(Nested(d, "metadata", "committee"), Nested(d, "metadata", "playlist"))
             else fromAgenda;
    TextOf(c)
  }

  /** The clock, the date parser and the Castus API. */
  datatype Env = Env(now: DateTime, parse: DateOracle, castus: CastusApi)

  /** The window an entry must fall in: the range when both ends are given,
      from the cutoff otherwise. */
  predicate InSenateWindow(v: VideoMetadata, cutoff: DateTime, start: Option<DateTime>, end: Option<DateTime>) {
    if start.Some? && end.Some? then InWindow(v, start.value, end) else !Lt(v.dateRecorded, cutoff)
  }

  /** `_parse_video_data`: nothing for an entry that is not an object, has no
      id, or has no parseable date inside the window; otherwise a senate
      video whose file name, player URL and stream URL all derive from the
      id. */
  function ParseVideoData(d: Json, cutoff: DateTime, start: Option<DateTime>, end: Option<DateTime>, env: Env)
    : (r: Option<VideoMetadata>)
    ensures IdText(Or(Get(d, "_id"), Get(d, "id"))).None? || EntryDate(d, env.parse).None? ==> r.None?
    ensures r.Some? ==>
              var id := IdText(Or(Get(d, "_id"), Get(d, "id"))).value;
              var v := r.value;
              d.JObj? && v.videoId == id && v.source == "senate" && v.filename == id + ".mp4"
              && v.url == PlayerUrlPrefix + id && v.streamUrl == Some(ConstructCloudfrontUrl(id, env.castus))
              && v.dateRecorded == EntryDate(d, env.parse).value && v.dateDiscovered == env.now
              && v.title == EntryTitle(d) && v.committee == EntryCommittee(d)
              && InSenateWindow(v, cutoff, start, end)
    ensures d.JObj? && IdText(Or(Get(d, "_id"), Get(d, "id"))).Some? && EntryDate(d, env.parse).Some? ==>
              (r.Some? <==> (if start.Some? && end.Some?
                             then !Lt(EntryDate(d, env.parse).value, start.value)
                                  && !Lt(end.value, EntryDate(d, env.parse).value)
                             else !Lt(EntryDate(d, env.parse).value, cutoff)))
  {
    if !d.JObj? then None
    else
      var id := IdText(Or(Get(d, "_id"), Get(d, "id")));
      var date := EntryDate(d, env.parse);
      if id.None? || date.None? then None
      else if start.Some? && end.Some? && (Lt(date.value, start.value) || Lt(end.value, date.value)) then None
      else if !(start.Some? && end.Some?) && Lt(date.value, cutoff) then None
      else
        var videoId := id.value;
        Some(Make(videoId, "senate", videoId + ".mp4", PlayerUrlPrefix + videoId, date.value, env.now,
                  streamUrl := Some(ConstructCloudfrontUrl(videoId, env.castus)),
                  committee := EntryCommittee(d), title := EntryTitle(d)))
  }

  /** The videos the entries give, in listing order. */
  function Parsed(list: seq<Json>, cutoff: DateTime, start: Option<DateTime>, end: Option<DateTime>, env: Env)
    : (r: seq<VideoMetadata>)
    ensures |r| <= |list|
    ensures forall v :: v in r ==> v.source == "senate" && InSenateWindow(v, cutoff, start, end)
  {
    if |list| == 0 then []
    else
      var prev := Parsed(list[..|list| - 1], cutoff, start, end, env);
      match ParseVideoData(list[|list| - 1], cutoff, start, end, env)
      case None => prev
      case Some(v) => prev + [v]
  }

  /** The videos of a shorter listing come first among those of a longer one. */
  lemma {:induction false} ParsedPrefix(list: seq<Json>, k: nat, cutoff: DateTime, start: Option<DateTime>,
                                        end: Option<DateTime>, env: Env)
    requires k <= |list|
    ensures var p := Parsed(list[..k], cutoff, start, end, env);
            var q := Parsed(list, cutoff, start, end, env);
            |p| <= |q| && q[..|p|] == p
    decreases |list| - k
  {
    if k < |list| {
      var init := list[..|list| - 1];
      assert init[..k] == list[..k];
      ParsedPrefix(init, k, cutoff, start, end, env);
      var p := Parsed(list[..k], cutoff, start, end, env);
      var q0 := Parsed(init, cutoff, start, end, env);
      var q := Parsed(list, cutoff, start, end, env);
      match ParseVideoData(list[|list| - 1], cutoff, start, end, env)
      case None =>
        assert q == q0;
      case Some(v) =>
        assert q == q0 + [v];
        assert q[..|q0|] == q0;
        assert q[..|p|] == q0[..|p|];
    } else {
      assert list[..k] == list;
    }
  }

  /** How many videos a limit lets through: all without a (truthy) limit,
      and at least one with any non-zero limit, because the check follows
      the append. */
  function Cap(limit: Option<int>): (r: Option<nat>)
    ensures r.Some? ==> r.value >= 1
    ensures limit.Some? && limit.value > 0 ==> r == Some(limit.value)
  {
    if limit.Some? && limit.value != 0 then Some(if limit.value >= 1 then limit.value else 1) else None
  }

  /** The first `Cap(limit)` videos. */
  function Limited(vs: seq<VideoMetadata>, limit: Option<int>): (r: seq<VideoMetadata>)
    ensures |r| <= |vs| && vs[..|r|] == r
    ensures Cap(limit).None? ==> r == vs
    ensures Cap(limit).Some? ==> |r| == (if Cap(limit).value < |vs| then Cap(limit).value else |vs|)
  {
    match Cap(limit)
    case None => vs
    case Some(c) => if c < |vs| then vs[..c] else vs
  }

  /** `discover_videos` of the Senate scraper: `listing` is the decoded API
      answer, or nothing when the request or the decoding fails. */
  method DiscoverVideos(listing: Option<Json>, cutoff: DateTime, limit: Option<int>, start: Option<DateTime>,
                        end: Option<DateTime>, env: Env) returns (videos: seq<VideoMetadata>)
    ensures listing.None? ==> videos == []
    ensures listing.Some? ==>
              videos == Limited(Parsed(ExtractVideoList(listing.value), cutoff, start, end, env), limit)
  {
    if listing.None? {
      return [];
    }
    var list := ExtractVideoList(listing.value);
    videos := [];
    var i := 0;
    while i < |list|
      invariant 0 <= i <= |list|
      invariant videos == Parsed(list[..i], cutoff, start, end, env)
      invariant Cap(limit).Some? ==> |videos| < Cap(limit).value
    {
      var stop;
      videos, stop := ParseNext(list, i, videos, cutoff, limit, start, end, env);
      if stop {
        return;
      }
      i := i + 1;
    }
    AllUnderLimit(list, videos, cutoff, limit, start, end, env);
  }

  /** One turn of the loop: the `i`-th entry's video, if any, is appended,
      and the loop stops once the videos reach a non-zero limit. */
  method ParseNext(list: seq<Json>, i: nat, acc: seq<VideoMetadata>, cutoff: DateTime, limit: Option<int>,
                   start: Option<DateTime>, end: Option<DateTime>, env: Env)
    returns (videos: seq<VideoMetadata>, stop: bool)
    requires i < |list| && acc == Parsed(list[..i], cutoff, start, end, env)
    requires Cap(limit).Some? ==> |acc| < Cap(limit).value
    ensures stop ==> videos == Limited(Parsed(list, cutoff, start, end, env), limit)
    ensures !stop ==> videos == Parsed(list[..i + 1], cutoff, start, end, env)
                      && (Cap(limit).Some? ==> |videos| < Cap(limit).value)
  {
    ParsedAt(list, i, cutoff, start, end, env);
    var video := ParseVideoData(list[i], cutoff, start, end, env);
    videos, stop := acc, false;
    if video.Some? {
      videos := acc + [video.value];
      if limit.Some? && limit.value != 0 && |videos| >= limit.value {
        StopAtLimit(list, i + 1, videos, cutoff, limit, start, end, env);
        stop := true;
      }
    }
  }

  /** The videos of `list` extend those of all but its last entry by what
      that entry gives. */
  lemma ParsedLast(list: seq<Json>, cutoff: DateTime, start: Option<DateTime>, end: Option<DateTime>, env: Env)
    requires |list| > 0
    ensures Parsed(list, cutoff, start, end, env)
            == match ParseVideoData(list[|list| - 1], cutoff, start, end, env)
               case None => Parsed(list[..|list| - 1], cutoff, start, end, env)
               case Some(v) => Parsed(list[..|list| - 1], cutoff, start, end, env) + [v]
  {
  }

  lemma ParsedAt(list: seq<Json>, i: int, cutoff: DateTime, start: Option<DateTime>, end: Option<DateTime>, env: Env)
    requires 0 <= i < |list|
    ensures Parsed(list[..i + 1], cutoff, start, end, env)
            == match ParseVideoData(list[i], cutoff, start, end, env)
               case None => Parsed(list[..i], cutoff, start, end, env)
               case Some(v) => Parsed(list[..i], cutoff, start, end, env) + [v]
  {
    var p := list[..i + 1];
    assert p[..|p| - 1] == list[..i] && p[|p| - 1] == list[i];
    ParsedLast(p, cutoff, start, end, env);
  }

  /** Stopping once the limit is reached after the first `k` entries gives
      the limited videos of the whole listing. */
  lemma StopAtLimit(list: seq<Json>, k: nat, videos: seq<VideoMetadata>, cutoff: DateTime, limit: Option<int>,
                    start: Option<DateTime>, end: Option<DateTime>, env: Env)
    requires k <= |list| && videos == Parsed(list[..k], cutoff, start, end, env) && |videos| > 0
    requires Cap(limit).Some? && |videos| - 1 < Cap(limit).value && |videos| >= limit.value
    ensures videos == Limited(Parsed(list, cutoff, start, end, env), limit)
  {
    ParsedPrefix(list, k, cutoff, start, end, env);
  }

  /** A loop that never reached the limit keeps every video of the listing. */
  lemma AllUnderLimit(list: seq<Json>, videos: seq<VideoMetadata>, cutoff: DateTime, limit: Option<int>,
                      start: Option<DateTime>, end: Option<DateTime>, env: Env)
    requires videos == Parsed(list[..|list|], cutoff, start, end, env)
    requires Cap(limit).Some? ==> |videos| < Cap(limit).value
    ensures videos == Limited(Parsed(list, cutoff, start, end, env), limit)
  {
    assert list[..|list|] == list;
  }

  /** Every video discovered is a senate video inside the window, there are
      at most `limit` of them for a positive limit, and they are the first
      videos of the listing in its order. */
  lemma DiscoverBounded(list: seq<Json>, cutoff: DateTime, limit: Option<int>, start: Option<DateTime>,
                        end: Option<DateTime>, env: Env)
    ensures var all := Parsed(list, cutoff, start, end, env);
            var r := Limited(all, limit);
            (forall v :: v in r ==> v.source == "senate" && InSenateWindow(v, cutoff, start, end))
            && (limit.Some? && limit.value > 0 ==> |r| <= limit.value)
            && r == all[..|r|]
  {
    var all := Parsed(list, cutoff, start, end, env);
    var r := Limited(all, limit);
    forall v | v in r ensures v in all {
      var k :| 0 <= k < |r| && r[k] == v;
      assert all[k] == v;
    }
  }
}
