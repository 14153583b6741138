/** The record store: a `videos` table keyed by video id, with three status
    columns and two file paths per video, and a `transcripts` table that
    only grows. Every lookup matches on the pair (id, source); the key that
    makes rows unique is the id alone. */
module Database {
  import opened Wrappers
  import opened Text
  import opened Clock

  /** One row of the `videos` table. Statuses are stored as plain strings. */
  datatype VideoRecord = VideoRecord(
    id: string,
    source: string,
    filename: string,
    url: string,
    streamUrl: Option<string>,
    dateRecorded: DateTime,
    committee: Option<string>,
    title: Option<string>,
    dateDiscovered: DateTime,
    downloadStatus: string,
    audioStatus: string,
    transcriptionStatus: string,
    downloadPath: Option<string>,
    audioPath: Option<string>)

  /** One row of the `transcripts` table. */
  datatype TranscriptRecord = TranscriptRecord(
    id: string,
    videoId: string,
    provider: string,
    content: string,
    vttPath: Option<string>,
    createdAt: DateTime)

  datatype DbError = DuplicateKey(key: string)

  /** The row an insert adds: every status pending, no paths, discovered now. */
  function NewRecord(id: string, source: string, filename: string, url: string, dateRecorded: DateTime,
                     committee: Option<string>, title: Option<string>, streamUrl: Option<string>,
                     now: DateTime): (r: VideoRecord)
    ensures r.downloadStatus == "pending" && r.audioStatus == "pending" && r.transcriptionStatus == "pending"
    ensures r.downloadPath.None? && r.audioPath.None? && r.dateDiscovered == now
    ensures (r.id, r.source, r.filename, r.url, r.dateRecorded) == (id, source, filename, url, dateRecorded)
    ensures (r.committee, r.title, r.streamUrl) == (committee, title, streamUrl)
  {
    VideoRecord(id, source, filename, url, streamUrl, dateRecorded, committee, title, now,
                "pending", "pending", "pending", None, None)
  }

  /** No two rows share an id. */
  predicate UniqueIds(rows: seq<VideoRecord>) {
    forall i, j :: 0 <= i < j < |rows| ==> rows[i].id != rows[j].id
  }

  /** The position of the row with this id. */
  function IndexOfId(rows: seq<VideoRecord>, id: string): (r: Option<nat>)
    ensures r.Some? ==> r.value < |rows| && rows[r.value].id == id
    ensures r.Some? ==> forall k :: 0 <= k < r.value ==> rows[k].id != id
    ensures r.None? ==> forall k :: 0 <= k < |rows| ==> rows[k].id != id
  {
    if |rows| == 0 then None
    else if rows[0].id == id then Some(0)
    else match IndexOfId(rows[1..], id)
      case None => None
      case Some(i) => Some(i + 1)
  }

  /** `filter_by(id=..., source=...).first()`: the position of the first row
      with both the id and the source. */
  function Find(rows: seq<VideoRecord>, id: string, source: string): (r: Option<nat>)
    ensures r.Some? ==> r.value < |rows| && rows[r.value].id == id && rows[r.value].source == source
    ensures UniqueIds(rows) && r.None? ==>
              forall k :: 0 <= k < |rows| ==> !(rows[k].id == id && rows[k].source == source)
  {
    match IndexOfId(rows, id)
    case None => None
    case Some(i) => if rows[i].source == source then Some(i) else None
  }

  /** The optional arguments of `update_video_status`. */
  datatype StatusPatch = StatusPatch(
    downloadStatus: Option<string> := None,
    audioStatus: Option<string> := None,
    transcriptionStatus: Option<string> := None,
    downloadPath: Option<string> := None,
    audioPath: Option<string> := None)

  /** A patch applied to one row: each truthy argument replaces its column,
      every other column keeps its value. */
  function Apply(rec: VideoRecord, p: StatusPatch): (r: VideoRecord)
    ensures r.downloadStatus == (if Truthy(p.downloadStatus) then p.downloadStatus.value else rec.downloadStatus)
    ensures r.audioStatus == (if Truthy(p.audioStatus) then p.audioStatus.value else rec.audioStatus)
    ensures r.transcriptionStatus == (if Truthy(p.transcriptionStatus) then p.transcriptionStatus.value else rec.transcriptionStatus)
    ensures r.downloadPath == (if Truthy(p.downloadPath) then p.downloadPath else rec.downloadPath)
    ensures r.audioPath == (if Truthy(p.audioPath) then p.audioPath else rec.audioPath)
    ensures r == rec.(downloadStatus := r.downloadStatus, audioStatus := r.audioStatus,
                      transcriptionStatus := r.transcriptionStatus, downloadPath := r.downloadPath,
                      audioPath := r.audioPath)
  {
    var a := if Truthy(p.downloadStatus) then rec.(downloadStatus := p.downloadStatus.value) else rec;
    var b := if Truthy(p.audioStatus) then a.(audioStatus := p.audioStatus.value) else a;
    var c := if Truthy(p.transcriptionStatus) then b.(transcriptionStatus := p.transcriptionStatus.value) else b;
    var d := if Truthy(p.downloadPath) then c.(downloadPath := p.downloadPath) else c;
    if Truthy(p.audioPath) then d.(audioPath := p.audioPath) else d
  }

  /** A stored path is never cleared by an update: `None` and "" are skipped. */
  lemma ApplyKeepsPaths(rec: VideoRecord, p: StatusPatch)
    ensures rec.downloadPath.Some? ==> Apply(rec, p).downloadPath.Some?
    ensures Truthy(rec.downloadPath) ==> Truthy(Apply(rec, p).downloadPath)
    ensures rec.audioPath.Some? ==> Apply(rec, p).audioPath.Some?
    ensures Truthy(rec.audioPath) ==> Truthy(Apply(rec, p).audioPath)
  {
  }

  /** Updating twice with the same arguments is the same as updating once,
      and an update with no truthy argument changes nothing. */
  lemma ApplyIdempotent(rec: VideoRecord, p: StatusPatch)
    ensures Apply(Apply(rec, p), p) == Apply(rec, p)
    ensures Apply(rec, StatusPatch()) == rec
    ensures Apply(rec, StatusPatch(transcriptionStatus := None)) == rec
  {
  }

  /** The table after `update_video_status`: the matching row patched, or the
      table unchanged when no row matches. */
  function PatchRows(rows: seq<VideoRecord>, id: string, source: string, p: StatusPatch): (r: seq<VideoRecord>)
    ensures |r| == |rows|
    ensures Find(rows, id, source).None? ==> r == rows
    ensures forall k :: 0 <= k < |rows| && Some(k) != Find(rows, id, source) ==> r[k] == rows[k]
    ensures Find(rows, id, source).Some? ==> r[Find(rows, id, source).value] == Apply(rows[Find(rows, id, source).value], p)
  {
    match Find(rows, id, source)
    case None => rows
    case Some(i) => rows[i := Apply(rows[i], p)]
  }

  /** The table after `update_stream_url`: only the stream URL of the
      matching row changes, and nothing at all when no row matches. */
  function SetStreamUrl(rows: seq<VideoRecord>, id: string, source: string, url: string): (r: seq<VideoRecord>)
    ensures |r| == |rows|
    ensures Find(rows, id, source).None? ==> r == rows
    ensures Find(rows, id, source).Some? ==>
              var i := Find(rows, id, source).value;
              r == rows[i := rows[i].(streamUrl := Some(url))]
    ensures forall k :: 0 <= k < |r| ==> r[k].id == rows[k].id && r[k].source == rows[k].source
  {
    match Find(rows, id, source)
    case None => rows
    case Some(i) => rows[i := rows[i].(streamUrl := Some(url))]
  }

  /** An update whose arguments are all falsy leaves the table as it is. */
  lemma EmptyPatchChangesNothing(rows: seq<VideoRecord>, id: string, source: string)
    ensures PatchRows(rows, id, source, StatusPatch(transcriptionStatus := None)) == rows
  {
    match Find(rows, id, source)
    case None =>
    case Some(i) => ApplyIdempotent(rows[i], StatusPatch());
  }

  /** Patching keeps ids and sources, so it keeps ids unique and every
      lookup result. */
  lemma PatchKeepsKeys(rows: seq<VideoRecord>, id: string, source: string, p: StatusPatch, id2: string, source2: string)
    requires UniqueIds(rows)
    ensures UniqueIds(PatchRows(rows, id, source, p))
    ensures Find(PatchRows(rows, id, source, p), id2, source2) == Find(rows, id2, source2)
  {
    var r := PatchRows(rows, id, source, p);
    assert forall k :: 0 <= k < |r| ==> r[k].id == rows[k].id && r[k].source == rows[k].source;
    SameKeysSameFind(rows, r, id2, source2);
  }

  /** A status update of a row the lookup finds changes that row only,
      and the lookup still finds it. */
  lemma PatchAt(rows: seq<VideoRecord>, id: string, source: string, p: StatusPatch, i: nat)
    requires UniqueIds(rows) && Find(rows, id, source) == Some(i)
    ensures PatchRows(rows, id, source, p) == rows[i := Apply(rows[i], p)]
    ensures UniqueIds(PatchRows(rows, id, source, p)) && Find(PatchRows(rows, id, source, p), id, source) == Some(i)
  {
    PatchKeepsKeys(rows, id, source, p, id, source);
  }

  lemma {:induction false} SameKeysSameFind(a: seq<VideoRecord>, b: seq<VideoRecord>, id: string, source: string)
    requires |a| == |b| && forall k :: 0 <= k < |a| ==> a[k].id == b[k].id && a[k].source == b[k].source
    ensures IndexOfId(a, id) == IndexOfId(b, id)
    ensures Find(a, id, source) == Find(b, id, source)
  {
    if |a| > 0 {
      SameKeysSameFind(a[1..], b[1..], id, source);
    }
  }

  /** Two tables with the same keys row by row. */
  predicate SameKeys(rows: seq<VideoRecord>, rows0: seq<VideoRecord>) {
    |rows| == |rows0| && forall k :: 0 <= k < |rows0| ==> rows[k].id == rows0[k].id && rows[k].source == rows0[k].source
  }

  /** The table `rows0` after a sweep over the records of `prefix` that
      patched, by (id, source), each record satisfying `reset`. */
  predicate PatchedWhere(rows: seq<VideoRecord>, rows0: seq<VideoRecord>, prefix: seq<VideoRecord>,
                         reset: VideoRecord -> bool, p: StatusPatch) {
    SameKeys(rows, rows0)
    && forall k :: 0 <= k < |rows0| ==>
         rows[k] == (if rows0[k] in prefix && reset(rows0[k]) then Apply(rows0[k], p) else rows0[k])
  }

  /** One more record of the table handled by the sweep: patched when it
      satisfies `reset`, left alone otherwise. A record handled twice is
      patched once, since patches are idempotent. */
  lemma PatchedWhereStep(rows0: seq<VideoRecord>, prefix: seq<VideoRecord>, x: VideoRecord, j: int,
                         rows: seq<VideoRecord>, reset: VideoRecord -> bool, p: StatusPatch)
    requires UniqueIds(rows0) && 0 <= j < |rows0| && rows0[j] == x
    requires PatchedWhere(rows, rows0, prefix, reset, p)
    ensures UniqueIds(rows)
    ensures reset(x) ==> PatchedWhere(PatchRows(rows, x.id, x.source, p), rows0, prefix + [x], reset, p)
    ensures !reset(x) ==> PatchedWhere(rows, rows0, prefix + [x], reset, p)
  {
    FindRow(rows0, j);
    SameKeysSameFind(rows0, rows, x.id, x.source);
    ApplyIdempotent(x, p);
    forall k | 0 <= k < |rows0| ensures rows0[k] in prefix + [x] <==> rows0[k] in prefix || k == j {
    }
  }

  /** With unique ids, every row is the one its own (id, source) finds. */
  lemma FindRow(rows: seq<VideoRecord>, k: int)
    requires UniqueIds(rows) && 0 <= k < |rows|
    ensures Find(rows, rows[k].id, rows[k].source) == Some(k)
  {
    var i := IndexOfId(rows, rows[k].id);
    assert i.Some?;
  }

  /** Rows recorded on or after the cutoff, if one is given. */
  predicate OnOrAfter(rec: VideoRecord, cutoff: Option<DateTime>) {
    cutoff.None? || Le(cutoff.value, rec.dateRecorded)
  }

  /** The rows that pass `keep`, in table order. */
  function Select(rows: seq<VideoRecord>, keep: VideoRecord -> bool): (r: seq<VideoRecord>)
    ensures |r| <= |rows|
    ensures forall x :: x in r <==> x in rows && keep(x)
    ensures multiset(r) <= multiset(rows)
  {
    if |rows| == 0 then []
    else
      var rest := Select(rows[1..], keep);
      assert rows == [rows[0]] + rows[1..];
      if keep(rows[0]) then [rows[0]] + rest else rest
  }

  /** Newest first: no later row is recorded after an earlier one. */
  predicate SortedNewestFirst(s: seq<VideoRecord>) {
    forall i, j :: 0 <= i < j < |s| ==> Le(s[j].dateRecorded, s[i].dateRecorded)
  }

  /** Inserts `x` before the first row recorded strictly earlier than it. */
  function InsertNewestFirst(s: seq<VideoRecord>, x: VideoRecord): (r: seq<VideoRecord>)
    ensures multiset(r) == multiset(s) + multiset{x}
    ensures forall y :: y in r <==> y in s || y == x
  {
    if |s| == 0 then [x]
    else if Lt(s[0].dateRecorded, x.dateRecorded) then [x] + s
    else
      assert s == [s[0]] + s[1..];
      [s[0]] + InsertNewestFirst(s[1..], x)
  }

  /** Inserting keeps the newest-first order. */
  lemma {:induction false} InsertKeepsOrder(s: seq<VideoRecord>, x: VideoRecord)
    requires SortedNewestFirst(s)
    ensures SortedNewestFirst(InsertNewestFirst(s, x))
  {
    if |s| > 0 && !Lt(s[0].dateRecorded, x.dateRecorded) {
      var tail := s[1..];
      InsertKeepsOrder(tail, x);
      var rest := InsertNewestFirst(tail, x);
      Trichotomy(s[0].dateRecorded, x.dateRecorded);
      forall y | y in rest ensures Le(y.dateRecorded, s[0].dateRecorded) {
        if y != x {
          var k :| 0 <= k < |tail| && tail[k] == y;
          assert s[k + 1] == y;
        }
      }
      ConsKeepsOrder(s[0], rest);
    } else if |s| > 0 {
      forall y | y in s ensures Le(y.dateRecorded, x.dateRecorded) {
        var k :| 0 <= k < |s| && s[k] == y;
        if k > 0 {
          LeTransitive(s[k].dateRecorded, s[0].dateRecorded, x.dateRecorded);
        }
      }
      ConsKeepsOrder(x, s);
    }
  }

  /** A row no older than every row of a newest-first list may go in front. */
  lemma ConsKeepsOrder(h: VideoRecord, rest: seq<VideoRecord>)
    requires SortedNewestFirst(rest)
    requires forall y :: y in rest ==> Le(y.dateRecorded, h.dateRecorded)
    ensures SortedNewestFirst([h] + rest)
  {
    var r := [h] + rest;
    forall i, j | 0 <= i < j < |r| ensures Le(r[j].dateRecorded, r[i].dateRecorded) {
      assert r[j] == rest[j - 1];
      if i == 0 {
        assert r[j] in rest;
      } else {
        assert r[i] == rest[i - 1];
      }
    }
  }

  lemma LeTransitive(a: DateTime, b: DateTime, c: DateTime)
    requires Le(a, b) && Le(b, c)
    ensures Le(a, c)
  {
    if Lt(a, b) && Lt(b, c) {
      LtTransitive(a, b, c);
    }
  }

  /** `ORDER BY date_recorded DESC`. */
  function SortNewestFirst(s: seq<VideoRecord>): (r: seq<VideoRecord>)
    ensures multiset(r) == multiset(s)
    ensures forall y :: y in r <==> y in s
    ensures SortedNewestFirst(r)
  {
    if |s| == 0 then []
    else
      var init := s[..|s| - 1];
      assert s == init + [s[|s| - 1]];
      var sorted := SortNewestFirst(init);
      InsertKeepsOrder(sorted, s[|s| - 1]);
      InsertNewestFirst(sorted, s[|s| - 1])
  }

  /** `get_all_videos(cutoff)`: the rows recorded on or after the cutoff, newest first. */
  function AllVideos(rows: seq<VideoRecord>, cutoff: Option<DateTime>): (r: seq<VideoRecord>)
    ensures SortedNewestFirst(r)
    ensures multiset(r) == multiset(Select(rows, x => OnOrAfter(x, cutoff)))
    ensures forall x :: x in r <==> x in rows && OnOrAfter(x, cutoff)
  {
    SortNewestFirst(Select(rows, x => OnOrAfter(x, cutoff)))
  }

  /** The filter of `get_unprocessed_videos`. */
  predicate Unprocessed(rec: VideoRecord, cutoff: Option<DateTime>, status: string, source: Option<string>) {
    rec.downloadStatus == status && OnOrAfter(rec, cutoff)
    && (Truthy(source) ==> rec.source == Lower(source.value))
  }

  /** `get_unprocessed_videos`: rows with the requested download status, on or
      after the cutoff, and from the lower-cased source when one is given,
      in table order. */
  function UnprocessedVideos(rows: seq<VideoRecord>, cutoff: Option<DateTime>, status: string,
                             source: Option<string>): (r: seq<VideoRecord>)
    ensures forall x :: x in r <==> x in rows && Unprocessed(x, cutoff, status, source)
    ensures forall x :: x in r ==> x.downloadStatus == status && OnOrAfter(x, cutoff)
    ensures Truthy(source) ==> forall x :: x in r ==> x.source == Lower(source.value)
  {
    Select(rows, x => Unprocessed(x, cutoff, status, source))
  }

  /** One result of `search_transcripts`. */
  datatype SearchHit = SearchHit(videoId: string, title: Option<string>, source: string, date: DateTime,
                                 content: string, provider: string)

  /** SQL `LIKE` of a text against a pattern with no escape character: `%`
      matches any run of characters, `_` any one character, and every other
      character itself. */
  predicate Like(s: string, p: string)
    decreases |s| + |p|
  {
    if |p| == 0 then |s| == 0
    else if p[0] == '%' then Like(s, p[1..]) || (|s| > 0 && Like(s[1..], p))
    else |s| > 0 && (p[0] == '_' || p[0] == s[0]) && Like(s[1..], p[1..])
  }

  /** `content ILIKE '%query%'` as the default SQLite store evaluates it:
      both sides lower-cased, and `%` and `_` in the query are wildcards. */
  predicate MatchesQuery(content: string, query: string) {
    Like(Lower(content), "%" + Lower(query) + "%")
  }

  /** A pattern without wildcards. */
  predicate Literal(q: string) {
    '%' !in q && '_' !in q
  }

  /** A lone `%` matches every text. */
  lemma {:induction false} LikeAll(s: string)
    ensures Like(s, "%")
    decreases |s|
  {
    if |s| > 0 {
      LikeAll(s[1..]);
    }
  }

  /** A literal followed by `%` matches exactly the texts it starts. */
  lemma {:induction false} LikeLiteralPrefix(s: string, q: string)
    requires Literal(q)
    ensures Like(s, q + "%") <==> StartsWith(s, q)
    decreases |q|
  {
    if |q| == 0 {
      assert q + "%" == "%";
      LikeAll(s);
    } else {
      assert (q + "%")[0] == q[0] && (q + "%")[1..] == q[1..] + "%";
      assert q[0] != '%' && q[0] != '_';
      if |s| > 0 {
        LikeLiteralPrefix(s[1..], q[1..]);
        assert StartsWith(s, q) <==> s[0] == q[0] && StartsWith(s[1..], q[1..]) by {
          if |q| <= |s| {
            assert s[..|q|] == [s[0]] + s[1..][..|q| - 1];
            assert q == [q[0]] + q[1..];
          }
        }
      }
    }
  }

  /** A leading `%` matches when the rest matches some suffix of the text. */
  lemma {:induction false} LikeLeadingPercent(s: string, r: string)
    ensures Like(s, "%" + r) <==> exists i :: 0 <= i <= |s| && Like(s[i..], r)
    decreases |s|
  {
    assert ("%" + r)[0] == '%' && ("%" + r)[1..] == r;
    assert s[0..] == s;
    if |s| > 0 {
      LikeLeadingPercent(s[1..], r);
      forall i | 1 <= i <= |s| ensures s[1..][i - 1..] == s[i..] {
      }
      if exists i :: 0 <= i <= |s| && Like(s[i..], r) {
        var i :| 0 <= i <= |s| && Like(s[i..], r);
        if i > 0 {
          assert Like(s[1..][i - 1..], r);
        }
      }
    }
  }

  /** A query without wildcards matches exactly the texts that contain it,
      ignoring case. */
  lemma LiteralQueryMeansContains(content: string, query: string)
    requires Literal(query)
    ensures MatchesQuery(content, query) <==> Contains(Lower(content), Lower(query))
  {
    var s, q := Lower(content), Lower(query);
    assert Literal(q) by {
      forall k | 0 <= k < |q| ensures q[k] != '%' && q[k] != '_' {
        assert q[k] == LowerChar(query[k]);
        assert query[k] in query;
      }
    }
    assert "%" + q + "%" == "%" + (q + "%");
    LikeLeadingPercent(s, q + "%");
    forall i | 0 <= i <= |s| ensures Like(s[i..], q + "%") <==> OccursAt(s, q, i) {
      LikeLiteralPrefix(s[i..], q);
      if i + |q| <= |s| {
        assert s[i..][..|q|] == s[i..i + |q|];
      }
    }
  }

  /** `_` stands for any one character: "a_b" finds "AXB". */
  lemma UnderscoreIsWildcard()
    ensures MatchesQuery("AXB", "a_b")
  {
    assert Lower("AXB") == "axb";
    assert Lower("a_b") == "a_b";
    assert "%" + "a_b" + "%" == "%a_b%";
    assert Like("", "%");
    assert Like("axb", "a_b%");
  }

  /** The hit a transcript gives: its video must exist and its text must
      contain the query. */
  function HitOf(rows: seq<VideoRecord>, t: TranscriptRecord, query: string): (r: Option<SearchHit>)
    ensures r.Some? <==> IndexOfId(rows, t.videoId).Some? && MatchesQuery(t.content, query)
    ensures r.Some? ==> r.value.content == t.content && r.value.provider == t.provider && r.value.videoId == t.videoId
  {
    match IndexOfId(rows, t.videoId)
    case None => None
    case Some(i) =>
      if MatchesQuery(t.content, query) then
        var v := rows[i];
        Some(SearchHit(v.id, v.title, v.source, v.dateRecorded, t.content, t.provider))
      else None
  }

  /** The joined search results, one per matching transcript, in transcript order. */
  function Hits(rows: seq<VideoRecord>, ts: seq<TranscriptRecord>, query: string): (r: seq<SearchHit>)
    ensures |r| <= |ts|
  {
    if |ts| == 0 then []
    else
      var prev := Hits(rows, ts[..|ts| - 1], query);
      match HitOf(rows, ts[|ts| - 1], query)
      case None => prev
      case Some(h) => prev + [h]
  }

  /** Every hit comes from a transcript that contains the query and whose
      video is in the table, and every such transcript gives a hit. */
  lemma {:induction false} HitsExact(rows: seq<VideoRecord>, ts: seq<TranscriptRecord>, query: string)
    ensures forall h :: h in Hits(rows, ts, query) ==>
              exists t :: t in ts && MatchesQuery(t.content, query) && t.content == h.content && t.videoId == h.videoId
    ensures forall t :: t in ts && IndexOfId(rows, t.videoId).Some? && MatchesQuery(t.content, query) ==>
              HitOf(rows, t, query).value in Hits(rows, ts, query)
  {
    if |ts| > 0 {
      var init := ts[..|ts| - 1];
      HitsExact(rows, init, query);
      assert ts == init + [ts[|ts| - 1]];
      forall t | t in ts && IndexOfId(rows, t.videoId).Some? && MatchesQuery(t.content, query)
        ensures HitOf(rows, t, query).value in Hits(rows, ts, query)
      {
        if t != ts[|ts| - 1] {
          assert t in init;
        }
      }
    }
  }

  /** The counters of `get_stats`. */
  datatype Stats = Stats(total: nat, downloaded: nat, transcribed: nat, failed: nat)

  function Count(rows: seq<VideoRecord>, p: VideoRecord -> bool): (n: nat)
    ensures n <= |rows|
  {
    if |rows| == 0 then 0
    else Count(rows[..|rows| - 1], p) + (if p(rows[|rows| - 1]) then 1 else 0)
  }

  predicate IsDownloaded(r: VideoRecord) { r.downloadStatus == "downloaded" }
  predicate IsTranscribed(r: VideoRecord) { r.transcriptionStatus == "completed" }
  predicate DownloadFailed(r: VideoRecord) { r.downloadStatus == "failed" }
  predicate TranscriptionFailed(r: VideoRecord) { r.transcriptionStatus == "failed" }

  function GetStats(rows: seq<VideoRecord>): (s: Stats)
    ensures s.total == |rows|
    ensures s.downloaded <= s.total && s.transcribed <= s.total && s.failed <= s.total
  {
    Stats(|rows|,
          Count(rows, IsDownloaded),
          Count(rows, IsTranscribed),
          Count(rows, x => DownloadFailed(x) || TranscriptionFailed(x)))
  }

  /** "failed" counts a row once even when both its download and its
      transcription failed: it is the two failure counts minus their overlap. */
  lemma {:induction false} FailedCountedOnce(rows: seq<VideoRecord>)
    ensures GetStats(rows).failed + Count(rows, x => DownloadFailed(x) && TranscriptionFailed(x))
            == Count(rows, DownloadFailed) + Count(rows, TranscriptionFailed)
  {
    if |rows| > 0 {
      FailedCountedOnce(rows[..|rows| - 1]);
    }
  }

  predicate IsLastDownloadCandidate(r: VideoRecord, source: string) {
    r.source == Lower(source) && r.downloadStatus == "downloaded"
  }

  /** `get_last_downloaded_date(source)`: the latest recording date among the
      downloaded rows of the lower-cased source. */
  function LastDownloadedDate(rows: seq<VideoRecord>, source: string): (r: Option<DateTime>)
    ensures r.None? <==> forall k :: 0 <= k < |rows| ==> !IsLastDownloadCandidate(rows[k], source)
    ensures r.Some? ==> exists k :: 0 <= k < |rows| && IsLastDownloadCandidate(rows[k], source)
                                    && rows[k].dateRecorded == r.value
    ensures r.Some? ==> forall k :: 0 <= k < |rows| && IsLastDownloadCandidate(rows[k], source) ==>
                          Le(rows[k].dateRecorded, r.value)
  {
    if |rows| == 0 then None
    else
      var last := rows[|rows| - 1];
      var prev := LastDownloadedDate(rows[..|rows| - 1], source);
      if !IsLastDownloadCandidate(last, source) then prev
      else if prev.None? || Lt(prev.value, last.dateRecorded) then Some(last.dateRecorded)
      else prev
  }

  class DatabaseManager {
    var rows: seq<VideoRecord>
    var transcripts: seq<TranscriptRecord>

    /** Primary keys hold: video ids and transcript ids are unique. */
    predicate Valid()
      reads this
    {
      UniqueIds(rows)
      && forall i, j :: 0 <= i < j < |transcripts| ==> transcripts[i].id != transcripts[j].id
    }

    /** Empty tables. */
    constructor ()
      ensures Valid() && rows == [] && transcripts == []
    {
      rows := [];
      transcripts := [];
    }

    /** `create_video_record`: appends a pending row, or fails and leaves the
        tables as they were when the id is taken, whatever its source. */
    method CreateVideoRecord(id: string, source: string, filename: string, url: string, dateRecorded: DateTime,
                             now: DateTime, committee: Option<string> := None, title: Option<string> := None,
                             streamUrl: Option<string> := None) returns (r: Result<VideoRecord, DbError>)
      requires Valid()
      modifies this
      ensures Valid() && transcripts == old(transcripts)
      ensures IndexOfId(old(rows), id).Some? ==> r == Failure(DuplicateKey(id)) && rows == old(rows)
      ensures IndexOfId(old(rows), id).None? ==>
                r == Success(NewRecord(id, source, filename, url, dateRecorded, committee, title, streamUrl, now))
                && rows == old(rows) + [r.value]
    {
      if IndexOfId(rows, id).Some? {
        return Failure(DuplicateKey(id));
      }
      var rec := NewRecord(id, source, filename, url, dateRecorded, committee, title, streamUrl, now);
      rows := rows + [rec];
      return Success(rec);
    }

    /** `update_video_status`: patches the row matching (id, source), if any. */
    method UpdateVideoStatus(id: string, source: string, p: StatusPatch)
      requires Valid()
      modifies this
      ensures Valid() && transcripts == old(transcripts)
      ensures rows == PatchRows(old(rows), id, source, p)
    {
      PatchKeepsKeys(rows, id, source, p, id, source);
      rows := PatchRows(rows, id, source, p);
    }

    /** `update_stream_url`: sets only the stream URL of the matching row. */
    method UpdateStreamUrl(id: string, source: string, streamUrl: string)
      requires Valid()
      modifies this
      ensures Valid() && transcripts == old(transcripts) && |rows| == |old(rows)|
      ensures rows == SetStreamUrl(old(rows), id, source, streamUrl)
    {
      UpdateVideoStatus(id, source, StatusPatch(transcriptionStatus := None));
      EmptyPatchChangesNothing(old(rows), id, source);
      match Find(rows, id, source)
      case None =>
      case Some(i) =>
        rows := rows[i := rows[i].(streamUrl := Some(streamUrl))];
    }

    /** `add_transcript`: appends a transcript with the fresh identifier `uuid`.
        Existing transcripts are never replaced. */
    method AddTranscript(videoId: string, provider: string, content: string, vttPath: Option<string>,
                         uuid: string, now: DateTime) returns (r: Result<TranscriptRecord, DbError>)
      requires Valid()
      modifies this
      ensures Valid() && rows == old(rows)
      ensures (exists k :: 0 <= k < |old(transcripts)| && old(transcripts)[k].id == uuid) ==>
                r == Failure(DuplicateKey(uuid)) && transcripts == old(transcripts)
      ensures r.Success? ==> transcripts == old(transcripts) + [r.value]
                             && r.value == TranscriptRecord(uuid, videoId, provider, content, vttPath, now)
      ensures r.Success? <==> forall k :: 0 <= k < |old(transcripts)| ==> old(transcripts)[k].id != uuid
    {
      var i := 0;
      while i < |transcripts|
        invariant 0 <= i <= |transcripts|
        invariant forall k :: 0 <= k < i ==> transcripts[k].id != uuid
      {
        if transcripts[i].id == uuid {
          return Failure(DuplicateKey(uuid));
        }
        i := i + 1;
      }
      var t := TranscriptRecord(uuid, videoId, provider, content, vttPath, now);
      transcripts := transcripts + [t];
      return Success(t);
    }

    /** `get_video_record`: the row matching (id, source). */
    function GetVideoRecord(id: string, source: string): (r: Option<VideoRecord>)
      requires Valid()
      reads this
      ensures r.Some? <==> exists k :: 0 <= k < |rows| && rows[k].id == id && rows[k].source == source
      ensures r.Some? ==> r.value in rows && r.value.id == id && r.value.source == source
    {
      match Find(rows, id, source)
      case None => None
      case Some(i) => Some(rows[i])
    }

    /** `video_exists`: some row matches (id, source). */
    function VideoExists(id: string, source: string): (b: bool)
      requires Valid()
      reads this
      ensures b <==> GetVideoRecord(id, source).Some?
    {
      Find(rows, id, source).Some?
    }

    /** `search_transcripts`: builds the result list one joined row at a time. */
    method SearchTranscripts(query: string) returns (output: seq<SearchHit>)
      ensures output == Hits(rows, transcripts, query)
    {
      output := [];
      var i := 0;
      while i < |transcripts|
        invariant 0 <= i <= |transcripts|
        invariant output == Hits(rows, transcripts[..i], query)
      {
        assert transcripts[..i + 1][..i] == transcripts[..i];
        var hit := HitOf(rows, transcripts[i], query);
        if hit.Some? {
          output := output + [hit.value];
        }
        i := i + 1;
      }
      assert transcripts[..i] == transcripts;
    }
  }
}
