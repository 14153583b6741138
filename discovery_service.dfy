/** The discovery service: picks the date window, asks the House and Senate
    scrapers selected by the source filter, optionally replaces each video's
    stream URL by the resolved one, and returns the House videos followed by
    the Senate videos. The network, the clock and the environment are
    parameters. */
module Discovery {
  import opened Wrappers
  import opened Text
  import opened Clock
  import opened Metadata
  import opened DateParser
  import House
  import Senate

  const DefaultHouseArchiveUrl: string := "https://house.mi.gov/VideoArchive"
  const DefaultSenateApiUrl: string :=
    "https://2kbyogxrg4.execute-api.us-west-2.amazonaws.com/61b3adc8124d7d000891ca5c/home/recent"

  /** Everything the scrapers ask of the outside world: the House year pages
      and HEAD requests, the Senate listing and Castus API, and the general
      date parser. */
  datatype Io = Io(houseFetch: House.ArchiveFetch, houseHead: string -> House.HeadReply,
                   senateApi: string -> Option<Senate.Json>, castus: Senate.CastusApi, parse: DateOracle)

  /** `argument or environment or default`. */
  function Pick(argument: Option<string>, environment: Option<string>, default: string): (r: string)
    ensures Truthy(argument) ==> r == argument.value
    ensures !Truthy(argument) && Truthy(environment) ==> r == environment.value
    ensures !Truthy(argument) && !Truthy(environment) ==> r == default
  {
    if Truthy(argument) then argument.value else if Truthy(environment) then environment.value else default
  }

  /** Range mode: both ends of the window are given. */
  predicate RangeMode(start: Option<DateTime>, end: Option<DateTime>) {
    start.Some? && end.Some?
  }

  /** The cutoff of cutoff mode: the given one, else `cutoffDays` days before now. */
  function Cutoff(cutoffDate: Option<DateTime>, cutoffDays: int, now: DateTime): (r: DateTime)
    requires Valid(now)
    ensures cutoffDate.Some? ==> r == cutoffDate.value
    ensures cutoffDate.None? && cutoffDays > 0 ==> Lt(r, now)
  {
    if cutoffDate.Some? then cutoffDate.value
    else if cutoffDays > 0 then
      ShiftBackEarlier(now, cutoffDays);
      ShiftDays(now, -cutoffDays)
    else ShiftDays(now, -cutoffDays)
  }

  /** The earliest date kept: the start of the range, else the cutoff. */
  function Lo(cutoffDate: Option<DateTime>, cutoffDays: int, start: Option<DateTime>, end: Option<DateTime>,
              now: DateTime): DateTime
    requires Valid(now)
  {
    if RangeMode(start, end) then start.value else Cutoff(cutoffDate, cutoffDays, now)
  }

  /** The latest date kept: the end of the range, else none. */
  function Hi(start: Option<DateTime>, end: Option<DateTime>): Option<DateTime> {
    if RangeMode(start, end) then end else None
  }

  /** Whether the archive `name` is consulted. */
  predicate Wants(source: Option<string>, name: string) {
    source.None? || Lower(source.value) == name
  }

  /** A video with its stream URL replaced by `u` when `u` is non-empty. */
  function WithStream(v: VideoMetadata, u: Option<string>): (r: VideoMetadata)
    ensures r == v || (Truthy(u) && r == v.(streamUrl := u))
  {
    if Truthy(u) then v.(streamUrl := u) else v
  }

  /** Every video, resolved in turn. */
  function ResolveAll(vs: seq<VideoMetadata>, resolve: VideoMetadata -> Option<string>): (r: seq<VideoMetadata>)
    ensures |r| == |vs|
    ensures forall k :: 0 <= k < |vs| ==> r[k] == WithStream(vs[k], resolve(vs[k]))
  {
    if |vs| == 0 then [] else [WithStream(vs[0], resolve(vs[0]))] + ResolveAll(vs[1..], resolve)
  }

  /** Resolution changes no field but the stream URL. */
  lemma ResolveKeepsIdentity(vs: seq<VideoMetadata>, resolve: VideoMetadata -> Option<string>, k: int)
    requires 0 <= k < |vs|
    ensures var r := ResolveAll(vs, resolve)[k];
            r.(streamUrl := vs[k].streamUrl) == vs[k]
            && (r.streamUrl == vs[k].streamUrl || (Truthy(resolve(vs[k])) && r.streamUrl == resolve(vs[k])))
  {
  }

  /** What the House scraper gives for the window. */
  function HouseFound(archiveUrl: string, f: House.Filter, now: DateTime, io: Io): seq<VideoMetadata> {
    House.Finish(House.FetchYears(House.YearsToFetch(f, now), archiveUrl, io.houseFetch, f, [], now, io.parse), f)
  }

  /** What the Senate scraper gives for the window. */
  function SenateFound(apiUrl: string, cutoff: DateTime, limit: Option<int>, start: Option<DateTime>,
                       end: Option<DateTime>, now: DateTime, io: Io): seq<VideoMetadata> {
    match io.senateApi(apiUrl)
    case None => []
    case Some(listing) =>
      Senate.Limited(Senate.Parsed(Senate.ExtractVideoList(listing), cutoff, start, end,
                                   Senate.Env(now, io.parse, io.castus)), limit)
  }

  /** The House filter of each mode. */
  function HouseWindow(cutoffDate: Option<DateTime>, cutoffDays: int, limit: Option<int>, start: Option<DateTime>,
                       end: Option<DateTime>, now: DateTime): House.Filter
    requires Valid(now)
  {
    if RangeMode(start, end) then House.HouseFilter(start.value, limit, start, end)
    else House.HouseFilter(Cutoff(cutoffDate, cutoffDays, now), limit, None, None)
  }

  /** The House part of the result. */
  function HousePart(houseUrl: string, cutoffDate: Option<DateTime>, cutoffDays: int, limit: Option<int>,
                     source: Option<string>, resolveStreams: bool, start: Option<DateTime>, end: Option<DateTime>,
                     now: DateTime, io: Io): seq<VideoMetadata>
    requires Valid(now)
  {
    if !Wants(source, "house") then []
    else
      var found := HouseFound(houseUrl, HouseWindow(cutoffDate, cutoffDays, limit, start, end, now), now, io);
      if resolveStreams then ResolveAll(found, v => House.ResolveStreamUrl(v, io.houseHead)) else found
  }

  /** The Senate part of the result. */
  function SenatePart(senateUrl: string, cutoffDate: Option<DateTime>, cutoffDays: int, limit: Option<int>,
                      source: Option<string>, resolveStreams: bool, start: Option<DateTime>, end: Option<DateTime>,
                      now: DateTime, io: Io): seq<VideoMetadata>
    requires Valid(now)
  {
    if !Wants(source, "senate") then []
    else
      var found := if RangeMode(start, end) then SenateFound(senateUrl, start.value, limit, start, end, now, io)
                   else SenateFound(senateUrl, Cutoff(cutoffDate, cutoffDays, now), limit, None, None, now, io);
      if resolveStreams then ResolveAll(found, v => Senate.ResolveStreamUrl(v, io.castus)) else found
  }

  /** How many videos of `vs` come from `name`. */
  function CountSource(vs: seq<VideoMetadata>, name: string): (n: nat)
    ensures n <= |vs|
  {
    if |vs| == 0 then 0 else (if vs[0].source == name then 1 else 0) + CountSource(vs[1..], name)
  }

  lemma {:induction false} CountAppend(a: seq<VideoMetadata>, b: seq<VideoMetadata>, name: string)
    ensures CountSource(a + b, name) == CountSource(a, name) + CountSource(b, name)
    decreases |a|
  {
    if |a| == 0 {
      assert a + b == b;
    } else {
      assert (a + b)[1..] == a[1..] + b;
      CountAppend(a[1..], b, name);
    }
  }

  lemma CountNone(vs: seq<VideoMetadata>, name: string)
    requires forall v :: v in vs ==> v.source != name
    ensures CountSource(vs, name) == 0
  {
    if |vs| > 0 {
      assert forall v :: v in vs[1..] ==> v in vs;
    }
  }

  /** Resolution moves no video out of an archive or out of a window. */
  lemma ResolvedStayInWindow(vs: seq<VideoMetadata>, resolve: VideoMetadata -> Option<string>, name: string,
                             lo: DateTime, hi: Option<DateTime>)
    requires forall v :: v in vs ==> v.source == name && InWindow(v, lo, hi)
    ensures forall v :: v in ResolveAll(vs, resolve) ==> v.source == name && InWindow(v, lo, hi)
  {
    var r := ResolveAll(vs, resolve);
    forall v | v in r ensures v.source == name && InWindow(v, lo, hi) {
      var k :| 0 <= k < |r| && r[k] == v;
      assert vs[k] in vs;
    }
  }

  /** Every House video lies in the window, and a positive limit bounds them. */
  lemma HousePartSound(houseUrl: string, cutoffDate: Option<DateTime>, cutoffDays: int, limit: Option<int>,
                       source: Option<string>, resolveStreams: bool, start: Option<DateTime>, end: Option<DateTime>,
                       now: DateTime, io: Io)
    requires Valid(now)
    ensures var h := HousePart(houseUrl, cutoffDate, cutoffDays, limit, source, resolveStreams, start, end, now, io);
            (forall v :: v in h ==> v.source == "house" && InWindow(v, Lo(cutoffDate, cutoffDays, start, end, now), Hi(start, end)))
            && (limit.Some? && limit.value > 0 ==> |h| <= limit.value)
  {
    if Wants(source, "house") {
      var f := HouseWindow(cutoffDate, cutoffDays, limit, start, end, now);
      assert f.start == Lo(cutoffDate, cutoffDays, start, end, now) && f.end == Hi(start, end) && f.limit == limit;
      House.DiscoverWithinWindow(houseUrl, io.houseFetch, f, now, io.parse);
      var found := HouseFound(houseUrl, f, now, io);
      if resolveStreams {
        ResolvedStayInWindow(found, v => House.ResolveStreamUrl(v, io.houseHead), "house", f.start, f.end);
      }
    }
  }

  /** The Senate scraper keeps only senate videos of the window. */
  lemma SenateFoundSound(senateUrl: string, cutoff: DateTime, limit: Option<int>, start: Option<DateTime>,
                         end: Option<DateTime>, now: DateTime, io: Io)
    ensures var found := SenateFound(senateUrl, cutoff, limit, start, end, now, io);
            (forall v :: v in found ==> v.source == "senate" && Senate.InSenateWindow(v, cutoff, start, end))
            && (limit.Some? && limit.value > 0 ==> |found| <= limit.value)
  {
    if io.senateApi(senateUrl).Some? {
      var list := Senate.ExtractVideoList(io.senateApi(senateUrl).value);
      Senate.DiscoverBounded(list, cutoff, limit, start, end, Senate.Env(now, io.parse, io.castus));
    }
  }

  /** Every Senate video lies in the window, and a positive limit bounds them. */
  lemma SenatePartSound(senateUrl: string, cutoffDate: Option<DateTime>, cutoffDays: int, limit: Option<int>,
                        source: Option<string>, resolveStreams: bool, start: Option<DateTime>, end: Option<DateTime>,
                        now: DateTime, io: Io)
    requires Valid(now)
    ensures var s := SenatePart(senateUrl, cutoffDate, cutoffDays, limit, source, resolveStreams, start, end, now, io);
            (forall v :: v in s ==> v.source == "senate" && InWindow(v, Lo(cutoffDate, cutoffDays, start, end, now), Hi(start, end)))
            && (limit.Some? && limit.value > 0 ==> |s| <= limit.value)
  {
    if Wants(source, "senate") {
      var lo := Lo(cutoffDate, cutoffDays, start, end, now);
      var hi := Hi(start, end);
      var found;
      if RangeMode(start, end) {
        SenateFoundSound(senateUrl, start.value, limit, start, end, now, io);
        found := SenateFound(senateUrl, start.value, limit, start, end, now, io);
      } else {
        SenateFoundSound(senateUrl, lo, limit, None, None, now, io);
        found := SenateFound(senateUrl, lo, limit, None, None, now, io);
      }
      assert forall v :: v in found ==> v.source == "senate" && InWindow(v, lo, hi);
      if resolveStreams {
        ResolvedStayInWindow(found, v => Senate.ResolveStreamUrl(v, io.castus), "senate", lo, hi);
      }
    }
  }
  /** `discover_videos` as a whole: the House part followed by the Senate part. */
  function Discovered(houseUrl: string, senateUrl: string, cutoffDate: Option<DateTime>, cutoffDays: int,
                      limit: Option<int>, source: Option<string>, resolveStreams: bool, start: Option<DateTime>,
                      end: Option<DateTime>, now: DateTime, io: Io): seq<VideoMetadata>
    requires Valid(now)
  {
    HousePart(houseUrl, cutoffDate, cutoffDays, limit, source, resolveStreams, start, end, now, io)
    + SenatePart(senateUrl, cutoffDate, cutoffDays, limit, source, resolveStreams, start, end, now, io)
  }

  /** The discovered videos: each from the House or the Senate, each inside
      the window; every House video before every Senate video; no more than
      `limit` from each archive; nothing from an archive the source filter
      does not name. */
  lemma DiscoveredSound(houseUrl: string, senateUrl: string, cutoffDate: Option<DateTime>, cutoffDays: int,
                        limit: Option<int>, source: Option<string>, resolveStreams: bool, start: Option<DateTime>,
                        end: Option<DateTime>, now: DateTime, io: Io)
    requires Valid(now)
    ensures var r := Discovered(houseUrl, senateUrl, cutoffDate, cutoffDays, limit, source, resolveStreams, start, end, now, io);
            var lo := Lo(cutoffDate, cutoffDays, start, end, now);
            (forall v :: v in r ==> (v.source == "house" || v.source == "senate") && InWindow(v, lo, Hi(start, end)))
            && (forall i, j :: 0 <= i < j < |r| && r[i].source == "senate" ==> r[j].source == "senate")
            && (limit.Some? && limit.value > 0 ==>
                  CountSource(r, "house") <= limit.value && CountSource(r, "senate") <= limit.value)
            && (!Wants(source, "house") ==> CountSource(r, "house") == 0)
            && (!Wants(source, "senate") ==> CountSource(r, "senate") == 0)
  {
    var h := HousePart(houseUrl, cutoffDate, cutoffDays, limit, source, resolveStreams, start, end, now, io);
    var s := SenatePart(senateUrl, cutoffDate, cutoffDays, limit, source, resolveStreams, start, end, now, io);
    HousePartSound(houseUrl, cutoffDate, cutoffDays, limit, source, resolveStreams, start, end, now, io);
    SenatePartSound(senateUrl, cutoffDate, cutoffDays, limit, source, resolveStreams, start, end, now, io);
    assert !Wants(source, "house") ==> h == [];
    assert !Wants(source, "senate") ==> s == [];
    ConcatSound(h, s, Lo(cutoffDate, cutoffDays, start, end, now), Hi(start, end), limit, source);
  }

  /** The House videos followed by the Senate videos, each part sound on its
      own, are sound together. */
  lemma ConcatSound(h: seq<VideoMetadata>, s: seq<VideoMetadata>, lo: DateTime, hi: Option<DateTime>,
                    limit: Option<int>, source: Option<string>)
    requires forall v :: v in h ==> v.source == "house" && InWindow(v, lo, hi)
    requires forall v :: v in s ==> v.source == "senate" && InWindow(v, lo, hi)
    requires limit.Some? && limit.value > 0 ==> |h| <= limit.value && |s| <= limit.value
    requires !Wants(source, "house") ==> h == []
    requires !Wants(source, "senate") ==> s == []
    ensures var r := h + s;
            (forall v :: v in r ==> (v.source == "house" || v.source == "senate") && InWindow(v, lo, hi))
            && (forall i, j :: 0 <= i < j < |r| && r[i].source == "senate" ==> r[j].source == "senate")
            && (limit.Some? && limit.value > 0 ==>
                  CountSource(r, "house") <= limit.value && CountSource(r, "senate") <= limit.value)
            && (!Wants(source, "house") ==> CountSource(r, "house") == 0)
            && (!Wants(source, "senate") ==> CountSource(r, "senate") == 0)
  {
    var r := h + s;
    assert forall k :: 0 <= k < |h| ==> r[k] == h[k] && h[k] in h;
    forall i, j | 0 <= i < j < |r| && r[i].source == "senate" ensures r[j].source == "senate" {
      assert r[j] == s[j - |h|] && s[j - |h|] in s;
    }
    CountAppend(h, s, "house");
    CountAppend(h, s, "senate");
    CountNone(h, "senate");
    CountNone(s, "house");
  }

  /** A source filter naming neither archive finds nothing. */
  lemma UnknownSourceFindsNothing(houseUrl: string, senateUrl: string, cutoffDate: Option<DateTime>,
                                  cutoffDays: int, limit: Option<int>, source: Option<string>,
                                  resolveStreams: bool, start: Option<DateTime>, end: Option<DateTime>,
                                  now: DateTime, io: Io)
    requires Valid(now) && source.Some? && Lower(source.value) != "house" && Lower(source.value) != "senate"
    ensures Discovered(houseUrl, senateUrl, cutoffDate, cutoffDays, limit, source, resolveStreams, start, end, now, io) == []
  {
  }

  class DiscoveryService {
    const houseArchiveUrl: string
    const senateApiUrl: string

    /** Each URL is the argument, else the environment variable, else the
        fixed default. */
    constructor (houseArchiveUrl: Option<string>, senateApiUrl: Option<string>, getenv: string -> Option<string>)
      ensures this.houseArchiveUrl == Pick(houseArchiveUrl, getenv("HOUSE_ARCHIVE_URL"), DefaultHouseArchiveUrl)
      ensures this.senateApiUrl == Pick(senateApiUrl, getenv("SENATE_API_URL"), DefaultSenateApiUrl)
    {
      this.houseArchiveUrl := Pick(houseArchiveUrl, getenv("HOUSE_ARCHIVE_URL"), DefaultHouseArchiveUrl);
      this.senateApiUrl := Pick(senateApiUrl, getenv("SENATE_API_URL"), DefaultSenateApiUrl);
    }

    /** The stream-resolution loop: each video's URL replaced in place when
        the resolver gives a non-empty one. */
    static method ResolveStreams(vs: seq<VideoMetadata>, resolve: VideoMetadata -> Option<string>)
      returns (r: seq<VideoMetadata>)
      ensures r == ResolveAll(vs, resolve)
    {
      r := vs;
      var i := 0;
      while i < |r|
        invariant 0 <= i <= |r| == |vs|
        invariant forall k :: 0 <= k < i ==> r[k] == WithStream(vs[k], resolve(vs[k]))
        invariant forall k :: i <= k < |r| ==> r[k] == vs[k]
      {
        var streamUrl := resolve(r[i]);
        if Truthy(streamUrl) {
          r := r[i := r[i].(streamUrl := streamUrl)];
        }
        i := i + 1;
      }
    }

    /** The House half of `discover_videos`. */
    method DiscoverHouse(cutoffDate: Option<DateTime>, cutoffDays: int, limit: Option<int>, source: Option<string>,
                         resolveStreams: bool, start: Option<DateTime>, end: Option<DateTime>, now: DateTime, io: Io)
      returns (videos: seq<VideoMetadata>)
      requires Valid(now)
      ensures videos == HousePart(houseArchiveUrl, cutoffDate, cutoffDays, limit, source, resolveStreams, start,
                                  end, now, io)
    {
      if !(source.None? || Lower(source.value) == "house") {
        return [];
      }
      if start.Some? && end.Some? {
        videos := House.DiscoverVideos(houseArchiveUrl, io.houseFetch, start.value, limit, start, end, now, io.parse);
      } else {
        var cutoff := Cutoff(cutoffDate, cutoffDays, now);
        videos := House.DiscoverVideos(houseArchiveUrl, io.houseFetch, cutoff, limit, None, None, now, io.parse);
      }
      if resolveStreams {
        videos := ResolveStreams(videos, v => House.ResolveStreamUrl(v, io.houseHead));
      }
    }

    /** The Senate half of `discover_videos`. */
    method DiscoverSenate(cutoffDate: Option<DateTime>, cutoffDays: int, limit: Option<int>, source: Option<string>,
                          resolveStreams: bool, start: Option<DateTime>, end: Option<DateTime>, now: DateTime, io: Io)
      returns (videos: seq<VideoMetadata>)
      requires Valid(now)
      ensures videos == SenatePart(senateApiUrl, cutoffDate, cutoffDays, limit, source, resolveStreams, start,
                                   end, now, io)
    {
      if !(source.None? || Lower(source.value) == "senate") {
        return [];
      }
      var listing := io.senateApi(senateApiUrl);
      var env := Senate.Env(now, io.parse, io.castus);
      if start.Some? && end.Some? {
        videos := Senate.DiscoverVideos(listing, start.value, limit, start, end, env);
      } else {
        var cutoff := Cutoff(cutoffDate, cutoffDays, now);
        videos := Senate.DiscoverVideos(listing, cutoff, limit, None, None, env);
      }
      if resolveStreams {
        videos := ResolveStreams(videos, v => Senate.ResolveStreamUrl(v, io.castus));
      }
    }

    /** `discover_videos`: the House videos, then the Senate videos. */
    method DiscoverVideos(cutoffDate: Option<DateTime>, cutoffDays: int, limit: Option<int>, source: Option<string>,
                          resolveStreams: bool, start: Option<DateTime>, end: Option<DateTime>, now: DateTime, io: Io)
      returns (videos: seq<VideoMetadata>)
      requires Valid(now)
      ensures videos == Discovered(houseArchiveUrl, senateApiUrl, cutoffDate, cutoffDays, limit, source,
                                   resolveStreams, start, end, now, io)
    {
      var houseVideos := DiscoverHouse(cutoffDate, cutoffDays, limit, source, resolveStreams, start, end, now, io);
      var senateVideos := DiscoverSenate(cutoffDate, cutoffDays, limit, source, resolveStreams, start, end, now, io);
      videos := houseVideos + senateVideos;
    }
  }
}
