/** The House archive scraper: one archive page per year, parsed into
    committee sections of player links, filtered by date window and limit,
    and the player URL turned into the direct MP4 URL. The archive HTML
    arrives already split into its `<li>` sections; the date parser and the
    HTTP requests are parameters. */
module House {
  import opened Wrappers
  import opened Text
  import opened Clock
  import opened Metadata
  import opened DateParser
  import Downloader

  const BaseUrl: string := "https://house.mi.gov"
  const ArchiveFilesUrl: string := "https://www.house.mi.gov/ArchiveVideoFiles/"
  const PlayerMarker: string := "/VideoArchivePlayer?video="

  /** An `<a href>` of a section, with its stripped text. */
  datatype Link = Link(href: string, text: string)

  /** An `<li>` section: the stripped text of its `<strong>` tag, if it has
      one, and its links in document order. */
  datatype Item = Item(strong: Option<string>, links: seq<Link>)

  /** The date window and the limit a discovery applies. */
  datatype Filter = Filter(start: DateTime, end: Option<DateTime>, limit: Option<int>)

  /** The archive fetch per (archive URL, year): the parsed page, or nothing
      when the request fails or the page is empty. */
  type ArchiveFetch = (string, int) -> Option<seq<Item>>

  /** The committee name: the section title before its first "|", trimmed. */
  function CommitteeName(strongText: string): (r: string)
    ensures '|' !in r
    ensures r == [] || (!IsSpace(r[0]) && !IsSpace(r[|r| - 1]))
    ensures exists i :: OccursAt(BeforeFirst(strongText, '|'), r, i)
  {
    var r := Strip(BeforeFirst(strongText, '|'));
    assert '|' !in r by {
      var i :| OccursAt(BeforeFirst(strongText, '|'), r, i);
      forall k | 0 <= k < |r| ensures r[k] != '|' {
        assert r[k] == BeforeFirst(strongText, '|')[i + k];
      }
    }
    r
  }

  /** Where `video=([^&]+)` can match: "video=" followed by a character other
      than '&'. */
  predicate ParamAt(s: string, i: int) {
    OccursAt(s, "video=", i) && i + 6 < |s| && s[i + 6] != '&'
  }

  /** The leftmost match position at or after `from`. */
  function FirstParam(s: string, from: nat): (r: Option<nat>)
    ensures r.Some? ==> from <= r.value && ParamAt(s, r.value)
    ensures r.Some? ==> forall j :: from <= j < r.value ==> !ParamAt(s, j)
    ensures r.None? ==> forall j :: from <= j ==> !ParamAt(s, j)
    decreases |s| - from
  {
    if from + 6 >= |s| then None
    else if ParamAt(s, from) then Some(from)
    else FirstParam(s, from + 1)
  }

  /** The file name the pattern captures: the text after "video=" up to the
      next '&'. */
  function VideoParam(href: string): (r: Option<string>)
    ensures r.Some? ==> |r.value| > 0 && '&' !in r.value
    ensures r.None? <==> forall j :: 0 <= j ==> !ParamAt(href, j)
  {
    match FirstParam(href, 0)
    case None => None
    case Some(i) => Some(BeforeFirst(href[i + 6..], '&'))
  }

  /** A character that may appear in a URL scheme. */
  predicate SchemeChar(c: char) {
    'a' <= c <= 'z' || 'A' <= c <= 'Z' || '0' <= c <= '9' || c == '+' || c == '-' || c == '.'
  }

  /** How `urlsplit` finds a scheme: the text before the first ':' when it
      starts with an ASCII letter and holds only scheme characters. */
  function Scheme(href: string): (r: Option<string>)
    ensures r.Some? ==> ':' in href && r.value == BeforeFirst(href, ':') && r.value != ""
  {
    var name := BeforeFirst(href, ':');
    if ':' in href && name != "" && ('a' <= name[0] <= 'z' || 'A' <= name[0] <= 'Z')
       && forall k :: 0 <= k < |name| ==> SchemeChar(name[k])
    then Some(name)
    else None
  }

  /** `path.split('/')` of a relative path put after the base path's empty
      directory, the empty segments between the first and the last dropped. */
  function DropEmpty(segs: seq<string>): (r: seq<string>)
    ensures forall k :: 0 <= k < |r| ==> r[k] != "" && r[k] in segs
  {
    if |segs| == 0 then []
    else if segs[0] == "" then DropEmpty(segs[1..])
    else [segs[0]] + DropEmpty(segs[1..])
  }

  predicate DotSegment(seg: string) {
    seg == "." || seg == ".."
  }

  /** The segment loop of `urljoin`: ".." removes the last segment kept
      (nothing above the root), "." is skipped, anything else is kept. */
  function RemoveDots(kept: seq<string>, segs: seq<string>): (r: seq<string>)
    requires forall k :: 0 <= k < |kept| ==> !DotSegment(kept[k])
    ensures forall k :: 0 <= k < |r| ==> !DotSegment(r[k])
    ensures |r| <= |kept| + |segs|
    ensures (forall k :: 0 <= k < |segs| ==> !DotSegment(segs[k])) ==> r == kept + segs
    decreases |segs|
  {
    if |segs| == 0 then kept
    else if segs[0] == ".." then RemoveDots(if |kept| > 0 then kept[..|kept| - 1] else kept, segs[1..])
    else if segs[0] == "." then RemoveDots(kept, segs[1..])
    else
      assert kept + segs == (kept + [segs[0]]) + segs[1..];
      RemoveDots(kept + [segs[0]], segs[1..])
  }

  /** The path `urljoin` gives for a non-empty `path` against the empty base
      path of `BaseUrl`; it always starts with '/'. */
  function ResolvePath(path: string): (r: string)
    requires path != ""
    ensures StartsWith(r, "/")
  {
    var segs := Segments(path);
    var resolved := RemoveDots([], segs);
    var joined := Join(if DotSegment(segs[|segs| - 1]) then resolved + [""] else resolved, '/');
    if joined == "" then "/"
    else if joined[0] == '/' then joined
    else "/" + joined
  }

  /** The segments `urljoin` walks: those of an absolute path as they are,
      those of a relative path after the base's empty directory. */
  function Segments(path: string): (r: seq<string>)
    requires path != ""
    ensures |r| >= 1
    ensures path[0] == '/' ==> r == Split(path, '/')
  {
    var parts := Split(path, '/');
    if path[0] == '/' then parts
    else [""] + DropEmpty(parts[..|parts| - 1]) + [parts[|parts| - 1]]
  }

  /** The text after the first '#', or nothing. */
  function Fragment(url: string): (r: string)
  {
    match IndexOf(url, '#')
    case None => ""
    case Some(i) => url[i + 1..]
  }

  /** What `urlunsplit` writes after the path: a non-empty query after '?'
      and a non-empty fragment after '#'. */
  function QueryAndFragment(url: string): (r: string)
    ensures r == "" <==> Query(url) == "" && Fragment(url) == ""
  {
    (if Query(url) == "" then "" else "?" + Query(url))
    + (if Fragment(url) == "" then "" else "#" + Fragment(url))
  }

  /** `urljoin(BaseUrl, href)` for a reference without a network location:
      an empty path keeps the base, any other path is resolved against it. */
  function JoinRelative(href: string): (r: string)
    ensures StartsWith(r, BaseUrl)
  {
    var path := BeforeFirst(BeforeFirst(href, '#'), '?');
    if path == "" then BaseUrl + QueryAndFragment(href)
    else
      assert StartsWith(BaseUrl + ResolvePath(path) + QueryAndFragment(href), BaseUrl);
      BaseUrl + ResolvePath(path) + QueryAndFragment(href)
  }

  /** `urljoin(BaseUrl, href)`: a reference with another scheme is kept as
      it is, one with a network location is made absolute with "https:",
      and the rest is resolved against https://house.mi.gov. */
  function UrlJoin(href: string): (r: string)
    ensures StartsWith(href, "https://") || StartsWith(href, "http://") ==> r == href
    ensures Scheme(href).None? && !StartsWith(href, "//") ==> StartsWith(r, BaseUrl)
  {
    WebSchemes(href);
    match Scheme(href)
    case Some(name) =>
      var rest := href[|name| + 1..];
      if Lower(name) != "https" then href
      else if StartsWith(rest, "//") then "https:" + rest
      else JoinRelative(rest)
    case None =>
      if StartsWith(href, "//") then "https:" + href
      else JoinRelative(href)
  }

  /** An absolute http or https link has the scheme "http" or "https". */
  lemma WebSchemes(href: string)
    ensures StartsWith(href, "https://") ==> Scheme(href) == Some("https") && href == "https:" + href[6..]
                                             && StartsWith(href[6..], "//")
    ensures StartsWith(href, "http://") ==> Scheme(href) == Some("http") && Lower("http") != "https"
    ensures Lower("https") == "https"
  {
    LowerWebSchemes();
    if StartsWith(href, "https://") {
      SchemeBeforeColon(href, 5);
      assert href[..5] == "https";
      assert href == "https:" + href[6..];
      assert href[6..][..2] == href[6..8];
    } else if StartsWith(href, "http://") {
      SchemeBeforeColon(href, 4);
      assert href[..4] == "http";
    }
  }

  lemma LowerWebSchemes()
    ensures Lower("https") == "https" && Lower("http") != "https"
  {
    assert forall i :: 0 <= i < 5 ==> Lower("https")[i] == "https"[i];
    assert |Lower("http")| == 4;
  }

  lemma SchemeBeforeColon(href: string, i: nat)
    requires i < |href| && href[i] == ':' && i > 0
    requires 'a' <= href[0] <= 'z' && forall k :: 0 <= k < i ==> 'a' <= href[k] <= 'z'
    ensures Scheme(href) == Some(href[..i])
  {
    assert IndexOf(href, ':') == Some(i);
  }

  /** A root-relative link without dot segments, query or fragment is
      appended to https://house.mi.gov unchanged. */
  lemma RootRelativeKept(href: string)
    requires StartsWith(href, "/") && !StartsWith(href, "//")
    requires '?' !in href && '#' !in href
    requires forall k :: 0 <= k < |Split(href, '/')| ==> !DotSegment(Split(href, '/')[k])
    ensures UrlJoin(href) == BaseUrl + href
  {
    assert href[0] == '/';
    NoScheme(href);
    assert BeforeFirst(BeforeFirst(href, '#'), '?') == href;
    assert QueryAndFragment(href) == "" by {
      assert IndexOf(href, '?').None? && IndexOf(href, '#').None?;
    }
    var parts := Split(href, '/');
    assert RemoveDots([], parts) == parts;
    SplitJoin(href, '/');
    assert ResolvePath(href) == href;
  }

  /** A reference that does not start with an ASCII letter has no scheme. */
  lemma NoScheme(href: string)
    requires href != "" && !('a' <= href[0] <= 'z' || 'A' <= href[0] <= 'Z')
    ensures Scheme(href).None?
  {
    if ':' in href && BeforeFirst(href, ':') != "" {
      assert BeforeFirst(href, ':')[0] == href[0];
    }
  }

  lemma SplitTwo(d: string, name: string)
    requires '/' !in d && '/' !in name
    ensures Split(d + "/" + name, '/') == [d, name]
  {
    var p := d + "/" + name;
    assert p[|d|] == '/' && p[..|d|] == d;
    assert IndexOf(p, '/') == Some(|d|);
    assert p[|d| + 1..] == name;
    SplitWithoutSeparator(name, '/');
  }

  /** A leading "./" or "../" before a page name resolves to the page at the
      root: "." is skipped and ".." has nothing above the root to remove. */
  lemma ResolveDotted(d: string, name: string)
    requires DotSegment(d)
    requires name != "" && !DotSegment(name) && '/' !in name
    ensures ResolvePath(d + "/" + name) == "/" + name
  {
    DottedSegments(d, name);
    if d == "." {
      assert RemoveDots([], ["", d, name]) == RemoveDots([""], [d, name]) == RemoveDots([""], [name]) == ["", name];
      assert Join(["", name], '/') == "/" + name;
    } else {
      assert RemoveDots([], ["", d, name]) == RemoveDots([""], [d, name]) == RemoveDots([], [name]) == [name];
      assert Join([name], '/') == name;
    }
  }

  lemma DottedSegments(d: string, name: string)
    requires DotSegment(d) && '/' !in name
    ensures Segments(d + "/" + name) == ["", d, name]
  {
    var path := d + "/" + name;
    SplitTwo(d, name);
    assert path[0] == '.';
    assert [d, name][..1] == [d] && DropEmpty([d]) == [d];
  }

  /** The path, query and fragment of "<path>?<q>" with a path free of '?'
      and '#' and a non-empty query free of '#'. */
  lemma PathAndQuery(path: string, q: string)
    requires '?' !in path && '#' !in path && '#' !in q && q != ""
    ensures BeforeFirst(BeforeFirst(path + "?" + q, '#'), '?') == path
    ensures QueryAndFragment(path + "?" + q) == "?" + q
  {
    var href := path + "?" + q;
    assert '#' !in href by {
      forall k | 0 <= k < |href| ensures href[k] != '#' {
        if k < |path| { assert href[k] == path[k]; }
        else if k > |path| { assert href[k] == q[k - |path| - 1]; }
      }
    }
    assert href[|path|] == '?' && href[..|path|] == path;
    assert IndexOf(href, '?') == Some(|path|);
    assert href[|path| + 1..] == q;
  }

  /** A "./" in front of a page name is dropped: "./Page?q" joins to
      https://house.mi.gov/Page?q. */
  lemma DotSlashDropped(name: string, q: string)
    requires name != "" && !DotSegment(name) && '/' !in name && '?' !in name && '#' !in name
    requires q != "" && '#' !in q
    ensures UrlJoin("./" + name + "?" + q) == BaseUrl + "/" + name + "?" + q
  {
    var path := "./" + name;
    DottedPathPlain(name);
    var href := path + "?" + q;
    assert href[0] == '.' && href[..2] != "//";
    NoScheme(href);
    PathAndQuery(path, q);
    ResolveDotted(".", name);
    RelativeJoined(href, path);
    Regroup(BaseUrl, "/", name);
    Regroup(BaseUrl + "/" + name, "?", q);
    Regroup(BaseUrl, "/" + name, "?" + q);
  }

  /** A reference without scheme or network location whose path is not
      empty: the base, the resolved path, then the query and fragment. */
  lemma RelativeJoined(href: string, path: string)
    requires Scheme(href).None? && !StartsWith(href, "//")
    requires BeforeFirst(BeforeFirst(href, '#'), '?') == path && path != ""
    ensures UrlJoin(href) == BaseUrl + ResolvePath(path) + QueryAndFragment(href)
  {
  }

  lemma DottedPathPlain(name: string)
    requires '?' !in name && '#' !in name
    ensures "./" + name == "." + "/" + name
    ensures '?' !in "./" + name && '#' !in "./" + name
  {
    var path := "./" + name;
    forall k | 0 <= k < |path| ensures path[k] != '?' && path[k] != '#' {
      if k >= 2 { assert path[k] == name[k - 2]; }
    }
  }

  /** A ".." above the root is dropped: "../Page" joins to
      https://house.mi.gov/Page. */
  lemma ParentAboveRootDropped(name: string)
    requires name != "" && !DotSegment(name) && '/' !in name && '?' !in name && '#' !in name
    ensures UrlJoin("../" + name) == BaseUrl + "/" + name
  {
    var href := "../" + name;
    assert href == ".." + "/" + name;
    assert href[0] == '.' && href[..2] != "//";
    NoScheme(href);
    assert '#' !in href && '?' !in href by {
      forall k | 0 <= k < |href| ensures href[k] != '#' && href[k] != '?' {
        if k >= 3 { assert href[k] == name[k - 3]; }
      }
    }
    assert BeforeFirst(BeforeFirst(href, '#'), '?') == href;
    assert QueryAndFragment(href) == "" by {
      assert IndexOf(href, '?').None? && IndexOf(href, '#').None?;
    }
    ResolveDotted("..", name);
    RelativeJoined(href, href);
    Regroup(BaseUrl, "/", name);
  }

  /** `_parse_video_link`: nothing without a captured file name, without a
      parseable date or for a date before the cutoff; otherwise a house video
      whose id is the file name without ".mp4" and whose title joins the
      committee and the link text. */
  function ParseVideoLink(href: string, text: string, committee: string, cutoff: DateTime, now: DateTime,
                          parse: DateOracle): (r: Option<VideoMetadata>)
    ensures r.None? <==> VideoParam(href).None? || ParseHouseDate(text, parse).None?
                         || Lt(ParseHouseDate(text, parse).value, cutoff)
    ensures r.Some? ==>
              var v := r.value;
              v.source == "house" && v.filename == VideoParam(href).value
              && v.videoId == RemoveAll(v.filename, ".mp4") && v.url == UrlJoin(href)
              && v.dateRecorded == ParseHouseDate(text, parse).value && !Lt(v.dateRecorded, cutoff)
              && v.committee == Some(committee) && v.title == Some(committee + " - " + text)
              && v.streamUrl.None? && v.dateDiscovered == now
  {
    match VideoParam(href)
    case None => None
    case Some(filename) =>
      match ParseHouseDate(text, parse)
      case None => None
      case Some(date) =>
        if Lt(date, cutoff) then None
        else Some(Make(RemoveAll(filename, ".mp4"), "house", filename, UrlJoin(href), date, now,
                       committee := Some(committee), title := Some(committee + " - " + text)))
  }

  /** A link to a file named "<stem>.mp4" gives the id "<stem>". */
  lemma VideoIdIsStem(href: string, text: string, committee: string, cutoff: DateTime, now: DateTime,
                      parse: DateOracle, stem: string)
    requires VideoParam(href) == Some(stem + ".mp4") && '.' !in stem
    requires ParseVideoLink(href, text, committee, cutoff, now, parse).Some?
    ensures ParseVideoLink(href, text, committee, cutoff, now, parse).value.videoId == stem
  {
    RemoveTrailingExtension(stem);
  }

  /** `limit and total >= limit` */
  predicate Reached(limit: Option<int>, total: int) {
    limit.Some? && limit.value != 0 && total >= limit.value
  }

  /** A video a discovery may keep: from the House and inside the window. */
  predicate Kept(v: VideoMetadata, f: Filter) {
    v.source == "house" && InWindow(v, f.start, f.end)
  }

  /** What one link contributes: a parsed player link that is not after the
      end of the window. */
  function NextVideo(link: Link, committee: string, f: Filter, now: DateTime, parse: DateOracle)
    : (r: Option<VideoMetadata>)
    ensures r.Some? ==> Kept(r.value, f)
  {
    if !Contains(link.href, PlayerMarker) then None
    else
      var v := ParseVideoLink(link.href, link.text, committee, f.start, now, parse);
      if v.None? || (f.end.Some? && Lt(f.end.value, v.value.dateRecorded)) then None else v
  }

  /** The inner loop of `_parse_archive_html` over one section's links, from
      the videos `acc` gathered so far: player links are parsed, videos after
      the end are skipped, and the loop stops once the limit is reached. */
  function ParseLinks(links: seq<Link>, committee: string, f: Filter, count: int, acc: seq<VideoMetadata>,
                      now: DateTime, parse: DateOracle): (r: seq<VideoMetadata>)
    ensures |r| >= |acc| && r[..|acc|] == acc
    ensures forall v :: v in r ==> v in acc || Kept(v, f)
    decreases |links|
  {
    if |links| == 0 then acc
    else
      var next := NextVideo(links[0], committee, f, now, parse);
      if next.None? then ParseLinks(links[1..], committee, f, count, acc, now, parse)
      else
        var acc' := acc + [next.value];
        assert Kept(next.value, f);
        assert forall v :: v in acc' ==> v in acc || v == next.value;
        if Reached(f.limit, count + |acc'|) then acc'
        else
          var r := ParseLinks(links[1..], committee, f, count, acc', now, parse);
          assert r[..|acc|] == r[..|acc'|][..|acc|];
          r
  }

  /** Below a positive limit, one section never takes the total past it. */
  lemma {:induction false} ParseLinksBounded(links: seq<Link>, committee: string, f: Filter, count: int,
                                             acc: seq<VideoMetadata>, now: DateTime, parse: DateOracle)
    requires f.limit.Some? && f.limit.value > 0 && count + |acc| < f.limit.value
    ensures count + |ParseLinks(links, committee, f, count, acc, now, parse)| <= f.limit.value
    decreases |links|
  {
    if |links| > 0 {
      var next := NextVideo(links[0], committee, f, now, parse);
      if next.None? {
        ParseLinksBounded(links[1..], committee, f, count, acc, now, parse);
      } else if !Reached(f.limit, count + |acc| + 1) {
        ParseLinksBounded(links[1..], committee, f, count, acc + [next.value], now, parse);
      }
    }
  }

  /** The outer loop of `_parse_archive_html` over the sections: sections
      without a `<strong>` title are skipped, and the loop stops once the
      limit is reached. */
  function ParseItems(items: seq<Item>, f: Filter, count: int, acc: seq<VideoMetadata>, now: DateTime,
                      parse: DateOracle): (r: seq<VideoMetadata>)
    ensures |r| >= |acc| && r[..|acc|] == acc
    ensures forall v :: v in r ==> v in acc || Kept(v, f)
    decreases |items|
  {
    if |items| == 0 then acc
    else if items[0].strong.None? then ParseItems(items[1..], f, count, acc, now, parse)
    else
      var acc' := ParseLinks(items[0].links, CommitteeName(items[0].strong.value), f, count, acc, now, parse);
      if Reached(f.limit, count + |acc'|) then acc'
      else
        var r := ParseItems(items[1..], f, count, acc', now, parse);
        assert r[..|acc|] == r[..|acc'|][..|acc|];
        r
  }

  /** The link loop of `_parse_archive_html` for one section, appending to
      the videos gathered so far from this page. */
  method ParseSection(links: seq<Link>, committee: string, f: Filter, count: int, acc: seq<VideoMetadata>,
                      now: DateTime, parse: DateOracle) returns (videos: seq<VideoMetadata>)
    ensures videos == ParseLinks(links, committee, f, count, acc, now, parse)
  {
    videos := acc;
    var j := 0;
    while j < |links|
      invariant 0 <= j <= |links|
      invariant ParseLinks(links, committee, f, count, acc, now, parse)
                == ParseLinks(links[j..], committee, f, count, videos, now, parse)
    {
      assert links[j..][1..] == links[j + 1..];
      var link := links[j];
      if Contains(link.href, PlayerMarker) {
        var video := ParseVideoLink(link.href, link.text, committee, f.start, now, parse);
        if video.Some? && !(f.end.Some? && Lt(f.end.value, video.value.dateRecorded)) {
          assert NextVideo(link, committee, f, now, parse) == video;
          videos := videos + [video.value];
          if Reached(f.limit, count + |videos|) {
            return;
          }
        }
      }
      j := j + 1;
    }
  }

  /** One step of the item loop: what `ParseItem` returns for the first
      item either ends the page or is where the rest of the page continues. */
  lemma ParseItemsHead(items: seq<Item>, f: Filter, count: int, acc: seq<VideoMetadata>, now: DateTime,
                       parse: DateOracle, videos: seq<VideoMetadata>, stop: bool)
    requires 0 < |items|
    requires items[0].strong.None? ==> videos == acc && !stop
    requires items[0].strong.Some? ==>
               videos == ParseLinks(items[0].links, CommitteeName(items[0].strong.value), f, count, acc, now, parse)
               && stop == Reached(f.limit, count + |videos|)
    ensures stop ==> ParseItems(items, f, count, acc, now, parse) == videos
    ensures !stop ==> ParseItems(items, f, count, acc, now, parse) == ParseItems(items[1..], f, count, videos, now, parse)
  {
  }

  lemma ParseItemsAt(items: seq<Item>, i: int, f: Filter, count: int, acc: seq<VideoMetadata>, now: DateTime,
                     parse: DateOracle, videos: seq<VideoMetadata>, stop: bool)
    requires 0 <= i < |items|
    requires items[i].strong.None? ==> videos == acc && !stop
    requires items[i].strong.Some? ==>
               videos == ParseLinks(items[i].links, CommitteeName(items[i].strong.value), f, count, acc, now, parse)
               && stop == Reached(f.limit, count + |videos|)
    ensures stop ==> ParseItems(items[i..], f, count, acc, now, parse) == videos
    ensures !stop ==> ParseItems(items[i..], f, count, acc, now, parse) == ParseItems(items[i + 1..], f, count, videos, now, parse)
  {
    var rest := items[i..];
    assert rest[0] == items[i] && rest[1..] == items[i + 1..];
    ParseItemsHead(rest, f, count, acc, now, parse, videos, stop);
  }

  /** One committee item of `_parse_archive_html`: a titled item's links are
      parsed, and the page stops once the limit is reached. */
  method ParseItem(item: Item, f: Filter, count: int, acc: seq<VideoMetadata>, now: DateTime, parse: DateOracle)
    returns (videos: seq<VideoMetadata>, stop: bool)
    ensures item.strong.None? ==> videos == acc && !stop
    ensures item.strong.Some? ==>
              videos == ParseLinks(item.links, CommitteeName(item.strong.value), f, count, acc, now, parse)
              && stop == Reached(f.limit, count + |videos|)
  {
    videos, stop := acc, false;
    if item.strong.Some? {
      videos := ParseSection(item.links, CommitteeName(item.strong.value), f, count, acc, now, parse);
      stop := Reached(f.limit, count + |videos|);
    }
  }

  /** `_parse_archive_html` for one year's page, `count` videos having been
      gathered from earlier years. */
  method ParseArchiveHtml(items: seq<Item>, f: Filter, count: int, now: DateTime, parse: DateOracle)
    returns (videos: seq<VideoMetadata>)
    ensures videos == ParseItems(items, f, count, [], now, parse)
  {
    videos := [];
    var i := 0;
    while i < |items|
      invariant 0 <= i <= |items|
      invariant ParseItems(items, f, count, [], now, parse) == ParseItems(items[i..], f, count, videos, now, parse)
    {
      ghost var acc := videos;
      var stop;
      videos, stop := ParseItem(items[i], f, count, videos, now, parse);
      ParseItemsAt(items, i, f, count, acc, now, parse, videos, stop);
      if stop {
        break;
      }
      i := i + 1;
    }
    if i == |items| {
      assert items[i..] == [];
    }
  }

  /** `range(filter_start.year, last + 1)` with `last` the end's year, or the
      current year without an end. */
  function YearsToFetch(f: Filter, now: DateTime): (r: seq<int>)
    ensures var last := if f.end.Some? then f.end.value.year else now.year;
            |r| == (if last >= f.start.year then last - f.start.year + 1 else 0)
            && forall k :: 0 <= k < |r| ==> r[k] == f.start.year + k
  {
    var last := if f.end.Some? then f.end.value.year else now.year;
    if last < f.start.year then [] else seq(last - f.start.year + 1, k => f.start.year + k)
  }

  /** The year loop of `discover_videos` from the videos `acc` gathered so
      far: each page fetched is parsed with the running count, and the loop
      stops once the limit is reached. */
  function FetchYears(years: seq<int>, archiveUrl: string, fetch: ArchiveFetch, f: Filter,
                      acc: seq<VideoMetadata>, now: DateTime, parse: DateOracle): (r: seq<VideoMetadata>)
    ensures |r| >= |acc| && r[..|acc|] == acc
    ensures forall v :: v in r ==> v in acc || Kept(v, f)
    decreases |years|
  {
    if |years| == 0 then acc
    else match fetch(archiveUrl, years[0])
      case None => FetchYears(years[1..], archiveUrl, fetch, f, acc, now, parse)
      case Some(items) =>
        var page := ParseItems(items, f, |acc|, [], now, parse);
        var acc' := acc + page;
        if Reached(f.limit, |acc'|) then acc'
        else
          var r := FetchYears(years[1..], archiveUrl, fetch, f, acc', now, parse);
          assert r[..|acc|] == r[..|acc'|][..|acc|];
          r
  }

  /** The videos of `vs` inside the window, in order. */
  function WithinWindow(vs: seq<VideoMetadata>, start: DateTime, end: Option<DateTime>): (r: seq<VideoMetadata>)
    ensures |r| <= |vs|
    ensures forall v :: v in r <==> v in vs && InWindow(v, start, end)
  {
    if |vs| == 0 then []
    else
      var prev := WithinWindow(vs[..|vs| - 1], start, end);
      assert vs == vs[..|vs| - 1] + [vs[|vs| - 1]];
      if InWindow(vs[|vs| - 1], start, end) then prev + [vs[|vs| - 1]] else prev
  }

  /** Python's `s[:n]`: the first `n` elements, or all but the last `-n`
      when `n` is negative. */
  function SliceTo<T>(s: seq<T>, n: int): (r: seq<T>)
    ensures n >= 0 ==> r == s[..if n < |s| then n else |s|]
    ensures n < 0 ==> r == s[..if |s| + n > 0 then |s| + n else 0]
  {
    if n >= 0 then s[..if n < |s| then n else |s|]
    else s[..if |s| + n > 0 then |s| + n else 0]
  }

  /** The final filter and truncation of `discover_videos`. */
  function Finish(gathered: seq<VideoMetadata>, f: Filter): (r: seq<VideoMetadata>)
  {
    var filtered := WithinWindow(gathered, f.start, f.end);
    if f.limit.Some? && f.limit.value != 0 && |filtered| > f.limit.value then SliceTo(filtered, f.limit.value)
    else filtered
  }

  /** The window `discover_videos` filters on: the given range when both
      ends are present, and otherwise from the cutoff with no end. */
  function HouseFilter(cutoff: DateTime, limit: Option<int>, start: Option<DateTime>, end: Option<DateTime>): (f: Filter)
    ensures start.Some? && end.Some? ==> f == Filter(start.value, end, limit)
    ensures !(start.Some? && end.Some?) ==> f == Filter(cutoff, None, limit)
  {
    if start.Some? && end.Some? then Filter(start.value, end, limit) else Filter(cutoff, None, limit)
  }

  /** `discover_videos` of the House scraper. */
  method DiscoverVideos(archiveUrl: string, fetch: ArchiveFetch, cutoff: DateTime, limit: Option<int>,
                        start: Option<DateTime>, end: Option<DateTime>, now: DateTime, parse: DateOracle)
    returns (videos: seq<VideoMetadata>)
    ensures var f := HouseFilter(cutoff, limit, start, end);
            videos == Finish(FetchYears(YearsToFetch(f, now), archiveUrl, fetch, f, [], now, parse), f)
  {
    var f := HouseFilter(cutoff, limit, start, end);
    var years := YearsToFetch(f, now);
    var all: seq<VideoMetadata> := [];
    var i := 0;
    while i < |years|
      invariant 0 <= i <= |years|
      invariant FetchYears(years, archiveUrl, fetch, f, [], now, parse)
                == FetchYears(years[i..], archiveUrl, fetch, f, all, now, parse)
    {
      assert years[i..][1..] == years[i + 1..];
      var page := fetch(archiveUrl, years[i]);
      if page.Some? {
        var yearVideos := ParseArchiveHtml(page.value, f, |all|, now, parse);
        all := all + yearVideos;
        if Reached(f.limit, |all|) {
          break;
        }
      }
      i := i + 1;
    }
    videos := Finish(all, f);
  }

  /** Every video discovered lies in the window and comes from the House;
      with a positive limit there are at most `limit` of them; and each one
      is among the videos gathered from the year pages. */
  lemma DiscoverWithinWindow(archiveUrl: string, fetch: ArchiveFetch, f: Filter, now: DateTime, parse: DateOracle)
    ensures var gathered := FetchYears(YearsToFetch(f, now), archiveUrl, fetch, f, [], now, parse);
            var r := Finish(gathered, f);
            (forall v :: v in r ==> v in gathered && InWindow(v, f.start, f.end) && v.source == "house")
            && (f.limit.Some? && f.limit.value > 0 ==> |r| <= f.limit.value)
  {
    var gathered := FetchYears(YearsToFetch(f, now), archiveUrl, fetch, f, [], now, parse);
    var filtered := WithinWindow(gathered, f.start, f.end);
    var r := Finish(gathered, f);
    forall v | v in r ensures v in filtered {
      if r != filtered {
        var k :| 0 <= k < |r| && r[k] == v;
        assert r[k] == filtered[k];
      }
    }
    forall v | v in gathered ensures v.source == "house" {
      var k :| 0 <= k < |gathered| && gathered[k] == v;
    }
  }

  /** The answer to a HEAD request: it fails, or it gives a status and the
      Content-Type, Content-Length and Location headers. */
  datatype HeadReply = HeadFailed | Head(status: int, contentType: Option<string>,
                                          contentLength: Downloader.ContentLength, location: Option<string>)

  /** What the query of a URL holds: the text after its first '?', the
      fragment removed first. */
  function Query(url: string): (r: string)
    ensures '#' !in r
  {
    var noFragment := BeforeFirst(url, '#');
    match IndexOf(noFragment, '?')
    case None => ""
    case Some(i) => noFragment[i + 1..]
  }

  predicate IsHexDigit(c: char) {
    '0' <= c <= '9' || 'a' <= c <= 'f' || 'A' <= c <= 'F'
  }

  function HexValue(c: char): (v: nat)
    requires IsHexDigit(c)
    ensures v < 16
  {
    if '0' <= c <= '9' then c as int - '0' as int
    else if 'a' <= c <= 'f' then c as int - 'a' as int + 10
    else c as int - 'A' as int + 10
  }

  /** An escape "%XX" with two hexadecimal digits at index `i`. */
  predicate EscapeAt(s: string, i: nat) {
    i + 3 <= |s| && s[i] == '%' && IsHexDigit(s[i + 1]) && IsHexDigit(s[i + 2])
  }

  /** `unquote`: every escape "%XX" becomes the character with code XX, and
      a '%' that does not start an escape stays as it is. */
  function Unquote(s: string): (r: string)
    ensures |s| > 0 <==> |r| > 0
    decreases |s|
  {
    if |s| == 0 then ""
    else if EscapeAt(s, 0) then [(HexValue(s[1]) * 16 + HexValue(s[2])) as char] + Unquote(s[3..])
    else [s[0]] + Unquote(s[1..])
  }

  /** Text without '%' is left as it is. */
  lemma {:induction false} UnquotePlain(s: string)
    requires '%' !in s
    ensures Unquote(s) == s
    decreases |s|
  {
    if |s| > 0 {
      assert s[0] != '%' && '%' !in s[1..];
      UnquotePlain(s[1..]);
    }
  }

  function HexChar(v: nat): char
    requires v < 16
  {
    if v < 10 then ('0' as int + v) as char else ('A' as int + v - 10) as char
  }

  /** Every character written as an escape "%XX" (characters below 256). */
  function Quote(s: string): (r: string)
    requires forall k :: 0 <= k < |s| ==> s[k] as int < 256
    ensures |r| == 3 * |s|
  {
    if |s| == 0 then ""
    else ['%', HexChar(s[0] as int / 16), HexChar(s[0] as int % 16)] + Quote(s[1..])
  }

  /** Unescaping undoes escaping. */
  lemma {:induction false} UnquoteQuote(s: string)
    requires forall k :: 0 <= k < |s| ==> s[k] as int < 256
    ensures Unquote(Quote(s)) == s
  {
    if |s| > 0 {
      var q := Quote(s);
      var c := s[0] as int;
      assert q[..3] == ['%', HexChar(c / 16), HexChar(c % 16)];
      assert EscapeAt(q, 0);
      assert HexValue(q[1]) * 16 + HexValue(q[2]) == c;
      assert q[3..] == Quote(s[1..]);
      UnquoteQuote(s[1..]);
      assert s == [s[0]] + s[1..];
    }
  }

  /** How `parse_qs` decodes a name or a value: '+' becomes a space, then
      the escapes are undone. */
  function DecodeComponent(s: string): (r: string)
    ensures |s| > 0 <==> |r| > 0
  {
    Unquote(ReplaceChars(s, {'+'}, ' '))
  }

  /** Text without '%' and '+' decodes to itself. */
  lemma DecodePlain(s: string)
    requires '%' !in s && '+' !in s
    ensures DecodeComponent(s) == s
  {
    NoPlusKept(s);
    UnquotePlain(s);
  }

  lemma NoPlusKept(s: string)
    requires '+' !in s
    ensures ReplaceChars(s, {'+'}, ' ') == s
  {
    var t := ReplaceChars(s, {'+'}, ' ');
    assert forall i :: 0 <= i < |s| ==> t[i] == s[i];
  }

  /** An escaped space in a file name is decoded: "a%20b.mp4" gives
      "a b.mp4". */
  lemma EscapedSpaceDecoded(a: string, b: string)
    requires '%' !in a && '+' !in a && '%' !in b && '+' !in b
    ensures DecodeComponent(a + "%20" + b) == a + " " + b
  {
    var s := a + "%20" + b;
    assert '+' !in s by {
      forall k | 0 <= k < |s| ensures s[k] != '+' {
        if k < |a| { assert s[k] == a[k]; }
        else if k >= |a| + 3 { assert s[k] == b[k - |a| - 3]; }
      }
    }
    NoPlusKept(s);
    assert s == a + (['%', '2', '0'] + b);
    UnquotePlainPrefix(a, ['%', '2', '0'] + b);
    UnquoteEscape('2', '0', b);
    UnquotePlain(b);
    assert (HexValue('2') * 16 + HexValue('0')) as char == ' ';
  }

  /** Text without '%' in front of the rest is copied as it is. */
  lemma {:induction false} UnquotePlainPrefix(a: string, s: string)
    requires '%' !in a
    ensures Unquote(a + s) == a + Unquote(s)
    decreases |a|
  {
    if |a| > 0 {
      assert a + s == [a[0]] + (a[1..] + s);
      UnquoteLiteral(a[0], a[1..] + s);
      assert '%' !in a[1..];
      UnquotePlainPrefix(a[1..], s);
      assert [a[0]] + (a[1..] + Unquote(s)) == ([a[0]] + a[1..]) + Unquote(s);
      assert a == [a[0]] + a[1..];
    } else {
      assert a + s == s && a + Unquote(s) == Unquote(s);
    }
  }

  lemma UnquoteLiteral(c: char, s: string)
    requires c != '%'
    ensures Unquote([c] + s) == [c] + Unquote(s)
  {
    assert ([c] + s)[1..] == s;
  }

  lemma UnquoteEscape(h1: char, h2: char, s: string)
    requires IsHexDigit(h1) && IsHexDigit(h2)
    ensures Unquote(['%', h1, h2] + s) == [(HexValue(h1) * 16 + HexValue(h2)) as char] + Unquote(s)
  {
    assert EscapeAt(['%', h1, h2] + s, 0);
    assert (['%', h1, h2] + s)[3..] == s;
  }

  /** A "name=value" pair that `parse_qs` keeps: it has an '=' and the raw
      text after it is not blank. */
  predicate KeptPair(p: string) {
    '=' in p && |BeforeFirst(p, '=')| + 1 < |p|
  }

  function PairName(p: string): string {
    DecodeComponent(BeforeFirst(p, '='))
  }

  function PairValue(p: string): string
    requires '=' in p
  {
    DecodeComponent(p[|BeforeFirst(p, '=')| + 1..])
  }

  /** The pair is kept and its decoded name is `key`. */
  predicate Selects(p: string, key: string) {
    KeptPair(p) && PairName(p) == key
  }

  /** `parse_qs(query).get(key, [None])[0]`: the decoded value of the first
      kept pair whose decoded name is `key`. */
  function FirstValue(pairs: seq<string>, key: string): (r: Option<string>)
    ensures r.None? <==> forall k :: 0 <= k < |pairs| ==> !Selects(pairs[k], key)
    ensures r.Some? ==> r.value != ""
    ensures r.Some? ==> exists k :: FirstSelected(pairs, key, k) && r.value == PairValue(pairs[k])
  {
    if |pairs| == 0 then None
    else if Selects(pairs[0], key) then
      assert FirstSelected(pairs, key, 0);
      Some(PairValue(pairs[0]))
    else
      var r := FirstValue(pairs[1..], key);
      if r.Some? then
        var k :| FirstSelected(pairs[1..], key, k) && r.value == PairValue(pairs[1..][k]);
        FirstSelectedShift(pairs, key, k);
        r
      else
        assert forall k :: 1 <= k < |pairs| ==> pairs[k] == pairs[1..][k - 1];
        r
  }

  /** Pair `k` is selected and no pair before it is. */
  predicate FirstSelected(pairs: seq<string>, key: string, k: int) {
    0 <= k < |pairs| && Selects(pairs[k], key) && forall j :: 0 <= j < k ==> !Selects(pairs[j], key)
  }

  lemma FirstSelectedShift(pairs: seq<string>, key: string, k: int)
    requires |pairs| > 0 && !Selects(pairs[0], key) && FirstSelected(pairs[1..], key, k)
    ensures FirstSelected(pairs, key, k + 1) && pairs[k + 1] == pairs[1..][k]
  {
    forall j | 0 <= j < k + 1 ensures !Selects(pairs[j], key) {
      if j > 0 { assert pairs[j] == pairs[1..][j - 1]; }
    }
  }

  /** The `video` query parameter of a player URL. */
  function QueryVideo(url: string): Option<string> {
    FirstValue(Split(Query(url), '&'), "video")
  }

  predicate VideoType(contentType: Option<string>) {
    var ct := Lower(if contentType.Some? then contentType.value else "");
    Contains(ct, "video") || Contains(ct, "mp4")
  }

  /** `resolve_stream_url` of the House scraper: nothing without a `video`
      parameter; otherwise the direct archive URL, or the redirect target
      when a redirect leads to a verified video. A Content-Length that is not
      a number makes the check raise, which the outer handler turns into
      nothing. */
  function ResolveStreamUrl(v: VideoMetadata, head: string -> HeadReply): (r: Option<string>)
    ensures QueryVideo(v.url).None? ==> r.None?
    ensures QueryVideo(v.url).Some? ==>
              var direct := ArchiveFilesUrl + QueryVideo(v.url).value;
              var reply := head(direct);
              (r.None? <==> reply.Head? && reply.status == 200 && !VideoType(reply.contentType)
                            && reply.contentLength.Malformed?)
              && (r.Some? ==> r.value == direct
                              || (reply.Head? && reply.status in {301, 302, 303, 307, 308}
                                  && reply.location == Some(r.value) && head(r.value).Head?
                                  && head(r.value).status == 200 && VideoType(head(r.value).contentType)))
  {
    match QueryVideo(v.url)
    case None => None
    case Some(param) =>
      var direct := ArchiveFilesUrl + param;
      match head(direct)
      case HeadFailed => Some(direct)
      case Head(status, contentType, contentLength, location) =>
        if status == 200 then
          if VideoType(contentType) then Some(direct)
          else match contentLength
            case Malformed(_) => None
            case NoHeader => Some(direct)
            case Numeric(n) => Some(direct)
        else if status in {301, 302, 303, 307, 308} then
          var target := if location.Some? then location.value else direct;
          var check := head(target);
          if check.Head? && check.status == 200 && VideoType(check.contentType) then Some(target)
          else Some(direct)
        else Some(direct)
  }

  /** The query of "<page>?video=<file>" is "video=<file>". */
  lemma QueryOfPlayerUrl(page: string, file: string)
    requires '?' !in page && '#' !in page && '#' !in file
    ensures Query(page + "?video=" + file) == "video=" + file
  {
    var url := page + "?video=" + file;
    assert '#' !in url by {
      forall k | 0 <= k < |url| ensures url[k] != '#' {
        if k < |page| { assert url[k] == page[k]; }
        else if k >= |page| + 7 { assert url[k] == file[k - |page| - 7]; }
      }
    }
    assert IndexOf(url, '?') == Some(|page|) by {
      assert url[|page|] == '?';
      assert url[..|page|] == page;
    }
    assert url[|page| + 1..] == "video=" + file;
  }

  /** The single pair "video=<file>" gives the decoded `file`. */
  lemma VideoOfSinglePair(file: string)
    requires '&' !in file && file != ""
    ensures FirstValue(Split("video=" + file, '&'), "video") == Some(DecodeComponent(file))
  {
    var p := "video=" + file;
    NoSeparatorAdded(file);
    SplitWithoutSeparator(p, '&');
    FirstValueOfPair(p, file);
  }

  lemma NoSeparatorAdded(file: string)
    requires '&' !in file
    ensures '&' !in "video=" + file
  {
    var p := "video=" + file;
    forall k | 0 <= k < |p| ensures p[k] != '&' {
      if k >= 6 { assert p[k] == file[k - 6]; }
    }
  }

  lemma SplitWithoutSeparator(s: string, c: char)
    requires c !in s
    ensures Split(s, c) == [s]
  {
  }

  lemma FirstValueOfPair(p: string, file: string)
    requires p == "video=" + file && file != ""
    ensures FirstValue([p], "video") == Some(DecodeComponent(file))
  {
    assert IndexOf(p, '=') == Some(5) by {
      assert p[5] == '=' && p[..5] == "video";
    }
    assert BeforeFirst(p, '=') == "video";
    assert p[6..] == file;
    DecodePlain("video");
    assert Selects(p, "video");
  }

  /** A player URL whose query is exactly "video=<file>" resolves to the
      archive file of the decoded name when the HEAD request fails. */
  lemma PlayerUrlResolves(page: string, file: string, v: VideoMetadata, head: string -> HeadReply)
    requires v.url == page + "?video=" + file
    requires '?' !in page && '#' !in page && '#' !in file && '&' !in file && file != ""
    requires head(ArchiveFilesUrl + DecodeComponent(file)).HeadFailed?
    ensures ResolveStreamUrl(v, head) == Some(ArchiveFilesUrl + DecodeComponent(file))
  {
    QueryOfPlayerUrl(page, file);
    VideoOfSinglePair(file);
    assert QueryVideo(v.url) == Some(DecodeComponent(file));
  }
}
