/** Turning blob URLs and player pages into direct video URLs, with a headless
    browser as an oracle. */
module Blob {
  import opened Wrappers
  import opened Text

  /** The `<video>` element a loaded page shows: its own `src` attribute and
      the `src` attributes of its `<source>` children, in document order. */
  datatype VideoElement = VideoElement(src: Option<string>, sources: seq<Option<string>>)

  /** What the browser finds: the launch or the navigation fails, or the
      page loads with or without a video element. */
  datatype Page = BrowserError | Loaded(video: Option<VideoElement>)

  type Browser = string -> Page

  /** A `<source>` URL that can be used: non-empty and not itself a blob. */
  predicate Usable(src: Option<string>) {
    Truthy(src) && !StartsWith(src.value, "blob:")
  }

  /** The first usable `<source>` URL. */
  function FirstUsable(sources: seq<Option<string>>): (r: Option<string>)
    ensures r.Some? ==> exists k :: 0 <= k < |sources| && sources[k] == r && Usable(sources[k])
                                   && forall j :: 0 <= j < k ==> !Usable(sources[j])
    ensures r.None? ==> forall k :: 0 <= k < |sources| ==> !Usable(sources[k])
  {
    if |sources| == 0 then None
    else if Usable(sources[0]) then sources[0]
    else
      var rest := FirstUsable(sources[1..]);
      assert forall k :: 1 <= k < |sources| ==> sources[k] == sources[1..][k - 1];
      if rest.Some? then
        var k :| 0 <= k < |sources[1..]| && sources[1..][k] == rest && Usable(sources[1..][k])
                 && forall j :: 0 <= j < k ==> !Usable(sources[1..][j]);
        assert sources[k + 1] == rest;
        rest
      else rest
  }

  /** The URL browser extraction yields for a page: the video's own `src`
      when non-empty, else the first usable `<source>`, else nothing. */
  function BrowserPick(page: Page): (r: Option<string>)
    ensures r.Some? ==> r.value != ""
    ensures r.Some? && !(page.Loaded? && page.video.Some? && Truthy(page.video.value.src)) ==> !StartsWith(r.value, "blob:")
  {
    match page
    case BrowserError => None
    case Loaded(None) => None
    case Loaded(Some(v)) => if Truthy(v.src) then v.src else FirstUsable(v.sources)
  }

  class BlobHandler {
    const useBrowser: bool
    var browserOpen: bool

    /** Browser automation is off unless asked for; no browser is open. */
    constructor (useBrowser: bool := false)
      ensures this.useBrowser == useBrowser && !browserOpen
    {
      this.useBrowser := useBrowser;
      browserOpen := false;
    }

    /** `is_blob_url` */
    predicate IsBlobUrl(url: string) {
      StartsWith(url, "blob:")
    }

    /** `extract_video_url`: player pages and blob URLs go to the browser
        when it is enabled; anything else is returned as it is; a blob URL
        without a browser yields nothing. */
    function ExtractVideoUrl(url: string, page: Page): (r: Option<string>)
      ensures Contains(url, "VideoArchivePlayer") && !useBrowser ==> r == Some(url)
      ensures !Contains(url, "VideoArchivePlayer") && !IsBlobUrl(url) ==> r == Some(url)
      ensures !Contains(url, "VideoArchivePlayer") && IsBlobUrl(url) && !useBrowser ==> r.None?
      ensures useBrowser && (Contains(url, "VideoArchivePlayer") || IsBlobUrl(url)) ==> r == BrowserPick(page)
    {
      if Contains(url, "VideoArchivePlayer") then
        if useBrowser then BrowserPick(page) else Some(url)
      else if !IsBlobUrl(url) then Some(url)
      else if !useBrowser then None
      else BrowserPick(page)
    }

    /** `_extract_with_browser`: reads the loaded page's video element, then
        its `<source>` children one at a time. */
    method ExtractWithBrowser(url: string, browse: Browser) returns (r: Option<string>)
      ensures r == BrowserPick(browse(url))
    {
      var page := browse(url);
      if page.BrowserError? || page.video.None? {
        return None;
      }
      var video := page.video.value;
      if Truthy(video.src) {
        return video.src;
      }
      var i := 0;
      while i < |video.sources|
        invariant 0 <= i <= |video.sources|
        invariant FirstUsable(video.sources) == FirstUsable(video.sources[i..])
      {
        assert video.sources[i..][1..] == video.sources[i + 1..];
        var src := video.sources[i];
        if Truthy(src) && !StartsWith(src.value, "blob:") {
          return src;
        }
        i := i + 1;
      }
      return None;
    }

    /** `cleanup`: afterwards no browser is held. */
    method Cleanup()
      modifies this
      ensures !browserOpen
    {
      if browserOpen {
        browserOpen := false;
      }
    }
  }
}
