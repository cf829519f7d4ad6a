/**
 * The `/api/search` route: trim the query, answer from the search cache
 * when it holds a fresh entry, otherwise turn the items of the results page
 * into at most ten search results and cache them under the trimmed query.
 */
module SearchRoute {
  import opened Wrappers
  import opened JsString
  import opened Caching

  /** `SEARCH_TTL`, in milliseconds. */
  const SearchTtl: nat := 30_000

  /** The loop stops once this many results are collected. */
  const MaxResults: nat := 10

  /** `{text}` of a `runs` element. */
  datatype Run = Run(text: Option<string>)

  /** `{url}` of a `thumbnails` element. */
  datatype Thumbnail = Thumbnail(url: Option<string>)

  /**
   * The fields of `item.videoRenderer` the route reads; `None` stands for a
   * missing object anywhere along the optional chain (`title?.runs`,
   * `thumbnail?.thumbnails`, `lengthText?.simpleText`).
   */
  datatype VideoRenderer = VideoRenderer(
    videoId: Option<string>,
    titleRuns: Option<seq<Run>>,
    ownerRuns: Option<seq<Run>>,
    thumbnails: Option<seq<Thumbnail>>,
    lengthText: Option<string>)

  /** One element of `itemSectionRenderer.contents`. */
  datatype Item = Item(videoRenderer: Option<VideoRenderer>)

  /** One element of the JSON answer. */
  datatype SearchResult = SearchResult(
    videoId: string, title: string, author: string, thumb: string, duration: string)

  /**
   * What the results page yields once fetched and parsed: the fetch failed,
   * the page holds no `ytInitialData` script, the script is not JSON, or the
   * item list (`None` when the path to it is missing).
   */
  datatype PageReply =
    | PageFetchFailed
    | NoInitialData
    | MalformedData
    | InitialData(items: Option<seq<Item>>)

  /** `x || ""` for a string that may be missing. */
  function OrEmpty(s: Option<string>): string {
    s.GetOr("")
  }

  /** `runs?.[0]?.text || ""` */
  function FirstRunText(runs: Option<seq<Run>>): (r: string)
    ensures runs.None? || runs == Some([]) ==> r == ""
    ensures runs.Some? && runs.value != [] ==> r == OrEmpty(runs.value[0].text)
  {
    match runs
    case None => ""
    case Some(rs) => if rs == [] then "" else OrEmpty(rs[0].text)
  }

  /** `thumbnails?.pop()?.url || ""`: the URL of the last thumbnail. */
  function LastThumbnailUrl(thumbs: Option<seq<Thumbnail>>): (r: string)
    ensures thumbs.None? || thumbs == Some([]) ==> r == ""
    ensures thumbs.Some? && thumbs.value != [] ==> r == OrEmpty(thumbs.value[|thumbs.value| - 1].url)
  {
    match thumbs
    case None => ""
    case Some(ts) => if ts == [] then "" else OrEmpty(ts[|ts| - 1].url)
  }

  /** `v?.videoId` is truthy: the item is a video with a non-empty id. */
  predicate IsVideo(item: Item) {
    item.videoRenderer.Some? && item.videoRenderer.value.videoId.Some?
    && item.videoRenderer.value.videoId.value != ""
  }

  /** The object pushed for a video item; every missing field becomes `""`. */
  function ToResult(v: VideoRenderer): (r: SearchResult)
    requires v.videoId.Some?
    ensures r.videoId == v.videoId.value
    ensures r.title == FirstRunText(v.titleRuns) && r.author == FirstRunText(v.ownerRuns)
    ensures r.thumb == LastThumbnailUrl(v.thumbnails) && r.duration == OrEmpty(v.lengthText)
  {
    SearchResult(v.videoId.value, FirstRunText(v.titleRuns), FirstRunText(v.ownerRuns),
                 LastThumbnailUrl(v.thumbnails), OrEmpty(v.lengthText))
  }

  /**
   * All results the items would give without the cut-off at ten: one per
   * video item, in the items' order, non-video items skipped.
   */
  function VideoResults(items: seq<Item>): (r: seq<SearchResult>)
    ensures |r| <= |items|
    ensures forall i :: 0 <= i < |r| ==> r[i].videoId != ""
    ensures forall i :: 0 <= i < |r| ==>
      exists j :: 0 <= j < |items| && IsVideo(items[j]) && r[i] == ToResult(items[j].videoRenderer.value)
  {
    if items == [] then []
    else
      var init := items[..|items| - 1];
      var last := items[|items| - 1];
      var prev := VideoResults(init);
      forall i | 0 <= i < |prev|
        ensures exists j :: 0 <= j < |items| && IsVideo(items[j]) && prev[i] == ToResult(items[j].videoRenderer.value)
      {
        var j :| 0 <= j < |init| && IsVideo(init[j]) && prev[i] == ToResult(init[j].videoRenderer.value);
        assert items[j] == init[j];
      }
      prev + (if IsVideo(last) then [ToResult(last.videoRenderer.value)] else [])
  }

  /** Reading more items only appends results: the results of a prefix are a prefix of the results. */
  lemma {:induction false} VideoResultsOfPrefix(items: seq<Item>, n: nat)
    requires n <= |items|
    ensures VideoResults(items[..n]) <= VideoResults(items)
    decreases |items| - n
  {
    if n < |items| {
      var init := items[..|items| - 1];
      assert init[..n] == items[..n];
      VideoResultsOfPrefix(init, n);
    } else {
      assert items[..n] == items;
    }
  }

  /** The first `n` elements of `s`, or all of `s` when it is shorter. */
  function FirstN<T>(s: seq<T>, n: nat): (r: seq<T>)
    ensures |r| == if |s| <= n then |s| else n
    ensures r <= s
  {
    if |s| <= n then s else s[..n]
  }

  /** What `/api/search` ever answers: at most ten results, each with a video id. */
  predicate WellFormedResults(results: seq<SearchResult>) {
    |results| <= MaxResults && forall i :: 0 <= i < |results| ==> results[i].videoId != ""
  }

  /** Every value in the search cache is a well-formed answer. */
  ghost predicate HoldsResults(cache: TtlCache<seq<SearchResult>>)
    reads cache
  {
    forall k :: k in cache.entries ==> WellFormedResults(cache.entries[k].value)
  }

  /**
   * The loop over the items: skip non-videos, push one result per video and
   * stop after the tenth. The result is the first ten video results in
   * input order, each with a non-empty video id.
   */
  method ExtractResults(items: seq<Item>) returns (results: seq<SearchResult>)
    ensures results == FirstN(VideoResults(items), MaxResults)
    ensures WellFormedResults(results)
  {
    results := [];
    var i := 0;
    while i < |items|
      invariant 0 <= i <= |items|
      invariant results == VideoResults(items[..i])
      invariant |results| < MaxResults
    {
      var item := items[i];
      assert items[..i + 1][..i] == items[..i];
      i := i + 1;
      if !IsVideo(item) {
        continue;
      }
      results := results + [ToResult(item.videoRenderer.value)];
      if |results| >= MaxResults {
        VideoResultsOfPrefix(items, i);
        break;
      }
    }
    if i == |items| {
      assert items[..i] == items;
    }
  }

  /**
   * The route. `q` is `req.query.q`; `now` and `storeTime` are the two
   * `Date.now()` readings (the freshness test, and the `set` after the page
   * came back); `page` is what fetching and parsing the results page yields.
   * Returns the JSON answer and the trimmed query the page was fetched for,
   * if it was fetched.
   */
  method HandleSearch(cache: TtlCache<seq<SearchResult>>, q: Option<string>, now: int, storeTime: int, page: PageReply)
    returns (results: seq<SearchResult>, fetchedFor: Option<string>)
    requires cache.ttl == SearchTtl && HoldsResults(cache)
    modifies cache
    ensures HoldsResults(cache) && WellFormedResults(results)
    // A blank query answers [] without touching the cache or the network.
    ensures AllWhitespace(q.GetOr("")) ==>
      results == [] && fetchedFor.None? && cache.entries == old(cache.entries)
    // A fresh entry for the trimmed query is served as is.
    ensures var query := Trim(q.GetOr(""));
      query != "" && old(cache.Lookup(query, now)).Some? ==>
        results == old(cache.Lookup(query, now)).value && fetchedFor.None?
        && cache.entries == old(cache.entries)
    // Otherwise the page is fetched for the trimmed query.
    ensures var query := Trim(q.GetOr(""));
      query != "" && old(cache.Lookup(query, now)).None? ==> fetchedFor == Some(query)
    // Only a page with initial data is turned into results and cached, under the trimmed query.
    ensures var query := Trim(q.GetOr(""));
      query != "" && old(cache.Lookup(query, now)).None? && page.InitialData? ==>
        results == FirstN(VideoResults(page.items.GetOr([])), MaxResults)
        && cache.entries == old(cache.entries)[query := Entry(storeTime, results)]
    // A failed fetch, a page without initial data or malformed data answers [] and caches nothing.
    ensures var query := Trim(q.GetOr(""));
      query != "" && old(cache.Lookup(query, now)).None? && !page.InitialData? ==>
        results == [] && cache.entries == old(cache.entries)
  {
    var query := Trim(q.GetOr(""));
    TrimEmptyIffBlank(q.GetOr(""));
    if query == "" {
      return [], None;
    }
    var cached := cache.Lookup(query, now);
    if cached.Some? {
      return cached.value, None;
    }
    fetchedFor := Some(query);
    match page
    case PageFetchFailed =>
      results := [];
    case NoInitialData =>
      results := [];
    case MalformedData =>
      results := [];
    case InitialData(items) =>
      results := ExtractResults(items.GetOr([]));
      cache.Put(query, results, storeTime);
  }

  /**
   * The same non-blank query twice, the first fetching a page with initial
   * data: while the stored answer is younger than the TTL the second gets
   * the same answer without a fetch; from then on it fetches again.
   */
  method SearchTwice(cache: TtlCache<seq<SearchResult>>, q: string, now: int, storeTime: int, later: int,
                     page: PageReply, secondPage: PageReply)
    returns (first: seq<SearchResult>, second: seq<SearchResult>, refetched: Option<string>)
    requires cache.ttl == SearchTtl && HoldsResults(cache) && Trim(q) != ""
    requires cache.Lookup(Trim(q), now).None? && page.InitialData?
    modifies cache
    ensures later - storeTime < SearchTtl ==> second == first && refetched.None?
    ensures later - storeTime >= SearchTtl ==> refetched == Some(Trim(q))
  {
    var fetchedFor;
    first, fetchedFor := HandleSearch(cache, Some(q), now, storeTime, page);
    second, refetched := HandleSearch(cache, Some(q), later, later, secondPage);
  }
}
