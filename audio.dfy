/**
 * The `/api/audio` route: validate the video id, find the audio URL in the
 * audio-info cache or ask the resolver for the formats and pick one, fetch
 * that URL upstream with the client's byte range, and relay the response.
 */
module AudioRoute {
  import opened Wrappers
  import opened Caching
  import opened AudioFormat

  /** `AUDIO_INFO_TTL`, five minutes in milliseconds. */
  const AudioInfoTtl: nat := 5 * 60 * 1000

  /** The range asked of upstream when the client sends none. */
  const FullRange := "bytes=0-"

  /** The browser identity sent to the resolver and to upstream. */
  const UserAgent := "Mozilla/5.0 (Windows NT 10.0; Win64; x64) Chrome/120 Safari/537.36"

  /** The page the resolver is asked about. */
  function WatchUrl(videoId: string): string {
    "https://www.youtube.com/watch?v=" + videoId
  }

  /** What the resolver (`ytdlp`) yields: it threw, or its JSON with a `formats` list that may be missing. */
  datatype ResolverReply = ResolverFailed | Info(formats: Option<seq<Format>>)

  /**
   * What the upstream fetch yields: it threw, or a response with its `ok`
   * flag and its headers, keyed by lower-case name as `Headers.get` reads them.
   */
  datatype UpstreamReply = FetchFailed | Fetched(ok: bool, headers: map<string, string>)

  /** The request sent upstream. */
  datatype UpstreamRequest = UpstreamRequest(url: string, range: string, userAgent: string)

  /**
   * What the client receives: `res.sendStatus(code)`, which sets no header
   * of this route, or the piped upstream body under the status Express
   * starts with (200) and the headers the route set.
   */
  datatype Response = SendStatus(code: nat) | Piped(headers: map<string, string>)

  function StatusOf(r: Response): nat {
    match r
    case SendStatus(code) => code
    case Piped(_) => 200
  }

  function HeadersOf(r: Response): map<string, string> {
    match r
    case SendStatus(_) => map[]
    case Piped(headers) => headers
  }

  /** `req.headers.range || "bytes=0-"`: the client's range verbatim, or the whole file. */
  function EffectiveRange(range: Option<string>): (r: string)
    ensures r != ""
    ensures range.Some? && range.value != "" ==> r == range.value
    ensures range.None? || range.value == "" ==> r == FullRange
  {
    if range.Some? && range.value != "" then range.value else FullRange
  }

  /** `headers.get(name)` is a non-empty string. */
  predicate Supplied(upstream: map<string, string>, name: string) {
    name in upstream && upstream[name] != ""
  }

  /**
   * The headers set on success: a fixed content type, byte ranges and
   * caching policy, and the upstream `Content-Range` and `Content-Length`
   * copied unchanged only when upstream supplies them.
   */
  function RelayHeaders(upstream: map<string, string>): (r: map<string, string>)
    ensures "Content-Type" in r && r["Content-Type"] == "audio/mp4"
    ensures "Accept-Ranges" in r && r["Accept-Ranges"] == "bytes"
    ensures "Cache-Control" in r && r["Cache-Control"] == "public, max-age=60"
    ensures "Content-Range" in r <==> Supplied(upstream, "content-range")
    ensures "Content-Range" in r ==> r["Content-Range"] == upstream["content-range"]
    ensures "Content-Length" in r <==> Supplied(upstream, "content-length")
    ensures "Content-Length" in r ==> r["Content-Length"] == upstream["content-length"]
    ensures r.Keys <= {"Content-Type", "Accept-Ranges", "Cache-Control", "Content-Range", "Content-Length"}
  {
    var fixed := map["Content-Type" := "audio/mp4", "Accept-Ranges" := "bytes",
                     "Cache-Control" := "public, max-age=60"];
    var withRange := if Supplied(upstream, "content-range")
                     then fixed["Content-Range" := upstream["content-range"]] else fixed;
    if Supplied(upstream, "content-length")
    then withRange["Content-Length" := upstream["content-length"]] else withRange
  }

  /**
   * The answer once upstream has been asked: a thrown fetch is 500, a
   * response that is not ok is 502 before any header is set, and an ok one
   * is relayed under status 200 (never 206) with the relay headers.
   */
  function UpstreamAnswer(upstream: UpstreamReply): (r: Response)
    ensures StatusOf(r) == 200 <==> upstream.Fetched? && upstream.ok
    ensures upstream.Fetched? && !upstream.ok ==> r == SendStatus(502)
    ensures upstream.FetchFailed? ==> r == SendStatus(500)
    ensures HeadersOf(r) != map[] <==> upstream.Fetched? && upstream.ok
    ensures r.Piped? ==> r.headers == RelayHeaders(upstream.headers)
  {
    match upstream
    case FetchFailed => SendStatus(500)
    case Fetched(ok, headers) =>
      if ok then Piped(RelayHeaders(headers)) else SendStatus(502)
  }

  /** Every cached audio URL is non-empty: only a selected format's URL is ever stored. */
  ghost predicate HoldsUrls(cache: TtlCache<string>)
    reads cache
  {
    forall k :: k in cache.entries ==> cache.entries[k].value != ""
  }

  /** `!videoId`: the id is missing or empty. */
  predicate MissingId(v: Option<string>) {
    v.None? || v.value == ""
  }

  /**
   * The route. `v` is `req.query.v` and `range` the `Range` request header;
   * `now` and `storeTime` are the two `Date.now()` readings (the freshness
   * test, and the `set` after the resolver answered); `resolver` and
   * `upstream` are what those calls yield if they are made. Returns the
   * answer, the page the resolver was asked about (if it was called), and
   * the upstream request (if one was made).
   */
  method HandleAudio(cache: TtlCache<string>, v: Option<string>, range: Option<string>,
                     now: int, storeTime: int, resolver: ResolverReply, upstream: UpstreamReply)
    returns (response: Response, resolvedFor: Option<string>, fetched: Option<UpstreamRequest>)
    requires cache.ttl == AudioInfoTtl && HoldsUrls(cache)
    modifies cache
    ensures HoldsUrls(cache)
    ensures StatusOf(response) in {200, 400, 404, 500, 502}
    ensures fetched.Some? ==> fetched.value.url != "" && fetched.value.range != ""
    // Missing id: 400, and nothing else is looked at, called or written.
    ensures MissingId(v) ==>
      response == SendStatus(400) && resolvedFor.None? && fetched.None?
      && cache.entries == old(cache.entries)
    // Fresh cache entry: the resolver is not called and the cache is not written.
    ensures !MissingId(v) && old(cache.Lookup(v.value, now)).Some? ==>
      && resolvedFor.None? && cache.entries == old(cache.entries)
      && fetched == Some(UpstreamRequest(old(cache.Lookup(v.value, now)).value, EffectiveRange(range), UserAgent))
      && response == UpstreamAnswer(upstream)
    // Missing or stale entry: the resolver is asked about the video's page.
    ensures !MissingId(v) && old(cache.Lookup(v.value, now)).None? ==>
      resolvedFor == Some(WatchUrl(v.value))
    // A resolver that throws, or answers without a formats list: 500, nothing cached or fetched.
    ensures !MissingId(v) && old(cache.Lookup(v.value, now)).None? && (resolver.ResolverFailed? || resolver.formats.None?) ==>
      response == SendStatus(500) && fetched.None? && cache.entries == old(cache.entries)
    // No format with an audio codec and a URL: 404, nothing cached or fetched.
    ensures !MissingId(v) && old(cache.Lookup(v.value, now)).None? && resolver.Info? && resolver.formats.Some?
            && SelectAudioFormat(resolver.formats.value).None? ==>
      response == SendStatus(404) && fetched.None? && cache.entries == old(cache.entries)
    // A selected format: its URL is cached for this id only, then fetched with the client's range.
    ensures !MissingId(v) && old(cache.Lookup(v.value, now)).None? && resolver.Info? && resolver.formats.Some?
            && SelectAudioFormat(resolver.formats.value).Some? ==>
      var url := SelectAudioFormat(resolver.formats.value).value.url;
      && cache.entries == old(cache.entries)[v.value := Entry(storeTime, url)]
      && fetched == Some(UpstreamRequest(url, EffectiveRange(range), UserAgent))
      && response == UpstreamAnswer(upstream)
  {
    if MissingId(v) {
      return SendStatus(400), None, None;
    }
    var videoId := v.value;
    var rangeValue := EffectiveRange(range);

    var cached := cache.Lookup(videoId, now);
    var audioUrl: string;
    resolvedFor := None;
    if cached.Some? {
      audioUrl := cached.value;
    } else {
      resolvedFor := Some(WatchUrl(videoId));
      if resolver.ResolverFailed? || resolver.formats.None? {
        return SendStatus(500), resolvedFor, None;
      }
      var audioFormat := SelectAudioFormat(resolver.formats.value);
      SelectAudioFormatIsFirstLargest(resolver.formats.value);
      if audioFormat.None? {
        return SendStatus(404), resolvedFor, None;
      }
      audioUrl := audioFormat.value.url;
      cache.Put(videoId, audioUrl, storeTime);
    }

    fetched := Some(UpstreamRequest(audioUrl, rangeValue, UserAgent));
    response := UpstreamAnswer(upstream);
  }

  /**
   * Two requests for the same id, the first resolving it: the second is
   * served from the cache without calling the resolver while the stored
   * URL is younger than the TTL, and calls the resolver again from then on.
   */
  method RequestTwice(cache: TtlCache<string>, videoId: string, range: Option<string>,
                      now: int, storeTime: int, later: int,
                      resolver: ResolverReply, upstream: UpstreamReply)
    returns (first: Option<string>, second: Option<string>)
    requires cache.ttl == AudioInfoTtl && HoldsUrls(cache) && videoId != ""
    requires cache.Lookup(videoId, now).None?
    requires resolver.Info? && resolver.formats.Some? && SelectAudioFormat(resolver.formats.value).Some?
    modifies cache
    ensures first == Some(WatchUrl(videoId))
    ensures later - storeTime < AudioInfoTtl ==> second.None?
    ensures later - storeTime >= AudioInfoTtl ==> second == first
  {
    var response, fetched;
    response, first, fetched := HandleAudio(cache, Some(videoId), range, now, storeTime, resolver, upstream);
    response, second, fetched := HandleAudio(cache, Some(videoId), range, later, later, resolver, upstream);
  }
}
