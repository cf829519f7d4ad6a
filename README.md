# Exlify server routes in Dafny

A model of the decision logic of the two routes of `server.js`, the
Express server that searches videos and relays their audio:

- `/api/search?q=…` trims the query, answers `[]` for a blank one, serves a
  fresh entry of the search cache, or turns the items of the results page
  into at most ten results (video id, title, author, last thumbnail,
  duration; a missing field becomes `""`) and caches them under the trimmed
  query for 30 seconds.
- `/api/audio?v=…` answers 400 without an id, takes the audio URL from the
  audio-info cache (five minutes) or from the formats the resolver
  (`yt-dlp`) reports — the largest format with an audio codec and a URL,
  ties going to the first — answers 404 when there is none, fetches the URL
  with the client's `Range` (default `bytes=0-`), answers 502 when upstream
  is not ok, and otherwise sets a fixed header set plus the upstream
  `Content-Range` and `Content-Length` when supplied. Anything thrown is 500.

The files:

- `wrappers.dfy` — `Option`, for JavaScript values that may be `undefined`.
- `js_string.dfy` — `String.prototype.trim` with the ECMAScript whitespace set.
- `ttl_cache.dfy` — `TtlCache`, the class behind both caches: a map from key
  to `{time, value}` and a TTL; `Lookup` is the read-time freshness test,
  `Put` is `Map.set`. Nothing is evicted.
- `audio_format.dfy` — the filter, the stable largest-first sort (as an
  insertion sort) and the choice of its head, with a reference
  left-to-right "first maximum" definition and the lemma that both agree.
- `search.dfy` — the item types, the extraction loop (`ExtractResults`,
  proved against the function `VideoResults`) and the route.
- `audio.dfy` — range default, header copying, upstream outcome and the route.

The clock, the resolver, the page fetch-and-parse and the upstream fetch
are parameters of the route methods: each route takes what the call would
yield, and returns what it asked for (the resolver's target page, the
upstream request, the query fetched), so "not called" is part of the
contract. Each route reads `Date.now()` twice, once for the freshness test
and once, after an `await`, for the cache write; the model has a parameter
for each reading.

The route never sets status 206: Express's initial 200 stays, even when
upstream answers a range. It always sends `Content-Type: audio/mp4`. A
format needs a URL to qualify. A cache entry exactly TTL old is a miss.
There is no per-client session registry and no cancellation.

## Model

| member | source | states |
|---|---|---|
| `JsString.TrimStart` | server.js:33 | the result is the suffix of the query after its leading ECMAScript whitespace, and does not start with whitespace |
| `JsString.TrimEnd` | server.js:33 | the result is the prefix of the query before its trailing whitespace, and does not end with whitespace |
| `JsString.Trim` | server.js:33 | `q.trim()` is the slice between the leading and the trailing whitespace, everything outside it is whitespace, and it neither starts nor ends with whitespace |
| `JsString.TrimEmptyIffBlank` | server.js:33-34 | the trimmed query is empty exactly when the query is empty or whitespace only (both directions) |
| `JsString.TrimIdempotent` | server.js:33 | trimming the cache key again changes nothing |
| `Caching.TtlCache.constructor` | server.js:19 | a cache starts empty with its TTL |
| `Caching.TtlCache.Lookup` | server.js:95-98 | a hit exactly when the key has an entry and `now - time < TTL`, returning that entry's value; an entry exactly TTL old is a miss |
| `Caching.TtlCache.Put` | server.js:125 | `set` replaces only the key's slot with `{now, value}`; afterwards that key hits for reads younger than the TTL and every other key reads as before |
| `AudioFormat.AudioCandidates` | server.js:119 | the filter keeps exactly the formats of the input that pass `HasAudio` (`acodec != "none"` and a non-empty URL): every kept format qualifies and comes from the input, every qualifying input format is kept |
| `AudioFormat.EarlierCandidatesAreSmaller` | server.js:119 | the filter keeps the input's order: a candidate larger than every candidate before it is also larger than every qualifying format before it in the input |
| `AudioFormat.InsertBySize` | server.js:120 | inserting into a largest-first list keeps it largest-first and adds exactly one element; the new head is the inserted format when it is not smaller than the old head |
| `AudioFormat.SortBySize` | server.js:120 | the sort is a permutation of its input and orders sizes from largest to smallest, a size being `SizeOf` (`filesize`, missing counted as 0) |
| `AudioFormat.FirstLargest` | server.js:118-120 | reference choice: the index of a format at least as large as all others and strictly larger than all before it |
| `AudioFormat.SortHeadIsFirstLargest` | server.js:120 | the head of the stable largest-first sort is the first format of maximal size |
| `AudioFormat.SelectAudioFormat` | server.js:118-120 | `formats.filter(…).sort(…)[0]`, `None` standing for `undefined`: a selected format is one of the resolver's and has an audio codec and a URL |
| `AudioFormat.SelectAudioFormatIsFirstLargest` | server.js:118-122 | nothing is selected exactly when no format qualifies; otherwise the selected format is from the input, has an audio codec and a URL, its size is at least every qualifying format's, and it is the first qualifying format of that size in the filtered list |
| `AudioFormat.SelectedIsFirstOfItsSize` | server.js:118-120 | ties go to the first: the selected format stands at a position of the resolver's own list ahead of which every qualifying format is strictly smaller |
| `SearchRoute.FirstRunText` | server.js:67-68 | the text of the first run, `""` when the runs or the text are missing |
| `SearchRoute.LastThumbnailUrl` | server.js:69 | the URL of the last thumbnail, `""` when the list is missing or empty or the URL is missing |
| `SearchRoute.ToResult` | server.js:65-71 | a pushed result carries the item's video id and the defaulted title, author, thumbnail and duration |
| `SearchRoute.VideoResults` | server.js:61-72 | definition: one result per item passing `IsVideo` (`v?.videoId` truthy), in input order; proved: never more results than items, each result is `ToResult` of some video item, each with a non-empty video id |
| `SearchRoute.VideoResultsOfPrefix` | server.js:61-73 | stopping early yields a prefix of the full result list |
| `SearchRoute.ExtractResults` | server.js:59-74 | the loop returns the first ten video results in input order: at most ten entries, each with a non-empty video id |
| `SearchRoute.HandleSearch` | server.js:31-82 | blank query: `[]`, no fetch, cache untouched; fresh entry: served, no fetch; otherwise fetch for the trimmed query; only a page with initial data is extracted and cached under the trimmed query at the second clock reading; a failed fetch, no initial data or malformed data give `[]` uncached; keeps every cached answer at most ten results with ids |
| `SearchRoute.SearchTwice` | server.js:36-38 | a repeated query is answered from the cache without a fetch while the stored answer is younger than 30 s, and fetched again afterwards |
| `AudioRoute.EffectiveRange` | server.js:92 | the upstream range is the client's `Range` verbatim, or `bytes=0-` when absent or empty |
| `AudioRoute.RelayHeaders` | server.js:139-147 | `Content-Type: audio/mp4`, `Accept-Ranges: bytes` and `Cache-Control: public, max-age=60` always; `Content-Range` and `Content-Length` present exactly when upstream supplies a non-empty value, copied unchanged; no other header |
| `AudioRoute.UpstreamAnswer` | server.js:136-147 | status 200 exactly when upstream is ok, with the relay headers; not ok is 502 with no header set; a thrown fetch is 500 |
| `AudioRoute.HandleAudio` | server.js:87-157 | missing id (`MissingId`, the `!videoId` test): 400 with no resolver call, fetch or cache write; hit: no resolver call, cache unchanged, cached URL fetched; miss: resolver asked for the watch page (`WatchUrl`, `https://www.youtube.com/watch?v=` + id); thrown or formats missing: 500; no qualifying format: 404 and cache unchanged; otherwise the cache gains `{storeTime, url}` for this id only and the URL is fetched with the effective range; the status is one of 200, 400, 404, 500, 502; cached URLs stay non-empty |
| `AudioRoute.RequestTwice` | server.js:95-125 | after a resolving request, a second one skips the resolver while the stored URL is younger than five minutes and calls it again once it is that old |

## Left out

- Express setup, CORS, static files and `app.listen` (server.js:6-14, 162-164): framework plumbing.
- The page fetch, the `ytInitialData` regular expression and `JSON.parse` (server.js:41-57): the model starts from their outcome (`PageReply`: fetch failed, no initial data, malformed data, or the item list, missing when the JSON path is absent).
- The `yt-dlp` invocation and its options (server.js:101-116): the model records only the page it is asked about and takes its reply (thrown, or the `formats` list, possibly missing) as a parameter.
- `encodeURIComponent` in the search URL: the model records the trimmed query the page is fetched for, not the URL.
- The upstream fetch (server.js:128-134): its reply (thrown, or `ok` and headers) is a parameter; the request records URL, range and user agent.
- Body piping and the stream `error`/`close` handlers (server.js:149-152): asynchronous stream lifecycle.
- `console.error` logging in the catch blocks.
- Interleaving of concurrent requests between the `await`s: each route call runs as one step, with the two clock readings as parameters.
- Query values that are not strings (repeated parameters give arrays in Express) and JSON fields of unexpected types; a thrown `TypeError` from those would give `[]` or 500 like the other thrown errors.
- `filesize` is a natural number; fractional or negative sizes are not modelled.
- `thumbnails.pop()` also removes the thumbnail from the parsed data, which is discarded right after; not modelled.
