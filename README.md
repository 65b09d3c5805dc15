# Adaptive badge cache of shields-human, modelled in Dafny

This project models the caching core of the badge server `server.js`:

- `cache(f)`, the wrapper every vendor badge route goes through. It builds a
  cache index from the route match and the presentation parameters. It then
  decides whether to answer from `requestCache`, call the vendor, or both. When
  the vendor answers, it updates the entry's counters (`reqs`, `dataChange`),
  its `time` and its `interval`. It also races the vendor against a 25-second
  timer so that each request gets at most one badge.
- `regularUpdate`, an interval-gated memoiser that keeps one `{timestamp, data}`
  slot per URL.
- The string helpers used to build badge data: `escapeFormat`, `sixHex`,
  `colorParam`, `getLabel` and `getBadgeData`.

Layout, one module per file:

| file | module | models |
|---|---|---|
| `wrappers.dfy` | `Wrappers` | `undefined` as `Option`, callback `(err, value)` as `Result` |
| `escape.dfy` | `Escape` | `escapeFormat`, one regular-expression replacement per function |
| `decimal.dfy` | `Decimal` | `[0-9]+` digit runs and their numeric value |
| `colors.dfy` | `Colors` | `sixHex`, `colorParam` |
| `params.dfy` | `Params` | the query object `data`, `getLabel`, `getBadgeData` |
| `cache_key.dfy` | `CacheKey` | `cacheIndex`, with `JSON.stringify` of `link` |
| `staleness.dfy` | `Staleness` | cache entries, the serve-or-fetch decision, the entry update, `max-age` parsing |
| `vendor_cache.dfy` | `VendorCache` | `requestCache` (`Store`) and one request's closure (`Request`) as a state machine |
| `regular_update.dfy` | `RegularUpdate` | `regularUpdateCache` and `regularUpdate` |

The events of a request are sequential method calls on a `Request` object:

- the constructor `Start` is the request's arrival;
- `VendorHeaders` is a vendor response reaching `cachedRequest`;
- `SendBadge` is the vendor calling `sendBadge`;
- `TimerFires` is the 25-second timeout.

Each method can only be called when its event can happen. For example, the
timer must still be pending, and `f` must have been invoked and not yet have
answered. The class invariant `Request.Valid` is the single-response guard: at
most one badge is sent, and until one is sent the timer is still pending. The
clock, the vendor's answers, the HTTP response and the scraper's outcome are
all parameters.

Behaviour of the code that the model follows deliberately:

- The cache index is not collision-free. An absent parameter prints as
  `undefined`, so an absent label and the label `undefined` share an entry,
  although `getLabel` renders them differently. Parameters are also not escaped,
  so `&style=` inside a label can collide with another style
  (`CacheKey.IndexUndefinedLabelCollision`, `CacheKey.IndexSeparatorInjection`).
- The stored `interval` is the request's own `cacheInterval`. That value starts
  at 5000 ms on every request and changes only when this request's vendor
  response carries `max-age`. It is not kept from the previous entry.
- A vendor answer that arrives after the timeout is dropped entirely. It does
  not update the counters either.
- When the timeout serves a stored entry, the response keeps the
  `Cache-Control` header set on arrival. That header is `max-age=<maxAge>`
  when the client asked for one. Only the `unresponsive` badge forces
  `no-cache, no-store, must-revalidate`.
- `regularUpdate` leaves a `{timestamp: 0, data: 0}` placeholder behind when
  the scraper fails on a URL seen for the first time.
- In `getBadgeData`, the `validTemplates` test never changes the template. Any
  non-empty style is used as given (`Params.TemplateKeepsUnknownStyle`).

## Model

| member | source | states |
|---|---|---|
| `Escape.InlineUnderscores` | server.js:798-799 | the length never changes, and every character is either kept or is an `_` turned into a space |
| `Escape.TrailingUnderscore` | server.js:800-801 | the text changes exactly when it ends in a lone `_` (one not preceded by `_`), and then only that last character changes, into a space |
| `Escape.LeadingUnderscore` | server.js:800-801 | the text changes exactly when it starts with a lone `_` (one not followed by `_`), and then only that first character changes, into a space |
| `Escape.CollapsePairs` | server.js:802-803 | non-overlapping pairs collapse, so the text never grows; text without the character is unchanged |
| `Escape.EscapeFormat` | server.js:796-804 | escaping never lengthens the text |
| `Escape.CollapseDouble` | server.js:803 | collapsing `cc` to `c` undoes writing every `c` twice |
| `Escape.InlineFixesDoubled` | server.js:799 | in text where every underscore is doubled, no underscore is inline, so the first replacement changes nothing |
| `Escape.TrailingFixesDoubled` | server.js:801 | doubled underscores are never a lone trailing underscore |
| `Escape.LeadingFixesDoubled` | server.js:801 | doubled underscores are never a lone leading underscore |
| `Escape.EscapeRoundTrip` | server.js:794-804 | round trip: a literal written in badge-URL form (`_` as `__`, `-` as `--`) escapes back to itself |
| `Escape.EscapeKeepsPlainText` | server.js:796-804 | a text with no `_` and no `-` is returned unchanged |
| `Escape.EscapeDoubledSeparators` | server.js:803 | `__` gives `_` and `--` gives `-` |
| `Escape.EscapeNonOverlapping` | server.js:799 | global matches do not overlap: `a_b_c` gives `a b_c` |
| `Escape.EscapeLoneEnds` | server.js:800-801 | a lone underscore at either end becomes a space: `_a_` gives ` a ` |
| `Decimal.LeadingDigits` | server.js:177 | the greedy `[0-9]+` takes a digit prefix and stops only at the end or at a non-digit |
| `Decimal.DecimalRoundTrip` | server.js:178-179 | reading back the decimal spelling of `n` gives `n` |
| `Colors.SixHex` | server.js:813 | exactly six characters, each a hex digit in either case (definition; `ColorParam` states its use) |
| `Colors.ColorParam` | server.js:813-819 | `'#' + c` exactly when `c` is six hex digits, `c` otherwise; the result is never six hex digits |
| `Colors.ColorParamIdempotent` | server.js:819 | applying `colorParam` twice is applying it once |
| `Params.GetLabel` | server.js:815-817 | the query label wins unless it is absent or empty, then the default label |
| `Params.Template` | server.js:825-829 | the template is the style whenever one is given, otherwise `default` |
| `Params.WrapLink` | server.js:830-836 | `link` becomes an array: `[]`, `[link]`, or the array as given |
| `Params.DataLogo` | server.js:838-840 | a given logo always ends up starting with `data:`: one that already did is kept, any other gets `data:` prepended; an absent logo stays absent |
| `Params.ColorOption` | server.js:842-847 | a given colour becomes `colorParam` of itself and is then never six bare hex digits; an absent colour stays absent |
| `Params.Normalised` | server.js:830-847 | `getBadgeData` rewrites only `link`, `logo`, `colorA`, `colorB`; `link` is always an array afterwards |
| `Params.NormaliseIdempotent` | server.js:830-847 | normalising an already normalised query changes nothing |
| `Params.BadgeDataStable` | server.js:824-859 | a second `getBadgeData` on the same query object builds the same badge |
| `Params.TemplateKeepsUnknownStyle` | server.js:826-829 | a style outside `validTemplates` is still used as the template |
| `Params.BadgeDataOf` | server.js:849-858 | the returned badge: subject from `getLabel`, status `n/a`, colour `lightgrey`, the template, and the normalised logo, links and colours |
| `Params.QueryData.constructor` | server.js:821-822 | the mutable `data` object holds exactly the parsed query's parameters |
| `Params.GetBadgeData` | server.js:824-859 | returns the default badge (label, `n/a`, `lightgrey`) and leaves `data` normalised in place |
| `CacheKey.JsonChar` | server.js:124 | `JSON.stringify` keeps ordinary characters; a quote, a backslash or a control character becomes an escape starting with `\`; the output holds no control character and every quote in it follows a backslash |
| `CacheKey.JsonString` | server.js:124 | a stringified link is a quoted literal |
| `CacheKey.CacheIndex` | server.js:122-125 | the index starts with the route match followed by `?label=`; the lemmas below give what it separates and what it does not |
| `CacheKey.IndexIgnoresMaxAge` | server.js:122-125 | requests that differ only in `maxAge` share a cache entry |
| `CacheKey.IndexSeparatesLabels` | server.js:122-125 | with all else equal, labels that print differently give different indexes |
| `CacheKey.IndexUndefinedLabelCollision` | server.js:122-125 | an absent label and the label `undefined` share an index although their badges differ |
| `CacheKey.IndexSeparatorInjection` | server.js:122-125 | unescaped parameters collide: a label containing `&style=` equals another style's index |
| `Staleness.TooSoon` | server.js:131 | `reqTime - cached.time < cached.interval` (definition; used by `Decide`) |
| `Staleness.LowChangeRatio` | server.js:132 | `dataChange / reqs <= 0.25`, as the integer test `4 × dataChange ≤ reqs` (definition; used by `Decide`) |
| `Staleness.DataChanged` | server.js:192-196 | an entry existed and its status text differs from the new badge's (definition; used by `UpdatedEntry`) |
| `Staleness.Decide` | server.js:127-138 | too soon: cached only; otherwise a ratio ≤ 0.25: cached, then the vendor; otherwise (or no entry) wait for the vendor |
| `Staleness.UpdatedEntry` | server.js:191-207 | `reqs + 1` (or 1), `dataChange` + 1 exactly when the status text changed (or 1), the request's start time and interval; keeps `1 ≤ reqs` and `dataChange ≤ reqs` |
| `Staleness.NewEntryAwaitsVendor` | server.js:131-132 | a new entry has ratio 1, so the next request that is not too soon waits for the vendor |
| `Staleness.LowRatioServesEarly` | server.js:82-91 | ten requests with one change, not too soon: cached badge first, vendor still called |
| `Staleness.ReplayCounts` | server.js:200-203 | over successive answers, `reqs` grows by one each and `dataChange` by the number of status changes |
| `Staleness.ReplayKeepsValid` | server.js:200-207 | the entry invariant survives any sequence of answers |
| `Staleness.StableDataLowersRatio` | server.js:82-91 | with an unchanging status, the cached badge goes first exactly when requests reach four times the changes |
| `Staleness.NewEntryServedEarlyAfterThreeRepeats` | server.js:129-137 | a new entry followed by three identical answers is served early next time |
| `Staleness.AlwaysChangingNeverServedEarly` | server.js:192-203 | if every answer changes the status, the ratio never drops to 0.25 |
| `Staleness.IntervalFromHeader` | server.js:174-181 | a response with a `max-age` sets the interval to that many seconds in milliseconds; one without it (or without the header) leaves the interval; the interval stays non-negative |
| `Staleness.MaxAgeDirective` | server.js:177-179 | a header starting with `max-age=N` sets the interval to `N × 1000` |
| `Staleness.MaxAgeAfterPrefix` | server.js:177-179 | `max-age=N` after other directives (any text without `=`, such as `public, `) still sets the interval to `N × 1000` |
| `Staleness.MaxAgeSeconds` | server.js:177 | the unanchored `/max-age=([0-9]+)/` match: the digits after the leftmost `max-age=` followed by a digit (no contract of its own; see `MaxAgeDirective`, `MaxAgeAfterPrefix`, `NoEqualsNoMaxAge`) |
| `Decimal.DigitsValue` | server.js:178 | `+age[1]` on a digit run (no contract of its own; `DecimalRoundTrip` states what it computes) |
| `Staleness.NoEqualsNoMaxAge` | server.js:177 | a header without `=` carries no `max-age` |
| `Staleness.ResponseCacheControl` | server.js:105-110 | `max-age=` the client's `maxAge` when it is all digits, otherwise `no-cache, no-store, must-revalidate` (no contract of its own; see `ResponseHeaderMaxAge`) |
| `Staleness.ResponseHeaderMaxAge` | server.js:105-110 | the client's all-digit `maxAge` goes into the response header as that many seconds; otherwise the header has no `max-age` |
| `VendorCache.LastSegment` | server.js:155 | `match[0].split('.').pop()` (no contract of its own; see `LastSegmentIsExtension`) |
| `VendorCache.LastSegmentIsExtension` | server.js:153-156 | the `unresponsive` badge format is the longest dot-free suffix of `match[0]` |
| `VendorCache.LastSegmentExamples` | server.js:155 | `/travis/x.svg` gives `svg`, `x.y.png` gives `png` |
| `VendorCache.Store.constructor` | server.js:94 | the request cache starts empty |
| `VendorCache.Store.Get` | server.js:127 | returns the stored entry for the key, if any |
| `VendorCache.Store.Set` | server.js:208 | stores the entry under the key and keeps every other entry |
| `VendorCache.Request.Start` | server.js:103-138 | sets the response header from `maxAge` and builds the index; too soon: one cached badge, no vendor call, no timer; early serve: one cached badge plus vendor and timer; otherwise nothing sent and vendor and timer started, with interval 5000 |
| `VendorCache.Request.VendorHeaders` | server.js:173-183 | the response's `max-age` sets this request's `cacheInterval`; nothing else changes |
| `VendorCache.Request.SendBadge` | server.js:187-211 | after the timeout: ignored, cache unchanged. Otherwise: timer cleared, entry updated from the arrival snapshot, badge sent only if the cached one was not |
| `VendorCache.Request.TimerFires` | server.js:141-158 | after a cached send: nothing. Otherwise: the entry stored now for the key, or an `unresponsive` badge with `no-cache` in the route's format. Later vendor answers are then ignored |
| `VendorCache.SettledRequestSentOnce` | server.js:141-158 | once the timer is no longer pending, exactly one badge has been sent |
| `RegularUpdate.Refresh` | server.js:908-928 | fresh: stored data, cache unchanged. Fetch error: cache unchanged. Scraper error: existing slot untouched, new URL gets `{0, 0}`. Success: slot `{now, data}`. Other URLs are never touched |
| `RegularUpdate.FreshNeedsNoFetch` | server.js:911-915 | a fresh slot is answered whatever the fetch or scraper would do |
| `RegularUpdate.RefreshedValueServedUntilInterval` | server.js:911-926 | after a successful refresh, calls before `interval` has passed get the same value without a fetch |
| `RegularUpdate.PlaceholderLeftBehind` | server.js:918-923 | a failed scrape of a new URL leaves the placeholder slot |
| `RegularUpdate.RegularUpdateCache.constructor` | server.js:904 | the memo starts empty |
| `RegularUpdate.RegularUpdateCache.RegularUpdate` | server.js:908-928 | the in-place update produces exactly the cache and callback value of `Refresh` |

## Left out

- `lib/lru-cache.js` is not part of this model. `requestCache` is an unbounded map, so capacity (1000) and least-recently-used eviction are not modelled.
- Real timers, the Node `domain` error trap and the `request` library are replaced by explicit sequential events. The clock is a parameter.
- Badge rendering (`badge`, `makeSend`, `sendSVG`, `sendJSON`, `sendOther`, `svg2img`, `streamFromString`): a response is recorded as format, badge data and `Cache-Control` header.
- The `Expires` and `Date` headers and the analytics counters of `cache()` are left out: they are clock formatting and I/O.
- The `cachedRequest` option normalisation (URI, `User-Agent`) is left out. Only its `max-age` reading is modelled.
- The server bootstrap, routes, 404 handlers, root redirect, `If-Modified-Since` handling, per-vendor handlers, `fetchFromSvg` and `escapeFormatSlashes` are left out: they are HTTP plumbing or vendor glue outside the cache core.
- `Staleness.LowChangeRatio` is the exact integer test `4 × dataChange ≤ reqs`. The floating-point quotient agrees with it for every request count below 2^51.
- `Staleness.IntervalFromHeader`: `+age[1]` is a double, so a digit run longer than 15 digits loses precision or becomes `Infinity`. The model keeps the exact integer.
- `Params.GetBadgeData`: the badge's `logoWidth` is the raw parameter, not the `+data.logoWidth` numeric coercion (which may be `NaN`).
- Query parameters other than `link` are single strings. A repeated `label` or `style` would be an array in the source and print comma-joined.
- `CacheKey.JsonChar`: Dafny characters are Unicode scalar values, so the lone surrogates that `JSON.stringify` escapes cannot occur.
- `VendorCache.Request.SendBadge` requires that `f` has not answered yet. The source relies on each vendor calling `sendBadge` at most once; a second call would send again.
- `RegularUpdate.Refresh` and `RegularUpdate.RefreshedValueServedUntilInterval` treat one `regularUpdate` call as a single atomic step. In the source the fetch is asynchronous: two overlapping calls for one URL can both find a stale slot and both fetch, and each callback writes the slot with its own call's start `timestamp`. A late callback of an older call can therefore overwrite a newer slot with an older timestamp and value, so the lemma holds only for calls that do not overlap.
- `VendorCache.Request.TimerFires`: the 25-second delay itself is not modelled. The timer may fire at any point while it is pending, which covers every order of timer and vendor answer.
- Concurrency between requests is sequential interleaving of their events over one shared `Store`. Each request keeps the entry it saw on arrival, as the source's closure does.
