/**
 * The staleness policy of server.js's `cache()` wrapper: cache entries, the
 * serve-or-fetch decision, the entry update on a vendor answer, and the refresh
 * interval read from the vendor's `Cache-Control` header.
 */
module Staleness {
  import opened Wrappers
  import opened Params
  import opened Decimal

  /** Refresh interval when the vendor gives no `max-age`, in milliseconds. */
  const DefaultInterval: int := 5000

  /** A rendered answer: the badge and the format it was asked in. */
  datatype Payload = Payload(format: string, badge: BadgeData)

  /** An element of `requestCache`. */
  datatype Entry = Entry(reqs: int, dataChange: int, time: int, interval: int, data: Payload)

  /** What every stored entry satisfies: at least one request, no more changes than
      requests, a non-negative interval. */
  predicate EntryValid(e: Entry)
  {
    1 <= e.reqs && 0 <= e.dataChange <= e.reqs && e.interval >= 0
  }

  /** `(+reqTime - cached.time) < cached.interval`. */
  predicate TooSoon(e: Entry, now: int)
  {
    now - e.time < e.interval
  }

  /** `cached.dataChange / cached.reqs <= freqRatioMax` with `freqRatioMax = 1 - 0.75`,
      in integers; a zero request count gives `NaN` or `Infinity`, which compare false. */
  predicate LowChangeRatio(e: Entry)
  {
    e.reqs > 0 && 4 * e.dataChange <= e.reqs
  }

  /** What a request does on arrival. */
  datatype Decision =
    | ServeCachedOnly          // send the cached badge; no vendor call, no timer
    | ServeCachedThenRefresh   // send the cached badge, then call the vendor to refresh
    | AwaitVendor              // send nothing yet; the vendor or the timeout answers

  function Decide(cached: Option<Entry>, now: int): (d: Decision)
    ensures d == ServeCachedOnly <==> cached.Some? && TooSoon(cached.value, now)
    ensures d == ServeCachedThenRefresh <==>
              cached.Some? && !TooSoon(cached.value, now) && LowChangeRatio(cached.value)
    ensures d == AwaitVendor <==>
              cached.None? || (!TooSoon(cached.value, now) && !LowChangeRatio(cached.value))
  {
    match cached
    case None => AwaitVendor
    case Some(e) =>
      if TooSoon(e, now) then ServeCachedOnly
      else if LowChangeRatio(e) then ServeCachedThenRefresh
      else AwaitVendor
  }

  /** `dataHasChanged`: the status text differs from the one cached when the request started. */
  predicate DataChanged(cached: Option<Entry>, badge: BadgeData)
  {
    cached.Some? && cached.value.data.badge.status != badge.status
  }

  /** `updatedCache`, built from the entry seen when the request started. */
  function UpdatedEntry(cached: Option<Entry>, reqTime: int, interval: int,
                        format: string, badge: BadgeData): (e: Entry)
    ensures e.time == reqTime && e.interval == interval && e.data == Payload(format, badge)
    ensures cached.None? ==> e.reqs == 1 && e.dataChange == 1
    ensures cached.Some? ==> e.reqs == cached.value.reqs + 1
    ensures cached.Some? ==>
              e.dataChange == cached.value.dataChange + (if DataChanged(cached, badge) then 1 else 0)
    ensures (cached.Some? ==> EntryValid(cached.value)) && interval >= 0 ==> EntryValid(e)
  {
    var changed := DataChanged(cached, badge);
    Entry(if cached.Some? then cached.value.reqs + 1 else 1,
          if cached.Some? then cached.value.dataChange + (if changed then 1 else 0) else 1,
          reqTime, interval, Payload(format, badge))
  }

  /** A newly created entry has change ratio 1, so the next request that is not too
      soon waits for the vendor. */
  lemma NewEntryAwaitsVendor(reqTime: int, interval: int, format: string, badge: BadgeData, now: int)
    requires now - reqTime >= interval
    ensures Decide(Some(UpdatedEntry(None, reqTime, interval, format, badge)), now) == AwaitVendor
  {
  }

  /** Ten requests with one change (ratio 0.1) and not too soon: the cached badge is
      sent at once and the vendor is still called. */
  lemma LowRatioServesEarly(e: Entry, now: int)
    requires e.reqs == 10 && e.dataChange == 1 && !TooSoon(e, now)
    ensures Decide(Some(e), now) == ServeCachedThenRefresh
  {
  }

  // ---- successive vendor answers for one key ----

  /** A vendor answer to one request: request start time, interval, and payload. */
  datatype Answer = Answer(reqTime: int, interval: int, data: Payload)

  /** The entry after requests that each reach the vendor, one after the other. */
  function Replay(e: Entry, answers: seq<Answer>): Entry
    decreases answers
  {
    if answers == [] then e
    else
      var a := answers[0];
      Replay(UpdatedEntry(Some(e), a.reqTime, a.interval, a.data.format, a.data.badge), answers[1..])
  }

  /** How many answers carry a status different from the one before them. */
  function Changes(status: string, answers: seq<Answer>): (n: nat)
    ensures n <= |answers|
    decreases answers
  {
    if answers == [] then 0
    else (if answers[0].data.badge.status != status then 1 else 0)
         + Changes(answers[0].data.badge.status, answers[1..])
  }

  /** Each answer adds one request, and one change exactly when its status differs
      from the previous answer's. */
  lemma {:induction false} ReplayCounts(e: Entry, answers: seq<Answer>)
    ensures Replay(e, answers).reqs == e.reqs + |answers|
    ensures Replay(e, answers).dataChange == e.dataChange + Changes(e.data.badge.status, answers)
    decreases answers
  {
    if answers != [] {
      var a := answers[0];
      var e' := UpdatedEntry(Some(e), a.reqTime, a.interval, a.data.format, a.data.badge);
      ReplayCounts(e', answers[1..]);
    }
  }

  predicate AllIntervalsValid(answers: seq<Answer>)
  {
    forall i | 0 <= i < |answers| :: answers[i].interval >= 0
  }

  /** The entry invariant survives any number of answers. */
  lemma {:induction false} ReplayKeepsValid(e: Entry, answers: seq<Answer>)
    requires EntryValid(e) && AllIntervalsValid(answers)
    ensures EntryValid(Replay(e, answers))
    decreases answers
  {
    if answers != [] {
      var a := answers[0];
      var e' := UpdatedEntry(Some(e), a.reqTime, a.interval, a.data.format, a.data.badge);
      assert answers[0].interval >= 0;
      assert AllIntervalsValid(answers[1..]) by {
        forall i | 0 <= i < |answers[1..]| ensures answers[1..][i].interval >= 0 {
          assert answers[1..][i] == answers[i + 1];
        }
      }
      ReplayKeepsValid(e', answers[1..]);
    }
  }

  /** When the vendor keeps answering the cached status, the cached badge is served
      before the vendor exactly once the request count reaches four times the change count. */
  lemma StableDataLowersRatio(e: Entry, answers: seq<Answer>)
    requires forall i | 0 <= i < |answers| :: answers[i].data.badge.status == e.data.badge.status
    ensures LowChangeRatio(Replay(e, answers)) <==> e.reqs + |answers| > 0 && 4 * e.dataChange <= e.reqs + |answers|
  {
    ReplayCounts(e, answers);
    StableHasNoChanges(e.data.badge.status, answers);
  }

  lemma {:induction false} StableHasNoChanges(status: string, answers: seq<Answer>)
    requires forall i | 0 <= i < |answers| :: answers[i].data.badge.status == status
    ensures Changes(status, answers) == 0
  {
    if answers != [] {
      assert answers[0].data.badge.status == status;
      forall i | 0 <= i < |answers[1..]| ensures answers[1..][i].data.badge.status == status {
        assert answers[1..][i] == answers[i + 1];
      }
      StableHasNoChanges(status, answers[1..]);
    }
  }

  /** A new entry whose next three answers repeat its status is served early on the
      following request (4 requests, 1 change). */
  lemma NewEntryServedEarlyAfterThreeRepeats(first: Answer, answers: seq<Answer>, now: int)
    requires |answers| == 3
    requires forall i | 0 <= i < 3 :: answers[i].data.badge.status == first.data.badge.status
    requires !TooSoon(Replay(UpdatedEntry(None, first.reqTime, first.interval, first.data.format, first.data.badge), answers), now)
    ensures Decide(Some(Replay(UpdatedEntry(None, first.reqTime, first.interval, first.data.format, first.data.badge), answers)), now)
            == ServeCachedThenRefresh
  {
    var e := UpdatedEntry(None, first.reqTime, first.interval, first.data.format, first.data.badge);
    StableDataLowersRatio(e, answers);
  }

  /** Every answer carries a status different from the one before it. */
  predicate EachChanges(status: string, answers: seq<Answer>)
    decreases answers
  {
    answers == [] ||
    (answers[0].data.badge.status != status && EachChanges(answers[0].data.badge.status, answers[1..]))
  }

  /** When every answer changes the status, a new entry never reaches a low change
      ratio: each request not too soon waits for the vendor. */
  lemma AlwaysChangingNeverServedEarly(first: Answer, answers: seq<Answer>)
    requires EachChanges(first.data.badge.status, answers)
    ensures !LowChangeRatio(Replay(UpdatedEntry(None, first.reqTime, first.interval, first.data.format, first.data.badge), answers))
  {
    var e := UpdatedEntry(None, first.reqTime, first.interval, first.data.format, first.data.badge);
    ReplayCounts(e, answers);
    AllChange(first.data.badge.status, answers);
  }

  lemma {:induction false} AllChange(status: string, answers: seq<Answer>)
    requires EachChanges(status, answers)
    ensures Changes(status, answers) == |answers|
    decreases answers
  {
    if answers != [] {
      AllChange(answers[0].data.badge.status, answers[1..]);
    }
  }

  // ---- the refresh interval from the vendor's Cache-Control header ----

  /** `cacheControl.match(/max-age=([0-9]+)/)`: the digits after the leftmost
      `max-age=` that is followed by a digit. */
  function MaxAgeSeconds(h: string): Option<nat>
    decreases |h|
  {
    if |h| < 9 then None
    else if h[..8] == "max-age=" && IsDigit(h[8]) then Some(DigitsValue(LeadingDigits(h[8..])))
    else MaxAgeSeconds(h[1..])
  }

  /** `cacheInterval` after one vendor response: `max-age` seconds in milliseconds,
      otherwise unchanged (a response without headers changes nothing). */
  function IntervalFromHeader(current: int, cacheControl: Option<string>): (r: int)
    ensures current >= 0 ==> r >= 0
    ensures cacheControl.None? || MaxAgeSeconds(cacheControl.value).None? ==> r == current
    ensures cacheControl.Some? && MaxAgeSeconds(cacheControl.value).Some? ==>
              r == MaxAgeSeconds(cacheControl.value).value * 1000
  {
    match cacheControl
    case None => current
    case Some(h) =>
      match MaxAgeSeconds(h)
      case Some(n) => n * 1000
      case None => current
  }

  /** A `max-age=N` directive sets the interval to N seconds. */
  lemma MaxAgeDirective(n: nat, rest: string, current: int)
    requires rest == [] || !IsDigit(rest[0])
    ensures MaxAgeSeconds("max-age=" + DecimalString(n) + rest) == Some(n)
    ensures IntervalFromHeader(current, Some("max-age=" + DecimalString(n) + rest)) == n * 1000
  {
    var d := DecimalString(n);
    var name := "max-age=";
    var tail := d + rest;
    var h := name + d + rest;
    assert h == name + tail;
    assert |name| == 8 && |h| >= 9;
    assert h[..8] == name;
    assert h[8..] == tail;
    assert h[8] == tail[0] == d[0];
    LeadingDigitsOf(d, rest);
    DecimalRoundTrip(n);
    assert MaxAgeSeconds(h) == Some(DigitsValue(LeadingDigits(tail)));
  }

  /** The directive need not come first: after any text without `=` (such as
      `public, `), `max-age=N` still gives N seconds. */
  lemma {:induction false} MaxAgeAfterPrefix(p: string, n: nat, rest: string, current: int)
    requires '=' !in p
    requires rest == [] || !IsDigit(rest[0])
    ensures MaxAgeSeconds(p + "max-age=" + DecimalString(n) + rest) == Some(n)
    ensures IntervalFromHeader(current, Some(p + "max-age=" + DecimalString(n) + rest)) == n * 1000
  {
    var tail := "max-age=" + DecimalString(n) + rest;
    assert p + "max-age=" + DecimalString(n) + rest == p + tail;
    if p == [] {
      assert p + tail == tail;
      MaxAgeDirective(n, rest, current);
    } else {
      var h := p + tail;
      assert |h| >= 9;
      assert h[..8] != "max-age=" by {
        if |p| >= 8 {
          assert h[7] == p[7] && p[7] in p;
        } else {
          assert tail[..8] == "max-age=";
          assert h[7] == tail[7 - |p|] == "max-age="[7 - |p|] != '=';
        }
      }
      assert p == [p[0]] + p[1..];
      assert h == [p[0]] + (p[1..] + tail);
      assert h[1..] == p[1..] + tail;
      assert '=' !in p[1..] by {
        forall k | 0 <= k < |p| - 1 ensures p[1..][k] != '=' {
          assert p[1..][k] == p[k + 1] && p[k + 1] in p;
        }
      }
      MaxAgeAfterPrefix(p[1..], n, rest, current);
      assert p[1..] + "max-age=" + DecimalString(n) + rest == p[1..] + tail;
    }
  }

  /** A header without `=` carries no `max-age`. */
  lemma {:induction false} NoEqualsNoMaxAge(h: string)
    requires '=' !in h
    ensures MaxAgeSeconds(h) == None
  {
    if |h| >= 9 {
      assert h[..8] != "max-age=" by { assert h[7] in h; }
      assert '=' !in h[1..] by {
        forall k | 0 <= k < |h| - 1 ensures h[1..][k] != '=' { assert h[1..][k] == h[k + 1]; }
      }
      NoEqualsNoMaxAge(h[1..]);
    }
  }

  /** The header the server itself sends for an uncached badge. */
  const NoCacheHeader: string := "no-cache, no-store, must-revalidate"

  /** The `Cache-Control` header `cache()` sets on arrival: `max-age=` the client's
      `maxAge` when it is all digits, otherwise no caching. */
  function ResponseCacheControl(maxAge: Option<string>): string
  {
    if maxAge.Some? && maxAge.value != [] && AllDigits(maxAge.value) then "max-age=" + maxAge.value
    else NoCacheHeader
  }

  /** The client's `maxAge` only decides the response header: read back as a
      `Cache-Control` header it gives that many seconds, and without it the header
      carries no `max-age` at all. */
  lemma ResponseHeaderMaxAge(maxAge: Option<string>)
    ensures maxAge.Some? && maxAge.value != [] && AllDigits(maxAge.value) ==>
              MaxAgeSeconds(ResponseCacheControl(maxAge)) == Some(DigitsValue(maxAge.value))
    ensures !(maxAge.Some? && maxAge.value != [] && AllDigits(maxAge.value)) ==>
              MaxAgeSeconds(ResponseCacheControl(maxAge)) == None
  {
    if maxAge.Some? && maxAge.value != [] && AllDigits(maxAge.value) {
      var d := maxAge.value;
      var h := "max-age=" + d;
      assert h[..8] == "max-age=" && h[8] == d[0];
      assert h[8..] == d + [];
      LeadingDigitsOf(d, []);
    } else {
      assert '=' !in NoCacheHeader;
      NoEqualsNoMaxAge(NoCacheHeader);
    }
  }
}
