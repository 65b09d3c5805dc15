/**
 * The `cache(f)` wrapper of server.js as a state machine. The shared
 * `requestCache` is a `Store`; each badge request is a `Request` whose
 * constructor is the request's arrival and whose methods are the events that
 * follow it: a response reaching `cachedRequest` (`VendorHeaders`), the vendor
 * calling `sendBadge` (`SendBadge`), and the 25-second timer (`TimerFires`).
 */
module VendorCache {
  import opened Wrappers
  import opened Params
  import opened CacheKey
  import opened Staleness

  /** A badge sent as the response, with the `Cache-Control` header in force. */
  datatype Sent = Sent(format: string, badge: BadgeData, cacheControl: string)

  /** `match[0].split('.').pop()`: the text after the last `.`, all of it when there is none. */
  function LastSegment(s: string): string
  {
    if s == [] then []
    else if s[|s| - 1] == '.' then []
    else LastSegment(s[..|s| - 1]) + [s[|s| - 1]]
  }

  /** The extension is the longest dot-free suffix of the route match: a suffix
      with no dot, preceded by a dot unless it is the whole match. */
  lemma {:induction false} LastSegmentIsExtension(s: string)
    ensures var r := LastSegment(s);
      && '.' !in r
      && |r| <= |s| && r == s[|s| - |r|..]
      && (|r| < |s| ==> s[|s| - |r| - 1] == '.')
  {
    if s != [] && s[|s| - 1] != '.' {
      var c := s[|s| - 1];
      var p := s[..|s| - 1];
      LastSegmentIsExtension(p);
      var r := LastSegment(p);
      assert LastSegment(s) == r + [c];
      assert '.' !in r + [c];
      assert s == p + [c];
      assert s[|s| - |r| - 1..] == p[|p| - |r|..] + [c];
      if |r| < |p| {
        assert s[|s| - |r| - 2] == p[|p| - |r| - 1];
      }
    }
  }

  /** The format of the `unresponsive` badge is the route's extension. */
  lemma LastSegmentExamples()
    ensures LastSegment("/travis/x.svg") == "svg"
    ensures LastSegment("x.y.png") == "png"
  {
    assert "/travis/x.svg"[..12] == "/travis/x.sv";
    assert "/travis/x.sv"[..11] == "/travis/x.s";
    assert "/travis/x.s"[..10] == "/travis/x.";
    assert "x.y.png"[..6] == "x.y.pn";
    assert "x.y.pn"[..5] == "x.y.p";
    assert "x.y.p"[..4] == "x.y.";
  }

  /** `requestCache`, as an unbounded map from cache index to entry. */
  class Store {
    var entries: map<string, Entry>

    ghost predicate Valid()
      reads this
    {
      forall k | k in entries :: EntryValid(entries[k])
    }

    constructor ()
      ensures entries == map[] && Valid()
    {
      entries := map[];
    }

    /** `requestCache.get(key)`. */
    method Get(key: string) returns (e: Option<Entry>)
      ensures e.Some? <==> key in entries
      ensures e.Some? ==> e.value == entries[key]
      ensures Valid() && e.Some? ==> EntryValid(e.value)
    {
      e := if key in entries then Some(entries[key]) else None;
    }

    /** `requestCache.set(key, e)`. */
    method Set(key: string, e: Entry)
      modifies this
      ensures entries == old(entries)[key := e]
      ensures old(Valid()) && EntryValid(e) ==> Valid()
    {
      entries := entries[key := e];
    }
  }

  /** One badge request handled by `getRequest`, with the variables of its closure. */
  class Request {
    const store: Store
    const data: QueryData
    const match0: string
    const reqTime: int
    /** `cacheIndex`. */
    const key: string
    /** `cached`: the entry found on arrival. */
    const cached: Option<Entry>
    /** Whether `f` was invoked (false exactly when the request was too soon). */
    const vendorCalled: bool

    /** The `Cache-Control` header of the response. */
    var cacheControl: string
    var cachedVersionSent: bool
    var serverUnresponsive: bool
    /** The timeout is set and neither fired nor cleared. */
    var timerPending: bool
    /** `f` was invoked and has not yet called `sendBadge`. */
    var vendorPending: bool
    var cacheInterval: int
    /** The responses sent so far. */
    var sent: seq<Sent>

    /** The single-response guard: at most one badge is sent, and until one is
        sent the timer is still pending, so one is always sent eventually. */
    ghost predicate Valid()
      reads this
    {
      && |sent| <= 1
      && (|sent| == 0 <==> !cachedVersionSent && !serverUnresponsive && (vendorPending || !vendorCalled))
      && (|sent| == 0 ==> timerPending)
      && (timerPending ==> vendorCalled && vendorPending && !serverUnresponsive)
      && (vendorPending ==> vendorCalled)
      && (cached.Some? ==> EntryValid(cached.value))
      && cacheInterval >= 0
    }

    /** The request arrives: set the response header, build the cache index, and
        send the cached badge, call the vendor, or both, as `Decide` says. */
    constructor Start(store: Store, data: QueryData, match0: string, now: int)
      requires store.Valid()
      ensures Valid()
      ensures this.store == store && this.data == data && this.match0 == match0 && reqTime == now
      ensures key == CacheIndex(match0, data.Snapshot())
      ensures cached == (if key in store.entries then Some(store.entries[key]) else None)
      ensures cacheControl == ResponseCacheControl(data.maxAge)
      ensures !serverUnresponsive && cacheInterval == DefaultInterval
      ensures Decide(cached, now) == AwaitVendor ==> sent == [] && !cachedVersionSent
      ensures Decide(cached, now) != AwaitVendor ==>
                cachedVersionSent && sent == [Sent(cached.value.data.format, cached.value.data.badge, cacheControl)]
      ensures vendorCalled <==> Decide(cached, now) != ServeCachedOnly
      ensures vendorPending == vendorCalled && timerPending == vendorCalled
    {
      var header := ResponseCacheControl(data.maxAge);
      var index := CacheIndex(match0, data.Snapshot());
      var found := store.Get(index);
      var sentCached := false;
      var out: seq<Sent> := [];
      var decision := Decide(found, now);
      if decision != AwaitVendor {
        out := [Sent(found.value.data.format, found.value.data.badge, header)];
        sentCached := true;
      }
      var callVendor := decision != ServeCachedOnly;
      this.store, this.data, this.match0, reqTime := store, data, match0, now;
      key, cached, vendorCalled := index, found, callVendor;
      cacheControl, cachedVersionSent, serverUnresponsive := header, sentCached, false;
      timerPending, vendorPending := callVendor, callVendor;
      cacheInterval := DefaultInterval;
      sent := out;
    }

    /** A response reaches `cachedRequest`: its `Cache-Control: max-age` sets `cacheInterval`. */
    method VendorHeaders(cacheControlHeader: Option<string>)
      requires Valid() && vendorCalled
      modifies this
      ensures Valid()
      ensures cacheInterval == IntervalFromHeader(old(cacheInterval), cacheControlHeader)
      ensures sent == old(sent) && cacheControl == old(cacheControl)
      ensures cachedVersionSent == old(cachedVersionSent) && serverUnresponsive == old(serverUnresponsive)
      ensures timerPending == old(timerPending) && vendorPending == old(vendorPending)
    {
      cacheInterval := IntervalFromHeader(cacheInterval, cacheControlHeader);
    }

    /** The vendor calls `sendBadge(format, badgeData)`: ignored after the timeout;
        otherwise the timer is cleared, the entry updated, and the badge sent unless
        the cached one already was. */
    method SendBadge(format: string, badge: BadgeData)
      requires Valid() && vendorPending && store.Valid()
      modifies this, store
      ensures Valid() && store.Valid() && !vendorPending
      ensures old(serverUnresponsive) ==>
                sent == old(sent) && store.entries == old(store.entries) && !timerPending
      ensures !old(serverUnresponsive) ==> !timerPending
      ensures !old(serverUnresponsive) ==>
                store.entries == old(store.entries)[key := UpdatedEntry(cached, reqTime, cacheInterval, format, badge)]
      ensures !old(serverUnresponsive) ==>
                sent == old(sent) + (if cachedVersionSent then [] else [Sent(format, badge, cacheControl)])
      ensures cacheControl == old(cacheControl) && cacheInterval == old(cacheInterval)
      ensures cachedVersionSent == old(cachedVersionSent) && serverUnresponsive == old(serverUnresponsive)
    {
      vendorPending := false;
      if serverUnresponsive {
        return;
      }
      timerPending := false;
      var updated := UpdatedEntry(cached, reqTime, cacheInterval, format, badge);
      store.Set(key, updated);
      if !cachedVersionSent {
        sent := sent + [Sent(format, badge, cacheControl)];
      }
    }

    /** The 25-second timer fires: nothing more if the cached badge was sent;
        otherwise the entry stored now for the key, or else an `unresponsive`
        vendor badge that must not be cached. */
    method TimerFires()
      requires Valid() && timerPending
      modifies this, data
      ensures Valid() && serverUnresponsive && !timerPending
      ensures old(cachedVersionSent) ==>
                sent == old(sent) && cacheControl == old(cacheControl) && unchanged(data)
      ensures !old(cachedVersionSent) && key in store.entries ==>
                && sent == [Sent(store.entries[key].data.format, store.entries[key].data.badge, old(cacheControl))]
                && cacheControl == old(cacheControl) && unchanged(data)
      ensures !old(cachedVersionSent) && key !in store.entries ==>
                && cacheControl == NoCacheHeader
                && data.Snapshot() == Normalised(old(data.Snapshot()))
                && sent == [Sent(LastSegment(match0),
                                 BadgeDataOf("vendor", old(data.Snapshot())).(status := "unresponsive"),
                                 NoCacheHeader)]
      ensures cachedVersionSent == old(cachedVersionSent) && vendorPending == old(vendorPending)
      ensures cacheInterval == old(cacheInterval)
    {
      serverUnresponsive := true;
      timerPending := false;
      if cachedVersionSent {
        return;
      }
      if key in store.entries {
        var current := store.entries[key].data;
        sent := sent + [Sent(current.format, current.badge, cacheControl)];
        return;
      }
      cacheControl := NoCacheHeader;
      var badge := GetBadgeData("vendor", data);
      badge := badge.(status := "unresponsive");
      var extension := LastSegment(match0);
      sent := sent + [Sent(extension, badge, cacheControl)];
    }
  }

  /** Once the timer is no longer pending, exactly one badge has been sent. */
  lemma SettledRequestSentOnce(r: Request)
    requires r.Valid() && !r.timerPending
    ensures |r.sent| == 1
  {
  }
}
