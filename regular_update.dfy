/**
 * `regularUpdate(url, interval, scraper, cb)` of server.js: a memoiser that
 * keeps one `{timestamp, data}` slot per URL and fetches again only once
 * `interval` milliseconds have passed. The clock reading, the HTTP response and
 * the scraper are inputs: `now`, `fetched` and `scraper`.
 */
module RegularUpdate {
  import opened Wrappers

  /** `regularUpdateCache[url].data`: the placeholder `0` or a value the scraper returned. */
  datatype Datum<T> = Placeholder | Scraped(value: T)

  /** `regularUpdateCache[url]`. */
  datatype Slot<T> = Slot(timestamp: int, data: Datum<T>)

  /** What one call leaves behind: the new cache and the value passed to `cb`. */
  datatype Outcome<T> = Outcome(entries: map<string, Slot<T>>, result: Result<Datum<T>>)

  predicate Fresh<T>(entries: map<string, Slot<T>>, url: string, now: int, interval: int)
  {
    url in entries && now - entries[url].timestamp < interval
  }

  /** One call of `regularUpdate`, from the cache it finds to the cache it leaves. */
  function Refresh<T>(entries: map<string, Slot<T>>, url: string, interval: int, now: int,
                      fetched: Result<string>, scraper: string -> Result<T>): (o: Outcome<T>)
    ensures forall k | k != url :: (k in o.entries <==> k in entries)
    ensures forall k | k != url && k in entries :: o.entries[k] == entries[k]
    ensures url in entries ==> url in o.entries
    ensures Fresh(entries, url, now, interval) ==> o == Outcome(entries, Ok(entries[url].data))
    ensures !Fresh(entries, url, now, interval) && fetched.Err? ==>
              o == Outcome(entries, Err(fetched.error))
    ensures !Fresh(entries, url, now, interval) && fetched.Ok? && scraper(fetched.value).Err? ==>
              o.result == Err(scraper(fetched.value).error)
              && o.entries == (if url in entries then entries else entries[url := Slot(0, Placeholder)])
    ensures !Fresh(entries, url, now, interval) && fetched.Ok? && scraper(fetched.value).Ok? ==>
              var v := Scraped(scraper(fetched.value).value);
              o == Outcome(entries[url := Slot(now, v)], Ok(v))
  {
    if Fresh(entries, url, now, interval) then Outcome(entries, Ok(entries[url].data))
    else
      match fetched
      case Err(e) => Outcome(entries, Err(e))
      case Ok(buffer) =>
        var placed := if url in entries then entries else entries[url := Slot(0, Placeholder)];
        match scraper(buffer)
        case Err(e) => Outcome(placed, Err(e))
        case Ok(data) => Outcome(placed[url := Slot(now, Scraped(data))], Ok(Scraped(data)))
  }

  /** A fresh slot is answered without looking at the fetch or the scraper. */
  lemma FreshNeedsNoFetch<T>(entries: map<string, Slot<T>>, url: string, interval: int, now: int,
                             f1: Result<string>, s1: string -> Result<T>,
                             f2: Result<string>, s2: string -> Result<T>)
    requires Fresh(entries, url, now, interval)
    ensures Refresh(entries, url, interval, now, f1, s1) == Refresh(entries, url, interval, now, f2, s2)
  {
  }

  /** After a successful refresh at `t`, every call before `t + interval` gets the
      same value back without a fetch. */
  lemma RefreshedValueServedUntilInterval<T>(entries: map<string, Slot<T>>, url: string, interval: int,
                                             t: int, fetched: Result<string>, scraper: string -> Result<T>,
                                             later: int, f: Result<string>, s: string -> Result<T>)
    requires !Fresh(entries, url, t, interval)
    requires fetched.Ok? && scraper(fetched.value).Ok?
    requires later < t + interval
    ensures var first := Refresh(entries, url, interval, t, fetched, scraper);
            Refresh(first.entries, url, interval, later, f, s) == Outcome(first.entries, first.result)
  {
  }

  /** A failed scrape of a new URL leaves the `{timestamp: 0, data: 0}` placeholder,
      which a later call within `interval` of time 0 returns as the data. */
  lemma PlaceholderLeftBehind<T>(entries: map<string, Slot<T>>, url: string, interval: int, now: int,
                                 buffer: string, scraper: string -> Result<T>)
    requires url !in entries && scraper(buffer).Err?
    ensures Refresh(entries, url, interval, now, Ok(buffer), scraper).entries[url] == Slot(0, Placeholder)
  {
  }

  /** `regularUpdateCache` and `regularUpdate`. */
  class RegularUpdateCache<T> {
    var entries: map<string, Slot<T>>

    constructor ()
      ensures entries == map[]
    {
      entries := map[];
    }

    /** `regularUpdate(url, interval, scraper, cb)`; `r` is what `cb` receives. */
    method RegularUpdate(url: string, interval: int, now: int,
                         fetched: Result<string>, scraper: string -> Result<T>)
      returns (r: Result<Datum<T>>)
      modifies this
      ensures Outcome(entries, r) == Refresh(old(entries), url, interval, now, fetched, scraper)
    {
      if url in entries && now - entries[url].timestamp < interval {
        return Ok(entries[url].data);
      }
      if fetched.Err? {
        return Err(fetched.error);
      }
      if url !in entries {
        entries := entries[url := Slot(0, Placeholder)];
      }
      var scraped := scraper(fetched.value);
      if scraped.Err? {
        return Err(scraped.error);
      }
      entries := entries[url := entries[url].(timestamp := now)];
      entries := entries[url := entries[url].(data := Scraped(scraped.value))];
      r := Ok(Scraped(scraped.value));
    }
  }
}
