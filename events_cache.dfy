/**
 * The events endpoint of `app/api/events/route.ts`: the module-level `cachedData` holding
 * the last parsed feed and the time it was fetched, the freshness test against
 * `CACHE_TTL`, the stale fallback when a refresh fails, and the JSON the `GET` handler
 * returns. The clock readings, the `OAKS_EVENTS_ICS_URL` variable and the outcome of the
 * HTTP fetch are parameters of a request.
 */
module EventsCache {
  import opened Wrappers
  import opened Text
  import opened IcsParser

  /** `parseICS(icsData)` parses with its default horizon. */
  const DaysAhead := 90

  const MsPerMinute := 60 * 1000

  const NotConfigured := "OAKS_EVENTS_ICS_URL environment variable is not configured"

  /** What `fetch(icsUrl)` produced: a thrown network error, or a response with its status
      and the calendar its text decodes to. */
  datatype FetchOutcome =
    | NetworkError(message: string)
    | HttpResponse(ok: bool, status: nat, statusText: string, body: Feed)

  /** `cachedData` when it is not `null`. */
  datatype CacheEntry = CacheEntry(events: seq<ParsedEvent>, timestamp: int)

  /** The JSON body of `GET`: the events and whether the cache is fresh, or a 500 error. */
  datatype EventsResponse =
    | EventsOk(events: seq<ParsedEvent>, cached: bool)
    | EventsError(status: nat, error: string)

  /** `CACHE_TTL`: `parseInt(EVENTS_CACHE_TTL_MINUTES || '15', 10)` minutes in
      milliseconds; `None` is `NaN`, for a variable with no leading digits. */
  function CacheTtl(minutesVar: Option<string>): Option<int> {
    var text := if minutesVar.Some? && minutesVar.value != "" then minutesVar.value else "15";
    match ParseIntPrefix(text)
    case None => None
    case Some(minutes) => Some(minutes * MsPerMinute)
  }

  /** An unset or empty variable means 15 minutes; a number of minutes written out means
      that many minutes. */
  lemma {:induction false} CacheTtlMinutes(minutesVar: Option<string>, n: nat)
    ensures minutesVar.None? || minutesVar == Some("") ==> CacheTtl(minutesVar) == Some(15 * MsPerMinute)
    ensures CacheTtl(Some(NatToString(n))) == Some(n * MsPerMinute)
  {
    assert NatToString(15) == "15" by {
      assert NatToString(1) == [DigitChar(1)];
    }
    ParseIntOfNatToString(15);
    ParseIntOfNatToString(n);
  }

  /** `cachedData && now - cachedData.timestamp < CACHE_TTL`; every comparison with `NaN`
      is false. */
  predicate Fresh(cache: Option<CacheEntry>, ttl: Option<int>, now: int) {
    cache.Some? && ttl.Some? && now - cache.value.timestamp < ttl.value
  }

  /** The error thrown for a response that is not `ok`. */
  function HttpError(status: nat, statusText: string): string {
    "Failed to fetch ICS feed: " + NatToString(status) + " " + statusText
  }

  /** The fetch and parse inside the `try`: the parsed events, or the error thrown. */
  function Refresh(outcome: FetchOutcome, now: int): Result<seq<ParsedEvent>> {
    match outcome
    case NetworkError(message) => Err(message)
    case HttpResponse(ok, status, statusText, body) =>
      if !ok then Err(HttpError(status, statusText)) else ParseSpec(body, DaysAhead, now)
  }

  /** `fetchAndParseICS` as a function of the cache before the call: what it returns or
      throws, and the cache after it. */
  function FetchStep(cache: Option<CacheEntry>, ttl: Option<int>, now: int, icsUrl: Option<string>,
                     outcome: FetchOutcome): (Result<seq<ParsedEvent>>, Option<CacheEntry>)
  {
    if Fresh(cache, ttl, now) then (Ok(cache.value.events), cache)
    else if icsUrl.None? || icsUrl.value == "" then (Err(NotConfigured), cache)
    else
      match Refresh(outcome, now)
      case Ok(events) => (Ok(events), Some(CacheEntry(events, now)))
      case Err(message) => if cache.Some? then (Ok(cache.value.events), cache) else (Err(message), cache)
  }

  /** The event feed endpoint and its module-level cache. */
  class EventsEndpoint {
    var cachedData: Option<CacheEntry>
    const cacheTtl: Option<int>

    constructor (minutesVar: Option<string>)
      ensures cachedData == None && cacheTtl == CacheTtl(minutesVar)
    {
      cachedData := None;
      cacheTtl := CacheTtl(minutesVar);
    }

    /** `fetchAndParseICS`. `outcome` is what the fetch produces should one be made. */
    method FetchAndParseIcs(now: int, icsUrl: Option<string>, outcome: FetchOutcome)
      returns (r: Result<seq<ParsedEvent>>)
      modifies this
      ensures (r, cachedData) == FetchStep(old(cachedData), cacheTtl, now, icsUrl, outcome)
    {
      if cachedData.Some? && cacheTtl.Some? && now - cachedData.value.timestamp < cacheTtl.value {
        return Ok(cachedData.value.events);
      }
      if icsUrl.None? || icsUrl.value == "" {
        return Err(NotConfigured);
      }
      var fetched: Result<seq<ParsedEvent>>;
      match outcome {
        case NetworkError(message) =>
          fetched := Err(message);
        case HttpResponse(ok, status, statusText, body) =>
          if !ok {
            fetched := Err(HttpError(status, statusText));
          } else {
            fetched := ParseIcs(body, DaysAhead, now);
          }
      }
      if fetched.Ok? {
        var events := fetched.value;
        cachedData := Some(CacheEntry(events, now));
        return Ok(events);
      }
      if cachedData.Some? {
        return Ok(cachedData.value.events);
      }
      return Err(fetched.message);
    }

    /** `GET`. `later` is the second clock reading, taken for the `cached` flag after the
        events are in hand. */
    method Get(now: int, icsUrl: Option<string>, outcome: FetchOutcome, later: int)
      returns (response: EventsResponse)
      modifies this
      ensures var (r, cache) := FetchStep(old(cachedData), cacheTtl, now, icsUrl, outcome);
        && cachedData == cache
        && (r.Ok? ==> response == EventsOk(r.value, Fresh(cache, cacheTtl, later)))
        && (r.Err? ==> response == EventsError(500, r.message))
    {
      var events := FetchAndParseIcs(now, icsUrl, outcome);
      if events.Err? {
        return EventsError(500, events.message);
      }
      var cached := if cachedData.Some? then cacheTtl.Some? && later - cachedData.value.timestamp < cacheTtl.value
                    else false;
      response := EventsOk(events.value, cached);
    }
  }

  // ---------------------------------------------------------------------------
  // Properties of the cache policy

  /** A fresh cache is served as it is: the URL and the fetch play no part, and the cache
      does not change. */
  lemma {:induction false} FreshIsServed(cache: Option<CacheEntry>, ttl: Option<int>, now: int,
                                         icsUrl: Option<string>, outcome: FetchOutcome)
    requires Fresh(cache, ttl, now)
    ensures FetchStep(cache, ttl, now, icsUrl, outcome) == (Ok(cache.value.events), cache)
    ensures forall url, other :: FetchStep(cache, ttl, now, url, other) == FetchStep(cache, ttl, now, icsUrl, outcome)
  {
  }

  /** A refresh that fetches and parses replaces the cache with the new list, stamped with
      this call's time, and returns that list. */
  lemma {:induction false} RefreshReplacesCache(cache: Option<CacheEntry>, ttl: Option<int>, now: int,
                                                icsUrl: Option<string>, outcome: FetchOutcome)
    requires !Fresh(cache, ttl, now) && icsUrl.Some? && icsUrl.value != ""
    requires Refresh(outcome, now).Ok?
    ensures var events := Refresh(outcome, now).value;
      FetchStep(cache, ttl, now, icsUrl, outcome) == (Ok(events), Some(CacheEntry(events, now)))
  {
  }

  /** A failed refresh leaves the cache alone and answers with the stale list when there is
      one; only without a cache does the error reach the caller. */
  lemma {:induction false} FailureFallsBack(cache: Option<CacheEntry>, ttl: Option<int>, now: int,
                                            icsUrl: Option<string>, outcome: FetchOutcome)
    requires !Fresh(cache, ttl, now) && icsUrl.Some? && icsUrl.value != ""
    requires Refresh(outcome, now).Err?
    ensures FetchStep(cache, ttl, now, icsUrl, outcome).1 == cache
    ensures cache.Some? ==> FetchStep(cache, ttl, now, icsUrl, outcome).0 == Ok(cache.value.events)
    ensures cache.None? ==> FetchStep(cache, ttl, now, icsUrl, outcome).0 == Refresh(outcome, now)
  {
  }

  /** A missing feed URL is an error even with a stale cache at hand: the check comes before
      the `try` whose handler falls back. */
  lemma {:induction false} MissingUrlNoFallback(cache: Option<CacheEntry>, ttl: Option<int>, now: int,
                                                outcome: FetchOutcome)
    requires !Fresh(cache, ttl, now)
    ensures FetchStep(cache, ttl, now, None, outcome) == (Err(NotConfigured), cache)
    ensures FetchStep(cache, ttl, now, Some(""), outcome) == (Err(NotConfigured), cache)
  {
  }

  /** Whatever happens, the call answers with the cached list, with the list just fetched
      and now cached, or with an error; and the cache only ever changes to a list stamped
      with the call's time. */
  lemma {:induction false} StepOutcomes(cache: Option<CacheEntry>, ttl: Option<int>, now: int,
                                        icsUrl: Option<string>, outcome: FetchOutcome)
    ensures var (r, cache') := FetchStep(cache, ttl, now, icsUrl, outcome);
      && (cache' == cache || (cache'.Some? && cache'.value.timestamp == now))
      && (r.Ok? ==> (cache.Some? && r.value == cache.value.events) || (cache' == Some(CacheEntry(r.value, now))))
      && (r.Err? ==> cache' == cache)
  {
  }

  /** After a successful refresh at `now`, any call less than a TTL later is answered from
      the cache with the same list, whatever its fetch would have produced. */
  lemma {:induction false} CacheServesWithinTtl(cache: Option<CacheEntry>, ttl: Option<int>, now: int,
                                                icsUrl: Option<string>, outcome: FetchOutcome,
                                                later: int, url2: Option<string>, outcome2: FetchOutcome)
    requires ttl.Some? && now <= later < now + ttl.value
    requires !Fresh(cache, ttl, now) && icsUrl.Some? && icsUrl.value != "" && Refresh(outcome, now).Ok?
    ensures var (r, cache') := FetchStep(cache, ttl, now, icsUrl, outcome);
      FetchStep(cache', ttl, later, url2, outcome2) == (r, cache')
  {
  }

  /** With a TTL that is `NaN` or not positive nothing is ever fresh: every call goes to the
      feed. */
  lemma {:induction false} NoTtlNeverFresh(cache: Option<CacheEntry>, ttl: Option<int>, now: int)
    requires ttl.None? || (ttl.value <= 0 && cache.Some? && cache.value.timestamp <= now)
    ensures !Fresh(cache, ttl, now)
  {
  }
}
