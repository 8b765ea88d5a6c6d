/**
 * The ticker items of `lib/ticker-data.ts`: up to three items made from the current
 * specials, and one item announcing the next event of the calendar feed. The feed URL,
 * the fetch and the local calendar (which day a time falls on, and how the locale writes
 * dates and times) are parameters.
 */
module TickerData {
  import opened Wrappers
  import opened Text
  import Lists
  import opened SpecialsCsv
  import opened IcsParser
  import EventsCache

  /** One item of the ticker. */
  datatype TickerItem = TickerItem(id: string, text: string, emoji: string)

  /** The local calendar: today's day number, the day number a time falls on, and the
      `en-US` date (`Mon D`) and time (`h:mm AM`) texts of a time. */
  datatype LocalCalendar = LocalCalendar(
    today: int, dayOf: int -> int, dateText: int -> string, timeText: int -> string)

  /** At most this many specials reach the ticker. */
  const MaxSpecialItems := 3

  /** `parseICS(icsData, 30)`. */
  const TickerDaysAhead := 30

  const Placeholder := "YOUR_CALENDAR_ID"

  const Sparkles := "\U{2728}"
  const PartyPopper := "\U{1F389}"

  // ---------------------------------------------------------------------------
  // Specials

  /** `emojiMap[special.type] || '✨'`. */
  function EmojiFor(kind: string): (emoji: string)
    ensures kind !in SpecialTypes ==> emoji == Sparkles
  {
    if kind == "food" then "\U{1F37D}\U{FE0F}"
    else if kind == "drinks" then "\U{1F37B}"
    else if kind == "event" then "\U{1F3B8}"
    else if kind == "happyhour" then "\U{1F37A}"
    else Sparkles
  }

  /** A special's price when it is truthy. */
  predicate HasPrice(s: Special) {
    s.price.Some? && s.price.value != ""
  }

  /** The item for one special: its id prefixed with `special-`, its title with ` - price`
      appended when it has a price, and the emoji of its type. */
  function SpecialItem(s: Special): TickerItem {
    TickerItem("special-" + s.id, s.title + (if HasPrice(s) then " - " + s.price.value else ""), EmojiFor(s.kind))
  }

  /** `getSpecialsTickerItems`, given what `getSpecialsFromSheets` returned (`None` for
      `null`). */
  function GetSpecialsTickerItems(data: Option<SpecialsData>): seq<TickerItem> {
    if data.None? || |data.value.specials| == 0 then []
    else
      var specials := data.value.specials;
      Lists.Map(specials[..if |specials| < MaxSpecialItems then |specials| else MaxSpecialItems], SpecialItem)
  }

  /** No data and no specials give no items; otherwise the first three specials, in order,
      each turned into its item. */
  lemma {:induction false} SpecialsItems(data: Option<SpecialsData>)
    ensures var items := GetSpecialsTickerItems(data);
      && (data.None? ==> items == [])
      && (data.Some? ==>
            && |items| == (if |data.value.specials| < MaxSpecialItems then |data.value.specials| else MaxSpecialItems)
            && forall i :: 0 <= i < |items| ==> items[i] == SpecialItem(data.value.specials[i]))
  {
  }

  /** An item gives back the special's id, and its title and price. */
  lemma {:induction false} SpecialItemReadsBack(s: Special)
    ensures var item := SpecialItem(s);
      && IsPrefixOf("special-", item.id) && item.id[|"special-"|..] == s.id
      && IsPrefixOf(s.title, item.text)
      && (HasPrice(s) ==> item.text[|s.title|..] == " - " + s.price.value)
      && (!HasPrice(s) ==> item.text == s.title)
  {
    var item := SpecialItem(s);
    assert item.id == "special-" + s.id;
    if HasPrice(s) {
      assert item.text == s.title + (" - " + s.price.value);
    }
  }

  /** Every type `parseType` can produce has its own emoji, and only `other` shares the
      fallback's. */
  lemma {:induction false} EmojiByType(kind: string)
    requires kind in SpecialTypes
    ensures EmojiFor(kind) == Sparkles <==> kind == "other"
  {
  }

  // ---------------------------------------------------------------------------
  // The next calendar event

  /** `dateStr`: `Today`, `Tomorrow`, or the locale's short date. */
  function DateLabel(e: ParsedEvent, cal: LocalCalendar): string {
    var day := cal.dayOf(e.startMs);
    if day == cal.today then "Today"
    else if day == cal.today + 1 then "Tomorrow"
    else cal.dateText(e.startMs)
  }

  /** `timeStr`: the locale's time for an event that is not all-day, empty otherwise. */
  function TimeLabel(e: ParsedEvent, cal: LocalCalendar): string {
    if !e.isAllDay then cal.timeText(e.startMs) else ""
  }

  /** The item for the next event. */
  function EventItem(e: ParsedEvent, cal: LocalCalendar): TickerItem {
    var timeStr := TimeLabel(e, cal);
    TickerItem("event-" + e.id, e.title + " - " + DateLabel(e, cal) + (if timeStr != "" then " at " + timeStr else ""),
               PartyPopper)
  }

  /** The URL is set and is not the placeholder of the setup guide. */
  predicate Configured(icsUrl: Option<string>) {
    icsUrl.Some? && icsUrl.value != "" && !Contains(icsUrl.value, Placeholder)
  }

  /** The events of a fetch, when it succeeded and parsed: `None` for every path that
      returns `null` or throws into the `catch`. */
  function FetchedEvents(outcome: EventsCache.FetchOutcome, now: int): Option<seq<ParsedEvent>> {
    match outcome
    case NetworkError(_) => None
    case HttpResponse(ok, _, _, body) =>
      if !ok then None
      else
        match ParseSpec(body, TickerDaysAhead, now)
        case Err(_) => None
        case Ok(events) => Some(events)
  }

  /** `getNextCalendarEvent`. */
  function GetNextCalendarEvent(icsUrl: Option<string>, outcome: EventsCache.FetchOutcome, now: int,
                                cal: LocalCalendar): Option<TickerItem>
  {
    if !Configured(icsUrl) then None
    else
      match FetchedEvents(outcome, now)
      case None => None
      case Some(events) => if events == [] then None else Some(EventItem(events[0], cal))
  }

  /** There is an item exactly when the feed is configured, fetched, parsed and has an event
      in the next 30 days; it is then the item of the earliest such event. */
  lemma {:induction false} NextEventItem(icsUrl: Option<string>, outcome: EventsCache.FetchOutcome, now: int,
                                         cal: LocalCalendar)
    ensures var item := GetNextCalendarEvent(icsUrl, outcome, now, cal);
      && (item.Some? <==> Configured(icsUrl) && FetchedEvents(outcome, now).Some? && FetchedEvents(outcome, now).value != [])
      && (item.Some? ==>
            var events := FetchedEvents(outcome, now).value;
            && item.value == EventItem(events[0], cal)
            && forall e :: e in events ==> events[0].startMs <= e.startMs)
  {
    if outcome.HttpResponse? && outcome.ok && outcome.body.Calendar? {
      ParseIcsSorted(outcome.body.vevents, TickerDaysAhead, now);
      var events := ParseSpec(outcome.body, TickerDaysAhead, now).value;
      forall e | e in events ensures events[0].startMs <= e.startMs {
        var j :| 0 <= j < |events| && events[j] == e;
        if j > 0 {
          assert events[0].startMs <= events[j].startMs;
        }
      }
    }
  }

  /** A placeholder URL never reaches the network. */
  lemma {:induction false} PlaceholderSkipped(prefix: string, suffix: string, outcome: EventsCache.FetchOutcome,
                                              now: int, cal: LocalCalendar)
    ensures GetNextCalendarEvent(Some(prefix + Placeholder + suffix), outcome, now, cal).None?
  {
    var url := prefix + Placeholder + suffix;
    assert OccursAt(url, Placeholder, |prefix|) by {
      assert url[|prefix|..|prefix| + |Placeholder|] == Placeholder;
    }
  }

  /** The event item gives back the event's id, its title and day label, and names a time
      only for an event that is not all-day. */
  lemma {:induction false} EventItemReadsBack(e: ParsedEvent, cal: LocalCalendar)
    ensures var item := EventItem(e, cal);
      var head := e.title + " - " + DateLabel(e, cal);
      && IsPrefixOf("event-", item.id) && item.id[|"event-"|..] == e.id
      && IsPrefixOf(head, item.text)
      && (e.isAllDay ==> item.text == head)
      && (!e.isAllDay && cal.timeText(e.startMs) != "" ==> item.text[|head|..] == " at " + cal.timeText(e.startMs))
  {
    var item := EventItem(e, cal);
    var head := e.title + " - " + DateLabel(e, cal);
    assert item.id == "event-" + e.id;
    if !e.isAllDay && cal.timeText(e.startMs) != "" {
      assert item.text == head + (" at " + cal.timeText(e.startMs));
    }
  }
}
