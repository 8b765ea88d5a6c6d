/**
 * The calendar feed expander of `lib/ics-parser.ts`.
 *
 * The iCalendar library is abstracted away: a feed is either malformed or a list of
 * VEVENT records, each carrying the values the expander reads from the library
 * (UID, STATUS, RECURRENCE-ID, the type of the DTSTART value, SUMMARY, DESCRIPTION,
 * LOCATION, start and end instants, the duration, whether it recurs) and, for a
 * recurring event, the sequence of occurrences its iterator would yield, each as a
 * start instant in milliseconds and the string form of its recurrence identifier.
 * The current time `now` is a parameter in milliseconds.
 */
module IcsParser {
  import opened Wrappers
  import Lists

  /** Safety bound on the occurrences examined per series. */
  const MaxIterations: nat := 1000
  const MsPerDay: int := 24 * 60 * 60 * 1000
  const ParseFailure: string := "Failed to parse ICS data"
  const Cancelled: string := "CANCELLED"

  /** The type of a VEVENT's DTSTART value; `Unreadable` stands for the library throwing
      while the value is inspected. */
  datatype StartKind = DateValue | DateTimeValue | Unreadable

  /** One value yielded by a series' occurrence iterator. */
  datatype Occurrence = Occurrence(startMs: int, recurrenceId: string)

  datatype VEvent = VEvent(
    uid: string,
    status: Option<string>,
    recurrenceId: Option<string>,
    startKind: StartKind,
    summary: Option<string>,
    description: Option<string>,
    location: Option<string>,
    startMs: int,
    endMs: int,
    durationSeconds: int,
    isRecurring: bool,
    occurrences: seq<Occurrence>)

  datatype Feed = Malformed | Calendar(vevents: seq<VEvent>)

  datatype ParsedEvent = ParsedEvent(
    id: string,
    title: string,
    description: string,
    startMs: int,
    endMs: int,
    isAllDay: bool,
    location: Option<string>,
    isRecurring: bool)

  // ---------------------------------------------------------------------------
  // Fields of an emitted event

  predicate IsCancelled(v: VEvent) {
    v.status == Some(Cancelled)
  }

  /** `isAllDayEvent`: the start value is a DATE; a failing inspection counts as not all-day. */
  function IsAllDay(v: VEvent): (b: bool)
    ensures b <==> v.startKind == DateValue
  {
    match v.startKind
    case DateValue => true
    case DateTimeValue => false
    case Unreadable => false
  }

  /** `s || fallback` for an optional string: absent and empty both fall back. */
  function OrElse(s: Option<string>, fallback: string): string {
    if s.Some? && s.value != "" then s.value else fallback
  }

  function Title(v: VEvent): string {
    OrElse(v.summary, "Untitled Event")
  }

  function Location(v: VEvent): Option<string> {
    if v.location.Some? && v.location.value != "" then v.location else None
  }

  /** The record emitted for a non-recurring VEVENT. */
  function Single(v: VEvent): ParsedEvent {
    ParsedEvent(v.uid, Title(v), OrElse(v.description, ""), v.startMs, v.endMs,
                IsAllDay(v), Location(v), false)
  }

  /** The record emitted for one occurrence of a recurring VEVENT. */
  function Instance(v: VEvent, o: Occurrence): ParsedEvent {
    ParsedEvent(v.uid + "-" + o.recurrenceId, Title(v), OrElse(v.description, ""),
                o.startMs, o.startMs + v.durationSeconds * 1000,
                IsAllDay(v), Location(v), true)
  }

  // ---------------------------------------------------------------------------
  // Specification of the two passes

  /** `v` is a cancelled override of occurrence `rid` of series `uid`. */
  predicate IsCancelledOverride(v: VEvent, uid: string, rid: string) {
    IsCancelled(v) && v.uid == uid && v.recurrenceId == Some(rid)
  }

  /** The set the first pass records for `uid`. */
  function CancelledIds(vs: seq<VEvent>, uid: string): set<string> {
    if vs == [] then {}
    else
      var v := vs[|vs| - 1];
      CancelledIds(vs[..|vs| - 1], uid)
        + (if IsCancelled(v) && v.uid == uid && v.recurrenceId.Some? then {v.recurrenceId.value} else {})
  }

  /** What one occurrence contributes: nothing before `now` or when it is cancelled. */
  function OccurrenceOutput(v: VEvent, cancelled: set<string>, now: int, o: Occurrence): seq<ParsedEvent> {
    if o.startMs >= now && o.recurrenceId !in cancelled then [Instance(v, o)] else []
  }

  /** The occurrences of a series from iterator position `k` on, as the while loop emits
      them: it stops at the first occurrence past `endRange` or after `MaxIterations`
      occurrences, and skips occurrences before `now` and cancelled ones. */
  function ExpandFrom(v: VEvent, cancelled: set<string>, now: int, endRange: int, k: nat): seq<ParsedEvent>
    decreases MaxIterations - k
  {
    if k >= |v.occurrences| || k >= MaxIterations then []
    else if v.occurrences[k].startMs > endRange then []
    else OccurrenceOutput(v, cancelled, now, v.occurrences[k]) + ExpandFrom(v, cancelled, now, endRange, k + 1)
  }

  /** What the first `k` occurrences contribute when none of them is past the range. */
  function ExpandPrefix(v: VEvent, cancelled: set<string>, now: int, k: nat): seq<ParsedEvent>
    requires k <= |v.occurrences|
  {
    if k == 0 then []
    else ExpandPrefix(v, cancelled, now, k - 1) + OccurrenceOutput(v, cancelled, now, v.occurrences[k - 1])
  }

  lemma {:induction false} ExpandFromSplit(v: VEvent, cancelled: set<string>, now: int, endRange: int, k: nat)
    requires k <= |v.occurrences| && k <= MaxIterations
    requires forall j :: 0 <= j < k ==> v.occurrences[j].startMs <= endRange
    ensures ExpandFrom(v, cancelled, now, endRange, 0)
            == ExpandPrefix(v, cancelled, now, k) + ExpandFrom(v, cancelled, now, endRange, k)
  {
    if k == 0 {
      assert ExpandPrefix(v, cancelled, now, 0) == [];
    } else {
      ExpandFromSplit(v, cancelled, now, endRange, k - 1);
      var p := ExpandPrefix(v, cancelled, now, k - 1);
      var e := OccurrenceOutput(v, cancelled, now, v.occurrences[k - 1]);
      var rest := ExpandFrom(v, cancelled, now, endRange, k);
      assert ExpandFrom(v, cancelled, now, endRange, k - 1) == e + rest;
      assert p + (e + rest) == (p + e) + rest;
    }
  }

  /** What the second pass emits for one VEVENT. */
  function EventOutput(v: VEvent, cancelled: set<string>, now: int, endRange: int): seq<ParsedEvent> {
    if IsCancelled(v) then []
    else if v.isRecurring then ExpandFrom(v, cancelled, now, endRange, 0)
    else if now <= v.startMs <= endRange then [Single(v)]
    else []
  }

  /** What VEVENT `i` of the feed contributes in the second pass. */
  function Contribution(vs: seq<VEvent>, i: nat, now: int, endRange: int): seq<ParsedEvent>
    requires i < |vs|
  {
    EventOutput(vs[i], CancelledIds(vs, vs[i].uid), now, endRange)
  }

  /** What the second pass has emitted after the first `n` VEVENTs of `vs`. */
  function Collected(vs: seq<VEvent>, n: nat, now: int, endRange: int): seq<ParsedEvent>
    requires n <= |vs|
  {
    if n == 0 then []
    else Collected(vs, n - 1, now, endRange) + Contribution(vs, n - 1, now, endRange)
  }

  /** The comparator `(a, b) => a.startDate - b.startDate`. */
  function StartsNoLater(a: ParsedEvent, b: ParsedEvent): bool {
    a.startMs <= b.startMs
  }

  function EndRange(now: int, daysAhead: int): int {
    now + daysAhead * MsPerDay
  }

  /** The value `parseICS(feed, daysAhead)` returns, or the error it throws. */
  function ParseSpec(feed: Feed, daysAhead: int, now: int): Result<seq<ParsedEvent>> {
    match feed
    case Malformed => Err(ParseFailure)
    case Calendar(vs) =>
      Ok(Lists.SortBy(Collected(vs, |vs|, now, EndRange(now, daysAhead)), StartsNoLater))
  }

  // ---------------------------------------------------------------------------
  // The implementation: two passes over the VEVENTs, then an in-order sort

  /** `map.get(uid)` on the first pass's map, with a missing key read as no cancellation. */
  function Lookup(m: map<string, set<string>>, uid: string): set<string> {
    if uid in m then m[uid] else {}
  }

  /** First pass: the cancelled RECURRENCE-IDs of every UID. */
  method CollectCancelled(vevents: seq<VEvent>) returns (cancelledInstances: map<string, set<string>>)
    ensures forall uid :: Lookup(cancelledInstances, uid) == CancelledIds(vevents, uid)
  {
    cancelledInstances := map[];
    for i := 0 to |vevents|
      invariant forall uid :: Lookup(cancelledInstances, uid) == CancelledIds(vevents[..i], uid)
    {
      assert vevents[..i + 1][..i] == vevents[..i];
      var v := vevents[i];
      if v.status == Some(Cancelled) && v.recurrenceId.Some? {
        var recurrenceIdStr := v.recurrenceId.value;
        if v.uid !in cancelledInstances {
          cancelledInstances := cancelledInstances[v.uid := {}];
        }
        cancelledInstances := cancelledInstances[v.uid := cancelledInstances[v.uid] + {recurrenceIdStr}];
      }
    }
    assert vevents[..|vevents|] == vevents;
  }

  /** The while loop of the second pass over one recurring VEVENT. */
  method ExpandSeries(v: VEvent, cancelledInstances: map<string, set<string>>, now: int, endRange: int)
    returns (emitted: seq<ParsedEvent>)
    ensures emitted == ExpandFrom(v, Lookup(cancelledInstances, v.uid), now, endRange, 0)
  {
    ghost var cancelled := Lookup(cancelledInstances, v.uid);
    ghost var stopped := false;
    emitted := [];
    var k := 0;
    var count := 0;
    while k < |v.occurrences| && count < MaxIterations
      invariant count == k <= |v.occurrences| && k <= MaxIterations
      invariant !stopped
      invariant forall j :: 0 <= j < k ==> v.occurrences[j].startMs <= endRange
      invariant emitted == ExpandPrefix(v, cancelled, now, k)
    {
      var next := v.occurrences[k];
      k := k + 1;
      if next.startMs > endRange {
        ExpandFromSplit(v, cancelled, now, endRange, k - 1);
        assert emitted + [] == emitted;
        stopped := true;
        break;
      }
      if next.startMs >= now {
        var recurrenceIdStr := next.recurrenceId;
        if v.uid in cancelledInstances && recurrenceIdStr in cancelledInstances[v.uid] {
          assert emitted + [] == emitted;
          count := count + 1;
          continue;
        }
        var occurrenceEnd := next.startMs + v.durationSeconds * 1000;
        emitted := emitted + [ParsedEvent(v.uid + "-" + next.recurrenceId, OrElse(v.summary, "Untitled Event"),
                                          OrElse(v.description, ""), next.startMs, occurrenceEnd,
                                          IsAllDay(v), Location(v), true)];
      } else {
        assert emitted + [] == emitted;
      }
      count := count + 1;
    }
    if !stopped {
      ExpandFromSplit(v, cancelled, now, endRange, k);
      assert emitted + [] == emitted;
    }
  }

  /** One step of the second pass, with the first pass's map in place of its specification. */
  lemma CollectedStep(vs: seq<VEvent>, i: nat, now: int, endRange: int, m: map<string, set<string>>)
    requires i < |vs|
    requires forall uid :: Lookup(m, uid) == CancelledIds(vs, uid)
    ensures Collected(vs, i + 1, now, endRange)
            == Collected(vs, i, now, endRange)
               + if IsCancelled(vs[i]) then []
                 else if vs[i].isRecurring then ExpandFrom(vs[i], Lookup(m, vs[i].uid), now, endRange, 0)
                 else if now <= vs[i].startMs <= endRange then [Single(vs[i])]
                 else []
  {
    assert Lookup(m, vs[i].uid) == CancelledIds(vs, vs[i].uid);
  }

  method ParseIcs(feed: Feed, daysAhead: int, now: int) returns (r: Result<seq<ParsedEvent>>)
    ensures r == ParseSpec(feed, daysAhead, now)
  {
    if feed.Malformed? {
      return Err(ParseFailure);
    }
    var vevents := feed.vevents;
    var endRange := EndRange(now, daysAhead);
    var events: seq<ParsedEvent> := [];

    var cancelledInstances := CollectCancelled(vevents);

    for i := 0 to |vevents|
      invariant events == Collected(vevents, i, now, endRange)
    {
      var v := vevents[i];
      CollectedStep(vevents, i, now, endRange, cancelledInstances);
      if v.status == Some(Cancelled) {
        assert events + [] == events;
        continue;
      }
      if v.isRecurring {
        var occurrences := ExpandSeries(v, cancelledInstances, now, endRange);
        events := events + occurrences;
      } else {
        if v.startMs >= now && v.startMs <= endRange {
          events := events + [ParsedEvent(v.uid, OrElse(v.summary, "Untitled Event"), OrElse(v.description, ""),
                                          v.startMs, v.endMs, IsAllDay(v), Location(v), false)];
        } else {
          assert events + [] == events;
        }
      }
    }

    events := Lists.SortBy(events, StartsNoLater);
    return Ok(events);
  }

  // ---------------------------------------------------------------------------
  // What the result contains

  /** Occurrence `j` of a series is reached (no earlier occurrence, nor itself, lies past
      `endRange`, and it is within the iteration cap) and is kept (not before `now`, not
      cancelled). */
  ghost predicate SeriesEmits(v: VEvent, cancelled: set<string>, now: int, endRange: int, j: int) {
    && 0 <= j < |v.occurrences| && j < MaxIterations
    && (forall l :: 0 <= l <= j ==> v.occurrences[l].startMs <= endRange)
    && now <= v.occurrences[j].startMs
    && v.occurrences[j].recurrenceId !in cancelled
  }

  /** `e` is what some VEVENT of the feed contributes: a non-cancelled single event inside
      the window, or a kept occurrence of a non-cancelled series. */
  ghost predicate Emitted(vs: seq<VEvent>, now: int, endRange: int, e: ParsedEvent) {
    exists i :: 0 <= i < |vs| && !IsCancelled(vs[i]) &&
      if vs[i].isRecurring then
        exists j :: SeriesEmits(vs[i], CancelledIds(vs, vs[i].uid), now, endRange, j)
                    && e == Instance(vs[i], vs[i].occurrences[j])
      else
        now <= vs[i].startMs <= endRange && e == Single(vs[i])
  }

  lemma {:induction false} ExpandFromMembers(v: VEvent, cancelled: set<string>, now: int, endRange: int, k: nat, e: ParsedEvent)
    requires forall l :: 0 <= l < k && l < |v.occurrences| ==> v.occurrences[l].startMs <= endRange
    ensures e in ExpandFrom(v, cancelled, now, endRange, k)
            <==> exists j :: k <= j && SeriesEmits(v, cancelled, now, endRange, j) && e == Instance(v, v.occurrences[j])
    decreases MaxIterations - k
  {
    if k >= |v.occurrences| || k >= MaxIterations {
    } else if v.occurrences[k].startMs > endRange {
      forall j | k <= j ensures !SeriesEmits(v, cancelled, now, endRange, j) {
      }
    } else {
      ExpandFromMembers(v, cancelled, now, endRange, k + 1, e);
      var here := OccurrenceOutput(v, cancelled, now, v.occurrences[k]);
      assert ExpandFrom(v, cancelled, now, endRange, k) == here + ExpandFrom(v, cancelled, now, endRange, k + 1);
      if e in here {
        assert SeriesEmits(v, cancelled, now, endRange, k);
      }
      if exists j :: k <= j && SeriesEmits(v, cancelled, now, endRange, j) && e == Instance(v, v.occurrences[j]) {
        var j :| k <= j && SeriesEmits(v, cancelled, now, endRange, j) && e == Instance(v, v.occurrences[j]);
        if j == k {
          assert e in here;
        }
      }
    }
  }

  /** A series contributes at most `MaxIterations` occurrences and never more than its
      iterator yields. */
  lemma {:induction false} ExpandFromBounded(v: VEvent, cancelled: set<string>, now: int, endRange: int, k: nat)
    requires k <= MaxIterations
    ensures |ExpandFrom(v, cancelled, now, endRange, k)| <= MaxIterations - k
    ensures k <= |v.occurrences| ==> |ExpandFrom(v, cancelled, now, endRange, k)| <= |v.occurrences| - k
    decreases MaxIterations - k
  {
    if k < |v.occurrences| && k < MaxIterations && v.occurrences[k].startMs <= endRange {
      ExpandFromBounded(v, cancelled, now, endRange, k + 1);
    }
  }

  /** The iterator yields each occurrence string once. */
  predicate DistinctOccurrences(v: VEvent) {
    forall a, b :: 0 <= a < b < |v.occurrences| ==> v.occurrences[a].recurrenceId != v.occurrences[b].recurrenceId
  }

  predicate IdsStartWith(es: seq<ParsedEvent>, p: string) {
    forall i :: 0 <= i < |es| ==> |p| <= |es[i].id| && es[i].id[..|p|] == p
  }

  /** No event of `es` has the id `p + r`. */
  predicate IdsAvoid(es: seq<ParsedEvent>, p: string, r: string) {
    forall i :: 0 <= i < |es| ==> es[i].id != p + r
  }

  predicate IdsDistinct(es: seq<ParsedEvent>) {
    forall a, b :: 0 <= a < b < |es| ==> es[a].id != es[b].id
  }

  /** The ids of `es`, emitted by series `v` from iterator position `k` on: each starts
      with the series' UID and a dash, they are pairwise distinct, and none names an
      occurrence before `k`. */
  predicate SeriesIds(es: seq<ParsedEvent>, v: VEvent, k: nat) {
    && IdsStartWith(es, v.uid + "-") && IdsDistinct(es)
    && forall j :: 0 <= j < k && j < |v.occurrences| ==> IdsAvoid(es, v.uid + "-", v.occurrences[j].recurrenceId)
  }

  /** `parseICS` names an occurrence `UID-occurrence`: when the iterator yields each
      occurrence string once, the ids a series emits from iterator position `k` on are
      pairwise distinct, each starts with the series' UID and a dash, and none names an
      occurrence before `k`. */
  lemma {:induction false} ExpandFromIdsDistinct(v: VEvent, cancelled: set<string>, now: int, endRange: int, k: nat)
    requires DistinctOccurrences(v)
    ensures SeriesIds(ExpandFrom(v, cancelled, now, endRange, k), v, k)
    decreases MaxIterations - k
  {
    if k < |v.occurrences| && k < MaxIterations && v.occurrences[k].startMs <= endRange {
      ExpandFromIdsDistinct(v, cancelled, now, endRange, k + 1);
      var rest := ExpandFrom(v, cancelled, now, endRange, k + 1);
      if OccurrenceOutput(v, cancelled, now, v.occurrences[k]) != [] {
        var e0 := Instance(v, v.occurrences[k]);
        assert ExpandFrom(v, cancelled, now, endRange, k) == [e0] + rest;
        SeriesIdsCons(v, k, e0, rest);
      } else {
        assert ExpandFrom(v, cancelled, now, endRange, k) == rest;
      }
    }
  }

  /** One emitted occurrence in front of the ids emitted after it. */
  lemma SeriesIdsCons(v: VEvent, k: nat, e0: ParsedEvent, rest: seq<ParsedEvent>)
    requires DistinctOccurrences(v) && k < |v.occurrences|
    requires e0.id == v.uid + "-" + v.occurrences[k].recurrenceId
    requires SeriesIds(rest, v, k + 1)
    ensures SeriesIds([e0] + rest, v, k)
  {
    var p := v.uid + "-";
    var x := v.occurrences[k].recurrenceId;
    assert IdsAvoid(rest, p, x);
    IdsCons(e0, rest, p, x);
    forall j | 0 <= j < k ensures IdsAvoid([e0] + rest, p, v.occurrences[j].recurrenceId) {
      assert v.occurrences[j].recurrenceId != x;
    }
  }

  /** Putting an event with the id `p + x` before events whose ids start with `p`, are
      distinct and avoid `p + x`. */
  lemma IdsCons(e0: ParsedEvent, rest: seq<ParsedEvent>, p: string, x: string)
    requires e0.id == p + x
    requires IdsStartWith(rest, p) && IdsDistinct(rest) && IdsAvoid(rest, p, x)
    ensures IdsStartWith([e0] + rest, p) && IdsDistinct([e0] + rest)
    ensures forall r :: r != x && IdsAvoid(rest, p, r) ==> IdsAvoid([e0] + rest, p, r)
  {
    assert (p + x)[..|p|] == p;
    forall r | r != x ensures p + x != p + r {
      assert (p + x)[|p|..] == x && (p + r)[|p|..] == r;
    }
  }

  lemma {:induction false} CollectedMembers(vs: seq<VEvent>, n: nat, now: int, endRange: int, e: ParsedEvent)
    requires n <= |vs|
    ensures e in Collected(vs, n, now, endRange)
            <==> exists i :: 0 <= i < n && e in Contribution(vs, i, now, endRange)
  {
    if n > 0 {
      var prev := Collected(vs, n - 1, now, endRange);
      var last := Contribution(vs, n - 1, now, endRange);
      CollectedMembers(vs, n - 1, now, endRange, e);
      assert Collected(vs, n, now, endRange) == prev + last;
      if e in last {
        assert 0 <= n - 1 < n && e in Contribution(vs, n - 1, now, endRange);
      }
      if exists i :: 0 <= i < n && e in Contribution(vs, i, now, endRange) {
        var i :| 0 <= i < n && e in Contribution(vs, i, now, endRange);
        if i < n - 1 {
          assert e in prev;
        } else {
          assert e in last;
        }
      }
    }
  }

  /** The first pass records `rid` for `uid` exactly when some VEVENT of the feed, wherever
      it stands, is a cancelled override of that occurrence. */
  lemma {:induction false} CancelledIdsMeaning(vs: seq<VEvent>, uid: string, rid: string)
    ensures rid in CancelledIds(vs, uid) <==> exists k :: 0 <= k < |vs| && IsCancelledOverride(vs[k], uid, rid)
  {
    if vs != [] {
      var init := vs[..|vs| - 1];
      CancelledIdsMeaning(init, uid, rid);
      if exists k :: 0 <= k < |init| && IsCancelledOverride(init[k], uid, rid) {
        var k :| 0 <= k < |init| && IsCancelledOverride(init[k], uid, rid);
        assert vs[k] == init[k];
      }
      if exists k :: 0 <= k < |vs| && IsCancelledOverride(vs[k], uid, rid) {
        var k :| 0 <= k < |vs| && IsCancelledOverride(vs[k], uid, rid);
        if k < |init| {
          assert init[k] == vs[k];
        }
      }
    }
  }

  /** Everything `parseICS` returns is emitted by some VEVENT of the feed, and everything
      emitted is returned. */
  /** What one VEVENT contributes, stated without the loop. */
  lemma ContributionMembers(vs: seq<VEvent>, i: nat, now: int, endRange: int, e: ParsedEvent)
    requires i < |vs|
    ensures e in Contribution(vs, i, now, endRange)
            <==> !IsCancelled(vs[i]) &&
                 if vs[i].isRecurring then
                   exists j :: SeriesEmits(vs[i], CancelledIds(vs, vs[i].uid), now, endRange, j)
                               && e == Instance(vs[i], vs[i].occurrences[j])
                 else
                   now <= vs[i].startMs <= endRange && e == Single(vs[i])
  {
    if !IsCancelled(vs[i]) && vs[i].isRecurring {
      ExpandFromMembers(vs[i], CancelledIds(vs, vs[i].uid), now, endRange, 0, e);
    }
  }

  lemma ParseIcsMembers(vs: seq<VEvent>, daysAhead: int, now: int, e: ParsedEvent)
    ensures e in ParseSpec(Calendar(vs), daysAhead, now).value <==> Emitted(vs, now, EndRange(now, daysAhead), e)
  {
    var endRange := EndRange(now, daysAhead);
    var collected := Collected(vs, |vs|, now, endRange);
    Lists.SortByMembers(collected, StartsNoLater);
    CollectedMembers(vs, |vs|, now, endRange, e);
    if e in collected {
      var i :| 0 <= i < |vs| && e in Contribution(vs, i, now, endRange);
      ContributionMembers(vs, i, now, endRange, e);
    }
    if Emitted(vs, now, endRange, e) {
      var i :| 0 <= i < |vs| && !IsCancelled(vs[i]) &&
        if vs[i].isRecurring then
          exists j :: SeriesEmits(vs[i], CancelledIds(vs, vs[i].uid), now, endRange, j)
                      && e == Instance(vs[i], vs[i].occurrences[j])
        else
          now <= vs[i].startMs <= endRange && e == Single(vs[i]);
      ContributionMembers(vs, i, now, endRange, e);
    }
  }

  /** The list is in non-decreasing start order and is a permutation of what the second
      pass collected. */
  lemma ParseIcsSorted(vs: seq<VEvent>, daysAhead: int, now: int)
    ensures Lists.SortedBy(ParseSpec(Calendar(vs), daysAhead, now).value, StartsNoLater)
    ensures forall i, j :: 0 <= i < j < |ParseSpec(Calendar(vs), daysAhead, now).value| ==>
              ParseSpec(Calendar(vs), daysAhead, now).value[i].startMs <= ParseSpec(Calendar(vs), daysAhead, now).value[j].startMs
    ensures multiset(ParseSpec(Calendar(vs), daysAhead, now).value)
            == multiset(Collected(vs, |vs|, now, EndRange(now, daysAhead)))
  {
    Lists.SortBySorted(Collected(vs, |vs|, now, EndRange(now, daysAhead)), StartsNoLater);
  }

  /** Every returned event starts inside `[now, now + daysAhead days]`; a returned
      occurrence of a series ends its duration after it starts. */
  lemma ParseIcsWindow(vs: seq<VEvent>, daysAhead: int, now: int, e: ParsedEvent)
    requires e in ParseSpec(Calendar(vs), daysAhead, now).value
    ensures now <= e.startMs <= now + daysAhead * MsPerDay
    ensures !e.isRecurring ==> exists i :: 0 <= i < |vs| && !vs[i].isRecurring && e == Single(vs[i])
    ensures e.isRecurring ==>
              exists i, j :: 0 <= i < |vs| && 0 <= j < |vs[i].occurrences| && j < MaxIterations
                && e.id == vs[i].uid + "-" + vs[i].occurrences[j].recurrenceId
                && e.endMs == e.startMs + vs[i].durationSeconds * 1000
  {
    ParseIcsMembers(vs, daysAhead, now, e);
  }

  /** An occurrence is never emitted when a cancelled override of it with the same UID
      appears anywhere in the feed, before or after the series. */
  lemma CancelledOccurrenceSkipped(vs: seq<VEvent>, now: int, endRange: int, i: nat, j: nat, k: nat)
    requires i < |vs| && k < |vs| && j < |vs[i].occurrences|
    requires IsCancelledOverride(vs[k], vs[i].uid, vs[i].occurrences[j].recurrenceId)
    ensures !SeriesEmits(vs[i], CancelledIds(vs, vs[i].uid), now, endRange, j)
  {
    CancelledIdsMeaning(vs, vs[i].uid, vs[i].occurrences[j].recurrenceId);
  }

  // ---------------------------------------------------------------------------
  // groupEventsByDate

  /** The UTC calendar day an event starts on, counted from the epoch; it stands for the
      `YYYY-MM-DD` prefix of the start's ISO form, which names the same day. */
  function DayKey(e: ParsedEvent): int {
    e.startMs / MsPerDay
  }

  /** The events of `events` that start on day `key`, in their order. */
  function EventsOn(events: seq<ParsedEvent>, key: int): seq<ParsedEvent> {
    if events == [] then []
    else
      var rest := EventsOn(events[..|events| - 1], key);
      var e := events[|events| - 1];
      if DayKey(e) == key then rest + [e] else rest
  }

  lemma EventsOnSnoc(events: seq<ParsedEvent>, e: ParsedEvent)
    ensures forall key :: EventsOn(events + [e], key)
                          == if DayKey(e) == key then EventsOn(events, key) + [e] else EventsOn(events, key)
  {
    assert (events + [e])[..|events + [e]| - 1] == events;
  }

  /** The index of the first event of `events` that starts on day `key`, or `|events|`. */
  function FirstOn(events: seq<ParsedEvent>, key: int): (n: nat)
    ensures n <= |events|
  {
    if events == [] then 0
    else if DayKey(events[0]) == key then 0
    else 1 + FirstOn(events[1..], key)
  }

  /** `FirstOn` finds the first event of the day, when there is one. */
  lemma {:induction false} FirstOnMeaning(events: seq<ParsedEvent>, key: int)
    ensures var n := FirstOn(events, key);
      && (n < |events| ==> DayKey(events[n]) == key)
      && (forall i :: 0 <= i < n ==> DayKey(events[i]) != key)
  {
    if events != [] && DayKey(events[0]) != key {
      FirstOnMeaning(events[1..], key);
      var n := FirstOn(events, key);
      forall i | 0 <= i < n ensures DayKey(events[i]) != key {
        if i > 0 {
          assert events[i] == events[1..][i - 1];
        }
      }
    }
  }

  lemma {:induction false} FirstOnSnoc(events: seq<ParsedEvent>, e: ParsedEvent, key: int)
    ensures FirstOn(events + [e], key)
            == if FirstOn(events, key) < |events| then FirstOn(events, key)
               else if DayKey(e) == key then |events| else |events| + 1
  {
    if events != [] {
      assert (events + [e])[1..] == events[1..] + [e];
      FirstOnSnoc(events[1..], e, key);
    }
  }

  /** `grouped` and `keys` are the day groups of `events`: one non-empty group per day that
      some event starts on, holding that day's events in order, and each day listed once,
      in the order of the days' first events. */
  ghost predicate ByDay(events: seq<ParsedEvent>, grouped: map<int, seq<ParsedEvent>>, keys: seq<int>) {
    && (forall key :: key in grouped ==> grouped[key] == EventsOn(events, key) != [])
    && (forall key :: key !in grouped ==> EventsOn(events, key) == [])
    && (forall key :: key in grouped <==> key in keys)
    && (forall key :: key in keys <==> FirstOn(events, key) < |events|)
    && (forall a, b :: 0 <= a < b < |keys| ==> FirstOn(events, keys[a]) < FirstOn(events, keys[b]))
  }

  /** Adding one event to its day's group, creating the group when the day is new. */
  lemma ByDayStep(events: seq<ParsedEvent>, grouped: map<int, seq<ParsedEvent>>, keys: seq<int>, e: ParsedEvent)
    requires ByDay(events, grouped, keys)
    ensures var group := if DayKey(e) in grouped then grouped[DayKey(e)] else [];
            var ks := if DayKey(e) in grouped then keys else keys + [DayKey(e)];
            ByDay(events + [e], grouped[DayKey(e) := group + [e]], ks)
  {
    GroupsStep(events, grouped, keys, e);
    KeysStep(events, grouped, keys, e);
  }

  /** The groups part of `ByDayStep`. */
  lemma GroupsStep(events: seq<ParsedEvent>, grouped: map<int, seq<ParsedEvent>>, keys: seq<int>, e: ParsedEvent)
    requires ByDay(events, grouped, keys)
    ensures var group := if DayKey(e) in grouped then grouped[DayKey(e)] else [];
            var grouped' := grouped[DayKey(e) := group + [e]];
            && (forall key :: key in grouped' ==> grouped'[key] == EventsOn(events + [e], key) != [])
            && (forall key :: key !in grouped' ==> EventsOn(events + [e], key) == [])
  {
    EventsOnSnoc(events, e);
  }

  /** The keys part of `ByDayStep`: a new day is listed last, after every earlier day. */
  lemma KeysStep(events: seq<ParsedEvent>, grouped: map<int, seq<ParsedEvent>>, keys: seq<int>, e: ParsedEvent)
    requires forall key :: key in grouped <==> key in keys
    requires forall key :: key in keys <==> FirstOn(events, key) < |events|
    requires forall a, b :: 0 <= a < b < |keys| ==> FirstOn(events, keys[a]) < FirstOn(events, keys[b])
    ensures var group := if DayKey(e) in grouped then grouped[DayKey(e)] else [];
            var ks := if DayKey(e) in grouped then keys else keys + [DayKey(e)];
            var grouped' := grouped[DayKey(e) := group + [e]];
            && (forall key :: key in grouped' <==> key in ks)
            && (forall key :: key in ks <==> FirstOn(events + [e], key) < |events + [e]|)
            && (forall a, b :: 0 <= a < b < |ks| ==> FirstOn(events + [e], ks[a]) < FirstOn(events + [e], ks[b]))
  {
    var k := DayKey(e);
    var events' := events + [e];
    var ks := if k in grouped then keys else keys + [k];
    forall key ensures key in ks <==> FirstOn(events', key) < |events'| {
      FirstOnSnoc(events, e, key);
    }
    forall a, b | 0 <= a < b < |ks| ensures FirstOn(events', ks[a]) < FirstOn(events', ks[b]) {
      FirstOnSnoc(events, e, ks[a]);
      FirstOnSnoc(events, e, ks[b]);
      assert ks[a] == keys[a] && ks[a] in keys;
      if b < |keys| {
        assert ks[b] == keys[b];
      }
    }
  }

  /** `ByDayStep` for the event at `i`, seen from the whole list. */
  lemma ByDayNext(events: seq<ParsedEvent>, i: nat, grouped: map<int, seq<ParsedEvent>>, keys: seq<int>)
    requires i < |events| && ByDay(events[..i], grouped, keys)
    ensures var e := events[i];
            var group := if DayKey(e) in grouped then grouped[DayKey(e)] else [];
            var ks := if DayKey(e) in grouped then keys else keys + [DayKey(e)];
            ByDay(events[..i + 1], grouped[DayKey(e) := group + [e]], ks)
  {
    assert events[..i + 1] == events[..i] + [events[i]];
    ByDayStep(events[..i], grouped, keys, events[i]);
  }

  /** The day groups hold a key exactly when some event starts on that day. */
  lemma ByDayKeys(events: seq<ParsedEvent>, grouped: map<int, seq<ParsedEvent>>, keys: seq<int>)
    requires ByDay(events, grouped, keys)
    ensures forall key :: key in grouped <==> exists e :: e in events && DayKey(e) == key
  {
    forall key ensures key in grouped <==> exists e :: e in events && DayKey(e) == key {
      if key in grouped {
        EventsOnMembers(events, grouped[key][0], key);
      }
      if exists e :: e in events && DayKey(e) == key {
        var e :| e in events && DayKey(e) == key;
        EventsOnMembers(events, e, key);
      }
    }
  }

  /** Grouping by day: `grouped` maps each day to its events, and `keys` lists the days in
      the order the map's entries were created, as a JavaScript Map iterates them. */
  method GroupEventsByDate(events: seq<ParsedEvent>) returns (grouped: map<int, seq<ParsedEvent>>, keys: seq<int>)
    ensures forall key :: key in grouped <==> exists e :: e in events && DayKey(e) == key
    ensures forall key :: key in grouped ==> grouped[key] == EventsOn(events, key)
    ensures forall key :: key in grouped <==> key in keys
    ensures forall a, b :: 0 <= a < b < |keys| ==> FirstOn(events, keys[a]) < FirstOn(events, keys[b])
  {
    grouped := map[];
    keys := [];
    for i := 0 to |events|
      invariant ByDay(events[..i], grouped, keys)
    {
      var event := events[i];
      var dateKey := DayKey(event);
      var group := if dateKey in grouped then grouped[dateKey] else [];
      var keys' := if dateKey in grouped then keys else keys + [dateKey];
      ByDayNext(events, i, grouped, keys);
      grouped, keys := grouped[dateKey := group + [event]], keys';
    }
    assert events[..|events|] == events;
    ByDayKeys(events, grouped, keys);
  }

  /** A group holds exactly the events of its day, so every event lands in the group of
      its own day and in no other. */
  lemma {:induction false} EventsOnMembers(events: seq<ParsedEvent>, e: ParsedEvent, key: int)
    ensures e in EventsOn(events, key) <==> e in events && DayKey(e) == key
  {
    if events != [] {
      var init := events[..|events| - 1];
      EventsOnMembers(init, e, key);
      assert events == init + [events[|events| - 1]];
    }
  }

  /** Grouping keeps input order: the group of a concatenation is the groups of its parts,
      concatenated. */
  lemma {:induction false} EventsOnAppend(a: seq<ParsedEvent>, b: seq<ParsedEvent>, key: int)
    ensures EventsOn(a + b, key) == EventsOn(a, key) + EventsOn(b, key)
  {
    if b == [] {
      assert a + b == a;
    } else {
      var init := b[..|b| - 1];
      var last := b[|b| - 1];
      assert a + b == (a + init) + [last];
      assert b == init + [last];
      EventsOnAppend(a, init, key);
      EventsOnSnoc(a + init, last);
      EventsOnSnoc(init, last);
    }
  }
}
