/**
 * The specials spreadsheet reader of `lib/specials/sheetsSpecialsCsv.ts`: the type
 * parser, the row to special mapping, and the pipeline that keeps the active specials
 * shown now and sorts them featured first, then by order, then by title.
 *
 * The current time in the restaurant's time zone, the time stamp of the result and the
 * outcome of fetching and decoding the spreadsheet are parameters.
 */
module SpecialsCsv {
  import opened Wrappers
  import opened Text
  import Lists
  import CsvFields
  import Compare
  import Schedule

  const SpecialTypes: seq<string> := ["food", "drinks", "event", "happyhour", "other"]

  datatype SpecialRow = SpecialRow(
    id: string, title: string, description: string, price: string, kind: string,
    startDate: string, endDate: string, daysOfWeek: string, startTime: string, endTime: string,
    active: string, featured: string, order: string, badge: string)

  datatype Special = Special(
    id: string, title: string, description: Option<string>, price: Option<string>, kind: string,
    window: Schedule.Window, active: bool, featured: bool, order: int, badge: Option<string>)

  datatype SpecialsData = SpecialsData(lastUpdatedISO: string, specials: seq<Special>)

  /** `parseType`: the trimmed, lower-cased cell when it names a type, `other` otherwise. */
  function ParseType(value: string): (r: string)
    ensures r in SpecialTypes
    ensures Lower(Trim(value)) in SpecialTypes ==> r == Lower(Trim(value))
    ensures Lower(Trim(value)) !in SpecialTypes ==> r == "other"
  {
    if value == "" then
      assert |Lower(Trim(value))| == 0;
      "other"
    else
      var normalized := Lower(Trim(value));
      if normalized in SpecialTypes then normalized else "other"
  }

  /** Every type reads back as itself. */
  lemma {:induction false} ParseTypeOfType(t: string)
    requires t in SpecialTypes
    ensures ParseType(t) == t
  {
    assert t == "food" || t == "drinks" || t == "event" || t == "happyhour" || t == "other";
    assert t[0] in "fdeho" && t[|t| - 1] in "dsktr";
    TrimUnchanged(t);
    LowerUnchanged(t);
  }

  /** The Kelvin sign lower-cases to `k`, as in JavaScript. */
  lemma {:induction false} ParseTypeKelvinSign()
    ensures ParseType("DRIN\U{212A}S") == "drinks"
  {
    var v := "DRIN\U{212A}S";
    assert !IsWhitespace(v[0]) && !IsWhitespace(v[|v| - 1]);
    TrimUnchanged(v);
    assert Lower(v) == "drinks";
  }

  /** The reading ignores letter case. */
  lemma {:induction false} ParseTypeIgnoresCase(value: string)
    ensures ParseType(Lower(value)) == ParseType(value)
  {
    TrimLower(value);
    LowerIdempotent(Trim(value));
  }

  /** `rowToSpecial`: id and title trimmed (empty when blank), each optional text present
      only when not blank, the parsed type, day list and flags, and the given order. */
  function RowToSpecial(row: SpecialRow, order: int): Special {
    Special(
      Trim(row.id),
      Trim(row.title),
      CsvFields.OptTrim(row.description),
      CsvFields.OptTrim(row.price),
      ParseType(row.kind),
      Schedule.Window(
        CsvFields.OptTrim(row.startDate),
        CsvFields.OptTrim(row.endDate),
        CsvFields.ParseDaysOfWeek(row.daysOfWeek),
        CsvFields.OptTrim(row.startTime),
        CsvFields.OptTrim(row.endTime)),
      CsvFields.ParseBoolean(row.active),
      CsvFields.ParseBoolean(row.featured),
      order,
      CsvFields.OptTrim(row.badge))
  }

  /** What `rowToSpecial` makes of a row, field by field. */
  lemma {:induction false} RowToSpecialFields(row: SpecialRow, order: int)
    ensures var s := RowToSpecial(row, order);
      && s.id == Trim(row.id) && s.title == Trim(row.title)
      && (s.description.None? <==> IsBlank(row.description))
      && (s.price.None? <==> IsBlank(row.price))
      && (s.badge.None? <==> IsBlank(row.badge))
      && (s.window.startDate.None? <==> IsBlank(row.startDate))
      && (s.window.endDate.None? <==> IsBlank(row.endDate))
      && (s.window.startTime.None? <==> IsBlank(row.startTime))
      && (s.window.endTime.None? <==> IsBlank(row.endTime))
      && (s.window.daysOfWeek.None? <==> row.daysOfWeek == "")
      && s.kind in SpecialTypes
      && (s.active <==> Lower(Trim(row.active)) in CsvFields.TruthyWords)
      && (s.featured <==> Lower(Trim(row.featured)) in CsvFields.TruthyWords)
      && s.order == order
  {
  }

  /** The special a row becomes, with the order its cell gives. */
  function SpecialOf(row: SpecialRow): Special {
    RowToSpecial(row, CsvFields.ParseOrder(row.order))
  }

  function SpecialsOfRows(rows: seq<SpecialRow>): (r: seq<Special>)
    ensures |r| == |rows| && forall i :: 0 <= i < |rows| ==> r[i] == SpecialOf(rows[i])
  {
    seq(|rows|, i requires 0 <= i < |rows| => SpecialOf(rows[i]))
  }

  /** The filter: active, and inside its date, weekday and time window now. */
  predicate Shown(s: Special, now: Schedule.LocalTime) {
    Schedule.ValidTime(now) && s.active && Schedule.IsActiveAt(s.window, now)
  }

  /** The comparator: featured first, then by order, then by title. */
  predicate SpecialBefore(a: Special, b: Special) {
    if a.featured != b.featured then a.featured
    else Compare.KeyThenText(a.order, a.title, b.order, b.title)
  }

  lemma {:induction false} SpecialBeforeTotal()
    ensures Lists.TotalPreorder(SpecialBefore)
  {
    forall a: Special, b: Special ensures SpecialBefore(a, b) || SpecialBefore(b, a) {
      Compare.KeyThenTextTotal(a.order, a.title, b.order, b.title);
    }
    forall a: Special, b: Special, c: Special | SpecialBefore(a, b) && SpecialBefore(b, c)
      ensures SpecialBefore(a, c)
    {
      if a.featured == b.featured == c.featured {
        Compare.KeyThenTextTransitive(a.order, a.title, b.order, b.title, c.order, c.title);
      }
    }
  }

  /** The specials of `all` shown now, sorted. */
  function ShownOf(all: seq<Special>, now: Schedule.LocalTime): seq<Special> {
    Lists.SortBy(Lists.Filter(all, s => Shown(s, now)), SpecialBefore)
  }

  function ShownSpecials(rows: seq<SpecialRow>, now: Schedule.LocalTime): seq<Special> {
    ShownOf(SpecialsOfRows(rows), now)
  }

  /** `getSpecialsFromSheets`: nothing without a configured address, when fetching or
      reading fails, or when no special is shown now; otherwise the sorted specials shown
      now, stamped `stamp`. */
  function GetSpecialsFromSheets(url: Option<string>, fetched: Result<seq<SpecialRow>>,
                                 now: Schedule.LocalTime, stamp: string): (r: Option<SpecialsData>)
    ensures url.None? || url.value == "" || fetched.Err? ==> r.None?
    ensures r.Some? ==> r.value.specials != [] && r.value.lastUpdatedISO == stamp
  {
    if url.None? || url.value == "" then None
    else if fetched.Err? then None
    else
      var specials := ShownSpecials(fetched.value, now);
      if |specials| == 0 then None else Some(SpecialsData(stamp, specials))
  }

  /** The sorted list holds exactly the specials shown now, each as often as in `all`. */
  lemma {:induction false} ShownOfMembers(all: seq<Special>, now: Schedule.LocalTime, s: Special)
    ensures s in ShownOf(all, now) <==> s in all && Shown(s, now)
    ensures multiset(ShownOf(all, now)) == multiset(Lists.Filter(all, x => Shown(x, now)))
  {
    Lists.SortByMembers(Lists.Filter(all, x => Shown(x, now)), SpecialBefore);
  }

  lemma {:induction false} SpecialsOfRowsMembers(rows: seq<SpecialRow>, s: Special)
    ensures s in SpecialsOfRows(rows) <==> exists row :: row in rows && SpecialOf(row) == s
  {
    var all := SpecialsOfRows(rows);
    if s in all {
      var i :| 0 <= i < |all| && all[i] == s;
      assert rows[i] in rows;
    }
    if exists row :: row in rows && SpecialOf(row) == s {
      var row :| row in rows && SpecialOf(row) == s;
      var i :| 0 <= i < |rows| && rows[i] == row;
      assert all[i] == s;
    }
  }

  /** The result holds exactly the specials of the rows that are shown now. */
  lemma {:induction false} ShownSpecialsMembers(rows: seq<SpecialRow>, now: Schedule.LocalTime, s: Special)
    ensures s in ShownSpecials(rows, now) <==> (exists row :: row in rows && SpecialOf(row) == s) && Shown(s, now)
  {
    ShownOfMembers(SpecialsOfRows(rows), now, s);
    SpecialsOfRowsMembers(rows, s);
  }

  /** The result is sorted: featured specials first, and within each group by order, then
      title. */
  lemma {:induction false} ShownSpecialsSorted(rows: seq<SpecialRow>, now: Schedule.LocalTime)
    ensures Lists.SortedBy(ShownSpecials(rows, now), SpecialBefore)
    ensures forall i, j :: 0 <= i < j < |ShownSpecials(rows, now)| && ShownSpecials(rows, now)[j].featured
              ==> ShownSpecials(rows, now)[i].featured
  {
    SpecialBeforeTotal();
    Lists.SortBySorted(Lists.Filter(SpecialsOfRows(rows), s => Shown(s, now)), SpecialBefore);
    assert ShownSpecials(rows, now) == Lists.SortBy(Lists.Filter(SpecialsOfRows(rows), s => Shown(s, now)), SpecialBefore);
  }

  /** With the address configured and the rows read, the result is absent exactly when no
      row's special is shown now. */
  lemma {:induction false} GetSpecialsAbsent(url: string, rows: seq<SpecialRow>, now: Schedule.LocalTime, stamp: string)
    requires url != ""
    ensures GetSpecialsFromSheets(Some(url), Ok(rows), now, stamp).None?
            <==> forall row :: row in rows ==> !Shown(SpecialOf(row), now)
  {
    var r := ShownSpecials(rows, now);
    if r != [] {
      ShownSpecialsMembers(rows, now, r[0]);
    } else {
      forall row | row in rows ensures !Shown(SpecialOf(row), now) {
        ShownSpecialsMembers(rows, now, SpecialOf(row));
      }
    }
  }
}
