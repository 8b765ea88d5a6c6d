/**
 * The ticker spreadsheet reader of `lib/ticker-csv.ts`: the row to message mapping and the
 * pipeline that keeps the non-empty, active messages shown now, sorted by order and then
 * by text.
 *
 * The current time in the restaurant's time zone and the outcome of fetching and decoding
 * the spreadsheet are parameters.
 */
module TickerCsv {
  import opened Wrappers
  import opened Text
  import Lists
  import CsvFields
  import Compare
  import Schedule

  datatype TickerRow = TickerRow(
    id: string, message: string, startDate: string, endDate: string, daysOfWeek: string,
    startTime: string, endTime: string, active: string, order: string)

  datatype TickerMessage = TickerMessage(
    id: string, message: string, window: Schedule.Window, active: bool, order: int)

  /** `rowToTickerMessage`: id and message trimmed (empty when blank), each optional text
      present only when not blank, the parsed day list, flag and order. */
  function RowToTickerMessage(row: TickerRow): TickerMessage {
    TickerMessage(
      Trim(row.id),
      Trim(row.message),
      Schedule.Window(
        CsvFields.OptTrim(row.startDate),
        CsvFields.OptTrim(row.endDate),
        CsvFields.ParseDaysOfWeek(row.daysOfWeek),
        CsvFields.OptTrim(row.startTime),
        CsvFields.OptTrim(row.endTime)),
      CsvFields.ParseBoolean(row.active),
      CsvFields.ParseOrder(row.order))
  }

  /** What `rowToTickerMessage` makes of a row, field by field. */
  lemma {:induction false} RowToTickerMessageFields(row: TickerRow)
    ensures var t := RowToTickerMessage(row);
      && t.id == Trim(row.id)
      && (t.message == "" <==> IsBlank(row.message))
      && (t.window.startDate.None? <==> IsBlank(row.startDate))
      && (t.window.endDate.None? <==> IsBlank(row.endDate))
      && (t.window.startTime.None? <==> IsBlank(row.startTime))
      && (t.window.endTime.None? <==> IsBlank(row.endTime))
      && (t.window.daysOfWeek.None? <==> row.daysOfWeek == "")
      && (t.active <==> Lower(Trim(row.active)) in CsvFields.TruthyWords)
      && (row.order == "" ==> t.order == CsvFields.DefaultOrder)
  {
    TrimShape(row.message);
  }

  function MessagesOfRows(rows: seq<TickerRow>): (r: seq<TickerMessage>)
    ensures |r| == |rows| && forall i :: 0 <= i < |rows| ==> r[i] == RowToTickerMessage(rows[i])
  {
    seq(|rows|, i requires 0 <= i < |rows| => RowToTickerMessage(rows[i]))
  }

  /** The filter: a message, active, and inside its window now. */
  predicate Shown(t: TickerMessage, now: Schedule.LocalTime) {
    t.message != "" && t.active && Schedule.ValidTime(now) && Schedule.IsActiveAt(t.window, now)
  }

  /** The comparator: by order, then by message. */
  predicate MessageBefore(a: TickerMessage, b: TickerMessage) {
    Compare.KeyThenText(a.order, a.message, b.order, b.message)
  }

  lemma {:induction false} MessageBeforeTotal()
    ensures Lists.TotalPreorder(MessageBefore)
  {
    forall a: TickerMessage, b: TickerMessage ensures MessageBefore(a, b) || MessageBefore(b, a) {
      Compare.KeyThenTextTotal(a.order, a.message, b.order, b.message);
    }
    forall a: TickerMessage, b: TickerMessage, c: TickerMessage | MessageBefore(a, b) && MessageBefore(b, c)
      ensures MessageBefore(a, c)
    {
      Compare.KeyThenTextTransitive(a.order, a.message, b.order, b.message, c.order, c.message);
    }
  }

  /** The messages of `all` shown now, sorted. */
  function ShownOf(all: seq<TickerMessage>, now: Schedule.LocalTime): seq<TickerMessage> {
    Lists.SortBy(Lists.Filter(all, t => Shown(t, now)), MessageBefore)
  }

  /** `getTickerMessagesFromCSV`: none without a configured address or when fetching or
      reading fails; otherwise the sorted messages shown now. */
  function GetTickerMessagesFromCsv(url: Option<string>, fetched: Result<seq<TickerRow>>,
                                    now: Schedule.LocalTime): (r: seq<TickerMessage>)
    ensures url.None? || url.value == "" || fetched.Err? ==> r == []
  {
    if url.None? || url.value == "" then []
    else if fetched.Err? then []
    else ShownOf(MessagesOfRows(fetched.value), now)
  }

  /** The sorted list holds exactly the messages shown now, each as often as in `all`. */
  lemma {:induction false} ShownOfMembers(all: seq<TickerMessage>, now: Schedule.LocalTime, t: TickerMessage)
    ensures t in ShownOf(all, now) <==> t in all && Shown(t, now)
    ensures multiset(ShownOf(all, now)) == multiset(Lists.Filter(all, x => Shown(x, now)))
  {
    Lists.SortByMembers(Lists.Filter(all, x => Shown(x, now)), MessageBefore);
  }

  lemma {:induction false} MessagesOfRowsMembers(rows: seq<TickerRow>, t: TickerMessage)
    ensures t in MessagesOfRows(rows) <==> exists row :: row in rows && RowToTickerMessage(row) == t
  {
    var all := MessagesOfRows(rows);
    if t in all {
      var i :| 0 <= i < |all| && all[i] == t;
      assert rows[i] in rows;
    }
    if exists row :: row in rows && RowToTickerMessage(row) == t {
      var row :| row in rows && RowToTickerMessage(row) == t;
      var i :| 0 <= i < |rows| && rows[i] == row;
      assert all[i] == t;
    }
  }

  /** With the address configured and the rows read, the result holds exactly the messages
      of the rows that are shown now: rows with an empty message, inactive rows and rows
      outside their window are dropped. */
  lemma {:induction false} TickerMessagesMembers(url: string, rows: seq<TickerRow>, now: Schedule.LocalTime, t: TickerMessage)
    requires url != ""
    ensures t in GetTickerMessagesFromCsv(Some(url), Ok(rows), now)
            <==> (exists row :: row in rows && RowToTickerMessage(row) == t) && Shown(t, now)
  {
    ShownOfMembers(MessagesOfRows(rows), now, t);
    MessagesOfRowsMembers(rows, t);
  }

  /** The sorted list is ordered by order, then by message. */
  lemma {:induction false} ShownOfSorted(all: seq<TickerMessage>, now: Schedule.LocalTime)
    ensures Lists.SortedBy(ShownOf(all, now), MessageBefore)
    ensures forall i, j :: 0 <= i < j < |ShownOf(all, now)| ==> ShownOf(all, now)[i].order <= ShownOf(all, now)[j].order
  {
    MessageBeforeTotal();
    Lists.SortBySorted(Lists.Filter(all, t => Shown(t, now)), MessageBefore);
  }

  /** The result is sorted by order, then by message. */
  lemma {:induction false} TickerMessagesSorted(url: Option<string>, fetched: Result<seq<TickerRow>>, now: Schedule.LocalTime)
    ensures Lists.SortedBy(GetTickerMessagesFromCsv(url, fetched, now), MessageBefore)
    ensures forall i, j :: 0 <= i < j < |GetTickerMessagesFromCsv(url, fetched, now)| ==>
              GetTickerMessagesFromCsv(url, fetched, now)[i].order <= GetTickerMessagesFromCsv(url, fetched, now)[j].order
  {
    if url.Some? && url.value != "" && fetched.Ok? {
      ShownOfSorted(MessagesOfRows(fetched.value), now);
    }
  }
}
