/**
 * The menu exporter of `scripts/export-menus-to-sheets-csv.ts`: a menu becomes one CSV
 * row per item, numbered across sections, and the rows become the text of a spreadsheet
 * with a twelve-column header.
 *
 * Reading the menu files and writing the exported files are not part of this model. The
 * partner of the serialiser is a reader of CSV text in the quoting convention of
 * RFC 4180 (section 2): the exported text reads back as the header and the cells of every
 * row; the partner of each cell is the spreadsheet reader's parser for that column.
 */
module MenuExport {
  import opened Wrappers
  import opened Text
  import opened Schemas
  import CsvFields
  import MenuCsv
  import Lists

  /** The twelve column names, in column order; none of them needs quoting. */
  function Headers(): (r: seq<string>)
    ensures |r| == 12
  {
    ["Type", "SectionId", "SectionTitle", "Name", "Description", "Price",
     "Dietary", "Spicy", "AddOns", "Active", "Featured", "Order"]
  }

  /** The header line, `headers.join(',')`. */
  function HeaderLine(): string {
    Join(Headers(), ",")
  }

  /** One exported row; `kind` stands for the Type column. */
  datatype CsvRow = CsvRow(
    kind: string, sectionId: string, sectionTitle: string, name: string, description: string,
    price: string, dietary: string, spicy: string, addOns: string, active: string,
    featured: string, order: nat)

  // ---------------------------------------------------------------------------
  // Quoting a cell

  /** A cell needs quoting when it holds a quote, a comma or a line break. */
  predicate NeedsQuotes(v: string) {
    '"' in v || ',' in v || '\n' in v
  }

  /** `value.replace(/"/g, '""')`. */
  function DoubleQuotes(v: string): (r: string)
    ensures |r| >= |v|
    ensures '"' !in v ==> r == v
  {
    if v == [] then []
    else (if v[0] == '"' then "\"\"" else [v[0]]) + DoubleQuotes(v[1..])
  }

  /** `escapeCSV`: a cell that needs quoting is wrapped in quotes with its own quotes
      doubled; any other cell is written as it is. */
  function EscapeCsv(v: string): (r: string)
    ensures !NeedsQuotes(v) ==> r == v
    ensures NeedsQuotes(v) ==> |r| >= 2 && r[0] == '"' && r[|r| - 1] == '"'
  {
    if NeedsQuotes(v) then "\"" + DoubleQuotes(v) + "\"" else v
  }

  function EscapeAll(cells: seq<string>): (r: seq<string>)
    ensures |r| == |cells| && forall i :: 0 <= i < |cells| ==> r[i] == EscapeCsv(cells[i])
  {
    seq(|cells|, i requires 0 <= i < |cells| => EscapeCsv(cells[i]))
  }

  /** A record written as its quoted cells joined by commas. */
  function EncodeRecord(cells: seq<string>): string {
    Join(EscapeAll(cells), ",")
  }

  // ---------------------------------------------------------------------------
  // Reading CSV text back (RFC 4180, section 2)

  /** The content of a quoted cell whose opening quote has been read, a doubled quote
      standing for one quote; and the text after the closing quote. */
  function ReadQuoted(s: string): (r: (string, string))
    ensures |r.1| <= |s|
    decreases |s|
  {
    if s == [] then ([], [])
    else if s[0] == '"' then
      if |s| >= 2 && s[1] == '"' then
        var (c, rest) := ReadQuoted(s[2..]);
        (['"'] + c, rest)
      else ([], s[1..])
    else
      var (c, rest) := ReadQuoted(s[1..]);
      ([s[0]] + c, rest)
  }

  /** An unquoted cell: the text up to the next comma or line break. */
  function ReadBare(s: string): (r: (string, string))
    ensures |r.1| <= |s|
    ensures r.0 + r.1 == s
    ensures ',' !in r.0 && '\n' !in r.0
    ensures r.1 == [] || r.1[0] == ',' || r.1[0] == '\n'
    decreases |s|
  {
    if s == [] then ([], [])
    else if s[0] == ',' || s[0] == '\n' then ([], s)
    else
      var (c, rest) := ReadBare(s[1..]);
      ([s[0]] + c, rest)
  }

  /** One cell, quoted or not, and the text after it. */
  function ReadField(s: string): (r: (string, string))
    ensures |r.1| <= |s|
  {
    if s != [] && s[0] == '"' then ReadQuoted(s[1..]) else ReadBare(s)
  }

  /** The cells of one record, and the text after it. */
  function ReadRecord(s: string): (r: (seq<string>, string))
    ensures |r.0| >= 1 && |r.1| <= |s|
    decreases |s|
  {
    var (f, rest) := ReadField(s);
    if rest != [] && rest[0] == ',' then
      var (fs, after) := ReadRecord(rest[1..]);
      ([f] + fs, after)
    else ([f], rest)
  }

  /** The records of a text, one per line break outside quotes. */
  function ReadRecords(s: string): (r: seq<seq<string>>)
    ensures |r| >= 1
    decreases |s|
  {
    var (rec, rest) := ReadRecord(s);
    if rest != [] && rest[0] == '\n' then [rec] + ReadRecords(rest[1..]) else [rec]
  }

  /** What may follow a cell: nothing, the next cell or the next record. */
  predicate CellEnd(after: string) {
    after == [] || after[0] == ',' || after[0] == '\n'
  }

  lemma {:induction false} ReadQuotedOfDoubled(v: string, after: string)
    requires CellEnd(after)
    ensures ReadQuoted(DoubleQuotes(v) + "\"" + after) == (v, after)
    decreases |v|
  {
    var s := DoubleQuotes(v) + "\"" + after;
    if v == [] {
      assert s == "\"" + after;
      assert s[1..] == after;
      assert |s| >= 2 ==> s[1] == after[0] != '"';
    } else {
      ReadQuotedOfDoubled(v[1..], after);
      var tail := DoubleQuotes(v[1..]) + "\"" + after;
      if v[0] == '"' {
        assert s == "\"\"" + tail;
        assert s[2..] == tail;
      } else {
        assert s == [v[0]] + tail;
        assert s[1..] == tail;
      }
      assert [v[0]] + v[1..] == v;
    }
  }

  lemma {:induction false} ReadBareOfPlain(v: string, after: string)
    requires ',' !in v && '\n' !in v
    requires CellEnd(after)
    ensures ReadBare(v + after) == (v, after)
    decreases |v|
  {
    if v == [] {
      assert v + after == after;
    } else {
      ReadBareOfPlain(v[1..], after);
      assert (v + after)[1..] == v[1..] + after;
      assert [v[0]] + v[1..] == v;
    }
  }

  /** A quoted cell reads back as the cell, whatever follows it. */
  lemma {:induction false} ReadFieldOfEscaped(v: string, after: string)
    requires CellEnd(after)
    ensures ReadField(EscapeCsv(v) + after) == (v, after)
  {
    if NeedsQuotes(v) {
      ReadFieldOfQuoted(v, after);
    } else {
      ReadFieldOfPlain(v, after);
    }
  }

  lemma {:induction false} ReadFieldOfQuoted(v: string, after: string)
    requires CellEnd(after) && NeedsQuotes(v)
    ensures ReadField(EscapeCsv(v) + after) == (v, after)
  {
    var s := EscapeCsv(v) + after;
    assert s == "\"" + (DoubleQuotes(v) + "\"" + after);
    assert s[1..] == DoubleQuotes(v) + "\"" + after;
    ReadQuotedOfDoubled(v, after);
  }

  lemma {:induction false} ReadFieldOfPlain(v: string, after: string)
    requires CellEnd(after) && !NeedsQuotes(v)
    ensures ReadField(EscapeCsv(v) + after) == (v, after)
  {
    var s := v + after;
    assert EscapeCsv(v) == v;
    ReadBareOfPlain(v, after);
    if v != [] {
      assert s[0] == v[0];
      assert v[0] in v;
      assert s[0] != '"';
    }
    assert ReadField(s) == ReadBare(s);
  }

  /** A record reads back as its cells, whatever line follows it. */
  lemma {:induction false} ReadRecordOfEncoded(cells: seq<string>, after: string)
    requires |cells| >= 1
    requires after == [] || after[0] == '\n'
    ensures ReadRecord(EncodeRecord(cells) + after) == (cells, after)
    decreases |cells|
  {
    var e := EscapeAll(cells);
    if |cells| == 1 {
      assert EncodeRecord(cells) + after == e[0] + after;
      ReadFieldOfEscaped(cells[0], after);
      assert ReadField(e[0] + after) == (cells[0], after);
      assert cells == [cells[0]];
    } else {
      var rest := EncodeRecord(cells[1..]) + after;
      assert EscapeAll(cells[1..]) == e[1..];
      assert EncodeRecord(cells) == e[0] + "," + EncodeRecord(cells[1..]);
      assert EncodeRecord(cells) + after == e[0] + ("," + rest);
      ReadFieldOfEscaped(cells[0], "," + rest);
      assert ("," + rest)[1..] == rest;
      ReadRecordOfEncoded(cells[1..], after);
      assert [cells[0]] + cells[1..] == cells;
    }
  }

  function EncodeAll(recs: seq<seq<string>>): (r: seq<string>)
    ensures |r| == |recs| && forall i :: 0 <= i < |recs| ==> r[i] == EncodeRecord(recs[i])
  {
    Lists.Map(recs, EncodeRecord)
  }

  /** Records written one per line read back as the same records, line breaks inside
      cells included. */
  lemma {:induction false} ReadRecordsOfEncoded(recs: seq<seq<string>>)
    requires |recs| >= 1
    requires forall i :: 0 <= i < |recs| ==> |recs[i]| >= 1
    ensures ReadRecords(Join(EncodeAll(recs), "\n")) == recs
    decreases |recs|
  {
    var lines := EncodeAll(recs);
    if |recs| == 1 {
      assert Join(lines, "\n") == EncodeRecord(recs[0]) + [];
      ReadRecordOfEncoded(recs[0], []);
    } else {
      var rest := Join(EncodeAll(recs[1..]), "\n");
      assert EncodeAll(recs[1..]) == lines[1..];
      assert Join(lines, "\n") == EncodeRecord(recs[0]) + ("\n" + rest);
      ReadRecordOfEncoded(recs[0], "\n" + rest);
      assert ("\n" + rest)[1..] == rest;
      ReadRecordsOfEncoded(recs[1..]);
      assert [recs[0]] + recs[1..] == recs;
    }
  }

  // ---------------------------------------------------------------------------
  // convertToCSV

  /** The eleven text cells of a row, in header order. */
  function TextCells(row: CsvRow): (r: seq<string>)
    ensures |r| == 11
  {
    [row.kind, row.sectionId, row.sectionTitle, row.name, row.description, row.price,
     row.dietary, row.spicy, row.addOns, row.active, row.featured]
  }

  /** All twelve cells of a row, Order in decimal last. */
  function Cells(row: CsvRow): (r: seq<string>)
    ensures |r| == 12
  {
    TextCells(row) + [NatToString(row.order)]
  }

  /** One line of the export: the cells quoted as needed (the order, all digits, never is). */
  function Line(row: CsvRow): string {
    EncodeRecord(Cells(row))
  }

  /** One line per row, in row order. */
  function LinesOf(rows: seq<CsvRow>): (r: seq<string>)
    ensures |r| == |rows| && forall i :: 0 <= i < |rows| ==> r[i] == Line(rows[i])
  {
    Lists.Map(rows, Line)
  }

  /** The header line followed by the rows' lines. */
  function CsvLines(rows: seq<CsvRow>): (r: seq<string>)
    ensures |r| == |rows| + 1 && r[0] == HeaderLine() && r[1..] == LinesOf(rows)
  {
    [HeaderLine()] + LinesOf(rows)
  }

  lemma {:induction false} CsvLinesSnoc(rows: seq<CsvRow>, i: nat)
    requires i < |rows|
    ensures CsvLines(rows[..i + 1]) == CsvLines(rows[..i]) + [Line(rows[i])]
  {
    Lists.TakeSnoc(rows, i);
    Lists.MapSnoc(rows[..i], rows[i], Line);
  }

  /** `convertToCSV`: the header line, then a line per row, joined by line breaks. */
  method ConvertToCsv(rows: seq<CsvRow>) returns (text: string)
    ensures text == Join(CsvLines(rows), "\n")
  {
    var csvLines := [HeaderLine()];
    for i := 0 to |rows|
      invariant csvLines == CsvLines(rows[..i])
    {
      var row := rows[i];
      var line := Join(EscapeAll(TextCells(row)) + [NatToString(row.order)], ",");
      LineAsWritten(row);
      CsvLinesSnoc(rows, i);
      csvLines := csvLines + [line];
    }
    assert rows[..|rows|] == rows;
    text := Join(csvLines, "\n");
  }

  /** A decimal number is never quoted. */
  lemma {:induction false} EscapeNatToString(n: nat)
    ensures EscapeCsv(NatToString(n)) == NatToString(n)
  {
    var d := NatToString(n);
    forall i | 0 <= i < |d| ensures d[i] != '"' && d[i] != ',' && d[i] != '\n' {
      assert IsDigit(d[i]);
    }
  }

  /** Cells that need no quoting are written as they are. */
  lemma {:induction false} EscapeAllPlain(cells: seq<string>)
    requires forall i :: 0 <= i < |cells| ==> !NeedsQuotes(cells[i])
    ensures EscapeAll(cells) == cells
  {
  }

  /** The line as written, the text cells quoted and the order appended as it is, is the
      encoded record of the row's cells. */
  lemma {:induction false} LineAsWritten(row: CsvRow)
    ensures Join(EscapeAll(TextCells(row)) + [NatToString(row.order)], ",") == Line(row)
  {
    EscapeNatToString(row.order);
    EscapeAllSnoc(TextCells(row), NatToString(row.order));
  }

  lemma {:induction false} EscapeAllSnoc(cells: seq<string>, last: string)
    requires EscapeCsv(last) == last
    ensures EscapeAll(cells + [last]) == EscapeAll(cells) + [last]
  {
  }

  lemma {:induction false} HeaderLineEncodes()
    ensures HeaderLine() == EncodeRecord(Headers())
  {
    var h := Headers();
    forall i | 0 <= i < |h| ensures !NeedsQuotes(h[i]) {
      assert forall k :: 0 <= k < |h[i]| ==> 'A' <= h[i][k] <= 'z';
    }
    EscapeAllPlain(h);
  }

  function CellsAll(rows: seq<CsvRow>): (r: seq<seq<string>>)
    ensures |r| == |rows| && forall i :: 0 <= i < |rows| ==> r[i] == Cells(rows[i])
  {
    Lists.Map(rows, Cells)
  }

  /** The lines of the export are the encoded header and the encoded cells of every row. */
  lemma {:induction false} CsvLinesEncoded(rows: seq<CsvRow>)
    ensures CsvLines(rows) == EncodeAll([Headers()] + CellsAll(rows))
  {
    HeaderLineEncodes();
    Lists.MapCompose(rows, Cells, EncodeRecord, Line);
    Lists.MapCons(Headers(), CellsAll(rows), EncodeRecord);
  }

  /** The exported text reads back as the header followed by the cells of every row, in row
      order, whatever the cells contain. */
  lemma {:induction false} ExportReadsBack(rows: seq<CsvRow>)
    ensures ReadRecords(Join(CsvLines(rows), "\n")) == [Headers()] + CellsAll(rows)
  {
    var recs := [Headers()] + CellsAll(rows);
    CsvLinesEncoded(rows);
    assert forall i :: 0 <= i < |recs| ==> |recs[i]| == 12;
    ReadRecordsOfEncoded(recs);
  }

  /** The order cell reads back as the row's order. */
  lemma {:induction false} OrderCellReadsBack(row: CsvRow)
    ensures CsvFields.ParseOrder(Cells(row)[11]) == row.order
  {
    assert Cells(row)[11] == NatToString(row.order);
    CsvFields.ParseOrderOfNatToString(row.order);
  }

  // ---------------------------------------------------------------------------
  // menuToCSVRows

  function OrEmpty(o: Option<string>): string {
    if o.Some? then o.value else ""
  }

  /** The Dietary cell: the tags joined by `, `. */
  function DietaryCell(d: Option<seq<string>>): string {
    if d.Some? then Join(d.value, ", ") else ""
  }

  /** One add-on as the exporter writes it, `name: price`. */
  function AddOnEntry(a: AddOn): string {
    a.name + ": " + a.price
  }

  /** The AddOns cell as written: the entries joined by `; `. */
  function AddOnsCell(list: Option<seq<AddOn>>): string {
    if list.Some? then Join(seq(|list.value|, i requires 0 <= i < |list.value| => AddOnEntry(list.value[i])), "; ")
    else ""
  }

  /** The row of one item: its section, its cells, Active `true`, Featured `false`, and the
      given order. */
  function RowOf(kind: string, s: MenuSection, item: MenuItem, order: nat): (r: CsvRow)
    ensures r.active == "true" && r.featured == "false" && r.order == order
    ensures r.spicy == "true" <==> item.spicy == Some(true)
    ensures r.spicy == "" <==> item.spicy != Some(true)
  {
    CsvRow(kind, s.id, s.title, item.name, OrEmpty(item.description), OrEmpty(item.price),
      DietaryCell(item.dietary), if item.spicy == Some(true) then "true" else "",
      AddOnsCell(item.addOns), "true", "false", order)
  }

  /** The rows of one section's items, numbered from `start`. */
  function SectionRows(kind: string, s: MenuSection, start: nat): (r: seq<CsvRow>)
    ensures |r| == |s.items|
    ensures forall j :: 0 <= j < |s.items| ==> r[j] == RowOf(kind, s, s.items[j], start + j)
  {
    seq(|s.items|, j requires 0 <= j < |s.items| => RowOf(kind, s, s.items[j], start + j))
  }

  /** The number of items in the sections. */
  function ItemCount(ss: seq<MenuSection>): nat {
    if ss == [] then 0 else ItemCount(ss[..|ss| - 1]) + |ss[|ss| - 1].items|
  }

  /** The rows of the sections' items, section by section, numbered from 0 without a gap. */
  function ExportRows(kind: string, ss: seq<MenuSection>): (r: seq<CsvRow>)
    ensures |r| == ItemCount(ss)
    ensures forall k :: 0 <= k < |r| ==> r[k].order == k
    ensures forall k :: 0 <= k < |r| ==> r[k].active == "true" && r[k].featured == "false"
    ensures forall k :: 0 <= k < |r| ==> r[k].spicy == "true" || r[k].spicy == ""
  {
    if ss == [] then []
    else
      var init := ss[..|ss| - 1];
      ExportRows(kind, init) + SectionRows(kind, ss[|ss| - 1], ItemCount(init))
  }

  /** `menuToCSVRows`: the sections in order, those without items skipped, each item a row
      numbered by a counter that runs on across sections. */
  method MenuToCsvRows(menu: Menu, kind: string) returns (rows: seq<CsvRow>)
    ensures rows == ExportRows(kind, menu.sections)
  {
    var ss := menu.sections;
    rows := [];
    var orderCounter := 0;
    for i := 0 to |ss|
      invariant rows == ExportRows(kind, ss[..i])
      invariant orderCounter == ItemCount(ss[..i])
    {
      var section := ss[i];
      assert ss[..i + 1][..i] == ss[..i];
      if |section.items| == 0 {
        continue;
      }
      for j := 0 to |section.items|
        invariant rows == ExportRows(kind, ss[..i]) + SectionRows(kind, section, ItemCount(ss[..i]))[..j]
        invariant orderCounter == ItemCount(ss[..i]) + j
      {
        var item := section.items[j];
        rows := rows + [CsvRow(
          kind, section.id, section.title, item.name, OrEmpty(item.description), OrEmpty(item.price),
          DietaryCell(item.dietary), if item.spicy == Some(true) then "true" else "",
          AddOnsCell(item.addOns), "true", "false", orderCounter)];
        orderCounter := orderCounter + 1;
      }
      assert SectionRows(kind, section, ItemCount(ss[..i]))[..|section.items|] == SectionRows(kind, section, ItemCount(ss[..i]));
    }
    assert ss[..|ss|] == ss;
  }

  // ---------------------------------------------------------------------------
  // Properties of the generated rows

  /** Item `j` of the last section is row `ItemCount` of the sections before it, plus `j`. */
  lemma {:induction false} ExportRowsLast(kind: string, ss: seq<MenuSection>, j: nat)
    requires ss != [] && j < |ss[|ss| - 1].items|
    ensures ItemCount(ss[..|ss| - 1]) + j < |ExportRows(kind, ss)|
    ensures ExportRows(kind, ss)[ItemCount(ss[..|ss| - 1]) + j]
            == RowOf(kind, ss[|ss| - 1], ss[|ss| - 1].items[j], ItemCount(ss[..|ss| - 1]) + j)
  {
    var init := ss[..|ss| - 1];
    var head := ExportRows(kind, init);
    var tail := SectionRows(kind, ss[|ss| - 1], ItemCount(init));
    assert ExportRows(kind, ss) == head + tail;
    assert (head + tail)[|head| + j] == tail[j];
  }

  /** A row of the sections before the last one keeps its number. */
  lemma {:induction false} ExportRowsEarlier(kind: string, ss: seq<MenuSection>, k: nat)
    requires ss != [] && k < |ExportRows(kind, ss[..|ss| - 1])|
    ensures k < |ExportRows(kind, ss)|
    ensures ExportRows(kind, ss)[k] == ExportRows(kind, ss[..|ss| - 1])[k]
  {
    var init := ss[..|ss| - 1];
    var head := ExportRows(kind, init);
    var tail := SectionRows(kind, ss[|ss| - 1], ItemCount(init));
    assert ExportRows(kind, ss) == head + tail;
  }

  /** Item `j` of section `i` is row number `ItemCount(ss[..i]) + j`: the rows follow the
      sections in order and the items of each in order. */
  lemma {:induction false} ExportRowsItems(kind: string, ss: seq<MenuSection>, i: nat, j: nat)
    requires i < |ss| && j < |ss[i].items|
    ensures ItemCount(ss[..i]) + j < |ExportRows(kind, ss)|
    ensures ExportRows(kind, ss)[ItemCount(ss[..i]) + j] == RowOf(kind, ss[i], ss[i].items[j], ItemCount(ss[..i]) + j)
    decreases |ss|
  {
    var init := ss[..|ss| - 1];
    if i == |ss| - 1 {
      ExportRowsLast(kind, ss, j);
    } else {
      ExportRowsItems(kind, init, i, j);
      assert init[..i] == ss[..i] && init[i] == ss[i];
      ExportRowsEarlier(kind, ss, ItemCount(ss[..i]) + j);
    }
  }

  /** Row number `k` is item `j` of section `i`. */
  predicate Locates(ss: seq<MenuSection>, k: nat, i: nat, j: nat) {
    i < |ss| && j < |ss[i].items| && k == ItemCount(ss[..i]) + j
  }

  /** Every row is the row of an item: sections without items give no row. */
  lemma {:induction false} ExportRowsFrom(kind: string, ss: seq<MenuSection>, k: nat)
    requires k < |ExportRows(kind, ss)|
    ensures exists i, j :: Locates(ss, k, i, j)
    decreases |ss|
  {
    var init := ss[..|ss| - 1];
    var c := ItemCount(init);
    if k < c {
      ExportRowsFrom(kind, init, k);
      var i: nat, j: nat :| Locates(init, k, i, j);
      assert init[..i] == ss[..i] && init[i] == ss[i];
      assert Locates(ss, k, i, j);
    } else {
      var i := |ss| - 1;
      assert ss[..i] == init;
      assert Locates(ss, k, i, k - c);
    }
  }

  /** The Dietary cell reads back as the item's tags. */
  lemma {:induction false} DietaryReadsBack(d: Option<seq<string>>)
    requires d.Some? ==> forall i :: 0 <= i < |d.value| ==> d.value[i] in DietTags
    ensures MenuCsv.ParseDietary(DietaryCell(d)) == (if d.Some? then d.value else [])
  {
    if d.Some? {
      MenuCsv.ParseDietaryOfJoin(d.value);
    }
  }

  lemma {:induction false} TrueReadsBack()
    ensures CsvFields.ParseBoolean("true") && !CsvFields.ParseBoolean("false")
  {
    TrimUnchanged("true");
    LowerUnchanged("true");
    TrimUnchanged("false");
    LowerUnchanged("false");
    assert "false" != "true" && "false" != "1" && "false" != "yes" && "false" != "y";
  }

  /** The Spicy cell reads back as whether the item is spicy, Active as active and Featured
      as not featured. */
  lemma {:induction false} FlagsReadBack(kind: string, s: MenuSection, item: MenuItem, order: nat)
    ensures var r := RowOf(kind, s, item, order);
      && (CsvFields.ParseBoolean(r.spicy) <==> item.spicy == Some(true))
      && CsvFields.ParseBoolean(r.active)
      && !CsvFields.ParseBoolean(r.featured)
  {
    TrueReadsBack();
  }

  /** A trimmed, non-empty text, or none. */
  predicate ReadableText(o: Option<string>) {
    o.None? || (o.value != [] && Trim(o.value) == o.value)
  }

  /** A description or price cell reads back as the item's own. */
  lemma {:induction false} TextReadsBack(o: Option<string>)
    requires ReadableText(o)
    ensures CsvFields.OptTrim(OrEmpty(o)) == o
  {
    if o.Some? {
      TrimShape(o.value);
    }
  }

  // ---------------------------------------------------------------------------
  // The add-on format

  /** A string none of whose parts, nor the separator, holds `c` does not hold `c` joined. */
  lemma {:induction false} JoinAvoids(parts: seq<string>, sep: string, c: char)
    requires c !in sep && forall i :: 0 <= i < |parts| ==> c !in parts[i]
    ensures c !in Join(parts, sep)
    decreases |parts|
  {
    if |parts| > 1 {
      JoinAvoids(parts[1..], sep, c);
      assert parts[1..][0] == parts[1];
    }
  }

  /** Text without an opening parenthesis holds no add-on match. */
  lemma {:induction false} NoParenNoMatch(t: string)
    requires '(' !in t
    ensures MenuCsv.Matches(t) == []
  {
    if t != [] {
      forall i | 0 <= i < |t| ensures t[i] != '(' {
        assert t[i] in t;
      }
      assert MenuCsv.ParenIndex(t) == |t|;
    }
  }

  /** As written, a list of add-ons without parentheses is exported as `name: price` entries
      that the reader's add-on pattern does not match: it is read back as no add-ons. */
  lemma {:induction false} ExportedAddOnsLost(list: seq<AddOn>)
    requires |list| >= 1
    requires forall i :: 0 <= i < |list| ==> '(' !in list[i].name && '(' !in list[i].price
    ensures AddOnsCell(Some(list)) != ""
    ensures MenuCsv.ParseAddOnsAsWritten(AddOnsCell(Some(list))) == None
  {
    var entries := seq(|list|, i requires 0 <= i < |list| => AddOnEntry(list[i]));
    forall i | 0 <= i < |entries| ensures '(' !in entries[i] {
      assert entries[i] == list[i].name + ": " + list[i].price;
      assert forall k :: 0 <= k < |": "| ==> ": "[k] != '(';
    }
    assert forall k :: 0 <= k < |"; "| ==> "; "[k] != '(';
    JoinAvoids(entries, "; ", '(');
    NoParenNoMatch(AddOnsCell(Some(list)));
    assert |entries[0]| >= 2;
    if |entries| > 1 {
      assert Join(entries, "; ") == entries[0] + "; " + Join(entries[1..], "; ");
    }
  }

  /** One exported add-on list as written: `Bacon: $2` is read back as no add-ons. */
  lemma {:induction false} AddOnsLostExample()
    ensures AddOnsCell(Some([AddOn("Bacon", "$2")])) == "Bacon: $2"
    ensures MenuCsv.ParseAddOnsAsWritten("Bacon: $2") == None
  {
    var list := [AddOn("Bacon", "$2")];
    assert AddOnsCell(Some(list)) == Join([AddOnEntry(list[0])], "; ");
    ExportedAddOnsLost(list);
  }

  /** The AddOns cell in the format the spreadsheet reader reads, `Name ($2), Name2 ($3)`. */
  function AddOnsCellFixed(list: Option<seq<AddOn>>): string {
    if list.Some? then MenuCsv.RenderAddOns(list.value) else ""
  }

  /** Add-ons the reader can hold are read back from the corrected cell as they were. */
  lemma {:induction false} AddOnsFixedReadBack(list: Option<seq<AddOn>>)
    requires list.Some? ==> |list.value| >= 1 && forall i :: 0 <= i < |list.value| ==> MenuCsv.WritableAddOn(list.value[i])
    ensures MenuCsv.ParseAddOns(AddOnsCellFixed(list)) == list
  {
    if list.Some? {
      MenuCsv.ParseAddOnsOfRendered(list.value);
    } else {
      assert IsBlank("");
    }
  }

  /** The row of an item with the add-ons written in the reader's format. */
  function RowOfFixed(kind: string, s: MenuSection, item: MenuItem, order: nat): CsvRow {
    RowOf(kind, s, item, order).(addOns := AddOnsCellFixed(item.addOns))
  }

  /** The spreadsheet row a generated row becomes; the Type column is not read. */
  function AsMenuRow(r: CsvRow): MenuCsv.MenuRow {
    MenuCsv.MenuRow(r.sectionId, r.sectionTitle, r.name, r.description, r.price, r.dietary,
      r.spicy, r.addOns, r.active, r.featured, NatToString(r.order))
  }

  /** An item the spreadsheet can carry: texts trimmed and non-empty where present, dietary
      tags and add-ons non-empty and well-formed where present, and `spicy` never `false`. */
  predicate Readable(item: MenuItem) {
    && Trim(item.name) == item.name
    && ReadableText(item.description) && ReadableText(item.price)
    && (item.dietary.Some? ==>
          item.dietary.value != [] && forall i :: 0 <= i < |item.dietary.value| ==> item.dietary.value[i] in DietTags)
    && item.spicy != Some(false)
    && (item.addOns.Some? ==>
          |item.addOns.value| >= 1 && forall i :: 0 <= i < |item.addOns.value| ==> MenuCsv.WritableAddOn(item.addOns.value[i]))
  }

  /** What the spreadsheet reader's cell parsers make of a generated row's cells. */
  lemma {:induction false} CellsReadBack(kind: string, s: MenuSection, item: MenuItem, order: nat)
    requires Readable(item)
    ensures var row := RowOfFixed(kind, s, item, order);
      && Trim(row.name) == item.name
      && CsvFields.OptTrim(row.description) == item.description
      && CsvFields.OptTrim(row.price) == item.price
      && MenuCsv.ParseDietary(row.dietary) == (if item.dietary.Some? then item.dietary.value else [])
      && (CsvFields.ParseBoolean(row.spicy) <==> item.spicy == Some(true))
      && MenuCsv.ParseAddOns(row.addOns) == item.addOns
      && CsvFields.ParseOrder(NatToString(row.order)) == order
  {
    TextReadsBack(item.description);
    TextReadsBack(item.price);
    DietaryReadsBack(item.dietary);
    FlagsReadBack(kind, s, item, order);
    AddOnsFixedReadBack(item.addOns);
    CsvFields.ParseOrderOfNatToString(order);
  }

  /** With the add-ons in the reader's format, every item the spreadsheet can carry is read
      back by the spreadsheet reader as itself, and its order as its row number. */
  lemma {:induction false} ItemReadsBack(kind: string, s: MenuSection, item: MenuItem, order: nat)
    requires Readable(item)
    ensures MenuCsv.RowToMenuItem(AsMenuRow(RowOfFixed(kind, s, item, order))) == item
    ensures CsvFields.ParseOrder(AsMenuRow(RowOfFixed(kind, s, item, order)).order) == order
  {
    CellsReadBack(kind, s, item, order);
    var back := MenuCsv.RowToMenuItem(AsMenuRow(RowOfFixed(kind, s, item, order)));
    assert back.dietary == item.dietary;
    if item.spicy.Some? {
      assert item.spicy != Some(false);
      assert item.spicy == Some(item.spicy.value);
      assert item.spicy.value;
    }
    assert back.spicy == item.spicy;
  }
}
