# The Oaks PDX site logic, in Dafny

This project models the decision and data logic behind The Oaks PDX restaurant website, and proves
properties of it. The site is written in TypeScript on Next.js. It covers the following parts.

- **Calendar feed expander** (`lib/ics-parser.ts`, module `IcsParser`): the two passes of `parseICS`.
  - The first pass collects the RECURRENCE-IDs of cancelled overrides per UID.
  - The second pass skips cancelled VEVENTs. It expands each recurring series through its occurrence iterator, within a window and a cap of 1000 occurrences.
  - The result is sorted by start time.
  - `isAllDayEvent` and `groupEventsByDate` are modelled too.
  - A VEVENT is a record whose occurrence iterator is a sequence of (start, RECURRENCE-ID text) pairs. The clock is a parameter `now` in milliseconds.
- **Spreadsheet readers**:
  - the menu (`lib/menus/sheetsCsv.ts`, `MenuCsv`): cell parsers, `rowToMenuItem`, `groupIntoSections` as a loop over a section map, `processRecords` and the fallback menu;
  - the specials (`lib/specials/sheetsSpecialsCsv.ts`, `SpecialsCsv`);
  - the ticker messages (`lib/ticker-csv.ts`, `TickerCsv`).

  The boolean, order and day-list parsers are the same in the three files and are defined once (`CsvFields`). The same holds for the date, day and time-window validity test (`Schedule`). The sorts are a stable insertion sort over the source's comparators (`Lists.SortBy`).
- **Menu export** (`scripts/export-menus-to-sheets-csv.ts`, `MenuExport`):
  - `escapeCSV`;
  - `convertToCSV` and `menuToCSVRows` as loops;
  - an RFC 4180 reader, against which the exported text is proved to read back.
- **Contact endpoint** (`app/api/contact/route.ts`, `ContactRoute`): field and e-mail validation. The per-client sliding-window rate limiter is a class holding `submissionTimes`.
- **Events endpoint** (`app/api/events/route.ts`, `EventsCache`): a class holding `cachedData`, with the TTL freshness test, the stale fallback and the `GET` response.
- **Small pure cores**:
  - opening hours (`lib/hours.ts`, `Hours`);
  - the content schemas (`lib/schemas.ts`, `Schemas`, as decoders from a JSON value);
  - the JSON-LD restaurant record (`lib/schema.ts`, `StructuredData`);
  - `buildCloudinaryUrl` (`Cloudinary`);
  - the ordering configuration (`lib/siteConfig.ts`, `SiteOrdering`);
  - the admin checks (`lib/auth.ts`, `Auth`).
- **Ticker and page logic**:
  - the ticker items (`lib/ticker-data.ts`, `TickerData`) and the ticker component (`components/UnifiedTicker.tsx`, `UnifiedTicker`);
  - the specials strip (`components/specials/SpecialsStrip.tsx`, `SpecialsStrip`);
  - the dietary filter shared by the food and drinks menu pages (`MenuFilter`).

Clocks, environment variables, fetch outcomes, cookies and request bodies are all parameters.
`Wrappers` holds `Option` and `Result`. `Text` models the JavaScript string operations used:
`trim`, `toLowerCase`, `split`, `join`, `includes`, `parseInt`, number printing, and `localeCompare`
as code-point order. `Lists` holds filter, map and the stable sort, with the lemmas about them.
`Compare` holds the two-key comparators.

## Model

| member | source | states |
|---|---|---|
| IcsParser.IsAllDay | lib/ics-parser.ts:137-147 | an event is all-day exactly when its start value is a DATE; a start value that cannot be inspected counts as not all-day |
| IcsParser.CollectCancelled | lib/ics-parser.ts:29-45 | after the first pass, the set recorded for every UID is exactly the RECURRENCE-IDs of the CANCELLED VEVENTs with that UID (`CancelledIds`) |
| IcsParser.CancelledIdsMeaning | lib/ics-parser.ts:36-44 | a RECURRENCE-ID is recorded for a UID exactly when some VEVENT of the feed, before or after the series, is a cancelled override of that occurrence |
| IcsParser.ExpandSeries | lib/ics-parser.ts:61-102 | the while loop over one series emits exactly `ExpandFrom`: the occurrences up to the first one past the window, at most 1000 examined, those before `now` and the cancelled ones skipped, each with its id, end and flags |
| IcsParser.ExpandFromIdsDistinct | lib/ics-parser.ts:68-101 | when a series' occurrences have distinct RECURRENCE-IDs, every id it yields is `uid-` followed by an occurrence's RECURRENCE-ID, and the ids are pairwise distinct |
| IcsParser.ExpandFromBounded | lib/ics-parser.ts:64-68 | a series contributes at most 1000 events, and never more than its iterator yields |
| IcsParser.ExpandFromMembers | lib/ics-parser.ts:68-101 | an event comes from a series exactly when it is the instance of an occurrence `j < 1000` where every occurrence up to `j` starts no later than the window end, occurrence `j` is not before `now`, and it is not cancelled |
| IcsParser.CancelledOccurrenceSkipped | lib/ics-parser.ts:81-84 | an occurrence is never emitted when a cancelled override of it with the same UID appears anywhere in the feed |
| IcsParser.ContributionMembers | lib/ics-parser.ts:48-121 | what one VEVENT contributes: nothing when it is CANCELLED; the emitted instances of a series; a non-recurring event exactly when `now <= start <= now + daysAhead days` |
| IcsParser.CollectedStep | lib/ics-parser.ts:48-122 | one step of the second pass, using the first pass's map, appends exactly that VEVENT's contribution |
| IcsParser.CollectedMembers | lib/ics-parser.ts:48-122 | the second pass's list holds exactly the contributions of the VEVENTs it has passed |
| IcsParser.ParseIcs | lib/ics-parser.ts:18-132 | the two-pass method returns exactly `ParseSpec`: the failure message `Failed to parse ICS data` for a feed that does not parse, otherwise the sorted events |
| IcsParser.ParseIcsMembers | lib/ics-parser.ts:24-125 | an event is returned exactly when some VEVENT of the feed emits it (`Emitted`), with the window end `now + daysAhead * 86400000` |
| IcsParser.ParseSpec | lib/ics-parser.ts:18-132 | specified by `ParseIcsMembers` (exactly the emitted events in the window), `ParseIcsSorted` (by start) and `ParseIcsWindow`; `ParseIcs` computes it |
| IcsParser.ParseIcsSorted | lib/ics-parser.ts:124-125 | the result is sorted by non-decreasing start and is a permutation of what the second pass collected |
| IcsParser.ParseIcsWindow | lib/ics-parser.ts:72-118 | every returned event starts in `[now, now + daysAhead days]`; a non-recurring one is the record of a non-recurring VEVENT; a recurring one has id UID + `-` + occurrence text, from an occurrence among the first 1000, and ends its duration after it starts |
| IcsParser.GroupEventsByDate | lib/ics-parser.ts:152-164 | the map has a group for exactly the days some event starts on; each group is that day's events in input order; the key list holds exactly those days, ordered by each day's first event, which is the map's insertion order |
| IcsParser.FirstOnMeaning | lib/ics-parser.ts:155-159 | the position a day's key is first inserted at is its first event, and no earlier event starts on that day |
| IcsParser.ByDayKeys | lib/ics-parser.ts:155-161 | the groups hold a key exactly when some event starts on that day |
| IcsParser.EventsOnMembers | lib/ics-parser.ts:155-161 | every event is in the group of its own day, and in no other |
| IcsParser.EventsOnAppend | lib/ics-parser.ts:155-161 | grouping keeps input order: the group of a concatenation is the concatenation of the groups |
| CsvFields.OptTrim | lib/specials/sheetsSpecialsCsv.ts:132 | `cell?.trim() \|\| undefined`: absent exactly for a blank cell, otherwise the trimmed, non-empty cell |
| CsvFields.ParseBoolean | lib/specials/sheetsSpecialsCsv.ts:44-48 | true exactly when the trimmed, lower-cased cell is `true`, `1`, `yes` or `y`; false for the empty cell (also `parseActive`/`parseSpicy` in lib/menus/sheetsCsv.ts and `parseBoolean` in lib/ticker-csv.ts) |
| CsvFields.ParseBooleanIgnoresCase | lib/specials/sheetsSpecialsCsv.ts:46 | the reading ignores letter case |
| CsvFields.ParseOrder | lib/specials/sheetsSpecialsCsv.ts:51-55 | 999999 for the empty cell or one with no leading integer, otherwise that integer (same in the menu and ticker readers) |
| CsvFields.ParseOrderOfNatToString | lib/specials/sheetsSpecialsCsv.ts:51-55 | a written order number reads back as itself |
| CsvFields.NormaliseAll | lib/specials/sheetsSpecialsCsv.ts:71-73 | each comma-separated token is trimmed and lower-cased, one result per token |
| CsvFields.KeepValid | lib/specials/sheetsSpecialsCsv.ts:71-74 | exactly the normalised tokens that are valid are kept |
| CsvFields.ParseDaysOfWeek | lib/specials/sheetsSpecialsCsv.ts:68-75 | absent exactly for the empty cell; otherwise the valid `mon`..`sun` tokens in order, possibly none (same in lib/ticker-csv.ts:43-50) |
| CsvFields.TokensOfJoin | lib/specials/sheetsSpecialsCsv.ts:71-73 | clean tokens joined with a comma and blank padding are read back as the same tokens |
| CsvFields.KeepValidOfJoin | lib/specials/sheetsSpecialsCsv.ts:71-74 | valid tokens written joined are kept unchanged |
| CsvFields.ParseDaysOfWeekOfJoin | lib/ticker-csv.ts:43-50 | a non-empty day list written as `days.join(',')` reads back as the same list |
| Schedule.ParseDate | lib/specials/sheetsSpecialsCsv.ts:91 | a date that parses is a calendar date (month 1..12, day within the month, February 29 only in leap years); a day past the month's end rolls over into the next month, as `new Date` does |
| Schedule.ParseDateRollsOver | lib/specials/sheetsSpecialsCsv.ts:91 | `2024-04-31` is read as May 1 |
| Schedule.ParseDateLeapDay | lib/specials/sheetsSpecialsCsv.ts:91 | `2024-02-29` is read as itself |
| Schedule.ParseDateNoLeapDay | lib/specials/sheetsSpecialsCsv.ts:91 | `2023-02-29` is read as March 1 |
| Schedule.IsActiveAt | lib/specials/sheetsSpecialsCsv.ts:86-125 | `isSpecialValid`/`isTickerMessageValid` (lib/ticker-csv.ts:61-100): valid exactly when within the dates, on an allowed day and within the hours |
| Schedule.DatesByDay | lib/specials/sheetsSpecialsCsv.ts:90-98 | with both dates readable, the date test holds exactly on the days from the start date to the end date, both included (start at 00:00:00, end at 23:59:59) |
| Schedule.SecondsOrder | lib/specials/sheetsSpecialsCsv.ts:91-97 | on different days, comparing date-times agrees with comparing the days |
| Schedule.EmptyDayListAllowsAll | lib/specials/sheetsSpecialsCsv.ts:101-105 | an empty day list restricts nothing: it behaves as no list |
| Schedule.HoursInclusive | lib/specials/sheetsSpecialsCsv.ts:108-122 | with both times readable, the window holds exactly when start <= minute of day <= end; a window ending before it starts never holds |
| Schedule.ClockMinutesOfPadded | lib/specials/sheetsSpecialsCsv.ts:112-113 | an `HH:MM` time reads as its minute of the day |
| Text.NumberValueSigned | lib/specials/sheetsSpecialsCsv.ts:112 | `Number` reads `+5` as 5 and `-5` as -5; the fraction `10.5` is outside the modelled spellings and reads as NaN |
| SpecialsCsv.ParseType | lib/specials/sheetsSpecialsCsv.ts:58-65 | always one of the five types; the trimmed, lower-cased cell when it is one, `other` otherwise |
| SpecialsCsv.ParseTypeOfType | lib/specials/sheetsSpecialsCsv.ts:58-65 | every type reads back as itself |
| SpecialsCsv.ParseTypeKelvinSign | lib/specials/sheetsSpecialsCsv.ts:60 | `DRIN` + Kelvin sign + `S` is read as `drinks`, since `toLowerCase` maps U+212A to `k` |
| SpecialsCsv.ParseTypeIgnoresCase | lib/specials/sheetsSpecialsCsv.ts:60 | the reading ignores letter case |
| SpecialsCsv.RowToSpecialFields | lib/specials/sheetsSpecialsCsv.ts:128-147 | `rowToSpecial` field by field: trimmed id and title, each optional text absent exactly when blank, the type, day list, flags and the given order |
| SpecialsCsv.RowToSpecial | lib/specials/sheetsSpecialsCsv.ts:128-147 | specified by `RowToSpecialFields`: every field of the special in terms of its trimmed cell |
| SpecialsCsv.SpecialsOfRows | lib/specials/sheetsSpecialsCsv.ts:195-199 | one special per row, in row order, each with its parsed order |
| SpecialsCsv.SpecialBeforeTotal | lib/specials/sheetsSpecialsCsv.ts:209-218 | the comparator (featured first, then order, then title) is a total preorder |
| SpecialsCsv.ShownOfMembers | lib/specials/sheetsSpecialsCsv.ts:195-218 | the sorted list holds exactly the active specials valid now, each as often as among the rows (a permutation of the filter) |
| SpecialsCsv.ShownSpecialsMembers | lib/specials/sheetsSpecialsCsv.ts:195-208 | the result holds exactly the specials of the rows that are active and valid now |
| SpecialsCsv.ShownSpecialsSorted | lib/specials/sheetsSpecialsCsv.ts:209-218 | the result is sorted by the comparator; every featured special comes before every non-featured one |
| SpecialsCsv.ShownSpecials | lib/specials/sheetsSpecialsCsv.ts:195-218 | specified by `ShownSpecialsMembers` (exactly the active valid specials) and `ShownSpecialsSorted` (featured first, then the comparator) |
| SpecialsCsv.GetSpecialsFromSheets | lib/specials/sheetsSpecialsCsv.ts:175-232 | null for a missing or empty address and for any fetch or read error; otherwise non-empty specials stamped with the given time |
| SpecialsCsv.SpecialsOfRowsMembers | lib/specials/sheetsSpecialsCsv.ts:195-199 | a special is in the mapped list exactly when it is the special of some row |
| SpecialsCsv.GetSpecialsAbsent | lib/specials/sheetsSpecialsCsv.ts:220-222 | with the address set and the rows read, the result is null exactly when no row's special is shown now |
| TickerCsv.RowToTickerMessageFields | lib/ticker-csv.ts:103-115 | `rowToTickerMessage` field by field: trimmed id, empty message exactly for a blank cell, optional texts absent exactly when blank, flags and order |
| TickerCsv.RowToTickerMessage | lib/ticker-csv.ts:103-115 | specified by `RowToTickerMessageFields`: every field of the message in terms of its trimmed cell |
| TickerCsv.MessagesOfRows | lib/ticker-csv.ts:163-164 | one message per row, in row order |
| TickerCsv.MessageBeforeTotal | lib/ticker-csv.ts:177-183 | the comparator (order, then message) is a total preorder |
| TickerCsv.GetTickerMessagesFromCsv | lib/ticker-csv.ts:143-190 | the empty list for a missing or empty address and for any fetch or read error |
| TickerCsv.ShownOfMembers | lib/ticker-csv.ts:163-183 | the sorted list holds exactly the shown messages, each as often as among the rows |
| TickerCsv.MessagesOfRowsMembers | lib/ticker-csv.ts:163-164 | a message is in the mapped list exactly when it is the message of some row |
| TickerCsv.TickerMessagesMembers | lib/ticker-csv.ts:163-176 | with the address set and the rows read, the result holds exactly the messages of the rows with a non-empty message, active, and valid now |
| TickerCsv.ShownOfSorted | lib/ticker-csv.ts:177-183 | the sorted list is ordered by order, then by message |
| TickerCsv.TickerMessagesSorted | lib/ticker-csv.ts:177-185 | the result, in every case, is sorted by order ascending and then by message |
| MenuCsv.ParseDietary | lib/menus/sheetsCsv.ts:47-54 | none for the empty cell; otherwise exactly the trimmed, lower-cased tokens that are `v`, `vg`, `gf`, `df` or `n` |
| MenuCsv.ParseDietaryOfJoin | lib/menus/sheetsCsv.ts:47-54 | tags written as `tags.join(', ')` are read back as the same tags, in order |
| MenuCsv.Matches | lib/menus/sheetsCsv.ts:69-70 | every match of the add-on pattern has a non-empty name text without `(`, and a non-empty amount |
| MenuCsv.Step | lib/menus/sheetsCsv.ts:69-70 | one step of the search moves forward by at least one character and stays within the text; a match it finds has a non-empty name text without `(` and a non-empty amount |
| MenuCsv.PriceTail | lib/menus/sheetsCsv.ts:69 | a price part that is read gives a non-empty run of digits and dots, and ends just after a `)` |
| MenuCsv.MatchesRendered | lib/menus/sheetsCsv.ts:69-70 | an add-on written `Name ($2)` after text without `(` gives one match, whose name text is that text and the name, and then the matches of what follows |
| MenuCsv.MatchesOfRendered | lib/menus/sheetsCsv.ts:69-70 | a written list of add-ons gives one match per add-on, each after the first starting with its `, ` separator |
| MenuCsv.AddOnsOf | lib/menus/sheetsCsv.ts:77-80 | one add-on per match, its price `$` followed by the amount |
| MenuCsv.ParseAddOnsAsWritten | lib/menus/sheetsCsv.ts:65-81 | undefined exactly for a blank cell or no match; otherwise one add-on per match, named by the trimmed text before its parenthesis |
| MenuCsv.ParseAddOnsAsWrittenKeepsComma | lib/menus/sheetsCsv.ts:78 | as written, every add-on after the first keeps the `, ` before its name |
| MenuCsv.AsWrittenExample | lib/menus/sheetsCsv.ts:64-81 | as written, `A ($2), B ($3)` gives a second add-on named `, B` |
| MenuCsv.ParseAddOns | lib/menus/sheetsCsv.ts:65-81 | with the separator dropped from names: undefined exactly for a blank cell or no match, otherwise one add-on per match |
| MenuCsv.ParseAddOnsOfRendered | lib/menus/sheetsCsv.ts:64-81 | add-ons written in the documented `Name ($2), Name2 ($3)` format are read back as themselves |
| MenuCsv.RowToMenuItemFields | lib/menus/sheetsCsv.ts:84-107 | trimmed name; description and price absent exactly when blank; dietary set exactly when non-empty; spicy set, to true, exactly when the cell is truthy; add-ons exactly as parsed |
| MenuCsv.RowToMenuItem | lib/menus/sheetsCsv.ts:84-107 | specified by `RowToMenuItemFields`: every field of the item in terms of its trimmed cell |
| MenuCsv.CollectSections | lib/menus/sheetsCsv.ts:110-145 | the loop leaves the section map holding, for each section id in first-seen order, the title of its first row, the entries of its kept rows in order and the smallest order; rows with a blank id or title are skipped |
| MenuCsv.GroupIntoSections | lib/menus/sheetsCsv.ts:110-169 | the method returns exactly `SectionsOf(rows)`: sections sorted by smallest order then title, items by order then name |
| MenuCsv.SectionBeforeTotal | lib/menus/sheetsCsv.ts:148-153 | the section comparator is a total preorder |
| MenuCsv.EntryBeforeTotal | lib/menus/sheetsCsv.ts:161-166 | the item comparator is a total preorder |
| MenuCsv.SectionIdsMembers | lib/menus/sheetsCsv.ts:120-133 | a section is created exactly for the ids some kept row carries |
| MenuCsv.SectionIdsDistinct | lib/menus/sheetsCsv.ts:126-133 | each section is created once |
| MenuCsv.EntriesOfFiltered | lib/menus/sheetsCsv.ts:135-139 | a section's entries are the kept rows with its id, in row order |
| MenuCsv.TitleOfFirst | lib/menus/sheetsCsv.ts:126-133 | a section keeps the title of its first row |
| MenuCsv.MinOrderOfLeast | lib/menus/sheetsCsv.ts:141-144 | a section's order is the smallest order of its items |
| MenuCsv.SectionsOfOrdered | lib/menus/sheetsCsv.ts:148-153 | every section is made from its own rows, and the sections are ordered by smallest order, then title |
| MenuCsv.SectionsOfComplete | lib/menus/sheetsCsv.ts:148 | every section of the rows is in the result |
| MenuCsv.SectionsOfDistinct | lib/menus/sheetsCsv.ts:148 | no two sections share an id |
| MenuCsv.SectionsOf | lib/menus/sheetsCsv.ts:148-153 | specified by `SectionsOfOrdered` (each section from its own rows, ordered), `SectionsOfComplete` (none lost) and `SectionsOfDistinct` (ids unique) |
| MenuCsv.FinishSorted | lib/menus/sheetsCsv.ts:156-167 | a section's items are its entries reordered, a permutation sorted by order then name |
| MenuCsv.FinishItems | lib/menus/sheetsCsv.ts:160-167 | a section lists the items of its entries, and only those |
| MenuCsv.EntriesOfMembers | lib/menus/sheetsCsv.ts:135-139 | a section's entries are exactly the entries of the kept rows with its id |
| MenuCsv.RowInItsSection | lib/menus/sheetsCsv.ts:120-139 | every kept row's item is in the section with the row's id |
| MenuCsv.SectionItemsFromRows | lib/menus/sheetsCsv.ts:120-139 | every item of a section is the item of a kept row with that id |
| MenuCsv.ActiveRows | lib/menus/sheetsCsv.ts:225-230 | each row kept carries the order parsed from its own order cell |
| MenuCsv.ActiveRowFrom | lib/menus/sheetsCsv.ts:225-226 | every row kept is an active row of the sheet |
| MenuCsv.ActiveRowKept | lib/menus/sheetsCsv.ts:225-230 | every active row of the sheet is kept, with its parsed order |
| MenuCsv.NoActiveRows | lib/menus/sheetsCsv.ts:225-232 | nothing is kept exactly when no row of the sheet is active |
| MenuCsv.ProcessRecords | lib/menus/sheetsCsv.ts:223-243 | the fallback menu when no row is active; otherwise the grouped sections of the active rows, stamped with the given time |
| MenuCsv.SectionItemFromRow | lib/menus/sheetsCsv.ts:120-139 | every item of the sections is the item of a row filed under that section's id, with a title |
| MenuCsv.ProcessedItemsActive | lib/menus/sheetsCsv.ts:223-243 | every item of the menu read from the sheet is the item of an active row under that section's id |
| MenuCsv.RowPlaced | lib/menus/sheetsCsv.ts:120-139 | every row with a section id and title lands in the section with its id |
| MenuCsv.ActiveRowPlaced | lib/menus/sheetsCsv.ts:223-243 | every active row with a section id and title lands in the section with its id |
| MenuCsv.GetMenuFromSheets | lib/menus/sheetsCsv.ts:198-220 | the fallback menu on a fetch or read error or with no active row; otherwise the menu of the active rows |
| MenuCsv.MenuFromSheets | lib/menus/sheetsCsv.ts:246-255 | without an address, the fallback menu with no fetch; otherwise `getMenuFromSheets` on what the address yields (the drinks reader, lines 257-266, is the same) |
| MenuExport.Headers | scripts/export-menus-to-sheets-csv.ts:52-65 | the twelve column names |
| MenuExport.DoubleQuotes | scripts/export-menus-to-sheets-csv.ts:46 | doubling quotes never shortens a cell and changes nothing without quotes |
| MenuExport.EscapeCsv | scripts/export-menus-to-sheets-csv.ts:43-49 | a cell holding a quote, comma or line break is wrapped in quotes; any other cell is written as it is |
| MenuExport.ReadFieldOfEscaped | scripts/export-menus-to-sheets-csv.ts:43-49 | an escaped cell reads back, under RFC 4180, as the cell, whatever follows it |
| MenuExport.ReadRecordOfEncoded | scripts/export-menus-to-sheets-csv.ts:70-83 | a line of escaped cells joined by commas reads back as its cells |
| MenuExport.ReadRecordsOfEncoded | scripts/export-menus-to-sheets-csv.ts:87 | lines joined by line breaks read back as the same records, line breaks inside cells included |
| MenuExport.CsvLines | scripts/export-menus-to-sheets-csv.ts:67-85 | the header line first, then one line per row in row order |
| MenuExport.ConvertToCsv | scripts/export-menus-to-sheets-csv.ts:51-88 | the loop's text is the header line and the row lines joined by line breaks |
| MenuExport.EscapeNatToString | scripts/export-menus-to-sheets-csv.ts:82 | an order written unescaped never needs quoting |
| MenuExport.LineAsWritten | scripts/export-menus-to-sheets-csv.ts:70-83 | a line as written (text cells escaped, order appended as it is) is the encoded record of the row's cells |
| MenuExport.HeaderLineEncodes | scripts/export-menus-to-sheets-csv.ts:67 | the header line is the encoded record of the column names |
| MenuExport.CsvLinesEncoded | scripts/export-menus-to-sheets-csv.ts:67-87 | the lines are the encoded header and the encoded cells of every row |
| MenuExport.ExportReadsBack | scripts/export-menus-to-sheets-csv.ts:51-88 | the exported text reads back as the header followed by every row's cells in order, whatever the cells contain |
| MenuExport.OrderCellReadsBack | scripts/export-menus-to-sheets-csv.ts:82 | the order cell reads back through `parseOrder` as the row's order |
| MenuExport.RowOf | scripts/export-menus-to-sheets-csv.ts:109-122 | Active `true`, Featured `false`, the given order; Spicy `true` exactly for a spicy item, empty otherwise |
| MenuExport.SectionRows | scripts/export-menus-to-sheets-csv.ts:100-123 | one row per item of a section, numbered on from the counter |
| MenuExport.ExportRows | scripts/export-menus-to-sheets-csv.ts:90-127 | one row per item; orders 0, 1, 2, … with no gap; every row active and not featured |
| MenuExport.MenuToCsvRows | scripts/export-menus-to-sheets-csv.ts:90-127 | the loop returns exactly `ExportRows`: sections in order, empty ones skipped, the counter running on across sections |
| MenuExport.ExportRowsItems | scripts/export-menus-to-sheets-csv.ts:94-123 | item `j` of section `i` is row `count of earlier items + j`, so rows follow sections and items in order |
| MenuExport.ExportRowsFrom | scripts/export-menus-to-sheets-csv.ts:94-100 | every row is the row of some item; sections without items give no row |
| MenuExport.DietaryReadsBack | scripts/export-menus-to-sheets-csv.ts:105-107 | the Dietary cell reads back through `parseDietary` as the item's tags |
| MenuExport.FlagsReadBack | scripts/export-menus-to-sheets-csv.ts:117-120 | Spicy reads back as whether the item is spicy, Active as active, Featured as not featured |
| MenuExport.TextReadsBack | scripts/export-menus-to-sheets-csv.ts:114-115 | a description or price cell reads back as the item's own |
| MenuExport.ExportedAddOnsLost | scripts/export-menus-to-sheets-csv.ts:101-103 | as written, a non-empty list of add-ons whose names and prices hold no `(` is exported as a non-empty `name: price` cell that `parseAddOns` as written does not match, so it is read back as none |
| MenuExport.AddOnsLostExample | scripts/export-menus-to-sheets-csv.ts:101-103 | as written, `Bacon: $2` is exported and read back as no add-ons |
| MenuExport.AddOnsFixedReadBack | scripts/export-menus-to-sheets-csv.ts:101-103 | written in the reader's format, add-ons are read back as they were |
| MenuExport.CellsReadBack | scripts/export-menus-to-sheets-csv.ts:109-122 | every cell of a generated row reads back through the reader's parsers (the corrected add-on reader for the add-ons cell) as the item's field |
| MenuExport.ItemReadsBack | scripts/export-menus-to-sheets-csv.ts:100-122 | with add-ons in the reader's format, every item the spreadsheet can carry is read back by `rowToMenuItem`, with the corrected add-on reader, as itself, and its order as its row number |
| Hours.GetTodayHours | lib/hours.ts:5-15 | the hours of the day `getDay()` names, Sunday being day 0 |
| Hours.ClockString | lib/hours.ts:19 | the padded current time is a well-formed `HH:MM` |
| Hours.ClockOrder | lib/hours.ts:22 | on `HH:MM` strings, string order is the order of their values |
| Hours.IsOpenNowValue | lib/hours.ts:17-23 | open exactly when opening <= current time < closing, as `HHMM` values |
| Hours.IsOpenNow | lib/hours.ts:17-23 | specified by `IsOpenNowValue`: open exactly when opening <= current `HH:MM` < closing; by `NeverOpenOvernight`: never open when closing is at or before opening |
| Hours.NeverOpenOvernight | lib/hours.ts:22 | a closing time at or before the opening time is never open |
| Hours.DisplayHour | lib/hours.ts:29 | the display hour is in 1..12 |
| Hours.FormatTimeReadsBack | lib/hours.ts:26-31 | the 12-hour display (AM below 12, PM from 12, padded minutes) reads back as the same hour and minute |
| Hours.FormatTime | lib/hours.ts:26-31 | specified by `FormatTimeReadsBack`: for an hour below 24 the display reads back as the same hour and minute; by `FormatTimePast24`: hours 24 and up read back as hour mod 12, PM |
| Hours.FormatTimePast24 | lib/hours.ts:27-30 | an hour from 24 to 99, which the schema accepts, prints as the hour mod 12 with PM and reads back as that afternoon hour, never as itself |
| Hours.FormatHoursReadsBack | lib/hours.ts:25-34 | `<open> - <close>` reads back as the opening and closing times |
| Hours.FormatHours | lib/hours.ts:25-34 | specified by `FormatHoursReadsBack`: `<open> - <close>` reads back as the opening and closing times |
| Hours.FormatDayName | lib/hours.ts:36-38 | the display has the same length as the name |
| Hours.FormatDayNameShape | lib/hours.ts:37 | only the first character changes, a lower-case letter becoming its capital |
| Hours.FormatDayNameReadsBack | lib/hours.ts:36-38 | every day name is displayed capitalised, and lower-casing gives it back |
| Hours.DayNamesDistinct | lib/hours.ts:5 | the seven day names are distinct |
| Hours.GetNextEvent | lib/hours.ts:40-57 | always a day (never null) with that day's hours |
| Hours.NextEventDay | lib/hours.ts:40-57 | today exactly when the current time is before today's opening, otherwise the day after, with its hours |
| Hours.OpenMeansTomorrow | lib/hours.ts:17-57 | while open, the next opening is tomorrow's |
| Schemas.DecodeAll | lib/schemas.ts:72 | an array decodes exactly when every element does, element by element |
| Schemas.DecodeAllEncodeAll | lib/schemas.ts:72 | an encoded array decodes back when each element round-trips |
| Schemas.DecodeHours | lib/schemas.ts:12-15 | accepted open and close times have the shape two digits, colon, two digits |
| Schemas.DecodeEncodeHours | lib/schemas.ts:12-15 | hours of that shape round-trip |
| Schemas.HoursShapeOnly | lib/schemas.ts:13-14 | only the shape is checked: `99:99` passes, `9:00` fails |
| Schemas.DecodeWeeklyHours | lib/schemas.ts:17-25 | accepted weekly hours carry all seven day keys |
| Schemas.DecodeEncodeWeeklyHours | lib/schemas.ts:17-25 | valid weekly hours round-trip |
| Schemas.WeeklyHoursNeedsEveryDay | lib/schemas.ts:17-25 | an object missing any one day is rejected |
| Schemas.DecodeMenuItem | lib/schemas.ts:56-66 | an accepted item has a string name and only dietary tags from v, vg, gf, df, n |
| Schemas.DecodeEncodeMenuItem | lib/schemas.ts:56-66 | valid items round-trip |
| Schemas.MenuItemRejects | lib/schemas.ts:57-60 | an item without a name, or with a tag outside the five, is rejected |
| Schemas.DecodeMenuSection | lib/schemas.ts:68-73 | an accepted section has id, title and items |
| Schemas.DecodeEncodeMenuSection | lib/schemas.ts:68-73 | valid sections round-trip |
| Schemas.DecodeMenu | lib/schemas.ts:75-79 | an accepted menu has lastUpdatedISO and sections |
| Schemas.DecodeEncodeMenu | lib/schemas.ts:75-79 | valid menus round-trip |
| Schemas.DecodeRecurringEvent | lib/schemas.ts:82-87 | an accepted recurring event's day is one of the seven lower-case names |
| Schemas.RecurringDayChecked | lib/schemas.ts:85 | any other day is rejected |
| Schemas.DecodeHappyHour | lib/schemas.ts:97-107 | `null` is accepted as no happy hour; accepted days are the seven names |
| Schemas.DecodeEncodeUpcomingEvent | lib/schemas.ts:88-94 | every upcoming event round-trips, with `endDate` left out of the object exactly when absent |
| Schemas.UpcomingEndDateOptional | lib/schemas.ts:93 | a missing `endDate` reads as no end date; a present one must be a string |
| Schemas.DecodeEncodePrivateParties | lib/schemas.ts:109-114 | every private-parties block round-trips (the `.email()` check is not modelled) |
| Schemas.PrivatePartiesEnabledBool | lib/schemas.ts:110 | `enabled` given as the string `"true"` is rejected |
| Schemas.DecodeEvents | lib/schemas.ts:116-121 | accepted events carry all four keys, and recurring events have valid days |
| Schemas.HappyHourNullable | lib/schemas.ts:116-121 | `happyHour: null` is accepted as no happy hour, but a missing key is rejected |
| Schemas.DecodeEncodeRecurringEvent | lib/schemas.ts:82-87 | every recurring event whose day is one of the seven names is accepted as itself (the inverse direction of `DecodeRecurringEvent`) |
| Schemas.RecurringEventNeedsFields | lib/schemas.ts:83-86 | an event whose `title`, `description` or `time` is missing, or is not a string, is rejected |
| Schemas.DecodeEncodeHappyHour | lib/schemas.ts:97-107 | every happy hour whose days are among the seven names is accepted as itself, and not read as `null` |
| Schemas.HappyHourNeedsFields | lib/schemas.ts:98-102 | a happy hour without `enabled`, `days`, `startTime`, `endTime` or `description` is rejected (only `items` is optional) |
| Schemas.DecodeEncodeEvents | lib/schemas.ts:116-121 | every events object with valid recurring days and a valid or absent happy hour is accepted as itself |
| StructuredData.OpeningHoursDays | lib/schema.ts:78-85 | one specification per day, Sunday first, with the capitalised day name and that day's open and close times |
| StructuredData.DaysMapCapitalises | lib/schema.ts:68-76 | the day map gives each day key with its first letter capitalised |
| StructuredData.OpeningHoursReadBack | lib/schema.ts:78-85 | looking a day up by its display name gives back that day's hours |
| StructuredData.OpeningHours | lib/schema.ts:78-85 | seven entries; specified by `OpeningHoursDays` (one per day, Sunday first, that day's times) and `OpeningHoursReadBack` |
| StructuredData.DisplayNamesDistinct | lib/schema.ts:68-76 | the seven display names are distinct |
| StructuredData.GenerateRestaurantSchema | lib/schema.ts:35-99 | the context, type, name, url, contacts, PostalAddress, cuisines and price range copied over; geo exactly when both coordinates are truthy; the opening hours; sameAs present exactly when a link exists, Instagram before Facebook; hasMenu the two menu links |
| Cloudinary.Transformations | lib/cloudinary.ts:65-67 | the segment begins `f_<format>,q_<quality>`, each `auto` by default |
| Cloudinary.BuildCloudinaryUrl | lib/cloudinary.ts:72 | the URL starts with `https://res.cloudinary.com/` |
| Cloudinary.TransformationsReadBack | lib/cloudinary.ts:65-70 | the segment reads back as format, quality and the width only when it is given and not zero |
| Cloudinary.UrlReadsBack | lib/cloudinary.ts:64-72 | the URL reads back as cloud name, transformation segment and public id under `image/upload` |
| Cloudinary.DefaultsAreAuto | lib/cloudinary.ts:65-72 | with no options the URL asks for `f_auto,q_auto` and no width |
| SiteOrdering.TrimmedOr | lib/siteConfig.ts:16-17 | the trimmed value when not blank, the fallback otherwise |
| SiteOrdering.HasOrderingIff | lib/siteConfig.ts:47 | ordering is on exactly when the URL variable is set and not blank, and the URL is then trimmed |
| SiteOrdering.CustomLabelWins | lib/siteConfig.ts:26-28 | a non-blank custom label wins, trimmed, whatever the mode |
| SiteOrdering.ModeLabels | lib/siteConfig.ts:31-40 | `delivery` gives `Order Delivery`, `both` gives `Order Online`, any other or unset mode `Order Pickup` |
| SiteOrdering.LabelNeverBlank | lib/siteConfig.ts:24-41 | the label is never empty and never padded |
| SiteOrdering.ModeIsCaseSensitive | lib/siteConfig.ts:31-39 | a capitalised mode is not recognised |
| SiteOrdering.GetDefaultOrderLabel | lib/siteConfig.ts:24-41 | specified by `CustomLabelWins` (a non-blank custom label, trimmed), `ModeLabels` (the label per mode) and `LabelNeverBlank` (never empty, never padded) |
| SiteOrdering.HasOrdering | lib/siteConfig.ts:47 | specified by `HasOrderingIff`: on exactly when the URL variable is set and not blank |
| SiteOrdering.GetOrderLabel | lib/siteConfig.ts:53-56 | specified by `CustomLabelWins`, `ModeLabels` and `LabelNeverBlank`, which are stated of this exported label |
| Auth.VerifyAdminPassword | lib/auth.ts:6-15 | false with an unset or empty admin password; otherwise true exactly when the password equals it |
| Auth.EmptyPasswordRejected | lib/auth.ts:9-14 | the empty password is never accepted |
| Auth.OnePassword | lib/auth.ts:14 | at most one password is accepted |
| Auth.RequireAdmin | lib/auth.ts:29-40 | nothing exactly when the `oaks_admin` cookie is `1`; otherwise a 401 JSON `Unauthorized` response |
| Auth.CookieOpensGuard | lib/auth.ts:20-23 | setting the cookie to `1` opens the guard whatever other cookies there are; any other value keeps it closed |
| Auth.IsAdmin | lib/auth.ts:20-23 | specified by `CookieOpensGuard`: true exactly when the `oaks_admin` cookie is `1`, whatever other cookies there are; `RequireAdmin` answers 401 exactly when it is false |
| ContactRoute.MatchesEmailIff | app/api/contact/route.ts:22-23 | the scanner accepts exactly the strings `^[^\s@]+@[^\s@]+\.[^\s@]+$` matches, with `\s` the full JavaScript white-space set |
| ContactRoute.MatchesEmail | app/api/contact/route.ts:22-23 | specified by `MatchesEmailIff`: accepts exactly what `^[^\s@]+@[^\s@]+\.[^\s@]+$` matches |
| ContactRoute.MatchesEmailExample | app/api/contact/route.ts:22 | `a@b.co` matches; `a@b`, `a b@c.d`, `a@@b.c` do not |
| ContactRoute.MatchesEmailEmSpace | app/api/contact/route.ts:22 | an address with an em space (U+2003) in its local part does not match |
| ContactRoute.Validate | app/api/contact/route.ts:10-28 | whatever it rejects, it rejects with a failure reply; `ValidationReplies` states which |
| ContactRoute.ValidationReplies | app/api/contact/route.ts:13-28 | 500 exactly when the body cannot be read or is `null`; otherwise 400 exactly when a field is missing or empty (always so for a number, string, boolean or array body) or the e-mail does not match |
| ContactRoute.NotObjectMissingFields | app/api/contact/route.ts:11-19 | a JSON body that is not an object is answered 400 `Missing required fields`, and the limiter is not touched |
| ContactRoute.RejectionKeepsHistory | app/api/contact/route.ts:13-43 | every rejection (400, 429, 500) leaves the stored history as it was |
| ContactRoute.RateLimitDecision | app/api/contact/route.ts:31-47 | 429 exactly when the client (`x-forwarded-for`, else `unknown`) has 3 submissions less than 60000 ms old; otherwise accepted, the client's history becoming the recent ones plus now, other clients unchanged |
| ContactRoute.RecentIsFilter | app/api/contact/route.ts:34-36 | the recent list is the filter `now - t < 60000` |
| ContactRoute.Recent | app/api/contact/route.ts:34-36 | specified by `RecentIsFilter`: exactly the times less than 60000 ms before now, in order; by `RecentLater`: pruning again at a later time equals pruning once at that time |
| ContactRoute.ClientKey | app/api/contact/route.ts:31 | the key is never empty, and a non-empty `x-forwarded-for` header is the key as is; `RateLimitDecision` keys the history by it |
| ContactRoute.Admission | app/api/contact/route.ts:31-47 | specified by `RateLimitDecision`: 429 exactly when the client already has 3 recent submissions, otherwise accepted with the recent list plus now stored |
| ContactRoute.Respond | app/api/contact/route.ts:13-47 | specified by `ValidationReplies` (500 and 400 cases), `RateLimitDecision` (429 and acceptance) and `RejectionKeepsHistory` (a rejection stores nothing) |
| ContactRoute.RecentLater | app/api/contact/route.ts:34-47 | pruning at one time and then at a later one prunes at the later one |
| ContactRoute.SpacedWindow | app/api/contact/route.ts:38-47 | submissions each admitted with fewer than 3 recent before it never put more than 3 into one window |
| ContactRoute.LaterClock | app/api/contact/route.ts:32 | time passing keeps the limiter invariant |
| ContactRoute.AcceptKeepsInvariant | app/api/contact/route.ts:45-47 | accepting a submission keeps the limiter invariant |
| ContactRoute.AcceptKeepsRecent | app/api/contact/route.ts:46-47 | after an acceptance, the stored list still equals, at every later time, the recent part of what was accepted |
| ContactRoute.AcceptKeepsSpaced | app/api/contact/route.ts:38-47 | with times in order, the accepted submission keeps the accepted submissions spaced |
| ContactRoute.ContactEndpoint.constructor | app/api/contact/route.ts:4 | the module starts with an empty submission map and the limiter invariant holding |
| ContactRoute.ContactEndpoint.Post | app/api/contact/route.ts:8-103 | the reply and new `submissionTimes` are `Respond` of the old map; the invariant holds; the accepted log grows by `now` exactly on a 200 |
| ContactRoute.ContactEndpoint.Admit | app/api/contact/route.ts:30-47 | the rate-limit step: reply and map as `Admission`, invariant kept |
| ContactRoute.AtMostThreePerWindow | app/api/contact/route.ts:5-6 | while the times seen are in order, no client has more than 3 submissions accepted in any 60-second window |
| EventsCache.CacheTtlMinutes | app/api/events/route.ts:8 | an unset or empty variable means 15 minutes; a written number of minutes means that many, in milliseconds |
| EventsCache.EventsEndpoint.constructor | app/api/events/route.ts:8-9 | the module starts with no cached data and the TTL read from the variable once |
| EventsCache.EventsEndpoint.FetchAndParseIcs | app/api/events/route.ts:17-67 | the result and new cache are `FetchStep` of the old cache |
| EventsCache.EventsEndpoint.Get | app/api/events/route.ts:69-88 | the events with `cached` the freshness at the second clock reading, or a 500 with the error message; the cache as `FetchStep` |
| EventsCache.FreshIsServed | app/api/events/route.ts:21-24 | a fresh cache is served unchanged, whatever the URL and fetch would give |
| EventsCache.RefreshReplacesCache | app/api/events/route.ts:42-55 | a successful fetch and parse replaces the cache with the new list stamped with this call's time, and returns it |
| EventsCache.FailureFallsBack | app/api/events/route.ts:56-66 | a failed refresh leaves the cache alone and returns the stale list when there is one; only without a cache does the error reach the caller |
| EventsCache.MissingUrlNoFallback | app/api/events/route.ts:26-29 | a missing URL fails even with a stale cache |
| EventsCache.StepOutcomes | app/api/events/route.ts:17-67 | the answer is the cached list, the list just fetched and now cached, or an error; the cache only ever changes to a list stamped with the call's time |
| EventsCache.CacheServesWithinTtl | app/api/events/route.ts:21-24 | after a successful refresh, every call less than a TTL later gets the same list from the cache |
| EventsCache.NoTtlNeverFresh | app/api/events/route.ts:8-21 | with a `NaN` TTL, or a non-positive one and a cache stamped no later than now, the cache is not fresh |
| EventsCache.CacheTtl | app/api/events/route.ts:8 | specified by `CacheTtlMinutes`: 15 minutes when the variable is unset or empty, otherwise its minutes in milliseconds |
| EventsCache.Fresh | app/api/events/route.ts:21 | specified by `FreshIsServed` (a fresh cache is served as is) and `NoTtlNeverFresh` (no usable TTL, no freshness) |
| EventsCache.Refresh | app/api/events/route.ts:26-55 | specified by `RefreshReplacesCache`: a successful fetch and parse is the new list; by `MissingUrlNoFallback`: a missing URL is an error |
| EventsCache.FetchStep | app/api/events/route.ts:17-67 | specified by `StepOutcomes`, `FreshIsServed`, `RefreshReplacesCache` and `FailureFallsBack`: served from cache, refreshed, stale fallback, or an error |
| TickerData.EmojiFor | lib/ticker-data.ts:98-106 | a type outside the five falls back to ✨ |
| TickerData.EmojiByType | lib/ticker-data.ts:98-106 | among the five types, only `other` has ✨ |
| TickerData.SpecialsItems | lib/ticker-data.ts:87-113 | none for null or no specials; otherwise the items of the first (at most) three specials, in order |
| TickerData.SpecialItemReadsBack | lib/ticker-data.ts:108-111 | the item id is `special-` + id; the text is the title, with ` - ` + price exactly when a price is set |
| TickerData.NextEventItem | lib/ticker-data.ts:13-82 | an item exactly when the URL is configured, the fetch succeeded and parsed, and an event lies in the next 30 days; it is then the earliest one's item |
| TickerData.PlaceholderSkipped | lib/ticker-data.ts:18-21 | a URL containing `YOUR_CALENDAR_ID` gives no item |
| TickerData.EventItemReadsBack | lib/ticker-data.ts:52-75 | the id is `event-` + id; the text is `title - date`, with ` at time` only for an event that is not all-day |
| TickerData.GetSpecialsTickerItems | lib/ticker-data.ts:87-113 | specified by `SpecialsItems`: nothing for no specials, else the items of the first three in order; by `SpecialItemReadsBack`: each item's id and text |
| TickerData.GetNextCalendarEvent | lib/ticker-data.ts:13-82 | specified by `NextEventItem`: an item exactly when the feed is configured, fetched, parsed and has an event in 30 days, the earliest; by `PlaceholderSkipped` |
| TickerData.EventItem | lib/ticker-data.ts:52-75 | specified by `EventItemReadsBack`: id `event-` + id and text `title - date`, with ` at time` only when not all-day |
| UnifiedTicker.EventAfterSpecials | components/UnifiedTicker.tsx:16-19 | the specials items come first, and the event item, when present, is the one item after them |
| UnifiedTicker.DefaultWhenEmpty | components/UnifiedTicker.tsx:22-24 | the default item alone exactly when there are no specials and no event |
| UnifiedTicker.Render | components/UnifiedTicker.tsx:14-44 | the entries are the items twice (length 2n), keyed `id-index`, with pairwise distinct keys |
| UnifiedTicker.KeysDistinct | components/UnifiedTicker.tsx:39 | keys at different indices differ whatever the ids |
| UnifiedTicker.DefaultEmojiIsMojibake | components/UnifiedTicker.tsx:24 | the default emoji as written is the UTF-8 bytes of 🎉 read as Windows-1252, and is not 🎉 |
| UnifiedTicker.DefaultEmojiMatchesEvents | components/UnifiedTicker.tsx:24 | with the intended emoji, the default item shows the event items' single-character 🎉 |
| SpecialsStrip.StripLayout | components/specials/SpecialsStrip.tsx:10-15 | nothing exactly when there are no specials; the horizontal layout exactly from three specials |
| SpecialsStrip.TruncateDescription | components/specials/SpecialsStrip.tsx:62-66 | empty for undefined or empty text; text up to the maximum unchanged; never longer than the maximum plus 3 |
| SpecialsStrip.TruncatedShape | components/specials/SpecialsStrip.tsx:65 | shortened text ends in `...` after a piece of the text's first `maxLength` characters |
| SpecialsStrip.TruncatedLength | components/specials/SpecialsStrip.tsx:65 | without white space at the cut's ends, the text is cut at exactly the maximum |
| SpecialsStrip.TypeColor | components/specials/SpecialsStrip.tsx:68-76 | an unknown type takes the colour of `other` |
| SpecialsStrip.TypeColorsDistinct | components/specials/SpecialsStrip.tsx:68-74 | the five types have distinct colours |
| SpecialsStrip.CardDescription | components/specials/SpecialsStrip.tsx:60-66 | a card shows a description exactly when it is set and not empty |
| MenuFilter.HandleFilterClick | app/menu/MenuPageClient.tsx:22-25 | clicking the selected filter clears it; clicking another selects it |
| MenuFilter.ToggleTwice | app/menu/MenuPageClient.tsx:22-25 | two clicks on a filter return to no selection; a click on another switches to it |
| MenuFilter.OfferedFilters | app/menu/MenuPageClient.tsx:15-20 | the offered filters are `v`, `vg`, `gf`, `df`, each a schema dietary tag |
| MenuFilter.NoFilterUnchanged | app/menu/MenuPageClient.tsx:27-34 | with no filter the sections are unchanged |
| MenuFilter.FilteredSectionShape | app/menu/MenuPageClient.tsx:28-33 | with a filter, every shown section is an original section with only its tagged items, and is not empty |
| MenuFilter.FilteredItemsInOrder | app/drinks/DrinksPageClient.tsx:27-34 | with a filter, the items shown are exactly the tagged items of the menu, in menu order (the same code as app/menu/MenuPageClient.tsx:27-34) |
| MenuFilter.FilteredSections | app/menu/MenuPageClient.tsx:27-34 | specified by `NoFilterUnchanged`, `FilteredSectionShape` (only tagged items, no empty section) and `FilteredItemsInOrder` (menu order) |

## Left out

- The ical.js library: tokenising, RRULE/EXDATE expansion, `toJSDate` and time zones. A VEVENT and its occurrence iterator are inputs, and `Malformed` stands for a feed the library rejects.
- IcsParser.ParseIcs: reads the clock itself. The model takes the same `now` that the calling route read, so the route and the parser see one instant.
- Wall clock, time zone and locale:
  - `getCurrentPTTime`, `getDay`, `toISOString` are parameters (`Schedule.LocalTime`, the day index and the time in `Hours`, `DayKey` in `IcsParser`);
  - the `en-US` date and time text in `lib/ticker-data.ts` are functions inside `TickerData.LocalCalendar`;
  - `lastUpdatedISO` is a given stamp.
- Foreign I/O: `fetch` and `csv-parse` (their outcomes are parameters), `fs`, `JSON.parse`, Next.js responses and cookies, the Resend e-mail call, logging, and the Cloudinary SDK.
- The revalidate-seconds handling in the CSV readers is cache plumbing for `fetch` and is not modelled.
- ContactRoute.ContactEndpoint.Post: the e-mail sending does not affect the 200 reply. A body field that is present but not a string (a number, an object) is not modelled: fields are optional strings.
- ContactRoute.AtMostThreePerWindow: holds while the clock readings have been non-decreasing. With a clock that goes back, the limiter's pruning can forget submissions, and the bound is not proved for that case.
- Hours.FormatTimeReadsBack: the read-back needs an hour below 24. The hours schema lets any two-digit hour through; hours 24 to 99 print as the hour mod 12 with PM (`25:00` as `1:00 PM`, `99:99` as `3:99 PM`) and read back as a different time, as `Hours.FormatTimePast24` states. Text that is not `HH:MM` digits, for which the source prints `NaN` minutes (`ab:cd` gives `12:NaN AM`), is not modelled: `FormatTime` requires the `HH:MM` shape.
- Cloudinary.BuildCloudinaryUrl: the width is an integer. Fractional widths and their decimal printing are not modelled.
- SpecialsStrip.TruncateDescription: lengths count characters (code points), not UTF-16 code units as JavaScript does. They differ for text outside the Basic Multilingual Plane.
- Text.Lower: maps `A`-`Z` and the Kelvin sign (U+212A, to `k`) as `toLowerCase` does and keeps every other character. Non-ASCII letters are not lower-cased; the values compared against are ASCII words, and of the non-ASCII characters only the Kelvin sign lower-cases to an ASCII letter.
- Text.NumberValue: reads blank text as 0, and a decimal digit string (after trimming), optionally preceded by `+` or `-`, as that signed integer. Other spellings `Number` accepts, such as `10.5`, `1e1`, `0x1F` or `Infinity`, are modelled as NaN.
- Schedule.IsActiveAt: the `HH:MM` pieces of a time window are read by `Text.NumberValue`, so a window written with a fraction or exponent (`10.5:00`) counts as unreadable here, while `Number` would read it.
- Schedule.ParseDate: reads only the ten-character `YYYY-MM-DD` form. `new Date` also accepts the expanded-year form (`+002024-04-05`) and whatever else the JavaScript engine's fallback date parser reads once `T00:00:00` or `T23:59:59` is appended. Here those are unreadable dates, and an unreadable date leaves its side of the window open, as an Invalid Date does in the source. So the model reads fewer spellings than the source. `Schedule.IsActiveAt` inherits this narrowing, and so do the specials and ticker filters that use it (lib/specials/sheetsSpecialsCsv.ts:90,95; lib/ticker-csv.ts:66,71).
- SpecialsCsv.ParseType: lower-cases with `Text.Lower`; for a cell that is one of the five types up to case, the result agrees with the source.
- EventsCache.EventsEndpoint.FetchAndParseIcs: modelled as one atomic step. The source awaits the fetch between the freshness test and the cache write, so two concurrent requests can interleave there; that interleaving is not modelled.
- Text.LocaleCompare: is code-point order. Locale collation is not modelled, only that the order is total.
- Text.ParseIntPrefix: a decimal `parseInt`. Leading white space, a sign and leading digits are read; the `0x` and other radix rules are not modelled.
- TickerData.EmojiFor and SpecialsStrip.TypeColor: a type such as `constructor` would pick up an inherited object member in the source's lookup tables. `parseType` never produces one, and the model falls back instead.
- Floating-point latitude and longitude: only whether each is truthy matters (`StructuredData`).
- zod: only the shape, enum and `HH:MM` checks are modelled. The `.email()` and `.url()` checks and the site configuration object are not.
- `Promise.all` in `getTickerData`: the two lookups are independent and are modelled separately.
- MenuCsv.RowToMenuItem: reads the add-ons cell with the corrected `ParseAddOns`, not `ParseAddOnsAsWritten`; see Findings, first row. The same holds for every member built on it:
- MenuCsv.RowToMenuItemFields: the add-ons are stated for the corrected reader.
- MenuCsv.CollectSections: its items come from the corrected reader.
- MenuCsv.GroupIntoSections: its items come from the corrected reader.
- MenuCsv.ProcessRecords: its items come from the corrected reader.
- MenuCsv.GetMenuFromSheets: its items come from the corrected reader.
- MenuCsv.MenuFromSheets: its items come from the corrected reader.
- MenuExport.CellsReadBack: the add-ons cell is the corrected one, read by the corrected reader.
- MenuExport.ItemReadsBack: the round trip uses the corrected add-ons cell and reader.
- UnifiedTicker.DefaultWhenEmpty: the default item carries the corrected emoji 🎉, not the `ðŸŽ‰` the source writes; see Findings, third row.
- UnifiedTicker.Render: renders the default item with the corrected emoji.
- MenuExport.MenuToCsvRows: models the exporter as written (`name: price; …` add-ons). The round trip is proved with the corrected add-on cell; see Findings.
- Rendering, JSX markup, React state and effects, and analytics calls are not modelled.

## Findings

| source | as written | input that shows it | evidently intended | confidence | as-written member | corrected member |
|---|---|---|---|---|---|---|
| lib/menus/sheetsCsv.ts:69-79 | each add-on name is the trimmed text matched by `[^(]+` since the previous match ended, which for every add-on after the first begins with the `, ` separator | `A ($2), B ($3)` gives the add-ons `A` and `, B` | the documented format `Name ($2), Name2 ($3)` read as `A` and `B` | high, not executed | MenuCsv.AsWrittenExample | MenuCsv.ParseAddOnsOfRendered |
| scripts/export-menus-to-sheets-csv.ts:101-103 | add-ons are exported as `name: price` entries joined by `; `, a form the spreadsheet reader's add-on pattern does not match | an item with the add-on `Bacon` at `$2` is exported as `Bacon: $2`, which `parseAddOns` reads back as no add-ons | add-ons exported in the reader's `Name ($2), Name2 ($3)` format so that they survive the round trip | high, not executed | MenuExport.ExportedAddOnsLost | MenuExport.AddOnsFixedReadBack |
| components/UnifiedTicker.tsx:24 | the default item's emoji is the four characters `ðŸŽ‰`: the UTF-8 bytes of 🎉 decoded as Windows-1252 | no specials and no upcoming event: the ticker shows `ðŸŽ‰ Check Events for What's Happening` | 🎉, as every event item carries (lib/ticker-data.ts:76) | high, not executed | UnifiedTicker.DefaultEmojiIsMojibake | UnifiedTicker.DefaultEmojiMatchesEvents |
