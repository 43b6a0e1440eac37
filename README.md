# churchtools_helpers: export pages and spreadsheet writer, modelled in Dafny

The repository is a small Streamlit application on top of a ChurchTools client. It has two
export pages. The calendar page lists the appointments of the selected calendars. The service
roster page lists who serves in which service type at each upcoming event. Both pages can write
their table into an Excel sheet through `document_utils.Document`. `create_filename` names the
exported participant lists.

The model has six modules:

- `Wrappers` (wrappers.dfy) holds `Option` and `Result`.
- `Times` (times.dfy) holds `Instant`, a point in time as the client returns it.
- `Sequences` (sequences.dfy) holds the order-preserving `Filter`, with its subsequence and
  membership properties. It models the calendar page's two filtering comprehensions
  (pages/1_Kalender_Export.py lines 18 and 33). The roster page uses it only to find the labels
  `.loc` cannot select.
- `Filenames` (filenames.dfy) models `create_filename`: the base name, then date, type and group
  suffixes, then the extension. An empty `type` string is the IndexError path.
- `Documents` (documents.dfy) models the sheet as a map from cell position to text and format.
  - `Document` is a class whose fields are the state `write` changes: cells, column widths and
    formats, page header, orientation, print area and whether the writer is closed.
  - It covers the print-area reference `A1:<letter><rows>` and the column-width lists of
    `dump_calendar` and `dump_services`.
- `CalendarExport` (calendar_export.dfy) models the calendar page:
  - the calendar option filter and the filter that hides regular services;
  - the loop that turns appointments into rows;
  - pandas' `drop_duplicates` on (startDate, startTime, caption), which keeps first occurrences;
  - when the page has a table and when the export runs.
- `ServicesExport` (services_export.dfy) models the roster page:
  - the loop that builds the service map;
  - the nested loop that fills one dict per event;
  - the fixed selection of nine columns;
  - when a table and an export buffer exist.

pandas behaviour is modelled where the pages depend on it:
- A frame built from a list of dicts has one column per key of some row. A row lacking a key
  holds NaN, modelled as `None`.
- `drop_duplicates` with a subset column that no row has raises KeyError. On the calendar page
  that is "startTime" when every shown appointment is all-day. NaN equals NaN for this purpose.
- `.loc[:, columns]` with a label that no row has raises KeyError. On the roster page that
  happens when no event has a service of one of the nine types.

Date and time formatting (`strftime`, time-zone conversion) enters the model as function
parameters. Instants are integers.

## Model

| member | source | states |
|---|---|---|
| Sequences.Filter | pages/1_Kalender_Export.py:18 | The kept elements are exactly the input elements that satisfy the predicate. Each keeps its multiplicity, and the result is a subsequence of the input. |
| Sequences.FilterIdempotent | pages/1_Kalender_Export.py:33 | Filtering twice with the same predicate equals filtering once. |
| Filenames.DateSuffix | document_utils.py:170-171 | No date gives no suffix. A date gives "_" followed by the date text. |
| Filenames.TypeSuffix | document_utils.py:172-178 | The suffix is "_" plus at most one character. It is "_" alone exactly when the type starts with 'R'. Otherwise the character is 'U' for 'Ü' and the type's first character for anything else. |
| Filenames.GroupsSuffix | document_utils.py:179-193 | The suffix is non-empty exactly for the group codes "1" to "6", and then starts with "_". |
| Filenames.CreateFilename | document_utils.py:166-195 | It fails exactly when `type` is the empty string (`str(type)[0]` raises). Otherwise the name starts with "Teilnehmer" and ends with the extension. |
| Filenames.NoArgumentsName | document_utils.py:166-195 | With no optional argument the name is "Teilnehmer" plus the extension, so "Teilnehmer.xlsx" by default. |
| Filenames.DateSplicedAfterBase | document_utils.py:170-171 | A date adds exactly "_" and the date right after "Teilnehmer". Whether the call succeeds does not depend on the date. |
| Filenames.TypeSuffixInName | document_utils.py:172-178 | A type starting with 'R' gives "_", one starting with 'Ü' gives "_U", any other gives "_" and its first character. Only the first character matters. |
| Filenames.RegularTypeStillMarked | document_utils.py:174-178 | A type starting with 'R' still changes the name: the "_" stays. |
| Filenames.UmlautTypeCollides | document_utils.py:176-177 | Types starting with 'Ü' and types starting with 'U' give the same name. |
| Filenames.GroupCodes | document_utils.py:179-191 | Group codes "1" to "6" give "_A", "_B", "_C", "_A-C", "_B-C" and "_ohne_Gruppe". |
| Filenames.GroupInName | document_utils.py:179-195 | The group suffix is placed between base name and extension. |
| Filenames.OtherGroupsIgnored | document_utils.py:192-193 | Any other `groups` value gives the same name as no groups. |
| Filenames.GroupCodesDistinguished | document_utils.py:179-195 | Two different group codes always give different names, whatever the date and type. |
| Documents.DataCells | document_utils.py:54 | `to_excel` from row 0 puts exactly the frame's cells into the sheet, cell (r, c) holding `rows[r][c]`, unformatted. |
| Documents.HeaderCells | document_utils.py:46-48 | Row 0 holds exactly the column labels, in the header format. |
| Documents.ApplyWidths | document_utils.py:55-56 | The columns with a format are the old ones plus every listed column. A column not listed keeps its old width and format. |
| Documents.ApplyWidthsLastWins | document_utils.py:55-56 | A listed column ends with its last listed width, in the given format. |
| Documents.WidthsEachApplied | document_utils.py:55-56 | In a list naming each column once, every listed column gets its own width in the default format. |
| Documents.Decimal | document_utils.py:63-64 | The row count is written as a non-empty string of digits without a leading zero. |
| Documents.DecimalRoundTrip | document_utils.py:63-64 | The decimal text reads back as the row count. |
| Documents.ColumnLetterIsUppercase | document_utils.py:62 | `chr(ord('@') + n)` is an uppercase letter exactly for 1 to 26 columns, and it is the n-th letter. |
| Documents.PrintAreaRef | document_utils.py:62-64 | The reference starts with "A1:". Its fourth character is `chr(ord('@') + columns)`. The rest is digits that read back as the row count. |
| Documents.PrintAreaRefDetermines | document_utils.py:62-64 | Different column or row counts give different print-area references. |
| Documents.WrittenCells | document_utils.py:54-58 | After `write` a cell exists exactly where the sheet had one, where the frame has one (from row 0), or, with a header, in row 0 under a label. `HeaderReplacesFirstRow` and `HeaderedSheetTexts` state what each cell holds. |
| Documents.WrittenRowsWithinPrintArea | document_utils.py:53-64 | Every written cell lies in the rows the print area covers (with a header, given at least one row). |
| Documents.HeaderReplacesFirstRow | document_utils.py:54-58 | As written, with a header the labels replace row 0, and only rows 1 onwards keep the frame's data. |
| Documents.HeaderedSheetTexts | document_utils.py:54-58 | As written, with a header every cell holds either a label or a frame cell outside the labelled part of row 0. |
| Documents.FirstRowTextLost | document_utils.py:54-58 | As written, a first-row text that appears nowhere else is in no cell of the sheet. |
| Documents.FirstServiceRowLost | document_utils.py:86-100 | For a two-event roster, the first event's date and assignee are in no cell. |
| Documents.BelowHeaderKeepsEveryRow | document_utils.py:53-64 | Corrected layout: every data cell survives, one row lower when there is a header. |
| Documents.BelowHeaderLabels | document_utils.py:46-48 | Corrected layout: row 0 holds the labels in the header format. |
| Documents.BelowHeaderWithinPrintArea | document_utils.py:62-64 | Corrected layout: every cell lies in the rows of the print area, which counts the header row. |
| Documents.Document.constructor | document_utils.py:18-44 | The sheet starts empty with row height 30 and three formats: default (border 1, wrap, size 12); column header (adds bold and #d4d4d4); header (adds top and center alignment). |
| Documents.Document.SetColumn | document_utils.py:50-51 | One column gets the width and the default format. Nothing else changes. |
| Documents.Document.SetColumns | document_utils.py:55-56 | The width loop applies `_set_column` to each pair, in list order. |
| Documents.Document.PutFrame | document_utils.py:54-58 | The cells become the old cells, then the frame from the given row, then, with a header, the labels in row 0 (later writes win). |
| Documents.Document.SetHeaderColumn | document_utils.py:46-48 | The loop adds exactly the header cells to the sheet. |
| Documents.Document.Write | document_utils.py:53-65 | Sets the new cells, column formats, page header and orientation (set only when asked). Sets print area "A1:" + letter + row count and closes the writer. The formats and row height are unchanged. |
| Documents.Document.WriteBelowHeader | document_utils.py:53-65 | Corrected `write`: the same state change, except the frame starts below the header row and the print area counts that row. |
| Documents.DumpCalendar | document_utils.py:72-83 | A fresh closed document: the frame without header; columns A to F with widths 13, 15, 7, 40, 30, 30 in the default format; page header "Kalender"; portrait; print area "A1:F" + rows; row height 30 and the three formats of the constructor. |
| Documents.DumpServices | document_utils.py:86-100 | A fresh closed document: frame and header cells; column A with width 7 and B to I with width 30, in the default format; page header "Dienste"; portrait; print area "A1:I" + rows; row height 30 and the three formats of the constructor. |
| Documents.CalendarWidthsDistinct | document_utils.py:73-80 | The calendar's width list names each column once. |
| Documents.ServicesWidthsDistinct | document_utils.py:87-97 | The roster's width list names each column once. |
| Documents.CalendarAreaEndsAtF | document_utils.py:73-80 | Six widths put the print area's last column at F. |
| Documents.ServicesAreaEndsAtI | document_utils.py:87-97 | Nine widths put the print area's last column at I. |
| CalendarExport.CalendarOptions | pages/1_Kalender_Export.py:18 | The options are exactly the public calendars not named "Amtsträger", in the client's order. |
| CalendarExport.HideRegularServices | pages/1_Kalender_Export.py:32-33 | An appointment stays iff its caption is not "Gottesdienst" or it has a note. Order and multiplicity are kept. |
| CalendarExport.HideRegularServicesIdempotent | pages/1_Kalender_Export.py:32-33 | Hiding twice equals hiding once. |
| CalendarExport.ProjectRow | pages/1_Kalender_Export.py:35-47 | The calendar becomes its name; the other fields are copied. Start and end times exist iff the appointment is not all-day. The end date is cleared iff its text equals the start date's. |
| CalendarExport.EndDateComparedAsText | pages/1_Kalender_Export.py:43-47 | Different instants on the same calendar day give an empty end date. |
| CalendarExport.ProjectRows | pages/1_Kalender_Export.py:36-47 | One row per appointment, in order, each the projection of its appointment. |
| CalendarExport.DedupFrom | pages/1_Kalender_Export.py:50-51 | The kept rows have pairwise distinct keys, none of them already seen. Together they cover every other key, and they form a subsequence. |
| CalendarExport.Dedup | pages/1_Kalender_Export.py:50-51 | `drop_duplicates` keeps a subsequence with pairwise distinct keys and the same key set. `DedupSpec` adds first occurrences, their order and idempotence. |
| CalendarExport.FirstIndex | pages/1_Kalender_Export.py:50-51 | The index of the first row with the key. |
| CalendarExport.DedupFromKeepsFirst | pages/1_Kalender_Export.py:50-51 | Each kept row is the first row with its key. |
| CalendarExport.DedupFromOrdered | pages/1_Kalender_Export.py:50-51 | Kept rows stand in the order in which their keys first occur in the input. |
| CalendarExport.DedupFromDistinct | pages/1_Kalender_Export.py:50-51 | Rows whose keys are already distinct are kept unchanged. |
| CalendarExport.DedupSpec | pages/1_Kalender_Export.py:50-51 | De-duplication keeps a subsequence with distinct keys, the same key set and the first occurrence of each key. Kept rows stand in the order of their keys' first occurrences. It is idempotent. |
| CalendarExport.CalendarTable | pages/1_Kalender_Export.py:27-51 | The page fails only when removing duplicates, and then on the missing "startTime" column. A table is non-empty and has at most as many rows as the client returned. `CalendarTableGating` states when each case happens. |
| CalendarExport.CalendarTableGating | pages/1_Kalender_Export.py:27-51 | There is no table iff nothing is selected or nothing is shown. De-duplication fails (KeyError) iff every shown appointment is all-day. A table is non-empty and has distinct keys when de-duplicated, one row per shown appointment otherwise. |
| CalendarExport.RunCalendarPage | pages/1_Kalender_Export.py:27-80 | The page's table is the one above. Export starts iff the button was pressed and a table exists. |
| ServicesExport.ServiceMapOf | pages/2_Dienste_Export.py:34-36 | Every stored service is a listed service, stored under its own id. `ServiceMapKeys` and `ServiceMapLastWins` complete the picture. |
| ServicesExport.BuildServiceMap | pages/2_Dienste_Export.py:34-36 | The loop builds the service map of the list. |
| ServicesExport.ServiceMapKeys | pages/2_Dienste_Export.py:34-36 | The map's keys are exactly the services' ids. |
| ServicesExport.ServiceMapLastWins | pages/2_Dienste_Export.py:34-36 | Each id maps to the last service with that id. |
| ServicesExport.AssignServices | pages/2_Dienste_Export.py:49-52 | Writing the assignments keeps every key already in the dict. A failure names a listed service id missing from the map. `AssignServicesFailure`, `AssignServicesKeys` and `AssignServicesLastWins` state the rest. |
| ServicesExport.AssignServicesFailure | pages/2_Dienste_Export.py:49-52 | Filling an event fails iff some assignment's service id is not in the map, and it fails with the first such id. |
| ServicesExport.AssignServicesKeys | pages/2_Dienste_Export.py:49-52 | With all ids known, exactly the service type names are added as keys. All other keys keep their values. |
| ServicesExport.AssignServicesLastWins | pages/2_Dienste_Export.py:49-52 | Each type name holds the assignee of the last assignment of that type. |
| ServicesExport.AssignedTypeIsText | pages/2_Dienste_Export.py:49-52 | Every written type name holds a text. |
| ServicesExport.EventRow | pages/2_Dienste_Export.py:45-54 | A finished row has "Datum" and has neither "startDate" nor "id". A failure names a service id missing from the map. `EventRowSpec` gives the exact keys and values. |
| ServicesExport.EventRowSpec | pages/2_Dienste_Export.py:45-54 | A finished row's keys are "Datum" and the type names, minus "startDate" and "id". Every value is a text. "Datum" holds the formatted start unless a type of that name overwrote it. |
| ServicesExport.FillRow | pages/2_Dienste_Export.py:45-54 | The inner loop and the two pops compute the event's row. |
| ServicesExport.EventRows | pages/2_Dienste_Export.py:45-55 | The rows, when all exist, are one per event. `EventRowsSpec` ties each to its event. |
| ServicesExport.EventRowsSpec | pages/2_Dienste_Export.py:45-55 | All rows exist iff every event's row does; then the i-th row is the i-th event's. |
| ServicesExport.EventRowsPrefixFailure | pages/2_Dienste_Export.py:45-55 | When the rows of the first events already fail, the whole loop fails the same way. |
| ServicesExport.EventRowsFirstFailure | pages/2_Dienste_Export.py:45-55 | When event i is the first whose row fails, the whole loop fails with that event's error. |
| ServicesExport.BuildRows | pages/2_Dienste_Export.py:45-55 | The outer loop computes all rows, or the first failure. |
| ServicesExport.SelectColumns | pages/2_Dienste_Export.py:57-59 | Fails iff a selected label is a key of no row. Otherwise one line per row with one cell per label, holding the row's value or NaN. |
| ServicesExport.ServicesTable | pages/2_Dienste_Export.py:43-59 | There is no table exactly when there are no events. A table has one line per event, each with nine cells. `ServicesTableSpec` gives the cells. |
| ServicesExport.ServicesTableSpec | pages/2_Dienste_Export.py:43-59 | There is no table iff there are no events. A table has one line per event, in order, with the nine columns taken from that event's row. |
| ServicesExport.RunServicesPage | pages/2_Dienste_Export.py:34-69 | The page's table is the one above. An export buffer is produced iff a table exists. |

## Left out

- The Streamlit interface is left out: widgets, `st.dataframe`, `st.info`, the download button
  and page configuration. The widget values (selected calendars, checkboxes, button) are
  parameters.
- The ChurchTools client and network are left out: `create_client`, `calendars.list`,
  `calendars.appointments`, `events.list`, `events.get`, `services.list`. Their results are
  parameters. The day range only decides what the client returns, so it is not modelled.
- Date and time formatting (`strftime`, `astimezone`, the German locale) is a function
  parameter. The model does not know the format strings.
- The calendar page's export call at pages/1_Kalender_Export.py:80 passes only the frame.
  `dump_calendar` takes two parameters, so the call raises TypeError. The model stops at the
  decision to export (`RunCalendarPage`'s `startExport`).
- The display-only `column_config` and `column_order` of the calendar table are left out.
- `dump_registrations`, `dump_members_by_group`, the `__main__` block, Home.py and
  calendar_export/st_calendar_export.py are not part of this model.
- xlsxwriter internals are left out: file bytes, the empty frame the constructor writes
  first, and format objects beyond the modelled fields.
- Documents.PrintAreaRef: for 0xD800 - 64 or more width entries, `chr` yields surrogate or
  out-of-range characters. `Write` requires fewer entries, which no caller comes close to.
- Frames and rows are values: the in-place updates of the page dicts and of `df` are modelled
  as new values, and aliasing between them is not captured.
- Values are texts, ids or instants. `information` and `note` may be absent (`None`).
  Every other Python type is left out.

## Findings

| source | as written | input that shows it | evidently intended | confidence | as-written member | corrected member |
|---|---|---|---|---|---|---|
| document_utils.py:54-58 | `write` puts the frame from row 0 and then, with `with_header`, writes the labels into row 0. The first data row is overwritten. `dump_services` always asks for the header. | A roster of two events, ("01.01", "Meier") and ("08.01", "Huber"), under the labels "Datum" and "Predigt": the sheet holds the labels and the second event only. | The frame starts at row 1 below the header row, and the print area counts that row. | not executed | Documents.FirstServiceRowLost | Documents.Document.WriteBelowHeader |
