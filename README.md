# Real-estate insight chatbot — a Dafny model of its core

The application answers a free-text question about residential localities
with an insight payload. The payload holds a summary, the matched localities,
one price and demand series per locality, and the matching dataset rows.

This project models the parts of the application that decide things:

- **Backend**
  - The locality matcher (`extract_areas_from_query`): whole names first, then query words as a fallback.
  - The trend label of the rule summary.
  - The query endpoint (`query_view`): its error statuses, then the payload it assembles.
- **Frontend**
  - The submit guard and template pills of the query form.
  - The three state cells that `handleQuery` sets, before and after a request.
  - The panel's choice of display, and its localities line.
  - The pivot of chart series into one row per year.
  - The CSV export of the data table.

The modules follow the source files:

| module | file | contents |
|---|---|---|
| `Utils` | `utils.dfy` | the matcher, proved against specification functions, and the trend label |
| `Views` | `views.dfy` | the endpoint as a decision function `Dispatch`, and `QueryView`, which builds the summary parts and the table in loops |
| `ChatInterface` | `chat_interface.dfy` | `String.prototype.trim`, the guard, and the `Form` class that holds `value` |
| `App` | `app.dfy` | the cells as values and as the `Shell` class; a page model whose events are typing, pressing and a request settling |
| `ResultPanel` | `result_panel.dfy` | the display choice and the localities line |
| `TrendChart` | `trend_chart.dfy` | the year list, the row builder (a loop) and the pivot (a loop) |
| `DataTable` | `data_table.dfy` | the CSV writer (a loop), plus a reader for the same dialect, used to prove that an export reads back |
| `Insight` | `insight.dfy` | the payload and its parts |
| `Text`, `Wrappers` | `text.dfy` | joining, splitting, substrings, ASCII lower-casing, first-occurrence de-duplication, `Option` |

Dependencies that cannot be modelled are parameters:

- The dataset is given as its column names and its rows.
- The language-model summary, the per-locality rule summary and the chart builder are function parameters. Each is a function of what the endpoint passes it.
- How a request settles (`Outcome`) is a parameter of `Complete`.

The form's `value` is modelled twice. `ChatInterface.Form` is the component as a class whose methods update `value` in place. The page model in `App` (`App.Page`, with `App.Step` and `App.Run`) holds the same `value` as a field of a value type, together with the cells. It uses the guard `ChatInterface.Submit` but not the `Form` class.

## Model

| member | source | states |
|---|---|---|
| `Utils.ExtractAreas` | backend/api/utils.py:29-46 | returns `MatchedAreas(query, areas)`: the de-duplicated names found whole in the lower-cased query, or, when there are none, the de-duplicated fallback candidates taken word by word and, within a word, in `areas` order |
| `Utils.AreasIn` | backend/api/utils.py:31-35 | the first loop collects, in order, exactly the names whose lower-cased form occurs in the query text |
| `Utils.AreasContaining` | backend/api/utils.py:40-43 | the inner fallback loop collects, in order, exactly the names whose lower-cased form contains the word |
| `Utils.MatchedAreasSpec` | backend/api/utils.py:29-46 | about `MatchedAreas`, the function `ExtractAreas` computes: the result has no duplicates and holds only given names. If some name occurs in the query, the result's members are exactly those names; otherwise they are exactly the names that contain one of the query's words longer than two characters |
| `Utils.MatchedAreasEmpty` | backend/api/utils.py:44-46 | the result is `[]` exactly when no name occurs in the query and no long query word occurs in any name |
| `Utils.DirectMatchesInOrder` | backend/api/utils.py:32-37 | with distinct names and at least one whole-name match, the result is exactly the matching names in `areas` order |
| `Utils.SubsequenceNoDuplicates` | backend/api/utils.py:32-35 | filtering distinct names keeps them distinct |
| `Utils.Words` | backend/api/utils.py:38 | `split()` yields non-empty words without white space |
| `Utils.WordsJoin` | backend/api/utils.py:38 | splitting space-free words that were joined by single spaces gives the words back |
| `Utils.CommasToSpaces` | backend/api/utils.py:38 | `replace(",", " ")` keeps the length and changes exactly the commas, each to a space |
| `Utils.LongOnly` | backend/api/utils.py:38 | keeps exactly the words longer than two characters |
| `Utils.NamesInMembers` | backend/api/utils.py:32-35 | a name is a direct match iff it is given and its lower-cased form occurs in the text |
| `Utils.NamesContainingMembers` | backend/api/utils.py:40-43 | a name is collected for a word iff it is given and its lower-cased form contains the word |
| `Utils.FallbackNamesMembers` | backend/api/utils.py:39-43 | a name is a fallback candidate iff it is given and some word occurs in its lower-cased form |
| `Utils.AreasForWords` | backend/api/utils.py:39-43 | the fallback loop collects, word by word and within a word in `areas` order, the names that contain the word |
| `Text.DedupeSpec` | backend/api/utils.py:37 | `list(dict.fromkeys(...))` keeps exactly the elements of its input, repeats none, and lists them in the order of their first occurrence |
| `Text.DedupeNoDuplicates` | backend/api/utils.py:37 | a list without repetitions is returned unchanged |
| `Utils.TrendOf` | backend/api/utils.py:139-144 | upward iff growth > 5; downward iff growth < -5; stable iff -5 <= growth <= 5 |
| `Utils.TrendMonotone` | backend/api/utils.py:139-144 | more growth never yields a lower trend |
| `Views.QueryView` | backend/api/views.py:33-88 | the response equals `Dispatch`; the summary parts loop and the table loop build the rule parts and the filtered rows |
| `Views.DispatchStatus` | backend/api/views.py:34-59 | the statuses `Dispatch` gives and their conditions. 405 iff the method is not POST. An unhandled exception (`Crash`, a 500) iff a POST body decodes to JSON that is not an object, since `payload.get` raises. 400 iff POST with an object body whose query is empty or missing (a body that does not decode counts as `{}`). 500 also iff the query is present and either key column is missing. 404 iff additionally no dataset locality matches, neither whole nor by a long word. 200 iff success |
| `Views.UnparsableIsEmptyObject` | backend/api/views.py:37-44 | a body that does not decode is answered like `{}`, which is a 400 for a POST |
| `Views.DispatchSuccess` | backend/api/views.py:53-87 | a success has a non-empty query and a non-empty matched list. Its payload is the summary, the query, the matched localities, the chart of the filtered rows, and the filtered rows as the table |
| `Views.SuccessShape` | backend/api/views.py:53-87 | a success echoes the non-empty query and lists distinct localities that occur in the dataset. Its table is exactly the dataset rows of those localities, in dataset order, and holds at least one row per listed locality |
| `Views.RuleSummaryFallback` | backend/api/views.py:63-71 | the summary is the model's text when that is a non-empty string; otherwise it is the rule summaries of the listed localities, in order, each over that locality's rows, joined by single spaces |
| `Views.PresentAreas` | backend/api/views.py:53 | a locality is present iff some row has it as its non-null area value (the empty string included) |
| `Views.Filtered` | backend/api/views.py:61 | a row is kept iff its area is one of the selected localities |
| `Views.RuleParts` | backend/api/views.py:67-70 | one rule summary per selected locality |
| `Views.RuleSummaries` | backend/api/views.py:67-70 | the loop builds `RuleParts`: for each selected locality in order, the rule summary over that locality's filtered rows |
| `Views.TableRows` | backend/api/views.py:75-79 | the table loop copies the filtered rows, in order |
| `Views.EveryAreaShown` | backend/api/views.py:53-61 | every selected locality that occurs in the rows keeps at least one row after filtering |
| `ChatInterface.Submit` | frontend/src/components/ChatInterface.jsx:6-10 | nothing is submitted iff the input is blank or a request is in flight. Otherwise the trimmed input is submitted; it is non-empty and has no white space at either end |
| `ChatInterface.TrimSpec` | frontend/src/components/ChatInterface.jsx:8-9 | about `Trim` (`String.prototype.trim`): the trimmed text is empty iff the input is blank. It is a slice of the input with only white space cut away, and neither end of it is white space |
| `ChatInterface.LeadingSpaces` | frontend/src/components/ChatInterface.jsx:8 | the counted prefix is white space and the next character is not |
| `ChatInterface.TrailingSpaces` | frontend/src/components/ChatInterface.jsx:8 | the counted suffix is white space and the character before it is not |
| `ChatInterface.TrimUnpadded` | frontend/src/components/ChatInterface.jsx:8-9 | text without white space at either end trims to itself |
| `ChatInterface.TemplatesSubmitVerbatim` | frontend/src/components/ChatInterface.jsx:40-126 | each of the ten templates, submitted while idle, sends exactly its own text |
| `ChatInterface.Form.constructor` | frontend/src/components/ChatInterface.jsx:4 | the input starts empty |
| `ChatInterface.Form.Edit` | frontend/src/components/ChatInterface.jsx:31 | typing sets the input to the typed text |
| `ChatInterface.Form.PickTemplate` | frontend/src/components/ChatInterface.jsx:40-126 | a template pill sets the input to the template, which then submits unchanged |
| `App.TransitionsKeepConsistent` | frontend/src/App.js:13-41 | the cells start consistent, and starting and completing a request keep them consistent: no payload together with an error, no error while loading. Starting keeps the previous payload |
| `App.CompletionSettles` | frontend/src/App.js:29-41 | after a request settles nothing is loading. A payload is present iff no error is shown, and iff the request succeeded |
| `App.FailureMessages` | frontend/src/App.js:29-38 | a non-ok response shows the body's non-empty `error` string, else "Server error"; a thrown failure shows its message, else "Unable to connect to server" |
| `App.Shell.constructor` | frontend/src/App.js:13-15 | the cells start as no payload, not loading, no error |
| `App.Shell.Start` | frontend/src/App.js:18-19 | sets loading, clears the error, keeps the payload, and stays consistent |
| `App.Shell.Complete` | frontend/src/App.js:20-41 | the new cells are `Completed(old cells, outcome)` and stay consistent |
| `App.StepKeepsInvariant` | frontend/src/App.js:17-41 | one page event keeps the invariant that the cells are consistent and `loading` holds iff exactly one request is in flight |
| `App.RunKeepsInvariant` | frontend/src/App.js:17-41 | any sequence of events keeps that invariant |
| `App.Reachable` | frontend/src/App.js:13-41 | from the opened page, at most one request is ever in flight |
| `App.DoublePressIssuesOneRequest` | frontend/src/components/ChatInterface.jsx:8 | a second press before the first request settles changes nothing |
| `App.IgnoredPress` | frontend/src/components/ChatInterface.jsx:8 | a press with blank input or while loading leaves the page unchanged |
| `App.ViewWhileLoading` | frontend/src/components/ResultPanel.jsx:6-16 | during a request the panel shows the loader if there is no payload, otherwise the previous payload |
| `App.ViewAfterSettle` | frontend/src/App.js:29-41 | after settling the panel shows the new payload on success and only the error text on failure |
| `ResultPanel.SelectView` | frontend/src/components/ResultPanel.jsx:5-42 | each display is characterised on its own. Loader iff loading without a payload; error text iff an error and not that case; the prompt iff no payload, no error and not loading; the payload iff present and no error |
| `ResultPanel.LocalitiesLineSplits` | frontend/src/components/ResultPanel.jsx:74 | about `LocalitiesLine` (`areas.join(", ")`): when no name contains a comma, splitting the localities line at commas gives the first name and then every further name behind one space |
| `ResultPanel.JoinCommaSpace` | frontend/src/components/ResultPanel.jsx:74 | joining by ", " equals joining by "," after prefixing every name but the first with a space |
| `ResultPanel.Spaced` | frontend/src/components/ResultPanel.jsx:74 | every name prefixed with one space |
| `TrendChart.YearsSpec` | frontend/src/components/TrendChart.jsx:16-23 | the years are strictly increasing, and a year is listed iff it is non-zero and some point of some series has it |
| `TrendChart.YearsOrderIndependent` | frontend/src/components/TrendChart.jsx:16-23 | two charts with the same point years get the same year list, whatever the order of series and points |
| `TrendChart.Insert` | frontend/src/components/TrendChart.jsx:17-23 | inserting into an increasing list keeps it increasing and adds exactly the inserted year |
| `TrendChart.SortedDistinct` | frontend/src/components/TrendChart.jsx:17-23 | the result is increasing and has the same members as the input |
| `TrendChart.IncreasingUnique` | frontend/src/components/TrendChart.jsx:17-23 | two increasing lists with the same members are equal |
| `TrendChart.PointYearsMembers` | frontend/src/components/TrendChart.jsx:19-21 | a year is collected from a series' points iff it is truthy and some point has it |
| `TrendChart.AllYearsMembers` | frontend/src/components/TrendChart.jsx:18-21 | a year is collected from the chart iff it is truthy and some point of some series has it |
| `TrendChart.FindPoint` | frontend/src/components/TrendChart.jsx:28 | none iff no point has the year; otherwise the first point that has it |
| `TrendChart.BuildRow` | frontend/src/components/TrendChart.jsx:26-34 | the loop over series builds the row for the year with the fields `RowFields(chart, year)` |
| `TrendChart.RowFieldsKeys` | frontend/src/components/TrendChart.jsx:27-32 | a row has a key iff some series with a point at that year writes it |
| `TrendChart.RowFieldsLastWriter` | frontend/src/components/TrendChart.jsx:27-32 | a key's value comes from the last series in chart order that writes it |
| `TrendChart.SeriesFieldsInRow` | frontend/src/components/TrendChart.jsx:28-31 | a series' first point at the year supplies its `_price` and `_demand` fields, unless a later series of the same name overwrites them |
| `TrendChart.AbsentSeriesHasNoKeys` | frontend/src/components/TrendChart.jsx:29 | a name with no point at the year has no keys in that row |
| `TrendChart.KeysDistinct` | frontend/src/components/TrendChart.jsx:30-31 | a `_price` key and a `_demand` key never coincide, and each key determines its series name |
| `TrendChart.Frame` | frontend/src/components/TrendChart.jsx:25-35 | one row per listed year, in year order, each with its fields |
| `TrendChart.PivotChart` | frontend/src/components/TrendChart.jsx:13-35 | nothing for an empty chart; otherwise the frame, built by a loop over the years |
| `TrendChart.FrameComplete` | frontend/src/components/TrendChart.jsx:25-35 | every truthy point year has a row that carries the series' fields from the point's first occurrence |
| `TrendChart.FrameExcludesFalsy` | frontend/src/components/TrendChart.jsx:16-25 | no row has year 0, and every row's year comes from some point |
| `DataTable.HandleDownload` | frontend/src/components/DataTable.jsx:4-26 | nothing for no rows; otherwise the header line and one record per row, joined by newlines |
| `DataTable.CsvLinesSpec` | frontend/src/components/DataTable.jsx:6-25 | the export has one line more than there are rows: the first row's keys joined by commas, then, for each row in order, its escaped values in header order |
| `DataTable.DataLinesSpec` | frontend/src/components/DataTable.jsx:11-25 | one data line per row, in row order, each the record of that row's fields |
| `DataTable.RecordJoin` | frontend/src/components/DataTable.jsx:12-24 | a record is the escaped fields joined by commas |
| `DataTable.RecordUnquoted` | frontend/src/components/DataTable.jsx:10 | fields without a quoting character form the same line as the plain comma join used for the header |
| `DataTable.EscapeField` | frontend/src/components/DataTable.jsx:13-22 | a field is left as it is iff it contains no comma, quote or newline; otherwise it is quoted, with its quotes doubled |
| `DataTable.DoubleQuotesChars` | frontend/src/components/DataTable.jsx:14-19 | doubling quotes keeps the set of characters, so the quoting test gives the same answer on the raw and the doubled field |
| `DataTable.NoQuotesUnchanged` | frontend/src/components/DataTable.jsx:14 | a field without quotes is not changed by doubling |
| `DataTable.UndoubleDoubleQuotes` | frontend/src/components/DataTable.jsx:14 | undoubling inverts doubling |
| `DataTable.UnescapeField` | frontend/src/components/DataTable.jsx:13-22 | stripping the quotes and undoubling recovers every escaped field |
| `DataTable.CarriageReturnNotQuoted` | frontend/src/components/DataTable.jsx:15-19 | for any text around it, a field with a carriage return is written as it is iff the text on both sides needs no quoting; a field with a line feed is always quoted, with its quotes doubled |
| `DataTable.Fields` | frontend/src/components/DataTable.jsx:12-13 | one raw field per header, empty for null or a missing key |
| `DataTable.EscapeAll` | frontend/src/components/DataTable.jsx:12-23 | every field is escaped, in order |
| `DataTable.ReadEscapedField` | frontend/src/components/DataTable.jsx:13-22 | a reader reads every escaped field back to the raw field, whatever follows the field's end |
| `DataTable.ReadRecordRoundTrip` | frontend/src/components/DataTable.jsx:12-24 | a record line reads back to its raw fields |
| `DataTable.ReadDocumentRoundTrip` | frontend/src/components/DataTable.jsx:24-26 | records joined by newlines read back to the records |
| `DataTable.ExportReadsBack` | frontend/src/components/DataTable.jsx:6-26 | if there is at least one column and no column name needs quoting, the export reads back to the header and each row's raw fields |

## Left out

- The download itself: the Blob, the object URL, and the click on the link. The model stops at the CSV text.
- `fetch`, the JSON decoding of responses, and the asynchronous scheduling of `handleQuery`. Its two synchronous halves are modelled; the outcome of the request is a parameter.
- The chart, table and panel markup, and Recharts rendering.
- The pandas aggregation in `build_chart_data` and `_build_basic_stats_text`, and the floating-point growth computation and rounding in `build_rule_summary`. The chart builder and the rule summary are function parameters; only the trend thresholds are modelled.
- The language-model client and `build_llm_summary`. Its result is a parameter: an optional string.
- `load_data` (reading the spreadsheet, caching it, stripping column names). The dataset is a parameter.
- `_clean_value`. The table rows are taken as already cleaned.
- Django's request plumbing (`JsonResponse`, the CSRF exemption, body decoding). The decoded body is an input.
- `handleQuery` does not clear `data` when a request starts (frontend/src/App.js:18-19). `App.Shell.Start` and `App.TransitionsKeepConsistent` keep it, and `App.ViewWhileLoading` shows it.
- `Text.Lower` is ASCII-only. Python's `str.lower` also maps non-ASCII letters; those are not modelled.
- A `query` field that is a non-string truthy JSON value is not modelled. In the code it makes `query.lower()` raise.
- Area values that are not strings are not modelled. In the code they would be matched by `str(a)` but filtered by their raw value.
- A 2xx response whose body is JSON `null` is not modelled.
- A non-string truthy `error` field in an error response is not modelled.
- JavaScript's `Object.keys` lists integer-like keys first; the model takes the key order as given.
- `DataTable.ExportReadsBack`: column names are written without escaping, so the round trip requires names without a comma, quote or newline, and at least one column.
- `DataTable.HandleDownload` assumes that `rows[0]` is an object. The code's `rows[0] || {}` fallback for a falsy first row is not modelled.
