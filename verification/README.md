# Call-centre performance report, modelled in Dafny

This project models `generate_result` from `cc_performance.py`. That routine turns a flat table of call-leg records into a summary with one row per agent and four metric columns per day. It works in these steps:

1. Sort the records by the `Call Start DT` text.
2. Keep only the rows whose `Dial Leg` is `agent`.
3. Cut each timestamp to its first ten characters.
4. Read that prefix as `%Y/%m/%d` and write it back as `%d/%m/%Y`.
5. Collect the distinct agents and the distinct dates, in first-seen order.
6. For every date and every agent, compute four metrics:
   - the number of calls;
   - the rounded mean duration;
   - the number of calls longer than 59 seconds (the "CR" or connected calls);
   - the rounded mean duration of those connected calls.
7. Sort the rows by `Agent ID`.

The modules follow those steps.

- `Wrappers`: the `Result` type. Failures propagate with `:-`.
- `Lex`: Python's code-point string order, `s[:k]`, and the order-theoretic facts about it.
- `Decimal`: fixed-width, zero-padded digit fields.
- `Dates`: the date key. It covers:
  - the ten-character prefix;
  - strict `%Y/%m/%d` parsing with leap years;
  - the nanosecond range of a pandas `Timestamp`, so that an out-of-range day is an error;
  - the `%d/%m/%Y` rendering.
- `Sorting`: `sort_values` on one text column, modelled as a stable insertion sort.
- `Distinct`: `unique()` in first-seen order.
- `Rounding`: Python's `round` on an exact quotient of non-negative integers, which rounds half to even.
- `Calls`: the input record (`CallRecord`) and the leg filter. It also defines `GroupTally`, an independent reference definition of one (agent, date) group's totals over the raw input.
- `Report`: `GenerateResult` itself. It is a pipeline of fallible functions:
  - `Normalize` projects each row and parses its date;
  - `BuildRows` and `BuildCells` run the two nested loops;
  - `SortRows` does the final sort.
- `Columns`: the DataFrame as built. It has an `Agent ID` column, then `D: # Calls Attempted`, `D: Avg Call Duration(s)`, `D: # CR` and `D: Avg CR Duration(s)` for every date name `D`.
- `ReportProperties`: what the report means in terms of the input rows. This includes:
  - when it exists;
  - which rows, dates and cells it holds;
  - their order;
  - that it does not depend on the order of the input rows or on the rows of other legs.
- `Scenarios`: worked cases of rounding and date parsing.

A record is `CallRecord(agent, start, dur, leg)`. Durations are natural numbers. A report is a `Table` with two parts:
- the dates in column order;
- the rows in output order, each an agent plus a map from date to its four `Metrics`.

The string column names are built only in `Columns`.

Both failures of the original are kept as failures, and `GenerateResult` returns a `Result`:
- A prefix that `pd.to_datetime` rejects gives `BadTimestamp`.
- A mean over an empty group gives `DivisionByZero`. The original raises `ZeroDivisionError` there and produces no table.

Emitting a sentinel value for an empty group would be a different program. The code raises, and this model follows the code.

## Model

| member | source | states |
|---|---|---|
| Calls.AgentLegs | cc_performance.py:40 | Every kept row is an agent-leg row of the input, and every agent-leg row of the input is kept. How often each row is kept is stated by `Calls.AgentLegsCount`. |
| Calls.AgentLegsCount | cc_performance.py:40 | The filter keeps each agent-leg row exactly as often as the input holds it and drops every other row. So a de-duplicating filter does not meet the contract, and `len(agent_df)` counts repeated rows. |
| Calls.AgentLegsAppend | cc_performance.py:40 | Filtering a concatenation is concatenating the filtered parts, so the kept rows stay in input order. |
| Calls.SortByStart | cc_performance.py:39 | The result is a permutation of the input, ordered by the call-start text. |
| Calls.AgentLegsIdempotent | cc_performance.py:40 | Filtering the agent legs twice gives the same result as filtering once. |
| Calls.AgentLegsSorted | cc_performance.py:39-40 | Filtering a sequence that is sorted by start time keeps it sorted. |
| Calls.AgentLegsCommuteWithSort | cc_performance.py:39-40 | Sorting then filtering gives the same sequence as filtering then sorting, so the rows of other legs never affect the order of the kept rows. |
| Calls.GroupTally | cc_performance.py:55-60 | A group never has more connected calls than calls. Its connected duration is at most its total duration and at least 60 seconds per connected call. |
| Calls.GroupTallyAppend | cc_performance.py:49-55 | The totals of two concatenated row sequences are the sums of their totals. |
| Calls.GroupTallyPermutation | cc_performance.py:39-55 | A group's totals do not depend on the order of the rows. |
| Calls.GroupTallyAgentLegs | cc_performance.py:40-55 | Dropping the rows of other legs does not change any group's totals. |
| Calls.GroupTallyCounts | cc_performance.py:49-57 | A group's call count is the number of input rows of that agent-leg, agent and date. Its connected count is the number of those rows lasting more than 59 seconds. |
| Lex.Transitive | cc_performance.py:39 | The string order used by both sorts is transitive. |
| Lex.Total | cc_performance.py:39 | Any two strings are comparable. |
| Lex.Antisymmetric | cc_performance.py:70 | Strings that are each at most the other are equal, so there are no ties among distinct agent ids. |
| Lex.TakeMonotone | cc_performance.py:39-42 | Cutting two ordered strings to the same length keeps them ordered. |
| Lex.AppendSameLength | cc_performance.py:39 | For equal-length heads, the order of two concatenations is decided by the heads first and then by the tails. |
| Decimal.Pad | cc_performance.py:44 | The zero-padded field has the requested width, only digits, and denotes the number. |
| Decimal.PadValue | cc_performance.py:43-44 | Re-padding the value of a digit field gives the field back. |
| Decimal.ValueInjective | cc_performance.py:43 | Two digit fields of the same width with the same value are the same text. |
| Decimal.LeIsNumeric | cc_performance.py:39-43 | Between equal-width digit fields, string order is numeric order, in both directions. |
| Decimal.LtIsNumeric | cc_performance.py:39-43 | The same holds for the strict orders. |
| Dates.DaysInMonth | cc_performance.py:43-44 | A month has 28 to 31 days. February has 29 exactly in leap years. |
| Dates.ParsePrefix | cc_performance.py:43-44 | A parsed date is a real calendar day inside the pandas timestamp range. A failure carries the offending prefix. Anything not shaped `YYYY/MM/DD` with digit fields is malformed. |
| Dates.FormatPrefix | cc_performance.py:43 | The `%Y/%m/%d` text of a calendar date is well shaped. |
| Dates.ParseThenFormat | cc_performance.py:43-44 | A prefix that parses is exactly the `%Y/%m/%d` text of its date. |
| Dates.FormatThenParse | cc_performance.py:43-44 | Parsing the `%Y/%m/%d` text of a date in range gives the date back. |
| Dates.DateKeyMeaning | cc_performance.py:42-44 | A timestamp's date key is a day inside the pandas range whose `%Y/%m/%d` text is the timestamp's first ten characters. A failure names those ten characters. |
| Dates.DateKeyOfFormatted | cc_performance.py:42-44 | A timestamp that starts with the `%Y/%m/%d` text of a day inside the pandas range has that day as its key. |
| Dates.SameKeyIffSamePrefix | cc_performance.py:42-44 | Two parseable timestamps have the same date key exactly when their ten-character prefixes are equal. |
| Dates.Render | cc_performance.py:44 | The name is `DD/MM/YYYY`: ten characters, with the day's two digits first, then the month's two digits, then the year's four digits, separated by slashes. |
| Dates.RenderInjective | cc_performance.py:44-46 | Distinct dates get distinct names, so the unique names are the unique dates. |
| Dates.PrefixOrderIsChronological | cc_performance.py:39-46 | For parseable prefixes, string order is chronological order, in both directions. |
| Dates.FieldThenRest | cc_performance.py:39-43 | With a digit field and a slash in front, string order compares the field numerically first and the rest only on a tie. |
| Sorting.Insert | cc_performance.py:39 | Inserting adds exactly one element: the multiset grows by that element. |
| Sorting.Sort | cc_performance.py:39 | The sort returns a permutation of its input, ordered by key. |
| Sorting.InsertSorted | cc_performance.py:39 | Inserting into a sorted sequence keeps it sorted. |
| Sorting.SortSorted | cc_performance.py:70 | Sorting an already sorted sequence changes nothing. |
| Sorting.StrictlyOrderedUnique | cc_performance.py:70 | Under an asymmetric order, two strictly ordered sequences with the same elements are equal. |
| Distinct.Unique | cc_performance.py:45-46 | The result has no repeats and holds exactly the values of its input. |
| Distinct.UniqueFirstSeenOrder | cc_performance.py:45-46 | The values appear in the order of their first occurrence in the input. |
| Distinct.NoDuplicatesCard | cc_performance.py:45-47 | A sequence without repeats is as long as its set of elements. |
| Rounding.RoundHalfEven | cc_performance.py:59-60 | The result lies within half a unit of n / d, and a tie goes to the even neighbour. |
| Rounding.RoundHalfEvenUnique | cc_performance.py:59-60 | Any nearest-even rounding of n / d equals RoundHalfEven(n, d), so the function is Python's `round`. |
| Rounding.RoundedMeanAtLeast | cc_performance.py:60 | If d values each at least m sum to n, the rounded mean is at least m. |
| Report.ProjectMeaning | cc_performance.py:41-44 | A projected row keeps its agent and duration. Its date is the day inside the pandas range whose `%Y/%m/%d` text starts the timestamp. A failure is a bad timestamp naming the first ten characters. |
| Report.ProjectFormatted | cc_performance.py:41-44 | A row whose timestamp starts with the `%Y/%m/%d` text of a day inside the pandas range projects to that day, with its agent and duration. |
| Report.Normalize | cc_performance.py:42-44 | On success there is one entry per row, each the projection of its row. On failure, some row's projection failed with that error. |
| Report.EntryTally | cc_performance.py:49-57 | A group's totals count no more calls than there are entries and no more connected calls than calls. Each connected call contributes at least 60 seconds. |
| Report.MetricsOf | cc_performance.py:56-64 | The four metrics are the call count, the nearest-even rounding of the mean duration, the connected count, and the nearest-even rounding of the mean connected duration. |
| Report.Cell | cc_performance.py:55-60 | A cell exists exactly when its group has calls and connected calls. Otherwise the report fails with DivisionByZero. |
| Report.BuildCells | cc_performance.py:48-64 | When an agent's cells exist, their keys are exactly the dates and each value is that date's cell. Otherwise the error is DivisionByZero. |
| Report.CellsExistIff | cc_performance.py:48-64 | An agent's cells exist exactly when the cell of every date does. |
| Report.BuildRows | cc_performance.py:47-69 | There is one row per agent, in agent order. Each row holds the agent's cells. |
| Report.RowsExistIff | cc_performance.py:48-64 | The rows exist exactly when every (agent, date) cell does. |
| Report.SortRows | cc_performance.py:70 | The rows are permuted and ordered by agent id. |
| Report.GenerateResult | cc_performance.py:38-71 | On success the report's dates have no repeats and its rows are in `Agent ID` order. When it succeeds, and what it holds, are stated by `ReportProperties.SucceedsIff`, `CellsOfReport`, `OneRowPerAgent` and `ReorderedInputSameReport`. |
| Columns.DateNamesDistinct | cc_performance.py:44-46 | The report's date names are ten characters long and have no repeats. |
| Columns.ColumnOf | cc_performance.py:66-69 | Every metric column is column 4j + k, named after date j and metric k. |
| Columns.HeaderDistinct | cc_performance.py:66-69 | The column names have no repeats. No assignment overwrites another, and each date keeps its four columns. |
| Columns.Header | cc_performance.py:47-69 | Column 0 is `Agent ID`. Column 1 + 4j + k is date j's name followed by the name of metric k, and there are no other columns. |
| Columns.Line | cc_performance.py:47-69 | Column 0 holds the agent. Column 1 + 4j + k holds metric k of the agent's cell for date j, and there are no other columns. |
| Columns.LineBlock | cc_performance.py:61-69 | Date j's four values sit at columns 1 + 4j to 4 + 4j of a line, in the fixed metric order. |
| ReportProperties.LegsMembers | cc_performance.py:39-40 | After sorting and filtering, a row is present exactly when it is an agent-leg row of the input. |
| ReportProperties.EntryTallyOfProjection | cc_performance.py:41-55 | Totals over the projected entries equal the totals over the rows they came from. |
| ReportProperties.ReportTallyIsGroupTally | cc_performance.py:39-57 | The totals the loops compute for (agent, date) equal the reference totals over the raw input. |
| ReportProperties.NormalizeSucceedsIff | cc_performance.py:42-44 | The date conversion succeeds exactly when every agent-leg row's prefix parses. |
| ReportProperties.EntryAgents | cc_performance.py:45 | The agents found are the usernames of the agent-leg rows. |
| ReportProperties.EntryDates | cc_performance.py:46 | The dates found are the date keys of the agent-leg rows. |
| ReportProperties.CellSucceedsIff | cc_performance.py:55-60 | A cell exists exactly when its group has a connected call, and it then holds the metrics of the reference totals. |
| ReportProperties.AllCellsSucceed | cc_performance.py:48-64 | If every group is connected, every cell of the report exists. |
| ReportProperties.SomeCellFails | cc_performance.py:59-60 | One unconnected (agent, date) group makes the whole loop fail. |
| ReportProperties.BuildRowsSucceedsIff | cc_performance.py:48-64 | The loops finish exactly when every listed agent has a connected call on every listed date. |
| ReportProperties.FailsOnBadTimestampIff | cc_performance.py:42-44 | The report fails with a timestamp error exactly when some agent-leg row has an unparseable prefix. |
| ReportProperties.FailsOnDivisionByZeroIff | cc_performance.py:59-60 | The report fails with DivisionByZero exactly when all prefixes parse but some group has no connected call. |
| ReportProperties.SucceedsIff | cc_performance.py:38-71 | A report exists exactly when every prefix parses and every group is connected. |
| ReportProperties.DatePairOrder | cc_performance.py:39-46 | Of two listed dates, the earlier-listed one is strictly earlier in time. |
| ReportProperties.DatesOfReport | cc_performance.py:39-48 | The report's dates have no repeats, are exactly the agent-leg date keys, and are strictly chronological. |
| ReportProperties.CellsOfAgent | cc_performance.py:48-64 | An agent's cells cover exactly the report's dates, and each holds the metrics of that group. |
| ReportProperties.BuiltRow | cc_performance.py:54-64 | Each built row belongs to a known agent and holds the metrics of each of that agent's groups. |
| ReportProperties.BuiltRowsByAgent | cc_performance.py:47-54 | Among the built rows, the agent determines the row. |
| ReportProperties.RowsStrictlySorted | cc_performance.py:45-70 | The output rows are in strictly increasing agent-id order. |
| ReportProperties.SortedRow | cc_performance.py:70 | The final sort keeps each row's contents. |
| ReportProperties.AgentsOfReport | cc_performance.py:45-70 | The agents with a row are exactly the usernames of the agent-leg rows. |
| ReportProperties.AgentHasRow | cc_performance.py:45-47 | Every agent-leg username has a row in the output. |
| ReportProperties.RowAgentKnown | cc_performance.py:45-47 | Every output row belongs to an agent-leg username. |
| ReportProperties.CellsOfReport | cc_performance.py:48-69 | Every row has a cell for exactly the report's dates. Each cell holds the metrics of that agent's calls that day, and that group has a connected call. |
| ReportProperties.MetricsBounds | cc_performance.py:57-64 | A cell has at least one connected call and at most as many as calls. Its mean connected duration is at least 60. |
| ReportProperties.ResortIsIdentity | cc_performance.py:70 | Sorting the output rows by agent id again changes nothing. |
| ReportProperties.SameAgentLegsSameResult | cc_performance.py:40 | Two inputs with the same agent-leg rows, in the same order, give the same result, success or failure. |
| ReportProperties.OtherLegsIgnored | cc_performance.py:40 | Removing every row of another leg leaves the result unchanged. |
| ReportProperties.ReorderKeepsSets | cc_performance.py:39 | Reordering the input keeps the agents and the dates. |
| ReportProperties.ReorderKeepsConditions | cc_performance.py:39 | Reordering the input keeps both success conditions. |
| ReportProperties.ReorderSameCells | cc_performance.py:39-64 | Take two reorderings of the same input and two cell maps for the same agent over the same dates, each holding the metrics of that agent's groups in its own ordering. The two maps are equal. |
| ReportProperties.RowOfReport | cc_performance.py:48-70 | An output row's cells cover exactly the agent-leg date keys, and each holds that group's metrics. |
| ReportProperties.ReorderSameRow | cc_performance.py:39-70 | Rows of the same agent in two reorderings of the input are equal. |
| ReportProperties.ReorderSameDates | cc_performance.py:39-46 | Reordering the input does not change the date order. |
| ReportProperties.ChronologicalUnique | cc_performance.py:39-46 | Two strictly chronological date lists with the same dates are equal. |
| ReportProperties.AgentOrderedUnique | cc_performance.py:70 | Two row lists strictly ordered by agent, with the same rows, are equal. |
| ReportProperties.ReorderRowKept | cc_performance.py:39-70 | A row of the report of one ordering is a row of the report of any other ordering. |
| ReportProperties.ReorderSameRows | cc_performance.py:39-70 | Reordering the input does not change the rows. |
| ReportProperties.ReorderedInputSameReport | cc_performance.py:38-71 | Any permutation of the input gives the same outcome and, on success, the same report. So neither the tie order of the timestamp sort nor the input order matters. |
| ReportProperties.ReorderedInputSameFailureKind | cc_performance.py:38-71 | If the report is refused, it is refused for every permutation of the input, and always for a bad timestamp or always for a division by zero. |
| ReportProperties.ReportDatesAreCalendarDates | cc_performance.py:43-44 | Every report date is a calendar date and so has a `%d/%m/%Y` name. |
| ReportProperties.HeaderOfDates | cc_performance.py:66-69 | For distinct calendar dates, the column names have no repeats, and date j's group starts with `D: # Calls Attempted`. |
| ReportProperties.HeaderOfReport | cc_performance.py:46-69 | The report's column names have no repeats, and date j's four columns start at column 1 + 4j. |
| ReportProperties.RowHasEveryDate | cc_performance.py:48-54 | Every row has a cell for every date of the report. |
| ReportProperties.RowCell | cc_performance.py:55-64 | A row's cell for a date holds the metrics of that agent's group on that date. |
| ReportProperties.LineOfCells | cc_performance.py:61-69 | Under date j's columns a line holds the count, the rounded mean, the connected count and the rounded connected mean of its group. |
| ReportProperties.LineOfReport | cc_performance.py:55-69 | Under date j's four columns, agent i's line holds the count, the rounded mean duration, the connected count and the rounded mean connected duration of that agent's calls that day. |
| ReportProperties.CellCounts | cc_performance.py:49-64 | The number of calls is the number of the agent's agent-leg rows that day. The CR count is the number of those over 59 seconds, between 1 and the calls. Both averages are nearest-even roundings of the exact means, the connected one at least 60. |
| ReportProperties.AgentColumnOf | cc_performance.py:47-70 | Rows strictly ordered by agent, one per agent of a set, give an `Agent ID` column without repeats that lists exactly that set. |
| ReportProperties.OneRowPerAgent | cc_performance.py:45-47 | The `Agent ID` column has no repeats and lists exactly the agent-leg usernames, one row each. |
| Scenarios.RoundingCases | cc_performance.py:59-60 | 5/2 rounds to 2, 7/2 to 4 and 7/3 to 2. |
| Scenarios.LeapDay2020 | cc_performance.py:43 | `2020/02/29` parses. |
| Scenarios.NoLeapDay2021 | cc_performance.py:43 | `2021/02/29` is malformed. |
| Scenarios.CenturyLeapRule | cc_performance.py:43 | 2000 is a leap year and 1900 is not, so `1900/02/29` is malformed. |
| Scenarios.BeforeFirstDay | cc_performance.py:43 | `1677/09/21` is a real day, but out of the timestamp range. |
| Scenarios.FirstDayParses | cc_performance.py:43 | `1677/09/22` is the first day that parses. |

## Left out

- The Streamlit page, the file upload, the csv/xlsx reading and the display code (cc_performance.py:10-22, 86-127). They are user interface and I/O.
- `to_excel` (cc_performance.py:25-35). It is spreadsheet serialisation done by a foreign library.
- `generate_chart` (cc_performance.py:74-83). It is plotting and colour arithmetic done by foreign libraries.
- Floating-point durations and float division. Durations are natural numbers, and `round(sum / n)` is computed exactly over integers. Python rounds the float quotient, which can land on a false .5, and so differ from the exact one, once the sum passes about 2^52.
- Missing values. A NaN duration or agent is not representable in the model.
- Integer width. The only width limit in the original is that each input duration fits a cell of an int64 column. The counts come from `len` and the sums from Python's `sum` over a list of Python ints (cc_performance.py:56-60, 63), so neither can wrap, and the model's unbounded integers compute them exactly.
- pandas' lenient date parsing. pandas 1.x hands `format='%Y/%m/%d'` to its ISO 8601 parser, which also accepts `-`, `.`, a space or `\` as the separator and one-digit months and days. So a `Call Start DT` of `2024-01-05 09:00` gives a report in the original. The model accepts only the zero-padded `YYYY/MM/DD` form and reports `BadTimestamp` for those inputs.
- The timestamp range is modelled as a fixed window of whole days, 1677-09-22 to 2262-04-11. That window is the set of midnights a nanosecond `Timestamp` can hold.
- The sort algorithm. pandas' default `sort_values` is not stable, but the model sorts stably. `ReportProperties.ReorderedInputSameReport` shows that the report does not depend on the order of the input rows at all, so the tie order cannot matter.
- Which failure is reported. When several prefixes are bad, or several groups are empty, the original stops at the first one it meets. The model also reports a specific bad prefix. `ReportProperties.ReorderedInputSameFailureKind` proves that the kind of failure does not depend on the input order. The specific prefix is not proved independent of it.
- Evaluation order. The original fills the table date by date, while the model builds it agent by agent. Each finished cell is the same either way, and a failure on any cell fails the whole report either way.

