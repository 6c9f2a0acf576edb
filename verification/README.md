# Bulk issue extractor: keyset pagination, row normalization, project sweep

This project models the core of `jira-xray-bulk-data-extractor.py`, a script
that pulls every test-management and bug issue from every project visible in
an issue tracker and writes one spreadsheet. It has three parts:

- **The keyset paginator** (`get_issues_from_project`). For one project it asks
  the search endpoint for the matching issues `ORDER BY id DESC`, 100 at a
  time. Each later request adds `AND id < c`, where `c` is the id of the last
  issue of the previous page. It stops:
  - on an empty page;
  - on any error other than 401/403, keeping what it has;
  - on 401/403, returning nothing at all;
  - before a request once 50,000 issues are held.
- **The row normalizer** (the per-issue body of `generate_excel_report`). Each
  raw issue becomes one flat row of 21 columns, each with its own fallback.
- **The sweep** (`__main__`). It paginates every project of the catalog in
  order, appends the non-empty results to one master list, and builds the
  report only when that list is non-empty.

The search endpoint is a parameter, `Paginator.Server`. It maps the request
number within one project's session, and the structured query, to a response:
no response at all, or an HTTP status with a body. It may answer anything,
including differently to the same query. So every property below holds
against an adversarial server unless it states an assumption about the
server. Issue ids are natural numbers: a page whose last issue has an `id`
that is not one lies outside the model: a JSON `null`, a negative or
fractional number, or a string other than a digit string without leading zeros
(see "## Left out"). Such a digit string is written into the query at :127 as
exactly the text `Text.Decimal` gives for its value, so the model covers it
through that number.

Each imperative loop is a method proved against a specification function:
- `Paginator.GetIssuesFromProject` (the `while True` loop) against `Paginator.Paginate`;
- `Normalizer.GenerateReport` (the row loop) against `Normalizer.RowsOf`;
- `Sweep.RunSweep` (the project loop) against `Sweep.MasterList`.

The lemmas are stated over those functions. Modules and files:

| file | module | content |
|---|---|---|
| wrappers.dfy | Wrappers | `Option` |
| text.dfy | Text | decimal digits, `str.join`, `str.split` |
| jira.dfy | Jira | the decoded JSON of an issue and of a search response |
| timestamps.dfy | Timestamps | the `YYYY-MM-DDTHH:MM:SS` reader and `%Y-%m-%d` writer |
| paginator.dfy | Paginator | the query text, the reply classification, `Paginate`, the loop |
| paginator_props.dfy | PaginatorProperties | what one project's pagination guarantees |
| completeness.dfy | PaginatorCompleteness | completeness against a server that answers as asked |
| normalizer.dfy | Normalizer | the row of one issue and the report loop |
| normalizer_props.dfy | NormalizerProperties | the fallback chains and column contents |
| sweep.dfy | Sweep | the master list and the report decision |

Two kinds of optional value are kept apart, because the source treats them
differently:
- `Jira.Field` (Absent, Null, Present) is used where the source reads with
  `.get(k, default)`. There the default applies only to an absent key, and an
  explicit `null` reaches the cell as an empty cell.
- `Wrappers.Option` is used where `or` follows the read, which treats missing,
  `null` and `""` alike. It is also used for the `.get(k, {})` and
  `.get(k, [])` reads of `project`, `issuetype`, `status` and the list fields.
  There `None` means only that the key is absent: a `null` there raises in
  the source and is outside the model (see "## Left out").

## Model

| member | source | states |
|---|---|---|
| Text.Split | jira-xray-bulk-data-extractor.py:230 | `s.split(sep)` yields at least one piece, no piece contains `sep`, and the pieces joined with `sep` give `s` back |
| Text.FirstPieceBefore | jira-xray-bulk-data-extractor.py:230 | the first piece of `s.split(c)` is the longest prefix of `s` without `c`, followed by `c` when shorter than `s` |
| Text.SplitJoin | jira-xray-bulk-data-extractor.py:194-201 | for at least one part, joining the parts with a separator and splitting again gives the parts back, when no part contains the separator's first character |
| Text.Decimal | jira-xray-bulk-data-extractor.py:127 | the cursor interpolated into the query is a non-empty digit string that reads back as the cursor, with no leading zero except for "0" itself |
| Text.Padded | jira-xray-bulk-data-extractor.py:232 | a zero-padded field of the date has exactly the requested width, only digits, and reads back as the number |
| Text.PaddedOfNumber | jira-xray-bulk-data-extractor.py:230-232 | a digit field read as a number and padded back to its width is the same field |
| Timestamps.Parse | jira-xray-bulk-data-extractor.py:230 | a timestamp in the fixed `YYYY-MM-DDTHH:MM:SS` form (the other ISO forms are left out) is accepted only when it denotes a real calendar instant; otherwise the result is the ValueError case |
| Timestamps.FormatDate | jira-xray-bulk-data-extractor.py:232 | `%Y-%m-%d` of a valid instant is ten characters |
| Timestamps.DateOfParse | jira-xray-bulk-data-extractor.py:230-232 | the `%Y-%m-%d` of an accepted string's instant is the string's first ten characters |
| Timestamps.FormatOfParse | jira-xray-bulk-data-extractor.py:230-232 | every accepted string is the rendering of the instant read from it; its `%Y-%m-%d` is its first ten characters |
| Timestamps.ParseOfFormat | jira-xray-bulk-data-extractor.py:230-232 | every valid instant is read back from its rendering |
| Paginator.JqlDeterminesBound | jira-xray-bulk-data-extractor.py:124-127 | within one project the JQL text determines the id bound |
| Paginator.Classify | jira-xray-bulk-data-extractor.py:137-157 | 401/403 is a denial; no response, a 4xx/5xx status or a body that is not a JSON object is an error; otherwise the page is `issues`, or `[]` when that is missing |
| Paginator.GetIssuesFromProject | jira-xray-bulk-data-extractor.py:86-159 | the loop returns exactly the issues of `Paginate`, and sends exactly the requests of its log, in order |
| PaginatorProperties.CursorRule | jira-xray-bulk-data-extractor.py:112-127 | at least one request is sent; the first has no id bound; each later one is for the same project, bounded by the id of the last issue of the previous page, which was non-empty |
| PaginatorProperties.OnlyLastReplyEnds | jira-xray-bulk-data-extractor.py:141-157 | every reply before the last one was a non-empty page |
| PaginatorProperties.NoEarlierDenial | jira-xray-bulk-data-extractor.py:141-143 | only the last reply can be a 401/403 |
| PaginatorProperties.AccessDeniedDiscardsAll | jira-xray-bulk-data-extractor.py:141-143 | a 401/403 on any page makes it the last request; the result is empty whatever earlier pages held, and the stop reason is the denial |
| PaginatorProperties.ResultIsFetchedPages | jira-xray-bulk-data-extractor.py:147-159 | without a denial, the result is the concatenation of every page received, in fetch order |
| PaginatorProperties.ResultIsEarlierPages | jira-xray-bulk-data-extractor.py:147-159 | when the last reply is not a denial and adds nothing, the result is exactly the pages before it |
| PaginatorProperties.ErrorKeepsEarlierPages | jira-xray-bulk-data-extractor.py:137-159 | when request N fails with any other error, the result is exactly pages 1..N-1, unchanged, and the run is aborted |
| PaginatorProperties.EmptyPageEndsNormally | jira-xray-bulk-data-extractor.py:147-152 | an empty page ends the run as exhausted, with every earlier page in fetch order |
| PaginatorProperties.EmptyFirstPage | jira-xray-bulk-data-extractor.py:147-150 | an empty first page means one request and an empty result |
| PaginatorProperties.NoRequestAtCap | jira-xray-bulk-data-extractor.py:118-121 | every request is sent while fewer than 50,000 issues are held |
| PaginatorProperties.RequestCountBounded | jira-xray-bulk-data-extractor.py:110-121 | against any server, one project's pagination sends at most 50,000 requests, so the loop terminates |
| PaginatorProperties.ResultBounded | jira-xray-bulk-data-extractor.py:100-131 | when pages hold at most `maxResults` issues, the result is shorter than 50,000 + 100 |
| PaginatorProperties.IdsStrictlyDecrease | jira-xray-bulk-data-extractor.py:124-153 | when every page honours `id < c ORDER BY id DESC`, the returned ids strictly decrease, so they are unique |
| PaginatorCompleteness.CompleteAgainstIdealServer | jira-xray-bulk-data-extractor.py:86-159 | a server holding a project's issues, ids descending, that answers every query as asked: the result is all of them, in order, up to the first 50,000; it ends exhausted below the cap and at the cap otherwise |
| Normalizer.NormalizeIssue | jira-xray-bulk-data-extractor.py:181-272 | the name and issue-type columns are never empty; the link is the base URL + `/browse/` + the key; the three creation columns are "N/A" together, otherwise a ten-character date with a month in 1..12 and a year in 1..9999 |
| Normalizer.CreationOf | jira-xray-bulk-data-extractor.py:220-237 | "N/A" in all three creation columns, or a ten-character date with a month in 1..12 and a year in 1..9999; only the fixed `YYYY-MM-DDTHH:MM:SS` form parses (see "## Left out") |
| Normalizer.RowsOfSpec | jira-xray-bulk-data-extractor.py:180-241 | exactly one row per issue, the i-th row built from the i-th issue |
| Normalizer.GenerateReport | jira-xray-bulk-data-extractor.py:176-241 | no rows for an empty list; otherwise one row per issue, in input order |
| NormalizerProperties.PeopleColumns | jira-xray-bulk-data-extractor.py:207-213 | reporter (assignee): the display name, else the account id, else "Unknown" ("Unassigned"); the account-id column is the account id or "N/A"; a name taken from the account id equals the account-id column |
| NormalizerProperties.IssueTypeColumn | jira-xray-bulk-data-extractor.py:215-218 | the issue type is its name, else its id, else "N/A (Corrupt)"; empty strings fall through |
| NormalizerProperties.GetOrDefaultsOnlyWhenAbsent | jira-xray-bulk-data-extractor.py:243-263 | about the `GetOr` helper alone, Python's `.get(k, default)` on a string key: it gives an empty cell exactly for an explicit null, and the default exactly when the key is absent or holds the default itself |
| NormalizerProperties.GetColumns | jira-xray-bulk-data-extractor.py:182-263 | Key, Project Key, Summary, Status, Priority and Resolution each hold the tracker's string when one was sent, an empty cell for `null`, and the column's default ("N/A", "N/A", "No Summary", "N/A", "Normal", "Unresolved") only when the key is absent; a missing or null `priority` or `resolution` object gives the default too |
| NormalizerProperties.OrNeverEmpty | jira-xray-bulk-data-extractor.py:212-218 | an `or` chain ending in a non-empty literal never yields `""`; it yields the literal exactly when the value is missing, null or empty, or is the literal |
| NormalizerProperties.NullCells | jira-xray-bulk-data-extractor.py:243-263 | Project Key, Key, Summary, Status, Priority and Resolution are empty exactly when the tracker sent `null` there; an empty summary stays empty; an absent one becomes "No Summary" |
| NormalizerProperties.CreationColumns | jira-xray-bulk-data-extractor.py:220-251 | the creation columns are filled exactly when `created` is non-empty and its part before the first '.' parses in the fixed `YYYY-MM-DDTHH:MM:SS` form; then the date is that part's first ten characters and the month and year are its numeric fields; otherwise all three are "N/A" |
| NormalizerProperties.CreatedPrefixCut | jira-xray-bulk-data-extractor.py:230 | the parsed part of `created` is its longest prefix without '.' |
| NormalizerProperties.CreationOfParsed | jira-xray-bulk-data-extractor.py:226-234 | a `created` whose part before the first '.' parses to `t` gives `t`'s date, numeric month and numeric year |
| NormalizerProperties.CreationOfTrackerTimestamp | jira-xray-bulk-data-extractor.py:228-234 | "2025-11-22T22:16:22.000-0300" gives "2025-11-22", 11 and 2025 |
| NormalizerProperties.UpdatedColumn | jira-xray-bulk-data-extractor.py:252 | Updated is `updated`, or "N/A" when missing, cut before its first 'T' |
| NormalizerProperties.LinkedKeysCharacterized | jira-xray-bulk-data-extractor.py:199-200 | a key is listed exactly when some link has it at its outward or inward end; one entry per such end; the outward keys come first and the inward keys follow, each in link order |
| NormalizerProperties.ListColumnRoundTrip | jira-xray-bulk-data-extractor.py:194-201 | a list column is "" for no values; otherwise splitting it at ", " gives the values back when none contains ',' |
| NormalizerProperties.LinkedIssuesColumn | jira-xray-bulk-data-extractor.py:199-201 | the Linked Issues column is "" without linked keys; otherwise, when no key contains ',', splitting it at ", " gives the linked keys |
| NormalizerProperties.ComponentsColumn | jira-xray-bulk-data-extractor.py:194 | the Components column is "" without components (or with the field missing); otherwise, when no name contains ',', splitting it at ", " gives the component names in order |
| NormalizerProperties.FixVersionsColumn | jira-xray-bulk-data-extractor.py:195 | the Fix Versions column is "" without fix versions (or with the field missing); otherwise, when no name contains ',', splitting it at ", " gives the version names in order |
| NormalizerProperties.LabelsColumn | jira-xray-bulk-data-extractor.py:196 | the Labels column is "" without labels (or with the field missing); otherwise, when no label contains ',', splitting it at ", " gives the labels |
| NormalizerProperties.EstimateColumn | jira-xray-bulk-data-extractor.py:204-270 | the estimate is the tracker's value in seconds, 0 when missing or null |
| NormalizerProperties.BareIssueDefaults | jira-xray-bulk-data-extractor.py:182-272 | an issue without fields gets every column's default: "N/A", "N/A (Corrupt)", "No Summary", "Unknown", "Unassigned", "Normal", "Unresolved", empty lists, estimate 0 |
| NormalizerProperties.RowsOfAppend | jira-xray-bulk-data-extractor.py:180-241 | the rows of a concatenation are the rows of its parts, concatenated |
| Sweep.RunSweep | jira-xray-bulk-data-extractor.py:294-323 | the master list is the per-project results concatenated in catalog order; an empty catalog stops the run; an empty master list gives no report; otherwise the report is one row per issue of the master list |
| Sweep.AggregateStep | jira-xray-bulk-data-extractor.py:306-313 | each project appends its result, unchanged, after the list of the projects before it |
| Sweep.ConcatEmpty | jira-xray-bulk-data-extractor.py:311-313 | a concatenation of blocks is empty exactly when every block is |
| Sweep.ConcatPrefix | jira-xray-bulk-data-extractor.py:311-313 | the concatenation of the first m blocks is a prefix of the concatenation of all of them |
| Sweep.ConcatOrigin | jira-xray-bulk-data-extractor.py:311-313 | every element of a concatenation comes from some block |
| Sweep.ConcatKeeps | jira-xray-bulk-data-extractor.py:311-313 | every element of every block is in the concatenation |
| Sweep.ConcatBounded | jira-xray-bulk-data-extractor.py:311-313 | blocks of at most b elements concatenate to at most (number of blocks) * b elements |
| Sweep.AggregateEmpty | jira-xray-bulk-data-extractor.py:306-315 | the list after m projects is empty exactly when each of them returned nothing |
| Sweep.NoReportIffNothingFetched | jira-xray-bulk-data-extractor.py:309-323 | no report is produced exactly when no project returned any issue |
| Sweep.AggregatePrefix | jira-xray-bulk-data-extractor.py:306-313 | the list after m projects is a prefix of the list at any later point |
| Sweep.ProjectBlock | jira-xray-bulk-data-extractor.py:306-313 | each project's result sits in the master list as one unchanged block, right after those of the projects before it |
| Sweep.AggregateMembers | jira-xray-bulk-data-extractor.py:306-313 | an issue is in the master list exactly when some project returned it |
| Sweep.DeniedProjectContributesNothing | jira-xray-bulk-data-extractor.py:309-315 | a project with a 401/403 on any page adds nothing to the master list |
| Sweep.AggregateBounded | jira-xray-bulk-data-extractor.py:306-313 | when pages hold at most 100 issues, m projects add at most m * 50,099 issues |
| Sweep.ReportByProject | jira-xray-bulk-data-extractor.py:313-321 | the report's rows are each project's rows, project after project |

## Notes on the code's behaviour

- A `.get(k, default)` lookup that meets an explicit JSON `null` yields
  `None`, an empty cell, not the default
  (jira-xray-bulk-data-extractor.py:243-263). The model keeps this: see
  `NormalizerProperties.NullCells`.
- The comment at jira-xray-bulk-data-extractor.py:106 says there is no
  issue-type filtering. The query on the next line nevertheless restricts to
  six issue types: Test, Test Execution, Test plan, Test set, Precondition and
  Bug. The model follows the query.
- The id read at jira-xray-bulk-data-extractor.py:153 is interpolated into
  the next query as is (:127). The model takes ids as natural numbers,
  rendered in decimal (`Text.Decimal`).
- When the last issue of a page has no `id`, the `KeyError` is caught after
  the page has been appended (:152-158). The loop then stops and the result
  keeps that page. The model does the same, with the stop reason `Aborted`.

## Left out

- HTTP sessions, authentication, headers, timeouts and `response.json()`
  (jira-xray-bulk-data-extractor.py:59-80, :114-138) are foreign network
  calls. They are replaced by the `Server` oracle and the `Response` datatype.
- `get_all_accessible_projects` (:51-80) is network I/O. The sweep takes its
  result, the catalog, as a parameter. Its error path returns `[]`, which is
  the empty-catalog case.
- Environment variables and the credential `exit(1)` (:34-45) are process
  configuration, not logic.
- The pandas DataFrame, `to_excel` and the PermissionError message (:275-283)
  are file output through a library. `GenerateReport` returns the rows that
  would be written.
- Console printing and wall-clock timing (:293, :325) have no effect on the
  result.
- The request number passed to `Server` restarts for each project. A tracker
  whose behaviour changes between projects is expressed through
  `Sweep.World`, which gives each project of the catalog its own server.
- Normalizer.CreationOf: accepts only exactly `YYYY-MM-DDTHH:MM:SS` (years
  1..9999). `datetime.fromisoformat` is a library that also accepts other ISO
  forms: a date alone, a space separator, fractional seconds, offsets. Such
  strings give "N/A" in the model. Only the fixed format is specified here.
- Timestamps.FormatDate: pads the year to four digits. The platform
  `strftime('%Y')` may not pad years below 1000, and library behaviour is not
  modelled.
- A JSON `null` where the source would raise is outside the model:
  - an issue's `fields`;
  - `project`, `issuetype` and `status`, which are read with `.get(k, {})`;
  - `updated`, which is split;
  - the list fields;
  - a link end.

  There `None` stands for the absent key only. Such an exception leaves
  `generate_excel_report` uncaught and ends the program, so no report would
  be written.
- Values of the wrong JSON type are not modelled, for example a number where
  a string is expected. Every text field is a string, and the estimate is an
  integer.
- An issue id that is not a natural number is not modelled.
  - A JSON `null` id on the last issue of a page sets `last_seen_id` back to
    `None` (:153). The next request is then the unbounded first query again
    (:124-125). A server that repeats that page gets it appended again, until
    the 50,000 cap ends the loop. The model cannot express this, so
    `PaginatorProperties.CursorRule`'s promise that every later request is
    bounded rests on ids being numbers.
  - Any other id that is not a natural number (a negative or fractional
    number, or a string other than a digit string without leading zeros) is
    written into the next query as is (:127). A
    negative id gives a bound such as `id < -1`, which the tracker answers.
    A string that is itself query text, such as `1 OR id > 0`, turns the
    query into `… AND id < 1 OR id > 0 ORDER BY id DESC`, which the tracker
    also answers and which no longer bounds the id. So `CursorRule`'s bound,
    and every property that rests on it, assumes natural-number ids in all
    these cases, not only for `null`.
- A missing key where the source indexes with `[...]` raises `KeyError`,
  which leaves `generate_excel_report` uncaught and ends the program. The
  model cannot express these cases: a component or fix version without
  `name` (:194-195), and a link end without `key` (:199-200). Each name and
  key is a plain string there.
- The request's `maxResults`, `fields` and `validateQuery` parameters
  (:128-134) are not part of `Query`. The server oracle answers the
  structured query; `MaxResults` appears only in the assumptions about the
  server (page size, the ideal server).
- `typify-traditional-team.py` is not part of this model. It is spreadsheet
  read and write around one library column lookup.
