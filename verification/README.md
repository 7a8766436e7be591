# GA4 query validation and SEO crawl analysis, modelled in Dafny

This project models the deterministic core of a two-part analytics assistant.

**Analytics side.** A natural-language question becomes a Google Analytics 4
(GA4) report request.
- A rule-based parser finds metric keywords, a `last N days` window and a
  `/page` path.
- A static field check accepts or refuses the request.
- A metadata-driven validator checks every metric and dimension. It applies
  the per-metric blocked-dimension table and three fixed guards:
  session-by-event, user-by-item, and ads.
- A bounded loop asks a repair oracle for a new candidate whenever
  validation fails.
- A summariser reports each metric as increased, decreased or stable.

**SEO side.** A crawl workbook is queried.
- Sheet names and column headers are normalised.
- Logical fields resolve to physical columns through an alias table.
- An intent's filters narrow a sheet.
- The agent returns the first hundred rows, or an indexability summary graded
  good, average or poor.

**How the model works.** Everything is pure functions over immutable
datatypes:
- A query is a sequence of names.
- A DataFrame is a header row plus a sequence of records (`Frames.Frame`).
- A Python exception is the failure side of `Outcomes.Result`.
- The property metadata, today's date and the repair oracle are parameters.
  The source fetches or calls these over the network, or reads them from the
  clock.

The validator has no alias normaliser and no per-metric scope tag. It
checks existence against the metadata, then the blocked-dimension table,
then fixed sets of session, user, event, item and ads names.

## Model

| member | source | states |
|---|---|---|
| GA4Validator.Validate | app/ga4_schema_validator.py:94-147 | A query is valid exactly when it meets a rule-by-rule acceptance condition that does not depend on check order. Each error kind is raised exactly when every earlier check passed and its own check fails. An error names the first unknown metric or dimension, or the first blocked metric together with exactly its clashing dimensions, each listed once. An error always carries the lists it was given. |
| GA4Validator.TableCheck | app/ga4_schema_validator.py:102-123 | Metric existence comes first, then dimension existence, then the blocked-dimension table. Each stage fires exactly when the earlier stages pass and its own condition fails, and it reports the first offender in request order. |
| GA4Validator.GuardCheck | app/ga4_schema_validator.py:126-145 | The session/event guard fires exactly when both sets meet the request. The user/item guard fires only when the session/event guard does not, and the ads guard only when neither of the first two fires. No guard fires exactly when no session metric meets an event dimension, no user metric meets an item dimension, and no ads metric is requested. |
| GA4Validator.ClashingDims | app/ga4_schema_validator.py:117-120 | The listed dimensions are exactly the requested dimensions that the metric's blocked set contains, each listed once. |
| GA4Validator.QuotedList | app/ga4_schema_validator.py:120 | Every dimension of the list appears quoted in the printed list. |
| GA4Validator.MessageNamesOffender | app/ga4_schema_validator.py:102-123 | The message of a rejected query names the offender. An unknown metric or dimension is the one the message prints after "Invalid GA4 metric: " or "Invalid GA4 dimension: ", and it is in the request but not in the metadata. An incompatibility message quotes the metric and every requested dimension the metric blocks. |
| GA4Validator.IncompatibleMessage | app/ga4_schema_validator.py:120 | The incompatibility message quotes the metric and each clashing dimension. |
| GA4Validator.ValidateAsWritten | app/ga4_schema_validator.py:99-106 | The code as written raises `NameError` on `metric_map` exactly when the metric list is non-empty. With no metrics it agrees with the corrected validator: it returns exactly when that validator accepts, and otherwise raises exactly that validator's error. |
| GA4Validator.AsWrittenRejectsValidQuery | app/ga4_schema_validator.py:99-103 | `sessions` by `date` against metadata that knows both is valid for the corrected validator, yet raises `NameError` as written. |
| GA4Validator.SessionByEventExample | app/ga4_schema_validator.py:126-131 | `sessions` by `eventName` fails with the session/event reason even when the metadata knows both names and blocks nothing. |
| GA4Validator.SessionByDateExample | app/ga4_schema_validator.py:126-147 | `sessions` by `date` passes against the same metadata. |
| GA4Validator.RepairLoop | app/ga4_schema_validator.py:214-237 | The first attempt is the caller's candidate. There are at most retries+1 validations and at most retries repair calls. Every later attempt is the oracle's answer to the previous attempt's error. Success returns exactly the last attempt and happens exactly when it validates. Exhaustion re-raises the last error after the whole budget. A failing repair call ends the loop. |
| GA4Validator.AutoRepair | app/ga4_schema_validator.py:214-237 | With the GA4 validator in the loop, an accepted query passes validation. A rejection carries the error of the last candidate, after retries+1 validations. |
| GA4Validator.DefaultBudget | app/ga4_schema_validator.py:219-237 | With the default of one retry, the loop validates at most twice and calls the oracle at most once. A rejection means the first candidate failed and the oracle's proposal failed too, and it carries the proposal's error. |
| GA4Validator.NoRetriesNoRepair | app/ga4_schema_validator.py:225-227 | With retries <= 0 the loop validates once, never calls the oracle, and re-raises the validator's own error. |
| GA4Validator.AcceptedIsFixedPoint | app/ga4_schema_validator.py:221-223 | Running the loop again on an accepted query accepts it at once with no repair call, whatever the budget. |
| GA4Validator.StuckOracleExhaustsBudget | app/ga4_schema_validator.py:225-237 | An oracle that always proposes the same invalid candidate uses the whole budget: retries+1 validations and retries calls, then the original error. |
| GA4Validator.SourceRepair | app/ga4_schema_validator.py:206-207 | The repair step as written never yields a candidate, because `safe_json_loads` does not exist in app/nl_parser.py. |
| GA4Validator.AsWrittenRepairNeverRevalidates | app/ga4_schema_validator.py:206-237 | With the repair step as written, an invalid query with retries left is never validated a second time: the loop ends in the repair exception after one call. |
| GA4Validator.RepairedCandidateIsRevalidated | app/ga4_schema_validator.py:225-237 | With an oracle that answers, a repaired candidate is validated again. One good proposal is accepted after exactly one repair call. |
| FieldValidator.ValidateFields | app/validator.py:1-18 | Accepted exactly when every metric and every dimension is in its vocabulary. The metric error is raised exactly when some metric is unknown. The dimension error is raised exactly when all metrics are known and some dimension is not. |
| FieldValidator.RefusalMessage | app/validator.py:15-18 | A refusal reads "Invalid GA4 metric requested" exactly when some metric is unknown, and "Invalid GA4 dimension requested" exactly when every metric is known and some dimension is not. |
| FieldValidator.EmptyAccepted | app/validator.py:14-18 | Empty metric and dimension lists are accepted. |
| FieldValidator.MetricErrorFirst | app/validator.py:15-18 | When both lists hold an unknown name, the metric error wins. |
| FieldValidator.VerdictDependsOnlyOnSets | app/validator.py:15-17 | Reordering or repeating names does not change the verdict. |
| RuleParser.MatchMetrics | app/nl_parser.py:82 | The result lists one value per table entry whose key occurs in the text, in table order: its k-th value belongs to the k-th such entry. A value is listed exactly when some entry with that value has its key in the text, and twice when two such entries share it. |
| RuleParser.TableValues | app/nl_parser.py:7-12 | Looking keys up in the metric table yields only `screenPageViews`, `totalUsers` and `sessions`. |
| RuleParser.Search | app/nl_parser.py:86-92 | The match found is the one at the leftmost index where the pattern matches. There is no match exactly when no index matches. |
| RuleParser.LeftmostIsSearch | app/nl_parser.py:86-92 | A match at an index with no match before it is the one the search returns. |
| RuleParser.DaysOf | app/nl_parser.py:86-87 | With no `last N days` match the count is 7. Otherwise the leftmost match's digits give the count. |
| RuleParser.PagePathOf | app/nl_parser.py:92-93 | There is no page path exactly when `/(\w+)` matches nowhere. Otherwise the path is `/` plus the word of the leftmost match. |
| RuleParser.DaysGroupIsDigits | app/nl_parser.py:86-87 | The captured day count of `last (\d+) days` is a non-empty run of digits. |
| RuleParser.ParseRules | app/nl_parser.py:80-103 | The parse fails with "No valid GA4 metrics found in query" exactly when no key occurs in the lowercased query. Otherwise it returns 1 to 4 metrics, those the keyword lookup yields on the lowercased query in table order, `["date"]` and the `rules` tag. The window ends today and starts the parsed day count earlier. `dateRange` prints that count, and the page path is the leftmost `/word`. |
| RuleParser.ParseLowered | app/nl_parser.py:82-103 | The same as `ParseRules`, on text that is already lowercase. |
| RuleParser.MetricsFromTable | app/nl_parser.py:7-12 | Every metric the rules find is `screenPageViews`, `totalUsers` or `sessions`. |
| RuleParser.RulesOutputPassesFieldCheck | app/nl_parser.py:95-103 | Every successful rule-based parse passes `validate_fields` (app/validator.py:14-18). |
| RuleParser.CaseInsensitive | app/nl_parser.py:80 | A query and its lowercase form parse identically. |
| RuleParser.DateRangeReadsBack | app/nl_parser.py:86-87 | Searching the `last N days` text that the parser prints recovers N, for every N. |
| RuleParser.DefaultSevenDays | app/nl_parser.py:87 | With no `last N days` phrase the window is seven days, printed as `last 7 days`. |
| RuleParser.PagePathShape | app/nl_parser.py:92-93 | A page path is `/` followed by one or more word characters. It occurs in the text at the leftmost index where `/(\w+)` matches, and is not followed by another word character. |
| RuleParser.SlashWordMatch | app/nl_parser.py:92 | A `/(\w+)` match at an index is the slash plus the maximal run of word characters after it. |
| RuleParser.ScreenPageViewsTwice | app/nl_parser.py:7-12 | A text containing every key yields `screenPageViews` twice, then `totalUsers` and `sessions`, in table order. |
| RuleParser.AllKeysOccur | app/nl_parser.py:8-11 | The text `page views pageviews users sessions` contains all four keys. |
| TrendSummary.TrendOf | app/summarizer.py:9-15 | Increased exactly when the last value exceeds the first, decreased exactly when it is below, and stable exactly when they are equal. |
| TrendSummary.Summarize | app/summarizer.py:1-17 | No rows gives the fixed message. A `KeyError` names the first metric that some row lacks, and happens exactly when such a metric exists. Otherwise the result is one sentence per metric, from the first and last rows, joined by spaces. |
| TrendSummary.EndpointsOnly | app/summarizer.py:8-9 | Only the first and last rows decide the summary. |
| TrendSummary.SingleRowStable | app/summarizer.py:9-15 | With one row every metric is reported as stable. |
| TrendSummary.NoMetricsEmptySummary | app/summarizer.py:6-17 | Rows but no metrics give the empty string. |
| TrendSummary.TrendExamples | app/summarizer.py:10-13 | A rise from 3 to 5 reads "increased", and a fall from 5 to 3 reads "decreased slightly". |
| SchemaRegistry.ResolveColumn | seo_app/schema_registry.py:12-16 | The result is the first alias, in table order, that is a column of the frame. `KeyError("Column not found: ...")` is raised exactly when no alias is a column. |
| SchemaRegistry.KnownFieldsHaveAliases | seo_app/schema_registry.py:1-9 | A field has a non-empty alias list exactly when it is in the table. |
| SchemaRegistry.UnknownLogicalFails | seo_app/schema_registry.py:13-16 | A field the table does not know never resolves. |
| SchemaRegistry.AddressBeforeUrl | seo_app/schema_registry.py:2 | With both `address` and `url` present, `url` resolves to `address`. |
| SchemaResolver.ResolveField | seo_app/schema_resolver.py:3-7 | Success exactly when the sheet exists and some alias is in its column set. The result is the first such alias. An unknown field raises "Field not found" even on a missing sheet. A known field on a missing sheet raises `KeyError(sheet)`. |
| SchemaResolver.AgreesWithResolveColumn | seo_app/schema_resolver.py:3-7 | Against a schema entry equal to the sheet's columns, `resolve_field` and `resolve_column` succeed together and pick the same column. |
| SchemaDiscovery.DiscoverSchema | seo_app/schema_discovery.py:1-2 | The schema has exactly the workbook's sheet names, and each sheet's entry holds exactly its columns. |
| SchemaDiscovery.EmptyWorkbook | seo_app/schema_discovery.py:1-2 | A workbook with no sheets gives an empty schema. |
| SchemaDiscovery.DiscoveredResolution | seo_app/schema_discovery.py:1-2 | Resolving a field against the discovered schema agrees with resolving it against the sheet's own columns. |
| Executor.JudgeVerdicts | seo_app/executor.py:9-14 | `==` keeps a row exactly when its cell is present and equals the value, and never raises. `>` raises exactly for a number against a string, keeps the greater numbers, and drops missing cells. `contains` raises exactly for a non-string pattern and otherwise keeps the rows whose rendered cell contains it. Any other operator keeps every row. |
| Executor.Greater | seo_app/executor.py:11-12 | `>` raises `TypeError` exactly for a number compared with a string. On numbers it keeps exactly the larger cells. |
| Executor.Select | seo_app/executor.py:3-16 | The kept rows are an order-preserving subsequence of the input. They are exactly the input rows that every filter keeps. Each kept row appears as often as in the input, and every other row not at all. |
| Executor.ApplyFilter | seo_app/executor.py:4-14 | An unknown operator leaves the frame unchanged. A known one raises `KeyError` for a missing column. It raises `TypeError` for a non-string `contains` pattern on any frame, even one with no rows, and when a row cannot be compared. Otherwise it keeps exactly the rows it matches, with the columns unchanged. |
| Executor.ApplyFilters | seo_app/executor.py:3-16 | No filters give the frame back. A successful run keeps exactly the rows that pass every filter, in order, with the columns unchanged. It succeeds whenever every filter can run on the input frame. |
| Executor.BoundToRaise | seo_app/executor.py:3-16 | A list of filters fails whenever some known operator names a column the frame lacks, or some `contains` pattern is not a string, whatever the rows and wherever that filter sits. |
| Executor.FilteredRowsAreSubsequence | seo_app/executor.py:3-16 | Filtering only removes rows and never reorders them. |
| Executor.EqualityFilter | seo_app/executor.py:9-10 | `==` never raises on an existing column. It keeps exactly the rows whose cell equals the value, and a missing cell equals nothing. |
| Executor.GreaterFilterOnNumbers | seo_app/executor.py:11-12 | On a numeric column and a numeric value, `>` keeps exactly the rows with a greater cell. |
| Executor.ContainsFilter | seo_app/executor.py:13-14 | A string pattern never raises on an existing column and keeps exactly the rows whose rendered cell contains it. |
| Executor.NonStringPatternRaises | seo_app/executor.py:13-14 | A numeric `contains` pattern raises `TypeError` even on a frame with no rows, and so does any filter list that holds it. |
| Executor.AdvertisedButIgnored | seo_app/executor.py:9-14 | The operators `!=`, `>=`, `<`, `<=` and `not_contains` leave the frame unchanged. |
| Executor.FilterOrderIrrelevant | seo_app/executor.py:4-16 | Two orders of the same filters give the same result whenever both run. |
| Executor.SelectCompose | seo_app/executor.py:4-14 | Filtering by one filter and then by the rest equals filtering by all of them at once. |
| Executor.ResolveFilters | seo_app/executor.py:22-25 | Success exactly when every field resolves. Each resolved filter carries its field's column. Failure reports the first field that does not resolve. |
| Executor.ExecuteIntent | seo_app/executor.py:19-27 | A missing sheet raises `KeyError(sheet)`. Success means every filter resolved and the rows are the sheet's rows selected by the resolved filters. No filters return the sheet unchanged. A field that does not resolve ends the call with that field's error. Once every field resolves, the result is that of applying the resolved filters to the sheet. |
| HealthSummary.Assess | seo_app/summarizer.py:1-6 | Good exactly above 90, average exactly above 70 and up to 90, poor exactly at 70 or below. |
| HealthSummary.AssessmentText | seo_app/summarizer.py:1-6 | The reported sentence is the good one exactly above 90, the average one exactly above 70 and up to 90, and the poor one otherwise. |
| HealthSummary.AssessMonotone | seo_app/summarizer.py:2-6 | A higher percentage never gets a worse grade. |
| HealthSummary.BoundariesBelowCut | seo_app/summarizer.py:2-4 | Exactly 90 is average and exactly 70 is poor. |
| SeoAgent.CountIndexable | agent/seo_agent.py:26 | The count of `Indexable` cells is at most the number of rows. |
| SeoAgent.AllIndexableIffFullCount | agent/seo_agent.py:26 | The count equals the number of rows exactly when every row is `Indexable`. |
| SeoAgent.Percent | agent/seo_agent.py:27 | The percentage lies between 0 and 100 and is 0 for no rows. Otherwise percentage × total = indexable × 100, and it is 100 exactly when all rows are indexable. |
| SeoAgent.Respond | agent/seo_agent.py:21-33 | `rows` returns the first min(100, n) rows, in order. `summary` raises `KeyError` without an `indexability` column. Otherwise it reports the row count, a percentage in [0, 100] that satisfies percentage × total = indexable × 100, and the grade of that percentage. Any other mode returns nothing. |
| SeoAgent.RunSeoAgent | agent/seo_agent.py:14-33 | Execution errors surface before the output mode is read. A frame the executor returns is answered as `Respond` answers it. A `rows` answer is the first min(100, n) rows of the filtered sheet, which keeps the sheet's order. An unknown mode returns nothing. |
| SeoAgent.FullyIndexableIsGood | agent/seo_agent.py:24-33 | A non-empty frame of only indexable pages reports 100 percent and is graded good. |
| SeoAgent.UnfilteredRowsArePrefix | agent/seo_agent.py:19-22 | An unfiltered `rows` request on an existing sheet returns that sheet's first min(100, n) rows. |
| ExcelLoader.NormalizeHeader | seo_app/excel_loader.py:12 | A normalised header has the length of the stripped label. Each character is that label's character, lowercased, with a space turned into `_`. It has no spaces and no capitals, and it neither starts nor ends with whitespace. |
| ExcelLoader.NormalizeIdempotent | seo_app/excel_loader.py:12 | Normalising twice is the same as normalising once. |
| ExcelLoader.CleanHeaderUnchanged | seo_app/excel_loader.py:12 | A header that is already trimmed, lowercase and free of spaces is kept as is. |
| ExcelLoader.TitleLengthHeader | seo_app/excel_loader.py:12 | ` Title 1 Length ` becomes `title_1_length`. |
| ExcelLoader.LoadHeaders | seo_app/excel_loader.py:10-13 | The keys are exactly the lowercased sheet names. |
| ExcelLoader.LastSheetWins | seo_app/excel_loader.py:13 | Each key holds the normalised headers of the last sheet stored under it. |
| ExcelLoader.KeysAreLowercase | seo_app/excel_loader.py:13 | No key has a capital letter. |
| ExcelLoader.CaseCollision | seo_app/excel_loader.py:13 | Two sheets whose names differ only in case leave one entry, the later sheet's. |
| Text.Lower | app/nl_parser.py:80 | Lowercasing keeps the length and maps each character on its own. |
| Text.LowerFacts | app/nl_parser.py:80 | Lowercasing leaves no capitals, fixes text that has none, and is idempotent. |
| Text.Contains | app/nl_parser.py:82 | `k in q` holds exactly when the key occurs at some index of the text. |
| Text.RunEnd | app/nl_parser.py:86 | The greedy run of `\d` or `\w` characters ends at the first character outside the class. |
| Text.DigitsRoundTrip | app/nl_parser.py:87 | Reading back the decimal digits printed for a number gives the number. |
| Text.Strip | seo_app/excel_loader.py:12 | The result is a slice of the input with only whitespace cut from both ends. Its ends are not whitespace, and text whose ends are not whitespace is unchanged. |
| Text.SpacesToUnderscores | seo_app/excel_loader.py:12 | The length is kept, every space becomes `_`, and every other character is kept. |

## Left out

- `load_metadata` (app/ga4_schema_validator.py:67-86): this is a network call. Its result is the `Metadata` parameter.
- GA4Validator.AutoRepair: the source fetches metadata again on every pass. The model holds it fixed for a whole run.
- GA4Validator.AutoRepair: the language-model repair call is a parameter, a pure function from the error to an optional candidate. `None` stands for any exception the call raises. This covers the missing-key cases of `repaired["metrics"]`, and the prompt text `build_repair_prompt` builds is not modelled.
- GA4Validator.Message: the `Incompatible` reason lists the clashing dimensions in request order. The source prints `list(set)`, whose order Python leaves unspecified.
- GA4Validator.TimeDimensions: the constant is declared but no rule reads it, in the source as in the model.
- `llm_parse` and the LLM branch of `parse_query` (app/nl_parser.py:17-77): these are network calls with free-form JSON output. Only the rules branch is modelled.
- RuleParser.ParseRules: dates are day numbers counted from a `today` parameter. The ISO `YYYY-MM-DD` text and the `timedelta` overflow on very large day counts are not modelled.
- Text.Lower, Text.Strip, RuleParser.Search: only ASCII is modelled. `str.lower` and `str.strip` see ASCII letters and ASCII/Latin-1 whitespace, and `\d` and `\w` are ASCII digits and `[A-Za-z0-9_]`. Python's Unicode classes are wider.
- Executor.Judge: `str.contains` is modelled as a literal substring test. pandas reads the pattern as a regular expression, which agrees only for patterns without metacharacters.
- Executor.Render: a number renders as its integer digits. pandas stores an integer column that has missing cells as floats, so `astype(str)` renders 200 as `200.0`, and a pattern like `200.0` matches there but not in the model.
- Executor.Greater: only integer and string cells are modelled. Floats, booleans, and pandas' per-dtype comparison rules are not.
- Grouping and aggregation in `execute_intent` (seo_app/executor.py:29-30) are not modelled.
- `parse_seo_intent` (seo_app/intent_parser.py) is not part of this model. Its result is the `Intent` parameter.
- SeoAgent.Respond: the percentage is exact. The source rounds it to two decimals for display, and grades the unrounded value as the model does.
- ExcelLoader.NormalizeHeader: a header that is not a string (a number or a date label) makes `c.strip()` raise `AttributeError`. The model takes every header as text.
- ExcelLoader.LoadHeaders: reading the workbook file and its cell values is I/O. Only sheet names and header rows are modelled.
- The FastAPI entry points (app/main.py, seo_app/seo_main.py) and the GA4 report call (app/ga4_client.py) are I/O wrappers and are not modelled.

## Findings

| source | as written | input that shows it | evidently intended | confidence | as-written member | corrected member |
|---|---|---|---|---|---|---|
| app/ga4_schema_validator.py:99-103 | The metric existence test reads `metric_map`, which only the commented-out line 99 would bind. Any non-empty metric list therefore raises `NameError`. | metrics `["sessions"]`, dimensions `["date"]`, metadata knowing both and blocking nothing | Test membership in the keys of `metric_blocked_dims`, bound on line 100 | high, not executed (line 1 star-imports `utils.packages`, which is not part of this model) | GA4Validator.AsWrittenRejectsValidQuery | GA4Validator.Validate |
| app/ga4_schema_validator.py:206-207 | The repair step imports `safe_json_loads` from app/nl_parser.py, which defines no such name. Every repair call raises `ImportError`, so no candidate is ever validated a second time. | any invalid query with `retries >= 1` | Parse the model's JSON answer into a new candidate and validate it again | high, not executed | GA4Validator.AsWrittenRepairNeverRevalidates | GA4Validator.RepairedCandidateIsRevalidated |
