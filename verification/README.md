# Ad Library API client — a Dafny model

This project models the Python client for the Meta Ad Library API
(`fb_ads_library_api`). It covers three parts:

- **The traversal.** It builds the first request URL from a query
  configuration, then follows the API's `paging.next` cursors. On each page it
  keeps the ads whose delivery started on or after a cutoff date. An empty
  filtered page stops it. An error payload is retried on the same URL, up to a
  retry limit.
- **The operators.** These consume the yielded batches: `count`, `save`
  (JSON lines), `save_to_csv`, and `start_time_trending` (ads per start date).
- **The command line.** It validates the `--country` and `--fields`
  arguments, configures the traversal from the options, and dispatches to an
  operator.

The Python program is a lazy generator over live HTTP. Here it is a pure
function over a finite sequence of server responses, one per GET.
`Traversal.Walk` returns a `Run`: every URL requested, every batch yielded,
and how the loop ended. JSON values are a closed union (`Values.Value`).
`json.dumps`, the country-code lookup and the field check are taken as
function parameters.

Modules, one per file:

- `Results`: `Option` and `Result`.
- `Text`: Python's `split`, `join`, `strip`, `filter`, and dict key order.
- `Decimal`: integer to text and back.
- `Dates`: `strptime`/`strftime` with `%Y-%m-%d`, and the cutoff order.
- `Values`: JSON values and records.
- `Query`: the configuration and the first URL.
- `ArchiveIds`: `get_ad_archive_id`.
- `Traversal`: the paging loop.
- `Operators`: the four actions.
- `Cli`: argument validation and `main`.

Three behaviours of the code are easy to misread. The model follows the code
in each:

- **Retry counter.** The loop keeps one counter, for the URL that failed
  most recently (`python/fb_ads_library_api.py:97-110`). A good page does not
  reset it; an error on a different URL restarts it at 1
  (`Traversal.OnError`, `Traversal.SuccessKeepsRetryCount`).
- **Retry limit of zero or less.** The counter is compared with the limit
  only after a first retry, so the fatal error is number
  `max(retry_limit, 1) + 1` in a row (`Traversal.GivesUpAfterRetryLimit`).
- **`--after-page-token`.** Its help text promises to restart a previous
  session (`python/fb_ads_library_api_cli.py:69`). The value is stored in the
  `after` attribute (`python/fb_ads_library_api_cli.py:179-180`), which the
  URL builder never reads, so the option changes no request
  (`Cli.PageTokenNotInFirstRequest`, `Query.AfterTokenNeverSent`).

## Model

| member | source | states |
|---|---|---|
| ArchiveIds.LeftmostMatch | python/fb_ads_library_api.py:20 | `re.search` scans left to right: the result is a match at or after the start, and no earlier position matches; `None` only when no position matches |
| ArchiveIds.DigitRunEnd | python/fb_ads_library_api.py:20 | `[0-9]+` is greedy: the run from the start position is all digits and is followed by a non-digit or the end of the URL |
| ArchiveIds.SnapshotId | python/fb_ads_library_api.py:20 | there is an id exactly when `/?id=` followed by a digit occurs somewhere; an id is a non-empty string of digits |
| ArchiveIds.SnapshotIdAtLeftmostMatch | python/fb_ads_library_api.py:20 | the id is the whole digit run right after the leftmost `/?id=` that a digit follows |
| ArchiveIds.ArchiveId | python/fb_ads_library_api.py:16-20 | succeeds exactly when the record has a text `ad_snapshot_url` containing a match, and then returns that URL's id; otherwise it is the KeyError, TypeError or AttributeError case |
| Query.NewConfig | python/fb_ads_library_api.py:38-68 | a missing API version becomes `v20.0`; a given one is kept as is; no `after` token is set |
| Query.CollectSpec | python/fb_ads_library_api.py:75-78 | over repeat-free candidates, a parameter appears once if it is a candidate and its value is truthy, and never otherwise; each value is rendered as the f-string would; candidate order is kept |
| Query.WhitelistComplete | python/fb_ads_library_api.py:24-34 | the whitelist names all nine URL parameters, each once |
| Query.QueryParamsExact | python/fb_ads_library_api.py:24-80 | the query has exactly one `name=value` pair per truthy whitelisted attribute and none for a falsy one, in whitelist order |
| Query.InitialUrlDependsOnlyOnWhitelist | python/fb_ads_library_api.py:70-80 | two configurations that agree on the API version and the nine whitelisted attributes produce the same first URL |
| Query.AfterTokenNeverSent | python/fb_ads_library_api.py:75-84 | the `after` attribute, the cutoff date and the retry limit never change the first URL |
| Query.CollectEntries | python/fb_ads_library_api.py:75-78 | every collected pair belongs to a truthy attribute and carries its rendered value; every truthy candidate is collected; nothing else is |
| Query.QueryStringSplits | python/fb_ads_library_api.py:80 | when no value contains `&`, splitting the query string on `&` gives back the `name=value` pairs |
| Query.DefaultQuery | python/fb_ads_library_api.py:44-51 | with default keyword arguments, the query asks for `ad_type=ALL`, `media_type=ALL`, `ad_active_status=ALL` and `limit=500`, has no `search_page_ids`, and uses API version v20.0 |
| Query.BuildInitialUrl | python/fb_ads_library_api.py:70-80 | the URL-building loop computes the reference URL: the pattern followed by the `&`-joined pairs |
| Traversal.OnError | python/fb_ads_library_api.py:97-110 | an error on a new URL restarts the count at 1; on the same URL it gives up exactly when the count has reached the limit, and otherwise adds one |
| Traversal.Keep | python/fb_ads_library_api.py:112-123 | the filter test raises exactly for an unreadable start date; otherwise it keeps a record exactly when its start date is on or after the cutoff |
| Traversal.FilterPage | python/fb_ads_library_api.py:112-123 | succeeds exactly when no record has an unreadable start date; the result keeps page order and holds each record dated on or after the cutoff as often as the page does, and no other record; failures are date errors |
| Traversal.StepOn | python/fb_ads_library_api.py:94-133 | one pass of the loop follows the cursor (the same URL after an error); a page leaves the retry state alone; an error yields nothing; at most one non-empty batch is yielded |
| Traversal.Walk | python/fb_ads_library_api.py:86-133 | the first request is the start URL; no response is read twice; running out of responses means all were read; every yielded batch is non-empty |
| Traversal.GenerateAdArchives | python/fb_ads_library_api.py:70-92 | an unreadable cutoff date raises before any request; otherwise the first request is the URL built from the configuration |
| Traversal.GenerateFromUrl | python/fb_ads_library_api.py:135-140 | a resumed traversal starts at the given URL; an unreadable cutoff raises before any request |
| Traversal.WalkFollowsCursor | python/fb_ads_library_api.py:94-133 | each request after the first goes where the previous response pointed: the same URL after an error, `paging.next` after a page |
| Traversal.WalkYieldsFilteredPages | python/fb_ads_library_api.py:112-128 | the batches yielded are exactly the non-empty filtered pages among the responses read, in order |
| Traversal.EmptyFilteredPageStops | python/fb_ads_library_api.py:124-127 | a page with nothing on or after the cutoff ends the traversal normally, even when a next page is offered |
| Traversal.StreakFrom | python/fb_ads_library_api.py:97-110 | from a count of `c` on a URL, an unbroken run of errors raises after `limit - c + 1` more requests (after one if `c` has reached the limit), with the last payload and that URL, and yields nothing |
| Traversal.GivesUpAfterRetryLimit | python/fb_ads_library_api.py:97-110 | errors in a row on a URL that is not the last failing one are retried in place; error number `max(retry_limit, 1) + 1` raises with its own payload and that URL; nothing is yielded |
| Traversal.ResumeGivesUpOnFourthError | python/fb_ads_library_api.py:135-140 | a resumed traversal uses retry limit 3: four errors in a row are four requests to the failure URL, and the fourth raises |
| Traversal.SuccessKeepsRetryCount | python/fb_ads_library_api.py:90-133 | a good page does not reset the count: once a URL has used its retries, the next error there after a page that leads back to it raises |
| Traversal.DoneOnlyAtLastPage | python/fb_ads_library_api.py:124-133 | a normal end always follows a page that filtered cleanly and was either empty after filtering or had no further cursor |
| Traversal.FailedOnlyAtLastResponse | python/fb_ads_library_api.py:94-133 | a raised traversal stops at the last response it read, and that response is the cause: the error payload on that URL, an unparsable body, a page without `data`, a `paging` without `next` after a non-empty batch, or a record whose start date cannot be read |
| Dates.ParseIso | python/fb_ads_library_api.py:116-118 | whatever `strptime(..., "%Y-%m-%d")` accepts is a real calendar date between years 1 and 9999 |
| Dates.FormatIsoFields | python/fb_ads_library_api_operators.py:153 | `strftime("%Y-%m-%d")` prints four year digits, a dash, two month digits, a dash and two day digits, and the digits read back as the date's year, month and day |
| Dates.ParseFormatRoundTrip | python/fb_ads_library_api_operators.py:151-153 | reading a date printed with `%Y-%m-%d` gives the date back |
| Dates.ParseIsCanonical | python/fb_ads_library_api_operators.py:151-153 | reprinting a parsed date and parsing it again gives the same date, whatever spelling was first read |
| Decimal.NatToTextRoundTrip | python/fb_ads_library_api.py:78 | the decimal digits written for a number read back as that number |
| Decimal.IntToTextRoundTrip | python/fb_ads_library_api.py:78 | the f-string spelling of an integer, sign included, parses back to it |
| Operators.OperatorTable | python/fb_ads_library_api_operators.py:16-29 | the action names are exactly `count`, `save`, `save_to_csv` and `start_time_trending`; each operator is under its own name and each name leads to its operator |
| Operators.OutputFilePath | python/fb_ads_library_api_operators.py:32-38 | the output path always ends with the extension |
| Operators.ExtensionNeverDoubled | python/fb_ads_library_api_operators.py:32-38 | with a real timestamp and a dotted extension, the extension is added exactly when the keyword lacks it, so it is never doubled |
| Operators.TotalCountsRecords | python/fb_ads_library_api_operators.py:45-47 | the count summed batch by batch is the number of records yielded |
| Operators.ArgsGuard | python/fb_ads_library_api_operators.py:60-61 | the guard passes exactly when there is one argument; otherwise it raises `<action> action takes 1 argument: output_keyword` |
| Operators.CountAdsOf | python/fb_ads_library_api_operators.py:41-50 | `count` writes no file; it reports a total exactly when the traversal ends normally, and that total is the number of records |
| Operators.JsonLines | python/fb_ads_library_api_operators.py:67-70 | one line per record, in order, each the record's JSON encoding |
| Operators.SaveToFileOf | python/fb_ads_library_api_operators.py:53-75 | a wrong argument count raises before any file exists; otherwise the `.json` file holds one JSON line per record yielded, and keeps them when the traversal fails; success exactly when the traversal ends normally, reporting the record count |
| Operators.Cell | python/fb_ads_library_api_operators.py:108-119 | a mapping, or a list starting with one, is JSON-encoded; an empty list is the IndexError; another list succeeds exactly when all its items are strings; strings and scalars are written as their text |
| Operators.ListCellSplits | python/fb_ads_library_api_operators.py:116-117 | a list of comma-free strings is recovered by splitting its cell on commas |
| Operators.Row | python/fb_ads_library_api_operators.py:105-125 | one cell per header, in header order: empty exactly where the record lacks the field, otherwise the field's encoded value; the row fails exactly when some present field cannot be encoded, and then with the fault of the first such header |
| Operators.FirstBadCell | python/fb_ads_library_api_operators.py:108-124 | the position of the first header whose present field cannot be encoded: every earlier present field encodes, and the one there does not |
| Operators.CsvRows | python/fb_ads_library_api_operators.py:101-125 | rows are written record by record, each the record's row, until the first record whose row fails; that record's fault is the one reported, and with no fault every record has its row |
| Operators.CsvRowsComplete | python/fb_ads_library_api_operators.py:101-125 | every row is written without a fault exactly when every record's row can be encoded |
| Operators.SaveToCsvOf | python/fb_ads_library_api_operators.py:78-127 | a wrong argument count, or a `False` field list, raises before any file; otherwise the header is the field list split on commas and row `i` is record `i`'s row; success exactly when the traversal ends normally and every record's row encodes, with one row per record; if every row encodes, all are written and a failure is the traversal's; otherwise writing stops at the first record that fails, with its fault |
| Operators.Bump | python/fb_ads_library_api_operators.py:157 | counting one more key adds one to that key's entry, or appends it with count 1; other entries and their order are unchanged |
| Operators.TallyKeys | python/fb_ads_library_api_operators.py:144-161 | the tally lists each distinct date once, in order of first occurrence, as a `Counter` keeps its keys |
| Operators.TallyCountsOccurrences | python/fb_ads_library_api_operators.py:157-162 | each listed date carries the number of times it occurs |
| Operators.TallySum | python/fb_ads_library_api_operators.py:143-157 | the counts add up to the number of dates tallied |
| Operators.StartDateKey | python/fb_ads_library_api_operators.py:149-156 | a record has a key exactly when it has a readable start date; the key is that date printed as `YYYY-MM-DD` and reads back as it; a missing field is the KeyError, a non-text value the TypeError, an unreadable text the ValueError |
| Operators.StartDateKeys | python/fb_ads_library_api_operators.py:144-157 | the keys succeed exactly when every record has one, one key per record in order; a failure is some record's own fault |
| Operators.SameKeyIffSameDate | python/fb_ads_library_api_operators.py:149-153 | two readable records get the same key exactly when they start on the same day, however the day was spelled |
| Operators.CanonicalKeys | python/fb_ads_library_api_operators.py:149-153 | every key reads as a date and is that date's printed form |
| Operators.KeyCountsDates | python/fb_ads_library_api_operators.py:149-157 | a day's printed form occurs among the keys once per record that starts on that day |
| Operators.StartTimeTrendingOf | python/fb_ads_library_api_operators.py:130-164 | a wrong argument count raises before any file; otherwise the file is written exactly when the traversal ends normally and every record's start date reads, at the `.csv` output path, starting with `date, count`; a date fault is raised as such, and otherwise a failure is the traversal's; the status value is `total_count`, the record count, which the function computes but never prints |
| Operators.TrendingHistogram | python/fb_ads_library_api_operators.py:143-162 | after the header, one `date, count` line per distinct start date in first-seen order: each date is printed as `YYYY-MM-DD`, no day has two lines, and each count is the number of records starting that day; the counts add up to the record count |
| Operators.TrendingReadsWalkedDates | python/fb_ads_library_api.py:112-123 | on records yielded by a traversal, the date tally never raises, and every date it counts is on or after the cutoff |
| Operators.TrendingSucceedsAfterTraversal | python/fb_ads_library_api_operators.py:141-164 | with one argument, the trending action succeeds on every traversal that ends normally |
| Cli.UnknownCountries | python/fb_ads_library_api_cli.py:101-105 | the pieces with no country code, each once: every piece without a code is listed, and only those |
| Cli.ValidateCountry | python/fb_ads_library_api_cli.py:94-112 | an empty argument passes as empty; only blank pieces gives "Country cannot be empty"; otherwise success exactly when every non-blank piece has a code, and the error names the unknown pieces |
| Cli.CountryCodesRoundTrip | python/fb_ads_library_api_cli.py:112 | the accepted value splits on commas into the codes of the non-blank pieces, in input order |
| Cli.StrippedPieces | python/fb_ads_library_api_cli.py:118-120 | the kept pieces are non-empty with no whitespace at either end |
| Cli.StrippedPiecesFilter | python/fb_ads_library_api_cli.py:118-120 | the kept pieces are exactly `filter` of the non-empty ones among the stripped pieces |
| Cli.StrippedPiecesDropOnly | python/fb_ads_library_api_cli.py:118-120 | stripping and dropping pieces never introduces a character (a comma, say) the input pieces lacked |
| Cli.StrippedPiecesFixed | python/fb_ads_library_api_cli.py:118-120 | pieces that are already stripped and non-empty pass through unchanged |
| Cli.UnsupportedFields | python/fb_ads_library_api_cli.py:123 | the rejected fields in order: each unsupported field as often as it occurs among the pieces, and no supported field |
| Cli.ValidateFields | python/fb_ads_library_api_cli.py:115-129 | an empty argument becomes `False`; otherwise success exactly when some non-empty piece remains and all are supported; the accepted list splits back into the stripped pieces; the error lists the unsupported fields |
| Cli.ValidateFieldsIdempotent | python/fb_ads_library_api_cli.py:115-129 | validating an accepted field list again accepts it unchanged |
| Cli.AccessTokenOf | python/fb_ads_library_api_cli.py:146-154 | a non-empty token from the environment wins over `--access-token`; with neither, no token is sent |
| Cli.Configure | python/fb_ads_library_api_cli.py:160-180 | the configured traversal always sends search terms, a page size, a status, an ad type and a media type; its retry limit is never 0; it has an `after` token exactly when one was given |
| Cli.TruthyOptionsWin | python/fb_ads_library_api_cli.py:153-180 | each truthy option replaces the constructor's value of its attribute |
| Cli.FalsyOptionsKeepDefaults | python/fb_ads_library_api_cli.py:160-180 | each falsy option, taken alone, leaves its attribute at the constructor's value; missing search terms become `.` |
| Cli.PageTokenNotInFirstRequest | python/fb_ads_library_api_cli.py:179-180 | giving `--after-page-token` leaves the first request URL unchanged |
| Cli.Main | python/fb_ads_library_api_cli.py:144-207 | an argument error exactly when a validation fails, naming the first failing one; then a missing search exactly when there are neither terms nor page ids; then an invalid action exactly when the action is not in the table; otherwise the output goes under `<git root>/output/<stamp>`, the traversal is the one configured from the options and the validated values, and the result is the named operator dispatched on that traversal |
| Cli.OnlyCsvReadsFields | python/fb_ads_library_api_cli.py:192-204 | only `save_to_csv` is handed the field list: every other operator's result is the same whatever the fields |
| Cli.Dispatch | python/fb_ads_library_api_cli.py:192-204 | the operator succeeds exactly when the traversal ends normally, a file-writing action got one argument, `save_to_csv` got encodable fields and the trending action readable dates; success reports the record count; a file is only written at the output path with the operator's extension |

## Left out

- Network I/O, `requests` and `json.loads` are not modelled. Responses are given as a finite sequence, already decoded or marked unparsable.
- `OutOfResponses` is an outcome the model adds. It covers a sequence of responses that runs out while the Python loop would keep requesting. A real server could answer errors forever on alternating URLs, and the model cannot represent that.
- The generator's laziness is not modelled. One consequence is kept, the order of effects: an unreadable cutoff raises at the first iteration, after the operator has opened its file. Requests the operator would never pull are kept; see the `Cli.Main` line below.
- A response body that is valid JSON but not an object is not modelled. For a list, `"error" in response_data` is a membership test: a list holding the string `"error"` is handled as an error payload, and one without it raises a TypeError at `response_data["data"]` (`python/fb_ads_library_api.py:121`). A string body makes the test a substring search; a number makes it raise a TypeError.
- Items of `data` that are not objects, and `paging` values that are not objects, are not modelled. Every item of `data` is a record (a JSON object), and `paging` is either absent, an object with `next`, or an object without it.
- `Dates.OnOrAfter`: the cutoff test compares `timestamp()` values of local midnights. It is modelled as the order of calendar dates, which matches as long as local midnights increase with the date. Time-zone rules that break this are not modelled.
- `Dates.ParseIso`: `strptime` also accepts non-ASCII Unicode digits. The model accepts ASCII digits only.
- `Dates.FormatIso`: zero-pads the year to four digits. Some platforms' `strftime` print years below 1000 without padding, which is not modelled.
- JSON encoding is the `dumps` parameter. The CSV writer's quoting is not modelled: rows are sequences of optional cell texts.
- `get_country_code` and `is_valid_fields` (in `fb_ads_library_api_utils.py`) are not part of this model. They are the `countryCode` and `isValid` parameters.
- The clock, the file system and `git rev-parse` are not modelled. Timestamps and the repository root are parameters, and directory creation is not modelled.
- `--verbose` progress messages and the summary lines printed at the end are not modelled.
- `.env` loading is not modelled; the environment token is a parameter.
- Argparse's parsing of the command line is not modelled. Options arrive already parsed. When both `--fields` and `--country` are invalid, the model reports the field error first, whatever their order on the command line.
- `page_count` is set in the constructor and never read, so it is not kept.
- Cli.Main: `Finished.run` is the whole traversal as the server would serve it. It is not cut where the operator raises first: on a usage error Python makes no request at all, and after a CSV cell that cannot be encoded it makes no further request. The operator's result reports the right fault in both cases, and `Operators.SaveToCsvOf` writes only the rows before the failing record.
