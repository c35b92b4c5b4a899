# Activity-log export, modelled in Dafny

This project models the export pipeline of `app.py`, a script that copies a tenant's
activity-log events from the management API into a local JSON array file, `logs.json`:

- it asks the identity provider for a client-credential token (`get_token`);
- it builds a `$filter` for a window from `DAYS` days before today to two days after
  today, with dates in `YYYY-MM-DD` form;
- it fetches the first page of events (`rest_api_request`);
- it truncates the output file and writes `[`;
- it appends each event's JSON text followed by a comma;
- while the current response carries `nextLink`, it fetches that URL with no query
  parameters and appends that page's events;
- it finishes by cutting the file's last character and writing `]`.

Modules, one per part of the script:

| module | file | what it holds |
|---|---|---|
| `Calendar` | calendar.dfy | dates in `datetime`'s range, shifting by whole days, `%Y-%m-%d` text and reading it back |
| `Query` | query.dfy | the time window and the `$filter` expression |
| `Auth` | auth.dfy | the check `get_token` makes on the identity provider's reply, and the Authorization header |
| `Api` | api.dfy | `rest_api_request`: what a reply turns into for the caller |
| `LogFile` | logfile.dfy | `logs.json` as a character buffer (class `OutputFile`) and the text each step leaves in it |
| `Export` | export.dfy | `main` as the imperative method `Export`, proved against the specification functions `Outcome` and `FileAfter` |
| `ExportFacts` | export_facts.dfy | what a run does, as lemmas about `Outcome` and `FileAfter` |

Records are opaque values of a type parameter `R`. `json.dumps` is a parameter
`ser: R -> string`. The server is a script: the sequence of replies it sends, in the
order it sends them. Each reply is a status code plus a body, which is either decoded
JSON or `None` when the text is not JSON. A run consumes the replies up to and including
the first one that does not lead on: either it has no `nextLink`, or it is not JSON.
`Export` requires that such a reply exists (`Ends`). The source has no iteration cap,
so this is what makes the loop finite.

Where the code's behaviour differs from what a reader might expect, the model follows
the code:

- When the identity provider's reply has no `token_type` but carries both `error` and
  `error_description`, the run does not stop. `get_token` logs the error and returns
  `None`, and every request is then sent with `Authorization: Bearer None`
  (`ExportFacts.TokenErrorStillFetches`). A reply missing either field raises KeyError
  (app.py:46), and nothing is fetched (`ExportFacts.IncompleteTokenErrorStopsRun`).
- A non-200 reply is not an error for the caller. `rest_api_request` catches its own
  exception and returns the decoded error body as though it were a page. That body has
  no `value`, so the append is skipped, and no `nextLink`, so the loop ends. The file is
  then finalised as usual (`ExportFacts.ErrorReplyEndsPagination`).
- A reply that is not JSON raises in both branches of `rest_api_request`, and the
  exception escapes `main`. The file is never finalised
  (`ExportFacts.UndecodableReplyLeavesFileUnfinished`).
- With zero records the output is `]`, not `[]` (see Findings).

## Model

| member | source | states |
|---|---|---|
| `Calendar.NextDay` | app.py:87-88 | the following day is a valid later date; it is absent only after 9999-12-31, where `datetime` overflows |
| `Calendar.PrevDay` | app.py:89-90 | the preceding day is a valid earlier date; it is absent only before 0001-01-01 |
| `Calendar.NextDayIsSuccessor` | app.py:87-88 | no valid date lies strictly between a date and its following day |
| `Calendar.Shift` | app.py:87-90 | adding a `timedelta` of n days gives a valid date that is later when n > 0 and earlier when n < 0, or an overflow |
| `Calendar.ShiftForwardOverflow` | app.py:87-88 | adding n days overflows exactly when 9999-12-31 is reached after fewer than n days |
| `Calendar.ShiftBackwardOverflow` | app.py:89-90 | subtracting n days overflows exactly when 0001-01-01 is reached after fewer than n days back |
| `Calendar.ShiftAdd` | app.py:87-90 | shifting by a and then by b is shifting by a + b, for either sign |
| `Calendar.ShiftInverse` | app.py:89-90 | shifting back by n undoes a shift by n |
| `Calendar.Pad` | app.py:88 | a zero-padded field has exactly the requested width and only digits |
| `Calendar.PadRoundTrip` | app.py:88 | a zero-padded number reads back as the number |
| `Calendar.DigitsRoundTrip` | app.py:88 | a digit string is the zero-padded form of its own value |
| `Calendar.FormatDate` | app.py:88 | `%Y-%m-%d` text is ten characters with dashes at positions 4 and 7 |
| `Calendar.FormatThenParse` | app.py:90 | every formatted date reads back as the same date |
| `Calendar.ParseThenFormat` | app.py:90 | every text that reads as a date is exactly that date's formatting |
| `Calendar.FormatInjective` | app.py:88-90 | different dates have different texts |
| `Query.TimeWindow` | app.py:87-90 | the window exists exactly when neither today + 2 days nor today − DAYS days overflows, and both bounds are valid dates |
| `Query.WindowSpan` | app.py:87-90 | the start is DAYS days before today, and the end is DAYS + 2 days after the start |
| `Query.WindowOrdered` | app.py:87-90 | the start is before the end exactly when DAYS > −2 (at −2 they are the same day) |
| `Query.Filter` | app.py:91-92 | the filter is 100 characters: the start clause, a ten-character field, the end clause, a ten-character field, and the channel clause, each at a fixed place |
| `Query.BuildFilter` | app.py:86-92 | a filter is built exactly when the window exists |
| `Query.FilterCarriesWindow` | app.py:91-92 | the filter is 100 characters; its fixed clauses sit at fixed places, and the two dates in it read back as the window's start and end |
| `Query.BuildFilterDates` | app.py:86-92 | the filter sent reads back today − DAYS days as its start date and today + 2 days as its end date |
| `Query.FilterInjective` | app.py:91-92 | different windows give different filters |
| `Query.FilterExample` | app.py:87-92 | with DAYS = 1 on 2024-01-10, the filter spans 2024-01-09 to 2024-01-12 |
| `Auth.GetToken` | app.py:41-46 | a token is returned exactly when the reply has `token_type` and `access_token`, and it is `access_token`; with no `token_type` but both `error` and `error_description` the result is `None`; any other reply raises a KeyError |
| `Auth.Authorization` | app.py:52-53 | the header is `Bearer ` followed by exactly the access token, and `Bearer None` when there is no token |
| `Api.RestApiRequest` | app.py:63-74 | a body is returned exactly when the reply decodes, and it is that body, whatever the status; otherwise the decoding error escapes |
| `Api.StatusIgnored` | app.py:64-74 | two replies that differ only in status give the same result |
| `LogFile.EntriesAppend` | app.py:116-118 | the text of two batches of entries is the text of the first followed by the text of the second |
| `LogFile.EntriesAreJoinPlusComma` | app.py:133-135 | appended entries are the comma-joined records plus a single trailing comma |
| `LogFile.EntriesEndInComma` | app.py:133-135 | appended text is non-empty exactly when a record was appended, and then its last character is a comma |
| `LogFile.Finalized` | app.py:139-148 | finalising keeps the length and every character but the last, which becomes `]`; an empty file is left as it is |
| `LogFile.Sealed` | app.py:139-148 | the corrected finalisation always ends in `]`, and drops the last character only when it is a trailing comma |
| `LogFile.FinalizedIsArray` | app.py:139-148 | with at least one record, finalising `[` plus the entries gives the JSON array of the records in order |
| `LogFile.FinalizedEmptyLosesBracket` | app.py:139-148 | with no record, finalising `[` gives `]`, which is not any JSON array |
| `LogFile.SealedIsArray` | app.py:139-148 | finalisation that removes only a trailing comma gives the records' JSON array in every case, `[]` included |
| `LogFile.OutputFile.Begin` | app.py:106-108 | after opening for writing and writing `[`, the file is exactly `[` whatever it held before |
| `LogFile.OutputFile.Append` | app.py:116-118 | appending keeps the old content as a prefix and adds each record's text and a comma, in order |
| `LogFile.OutputFile.Finalize` | app.py:140-148 | the last character is removed and `]` is appended; an empty file is left unchanged |
| `Export.Chain` | app.py:123-131 | the replies consumed are a non-empty prefix of the script: every reply but the last leads on, and the last does not |
| `Export.ChainStopsAt` | app.py:123-131 | if replies 0..k−1 lead on and reply k does not, exactly replies 0..k are consumed |
| `Export.Requests` | app.py:95-131 | one request per consumed reply, the first to the endpoint with the API version and the filter |
| `Export.Written` | app.py:104-148 | the file is untouched when the first reply does not decode; otherwise it ends in `]` exactly when the last consumed reply decoded, and with a record it starts with `[` |
| `Export.Outcome` | app.py:81-131 | the run fails on the token exactly when a field `get_token` reads is missing; no request is sent exactly when the run fails before fetching; otherwise one request per consumed reply, the first to the endpoint |
| `Export.FileAfter` | app.py:81-148 | the file is untouched when no request was sent; once the first page decoded, it ends in `]` exactly when the run completed |
| `Export.Export` | app.py:81-151 | the requests sent, how the run ends and the final file content are those given by `Outcome` and `FileAfter` |
| `Export.ExportPages` | app.py:94-151 | starting from the first request, the requests, the ending and the file are those the consumed chain determines |
| `Export.FollowLinks` | app.py:123-137 | the pagination loop sends the requests the consumed chain determines, ends as its last reply dictates, and leaves `[` plus the entries of every consumed page |
| `Export.UndecodableLast` | app.py:126-131 | a reply that does not decode is the last one consumed and adds no record to the file |
| `Export.AppendPage` | app.py:115-120 | one append block adds the text of the page's `value` records; a page without `value` adds nothing |
| `Export.RequestsExtend` | app.py:123-131 | each iteration adds one request, to the previous reply's `nextLink`, with empty parameters |
| `Export.RecordsExtend` | app.py:132-137 | the records after one more page are the earlier records followed by that page's records |
| `Export.PageAppended` | app.py:132-137 | appending page i to the file of pages 0..i−1 gives the file of pages 0..i |
| `Export.AppendStep` | app.py:116-118 | serialising two batches of records in turn gives the text of the combined batch |
| `ExportFacts.RequestsFollowLinks` | app.py:123-131 | every request after the first goes to the previous reply's `nextLink`, with no query parameters |
| `ExportFacts.FetchesFollowChain` | app.py:123-137 | if all n replies but the last carry `nextLink`, exactly n requests are sent, in link order; when the last of them decoded and the n replies hold a record, the file is the JSON array of those replies' records in order |
| `ExportFacts.CompletedReachedPages` | app.py:94-148 | a completed run passed `get_token` without a KeyError (a token or `None`), built a filter, and decoded its first and last reply |
| `ExportFacts.CompletedRunWritesArray` | app.py:139-148 | a completed run with records leaves `[` + the records' texts joined by commas + `]`, in fetch order; with no records it leaves `]` |
| `ExportFacts.ErrorReplyEndsPagination` | app.py:123-137 | an error reply after k pages is fetched and then ends the loop; it adds no record, and the file is finalised over the k earlier pages |
| `ExportFacts.UndecodableReplyLeavesFileUnfinished` | app.py:64-74 | a reply that is not JSON leaves the file as it was if it came first; otherwise the file stays open-ended, not ending in `]` |
| `ExportFacts.IncompleteTokenErrorStopsRun` | app.py:41-46 | a reply without `token_type` that lacks `error` or `error_description` raises KeyError: no request is sent and the file keeps its content |
| `ExportFacts.TokenErrorStillFetches` | app.py:41-53 | when the token reply has no `token_type` but both `error` and `error_description`, pages are still fetched and every request carries `Bearer None` |
| `ExportFacts.ExampleRequests` | app.py:86-102 | with DAYS = 1 on 2024-01-10 and one page, exactly one request is sent, with the 2024-01-09 to 2024-01-12 filter, and the run completes |
| `ExportFacts.ExampleStarts` | app.py:81-92 | in the worked example the token is found, the filter is built, and the one reply is the whole chain |
| `ExportFacts.ExamplePage` | app.py:115-148 | a single final page holding records a and b leaves `[a,b]` in the file |
| `ExportFacts.ExampleFile` | app.py:104-148 | in that run, a page holding records a and b leaves `[a,b]` in the file, whatever the file held before |

## Findings

| source | as written | input that shows it | evidently intended | confidence | as-written member | corrected member |
|---|---|---|---|---|---|---|
| app.py:139-148 | the last character of the file is always cut before `]` is written | a run whose pages hold no record: the file is `[`, the cut removes the bracket, and the result is `]` | only a trailing comma is removed, so an empty export is `[]` | high; not executed | `LogFile.FinalizedEmptyLosesBracket` | `LogFile.SealedIsArray` |

The pipeline (`Export.ExportPages`) uses the finalisation as written. `LogFile.Sealed` is
the corrected finalisation. `LogFile.SealedIsArray` proves that it gives the records'
array for every number of records, and `ExportFacts.CompletedRunWritesArray` shows where
the as-written version differs.

## Left out

- Logging: `create_logger` and every `logging` call write log lines and have no other
  effect. This includes the `code` and `message` lookups on an error body, whose KeyError
  is caught.
- The identity-provider client: its construction, the token request and the environment
  reads are left out. The provider's reply is an input, a dictionary of string fields.
- Reading `DAYS`: `int(os.getenv('DAYS'))` is an input `days: int`. A value that is not
  an integer (ValueError) and an unset `DAYS` (TypeError from `int(None)`) are not
  modelled.
- HTTP: `requests.get` and the `Content-Type` header are left out; each reply is an
  input. The server's script does not depend on the URL asked for. The model records
  which URL and parameters each request used, but not how a server would answer them.
- A server that never stops sending `nextLink` would make the source loop forever. The
  model requires a script that ends (`Ends`).
- The `UnboundLocalError` raised when `requests.get` itself fails before `response` is
  bound.
- JSON: `json.dumps` is the parameter `ser`. A decoded body is reduced to its `value`
  and `nextLink` fields. Bodies that are not objects, a `value` that is not a list, and a
  `nextLink` that is `null` are not modelled.
- File-system failures: a failed open, write or truncate (each caught and logged), and
  partial writes. Every file operation succeeds in the model, except the seek on an
  empty file, which is modelled. Bytes and characters are not distinguished; every
  character involved is ASCII.
- Clocks: `datetime.now()` and `datetime.today()` become one input date. The time of
  day and a midnight falling between the two reads are not modelled.
- Calendar.FormatDate: pads years below 1000 to four digits. The platform's `strftime`
  may print such years without padding.
