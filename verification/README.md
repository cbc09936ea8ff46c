# WeChat official-account data scraper, modelled in Dafny

The extension reads the article list of a WeChat official-account back office
and stores one record per published article. It has three parts:

- The **content script** captures the list page by page. It detects the
  pagination bar, clicks "next page", waits for the page's payload and
  collects the `publish_list` entries. It also answers `stop` and `status`
  requests.
- The **side panel** turns a payload into article records. It merges new
  records into the stored list by id and computes the "recent 10" statistics.
  It shows the records in a table of twenty rows per page that sorts on
  header clicks. It builds the link to an article's statistics page and
  exports a CSV.
- The **background script** keeps an index of saved snapshots. It reads that
  index page by page, trims it to the configured maximum, clears it, and
  exports the snapshots' articles as CSV.

This project models those operations as pure functions over immutable data:

- JavaScript values are the `JsValue.Js` datatype.
- A thrown exception is an `Err` result.
- Browser storage is a map from keys to stored values.
- The capture engine is a state machine. Its suspended asynchronous runs are
  tasks that a timer tick resumes.

Modules:

- `JsValue`: JavaScript values, truthiness, property reads, `parseInt`, `Number(v)`,
  `String(v)`, `Array.prototype.join` and `slice`.
- `Sorting`: a stable sort by a real-valued key. `Array.prototype.sort` is
  stable.
- `Pagination`: `detectPagination`, `clickNextPage` and `validateWxData`.
- `Capture`, `CaptureProps`, `CaptureScenarios`: the paginated capture engine
  (`startPaginationCapture`, `captureCurrentPageInPagination`,
  `captureRemainingPages`, `waitForPageLoad`, `completePaginationCapture`,
  `stopPaginationCapture`, `getPaginationStatus`).
- `Normalize`: `processWeixinData`, `getContentType` and the record layout.
- `Merge`: `saveDataToStorage`.
- `Top10`: `calculateTop10Stats`.
- `Table`: `loadStoredData`, `handleSort`, `sortData`, `renderTable`,
  `changePage` and `updatePagination`.
- `Detail`: `constructDetailPageUrl` and `handleViewDetail`.
- `Csv`, `Export`: the side panel's `convertToCSV`, plus a reader for the
  CSV it writes.
- `Snapshots`: the background's `getStoredData`, `updateDataIndex`,
  `cleanupOldData`, `getSettings` and `clearStoredData`.
- `BackgroundCsv`: the background's `convertToCSV`.

## Model

| member | source | states |
|---|---|---|
| JsValue.GetThrowsExactlyOnNullish | sidebar.js:212-215 | reading a property throws exactly on `undefined`/`null`; on a truthy value it yields the field |
| JsValue.MapResult | sidebar.js:779-803 | a map whose callback may throw succeeds iff every element's callback succeeds, and then yields each element's result in order |
| JsValue.NatToString | sidebar.js:255 | a number's decimal text is non-empty, all digits, without a leading zero |
| JsValue.DigitsValueOfNatToString | sidebar.js:255 | the decimal text of n reads back as n |
| JsValue.NatToStringInjective | sidebar.js:255 | two numbers have the same decimal text iff they are equal |
| JsValue.ParseIntString | sidebar.js:270 | `parseInt` skips every ECMAScript white-space and line-terminator code point, reads an optional sign and an optional `0x`/`0X` that selects base 16, and gives NaN exactly when no digit of the base follows |
| JsValue.ParseIntSkipsWideSpace | content.js:580 | an ideographic space before the digits is skipped, so `parseInt("\u30002")` is 2 |
| JsValue.ParseIntReadsHex | sidebar.js:270 | `parseInt("0x1A")` is 26, and `parseInt("0x")` is NaN |
| JsValue.ParseIntReadsNegativeHex | sidebar.js:270 | the sign comes before the prefix: `parseInt("-0Xff")` is -255 |
| JsValue.ParseIntOr0OfFalsy | sidebar.js:270-277 | `parseInt(v) \|\| 0` of every falsy value is 0 |
| JsValue.ToInteger | sidebar.js:571-573 | `Number(v)` of a number is itself, of `null` and `false` is 0, of `undefined` is NaN |
| JsValue.IntegerTextOfIntToString | sidebar.js:571-573 | the text of an integer converts back to the integer |
| JsValue.FlatMapResult | background.js:370-389 | nested `forEach` loops that push results succeed iff every body succeeds |
| JsValue.FlatMapAppend | background.js:370-389 | the results over two lists in a row are the first list's results, then the second's |
| JsValue.FlatMapSplit | background.js:370-389 | the results for one element sit between those for the elements before and after it |
| JsValue.ParseIntOfIntToString | sidebar.js:270 | `parseInt` of an integer's text gives the integer back |
| JsValue.ParseIntOfNum | sidebar.js:270-275 | `parseInt(n) \|\| 0` of an integer n is n |
| JsValue.SliceBound | background.js:161 | a `slice` bound is clamped to the length, and a negative bound counts from the end |
| JsValue.Slice | background.js:161 | `slice` yields the elements between the resolved bounds, and nothing when they cross |
| JsValue.SliceInRange | sidebar.js:650 | with bounds inside the sequence, `slice` is the plain subsequence |
| JsValue.FirstIndexOf | content.js:591 | the first position of a character: none before it, the character at it |
| Sorting.SortBy | sidebar.js:1024-1050 | the sort's result is ordered by the key and is a permutation of its input |
| Sorting.SortByStable | sidebar.js:1024-1050 | elements with equal keys keep their relative order |
| Sorting.SortBySorted | sidebar.js:1024-1050 | sorting an already ordered sequence leaves it as it is |
| Sorting.SortByIdempotent | sidebar.js:1024-1050 | sorting twice by one key is sorting once |
| Pagination.PageNumbers | content.js:580 | each page-number element becomes `parseInt(text) \|\| 0`, in order |
| Pagination.MaxPositiveOr1 | content.js:580-581 | the total is the largest positive page number, or 1 when none is positive |
| Pagination.FirstNextButton | content.js:589-599 | the first button whose text contains "下一页" is found, and none before it carries the label |
| Pagination.DetectPagination | content.js:562-620 | null iff there is no pagination bar; the current page is 1 without a current element; the total is at least 1 |
| Pagination.TotalPagesIsLargestPageNumber | content.js:576-582 | the detected total is at least every positive page number shown, and is one of them or 1 |
| Pagination.HasNextPageIffFirstLabelledButtonEnabled | content.js:589-599 | there is a next page iff some button carries the label and the first such button is not disabled by class or property and not hidden |
| Pagination.ClickNextPage | content.js:623-644 | the click rejects with "no next page" iff detection finds no usable next button; it rejects otherwise only when the click throws |
| Pagination.ValidateWxData | content.js:297-310 | falsy data is invalid; an object is valid iff it has `publish_list`; `in` on another truthy primitive throws |
| Capture.Report | content.js:657-667 | a progress call is made iff `onProgress` is registered, and it reports the current page, the total and `collectedData.length` at that moment |
| Capture.RoundedSeconds | content.js:887 | `Math.round` of milliseconds over 1000 is the nearest whole second, a half rounding up |
| Capture.Complete | content.js:885-905 | completion clears `isRunning` and ends the run, changing nothing else in the state |
| Capture.Fail | content.js:724-731 | a failed start clears `isRunning`, ends the run, never reports completion and ends with the start's rejection |
| Capture.PageArticles | content.js:741-751 | a truthy `cgiData` wins: its array `publish_list` is taken, a falsy one gives no article; otherwise an array `publish_list` is taken; a payload that is not an object, or has neither list, gives no article |
| Capture.ListItems | content.js:753-754 | `push(...list)` appends an array's elements in order, and a string's characters one by one |
| Capture.Start | content.js:690-732 | a start while running rejects and clears `isRunning`; otherwise it installs the callbacks and start time, rejects without a pagination bar with nothing collected, takes page and total from the detected bar, collects exactly the first page's articles when its data is there and nothing otherwise, and leaves a timer pending whenever it stays running |
| Capture.Resume | content.js:788-882 | a resumed run only appends to the collected articles, never sets `isRunning`, keeps a timer pending while running, and changes nothing else but the page number |
| Capture.Stop | content.js:908-930 | stopping when idle replies null and changes nothing; stopping a run clears `isRunning`, calls `onComplete` when registered, and replies with the collected articles, their count, the current page and the manual flag |
| Capture.GetStatus | content.js:933-941 | the status reports the running flag, page, total, number of articles collected and start time |
| Capture.Step | content.js:690-941 | every event only appends to the trace; a status query changes nothing else; a stop leaves nothing running; a start keeps every earlier pending run; a tick for a missing run is ignored; only a start sets `isRunning` |
| Capture.Run | content.js:690-941 | any sequence of events only appends to the trace, and without a start an idle capture stays idle |
| Capture.LoopTop | content.js:789-811 | the loop's test changes nothing in the state but `isRunning`, which it only clears; it ends the run, waits for the click, or waits to retry |
| Capture.LoopError | content.js:837-859 | the "no next page" error ends the loop; any other error leaves the state as it is and waits to retry; neither changes anything but `isRunning` |
| Capture.CaptureFailed | content.js:781-784 | a failed page capture changes nothing in the state but `isRunning`, which it only clears, and a run that stays running keeps a timer pending |
| Capture.Poll | content.js:652-683 | a poll that finds the payload appends exactly the page's articles; a poll within 15 s that finds none changes nothing and polls again; a poll changes nothing else but the collected articles and `isRunning`, which it only clears |
| CaptureProps.StartWhileRunningStopsLiveRun | content.js:692-693 | a second start while running throws inside its own try, so the catch clears `isRunning` and rejects without adding a run |
| CaptureProps.StartWithoutPaginationFails | content.js:705-708 | a start on a page without a pagination bar fails and leaves nothing running |
| CaptureProps.FirstPageTimeoutIsFatal | content.js:676-678 | a load timeout on the first page ends the run with `onError` and a rejection, never `onComplete` |
| CaptureProps.LoopEndsExactlyWhen | content.js:789-795 | the loop ends iff the run is stopped or there is no usable next page, and ending calls `onComplete` without the manual flag |
| CaptureProps.NoNextPageRejectionUnreachableInLoop | content.js:791-811 | inside the loop the click can never reject with "no next page" |
| CaptureProps.PageAdvancesOnlyOnClick | content.js:811-814 | the page number moves only when a click settles, and then by one |
| CaptureProps.FailureRetriesOnceThenSkips | content.js:846-879 | a failed loop step retries the capture once, and a failed retry skips the page and returns to the loop |
| CaptureProps.CaptureAppendsAndReports | content.js:753-766 | a successful capture appends the page's articles and reports the new total and the page's count |
| CaptureProps.EndingsReportNoProgress | content.js:885-905 | completing or failing a run makes no progress report |
| CaptureProps.LoopTopReportsCurrentCount | content.js:789-811 | the loop's "navigating" report, and every report of the catch a failed click enters, gives the number of articles collected so far |
| CaptureProps.LoopErrorReportsCurrentCount | content.js:837-856 | the retry report of the loop's catch gives the number of articles collected so far |
| CaptureProps.LoopErrorExtends | content.js:837-856 | the loop's catch only adds reports after those made before it |
| CaptureProps.CaptureFailedReportsCurrentCount | content.js:861-875 | a failed capture's reports, the skip report of a failed retry included, give the number of articles collected so far |
| CaptureProps.CaptureFailedExtends | content.js:861-875 | a failed capture only adds reports after those made before it |
| CaptureProps.SwitchReportsCurrentCount | content.js:814-829 | after a settled click the "switched" report gives the new page number and the number of articles collected so far |
| CaptureProps.PollReportsCurrentCount | content.js:652-683 | a poll's "waiting" report gives the count before the capture, and every later report of the same stretch the count after it |
| CaptureProps.StopWhenIdleIsInert | content.js:908-930 | stopping when nothing runs replies null and changes nothing else |
| CaptureProps.StopWhenRunningReturnsPartial | content.js:908-927 | stopping a run clears `isRunning` and returns the collected articles flagged as a manual stop |
| CaptureProps.StopThenLoopCompletesTwice | content.js:789-795 | a stopped run that reaches the loop's test completes again, calling `onComplete` a second time |
| CaptureProps.CollectedOnlyGrows | content.js:754 | between starts the collected articles only grow |
| CaptureProps.TickConsumesItsTask | content.js:788-882 | a timer firing removes its own run's entry, replaced only when the run suspends again; every other pending run keeps its place |
| CaptureProps.StepKeepsRunningHasTask | content.js:690-941 | one event preserves the invariant that a running capture has a suspended run |
| CaptureProps.RunKeepsRunningHasTask | content.js:690-941 | any interleaving of starts, stops, status queries and timers keeps a running capture driven by a run |
| CaptureProps.StatusAfterStop | content.js:908-941 | a status query after a stop reports the capture as not running, with the page, total, count and start time unchanged |
| CaptureScenarios.ListPageFacts | content.js:741-751 | the example list page yields its one article and shows a next button as configured |
| CaptureScenarios.CaptureThenClick | content.js:753-811 | capturing a page with a next button appends its article and waits for the click |
| CaptureScenarios.CaptureThenComplete | content.js:789-795 | capturing the last page appends its article and completes the run |
| CaptureScenarios.StartOnFirstPage | content.js:697-716 | a start on page 1 with its data present captures the first article |
| CaptureScenarios.ThreePagesCapturedInOrder | content.js:690-905 | three pages are captured once each, in order, and the run completes on page 3 with the elapsed seconds |
| Normalize.DecodeEntities | sidebar.js:341-347 | a non-string is returned as it is; a string decodes to a string |
| Normalize.ContentType | sidebar.js:350-358 | exactly the four codes 9, 10002, 10 and 63 are named; any other code is "其他 (…)" |
| Normalize.ContentTypeNamesDistinct | sidebar.js:350-358 | the four named codes map to four different names |
| Normalize.RatioOf | sidebar.js:322-327 | a ratio is 0 iff there are no reads |
| Normalize.Percent | sidebar.js:324-326 | a ratio is the count's share of reads times 100 |
| Normalize.FirstNonZero | sidebar.js:271 | the first `parseInt(...) \|\| ...` operand that is not 0 is taken |
| Normalize.MakeRecord | sidebar.js:254-320 | building a record throws iff the article entry is nullish; the record keeps the raw entry and item |
| Normalize.RecordIdentity | sidebar.js:255-256 | the id is `msgid \|\| index`, an underscore and the article's position |
| Normalize.RecordBatchFields | sidebar.js:244-288 | two articles of one batch, at any positions and with any token, get the same type, push, status and failure-reason fields; the reason is `msg_fail_reason` first, then `refuse_reason`, and '' when neither is set |
| Normalize.RecordTimePrecedence | sidebar.js:262-267 | the article's own send time wins over the item's for every time field |
| Normalize.RecordCounters | sidebar.js:270-301 | a numeric counter field is taken as it is and a falsy one counts 0; a non-zero `old_like_num` wins over `like_num`; `appmsgid` wins over `id`; the position is `itemidx` or 1, never 0 |
| Normalize.RecordRatios | sidebar.js:322-327 | the three ratios are 0 without reads and otherwise the exact shares |
| Normalize.UntilFirstError | sidebar.js:228-335 | an item keeps the records built before its first throw, in order, and fails iff some entry throws |
| Normalize.ArticleResults | sidebar.js:252 | one build result per article entry, in order, at its position |
| Normalize.DecodeItem | sidebar.js:231-241 | the item is used as it is unless `publish_info` is a string; reading a nullish item throws |
| Normalize.BatchOf | sidebar.js:244-247 | missing push and status objects default to `{}`; a nullish item throws |
| Normalize.ProcessItem | sidebar.js:228-235 | a nullish item contributes nothing and is caught |
| Normalize.SelectPublishList | sidebar.js:209-224 | the list source throws iff the payload is nullish; an own `publish_list` array wins, then a truthy `cgiData.publish_list`; a string payload uses its parsed `publish_list` or `[]`, and a string that does not parse, or parses to null, returns `[]`; any other payload has an empty list |
| Normalize.ProcessWeixinData | sidebar.js:207-338 | the whole call throws iff the payload is nullish or the chosen list is not an array; otherwise it returns the records of the chosen list's items, taken from position 0 on |
| Normalize.ConcatMapFromSplit | sidebar.js:228-335 | in a forEach that pushes each element's output, element k's output sits between the output for the elements before it and the output for those after it |
| Normalize.ItemsFromSplit | sidebar.js:228-335 | publish item k's records sit between the records of the items before it and those after it, each item processed at its own index |
| Normalize.NullishItemSkipped | sidebar.js:228-334 | an `undefined`/`null` publish item throws inside its own try and adds no record; the items around it keep theirs |
| Normalize.OwnListProcessedInOrder | sidebar.js:212-213 | a payload whose own `publish_list` is an array never throws, and its records follow the item order |
| Normalize.OneRecordPerArticle | sidebar.js:252-330 | an item that does not throw yields one record per article entry, in order |
| Normalize.FailedItemKeepsEarlierRecords | sidebar.js:328-334 | an item that throws part-way keeps exactly the earlier entries' records |
| Normalize.BatchFieldsShared | sidebar.js:244-247 | all records of one item agree on the batch fields |
| Normalize.NoUnderscoreInDigits | sidebar.js:255 | a decimal number has no underscore |
| Normalize.IdsDistinctWithinItem | sidebar.js:255 | within one item the ids differ |
| Normalize.IdDeterminesKeyAndPosition | sidebar.js:255 | when no key contains '_', an id determines its key and position |
| Normalize.IdsCanCollideAcrossItems | sidebar.js:255 | the item at index 3 without msgid and an item with msgid 3 both get id "3_0" |
| Merge.FindIndex | sidebar.js:408 | `findIndex` finds the first record with the id, and finds none iff no record has it |
| Merge.UpsertFacts | sidebar.js:407-414 | an upsert replaces the record with the same id or appends, keeps the other ids, and keeps ids unique; a known id is replaced in place, at its first record's index, and every record with another id keeps its position |
| Merge.UpsertPositions | sidebar.js:408-413 | every record with another id keeps its position, and a known id is replaced at its first record's index and nowhere else |
| Merge.UpsertIdempotent | sidebar.js:407-414 | upserting the same record twice is upserting it once |
| Merge.UpsertAllFacts | sidebar.js:407-414 | after all upserts the ids are the union, the latest capture of each id is stored, and other stored records stay |
| Merge.MergeRecords | sidebar.js:402-416 | the merged list is newest capture first and holds the upserted records |
| Merge.MergeKeepsUpsertOrderAmongEqualTimes | sidebar.js:402-416 | records with the same capture time keep the order the upserts left them in |
| Merge.MergeIsUpsert | sidebar.js:402-416 | the merge's ids are stored plus captured; the latest capture wins; nothing else appears; unique ids stay unique |
| Merge.MergeTwiceSameIds | sidebar.js:402-416 | merging the same batch twice stores the same ids as merging it once |
| Top10.ByTime | sidebar.js:570-574 | the sort is newest timestamp first, by the timestamp's numeric value, and is a permutation |
| Top10.TimeKeyOfTimestamp | sidebar.js:571-573 | a timestamp held as a number or as its text sorts by its value; a falsy one sorts as 0 |
| Top10.Recent | sidebar.js:576 | at most ten records, the newest ones |
| Top10.RecentAreNewest | sidebar.js:570-576 | every record left out is no newer than every record kept |
| Top10.ByReads | sidebar.js:594 | the sort orders by read count and is a permutation |
| Top10.Trimmed | sidebar.js:597 | dropping the ends leaves all but two |
| Top10.TrimmedDropsExtremes | sidebar.js:594-597 | the two records dropped are a lowest and a highest read count, and the rest is all the others |
| Top10.RoundedMean | sidebar.js:602 | `Math.round(sum / n)` is the integer within half of the mean |
| Top10.RoundedMeanUnique | sidebar.js:602 | that integer is the only one within half of the mean |
| Top10.StatsOver | sidebar.js:599-609 | averages of reads and likes are rounded means and ratio averages are exact means; empty gives zeros |
| Top10.Top10Stats | sidebar.js:568-612 | fewer than three records average all of them; otherwise the highest and lowest of the recent ten are dropped |
| Top10.SumPermutation | sidebar.js:602 | a sum does not depend on the order of the records |
| Top10.TrimmedReadSum | sidebar.js:597-602 | the trimmed read total is the recent total minus the lowest and highest read counts |
| Table.SortRows | sidebar.js:1023-1051 | a column sort is a permutation in ascending or descending key order |
| Table.SortRowsStable | sidebar.js:1043-1049 | rows with equal keys keep their on-screen order |
| Table.Load | sidebar.js:436-445 | loading shows the stored order, unsorted, on page 1 |
| Table.ColumnKey | sidebar.js:1024-1040 | the timestamp column compares the timestamp or 0, the total push its number or 0, a count as it is, and a ratio column its percentage, 0 for a zero ratio |
| Table.NextDirection | sidebar.js:992-1000 | a click on a new column sorts ascending, on the ascending column descending, on the descending column unsorts |
| Table.HandleSort | sidebar.js:987-1020 | a header click goes to page 1, cycles ascending, descending and none, and restores the stored order on none |
| Table.SortCycle | sidebar.js:992-1011 | three clicks on a new header go ascending, descending, then back to the stored order |
| Table.AscendingThenDescendingSameRows | sidebar.js:992-1008 | two clicks on a new header show the same rows, largest first |
| Table.TotalPages | sidebar.js:697 | the page count is the ceiling of rows over 20, and 0 iff there are no rows |
| Table.ChangePage | sidebar.js:710-716 | only a page from 1 to the page count is taken; nothing else changes |
| Table.PageRows | sidebar.js:648-650 | a page shows the rows from `(p-1)*20` on, at most 20 of them |
| Table.PagesPartitionRows | sidebar.js:647-650 | pages 1 to the page count show every row exactly once, in order |
| Table.Pager | sidebar.js:696-707 | the pager is shown iff there are more than 20 rows; previous is disabled iff on page 1; next is disabled iff the page reaches the last row |
| Detail.AppmsgidParam | sidebar.js:875-879 | a zero `appmsgid` falls back to the first truthy of `msgid`, the raw entry's `appmsgid` and `id`, else 0; the id is never falsy but 0 |
| Detail.PublishDateParam | sidebar.js:882-891 | a falsy `publishDate` falls back to the formatted timestamp, the item's `view.publishDate`, then the formatted send time, the first truthy one winning; with none it stays |
| Detail.ItemIdxParam | sidebar.js:873 | the position defaults to 1 and is never 0 |
| Detail.MissingAfterFallbacks | sidebar.js:898-901 | each parameter is listed iff it is still falsy after the fallbacks |
| Detail.DetailUrl | sidebar.js:866-921 | no link iff a parameter is missing after the fallbacks; otherwise the link is the detail page, `msgid=<appmsgid>_<itemidx>`, `&publish_date=` and the date, then `&type=int&token=`, the token and `&lang=zh_CN` at its end |
| Detail.RecordLinkUsesItsIds | sidebar.js:870-913 | a record with a numeric article id, a publish date and a token gets a link carrying that id |
| Detail.ReportedMissing | sidebar.js:842-845 | the message lists each of the record's own fields that is falsy |
| Detail.WithPageToken | sidebar.js:827-836 | a record without a token takes the page's token; nothing else changes |
| Detail.ViewDetail | sidebar.js:820-863 | a tab opens iff the link can be built, at that link |
| Detail.MissingIsReported | sidebar.js:841-847 | when no link is built, the message names at least one parameter, including every one still missing |
| Csv.EncodeText | background.js:404-405 | a value with a comma or quote is quoted with doubled quotes; any other is written as it is |
| Csv.ParseFields | background.js:404-409 | reading a line splits unquoted fields at commas and undoubles quoted ones |
| Csv.ReadQuotedOfDoubled | sidebar.js:780 | a doubled-quote field reads back as its text, whatever follows |
| Csv.QuotedFieldRoundTrip | sidebar.js:780 | a quoted field reads back as its text |
| Csv.PlainFieldRoundTrip | sidebar.js:805 | a field without a comma or quote reads back as it is |
| Csv.CellsRoundTrip | sidebar.js:805 | a line of readable cells reads back as their texts |
| Csv.PlainLineRoundTrip | sidebar.js:805 | a line of plain fields reads back as those fields |
| Csv.LineRoundTrip | background.js:400-410 | a line of encoded values reads back as the values |
| Csv.LineBreakIsNotQuoted | background.js:404 | a text holding a line break is quoted iff it also holds a comma or quote, and the line break stays in the output |
| Csv.DoubleQuotesKeeps | background.js:405 | doubling quotes keeps every other character |
| Csv.SplitJoin | background.js:412 | lines without line breaks joined by line breaks split back into those lines |
| Csv.LineBreakSplits | background.js:412 | a text holding a line break reads as two lines or more |
| Export.StatusText | sidebar.js:795 | "已删除" iff deleted; "异常" iff not deleted with a failure reason; otherwise "正常" |
| Export.QuotedJs | sidebar.js:780 | quoting succeeds iff the value is a string |
| Export.RowCells | sidebar.js:779-803 | a row has 23 cells iff title and failure reason are strings; those two are quoted, the others are not |
| Export.RowLines | sidebar.js:779-805 | the export's lines are one per record in order, and fail iff some record's title or reason is not a string |
| Export.ExportCsv | sidebar.js:771-809 | the export throws iff some title or reason is not a string; otherwise it is the byte order mark, then the header line and each record's line, joined by line breaks |
| Export.OneLinePerRecord | sidebar.js:805-808 | without line breaks in the cells, the text after the byte order mark splits into the header line and exactly one line per record, in order |
| Export.HeaderRoundTrip | sidebar.js:772-777 | the header line reads back as the 23 names |
| Export.RowRoundTrip | sidebar.js:779-805 | title, failure reason and status read back from a record's line |
| Export.NumberCellsArePlain | sidebar.js:783-786 | a number's text never needs quoting |
| Snapshots.ReadIndex | background.js:150-151 | a missing or falsy index reads as empty and a stored list as itself; the read fails iff the index is truthy and not a list |
| Snapshots.SortedIndex | background.js:154-159 | sorting by save time is newest first and a permutation |
| Snapshots.OtherSortKeepsOrder | background.js:158 | any other sort key leaves the index as it is |
| Snapshots.ItemsOf | background.js:167-174 | the page keeps exactly the entries whose data is stored, each with its snapshot's `data` and `metadata` |
| Snapshots.ItemsOfAppend | background.js:167-174 | filtering two windows in a row is filtering the window covering both, so items keep window order |
| Snapshots.ItemsOfAllPresent | background.js:167-174 | when every snapshot is stored there is one item per window position, duplicates included |
| Snapshots.ItemsOfNonePresent | background.js:174 | a window whose snapshots are all gone gives no items |
| Snapshots.GetStoredData | background.js:145-186 | the page holds the window from offset of length limit; total is the index size; hasMore iff offset plus limit is below it |
| Snapshots.PagesFollowEachOther | background.js:161 | consecutive windows of the index follow each other without gap or overlap |
| Snapshots.NewEntry | background.js:195-201 | a new entry keeps id, save time and size; url defaults to "" and type to "unknown" |
| Snapshots.UpdateDataIndex | background.js:189-210 | the index gains exactly the new entry at its end; no other key changes |
| Snapshots.MaxStorageItems | background.js:320-327 | without stored settings the limit is 100; truthy stored settings give their `maxStorageItems`, falsy ones the default 100; a non-value entry has no such field |
| Snapshots.MaxItems | background.js:216-219 | a falsy or missing limit is 100, a non-zero number is used as it is, and `true` is 1 |
| Snapshots.MaxItemsOfText | background.js:216-219 | a limit stored as a number's text counts as that number in the comparison |
| Snapshots.DefaultMaxItemsIs100 | background.js:320-327 | without stored settings the limit is 100 |
| Snapshots.CleanupOldData | background.js:213-240 | nothing changes when the index is within the limit or unreadable |
| Snapshots.CleanupKeepsNewest | background.js:221-231 | cleanup splits the index into deleted and kept parts; the kept part is the newest and has the limit's size |
| Snapshots.CleanupStorage | background.js:224-232 | after cleanup the index is the kept part, deleted ids are gone, and other keys are untouched |
| Snapshots.ClearKeys | background.js:306-307 | the keys removed are every entry's id and then the index key |
| Snapshots.ClearStoredData | background.js:300-317 | clearing removes the index and every indexed id and keeps every other key |
| Snapshots.ClearIdempotent | background.js:300-317 | clearing twice is clearing once |
| BackgroundCsv.ArticleOf | background.js:375-384 | an entry builds an article iff it is not nullish; each of title, the four counts and the link is copied when truthy, otherwise '' or 0; the publish time is the publish's `view.publishDate` and the extract time the item's `saveTime` when truthy, otherwise '' |
| BackgroundCsv.FromEntries | background.js:374-385 | one article per entry, in order, unless some entry is nullish |
| BackgroundCsv.ForEachList | background.js:371-373 | `forEach` runs over an array and skips a falsy list; a truthy non-array throws |
| BackgroundCsv.PublishArticles | background.js:372-386 | a publish gives one article per `appmsg_info` entry, none when the list is falsy, and throws iff the publish or an entry is nullish or the list is not an array |
| BackgroundCsv.FromPublishes | background.js:371-387 | the publishes' articles succeed iff every publish's do |
| BackgroundCsv.ItemArticles | background.js:370-388 | a snapshot throws iff it is nullish, its publish list is truthy and not an array, or a publish throws; with a falsy `data.publish_list` it gives no article |
| BackgroundCsv.FromItems | background.js:370-389 | the snapshots' articles succeed iff every snapshot's do |
| BackgroundCsv.PublishesInOrder | background.js:371-387 | a publish's articles come after those of the publishes before it and before those after it |
| BackgroundCsv.ItemsInOrder | background.js:370-389 | a snapshot's articles come after those of the snapshots before it and before those after it |
| BackgroundCsv.ItemsAppend | background.js:370-389 | two lists of snapshots in a row give their articles in a row |
| BackgroundCsv.CellOf | background.js:401-408 | a string cell is quoted exactly when it holds a comma or quote; others are written as `join` writes them |
| BackgroundCsv.ConvertToCsv | background.js:363-413 | a non-array, an empty array or no articles give ""; otherwise the header line and one line per article |
| BackgroundCsv.OneLinePerArticle | background.js:391-412 | without line breaks in values the output is the header line and one line per article |
| BackgroundCsv.HeaderRoundTrip | background.js:396-397 | the header line reads back as the eight field names |
| BackgroundCsv.LineRoundTrip | background.js:400-409 | an article's line reads back as its values' texts |
| BackgroundCsv.LineBreakInTitleSplitsTheRow | background.js:404-407 | a title with a line break but no comma or quote is unquoted, so its line reads as two or more lines |

## Left out

- Browser I/O is left out. This covers the DOM, `chrome.storage`, messaging, tabs, badges, the feedback modal and logging. Storage is a map passed in and returned. Messages and callbacks are events in a trace.
- Dates are left out. `new Date(...)`, `toISOString`, `formatTimestamp` and `formatDateForUrl` are host functions given as parameters. An invalid date (NaN) is not modelled.
- HTML entity decoding, `JSON.parse` and `parseFloat` are host functions. So are `toFixed(2)` and the display of `rewardMoney`.
- Floating-point numbers are left out. `Js.Num` holds integers, and ratios are exact rationals.
- Normalize.RecordRatios: states the exact share. The source rounds it to two decimals as text with `toFixed(2)`, which is not modelled.
- Table.SortRows: only the numeric and ratio columns are modelled. Sorting on the title, type or time text columns compares strings and is not modelled.
- JsValue.ToInteger: `Number(v)` is modelled only where it gives an integer. Fractions, exponents, `Infinity`, `0o`/`0b` literals and objects or arrays converted through their text give None, which the callers treat like NaN.
- Top10.ByTime: a timestamp whose `Number(...)` is NaN or not an integer (any other text, an object) sorts as 0. In the source a NaN difference makes the comparator inconsistent, and the order is then up to the engine.
- Table.ColumnKey: a push count that is not a number compares as 0, and a timestamp compares by its numeric value. The source compares two texts with `<` as strings, which is not modelled. A ratio column sorts on the exact share; the source sorts on the two-decimal text, so two ratios that round to the same text keep their on-screen order there but may be reordered here.
- Snapshots.MaxItems: a `maxStorageItems` whose `Number(...)` is NaN or not an integer, such as an object or a fractional text, is treated as NaN, so nothing is cleaned. The source compares a fractional limit as a number.
- Snapshots.ReadIndex: an array stored under `dataIndex` is always read as a list of index entries. An array whose elements are not entry objects is not modelled.
- Merge.MergeRecords: capture times parse through a host function, so no ordering among different texts is promised beyond what that function gives.
- Detail.ViewDetail: the record is read back from the button's JSON copy. That round trip is taken to be the identity. A failed token request counts as no token.
- Capture: the page's payload is an oracle read at each timer tick. A click failure other than "no next page" is an oracle flag.
- Capture: `checkWxData` and `captureCurrentPageData` are not modelled. They scrape page scripts and globals.
- Capture.ListItems: a list that is an object with a truthy `length` passes the source's `articles.length > 0` test, and spreading it then throws; the model gives no article instead. A string's length counts code points here and UTF-16 code units in the source, so a string with characters outside the Basic Multilingual Plane spreads differently.
- Capture: the DOM extraction fallbacks (`extractDataFromDOM`, `captureDataPageInfo`, `getTokenFromPage`) are not modelled.
- `calculateMonthlyStats`, `saveExtractedData`, `handleDataExtracted` and `exportData` in the background are not modelled. The first only counts records of the current month. The others are storage plumbing around the modelled index operations.
- The extension's install, click and message-routing handlers are left out. Their only logic is dispatch.
