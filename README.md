# Document extractor: a Dafny model of its rules

The extractor is a browser tool that turns PDFs, images and Word documents
into Markdown. It renders PDF pages to images, sends each page to an
OpenAI-compatible vision model through its own API route, and shows the
Markdown as it streams in. Word documents are converted on the server
instead.

This project models the small rules underneath that tool and proves what
they promise:

- **The client-side sliding-window rate limiter** (`RateLimiting`). It
  keeps a record list that is appended to and pruned, and computes a wait
  over three quotas.
- **The page-range parser** (`PageRange`) and **the page selector**
  (`PageSelection`). JavaScript `Set`s are modelled as insertion-ordered
  sequences (`JsSet`).
- **The extraction hook** (`Extraction` for its pure parts and
  `ExtractionHook` for its state). This covers:
  - the classification of a page's response, including the usage and
    stream-error markers at the end of a stream (`Sentinels`);
  - the page-by-page loop with its limiter and interruptions;
  - stop, retry, DOCX upload and reset.
- **The model-configuration store of the settings context** (`ConfigStore`)
  and **the settings dialog's form** (`SettingsDialog`).
- **The server side:**
  - the bearer-token check (`Auth`);
  - the environment getters (`Env`);
  - the validation chain of the extract route (`ExtractRoute`);
  - the upload checks and the table rule of the DOCX route (`ConvertDocx`).
- **The UI decisions:**
  - fence stripping, download names and the retry button in a page's
    panel (`ResultPanel`);
  - the combined export texts (`ExtractorPage`);
  - the upload classifier (`FileUpload`).

Time is an explicit parameter (`now`, or a clock reading per event). A
network response is an abstract outcome (`FetchOutcome`, `DocxReply`,
`ImageRead`, `PdfRender`). The asynchronous extraction loop runs to
completion in one call, driven by a script of one `PageEvent` per page. An
abort during a pass ends the call with an `Interrupted…` result. The handler
that aborted (`Stop` or `Reset`) is then applied as a separate call.

Regular expressions are given deterministic definitions. Each pattern here
is anchored, and each definition takes the same match the backtracking
search would:

- the page-range segment patterns;
- the usage and stream-error sentinels;
- the extension stripper;
- the fence stripper.

The comments on each definition give the argument.

## Model

| member | source | states |
|---|---|---|
| RateLimiting.MaxAge | src/features/extractor/services/rate-limiter.ts:103-104 | the pruning age is at least a minute and at least the request window, a missing window counting as 0 |
| RateLimiting.RateLimiter.constructor | src/features/extractor/services/rate-limiter.ts:14-19 | a new limiter keeps its configuration and has no records |
| RateLimiting.RateLimiter.RecordRequest | src/features/extractor/services/rate-limiter.ts:22-31 | exactly one record stamped `now` is appended, with 0 for missing token counts, then the list is pruned; the new record always survives, and the list stays sorted and not in the future under a non-decreasing clock |
| RateLimiting.RateLimiter.GetWaitTimeMs | src/features/extractor/services/rate-limiter.ts:38-98 | prunes first, then returns the wait over the three quotas for the pruned records; sortedness, and no record lying after the clock, are kept |
| RateLimiting.RateLimiter.WaitOver | src/features/extractor/services/rate-limiter.ts:41-97 | the three quota checks of one call give exactly the wait WaitTime defines over the records, without changing them |
| RateLimiting.RateLimiter.Cleanup | src/features/extractor/services/rate-limiter.ts:101-106 | the records become the pruned list; sortedness, and no record lying after the clock, are kept |
| RateLimiting.PruneKeeps | src/features/extractor/services/rate-limiter.ts:105 | pruning keeps exactly the records with `now - timestamp <= maxAge`, in order, keeping sortedness |
| RateLimiting.PruneAppendFresh | src/features/extractor/services/rate-limiter.ts:26-31 | a record stamped `now` survives pruning, so recording appends it after the pruned list |
| RateLimiting.RecordKeepsOrder | src/features/extractor/services/rate-limiter.ts:26-31 | with a non-decreasing clock, recording keeps the list sorted by timestamp and not in the future |
| RateLimiting.NewerKeeps | src/features/extractor/services/rate-limiter.ts:49-51 | the window filter keeps exactly the records with `timestamp > start` (strict), keeping order |
| RateLimiting.FindIsFirstNewer | src/features/extractor/services/rate-limiter.ts:69-71 | `find` over the window returns the first element the filter keeps |
| RateLimiting.FirstNewerIsOldest | src/features/extractor/services/rate-limiter.ts:53 | in a sorted list, the first record of a window is its oldest |
| RateLimiting.RequestWaitSpec | src/features/extractor/services/rate-limiter.ts:43-59 | the request quota fires iff `maxRequests > 0`, the window is positive and at least `maxRequests` records are newer than the window start; its wait lies in `(0, windowMs]` and is no more than any windowed record asks |
| RateLimiting.InputWaitSpec | src/features/extractor/services/rate-limiter.ts:61-77 | the prompt-token quota fires iff it is positive and the minute's prompt sum reaches it; the wait lasts until the minute's oldest record turns 60 s old, whatever its own token count, and lies in `(0, 60000]` |
| RateLimiting.OutputWaitSpec | src/features/extractor/services/rate-limiter.ts:79-95 | the same for completion tokens |
| RateLimiting.WaitTimeIsMax | src/features/extractor/services/rate-limiter.ts:41-97 | the answer is never negative, covers every quota that fired, and is 0 or one of their waits |
| RateLimiting.DisabledNeverWaits | src/features/extractor/services/rate-limiter.ts:44-81 | a configuration with no positive quota never makes a request wait |
| RateLimiting.AgedOutNeverWaits | src/features/extractor/services/rate-limiter.ts:41-97 | once every record has left the window of each quota that is set, the wait is 0 |
| JsSet.EmptyElems | src/features/extractor/components/page-range-selector.tsx:50 | an ordered set is empty iff it has no members |
| JsSet.Add | src/features/extractor/components/page-range-selector.tsx:27 | `add` puts in the element, keeps the others and keeps members distinct |
| JsSet.Delete | src/features/extractor/components/page-range-selector.tsx:25 | `delete` removes exactly the element and keeps members distinct |
| JsSet.SortedMembers | src/features/extractor/utils/parse-page-range.ts:46 | spreading and sorting numerically gives the members in strictly increasing order |
| JsSet.InsertSorted | src/features/extractor/utils/parse-page-range.ts:46 | inserting into an ascending list keeps it strictly increasing and adds exactly the element |
| PageRange.DigitPrefix | src/features/extractor/utils/parse-page-range.ts:19 | `\d+` takes the longest run of leading digits |
| PageRange.Clamp | src/features/extractor/utils/parse-page-range.ts:25-26 | at least 1, at most `maxPage` when that is positive, the number itself when it is in range, and otherwise one of the bounds |
| PageRange.MatchRange | src/features/extractor/utils/parse-page-range.ts:19 | no contract of its own: the `^(\d+)\s*-\s*(\d+)$` match; MatchRangeText and ParseRangeText state what it accepts |
| PageRange.MatchSingle | src/features/extractor/utils/parse-page-range.ts:36 | no contract of its own: the `^(\d+)$` match; ParseSingleText states what it accepts |
| PageRange.ParseSegment | src/features/extractor/utils/parse-page-range.ts:16-43 | no contract of its own: trim, then range, then single page, else skip; ParseRangeText, ParseSingleText and BlankNamesNothing state its cases |
| PageRange.Contribution | src/features/extractor/utils/parse-page-range.ts:19-41 | no contract of its own: the indices one segment adds; RangeContribution and SingleContribution state them |
| PageRange.PageSet | src/features/extractor/utils/parse-page-range.ts:10-44 | no contract of its own: the set of indices the input names; PageSetUnion, PageSetBounds and ParsePageRange state its properties |
| PageRange.Interval | src/features/extractor/utils/parse-page-range.ts:30-32 | the indices from `lo` up to, but not including, `hi` |
| PageRange.ParsePageRange | src/features/extractor/utils/parse-page-range.ts:9-47 | the output is strictly increasing, so sorted and free of duplicates, and its members are exactly the pages the input names |
| PageRange.AddSegment | src/features/extractor/utils/parse-page-range.ts:15-43 | one pass of the segment loop adds exactly that segment's contribution |
| PageRange.AddInterval | src/features/extractor/utils/parse-page-range.ts:30-32 | the inner loop adds exactly the indices `lo - 1 .. hi - 1` |
| PageRange.UnionStep | src/features/extractor/utils/parse-page-range.ts:15-44 | each segment adds its contribution to the union of the segments before it |
| PageRange.PageSetBounds | src/features/extractor/utils/parse-page-range.ts:10-41 | every index named lies in `[0, maxPage)`, and none when `maxPage <= 0` |
| PageRange.RangeContribution | src/features/extractor/utils/parse-page-range.ts:19-32 | a range adds every index between its clamped ends, in either direction, and reversing a range changes nothing |
| PageRange.SingleContribution | src/features/extractor/utils/parse-page-range.ts:36-41 | a single page is kept iff it lies in `[1, maxPage]`; beyond that it is dropped, not clamped |
| PageRange.BlankNamesNothing | src/features/extractor/utils/parse-page-range.ts:10-17 | text that trims to nothing names no page |
| PageRange.PageSetUnion | src/features/extractor/utils/parse-page-range.ts:12-46 | the pages of "a,b" are those of "a" together with those of "b", so a bad segment does not affect the others |
| PageRange.PageSetOneSegment | src/features/extractor/utils/parse-page-range.ts:13-44 | an input without commas names what its one segment does |
| PageRange.ParseSingleText | src/features/extractor/utils/parse-page-range.ts:16-38 | a digit run padded with whitespace is read as that page |
| PageRange.MatchRangeText | src/features/extractor/utils/parse-page-range.ts:19-22 | two digit runs around a hyphen, with any whitespace between, match the range pattern with their values |
| PageRange.ParseRangeText | src/features/extractor/utils/parse-page-range.ts:16-22 | whitespace around a segment and around its hyphen is ignored |
| PageSelection.AllPages | src/features/extractor/components/page-range-selector.tsx:16-34 | every page index once, in order |
| PageSelection.PageRangeSelector.constructor | src/features/extractor/components/page-range-selector.tsx:15-19 | every page starts out selected, with an empty range field |
| PageSelection.PageRangeSelector.TogglePage | src/features/extractor/components/page-range-selector.tsx:21-31 | flips whether the index is selected and nothing else |
| PageSelection.PageRangeSelector.SelectAll | src/features/extractor/components/page-range-selector.tsx:33-35 | selects exactly all pages |
| PageSelection.PageRangeSelector.DeselectAll | src/features/extractor/components/page-range-selector.tsx:37-39 | selects nothing |
| PageSelection.PageRangeSelector.SetRangeInput | src/features/extractor/components/page-range-selector.tsx:69 | typing changes only the range field |
| PageSelection.PageRangeSelector.ApplyRange | src/features/extractor/components/page-range-selector.tsx:41-46 | the pages the field names replace the selection, unless it names none, in which case nothing changes |
| PageSelection.PageRangeSelector.HandleStart | src/features/extractor/components/page-range-selector.tsx:48-53 | emits the selection in strictly increasing order iff it is non-empty |
| PageSelection.StrictlyIncreasingDistinct | src/features/extractor/components/page-range-selector.tsx:44 | a strictly increasing list has no repeated page, so making a set of it loses nothing |
| Sentinels.DropSuffix | src/features/extractor/hooks/use-extraction.ts:100 | a text ending with a suffix is split into the part before it and the suffix |
| Sentinels.SplitDigits | src/features/extractor/hooks/use-extraction.ts:96 | cuts a text before the longest digit run that ends it |
| Sentinels.MatchUsageShape | src/features/extractor/hooks/use-extraction.ts:95-97 | a match has two non-empty digit groups, and the text without trailing whitespace is the part before the match followed by the sentinel |
| Sentinels.MatchUsage | src/features/extractor/hooks/use-extraction.ts:95-97 | no contract of its own: the usage pattern's match; MatchUsageShape states its shape |
| Sentinels.ParseUsageSentinel | src/features/extractor/hooks/use-extraction.ts:91-106 | without a match the text is returned as it is with no usage; with one, the text before the sentinel's line break and the two numbers |
| Sentinels.UsageRoundTrip | src/features/extractor/hooks/use-extraction.ts:91-106 | any text followed by a usage sentinel and whitespace parses back to that text and those numbers, leading zeros included |
| Sentinels.UsageSentinelRoundTrip | src/features/extractor/hooks/use-extraction.ts:91-106 | the sentinel for `p` and `c` is read back as exactly `p` and `c` |
| Sentinels.StreamErrorShape | src/features/extractor/hooks/use-extraction.ts:205-207 | a match's message is non-empty, holds no line break, and the text ends with the sentinel carrying it, up to trailing whitespace |
| Sentinels.StreamErrorMessage | src/features/extractor/hooks/use-extraction.ts:205-207 | no contract of its own: the stream-error pattern's message; StreamErrorShape states its shape |
| Sentinels.FirstErrorFrom | src/features/extractor/hooks/use-extraction.ts:205-207 | the leftmost opening whose rest is a non-empty single line gives the message, and the text ends with that opening and message |
| Sentinels.StreamErrorRoundTrip | src/features/extractor/hooks/use-extraction.ts:205-207 | a text that is empty or ends a line, followed by a stream-error sentinel, yields exactly that message |
| Sentinels.UnclosedHasNoUsage | src/features/extractor/hooks/use-extraction.ts:95-99 | a text that does not end in `-->`, up to trailing whitespace, has no usage match and is returned unchanged |
| Sentinels.UsageIsNoStreamError | src/features/extractor/hooks/use-extraction.ts:205-220 | a page that ends in a usage sentinel is never mistaken for a stream error |
| Extraction.LastDot | src/features/extractor/hooks/use-extraction.ts:36 | the position of the last dot, or none when there is no dot |
| Extraction.StripExtension | src/features/extractor/hooks/use-extraction.ts:35-37 | the result is a prefix of the name; when it differs, the name continues with a dot, then at least one character and no further dot |
| Extraction.StripExtensionOf | src/features/extractor/hooks/use-extraction.ts:35-37 | a name with an extension loses exactly the extension |
| Extraction.StripExtensionKeeps | src/features/extractor/hooks/use-extraction.ts:35-37 | a name with no dot, or one ending in a dot, is kept whole |
| Extraction.ResolveRateLimitSpec | src/features/extractor/hooks/use-extraction.ts:77-88 | the limit chosen is always enabled; the active configuration's wins; there is none exactly when neither side enables one |
| Extraction.ZeroModelLimitFallsBack | src/features/extractor/hooks/use-extraction.ts:77-88 | a configuration whose quotas are 0, with or without a window, falls back to the server's limit |
| Extraction.ExtractSinglePage | src/features/extractor/hooks/use-extraction.ts:146-243 | an abort is rethrown and nothing else is; every returned result keeps its index and page number; it is a success only for a stream read to the end, and an error otherwise, with a message starting with the page's prefix |
| Extraction.StreamedPageSucceeds | src/features/extractor/hooks/use-extraction.ts:218-228 | a page streamed to the end with its usage sentinel succeeds with the text before the sentinel and that usage |
| Extraction.BrokenStreamFails | src/features/extractor/hooks/use-extraction.ts:205-216 | a stream-error sentinel at the end makes the page an error with empty Markdown and the message; it is checked before the usage sentinel |
| Extraction.PlainStreamSucceeds | src/features/extractor/hooks/use-extraction.ts:218-228 | a stream with no sentinel is a success carrying the stream unchanged |
| Extraction.RejectedPageReportsDetail | src/features/extractor/hooks/use-extraction.ts:171-187 | a non-OK response is an error carrying the JSON `error` when non-empty, else the raw body |
| Extraction.InitialResults | src/features/extractor/hooks/use-extraction.ts:261-273 | one pending entry per selected index, in order, with `imageIndex = idx` and `pageNumber = idx + 1` |
| Extraction.ImageAt | src/features/extractor/hooks/use-extraction.ts:311-312 | an image is present iff its index is in range and the string is non-empty |
| Extraction.SlotAfter | src/features/extractor/hooks/use-extraction.ts:301-333 | after a pass its slot is left extracting iff the image was missing or the request was aborted, and it is never pending or skipped |
| Extraction.ProgressSteps | src/features/extractor/hooks/use-extraction.ts:261-333 | before the first pass every page is pending; pass `k` changes only slot `k` |
| Extraction.RecordsCountSettled | src/features/extractor/hooks/use-extraction.ts:321-327 | the limiter receives one record per pass that ended in success or error, failures included |
| Extraction.Records | src/features/extractor/hooks/use-extraction.ts:321-327 | no contract of its own: the limiter records of the first passes; RecordsCountSettled counts them |
| Extraction.StopSettles | src/features/extractor/hooks/use-extraction.ts:345-362 | after a stop nothing is pending or extracting; success, error and skipped entries are unchanged; the others differ only in their status; the settled count is kept |
| Extraction.StopResults | src/features/extractor/hooks/use-extraction.ts:345-362 | keeps the number of results; StopSettles states each entry |
| Extraction.StopKeepsCount | src/features/extractor/hooks/use-extraction.ts:345-362 | stopping changes neither which pages count as settled nor how many |
| Extraction.TotalPages | src/features/extractor/hooks/use-extraction.ts:546-550 | the largest of the image count, the result count and, while extracting, the current page number |
| Extraction.DocxResult | src/features/extractor/hooks/use-extraction.ts:469-528 | exactly one entry for page 1, a success iff the reply is `success` with data, otherwise an error whose message starts with the conversion-failure prefix |
| ExtractionHook.Responses | src/features/extractor/hooks/use-extraction.ts:316-319 | the response of every pass, in order |
| ExtractionHook.RecordClocks | src/features/extractor/hooks/use-extraction.ts:321-327 | the clock reading of every pass's record, in order |
| ExtractionHook.RetryPending | src/features/extractor/hooks/use-extraction.ts:380-388 | the retried entry shows as extracting, with empty Markdown and no error |
| ExtractionHook.RetryInterrupted | src/features/extractor/hooks/use-extraction.ts:412-416 | an aborted retry restores the pre-retry entry, marked as an error with "重试被中断" |
| ExtractionHook.ProgressSteps0 | src/features/extractor/hooks/use-extraction.ts:261-273 | before any pass the results are the initial pending list |
| ExtractionHook.ProgressStep | src/features/extractor/hooks/use-extraction.ts:301-333 | before pass `i` its slot is still the initial entry, and the pass changes only that slot, to its outcome |
| ExtractionHook.Extractor.constructor | src/features/extractor/hooks/use-extraction.ts:121-131 | the hook's initial state |
| ExtractionHook.Extractor.StartExtraction | src/features/extractor/hooks/use-extraction.ts:246-342 | with no configuration nothing changes and the config-missing callback fires; otherwise a limiter exists iff a limit resolves, the results are exactly those after the passes that ran and the limiter holds one record per settled page. The run is the first pass that stops (a limited wait that is positive on the limiter's records before that pass and whose sleep is aborted, or else an aborted request), or Finished when none does. A finished batch ends in Done with nothing streaming and no wait shown; one stopped in its wait keeps that page current with an empty stream and a shown deadline after that pass's clock; one stopped in its request keeps that page current with its streamed text and no wait shown |
| ExtractionHook.Extractor.RunPasses | src/features/extractor/hooks/use-extraction.ts:275-339 | the run is the first stopping pass, or Finished; a finished batch clears the stream and the wait and is done, a stopped one is left as its pass left it (empty stream and a future deadline in the wait, the streamed text and no deadline in the request); the results are the progress of the passes made and the limiter's history their records |
| ExtractionHook.Extractor.RunLoop | src/features/extractor/hooks/use-extraction.ts:275-334 | the passes run in order while the limiter's records follow the limiter record function; with no stopping pass every slot holds its pass's outcome and no wait is shown; otherwise the loop returns the first stopping pass, with the results and records of the passes before it and that pass's own changes to the stream and the shown wait |
| ExtractionHook.Extractor.AwaitLimiter | src/features/extractor/hooks/use-extraction.ts:283-297 | the limiter's records are pruned at the pass's clock and its history is untouched; the wait is aborted exactly when there is a limiter, its wait on the pruned records is positive and the sleep is aborted; an aborted wait shows the deadline clock + wait, a completed positive wait clears the shown deadline, and no wait leaves it as it was |
| ExtractionHook.Extractor.RunPass | src/features/extractor/hooks/use-extraction.ts:276-333 | one pass makes the page current and clears the stream; its stop is exactly the pass's stop from the limiter records before it; stopped in the wait, the results are untouched, the records are pruned and the shown deadline is the clock plus the positive wait; otherwise the slot holds the outcome, the records gain the settled request and no deadline is shown, and a request abort leaves the streamed text |
| ExtractionHook.Extractor.SendPage | src/features/extractor/hooks/use-extraction.ts:299-333 | after the wait the slot is marked extracting and then holds the outcome; a returned result is recorded with the limiter at the pass's clock; the pass stops exactly when the request was aborted, with the streamed text left shown |
| ExtractionHook.Extractor.LoopPass | src/features/extractor/hooks/use-extraction.ts:275-333 | seen from the loop, a pass without a stop hands the first-stop search to the next pass with the next pass's results and records, and a pass with a stop is the first stop, leaving the results and records of the passes it completed |
| ExtractionHook.LimiterRecords | src/features/extractor/services/rate-limiter.ts:22-40 | the limiter's records before pass `k`: the records before the previous pass, pruned at its wait, and then, if it settled, with its request stamped and pruned again |
| ExtractionHook.PassWait | src/features/extractor/hooks/use-extraction.ts:284-286 | what `getWaitTimeMs` answers at pass `k`, on the limiter records before it |
| ExtractionHook.PassStopSpec | src/features/extractor/hooks/use-extraction.ts:283-333 | a pass stops in its wait exactly when a limit is set, the wait before it is positive and the sleep is aborted; in its request exactly when it did not stop in its wait, its image exists and the request was aborted; otherwise it does not stop |
| ExtractionHook.PassStop | src/features/extractor/hooks/use-extraction.ts:283-333 | a pass's stop, if any, is an interruption of that pass |
| ExtractionHook.PassStops | src/features/extractor/hooks/use-extraction.ts:275-333 | one possible stop per selected page |
| ExtractionHook.FirstStopAt | src/features/extractor/hooks/use-extraction.ts:275-334 | the first pass from `k` on that stops, or the number of passes |
| ExtractionHook.FirstStopAtSpec | src/features/extractor/hooks/use-extraction.ts:275-334 | no pass between `k` and the first stop from `k` stops |
| ExtractionHook.FirstStop | src/features/extractor/hooks/use-extraction.ts:275-339 | the interruption of the first pass that stops, or Finished; its meaning is stated by FirstStopSpec |
| ExtractionHook.Outcome | src/features/extractor/hooks/use-extraction.ts:275-339 | how a batch's passes end: the first stop among the passes' stops; its meaning is stated by FirstStopSpec and PassStopSpec |
| ExtractionHook.FirstStopSpec | src/features/extractor/hooks/use-extraction.ts:275-339 | the run finishes exactly when no pass stops, and is otherwise the interruption of the first pass that stops, no earlier pass stopping |
| ExtractionHook.Extractor.Stop | src/features/extractor/hooks/use-extraction.ts:345-362 | the results become the stopped results; step Done, not extracting, no streaming text, no wait shown |
| ExtractionHook.Extractor.RetryPage | src/features/extractor/hooks/use-extraction.ts:365-424 | with no configuration or no page `k` nothing changes; otherwise only slot `k` changes: it is left extracting when its image is missing, or becomes the classified outcome, or the interrupted entry on abort |
| ExtractionHook.Extractor.PagesRendered | src/features/extractor/hooks/use-extraction.ts:427-441 | a rendered PDF goes to page selection, with its name stripped of the extension and no results |
| ExtractionHook.Extractor.ImageUploaded | src/features/extractor/hooks/use-extraction.ts:444-458 | a single image is extracted at once as page 1: the image list is that image and the file is an image named without its extension; with no configuration no limiter is made, nothing is extracting and the results are empty; otherwise the limiter exists iff a limit resolves, the run is the first stopping pass of that one page (or Finished), the result is that page's progress and the state is the one the run ends in |
| ExtractionHook.Extractor.StartSelected | src/features/extractor/hooks/use-extraction.ts:461-467 | a batch over the rendered pages with the chosen indices: with no configuration nothing changes and no limiter is made; otherwise the limiter exists iff a limit resolves and holds one record per settled page, the run is the first stopping pass (or Finished), the results are the progress of the passes made, and the state is the one the run ends in |
| ExtractionHook.Extractor.DocxUploaded | src/features/extractor/hooks/use-extraction.ts:469-528 | the conversion ends with exactly the one DOCX entry, step Done, and not extracting |
| ExtractionHook.Extractor.Reset | src/features/extractor/hooks/use-extraction.ts:530-544 | back to the initial state |
| ExtractionHook.Extractor.TotalPagesNow | src/features/extractor/hooks/use-extraction.ts:546-550 | the largest of the number of images, the number of results and, while extracting, the current page number: at least each of them and equal to one |
| ExtractionHook.FinishedLeavesNothingPending | src/features/extractor/hooks/use-extraction.ts:275-339 | a finished batch leaves no page pending, and leaves a page extracting iff its image was missing |
| ExtractionHook.LimiterCountsSettledPages | src/features/extractor/hooks/use-extraction.ts:321-327 | the batch's limiter holds one record per page that came back |
| ConfigStore.EveryShaped | src/features/settings/context.tsx:19-28 | every element passes the shape check |
| ConfigStore.IsModelConfigArray | src/features/settings/context.tsx:16-30 | only arrays pass |
| ConfigStore.LoadConfigs | src/features/settings/context.tsx:54-65 | every loaded element has the required keys; anything is loaded only with a window and a non-empty stored text |
| ConfigStore.LoadAccepts | src/features/settings/context.tsx:54-65 | a stored array of well-shaped objects is loaded as it is |
| ConfigStore.LoadRejects | src/features/settings/context.tsx:16-60 | one badly shaped element throws the whole list away |
| ConfigStore.Ids | src/features/settings/context.tsx:137 | the ids of the list, in order |
| ConfigStore.ActiveIndex | src/features/settings/context.tsx:170 | the position of the first active configuration |
| ConfigStore.ActiveConfig | src/features/settings/context.tsx:170 | there is an active configuration iff some configuration is active, and it is one of them |
| ConfigStore.HasAnyConfigSpec | src/features/settings/context.tsx:171-172 | true iff some configuration is active or the server's configuration is complete |
| ConfigStore.HasAnyConfig | src/features/settings/context.tsx:171-172 | no contract of its own: an active configuration or a configured server; HasAnyConfigSpec states it |
| ConfigStore.AddConfig | src/features/settings/context.tsx:115-131 | the earlier configurations keep their place and every field, and are all deactivated when the addition is active or the first; the addition comes last with the new id, the draft's name, base URL, model id, prompt and limit, and its key encoded; it is active iff it was asked to be or the list was empty |
| ConfigStore.AddConfigActive | src/features/settings/context.tsx:115-131 | an addition that is active, or the first, becomes the active one and every other is deactivated; otherwise the active one is unchanged; at most one stays active |
| ConfigStore.UpdateConfig | src/features/settings/context.tsx:133-152 | the update is merged only into configurations with that id; the others change only by being deactivated when the update activates |
| ConfigStore.Merge | src/features/settings/context.tsx:142-146 | the key is re-encoded only when the update brings a non-empty key other than the stored one |
| ConfigStore.UpdateConfigActive | src/features/settings/context.tsx:133-152 | with unique ids at most one stays active, and an update that activates a configuration makes it the active one |
| ConfigStore.Without | src/features/settings/context.tsx:156 | the filtered list is never longer than the list |
| ConfigStore.WithoutMembers | src/features/settings/context.tsx:156 | the configurations kept are exactly those with another id |
| ConfigStore.WithoutConcat | src/features/settings/context.tsx:156 | filtering a concatenation filters each part in turn; with WithoutOne this fixes the order and multiplicity of what is kept |
| ConfigStore.WithoutOne | src/features/settings/context.tsx:156 | one configuration is kept iff its id differs |
| ConfigStore.WithoutUnknownId | src/features/settings/context.tsx:156 | an id no configuration carries removes nothing |
| ConfigStore.DeleteConfig | src/features/settings/context.tsx:154-164 | the result is the filtered list: every entry after the first is unchanged, the first differs at most in `isActive`, and it is active iff it already was or no remaining entry is; no entry carries the id |
| ConfigStore.DeleteInactiveKeepsActive | src/features/settings/context.tsx:154-164 | deleting any configuration but the active one only filters the list and keeps the same active configuration |
| ConfigStore.DeleteActivePromotesFirst | src/features/settings/context.tsx:157-161 | deleting the active configuration makes the first remaining one, otherwise unchanged, the active one |
| ConfigStore.OnlyActive | src/features/settings/context.tsx:170 | with at most one configuration active, any active one is the one `find` returns |
| ConfigStore.WithoutKeepsAtMostOne | src/features/settings/context.tsx:156 | removing configurations never makes a second one active |
| ConfigStore.DeleteConfigActive | src/features/settings/context.tsx:154-164 | at most one stays active, and exactly one whenever any remain |
| ConfigStore.SetActiveConfig | src/features/settings/context.tsx:166-168 | exactly the configurations with that id become active |
| ConfigStore.SetActiveConfigActive | src/features/settings/context.tsx:166-168 | with unique ids at most one is active, and one iff the id is known |
| ConfigStore.CreateBlankConfig | src/features/settings/context.tsx:209-218 | empty fields, the default prompt, and not active |
| ConfigStore.GetDecodedConfig | src/features/settings/context.tsx:201-206 | the same configuration with its key decoded |
| ConfigStore.StoredKeyDecodes | src/features/settings/context.tsx:115-120 | decoding the stored key of a new configuration gives back the key typed in, when decoding undoes encoding (the decoding is `getDecodedConfig`, lines 201-206 of the same file) |
| SettingsDialog.DraftOf | src/features/settings/components/settings-dialog.tsx:36-39 | the form holds every field of the configuration but its id |
| SettingsDialog.PresetDraft | src/features/settings/components/settings-dialog.tsx:44-52 | a preset opens with its own fields, an empty key, and active |
| SettingsDialog.EditPatch | src/features/settings/components/settings-dialog.tsx:35-66 | the updates sent on save carry the edited id and every form field, and a rate limit only when there is one |
| SettingsDialog.UnchangedEditKeepsConfigs | src/features/settings/components/settings-dialog.tsx:35-66 | saving an edited configuration unchanged leaves the list as it was, when encoding gives the stored key back |
| SettingsDialog.UpdateKeepsIds | src/features/settings/components/settings-dialog.tsx:65-66 | an update carrying its own id leaves every id in place |
| SettingsDialog.AddKeepsUnique | src/features/settings/components/settings-dialog.tsx:67-68 | adding under a fresh id keeps ids unique |
| SettingsDialog.SettingsForm.constructor | src/features/settings/components/settings-dialog.tsx:21-26 | the form starts closed with the key hidden |
| SettingsDialog.SettingsForm.AddNew | src/features/settings/components/settings-dialog.tsx:29-33 | opens the blank configuration with no id and the key hidden |
| SettingsDialog.SettingsForm.Edit | src/features/settings/components/settings-dialog.tsx:35-42 | opens the configuration with its key decoded and remembers its id |
| SettingsDialog.SettingsForm.ApplyPreset | src/features/settings/components/settings-dialog.tsx:44-52 | opens the preset's form with no id |
| SettingsDialog.SettingsForm.Save | src/features/settings/components/settings-dialog.tsx:54-72 | saves iff the form is open with name, base URL, model id and key filled; then it updates the edited id or adds under a new one, closes the form, and keeps at most one active with unique ids (the Save button is disabled on the same condition, lines 309-314) |
| SettingsDialog.CanSave | src/features/settings/components/settings-dialog.tsx:309-314 | no contract of its own: name, base URL, model id and key all non-empty; SettingsForm.Save saves iff it holds |
| SettingsDialog.SettingsForm.Cancel | src/features/settings/components/settings-dialog.tsx:74-77 | closes the form without touching the list |
| Auth.VerifyAuth | src/lib/auth.ts:9-49 | a rejection is always 401 and happens only when a token is configured |
| Auth.PassesIff | src/lib/auth.ts:9-49 | a request passes iff no token is configured or the header is exactly "Bearer " followed by the token |
| Auth.RejectionMessages | src/lib/auth.ts:13-48 | a missing header or one without the "Bearer " prefix gets "未提供访问密钥"; a wrong token after the prefix gets "访问密钥无效" |
| Auth.LengthMismatchRejected | src/lib/auth.ts:21-39 | a candidate whose UTF-8 length differs from the token's is rejected as invalid |
| Env.RequireEnvOrEmpty | src/lib/env.ts:8-10 | the variable's value, or "" when it is unset |
| Env.Missing | src/lib/env.ts:19-20 | never more variables than listed |
| Env.MissingMembers | src/lib/env.ts:19-20 | the missing variables are exactly the listed ones that are unset or empty |
| Env.MissingConcat | src/lib/env.ts:19-20 | the missing variables of a concatenation are those of each part in turn; with MissingOne this keeps the listed order and multiplicity |
| Env.MissingOne | src/lib/env.ts:19-20 | one variable is missing iff it is not set |
| Env.IncompleteWarning | src/lib/env.ts:13-28 | no contract of its own: the warning text naming the missing variables when some but not all are missing; WarningSpec states when it fires |
| Env.IsConfigured | src/lib/env.ts:43-45 | no contract of its own: base URL, model id and key all non-empty; ConfiguredIsQuiet proves it equivalent to all three variables being set |
| Env.MissingCount | src/lib/env.ts:13-28 | fewer are missing than listed iff some listed variable is set |
| Env.WarningSpec | src/lib/env.ts:13-28 | the incomplete-configuration warning fires iff at least one, but not all three, of the extraction variables are set |
| Env.ConfiguredIsQuiet | src/lib/env.ts:43-45 | the server is configured iff all three variables are set, and then it does not warn; it does not warn when none is set either |
| Env.NumberOrZero | src/lib/env.ts:46-57 | an unset or blank variable reads as 0 |
| Env.NumberOrZeroReads | src/lib/env.ts:46-57 | a decimal number padded with whitespace reads as its value |
| Env.UnreadableIsZero | src/lib/env.ts:46-57 | a value that does not start like a number reads as 0 |
| Env.UnsetLimitsAreZero | src/lib/env.ts:46-57 | with no rate-limit variables set, every rate-limit getter is 0 |
| ExtractRoute.OrElse | src/app/api/extract/route.ts:37-39 | the request's value when non-empty, else the server's |
| ExtractRoute.ImageUrl | src/app/api/extract/route.ts:70-72 | the URL always starts with "data:"; an image that already does passes through, any other gets the PNG base64 prefix |
| ExtractRoute.ImageUrlIdempotent | src/app/api/extract/route.ts:70-72 | prefixing twice changes nothing |
| ExtractRoute.HandleExtract | src/app/api/extract/route.ts:15-72 | every rejection is 400 or 413; a provider call always has a non-empty image URL and non-empty base URL, model and key |
| ExtractRoute.HandleExtractSpec | src/app/api/extract/route.ts:15-72 | a body that is not JSON gets 400 first; an oversized image gets 413 before the configuration is resolved; anything missing gets 400; otherwise the provider is called with the resolved fields, the default prompt when none is given, and the data URL |
| ExtractRoute.ConfiguredServerAccepts | src/app/api/extract/route.ts:37-72 | on a configured server, a request carrying only an image is sent to the server's provider |
| ConvertDocx.FormatMessages | src/app/api/convert-docx/route.ts:104-110 | one "type: message" line per conversion message, in order |
| ConvertDocx.HandleConvert | src/app/api/convert-docx/route.ts:67-117 | an auth rejection is returned unchanged and nothing else is one; a conversion is reported only for an accepted file |
| ConvertDocx.CheckOrder | src/app/api/convert-docx/route.ts:75-116 | the checks run in order: size over 100 MB gives 413 before the name check, a name not ending ".docx" gives 400, then a failed conversion gives 500 |
| ConvertDocx.TableRule | src/app/api/convert-docx/route.ts:35-60 | the loop produces exactly the table's Markdown |
| ConvertDocx.RowLines | src/app/api/convert-docx/route.ts:43-58 | the loop over a non-empty table's rows gives its lines in the blank-line block |
| ConvertDocx.RenderRow | src/app/api/convert-docx/route.ts:45-50 | one pass gives the row's line and the number of its cells, which sizes the separator |
| ConvertDocx.TrimAll | src/app/api/convert-docx/route.ts:48-50 | one text per cell, in order, each the cell's text trimmed |
| ConvertDocx.CellRule | src/app/api/convert-docx/route.ts:21-26 | no contract of its own: the `tableCell` replacement; CellsRuleTrims and CellsAgree state what it gives |
| ConvertDocx.RowRule | src/app/api/convert-docx/route.ts:28-33 | no contract of its own: the `tableRow` replacement; RowRulesAgree states what it gives |
| ConvertDocx.TableMarkdown | src/app/api/convert-docx/route.ts:35-60 | no contract of its own: the `table` replacement's text; TableRule computes it and TableShape and EmptyTable state its form |
| ConvertDocx.CellTexts | src/app/api/convert-docx/route.ts:45-54 | the loop over cells produces exactly their trimmed texts |
| ConvertDocx.TableLines | src/app/api/convert-docx/route.ts:43-57 | the lines are the first row, a separator sized to the first row, then every further row, one line each |
| ConvertDocx.TableShape | src/app/api/convert-docx/route.ts:43-58 | the table is a line break, the lines joined by line breaks, and two line breaks |
| ConvertDocx.RowRulesAgree | src/app/api/convert-docx/route.ts:21-33 | the row rule over the cell rules gives the same line as the table rule, plus a line break |
| ConvertDocx.CellsAgree | src/app/api/convert-docx/route.ts:21-33 | the cell rule over a non-empty row, after the leading bar, is the row's line as the table rule writes it |
| ConvertDocx.CellsRuleTrims | src/app/api/convert-docx/route.ts:21-26 | the cell rule trims each cell's content |
| ConvertDocx.EmptyTable | src/app/api/convert-docx/route.ts:40-41 | a table with no rows gives "" |
| ResultPanel.SpaceRunEnd | src/features/extractor/components/result-panel.tsx:15 | `\s*` takes the whole whitespace run |
| ResultPanel.LastNewline | src/features/extractor/components/result-panel.tsx:15 | the last line break within a range, or none |
| ResultPanel.BodyStart | src/features/extractor/components/result-panel.tsx:15 | when the opening of the pattern matches, the body starts right after a line break |
| ResultPanel.FenceBody | src/features/extractor/components/result-panel.tsx:15-17 | the body stops before a closing fence only when the trimmed text ends with one after the body's start, and otherwise runs to the end |
| ResultPanel.StripMarkdownFence | src/features/extractor/components/result-panel.tsx:12-18 | text whose trimmed form does not match is returned untouched; otherwise the captured body |
| ResultPanel.OpeningParsed | src/features/extractor/components/result-panel.tsx:15 | an opening fence line with "", "md" or "markdown" is consumed up to its line break |
| ResultPanel.FencedRoundTrip | src/features/extractor/components/result-panel.tsx:12-18 | a body that starts with a non-space character, wrapped in a fence with "", "md" or "markdown" and whitespace around it, comes back as the body |
| ResultPanel.UnclosedFence | src/features/extractor/components/result-panel.tsx:12-18 | an unclosed fence still loses its opening line, and the body runs to the end of the trimmed text |
| ResultPanel.UnfencedKept | src/features/extractor/components/result-panel.tsx:17 | text without a leading fence is returned unchanged and untrimmed |
| ResultPanel.ClosedBody | src/features/extractor/components/result-panel.tsx:15 | on trimmed text, a closed fence yields exactly the body between its lines |
| ResultPanel.OpenBody | src/features/extractor/components/result-panel.tsx:15 | on trimmed text, an unclosed fence yields everything after its opening line |
| ResultPanel.DownloadName | src/features/extractor/components/result-panel.tsx:64-65 | the name starts with the file name, or "extracted_page" when there is none, and ends with the padded page number and ".md" |
| ResultPanel.PageTagValue | src/features/extractor/components/result-panel.tsx:65 | the page number is at least three digits, reads back as the number, and pages below 1000 take exactly three |
| ResultPanel.HeaderLabel | src/features/extractor/components/result-panel.tsx:80 | the plain title iff there is at most one page |
| ResultPanel.RetryLabel | src/features/extractor/components/result-panel.tsx:96-104 | the button shows iff there is a handler and the page failed or was skipped; it reads "提取此页" iff skipped |
| ResultPanel.StoppedPagesOfferExtraction | src/features/extractor/components/result-panel.tsx:96-104 | after a stop, every unfinished page offers "提取此页", every failed page "重试", and successful pages nothing |
| ExtractorPage.SuccessResults | src/features/extractor/components/extractor-page.tsx:39-71 | never more pages than results |
| ExtractorPage.SuccessResultsMembers | src/features/extractor/components/extractor-page.tsx:39-71 | every page kept succeeded, and the pages kept are exactly the successful ones |
| ExtractorPage.SuccessResultsConcat | src/features/extractor/components/extractor-page.tsx:39-71 | the successes of a concatenation are those of each part in turn; with SuccessResultsOne this keeps result order and multiplicity |
| ExtractorPage.SuccessResultsOne | src/features/extractor/components/extractor-page.tsx:39-71 | one result is kept iff it succeeded |
| ExtractorPage.DownloadAllText | src/features/extractor/components/extractor-page.tsx:38-42 | no contract of its own: the page sections of the successful pages joined by the separator; DownloadAllAppend states how it grows |
| ExtractorPage.CopyAllText | src/features/extractor/components/extractor-page.tsx:55-60 | no contract of its own: the successful pages' Markdown joined by the separator; CopyAllAppend states how it grows |
| ExtractorPage.ShowCopyDownload | src/features/extractor/components/extractor-page.tsx:204 | no contract of its own: done with a non-zero success count (line 71); ShowCopyDownloadSpec states it |
| ExtractorPage.ShowCopyDownloadSpec | src/features/extractor/components/extractor-page.tsx:204 | the export buttons show iff extraction is done and some page succeeded |
| ExtractorPage.SuccessCountZero | src/features/extractor/components/extractor-page.tsx:71 | the success count is 0 iff no page succeeded |
| ExtractorPage.DownloadAllAppend | src/features/extractor/components/extractor-page.tsx:38-42 | a further successful page adds its "<!-- Page N -->" section after the separator; any other page changes nothing |
| ExtractorPage.CopyAllAppend | src/features/extractor/components/extractor-page.tsx:55-60 | the same for the copied text, without page headers |
| ExtractorPage.StopKeepsSuccesses | src/features/extractor/components/extractor-page.tsx:39 | stopping keeps exactly the successful pages |
| ExtractorPage.StopKeepsExports | src/features/extractor/components/extractor-page.tsx:38-60 | stopping changes neither export text, and the export buttons show after a stop iff some page succeeded (the export buttons are rendered at line 204) |
| ExtractorPage.DownloadAllName | src/features/extractor/components/extractor-page.tsx:47 | the name is the file name, or "extracted_document" when there is none, followed by ".md" |
| ExtractorPage.DownloadAllReplacesExtension | src/features/extractor/components/extractor-page.tsx:47 | the combined download puts ".md" where the document's extension was |
| ExtractorPage.ProgressLabel | src/features/extractor/components/extractor-page.tsx:187-191 | the progress label is shown iff extracting |
| ExtractorPage.PanelMarkdown | src/features/extractor/components/extractor-page.tsx:242-246 | a panel shows the live stream iff its page is extracting, else the stored Markdown |
| ExtractorPage.StoppedPanelsShowStored | src/features/extractor/components/extractor-page.tsx:242-246 | after a stop every panel shows its stored Markdown |
| ExtractorPage.LimitAsWired | src/features/extractor/components/extractor-page.tsx:31-35 | as the page wires the hook, only the active configuration's own limit can apply |
| ExtractorPage.ServerLimitIgnored | src/features/extractor/components/extractor-page.tsx:12-35 | a limit the server enables is ignored as wired, although the hook would apply it if it were passed |
| FileUpload.Classify | src/features/extractor/components/file-upload.tsx:42-84 | an unsupported type is refused first, then a size over 100 MB; DOCX, image types and PDF each go their own way |
| FileUpload.SizeBoundary | src/features/extractor/components/file-upload.tsx:55-59 | exactly 100 MB is accepted and one byte more is refused; an unsupported type is reported as such whatever its size |
| FileUpload.DispatchMatchesType | src/features/extractor/components/file-upload.tsx:62-101 | each route is reached only from its own kind of file |
| FileUpload.Uploader.constructor | src/features/extractor/components/file-upload.tsx:37-39 | no error and no progress |
| FileUpload.Uploader.HandleFile | src/features/extractor/components/file-upload.tsx:42-112 | a refused file sets its error and fires nothing; DOCX goes only to the DOCX callback; an image is handed on when read as a string, or sets "图片读取失败"; a PDF's pages are handed on, an abort is silent, and any other failure sets "PDF 解析失败: " with the message or "未知错误"; progress ends cleared |

## Left out

- Streaming and I/O are not modelled:
  - reading response bodies chunk by chunk;
  - the `ReadableStream` loop of the extract route and the OpenAI client;
  - `fetch`, JSON parsing, `localStorage`, `FileReader`, the PDF renderer, mammoth and turndown's document traversal.
  Their results are abstract outcomes or parameters.
- `sleep` in rate-limiter.ts: the timer is not modelled, because time is a parameter. The event script says whether a sleep ends or is aborted.
- Concurrency is not modelled:
  - a second `startExtraction` while one runs;
  - an abort arriving at any point other than during the rate-limit sleep or the page request;
  - the `signal.aborted` checks after the sleep and at the loop head.
  In this atomic model those checks could only see an abort that already ended the call, so they never fire.
- The `imgIdx === undefined` guard in the loop: a selected index always exists in a sequence, so the guard never fires.
- `encodeApiKey`/`decodeApiKey` (base64 via `btoa`/`atob`): passed in as functions. Properties that need them to be inverse state it as a precondition.
- `Env.NumberOrZero`: reads an optionally signed decimal integer with surrounding whitespace. It does not model JavaScript `Number` on fractions, exponents, hexadecimal or `Infinity`; those would need floating point.
- Auth.VerifyAuth: the configured access token is a parameter, because env.ts as shown has no access-token getter. `timingSafeEqual`'s constant time is not modelled, only its result.
- Sizes: the extract route's `imageBase64.length` counts UTF-16 code units (`Text.Utf16Length`). Byte lengths count UTF-8 (`Text.Utf8Length`).
- Browser and UI behaviour is left out:
  - JSX rendering and styling;
  - clipboard, Blob and download links;
  - `copied` and `showRaw` toggles;
  - keyboard, scroll and focus effects;
  - editing individual form fields;
  - drag and drop, and the progress counter during PDF rendering.
- The `/api/config` route, `isValidBaseUrl`, `setAccessToken` and `isReady` are not part of this model.
- Snapshot inconsistencies, modelled as the hook declares them:
  - `file-upload.tsx` calls `onPagesRendered(pages)` and `onImageUploaded(dataUrl)` with one argument. The hook's handlers take the original file name as well, and the model passes it.
  - The settings context's `EnvConfig` and `ModelConfig` as shown have no `rateLimit`, although `use-extraction.ts` reads one. The model gives both types an optional limit.
  - The extract route as shown (route.ts:81-96) writes only the model's text chunks: neither the usage sentinel nor the stream-error sentinel that `use-extraction.ts` parses. Against this route every page's usage is absent, so the token quotas of the limiter never fire. The model keeps the client's parsing of both sentinels, as the hook declares it.
- `hasRateLimitEnabled` has no body in the sources; it is defined from its tests, as any positive request or token quota.
- ConfigStore.AddConfig: `encode` is a total function. The source's `btoa` (context.tsx:73) throws on a character above U+00FF, so `addConfig` throws before `setConfigs` and the list is unchanged; the model does not capture that failure.
- ConfigStore.UpdateConfig: for the same reason, an updated key that `btoa` cannot encode throws inside the updater in the source, which the model does not capture.
- SettingsDialog.SettingsForm.Save: promises that the form saves and closes whenever CanSave holds. In the source, a key `btoa` cannot encode makes `handleSave` throw, which leaves the form open and the list unchanged.
- RateLimiting.RateLimiter.GetWaitTimeMs: clocks, windows, limits and token counts are integers. The source accepts fractional configuration values and rounds the final wait up with `Math.ceil` (rate-limiter.ts:97); the model cannot express a fractional wait, so the rounding is not modelled.
- ExtractionHook.Extractor.StartExtraction: after a run interrupted in the wait of pass `at`, the shown deadline is stated only as later than that pass's clock. The exact value, the pass's clock plus `PassWait`, is stated on RunPass and AwaitLimiter. Carrying the exact term through the loop makes its proof too expensive for the verifier.
- ExtractionHook.Extractor.RunPasses: the same bound on the shown deadline as StartExtraction, for the same reason.
- ExtractionHook.Extractor.RunLoop: the same bound on the shown deadline as StartExtraction, for the same reason.
- ExtractionHook.Extractor.LoopPass: the same bound on the shown deadline as StartExtraction, for the same reason.
- ExtractionHook.Extractor.ImageUploaded: the same bound on the shown deadline as StartExtraction, for the same reason.
- ExtractionHook.Extractor.StartSelected: the same bound on the shown deadline as StartExtraction, for the same reason.
- ExtractionHook.Extractor.AwaitLimiter: one clock value per event. The source reads `Date.now()` separately in `recordRequest`, `getWaitTimeMs` and `cleanup` (rate-limiter.ts:27, 40 and 102), and again for the shown deadline `Date.now() + waitMs` (use-extraction.ts:287). The model gives all the reads of one event the same value, so it does not capture the time that passes between them.
- ExtractRoute.HandleExtract: a body that parses to JSON `null` makes the destructuring at route.ts:26 throw, and the framework answers 500. `Option<ExtractBody>` has no value for such a body, so that path is not modelled.
- `TotalPages`: the maximum of the counts as mathematical integers; there is no overflow to model.
