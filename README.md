# A verified model of the text-analysis core of daffodil

The application extracts text from an uploaded PDF or image and asks Gemini,
through a small serverless endpoint, for a social-media analysis of it.
This project models in Dafny the four pieces of that application whose
behaviour can be stated precisely, and proves what they promise:

- **PDF line reconstruction and page assembly** (`src/services/pdfService.js`).
  `groupItemsIntoLines` buckets the positioned text items of a page by their
  rounded `y`. It emits the lines top to bottom, each with its items in
  ascending `x`, and collapses and trims the whitespace.
  `extractTextFromPDF` walks the pages, appends a `--- Page i ---` section
  per page and reports integer progress.
  Both loops are methods (`FillLineMap`, `ExtractTextFromPdf`), proved
  against the functions `LineMapOf`, `KeyOrderOf`, `Sections` and
  `ProgressValues`. The sort/join/replace/trim chain is pure functions.
- **The analyze endpoint** (`api/analyze.js`):
  - the sliding-window rate limiter, a class `RateLimiter` whose
    `buckets` map is updated in place;
  - the client address;
  - the model candidate list;
  - the extraction of JSON from a model reply;
  - the classification of SDK errors;
  - the prompt;
  - the handler's order of checks and its model-fallback loop, the method
    `TryModels`, proved against the function `TryFrom`.
- **File validation** (`src/utils/fileHelpers.js`): `isPDF`, `isImage` and
  `validateFile`, with the exact size message.
- **The client of the endpoint** (`src/services/geminiService.js`): the URL
  builder, the status-to-message table, and the pre-check and response
  classification of `analyzeContent`.

The JavaScript built-ins these rely on are modelled in `Strings` and
`Sequences`:
- `trim` and `\s` as one whitespace predicate (ECMAScript white space and
  line terminators);
- `replace(/\s+/g, ' ')`, `split`, `join`, `indexOf`, `lastIndexOf`,
  `includes` and `toLowerCase`;
- the stable `Array.prototype.sort`;
- `filter(Boolean)`;
- the first-occurrence order of a `Set`.

I/O becomes parameters:
- Gemini calls are a function `generate(model, prompt)` returning the reply
  text or the error message.
- `JSON.parse` is a function `parse`.
- pdf.js pages are `PageSource` values.
- The clock and the environment are plain arguments.
- The endpoint, seen from the browser, is a function `server(text)`.

`Math.round` is JavaScript's `floor(y + 1/2)` on exact rationals. The
progress value `Math.round((i / n) * 100)` is proved equal to the integer
quotient `(200 i + n) / (2 n)` (`PdfService.RoundedPercent`).

Fragments are grouped by rounding each `y` on its own
(`pdfService.js:19`), not by a distance threshold: 100.4 and 100.6 land on
keys 100 and 101, while 100.5 and 101.4 share key 101.
`PdfService.JsRoundNearest` and `PdfService.LineKeysOfPage` state this rule.

## Model

| member | source | states |
|---|---|---|
| PdfService.JsRoundNearest | src/services/pdfService.js:19 | `Math.round(v)` is `k` exactly when `k - 1/2 <= v < k + 1/2`: halves go up |
| PdfService.Members | src/services/pdfService.js:13-26 | the entries collected for a key are never blank |
| PdfService.MembersAppend | src/services/pdfService.js:21-25 | visiting one more item appends its entry to its own key's line only, and only when it is not blank |
| PdfService.LineMapHoldsMembers | src/services/pdfService.js:11-26 | after the loop, line `k` of the map holds exactly the non-blank items rounding to `k`, in input order, and no other key exists |
| PdfService.MembersNonEmpty | src/services/pdfService.js:14-19 | a key has entries exactly when some non-blank item rounds to it |
| PdfService.KeyOrderListsKeys | src/services/pdfService.js:21-23 | the `Map` iteration order lists every key of the map exactly once |
| PdfService.FillLineMap | src/services/pdfService.js:11-26 | the mutating loop leaves exactly the line map `LineMapOf(items)` and the key insertion order `KeyOrderOf(items)` |
| PdfService.VisitBlank | src/services/pdfService.js:14-15 | a missing or whitespace-only item changes neither the map nor the key order |
| PdfService.VisitItem | src/services/pdfService.js:17-25 | a non-blank item (x, y defaulting to 0) is pushed onto the line of `Math.round(y)`, which is created, and its key recorded, on first use |
| PdfService.GroupItemsIntoLines | src/services/pdfService.js:9-40 | the method returns `PageText(items)`: the lines emitted from the filled map, joined by `\n` |
| PdfService.LineTextIsWords | src/services/pdfService.js:30-36 | a line is the words of its items in ascending x (stable sort) joined by single spaces: trimmed, no run of whitespace, no line break |
| PdfService.LineTextNonEmpty | src/services/pdfService.js:30-38 | a line with at least one non-blank item is non-empty |
| PdfService.SortedKeysDescending | src/services/pdfService.js:28-29 | sorting by `b[0] - a[0]` gives the keys strictly descending, with the same keys |
| PdfService.EmitLinesIgnoresInsertionOrder | src/services/pdfService.js:28-29 | the order in which keys entered the map has no effect on the lines |
| PdfService.LineKeysOfPage | src/services/pdfService.js:19-29 | line keys strictly decrease (larger y first), and a key has a line exactly when a non-blank item rounds to it |
| PdfService.PageLinesAreGroups | src/services/pdfService.js:28-38 | line j is the line of the items whose key is the j-th line key; no line is empty, so `filter(Boolean)` drops nothing |
| PdfService.PageLinesShape | src/services/pdfService.js:30-38 | every line is trimmed, singly spaced and free of line breaks, and holds the words of its items in ascending x |
| PdfService.PageTextLines | src/services/pdfService.js:38-39 | the page text is "" exactly when there is no line; otherwise splitting it at `\n` gives back its lines |
| PdfService.PageTextOfNoItems | src/services/pdfService.js:9-40 | an empty item list gives "" |
| PdfService.BlankItemIgnoredByMap | src/services/pdfService.js:14-15 | a blank item anywhere in the list leaves the map and the key order as they would be without it |
| PdfService.BlankItemIgnored | src/services/pdfService.js:14-15 | a blank item anywhere in the list leaves the page text unchanged |
| PdfService.Progress | src/services/pdfService.js:63 | the reported value lies in 0..100 |
| PdfService.RoundedPercent | src/services/pdfService.js:63 | `Math.round((i / n) * 100)` on exact rationals equals `(200 i + n) / (2 n)` |
| PdfService.ProgressMonotone | src/services/pdfService.js:63 | a later page never reports less progress |
| PdfService.ProgressComplete | src/services/pdfService.js:63 | the last page reports 100 |
| PdfService.ProgressValues | src/services/pdfService.js:55-65 | one value is reported per page processed |
| PdfService.ProgressValuesShape | src/services/pdfService.js:55-65 | the reported values lie in 0..100, never decrease, and the last is 100 when every page loaded |
| PdfService.FirstFailed | src/services/pdfService.js:55-58 | the index of the first page that failed to load (every page before it loaded), or the page count when none failed |
| PdfService.FirstFailedAt | src/services/pdfService.js:55-58 | the first failed page is unique: any index with its properties is it |
| PdfService.LoadedTexts | src/services/pdfService.js:56-58 | one page text per page |
| PdfService.AppendSection | src/services/pdfService.js:56-60 | one loop pass appends `--- Page i ---\n`, the page text and a blank line to the accumulated text |
| PdfService.SectionsStep | src/services/pdfService.js:60 | the sections of pages 1..i are those of pages 1..i-1 followed by page i's section |
| PdfService.ExtractTextFromPdf | src/services/pdfService.js:48-72 | with every page loaded, the result is `trim` of the sections of pages 1..n in order, with a progress value after each page. A failure to open the document or a page ends it with `Failed to extract text from PDF: ` and the message, after the progress of the pages before it |
| PdfService.SectionsStartWithFirstHeader | src/services/pdfService.js:60 | a non-empty document's text starts with the first page header |
| PdfService.AssembledText | src/services/pdfService.js:53-67 | the final `trim` only removes trailing whitespace, and no page gives "" |
| PdfService.LastSectionTrimmed | src/services/pdfService.js:60-67 | when the last page text ends in a non-space, only its trailing blank line is trimmed away |
| PdfService.FirstPageHeader | src/services/pdfService.js:60 | worked example: the header of page 1 is `--- Page 1 ---\n` (the general fact is `Strings.NatToStringRoundTrip`) |
| RateLimit.RateLimiter.constructor | api/analyze.js:8-9 | the limiter starts with no buckets |
| RateLimit.RateLimiter.HitRateLimit | api/analyze.js:55-68 | the method's answer and the new buckets are those of `HitStep` on the old buckets |
| RateLimit.HitStep | api/analyze.js:55-68 | after any call the address has a bucket |
| RateLimit.Recent | api/analyze.js:58 | filtering never adds stamps |
| RateLimit.RecentKeeps | api/analyze.js:58 | the filter keeps exactly the stamps with `now - ts < window`, and all of them when all are recent |
| RateLimit.RefusedIff | api/analyze.js:57-62 | a request is refused exactly when the address already holds at least `maxRequests` stamps inside the window |
| RateLimit.StoredBucket | api/analyze.js:57-67 | a refused call stores the recent stamps and adds none; an admitted one stores them followed by exactly `now` |
| RateLimit.StoredInWindow | api/analyze.js:57-67 | after a call, the address's bucket holds only stamps inside the window |
| RateLimit.OthersUnchanged | api/analyze.js:57-67 | other addresses' buckets are unchanged and no address is dropped |
| RateLimit.BoundedKept | api/analyze.js:60-66 | with a fixed maximum of 0 or more, no bucket ever grows beyond it |
| RateLimit.RefusedStaysRefused | api/analyze.js:60-62 | a refused address retrying at the same instant is refused again |
| ClientAddress.ClientIpFromHeader | api/analyze.js:47-51 | a non-empty `x-forwarded-for` gives the trimmed text before its first `,` (all of it when there is none), which holds no `,` |
| ClientAddress.ClientIpWithoutHeader | api/analyze.js:52 | without the header, the socket address, or `unknown` when there is none |
| ModelNames.BuiltInModelsTrimmed | api/analyze.js:3 | the two built-in model names are trimmed, non-empty and different |
| ModelList.ModelCandidatesList | api/analyze.js:70-79 | the candidates are `[default, 2.0-flash]` when no other model is configured, `[2.0-flash, default]` when that one is, and otherwise `[configured, default, 2.0-flash]` |
| ModelList.CandidatesOf | api/analyze.js:71-78 | the same, for any trimmed configured name and two distinct trimmed built-in names |
| ModelList.TrimKeepsThree | api/analyze.js:75 | `.map(name => name.trim())` leaves trimmed names alone |
| ModelList.FilterKeepsThree | api/analyze.js:76 | `.filter(Boolean)` leaves non-empty names alone |
| ModelList.DedupOfThree | api/analyze.js:72-78 | `Array.from(new Set(...))` on three names keeps first occurrences in order |
| ModelList.ModelCandidatesShape | api/analyze.js:70-79 | 2 or 3 distinct non-empty names; the first is the trimmed `GEMINI_MODEL` or the default; both built-in models are present |
| JsonReply.SkipSpaces | api/analyze.js:82 | `\s*` stops at the first non-whitespace character |
| JsonReply.FenceBody | api/analyze.js:82-83 | the captured fence body contains no fence |
| JsonReply.FenceFree | api/analyze.js:82 | the lazy capture ends at the first closing fence, so it holds none |
| JsonReply.BraceSliceSpan | api/analyze.js:86-90 | when a `{` comes before the last `}`, the result is exactly the span from the first `{` to the last `}`; otherwise the text is unchanged |
| JsonReply.BraceSliceIdempotent | api/analyze.js:86-90 | slicing a second time changes nothing |
| JsonReply.NormalizeJsonUnfenced | api/analyze.js:81-92 | a reply without a fence is trimmed and brace-sliced |
| JsonReply.FencedReply | api/analyze.js:82-83 | for any text before the first fence and after the closing one, an optional `json` tag and whitespace after the opening fence, a body without backquotes that does not start with whitespace yields exactly that body; a body starting with "json" right after a bare fence is excluded, since the optional tag takes that word |
| JsonReply.FencedReplyNormalized | api/analyze.js:81-90 | normalizeJson of such a fenced reply is the brace slice of the trimmed body, whatever surrounds the fences |
| ApiErrors.ErrorStatus | api/analyze.js:95-104 | the status is one of 401, 403, 404, 429, 500 |
| ApiErrors.MapApiError | api/analyze.js:94-105 | the status is one of the five, and a 404 names the model |
| ApiErrors.Rule401 | api/analyze.js:96 | the first rule matches exactly when `api key` occurs |
| ApiErrors.Rule403 | api/analyze.js:97 | the second rule matches exactly when `permission` or `403` occurs |
| ApiErrors.Rule404 | api/analyze.js:98 | the third rule matches exactly when `404` occurs, or both `model` and `not found` |
| ApiErrors.Rule429 | api/analyze.js:101 | the fourth rule matches exactly when `429`, `quota`, `too many requests` or `rate limit` occurs |
| ApiErrors.MapApiErrorFirstMatch | api/analyze.js:94-105 | the status is that of the first rule of the ordered table that matches the lower-cased message, 500 when none does |
| ApiErrors.MapApiErrorIgnoresCase | api/analyze.js:95 | the letter case of the message does not matter |
| ApiErrors.MapApiErrorModel | api/analyze.js:98-99 | the model changes neither the status nor, except for 404, the message |
| Prompt.PromptEmbedsPrefix | api/analyze.js:107-142 | the prompt is as long as the template plus the smaller of the text length and 2200, and a text of at most 2200 characters is embedded whole |
| Prompt.PromptIgnoresRest | api/analyze.js:140 | texts agreeing on their first 2200 characters give the same prompt |
| Prompt.PromptRoundTrip | api/analyze.js:107-142 | what stands between the instructions and the closing quotes of the prompt is the embedded prefix |
| ModelLoop.FinalAnswer | api/analyze.js:207-208 | after the loop the answer is a JSON error whose status is the one the last error maps to, whatever the model name; a non-404 carries that status's fixed text, and a 404 names the first candidate, or the default model when there is no candidate or the first is "" |
| ModelLoop.TryModels | api/analyze.js:185-208 | the loop's answer is `TryFrom` over the candidates' outcomes |
| ModelLoop.SkipNotFound | api/analyze.js:196-201 | models failing with an error mapped to 404 are passed over, keeping the last error |
| ModelLoop.FirstDecisiveModel | api/analyze.js:187-204 | the first model whose outcome is not a 404 decides: 200 with its analysis and name, or its mapped error |
| ModelLoop.AllModelsNotFound | api/analyze.js:205-208 | when every model fails with 404 the answer is a 404 naming the first model |
| AnalyzeEndpoint.CheckBody | api/analyze.js:158-180 | text that passes the checks is non-empty, trimmed and at most 20000 characters |
| AnalyzeEndpoint.Handle | api/analyze.js:144-209 | the handler's answer and the limiter's new buckets are those of `Serve` on the old buckets |
| AnalyzeEndpoint.NonPostRefused | api/analyze.js:147-150 | a request other than POST gets 405 before the limiter and records nothing |
| AnalyzeEndpoint.PostCountsAgainstLimit | api/analyze.js:152-156 | a POST always passes through the limiter, and a limited one gets 429 whatever its key or body |
| AnalyzeEndpoint.KeyCheckedBeforeBody | api/analyze.js:158-162 | without a real key (absent, empty or the placeholder) the answer is 401 before the body is read |
| AnalyzeEndpoint.TextChecks | api/analyze.js:171-180 | missing or whitespace-only text gets 400, trimmed text over 20000 characters gets 413, and anything else goes on trimmed |
| AnalyzeEndpoint.AcceptedTextRunsModels | api/analyze.js:182-187 | accepted text is trimmed, put into the prompt and sent to the candidates |
| AnalyzeEndpoint.NoModelAvailable | api/analyze.js:184-208 | when every candidate fails with 404 the answer is a 404 naming the configured model, or the default when none is set |
| FileHelpers.ValidateFile | src/utils/fileHelpers.js:33-54 | a file is accepted exactly when it is a PDF or an image of at most 10 MB, and an accepted result has no error |
| FileHelpers.PdfByTypeOrName | src/utils/fileHelpers.js:18-20 | a PDF is recognised by MIME type `application/pdf` or by a name ending in `.pdf` in any case |
| FileHelpers.ImageByTypeOrName | src/utils/fileHelpers.js:25-28 | an image is recognised by one of the six MIME types or one of the six endings |
| FileHelpers.NameCaseIgnored | src/utils/fileHelpers.js:18-28 | lower-casing the name changes neither test |
| FileHelpers.NoFileRejected | src/utils/fileHelpers.js:34-36 | no file gives `No file selected` |
| FileHelpers.TypeCheckedFirst | src/utils/fileHelpers.js:38-43 | an unsupported file gets the type error however large it is |
| FileHelpers.OversizeRejected | src/utils/fileHelpers.js:45-50 | a supported file over the limit gets the size message |
| FileHelpers.SizeBoundary | src/utils/fileHelpers.js:45 | 10485760 bytes are accepted and 10485761 are not |
| FileHelpers.UnsupportedLabel | src/utils/fileHelpers.js:41 | the message names the MIME type, or when it is empty the text after the last `.` of the name, or the whole name |
| FileHelpers.MbTenthsNearest | src/utils/fileHelpers.js:46 | the printed MB figure is the size in MB to the nearest tenth |
| FileHelpers.JustOverLimitMessage | src/utils/fileHelpers.js:45-50 | worked example: one byte over the limit is reported as 10.0 MB (the general fact is `FileHelpers.MbTenthsNearest`) |
| GeminiService.CleanPath | src/services/geminiService.js:4 | the clean path starts with `/` and ends with the path, adding at most one character |
| GeminiService.DropTrailingSlash | src/services/geminiService.js:6 | the base is kept or loses exactly one trailing `/` |
| GeminiService.BuildApiUrl | src/services/geminiService.js:3-7 | the URL ends with the path |
| GeminiService.BuildApiUrlWithoutBase | src/services/geminiService.js:4-5 | without a base the URL is the path, with `/` added only when missing |
| GeminiService.BuildApiUrlWithBase | src/services/geminiService.js:6 | with a base, the URL is the base less at most one trailing `/`, then the clean path |
| GeminiService.CleanPathIdempotent | src/services/geminiService.js:4 | cleaning a path twice is cleaning it once |
| GeminiService.ApiBaseUrlTrimmed | src/services/geminiService.js:1 | the base URL is trimmed, and "" when unset |
| GeminiService.MapStatusToMessage | src/services/geminiService.js:9-18 | the message is never empty |
| GeminiService.StatusTable | src/services/geminiService.js:10-16 | 400, 404, 405, 413 and 429 each have a fixed message, 401 and 403 share one, and every status from 500 up gets the server-error message |
| GeminiService.FallbackIgnoredInTable | src/services/geminiService.js:9-16 | for a status of the table the fallback plays no part |
| GeminiService.FallbackUsedOutsideTable | src/services/geminiService.js:17 | outside the table the fallback is the message, or the default when it is empty |
| GeminiService.Classify | src/services/geminiService.js:46-58 | the result is the analysis exactly when the status is ok and the body has an analysis; an error message is never empty |
| GeminiService.Caught | src/services/geminiService.js:59-65 | the rethrown message is never empty |
| GeminiService.Outcome | src/services/geminiService.js:31-65 | an error message is never empty |
| GeminiService.AnalyzeContent | src/services/geminiService.js:25-66 | an error message is never empty |
| GeminiService.CaughtIgnoresCase | src/services/geminiService.js:60-61 | the network test ignores letter case |
| GeminiService.CaughtKeeps | src/services/geminiService.js:64 | any other non-empty message passes through unchanged |
| GeminiService.TextSentTrimmed | src/services/geminiService.js:26-35 | text that is not blank is sent trimmed, and the outcome is the reply's |
| GeminiService.BlankTextRejected | src/services/geminiService.js:26-29 | empty or whitespace-only text is refused before any request, bypassing the catch block |
| GeminiService.TrimmedTextSent | src/services/geminiService.js:26-35 | only the trimmed text reaches the server |
| GeminiService.TrimmedTextSame | src/services/geminiService.js:26 | trimming the text beforehand changes nothing |
| GeminiService.OutcomeOfReply | src/services/geminiService.js:46-65 | what the try block throws is what the catch block rewords; a success is returned as it is |
| GeminiService.NotFoundWithoutPayload | src/services/geminiService.js:47-48 | a 404 without a usable body gives the `Restart "npm run dev"` message |
| GeminiService.OkWithoutAnalysisRejected | src/services/geminiService.js:54-56 | an ok status whose body has no analysis is refused |
| GeminiService.OkWithAnalysis | src/services/geminiService.js:54-58 | an ok status whose body has an analysis returns it |
| GeminiService.TableStatusOverridesServerError | src/services/geminiService.js:50-51 | for a failing status of the table the server's own `error` text is replaced by the table message |
| GeminiService.OtherStatusKeepsServerError | src/services/geminiService.js:50-51 | for a failing status outside the table the server's `error` text is the message, and the default when there is none |
| GeminiService.UnreachableOutcome | src/services/geminiService.js:59-64 | a network failure becomes the unreachable-server message; any other rejection keeps its message |
| Strings.Trim | api/analyze.js:171 | `trim()` leaves no whitespace at either end and never lengthens |
| Strings.TrimEmptyIffBlank | src/services/pdfService.js:15 | `trim()` gives "" exactly when the text is whitespace only |
| Strings.TrimIdempotent | src/services/geminiService.js:1 | trimming twice is trimming once |
| Strings.Collapse | src/services/pdfService.js:35 | `replace(/\s+/g, ' ')` never lengthens, keeps "" and non-empty apart, and keeps whether the text starts with whitespace |
| Strings.CollapsePlain | src/services/pdfService.js:35 | after the replace, every whitespace character is a single plain space |
| Strings.WordsCollapse | src/services/pdfService.js:35 | the replace keeps every word |
| Strings.CollapseTrim | src/services/pdfService.js:34-36 | collapsing then trimming gives the words joined by single spaces |
| Strings.WordsJoin | src/services/pdfService.js:34 | `join(' ')` keeps the words of every part, in order |
| Strings.PlainSpacingNoBreak | src/services/pdfService.js:35-36 | a singly spaced text holds no line break |
| Strings.IndexOfFirst | api/analyze.js:86 | `indexOf` finds the first occurrence, and -1 means there is none |
| Strings.LastIndexOfLast | api/analyze.js:87 | `lastIndexOf` finds the last occurrence, and -1 means there is none |
| Strings.SplitFirst | api/analyze.js:50 | `split(',')[0]` is the text before the first `,`, or all of it |
| Strings.SplitLast | src/utils/fileHelpers.js:41 | `split('.').pop()` is the text after the last `.`, or all of it |
| Strings.SplitJoin | src/services/pdfService.js:39 | splitting lines joined by `\n`, none of which holds a `\n`, gives them back |
| Strings.JoinSplit | src/services/pdfService.js:39 | joining the parts of a split gives the text back |
| Strings.ContainsIndexOf | api/analyze.js:96 | `includes` holds exactly when `indexOf` finds the pattern |
| Strings.ToLower | api/analyze.js:95 | the model's lowering leaves no A–Z letter and no Kelvin sign, turns each A–Z letter into its a–z counterpart 32 code points on and the Kelvin sign into 'k', keeps every other character, and keeps the length |
| Strings.ToLowerIdempotent | api/analyze.js:95 | lower-casing twice is lower-casing once |
| Strings.TrimEach | api/analyze.js:75 | `map(name => name.trim())` gives one name per input, each trimmed and with the same words as the input name |
| Strings.TrimEachTrimmed | api/analyze.js:75 | trimming names that are already trimmed changes nothing |
| Strings.NonEmptyOnlyKeeps | src/services/pdfService.js:38 | `filter(Boolean)` keeps exactly the non-empty strings in order, and all of them when none is empty |
| Strings.NatToStringRoundTrip | src/services/pdfService.js:60 | the decimal rendering of a page number reads back as that number |
| Strings.BetweenWrapped | api/analyze.js:138-141 | text wrapped in a head and a tail is recovered exactly |
| Sequences.StableSortCorrect | src/services/pdfService.js:32 | the sort by x is a permutation and is sorted |
| Sequences.StableSortKeepsOrder | src/services/pdfService.js:32 | items with equal x keep their input order: the sort is stable |
| Sequences.StableSortMembers | src/services/pdfService.js:32 | sorting keeps exactly the same elements |
| Sequences.StableSortDistinct | src/services/pdfService.js:29 | sorting distinct keys keeps them distinct |
| Sequences.StrictlyDescendingUnique | src/services/pdfService.js:28-29 | two strictly descending lists with the same elements are equal |
| Sequences.Dedup | api/analyze.js:72-78 | `Array.from(new Set(s))` is duplicate-free, has the same elements, and keeps the first |
| Sequences.DedupFirstOccurrenceOrder | api/analyze.js:72-78 | the kept elements appear in the order of their first occurrences |

## Left out

- The React UI, the OCR wrapper around tesseract.js and the dev-server
  configuration are not part of this model. They are rendering, foreign
  calls and routing.
- pdf.js calls: loading the document and each page's items (`getDocument`,
  `getPage`, `getTextContent`) and the worker setup are foreign. Each page
  arrives as its items or as the failure loading it met.
- The `onProgress` callback is modelled as the sequence of values it would
  receive. Calling without a callback only drops those values.
- `console.error` in the PDF error path is output only.
- Server I/O in the endpoint:
  - `sendJson` becomes the `Answer` value.
  - The `Cache-Control` header is not modelled.
  - `readRawBody` and `parseRequestBody` become the `Body` value. Any failure
    there, including the 1,000,000-character body limit, is `Unparseable`,
    which the handler answers with 400.
  - A JSON `null` body makes `requestBody.text` throw outside any `try`. The
    model answers `Uncaught` and does not model what the hosting platform
    then sends.
- The Gemini SDK, `JSON.parse` and `fetch` are foreign. They are the
  functions `generate`, `parse` and `server`. The response body of `fetch`
  is given already parsed, as `Payload`.
- `Date.now()` and `process.env` are parameters. The `Number(...)`
  conversion of the rate-limit settings is not modelled: they arrive as
  integers.
- `globalThis` persistence of the buckets is the `RateLimiter` object kept
  by its caller.
- Floating point:
  - `Math.round` and the progress ratio are computed on exact rationals, not
    doubles.
  - Item coordinates are reals; NaN and infinities are not modelled.
  - The `toFixed(1)` figure is exact for these integer sizes, since a size
    divided by 2^20 is exact in a double.
- `formatFileSize` is not modelled (logarithms and `toFixed` on doubles).
  It is display-only and not used by validation.
- `ALL_SUPPORTED_TYPES`, `ACCEPTED_EXTENSIONS` and `isApiKeyConfigured` are
  plain constants with no behaviour to state. The last one always returns
  true.
- Unicode: strings are sequences of UTF-16 code units.
- Strings.ToLower: lowers only the ASCII letters and the Kelvin sign, the
  only characters whose lower case is ASCII, code unit by code unit.
  JavaScript's `toLowerCase` also lowers other scripts and can lengthen a
  string (U+0130 becomes two code units). Keeping the other characters
  decides the same substring and suffix tests, since every pattern the
  application looks for is ASCII.
- ApiErrors.MapApiError: its contract does not state that the non-404
  messages are the four fixed texts. `ErrorText` gives them by status and
  `MapApiErrorFirstMatch` states the status.
- GeminiService.MapStatusToMessage: its own contract only promises a
  non-empty message. `StatusTable`, `FallbackIgnoredInTable` and
  `FallbackUsedOutsideTable` state each branch.
- GeminiService.Outcome: its own contract only promises a non-empty error.
  `OutcomeOfReply` and `UnreachableOutcome` state its branches.
- GeminiService.AnalyzeContent: its own contract only promises a non-empty
  error. `TextSentTrimmed` and `BlankTextRejected` state its branches.
- ApiErrors.ErrorStatus: its own contract only bounds the status.
  `MapApiErrorFirstMatch` and the four rule lemmas state which status is
  chosen.
- AnalyzeEndpoint.NoModelAvailable: stated for any outcomes of the
  candidates, so the prompt and the SDK do not appear in it.
  `AcceptedTextRunsModels` links an accepted text to those candidates and
  outcomes.
