# EvoSecurity verification pipeline in Dafny

EvoSecurity is an Android app that checks links and files against a
reputation service before the user opens them, and shows a feed of security
news. This project models its fail-closed verification pipeline and the
text logic around it as pure Dafny functions over immutable datatypes, and
proves what the code promises about them.

- **Verdicts** (`Verdict`): the eight scan counters, the `isSafe` gate and
  the first-match threat level.
- **Service client** (`Remote`): `checkUrl` (submit, wait, retrieve) and
  `checkFileHash`. Every remote call is a scripted reply: a success whose
  body may be `null`, an HTTP failure, or a thrown fault. Each check returns
  the trace of calls it made.
- **Hex encoding** (`Hex`): the `"%02x"` rendering of the SHA-256 digest in
  `generateFileHash`, with a decoder as its partner.
- **Orchestrator** (`Repository`): covers four operations.
  - `checkFileOrUrl` dispatches a request and maps service answers to results.
  - `buildThreatList` renders the threat lines.
  - `determineSeverity` classifies news by keyword.
  - `addSecurityNews` inserts an item into the sorted feed.
- **Link interceptor** (`Interceptor`): `validateWithService` and the
  loading / open / block routing of `onCreate`.
- **Checker panel** (`FileChecker`): covers the panel's small decision rules.
  - The URL submit guard and URL trimming.
  - File-request construction and `computeFileHash`.
  - The result popup's title and action buttons.
  - `https://` prefixing.
  - The panel's state across a sequence of clicks.
- **RSS reading** (`Html`, `RssParser`): covers the feed parser.
  - `cleanHtml`: entity decoding, tag stripping, whitespace collapsing, trimming.
  - The `parseXml` event loop over pull-parser events.
  - `RssItemBuilder.build`.

`Text` models the Kotlin standard-library operations the code relies on:
`isWhitespace`, `trim`, `isBlank`, `lowercase`, `contains`, `startsWith`,
`replace` and decimal rendering. `Options` is the `null`-able value and
`Model` holds the shared records.

Behaviours of the code that the model keeps as they are:

- `checkFileOrUrl` tests the URL first, so a URL wins over a hash when both are
  present.
- A request is dispatched on `null` tests only. An empty URL or hash is sent
  to the service and is not rejected as invalid.
- The submission's analysis id is tested only for `null`. An empty id is
  passed to the retrieval call (`Remote.EmptyIdIsRetrieved`).
- The "Invalid request" result carries the engine name "Security Engine".

Inputs the code obtains from the platform are parameters of the model:

- the SHA-256 digest function;
- the date parser;
- the current time used for an undated item;
- the outcome of reading a picked file.

## Model

| member | source | states |
|---|---|---|
| Verdict.MaliciousIsHigh | EvoSecurity/app/src/main/java/com/evo/security/model/SecurityAnalysisResponse.kt:17-19 | The level is HIGH exactly when the malicious count is positive, whatever the other counters are. |
| Verdict.SuspiciousIsMedium | EvoSecurity/app/src/main/java/com/evo/security/model/SecurityAnalysisResponse.kt:17-20 | The level is MEDIUM exactly when malicious is not positive and suspicious is. |
| Verdict.FailureIsUnknown | EvoSecurity/app/src/main/java/com/evo/security/model/SecurityAnalysisResponse.kt:17-21 | The level is UNKNOWN exactly when neither flag count is positive and a failure or timeout count is. |
| Verdict.NothingFlaggedIsSafe | EvoSecurity/app/src/main/java/com/evo/security/model/SecurityAnalysisResponse.kt:17-23 | The level is SAFE exactly when none of malicious, suspicious, failure and timeout is positive. |
| Verdict.GateAgreesWithLevel | EvoSecurity/app/src/main/java/com/evo/security/model/SecurityAnalysisResponse.kt:13-24 | For non-negative counters, `isSafe` holds exactly when the level is SAFE or UNKNOWN. |
| Verdict.NegativeCountFailsClosed | EvoSecurity/app/src/main/java/com/evo/security/model/SecurityAnalysisResponse.kt:13-24 | Any negative malicious count fails the `== 0` gate. The level still reads SAFE for it exactly when suspicious, failure and timeout are all non-positive. |
| Verdict.IgnoredCountersIrrelevant | EvoSecurity/app/src/main/java/com/evo/security/model/SecurityAnalysisResponse.kt:3-24 | `undetected`, `harmless`, `confirmed_timeout` and `type_unsupported` affect neither verdict. |
| Remote.CheckUrl | EvoSecurity/app/src/main/java/com/evo/security/service/VirusTotalService.kt:18-69 | The submission is always the first call. A retrieval follows exactly when the submission returned an id, and it uses that id. A result exists only if that retrieval delivered it. |
| Remote.CheckHash | EvoSecurity/app/src/main/java/com/evo/security/service/VirusTotalService.kt:71-100 | Exactly one call, to the hash endpoint with the given hash. The result is the delivered body, or `null` on failure. |
| Remote.SubmitFailureStops | EvoSecurity/app/src/main/java/com/evo/security/service/VirusTotalService.kt:27-33 | A failed or throwing submission yields `null` and no retrieval. |
| Remote.MissingIdStops | EvoSecurity/app/src/main/java/com/evo/security/service/VirusTotalService.kt:35-39 | A successful submission with no body or no id yields `null` and no retrieval. |
| Remote.EmptyIdIsRetrieved | EvoSecurity/app/src/main/java/com/evo/security/service/VirusTotalService.kt:35-47 | An empty analysis id is not rejected: it is passed to the retrieval as it is. |
| Remote.RetrievalDecides | EvoSecurity/app/src/main/java/com/evo/security/service/VirusTotalService.kt:47-55 | After a submission that returned an id, the result is the retrieval's body (possibly `null`) on success, else `null`. |
| Remote.FaultsAbsorbed | EvoSecurity/app/src/main/java/com/evo/security/service/VirusTotalService.kt:56-68 | A fault in either phase, or in the hash lookup, yields `null`. Different fault kinds give the same outcome. |
| Remote.EndpointsSeparate | EvoSecurity/app/src/main/java/com/evo/security/service/VirusTotalService.kt:18-100 | The URL protocol never calls the hash endpoint, and the hash lookup calls nothing else. |
| Hex.GenerateFileHash | EvoSecurity/app/src/main/java/com/evo/security/service/VirusTotalService.kt:102-106 | The hash has two characters per digest byte, all lower-case hex digits. |
| Hex.EncodeHexNibbles | EvoSecurity/app/src/main/java/com/evo/security/service/VirusTotalService.kt:105 | Byte k becomes characters 2k and 2k+1: the high then the low nibble of its unsigned value. |
| Hex.Sha256HashLength | EvoSecurity/app/src/main/java/com/evo/security/service/VirusTotalService.kt:103-105 | A 32-byte SHA-256 digest gives a 64-character hash. |
| Hex.DecodeEncodeHex | EvoSecurity/app/src/main/java/com/evo/security/service/VirusTotalService.kt:105 | Decoding the hex text gives back the digest bytes. |
| Hex.EncodeHexInjective | EvoSecurity/app/src/main/java/com/evo/security/service/VirusTotalService.kt:105 | Different digests give different hash strings. |
| Repository.BuildThreatList | EvoSecurity/app/src/main/java/com/evo/security/repository/SecurityRepository.kt:142-155 | At most two lines, one for each positive count, the malicious line first. The list is empty exactly when neither count is positive. |
| Repository.ThreatLineCount | EvoSecurity/app/src/main/java/com/evo/security/repository/SecurityRepository.kt:146-152 | The number printed in the malicious line and in the suspicious line reads back as the count each was built from. |
| Repository.Conclude | EvoSecurity/app/src/main/java/com/evo/security/repository/SecurityRepository.kt:84-99 | Safe only for real counters that pass the gate. `null` gives the "API unavailable" result with the failed engine. An exception gives "Scan error: " plus the message, with the error engine. |
| Repository.CheckFileOrUrl | EvoSecurity/app/src/main/java/com/evo/security/repository/SecurityRepository.kt:78-139 | A URL starts with a submission. With no URL, a hash gives exactly one hash lookup. With neither, the result is "Invalid request" and no call is made. |
| Repository.FailClosed | EvoSecurity/app/src/main/java/com/evo/security/repository/SecurityRepository.kt:78-139 | Safe only if counters were obtained with no malicious and no suspicious count. Obtained counters give exactly their verdict. With no counters obtained, the result is exactly the "API unavailable" result with the failed engine, or the "Invalid request" result when the request names neither a URL nor a hash. |
| Repository.ErrorPathUnreachable | EvoSecurity/app/src/main/java/com/evo/security/repository/SecurityRepository.kt:132-139 | The service absorbs every fault, so the scan-error result never occurs. |
| Repository.UrlBeforeHash | EvoSecurity/app/src/main/java/com/evo/security/repository/SecurityRepository.kt:80-104 | With both a URL and a hash, the hash endpoint is never called. |
| Repository.ServiceFailureResult | EvoSecurity/app/src/main/java/com/evo/security/repository/SecurityRepository.kt:81-121 | Every way a URL or hash check can end without counters gives the fixed "API unavailable" result with the failed engine. That covers a failed, throwing or id-less submission, a failed, throwing or empty retrieval, and a failed, throwing or empty hash lookup. |
| Repository.AnyContains | EvoSecurity/app/src/main/java/com/evo/security/repository/SecurityRepository.kt:193-204 | A keyword group matches exactly when one of its words occurs in the text. |
| Repository.SeverityIsStrongestKeyword | EvoSecurity/app/src/main/java/com/evo/security/repository/SecurityRepository.kt:189-207 | The first-match cascade equals the strongest severity among all keywords present in the lower-cased text, and LOW if none is. |
| Repository.SeverityMonotone | EvoSecurity/app/src/main/java/com/evo/security/repository/SecurityRepository.kt:189-207 | Appending text to the description never lowers the severity. |
| Repository.SortByDescending | EvoSecurity/app/src/main/java/com/evo/security/repository/SecurityRepository.kt:160 | The sort returns a permutation of its input, ordered by descending timestamp. |
| Repository.AddSecurityNewsSpec | EvoSecurity/app/src/main/java/com/evo/security/repository/SecurityRepository.kt:157-161 | The new list is one longer, holds the new item and every old one with multiplicity, and is newest first. |
| Repository.SortSorted | EvoSecurity/app/src/main/java/com/evo/security/repository/SecurityRepository.kt:160 | The sort leaves an already sorted list unchanged. |
| Repository.AddToSortedNews | EvoSecurity/app/src/main/java/com/evo/security/repository/SecurityRepository.kt:157-161 | On a sorted feed, the item lands after the strictly newer entries and before the rest, ties included. Nothing else moves. |
| Interceptor.ValidateWithService | EvoSecurity/app/src/main/java/com/evo/security/LinkInterceptorActivity.kt:77-98 | `true` only for real counters that pass the gate. Real counters give exactly their gate verdict. `null` and exceptions give `false`. |
| Interceptor.OnCreate | EvoSecurity/app/src/main/java/com/evo/security/LinkInterceptorActivity.kt:42-60 | A missing URL finishes the activity. Otherwise the activity starts loading with no verdict. |
| Interceptor.NoUrlFinishes | EvoSecurity/app/src/main/java/com/evo/security/LinkInterceptorActivity.kt:46-49 | Without a URL nothing is shown and no service call is made. |
| Interceptor.LoadingShowsDialog | EvoSecurity/app/src/main/java/com/evo/security/LinkInterceptorActivity.kt:62-65 | While loading, the loading dialog is shown, whatever verdict is stored. |
| Interceptor.RoutingGates | EvoSecurity/app/src/main/java/com/evo/security/LinkInterceptorActivity.kt:62-72 | The browser chooser appears only for a settled `true`. Every other settled state shows the block screen. |
| Interceptor.InterceptFailClosed | EvoSecurity/app/src/main/java/com/evo/security/LinkInterceptorActivity.kt:51-98 | The loading dialog comes first. The browser chooser follows exactly when counters that pass the gate were obtained; otherwise the block screen follows. |
| Interceptor.AgreesWithRepository | EvoSecurity/app/src/main/java/com/evo/security/LinkInterceptorActivity.kt:81-97 | On the same replies, the interceptor and the checker reach the same verdict for a URL. |
| FileChecker.ComputeFileHash | EvoSecurity/app/src/main/java/com/evo/security/ui/components/FileCheckerModule.kt:401-415 | A hash exists exactly when the file could be opened and read. It has two characters per digest byte and decodes back to the digest. |
| FileChecker.CheckUrlEnabled | EvoSecurity/app/src/main/java/com/evo/security/ui/components/FileCheckerModule.kt:100 | The "Check URL" button is enabled exactly when no check is running and the input would issue a request (is non-blank). |
| FileChecker.UrlSubmission | EvoSecurity/app/src/main/java/com/evo/security/ui/components/FileCheckerModule.kt:94-97 | A URL check is issued exactly for non-blank input. It carries the trimmed URL and no file name, uri or hash. |
| FileChecker.SubmittedUrlTrimmed | EvoSecurity/app/src/main/java/com/evo/security/ui/components/FileCheckerModule.kt:94-97 | A submitted URL is non-empty, with no whitespace at either end. |
| FileChecker.FileSubmission | EvoSecurity/app/src/main/java/com/evo/security/ui/components/FileCheckerModule.kt:147-167 | A file check is issued exactly when a file is selected and its hash could be computed. It carries the name, the uri and the hash. |
| FileChecker.PopupTitleCases | EvoSecurity/app/src/main/java/com/evo/security/ui/components/FileCheckerModule.kt:280-289 | "Threat Detected" exactly for unsafe results. "This file is safe" exactly for safe results whose request has a hash or a uri. "This link is safe" exactly for the other safe results, including those with no request. |
| FileChecker.ActionGates | EvoSecurity/app/src/main/java/com/evo/security/ui/components/FileCheckerModule.kt:323-368 | "Browser" exactly for a safe result of a request with a non-blank URL and neither hash nor file uri. "Delete File" exactly for an unsafe result with a file uri. Never both. |
| FileChecker.UrlToOpen | EvoSecurity/app/src/main/java/com/evo/security/ui/components/FileCheckerModule.kt:331-335 | The opened URL always has a web scheme. A URL with one is unchanged; otherwise `https://` is prepended. |
| FileChecker.UrlToOpenIdempotent | EvoSecurity/app/src/main/java/com/evo/security/ui/components/FileCheckerModule.kt:331-335 | Preparing a prepared URL changes nothing. |
| FileChecker.IssuedWellFormed | EvoSecurity/app/src/main/java/com/evo/security/ui/components/FileCheckerModule.kt:92-173 | Over any click sequence, each request issued is a non-empty URL alone, or a uri with a hash and no URL. |
| FileChecker.LastRequestTracksIssued | EvoSecurity/app/src/main/java/com/evo/security/ui/components/FileCheckerModule.kt:92-173 | The corrected panel state always holds the most recently issued request. |
| FileChecker.PopupRequestAsWritten | EvoSecurity/app/src/main/java/com/evo/security/ui/components/FileCheckerModule.kt:248-255 | The popup describes the last checked URL whenever there was one. Otherwise it describes the selected file by name and uri, with no hash and no URL, and there is no request when no file is selected either. |
| FileChecker.StaleUrlPopupAfterFileCheck | EvoSecurity/app/src/main/java/com/evo/security/ui/components/FileCheckerModule.kt:248-255 | Check a URL, then a file whose result is safe. The popup as written calls it a safe link and offers "Browser" for the old URL. |
| FileChecker.BrowserOnlyForLastCheckedUrl | EvoSecurity/app/src/main/java/com/evo/security/ui/components/FileCheckerModule.kt:248-324 | With the corrected popup, "Browser" is offered only when the latest request was for exactly that URL. A safe file result is titled as a file. |
| Html.EscapedAmpDecoded | EvoSecurity/app/src/main/java/com/evo/security/service/RssParserService.kt:120-124 | An escaped ampersand survives the first three passes and is decoded by the fourth. |
| Html.EscapedLtDecodedOnce | EvoSecurity/app/src/main/java/com/evo/security/service/RssParserService.kt:120-124 | `&amp;lt;` decodes to `&lt;` and no further: passes do not revisit their output. |
| Html.EscapedAposDecodedTwice | EvoSecurity/app/src/main/java/com/evo/security/service/RssParserService.kt:120-124 | `&amp;apos;` decodes all the way to a quote, because `&apos;` is decoded after `&amp;`. |
| Html.DecodedHasNoApos | EvoSecurity/app/src/main/java/com/evo/security/service/RssParserService.kt:124 | No `&apos;` remains after decoding. |
| Html.DecodeEntitiesPlain | EvoSecurity/app/src/main/java/com/evo/security/service/RssParserService.kt:120-124 | Text without `&` is left unchanged by decoding. |
| Html.StripTagsNoTagPair | EvoSecurity/app/src/main/java/com/evo/security/service/RssParserService.kt:126 | After tag removal, no `<` is followed anywhere later by `>`. |
| Html.StripTagsChars | EvoSecurity/app/src/main/java/com/evo/security/service/RssParserService.kt:126 | Tag removal only deletes characters: the output is a subsequence of the input. |
| Html.StripTagsUnclosed | EvoSecurity/app/src/main/java/com/evo/security/service/RssParserService.kt:126 | A `<` with no `>` after it is not a tag: text in which no `<` is followed by a `>` is kept whole. |
| Html.StripTagsRemovesTag | EvoSecurity/app/src/main/java/com/evo/security/service/RssParserService.kt:126 | The first tag `<…>` is removed, the text before it is kept, and stripping continues after it. |
| Html.StripTagsPlain | EvoSecurity/app/src/main/java/com/evo/security/service/RssParserService.kt:126 | Text without `<` is left unchanged by tag removal. |
| Html.CollapseSpaces | EvoSecurity/app/src/main/java/com/evo/security/service/RssParserService.kt:128 | The output keeps the non-`\s` characters of the input, in order. Its only `\s` are plain spaces, and no two are adjacent. `\s` is the Android (ICU) class: tab, line feed, form feed, carriage return and every Unicode separator. |
| Html.CollapseIsSqueeze | EvoSecurity/app/src/main/java/com/evo/security/service/RssParserService.kt:128 | Collapsing whole runs equals the character-at-a-time reading: the first `\s` of each run becomes a space, the rest of the run is dropped, other characters are copied. |
| Html.CollapseNoTagPair | EvoSecurity/app/src/main/java/com/evo/security/service/RssParserService.kt:126-128 | Collapsing whitespace keeps a text free of `<`…`>` pairs. |
| Html.CollapsePlain | EvoSecurity/app/src/main/java/com/evo/security/service/RssParserService.kt:128 | Text whose whitespace is single plain spaces is left unchanged. |
| Html.CleanHtmlIsClean | EvoSecurity/app/src/main/java/com/evo/security/service/RssParserService.kt:117-130 | The output has no whitespace at either end. Its only `\s` are single plain spaces, and no `<` is followed by `>`. |
| Html.CleanHtmlKeepsCleanText | EvoSecurity/app/src/main/java/com/evo/security/service/RssParserService.kt:117-130 | Clean text without `&` or `<` comes out unchanged. |
| RssParser.Build | EvoSecurity/app/src/main/java/com/evo/security/service/RssParserService.kt:138-149 | An item exists exactly when title and description are both non-empty. Fields are copied, a missing date becomes the build time, and the source is "RSS Feed". |
| RssParser.RunAppendsItems | EvoSecurity/app/src/main/java/com/evo/security/service/RssParserService.kt:54-88 | Items are only appended, at most one per closing `item` tag. |
| RssParser.NoClosedItemNoOutput | EvoSecurity/app/src/main/java/com/evo/security/service/RssParserService.kt:77-83 | A document with no closing `item` tag yields no items, even if an item was opened. |
| RssParser.StopEndsRun | EvoSecurity/app/src/main/java/com/evo/security/service/RssParserService.kt:54-93 | Nothing after the end of the document or a parse error is read. Items collected before it are kept. |
| RssParser.TextIgnored | EvoSecurity/app/src/main/java/com/evo/security/service/RssParserService.kt:63-85 | Text is dropped in three cases: outside an item, when null or blank, and right after any closing tag. |
| RssParser.TextStoredByTag | EvoSecurity/app/src/main/java/com/evo/security/service/RssParserService.kt:63-75 | Non-blank text is stored trimmed. Title and description are cleaned, the link is stored raw, and the date is parsed. Other tags store nothing. |
| RssParser.LastTextWins | EvoSecurity/app/src/main/java/com/evo/security/service/RssParserService.kt:63-75 | For every current tag, a later non-blank text replaces an earlier one: the result is as if only the later text had been read. |
| RssParser.ItemStartDiscards | EvoSecurity/app/src/main/java/com/evo/security/service/RssParserService.kt:56-61 | An `item` start tag in any case starts a fresh builder and discards the open one. |
| RssParser.ItemsOnlyAtItemEnd | EvoSecurity/app/src/main/java/com/evo/security/service/RssParserService.kt:77-85 | The item list changes only at a closing `item` tag while an item is open, and then by exactly the built item. The builder is then cleared. |
| RssParser.ParsedItemsWellFormed | EvoSecurity/app/src/main/java/com/evo/security/service/RssParserService.kt:41-150 | Each parsed item has a non-empty clean title and description, a trimmed link if any, a date, and source "RSS Feed". |
| RssParser.ParseFeedRoundTrip | EvoSecurity/app/src/main/java/com/evo/security/service/RssParserService.kt:41-150 | A document written from undated items with clean text parses back to exactly those items. |
| Text.Trim | EvoSecurity/app/src/main/java/com/evo/security/service/RssParserService.kt:65 | `trim` removes the leading and trailing whitespace and keeps the infix between them. Its result is empty exactly for blank text. |
| Text.TrimIdempotent | EvoSecurity/app/src/main/java/com/evo/security/ui/components/FileCheckerModule.kt:95 | Trimming twice is trimming once. |
| Text.Contains | EvoSecurity/app/src/main/java/com/evo/security/repository/SecurityRepository.kt:193 | `contains` holds exactly when the word occurs at some position. |
| Text.ReplaceAllRemoves | EvoSecurity/app/src/main/java/com/evo/security/service/RssParserService.kt:124 | Replacing a pattern by a character not in it leaves no occurrence of the pattern. |
| Text.ParseDecimalString | EvoSecurity/app/src/main/java/com/evo/security/repository/SecurityRepository.kt:146-149 | The decimal text of a count parses back to the count. |

## Left out

- Transport and platform code is not part of this model. That covers the
  Retrofit/OkHttp client and its TLS setup, the three endpoints' wire
  formats, `getApi()` itself failing, the RSS HTTP fetch (`parseRssFeed`),
  network-interface queries, notifications, `MainActivity`, and all
  Compose rendering, theming and navigation. The endpoints appear only as
  scripted replies.
- SHA-256 (`MessageDigest`) is a parameter `digest`. Only the hex rendering is
  modelled.
- `delay(1000)`, coroutine dispatch and StateFlow emission have no observable
  effect on results. They are not modelled.
- XmlPullParser tokenisation is not modelled: a document is the list of events
  the pull parser would deliver. An empty list stands for the end of input.
- `parseDate` (SimpleDateFormat) is a parameter. `Date()` is a parameter `now`,
  which stays fixed across one parse. UUID ids are not modelled.
- `\s` in `Regex("\\s+")` is taken as ICU's class `[\t\n\f\r\p{Z}]`, as
  on Android. A desktop JVM's ASCII class `[ \t\n\x0B\f\r]` is not modelled.
- `lowercase()` folds ASCII letters only, so upper-case non-ASCII keywords
  such as "ALERTĂ" are not folded as Kotlin would fold them.
- The timestamps of `FileCheckRequest` and `FileCheckResult` are omitted
  because the core never reads them. News timestamps are plain integers.
- Counters and counts are unbounded integers. No 32-bit wrap-around is modelled.
  The service's JSON counts fit a Kotlin `Int`.
- The `isLoading` flag of the checker panel disables its buttons while a check
  runs. Clicks are modelled as if every button were enabled. Waiting for the
  result and the `loadSampleNews` / `loadRssNews` feed loading are not modelled.
- RssParser.RunAppendsItems: bounds the item count but does not relate each
  item to its own closing tag. That relation is stated one step at a time by
  `RssParser.ItemsOnlyAtItemEnd`.
- Interceptor.AgreesWithRepository: compares the two callers only on what
  `checkUrl` returns. `checkUrl` absorbs every fault, so neither caller's catch
  block is reached. The catch blocks are stated separately, by
  Interceptor.ValidateWithService and Repository.Conclude.

## Findings

| source | as written | input that shows it | evidently intended | confidence | as-written member | corrected member |
|---|---|---|---|---|---|---|
| EvoSecurity/app/src/main/java/com/evo/security/ui/components/FileCheckerModule.kt:248-255 | The result popup describes `lastCheckedUrl` whenever it is set. A file check never clears it, so after any URL check every later file result is shown as that URL's result. | Type `evil.io` and press "Check URL". Then pick a file and press "Validate File", and let the file's result be safe. The popup says "This link is safe" and offers "Browser" for `evil.io` (lines 281-289, 323-324). | The popup describes the request whose result it shows: the latest request issued. | not executed | FileChecker.StaleUrlPopupAfterFileCheck | FileChecker.BrowserOnlyForLastCheckedUrl |
