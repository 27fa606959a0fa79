# Agentic Researcher: a verified model of its search logic

The Agentic Researcher is a single-page React application. It sends a query to Google's
Gemini model twice:

- once with web-search grounding, asking for a two-section report;
- once in structured-JSON mode, asking for dashboard metrics about that report.

The screen then cuts the report into an executive summary and a deep dive, draws two
charts from the metrics, and lists the de-duplicated web sources the model cited. This
project models that logic in Dafny and proves what it does.

Modules:

- `Wrappers` holds `Option`, standing for JavaScript's `undefined`.
- `Types` holds the records of `types.ts`. JavaScript numbers are `real`s.
- `JsString` holds the string operations the screen relies on: `indexOf`, `split` with a
  string separator, `replace` of the first occurrence by `''`, `substring(0, n)`,
  `trimStart`, `trimEnd` and `trim`. Each is stated with JavaScript's own semantics: a
  split cuts at every occurrence, a replace cuts only the first, and trim drops
  ECMAScript's whitespace and line terminators.
- `Sections` holds the section splitter of the search screen. It also holds the tone
  badge shown for the sentiment score.
- `GeminiService` holds the two service functions.
  - The SDK call is a function parameter `Request -> Outcome<Response>`, where
    `Outcome` is either a returned value or a thrown error.
  - `JSON.parse` is an oracle `string -> Option<TopicAnalytics>`.
  - The prompts are modelled character for character, so the model can state that the
    research prompt carries the headings the splitter looks for.
- `SourceList` holds the filter/map/reduce pipeline that keeps the chunks with web data
  and drops later sources that repeat a URI.
- `Charts` holds the radar points and the bar colours.
- `App` holds the search screen as a class `AppState` with the fields `query`, `status`
  and `result`.
  - A ghost trace records every status the screen is set to. A ghost log records every
    service call it makes.
  - `HandleSearch` performs one search. It takes the outcomes of the two service calls
    as parameters.
  - `SearchWithGemini` performs one search wired to the service functions.
  - Its invariant `Valid` says three things. The trace is a walk of the status machine
    IDLE → SEARCHING → ANALYZING → COMPLETED, where either busy status may go to ERROR.
    The screen is at rest between searches. A result is shown exactly when the last
    search completed.

## Model

| member | source | states |
|---|---|---|
| JsString.IndexOf | App.tsx:32 | `indexOf` finds the pattern exactly when the text contains it, and the index it returns is that of the first occurrence |
| JsString.Split | App.tsx:32 | a split has at least one piece. When the separator is absent the only piece is the whole text. The first piece is the text before the first occurrence. No piece contains the separator |
| JsString.JoinSplit | App.tsx:32 | joining the pieces of a split with the separator gives the text back |
| JsString.SplitSecondPiece | App.tsx:32 | the second piece is the text between the first and second occurrence of the separator, or up to the end when there is no second one |
| JsString.RemoveFirst | App.tsx:33-34 | `replace(pat, '')` leaves a text without `pat` unchanged. Otherwise it cuts out exactly the first occurrence |
| JsString.Prefix | services/geminiService.ts:62 | `substring(0, n)` has length min(\|s\|, n) and is a prefix of `s` |
| JsString.TrimStart | App.tsx:33 | `trimStart` drops only whitespace, and its result does not start with whitespace |
| JsString.TrimEnd | App.tsx:33 | `trimEnd` keeps a prefix and drops only whitespace, and its result does not end with whitespace |
| JsString.TrimStartSplit | App.tsx:33 | the text is the whitespace `trimStart` drops followed by its result |
| JsString.TrimEndSplit | App.tsx:33 | the text is the result of `trimEnd` followed by the whitespace it drops |
| JsString.TrimSpec | App.tsx:33-34 | the text is whitespace, then the result of `trim`, then whitespace |
| JsString.TrimEnds | App.tsx:33-34 | the result of `trim` neither starts nor ends with whitespace |
| JsString.TrimEmpty | App.tsx:16 | `trim` gives the empty string exactly when the text is all whitespace, which is the blank-query guard |
| JsString.TrimIdempotent | App.tsx:33-34 | trimming twice is trimming once |
| JsString.TrimExact | App.tsx:33-34 | trimming a text that does not start or end with whitespace, with whitespace around it, gives that text |
| Sections.Parts | App.tsx:32 | `text.split('SECTION 2:')` always has a first piece, so `parts[0]` is never undefined |
| Sections.SummaryIsLeadingSection | App.tsx:32-33 | the summary is the text before the first "SECTION 2:", with the first "SECTION 1:" and then the first "EXECUTIVE SUMMARY" cut out, and trimmed. The text before the first "SECTION 2:" never contains it |
| Sections.LabelCutMakesMarker | App.tsx:32-33 | the summary itself can contain "SECTION 2:": the text "SECTION SECTION 1:2:" has no marker, yet cutting out its "SECTION 1:" leaves the summary "SECTION 2:" |
| Sections.DeepDiveIsSecondSection | App.tsx:32-34 | with a marker, the deep dive is the piece between the first and second "SECTION 2:" (or the end), with the first "ENHANCED DEEP DIVE" cut out and trimmed. When that is empty the deep dive is the whole text |
| Sections.DeepDiveWithoutMarker | App.tsx:34 | without a "SECTION 2:" marker there is no second piece and the deep dive is the text verbatim |
| Sections.DeepDiveEmpty | App.tsx:34 | the deep dive is empty only when the whole text is |
| Sections.WellFormedSummary | App.tsx:32-33 | for a reply that opens with the first heading, followed by a body without a marker and then "SECTION 2:", the summary is the trimmed body, whatever follows the marker |
| Sections.WellFormedDeepDive | App.tsx:32-34 | for a reply whose only marker opens the second heading, the deep dive is the trimmed body after that heading, provided that body is not blank |
| Sections.WellFormedReply | App.tsx:32-34 | a reply laid out as the research prompt asks splits into exactly its two trimmed bodies |
| Sections.ExampleShape | App.tsx:32-34 | the sample reply "SECTION 1: EXECUTIVE SUMMARY\nFoo\nSECTION 2: ENHANCED DEEP DIVE\nBar" is the two headings with the bodies "\nFoo\n" and "\nBar" |
| Sections.ExampleReply | App.tsx:32-34 | that sample reply gives the summary "Foo" and the deep dive "Bar" |
| Sections.HeadlessReply | App.tsx:32-34 | a reply that contains none of "SECTION 2:", "SECTION 1:" and "EXECUTIVE SUMMARY" is its own deep dive verbatim, and its summary is the reply trimmed |
| Sections.ExampleBlob | App.tsx:32-34 | the sample reply "Just one blob" is both its own summary and its own deep dive |
| Sections.ToneOf | App.tsx:136-140 | the tone is positive exactly above 60, critical exactly below 40 and neutral exactly from 40 to 60, so exactly one applies |
| Sections.ToneLabelsDistinct | App.tsx:140 | the three badge texts differ, so the text shown determines the tone |
| GeminiService.ResearchPromptShape | services/geminiService.ts:15-29 | the research prompt quotes the query verbatim right after the fixed opening that ends `Research the following topic: "`. It contains both section headings and both "SECTION n:" labels the splitter looks for |
| GeminiService.AnalyticsPromptShape | services/geminiService.ts:57-71 | the analytics prompt carries exactly the first min(\|content\|, 8000) characters of the content, right after its fixed opening |
| GeminiService.ResearchText | services/geminiService.ts:39 | the research text is the response text. A missing or empty text gives "No content generated.", so the text is never empty |
| GeminiService.ResearchChunks | services/geminiService.ts:40 | the grounding chunks are those of the first candidate's metadata. Any missing link in that chain gives none |
| GeminiService.GatherAndEnhance | services/geminiService.ts:11-47 | a failing research call is re-thrown with the same error, with no default. A returned response gives its text and chunks with their defaults |
| GeminiService.AnalyticsJson | services/geminiService.ts:101-102 | the JSON text is there exactly when the call returned a non-empty text, and then it is that text |
| GeminiService.GenerateAnalytics | services/geminiService.ts:53-119 | the analytics are the parsed reply, returned unchanged, whenever there is one. Every failure gives the fallback record, so the function never fails |
| GeminiService.AnalyticsFailures | services/geminiService.ts:101-117 | a thrown request, a missing or empty text and a parse error each give exactly the fallback record {50, 80, 50, 2, [("Analysis Failed", 0)]} |
| GeminiService.AnalyticsSeeOnlyPrefix | services/geminiService.ts:62 | two contents with the same first 8000 characters give the same analytics request, and so the same analytics from a given backend |
| GeminiService.RequestsUseSeparateCapabilities | services/geminiService.ts:31-99 | both requests use "gemini-2.5-flash". The research request uses search grounding, and the analytics request uses JSON output with the MIME type "application/json" |
| SourceList.WebSources | components/SourceList.tsx:10-12 | filtering and mapping keep no more sources than there are chunks |
| SourceList.WebSourcesMembers | components/SourceList.tsx:10-12 | a source is kept exactly when it is the web data of some chunk |
| SourceList.WebSourcesAppend | components/SourceList.tsx:10-12 | filtering keeps order, chunk list by chunk list |
| SourceList.FindByUri | components/SourceList.tsx:14 | `find` finds a source exactly when one with that URI is there, and what it finds has that URI |
| SourceList.DedupMembers | components/SourceList.tsx:13-20 | de-duplication outputs no more sources than it gets, each of them one it got |
| SourceList.DedupCovers | components/SourceList.tsx:13-20 | a URI is in the output exactly when it is in the input |
| SourceList.DedupDistinct | components/SourceList.tsx:13-20 | no two output sources share a URI |
| SourceList.DedupFirstWins | components/SourceList.tsx:14-18 | each output source is the first input with its URI, title included |
| SourceList.DedupOrder | components/SourceList.tsx:16 | sources come out in the order in which their URIs first appear |
| SourceList.DedupOfDistinct | components/SourceList.tsx:13-20 | a list whose URIs are already distinct comes out unchanged |
| SourceList.DedupIdempotent | components/SourceList.tsx:13-20 | de-duplicating the output again changes nothing |
| SourceList.WebSourcesEmpty | components/SourceList.tsx:10-12 | no source is kept exactly when no chunk has web data |
| SourceList.DedupEmpty | components/SourceList.tsx:13-20 | de-duplication leaves a list empty exactly when it was empty |
| SourceList.NothingRendered | components/SourceList.tsx:22 | the list renders nothing exactly when no chunk has web data |
| SourceList.ExampleDuplicateUri | components/SourceList.tsx:10-20 | two chunks with one URI and different titles list only the first |
| Charts.Min | components/Charts.tsx:27 | `Math.min` is one of its arguments and at most both |
| Charts.LengthScore | components/Charts.tsx:27 | the Length value is never above 100. It is ten times the reading time when that is at most 100, and 100 otherwise |
| Charts.RadarData | components/Charts.tsx:23-28 | there are four radar points, every one drawn against a full mark of 100, and the Length point is at most 100 |
| Charts.RadarAxes | components/Charts.tsx:23-28 | the axes run Complexity, Relevance, Sentiment, Length. The first three carry the metrics unchanged. Length gives back the reading time up to ten minutes and is 100 from ten minutes on |
| Charts.CellFill | components/Charts.tsx:85 | a cell is violet (#8b5cf6) exactly at even indices and pink (#ec4899) exactly at odd ones |
| Charts.Bars | components/Charts.tsx:84-86 | there is one cell per key topic, each coloured by its index |
| Charts.BarsKeepTopics | components/Charts.tsx:68 | the bar chart draws the key topics unchanged and in their order |
| Charts.BarsAlternate | components/Charts.tsx:84-86 | the first bar is violet and neighbouring bars never share a colour |
| App.CompletedAfterAnalysis | App.tsx:18-43 | in any walk of the status machine, COMPLETED comes right after ANALYZING, which comes right after SEARCHING |
| App.SearchIsWalk | App.tsx:18-46 | from any resting status, a search is a walk of the machine back to a resting status. It ends in ERROR exactly when one of the two calls throws |
| App.ResultIffCompleted | App.tsx:19-43 | a search leaves a result exactly when it ends COMPLETED. A failed search leaves none, because the result is cleared when it starts |
| App.SearchCompletes | App.tsx:23-43 | a search whose calls both return passes through SEARCHING, ANALYZING and COMPLETED. It shows the summary and the deep dive of the research text, with the grounding chunks and the analytics exactly as returned. The deep dive is empty only for an empty text |
| App.SearchWithService | App.tsx:23-46 | wired to the service, a search fails exactly when the research request throws, because the analytics step never throws. A completed search shows the service's analytics of the research text |
| App.AppState.constructor | App.tsx:10-12 | the screen starts with an empty query, IDLE and no result |
| App.AppState.SetQuery | App.tsx:88 | typing changes the query and nothing else |
| App.AppState.HandleSearch | App.tsx:14-48 | a blank query after trimming changes no status and no result and calls nothing. Otherwise the status walk, the result and the calls (the research call, then the analytics call on its text when it returned) are those of one search, and `Valid` is kept |
| App.AppState.SearchWithGemini | App.tsx:14-48 | with the real service behind it, a non-blank search ends in ERROR exactly when the research request throws, and COMPLETED exactly when it returns. Its trace, result and call log are those of one search on the service's outcomes. A blank one changes nothing, and `Valid` is kept |

## Left out

- Rendering is not modelled: JSX, CSS classes, recharts, the lucide icons and `components/Loader.tsx`. They have no behaviour beyond display. The CSS class picked at App.tsx:136-138 uses the same thresholds as the tone label.
- The Gemini client, `process.env.API_KEY` and the network calls are not modelled. Each call is a function parameter returning an outcome.
- `console.error` and `e.preventDefault()` are not modelled; they have no effect on state.
- `JSON.parse` is an oracle that returns `Option<TopicAnalytics>`.
- GeminiService.GenerateAnalytics: the unchecked cast `as TopicAnalytics` is not modelled. A reply that parses to something other than an analytics object (a number, `null`, an object missing fields) is not represented. In the model such a reply is either a parse failure or a well-formed record.
- GeminiService.AnalyticsRequest: of the response schema, only the list of required fields and the MIME type are kept. The property types are not modelled.
- Asynchronous sequencing is not modelled. Each search is one atomic method. The stale-result race when a second search starts while one is in flight is out of scope. So are React's batching of state updates and the disabled input and button while busy (App.tsx:91, 96). `Valid` requires a resting status between searches.
- App.AppState.HandleSearch takes the outcome of the analytics call as a parameter. That outcome is ignored when the research call throws, just as the source never makes that call. `SearchWithGemini` supplies the service's real outcome.
- Strings are sequences of Unicode code points. JavaScript counts UTF-16 code units, so for text outside the Basic Multilingual Plane, GeminiService.AnalyticsPrompt's 8000-character prefix and JsString.Prefix count differently from `substring(0, 8000)`.
- JsString.IsWhitespace is the fixed ECMAScript set: tab, vertical tab, form feed, the byte-order mark, the Unicode Zs characters, line feed, carriage return, and the line and paragraph separators. An engine built on a later Unicode version may add Zs characters.
- JsString.Split requires a non-empty separator. The source only splits on "SECTION 2:", and JavaScript's empty-separator split into single characters is not needed.
- JavaScript numbers are modelled as mathematical reals, without IEEE rounding, NaN or infinities.
- `HistoryItem` in `types.ts` is not modelled; nothing uses it.
