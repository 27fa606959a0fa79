/**
 * The two requests to the generative-AI backend (services/geminiService.ts).
 * The backend is a function from request to outcome, passed in by the caller;
 * `JSON.parse` is a function from text to an optional analytics record. Neither
 * is called for real.
 *
 * The research request asks, with web-search grounding, for a two-section
 * answer about the query; its text defaults to a placeholder and its grounding
 * chunks to none, and any failure propagates. The analytics request sends the
 * first 8000 characters of the text in structured-JSON mode; every failure
 * turns into a fixed fallback record, so it never fails.
 */
module GeminiService {
  import opened Wrappers
  import opened JsString
  import opened Types
  import Sections

  /** A thrown JavaScript error. */
  datatype Error = Error(message: string)

  /** The settlement of an awaited call: a value, or a thrown error. */
  datatype Outcome<+T> = Returned(value: T) | Threw(error: Error)

  /** The two request configurations the service uses. */
  datatype Config =
    | SearchGrounding
    | StructuredJson(responseMimeType: string, requiredFields: seq<string>)

  datatype Request = Request(model: string, contents: string, config: Config)

  datatype GroundingMetadata = GroundingMetadata(groundingChunks: Option<seq<GroundingChunk>>)
  datatype Candidate = Candidate(groundingMetadata: Option<GroundingMetadata>)

  /** The part of the SDK response the service reads. */
  datatype Response = Response(text: Option<string>, candidates: Option<seq<Candidate>>)

  /** What the research step hands on. */
  datatype Research = Research(text: string, groundingChunks: seq<GroundingChunk>)

  type Backend = Request -> Outcome<Response>

  /** `JSON.parse(text) as TopicAnalytics`, with `None` for a parse error. */
  type JsonParser = string -> Option<TopicAnalytics>

  const ModelName := "gemini-2.5-flash"
  const NoContent := "No content generated."
  const AnalysisLimit: nat := 8000

  const ResearchPromptHead :=
    "\n      You are an expert research agent. \n      Research the following topic: \""
  const ResearchIntro :=
    "\".\n      \n      Provide a response in two distinct sections:\n      \n      "
  const ResearchSummaryAsk :=
    "\n      A concise, high-level overview of the topic (approx 100 words).\n      \n      "
  const ResearchDeepDiveAsk :=
    "\n      A structured, easy-to-read detailed explanation. Use bullet points, bold text for key terms, and clear paragraph breaks. \n      Explain complex concepts simply.\n      \n      Ensure the information is accurate and up-to-date based on the search results.\n    "

  const AnalyticsPromptHead :=
    "\n      Analyze the following text and provide structural metrics for a dashboard.\n      \n      Text to analyze:\n      \"\"\"\n      "
  const AnalyticsPromptTail :=
    " \n      \"\"\"\n      \n      Return a JSON object with:\n      1. complexity: A score 0-100 (0=Simple, 100=Academic/Dense).\n      2. relevance: A score 0-100 indicating how information-dense the text is.\n      3. sentiment: A score 0-100 (0=Negative, 50=Neutral, 100=Positive).\n      4. readingTimeMinutes: Estimated reading time (number).\n      5. keyTopics: An array of exactly 5 objects, each having a \"name\" (string) and \"value\" (number 0-100) representing the prominence of sub-themes.\n    "

  const AnalyticsFields := ["complexity", "relevance", "sentiment", "readingTimeMinutes", "keyTopics"]

  /** What `generateAnalytics` returns whenever it cannot return the parsed reply. */
  const FallbackAnalytics := TopicAnalytics(50.0, 80.0, 50.0, 2.0, [KeyTopic("Analysis Failed", 0.0)])

  /** The template literal of the research request, with the query in its quotes. */
  function ResearchPrompt(query: string): string {
    ResearchPromptHead + query + ResearchIntro + Sections.SectionOneHeading
    + ResearchSummaryAsk + Sections.SectionTwoHeading + ResearchDeepDiveAsk
  }

  function ResearchRequest(query: string): Request {
    Request(ModelName, ResearchPrompt(query), SearchGrounding)
  }

  function AnalyticsPrompt(content: string): string {
    AnalyticsPromptHead + Prefix(content, AnalysisLimit) + AnalyticsPromptTail
  }

  function AnalyticsRequest(content: string): Request {
    Request(ModelName, AnalyticsPrompt(content), StructuredJson("application/json", AnalyticsFields))
  }

  /** `pat` sits between `a` and `b`. */
  lemma OccursBetween(a: string, pat: string, b: string)
    ensures OccursAt(a + pat + b, pat, |a|)
  {
    assert (a + pat + b)[|a|..|a| + |pat|] == pat;
  }

  /**
   * The research prompt quotes the query verbatim, right after the fixed
   * opening `...Research the following topic: "`, and carries both section
   * headings the splitter looks for.
   */
  lemma ResearchPromptShape(query: string)
    ensures OccursAt(ResearchPrompt(query), query, |ResearchPromptHead|)
    ensures Contains(ResearchPrompt(query), Sections.SectionOneHeading)
    ensures Contains(ResearchPrompt(query), Sections.SectionTwoHeading)
    ensures Contains(ResearchPrompt(query), Sections.SectionOneLabel)
    ensures Contains(ResearchPrompt(query), Sections.SectionTwoLabel)
  {
    var h1, h2 := Sections.SectionOneHeading, Sections.SectionTwoHeading;
    SevenPieces(ResearchPromptHead, query, ResearchIntro, h1, ResearchSummaryAsk, h2, ResearchDeepDiveAsk);
    var i1 := |ResearchPromptHead| + |query| + |ResearchIntro|;
    var i2 := i1 + |h1| + |ResearchSummaryAsk|;
    HeadingLabel(ResearchPrompt(query), Sections.SectionOneLabel, Sections.SummaryLabel, i1);
    HeadingLabel(ResearchPrompt(query), Sections.SectionTwoLabel, Sections.DeepDiveLabel, i2);
  }

  /** Where a heading `tag + " " + title` occurs, both it and its tag are contained. */
  lemma HeadingLabel(s: string, tag: string, title: string, i: nat)
    requires OccursAt(s, tag + " " + title, i)
    ensures Contains(s, tag + " " + title) && Contains(s, tag)
  {
    assert tag + " " + title == tag + (" " + title);
    OccursAtPrefix(s, tag, " " + title, i);
  }

  /** Where the odd-numbered pieces of a seven-piece concatenation sit. */
  lemma SevenPieces(p0: string, p1: string, p2: string, p3: string, p4: string, p5: string, p6: string)
    ensures var s := p0 + p1 + p2 + p3 + p4 + p5 + p6;
            OccursAt(s, p1, |p0|)
            && OccursAt(s, p3, |p0| + |p1| + |p2|)
            && OccursAt(s, p5, |p0| + |p1| + |p2| + |p3| + |p4|)
  {
    var s := p0 + p1 + p2 + p3 + p4 + p5 + p6;
    assert s == p0 + p1 + (p2 + p3 + p4 + p5 + p6);
    OccursBetween(p0, p1, p2 + p3 + p4 + p5 + p6);
    assert s == (p0 + p1 + p2) + p3 + (p4 + p5 + p6);
    OccursBetween(p0 + p1 + p2, p3, p4 + p5 + p6);
    assert s == (p0 + p1 + p2 + p3 + p4) + p5 + p6;
    OccursBetween(p0 + p1 + p2 + p3 + p4, p5, p6);
  }

  /** Where `l + r` occurs, `l` occurs. */
  lemma OccursAtPrefix(s: string, l: string, r: string, i: nat)
    requires OccursAt(s, l + r, i)
    ensures OccursAt(s, l, i)
  {
    assert s[i..i + |l|] == s[i..i + |l + r|][..|l|];
  }

  /**
   * The analytics prompt carries exactly the first min(|content|, 8000)
   * characters of the content, after its fixed opening.
   */
  lemma AnalyticsPromptShape(content: string)
    ensures var sent := Prefix(content, AnalysisLimit);
            |sent| == (if |content| <= 8000 then |content| else 8000)
            && sent == content[..|sent|]
            && OccursAt(AnalyticsPrompt(content), sent, |AnalyticsPromptHead|)
  {
    OccursBetween(AnalyticsPromptHead, Prefix(content, AnalysisLimit), AnalyticsPromptTail);
  }

  /** `response.text || "No content generated."`. */
  function ResearchText(response: Response): (text: string)
    ensures text != ""
    ensures response.text.Some? && response.text.value != "" ==> text == response.text.value
    ensures response.text.None? || response.text.value == "" ==> text == NoContent
  {
    match response.text
    case Some(t) => if t != "" then t else NoContent
    case None => NoContent
  }

  /** `response.candidates?.[0]?.groundingMetadata?.groundingChunks || []`. */
  function ResearchChunks(response: Response): (chunks: seq<GroundingChunk>)
    ensures (response.candidates.Some? && |response.candidates.value| > 0
             && response.candidates.value[0].groundingMetadata.Some?
             && response.candidates.value[0].groundingMetadata.value.groundingChunks.Some?)
            ==> chunks == response.candidates.value[0].groundingMetadata.value.groundingChunks.value
    ensures (response.candidates.None? || |response.candidates.value| == 0
             || response.candidates.value[0].groundingMetadata.None?
             || response.candidates.value[0].groundingMetadata.value.groundingChunks.None?)
            ==> chunks == []
  {
    match response.candidates
    case None => []
    case Some(cs) =>
      if |cs| == 0 then []
      else match cs[0].groundingMetadata
        case None => []
        case Some(m) => m.groundingChunks.GetOr([])
  }

  /**
   * `gatherAndEnhance(query)`: one grounded request about the query. A failure
   * of the call is re-thrown as it is; otherwise the text is never empty.
   */
  function GatherAndEnhance(query: string, backend: Backend): (r: Outcome<Research>)
    ensures backend(ResearchRequest(query)).Threw? ==> r == Threw(backend(ResearchRequest(query)).error)
    ensures backend(ResearchRequest(query)).Returned? ==>
              var response := backend(ResearchRequest(query)).value;
              r == Returned(Research(ResearchText(response), ResearchChunks(response)))
    ensures r.Returned? ==> r.value.text != ""
  {
    match backend(ResearchRequest(query))
    case Threw(e) => Threw(e)
    case Returned(response) => Returned(Research(ResearchText(response), ResearchChunks(response)))
  }

  /** The JSON text of the analytics reply: present only when the call returned a non-empty text. */
  function AnalyticsJson(outcome: Outcome<Response>): (json: Option<string>)
    ensures json.Some? <==> outcome.Returned? && outcome.value.text.Some? && outcome.value.text.value != ""
    ensures json.Some? ==> json.value == outcome.value.text.value
  {
    match outcome
    case Threw(_) => None
    case Returned(response) =>
      match response.text
      case None => None
      case Some(t) => if t == "" then None else Some(t)
  }

  /**
   * `generateAnalytics(content)`: it never fails. The parsed reply is returned
   * unchanged (no clamping, any number of key topics); a failed request, a
   * missing or empty text and a parse error all give the fallback record.
   */
  function GenerateAnalytics(content: string, backend: Backend, parse: JsonParser): (a: TopicAnalytics)
    ensures var json := AnalyticsJson(backend(AnalyticsRequest(content)));
            json.Some? && parse(json.value).Some? ==> a == parse(json.value).value
    ensures var json := AnalyticsJson(backend(AnalyticsRequest(content)));
            json.None? || parse(json.value).None? ==> a == FallbackAnalytics
  {
    match AnalyticsJson(backend(AnalyticsRequest(content)))
    case None => FallbackAnalytics
    case Some(json) => parse(json).GetOr(FallbackAnalytics)
  }

  /** Each way the analytics step can fail gives the fallback record. */
  lemma AnalyticsFailures(content: string, backend: Backend, parse: JsonParser)
    ensures backend(AnalyticsRequest(content)).Threw? ==> GenerateAnalytics(content, backend, parse) == FallbackAnalytics
    ensures (backend(AnalyticsRequest(content)).Returned?
             && backend(AnalyticsRequest(content)).value.text in {None, Some("")})
            ==> GenerateAnalytics(content, backend, parse) == FallbackAnalytics
    ensures (backend(AnalyticsRequest(content)).Returned?
             && backend(AnalyticsRequest(content)).value.text.Some?
             && parse(backend(AnalyticsRequest(content)).value.text.value).None?)
            ==> GenerateAnalytics(content, backend, parse) == FallbackAnalytics
  {
  }

  /**
   * Two contents that agree on their first 8000 characters give the same
   * analytics request, so a given backend answers them alike.
   */
  lemma AnalyticsSeeOnlyPrefix(c1: string, c2: string, backend: Backend, parse: JsonParser)
    requires Prefix(c1, AnalysisLimit) == Prefix(c2, AnalysisLimit)
    ensures AnalyticsRequest(c1) == AnalyticsRequest(c2)
    ensures GenerateAnalytics(c1, backend, parse) == GenerateAnalytics(c2, backend, parse)
  {
  }

  /** The two requests never use the same capability: grounding and JSON output stay apart. */
  lemma RequestsUseSeparateCapabilities(query: string, content: string)
    ensures ResearchRequest(query).config == SearchGrounding
    ensures AnalyticsRequest(content).config.StructuredJson?
    ensures AnalyticsRequest(content).config.responseMimeType == "application/json"
    ensures ResearchRequest(query).model == AnalyticsRequest(content).model == ModelName
  {
  }
}
