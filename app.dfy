/**
 * The search screen (App.tsx): the query box, the status that drives the
 * screen and the composed result of the last search. One search is one
 * sequential call of `HandleSearch`; the two service calls it makes are
 * passed in as functions, so a search can be stated for every way they can
 * turn out.
 */
module App {
  import opened Wrappers
  import opened JsString
  import opened Types
  import opened Sections
  import GeminiService

  /** A call the screen makes to the service, in the order it makes them. */
  datatype ServiceCall = GatherCall(query: string) | AnalyticsCall(content: string)

  /** No search is in flight. */
  predicate Resting(s: AgentStatus) {
    s == IDLE || s == COMPLETED || s == ERROR
  }

  /**
   * The moves of the status machine: a search starts from a resting status,
   * searching is followed by analysing, analysing by completion, and either
   * busy status can fail. Nothing returns to IDLE.
   */
  predicate Step(from: AgentStatus, to: AgentStatus) {
    match to
    case IDLE => false
    case SEARCHING => Resting(from)
    case ANALYZING => from == SEARCHING
    case COMPLETED => from == ANALYZING
    case ERROR => from == SEARCHING || from == ANALYZING
  }

  /** The status after `moves`, starting from `start`. */
  function Last(start: AgentStatus, moves: seq<AgentStatus>): AgentStatus {
    if moves == [] then start else moves[|moves| - 1]
  }

  /** The status before move `i` of `moves`, starting from `start`. */
  function Before(start: AgentStatus, moves: seq<AgentStatus>, i: nat): AgentStatus
    requires i <= |moves|
  {
    if i == 0 then start else moves[i - 1]
  }

  /** Every move in `moves` is a step of the machine, starting from `start`. */
  predicate WalkFrom(start: AgentStatus, moves: seq<AgentStatus>) {
    forall i :: 0 <= i < |moves| ==> Step(Before(start, moves, i), moves[i])
  }

  /** Two walks, the second starting where the first ends, make one walk. */
  lemma WalkAppend(start: AgentStatus, a: seq<AgentStatus>, b: seq<AgentStatus>)
    requires WalkFrom(start, a) && WalkFrom(Last(start, a), b)
    ensures WalkFrom(start, a + b) && Last(start, a + b) == Last(Last(start, a), b)
  {
    var t := a + b;
    forall i | 0 <= i < |t| ensures Step(Before(start, t, i), t[i]) {
      if i < |a| {
        assert Before(start, t, i) == Before(start, a, i);
      } else {
        assert t[i] == b[i - |a|];
        assert Before(start, t, i) == Before(Last(start, a), b, i - |a|);
      }
    }
  }

  /**
   * A result is only ever completed right after an analysis that came right
   * after a search.
   */
  lemma CompletedAfterAnalysis(trace: seq<AgentStatus>, i: nat)
    requires WalkFrom(IDLE, trace) && i < |trace| && trace[i] == COMPLETED
    ensures i >= 2 && trace[i - 1] == ANALYZING && trace[i - 2] == SEARCHING
  {
    assert Step(Before(IDLE, trace, i), trace[i]);
    assert Step(Before(IDLE, trace, i - 1), trace[i - 1]);
  }

  /** The result object of `setResult` (App.tsx, lines 32-41). */
  function Compose(research: GeminiService.Research, analytics: TopicAnalytics): ResearchResult {
    ResearchResult(Summary(research.text), DeepDive(research.text), research.groundingChunks, analytics)
  }

  /** The statuses a search moves through. */
  function SearchMoves(
    research: GeminiService.Outcome<GeminiService.Research>,
    analysis: GeminiService.Outcome<TopicAnalytics>): seq<AgentStatus>
  {
    if research.Threw? then [SEARCHING, ERROR]
    else if analysis.Threw? then [SEARCHING, ANALYZING, ERROR]
    else [SEARCHING, ANALYZING, COMPLETED]
  }

  /** The result a search leaves on the screen. */
  function SearchResult(
    research: GeminiService.Outcome<GeminiService.Research>,
    analysis: GeminiService.Outcome<TopicAnalytics>): Option<ResearchResult>
  {
    if research.Threw? || analysis.Threw? then None
    else Some(Compose(research.value, analysis.value))
  }

  /** The service calls a search makes, in order. */
  function SearchCalls(query: string, research: GeminiService.Outcome<GeminiService.Research>): seq<ServiceCall> {
    match research
    case Threw(_) => [GatherCall(query)]
    case Returned(r) => [GatherCall(query), AnalyticsCall(r.text)]
  }

  /**
   * A search is a walk of the machine from any resting status back to a
   * resting one, and it ends in ERROR exactly when one of the two calls throws.
   */
  lemma SearchIsWalk(research: GeminiService.Outcome<GeminiService.Research>,
                     analysis: GeminiService.Outcome<TopicAnalytics>, from: AgentStatus)
    requires Resting(from)
    ensures var moves := SearchMoves(research, analysis);
            WalkFrom(from, moves) && Resting(Last(from, moves))
            && (Last(from, moves) == ERROR <==> research.Threw? || analysis.Threw?)
  {
  }

  /** A result is shown exactly when the search completes. */
  lemma ResultIffCompleted(research: GeminiService.Outcome<GeminiService.Research>,
                           analysis: GeminiService.Outcome<TopicAnalytics>)
    ensures SearchResult(research, analysis).Some? <==> Last(IDLE, SearchMoves(research, analysis)) == COMPLETED
  {
  }

  /**
   * A search that completes passes through SEARCHING and ANALYZING and shows
   * the sections of the research text together with the grounding chunks and
   * the analytics exactly as the two calls returned them.
   */
  lemma SearchCompletes(research: GeminiService.Outcome<GeminiService.Research>,
                        analysis: GeminiService.Outcome<TopicAnalytics>)
    requires research.Returned? && analysis.Returned?
    ensures SearchMoves(research, analysis) == [SEARCHING, ANALYZING, COMPLETED]
    ensures var result := SearchResult(research, analysis);
            result.Some?
            && result.value.groundingChunks == research.value.groundingChunks
            && result.value.analytics == analysis.value
            && result.value.summary == Summary(research.value.text)
            && result.value.enhancedContent == DeepDive(research.value.text)
            && (result.value.enhancedContent == "" <==> research.value.text == "")
  {
    DeepDiveEmpty(research.value.text);
  }

  /** The analytics call of the service on the research text, when there is one. */
  function ServiceAnalysis(research: GeminiService.Outcome<GeminiService.Research>,
                           backend: GeminiService.Backend, parse: GeminiService.JsonParser)
    : GeminiService.Outcome<TopicAnalytics>
  {
    match research
    case Threw(e) => GeminiService.Threw(e)
    case Returned(r) => GeminiService.Returned(GeminiService.GenerateAnalytics(r.text, backend, parse))
  }

  /**
   * Wired to the service: since the analysis never throws, a search fails
   * exactly when the research request throws, and a completed search shows
   * the service's analytics of the research text.
   */
  lemma SearchWithService(query: string, backend: GeminiService.Backend, parse: GeminiService.JsonParser)
    ensures var research := GeminiService.GatherAndEnhance(query, backend);
            var analysis := ServiceAnalysis(research, backend, parse);
            (Last(IDLE, SearchMoves(research, analysis)) == ERROR <==> backend(GeminiService.ResearchRequest(query)).Threw?)
            && (SearchResult(research, analysis).Some? ==>
                  SearchResult(research, analysis).value.analytics
                  == GeminiService.GenerateAnalytics(research.value.text, backend, parse))
  {
  }

  /** The state the screen keeps: `query`, `status` and `result`. */
  class AppState {
    var query: string
    var status: AgentStatus
    var result: Option<ResearchResult>
    /** Every status the screen has been set to, in order. */
    ghost var trace: seq<AgentStatus>
    /** Every call made to the service, in order. */
    ghost var calls: seq<ServiceCall>

    /**
     * Between searches: the statuses so far are a walk of the machine ending at
     * the current one, no search is in flight, and a result is shown exactly
     * when the last search completed.
     */
    ghost predicate Valid()
      reads this
    {
      WalkFrom(IDLE, trace) && status == Last(IDLE, trace) && Resting(status)
      && (result.Some? <==> status == COMPLETED)
    }

    /** The initial state (App.tsx, lines 10-12). */
    constructor ()
      ensures Valid()
      ensures query == "" && status == IDLE && result == None
      ensures trace == [] && calls == []
    {
      query := "";
      status := IDLE;
      result := None;
      trace := [];
      calls := [];
    }

    /** Typing into the query box (App.tsx, line 88). */
    method SetQuery(q: string)
      requires Valid()
      modifies this
      ensures Valid()
      ensures query == q
      ensures status == old(status) && result == old(result)
      ensures trace == old(trace) && calls == old(calls)
    {
      query := q;
    }

    /**
     * `handleSearch`, given how its two service calls turn out. `analysis` is
     * what the analytics call on the research text returns; it is not
     * consulted when the research call throws. A blank query changes nothing
     * and calls nothing; otherwise the search moves, shows and calls as
     * `SearchMoves`, `SearchResult` and `SearchCalls` say.
     */
    method HandleSearch(
      research: GeminiService.Outcome<GeminiService.Research>,
      analysis: GeminiService.Outcome<TopicAnalytics>)
      requires Valid()
      modifies this
      ensures Valid()
      ensures query == old(query)
      ensures Trim(query) == "" ==>
                status == old(status) && result == old(result)
                && trace == old(trace) && calls == old(calls)
      ensures Trim(query) != "" ==>
                trace == old(trace) + SearchMoves(research, analysis)
                && status == Last(IDLE, SearchMoves(research, analysis))
                && result == SearchResult(research, analysis)
                && calls == old(calls) + SearchCalls(query, research)
    {
      if Trim(query) == "" {
        return;
      }
      SearchIsWalk(research, analysis, status);
      ResultIffCompleted(research, analysis);
      WalkAppend(IDLE, trace, SearchMoves(research, analysis));
      ghost var before, made := trace, calls;
      status := SEARCHING;
      trace := before + [SEARCHING];
      result := None;
      calls := made + [GatherCall(query)];
      if research.Threw? {
        status := ERROR;
        trace := before + [SEARCHING, ERROR];
        return;
      }
      status := ANALYZING;
      trace := before + [SEARCHING, ANALYZING];
      calls := made + [GatherCall(query), AnalyticsCall(research.value.text)];
      if analysis.Threw? {
        status := ERROR;
        trace := before + [SEARCHING, ANALYZING, ERROR];
        return;
      }
      result := Some(Compose(research.value, analysis.value));
      status := COMPLETED;
      trace := before + [SEARCHING, ANALYZING, COMPLETED];
    }

    /** `handleSearch` with the real service behind it. */
    method SearchWithGemini(backend: GeminiService.Backend, parse: GeminiService.JsonParser)
      requires Valid()
      modifies this
      ensures Valid()
      ensures query == old(query)
      ensures Trim(query) != "" ==>
                (status == ERROR <==> backend(GeminiService.ResearchRequest(query)).Threw?)
                && (status == COMPLETED <==> backend(GeminiService.ResearchRequest(query)).Returned?)
      ensures Trim(query) != "" ==>
                var research := GeminiService.GatherAndEnhance(query, backend);
                var analysis := ServiceAnalysis(research, backend, parse);
                trace == old(trace) + SearchMoves(research, analysis)
                && result == SearchResult(research, analysis)
                && calls == old(calls) + SearchCalls(query, research)
      ensures Trim(query) == "" ==>
                status == old(status) && result == old(result)
                && trace == old(trace) && calls == old(calls)
    {
      var research := GeminiService.GatherAndEnhance(query, backend);
      HandleSearch(research, ServiceAnalysis(research, backend, parse));
      SearchWithService(query, backend, parse);
    }
  }
}
