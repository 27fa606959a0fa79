/**
 * The records the research assistant passes around: the analytics the second
 * model call produces, the grounding citations the first call returns, the
 * composed result of one search and the status that drives the screen.
 * JavaScript numbers are modelled as reals.
 */
module Types {
  import opened Wrappers

  /** One sub-theme of the text and its prominence (0-100 by request, not enforced). */
  datatype KeyTopic = KeyTopic(name: string, value: real)

  /**
   * Structural metrics of a text. The ranges (scores 0-100, five key topics) are
   * what the model is asked for; nothing checks them when the reply is parsed.
   */
  datatype TopicAnalytics = TopicAnalytics(
    complexity: real,
    relevance: real,
    sentiment: real,
    readingTimeMinutes: real,
    keyTopics: seq<KeyTopic>)

  /** A web citation: where the grounding tool found a claim. */
  datatype WebSource = WebSource(uri: string, title: string)

  /** A grounding chunk; only chunks with `web` data name a source. */
  datatype GroundingChunk = GroundingChunk(web: Option<WebSource>)

  /** Everything one successful search shows on the dashboard. */
  datatype ResearchResult = ResearchResult(
    summary: string,
    enhancedContent: string,
    groundingChunks: seq<GroundingChunk>,
    analytics: TopicAnalytics)

  datatype AgentStatus = IDLE | SEARCHING | ANALYZING | COMPLETED | ERROR
}
