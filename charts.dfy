/**
 * The data behind the two analytics charts (components/Charts.tsx): four radar
 * points built from the metrics, and one coloured bar per key topic.
 */
module Charts {
  import opened Types

  /** The outer ring of the radar: every axis runs to 100. */
  const FullMark: real := 100.0

  /** Bars at even positions. */
  const Violet := "#8b5cf6"
  /** Bars at odd positions. */
  const Pink := "#ec4899"

  /** One radar axis: its label, its value (`A`) and the ring it is drawn against. */
  datatype RadarPoint = RadarPoint(subject: string, a: real, fullMark: real)

  /** One bar of the key-topics chart: the topic it draws and its cell colour. */
  datatype Bar = Bar(topic: KeyTopic, fill: string)

  /** `Math.min`. */
  function Min(x: real, y: real): (m: real)
    ensures m <= x && m <= y
    ensures m == x || m == y
  {
    if x <= y then x else y
  }

  /** The Length axis: ten points per minute of reading, capped at the ring. */
  function LengthScore(readingTimeMinutes: real): (v: real)
    ensures v <= FullMark
    ensures readingTimeMinutes * 10.0 <= FullMark ==> v == readingTimeMinutes * 10.0
    ensures readingTimeMinutes * 10.0 > FullMark ==> v == FullMark
  {
    Min(readingTimeMinutes * 10.0, FullMark)
  }

  /** `radarData`. */
  function RadarData(d: TopicAnalytics): (points: seq<RadarPoint>)
    ensures |points| == 4
    ensures forall i :: 0 <= i < |points| ==> points[i].fullMark == FullMark
    ensures points[3].a <= FullMark
  {
    [ RadarPoint("Complexity", d.complexity, FullMark),
      RadarPoint("Relevance", d.relevance, FullMark),
      RadarPoint("Sentiment", d.sentiment, FullMark),
      RadarPoint("Length", LengthScore(d.readingTimeMinutes), FullMark) ]
  }

  function Subjects(points: seq<RadarPoint>): (names: seq<string>)
    ensures |names| == |points|
    ensures forall i :: 0 <= i < |points| ==> names[i] == points[i].subject
  {
    seq(|points|, i requires 0 <= i < |points| => points[i].subject)
  }

  /**
   * The axes come in the order Complexity, Relevance, Sentiment, Length; the
   * first three carry the metrics unchanged, and the last gives back the
   * reading time whenever that is at most ten minutes.
   */
  lemma RadarAxes(d: TopicAnalytics)
    ensures Subjects(RadarData(d)) == ["Complexity", "Relevance", "Sentiment", "Length"]
    ensures RadarData(d)[0].a == d.complexity
    ensures RadarData(d)[1].a == d.relevance
    ensures RadarData(d)[2].a == d.sentiment
    ensures d.readingTimeMinutes <= 10.0 ==> RadarData(d)[3].a / 10.0 == d.readingTimeMinutes
    ensures d.readingTimeMinutes >= 10.0 ==> RadarData(d)[3].a == FullMark
  {
  }

  /** `index % 2 === 0 ? '#8b5cf6' : '#ec4899'`. */
  function CellFill(index: nat): (fill: string)
    ensures fill == Violet <==> index % 2 == 0
    ensures fill == Pink <==> index % 2 == 1
  {
    if index % 2 == 0 then Violet else Pink
  }

  /** The bars: `data.keyTopics` as the chart data, each with its `Cell` colour. */
  function Bars(d: TopicAnalytics): (bars: seq<Bar>)
    ensures |bars| == |d.keyTopics|
    ensures forall i :: 0 <= i < |bars| ==> bars[i].fill == CellFill(i)
  {
    seq(|d.keyTopics|, i requires 0 <= i < |d.keyTopics| => Bar(d.keyTopics[i], CellFill(i)))
  }

  /** The topics the bars draw. */
  function Topics(bars: seq<Bar>): (topics: seq<KeyTopic>)
    ensures |topics| == |bars|
    decreases |bars|
  {
    if bars == [] then [] else [bars[0].topic] + Topics(bars[1..])
  }

  lemma {:induction false} TopicsAt(bars: seq<Bar>, i: nat)
    requires i < |bars|
    ensures Topics(bars)[i] == bars[i].topic
    decreases i
  {
    if i > 0 {
      TopicsAt(bars[1..], i - 1);
    }
  }

  /** The bar chart draws the key topics unchanged and in their original order. */
  lemma BarsKeepTopics(d: TopicAnalytics)
    ensures Topics(Bars(d)) == d.keyTopics
  {
    var bars := Bars(d);
    forall i | 0 <= i < |bars| ensures Topics(bars)[i] == d.keyTopics[i] {
      TopicsAt(bars, i);
    }
  }

  /** The first bar is violet and neighbouring bars never share a colour. */
  lemma BarsAlternate(d: TopicAnalytics)
    ensures |Bars(d)| > 0 ==> Bars(d)[0].fill == Violet
    ensures forall i :: 0 <= i < |Bars(d)| - 1 ==> Bars(d)[i].fill != Bars(d)[i + 1].fill
  {
    var bars := Bars(d);
    forall i | 0 <= i < |bars| - 1 ensures bars[i].fill != bars[i + 1].fill {
      assert (i % 2 == 0) != ((i + 1) % 2 == 0);
    }
  }
}
