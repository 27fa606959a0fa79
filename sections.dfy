/**
 * How the search screen cuts the research text into an executive summary and a
 * deep dive (App.tsx, lines 32-34), and how it labels the sentiment score
 * (App.tsx, lines 136-140). The text is split on "SECTION 2:"; the first piece,
 * with the first "SECTION 1:" and then the first "EXECUTIVE SUMMARY" removed and
 * trimmed, is the summary; the second piece, with the first "ENHANCED DEEP DIVE"
 * removed and trimmed, is the deep dive, and the whole text stands in for it when
 * that piece is missing or trims to nothing.
 */
module Sections {
  import opened Wrappers
  import opened JsString

  const SectionOneLabel := "SECTION 1:"
  const SummaryLabel := "EXECUTIVE SUMMARY"
  const SectionTwoLabel := "SECTION 2:"
  const DeepDiveLabel := "ENHANCED DEEP DIVE"

  /** The section headings the research prompt asks the model to emit. */
  const SectionOneHeading := SectionOneLabel + " " + SummaryLabel
  const SectionTwoHeading := SectionTwoLabel + " " + DeepDiveLabel

  /** `text.split('SECTION 2:')`. */
  function Parts(text: string): (parts: seq<string>)
    ensures |parts| >= 1
  {
    Split(text, SectionTwoLabel)
  }

  /** `parts[0]?.replace('SECTION 1:', '').replace('EXECUTIVE SUMMARY', '').trim()`. */
  function Summary(text: string): string {
    Trim(RemoveFirst(RemoveFirst(Parts(text)[0], SectionOneLabel), SummaryLabel))
  }

  /** `parts[1]?.replace('ENHANCED DEEP DIVE', '').trim() || text`. */
  function DeepDive(text: string): string {
    var parts := Parts(text);
    if |parts| < 2 then text
    else
      var body := Trim(RemoveFirst(parts[1], DeepDiveLabel));
      if body == "" then text else body
  }

  /** The text before the first "SECTION 2:", or all of it when the marker is absent. */
  function LeadingSection(text: string): string {
    match IndexOf(text, SectionTwoLabel)
    case None => text
    case Some(i) => text[..i]
  }

  /**
   * The text between the first "SECTION 2:" and the next one, or the end of the
   * text; `None` when there is no "SECTION 2:" at all.
   */
  function SecondSection(text: string): Option<string> {
    match IndexOf(text, SectionTwoLabel)
    case None => None
    case Some(i) =>
      var rest := text[i + |SectionTwoLabel|..];
      match IndexOf(rest, SectionTwoLabel)
      case None => Some(rest)
      case Some(j) => Some(rest[..j])
  }

  /**
   * The summary is the text before the first "SECTION 2:", with the first
   * "SECTION 1:" and then the first "EXECUTIVE SUMMARY" cut out, and trimmed.
   * The text before the first "SECTION 2:" never contains it; the summary can,
   * since cutting out a label can join a marker (`LabelCutMakesMarker`).
   */
  lemma SummaryIsLeadingSection(text: string)
    ensures Summary(text) == Trim(RemoveFirst(RemoveFirst(LeadingSection(text), SectionOneLabel), SummaryLabel))
    ensures !Contains(LeadingSection(text), SectionTwoLabel)
  {
  }

  /**
   * Cutting out "SECTION 1:" can create a marker: "SECTION SECTION 1:2:" has
   * no "SECTION 2:", but its summary is "SECTION 2:".
   */
  lemma LabelCutMakesMarker(text: string, a: string, b: string)
    requires a == "SECTION " && b == "2:" && text == a + SectionOneLabel + b
    ensures !Contains(text, SectionTwoLabel)
    ensures Summary(text) == SectionTwoLabel && Contains(Summary(text), SectionTwoLabel)
  {
    var p := SectionTwoLabel;
    assert |text| == 20 && |p| == 10;
    assert forall k :: 0 <= k < 20 && k != 0 && k != 8 ==> text[k] != 'S';
    assert text[8] == 'S' && text[16] == '1' && p[0] == 'S' && p[8] == '2';
    OccurrenceChar(text, p, 0);
    OccurrenceChar(text, p, 8);
    assert !Contains(text, p);
    assert Parts(text) == [text];
    assert !Contains(a, SectionOneLabel);
    FirstAfterClean(a, SectionOneLabel, b);
    var r := RemoveFirst(text, SectionOneLabel);
    assert r[..8] == text[..8] == a;
    assert r[8..] == text[18..] == b;
    assert r == r[..8] + r[8..];
    assert r == p;
    assert !Contains(r, SummaryLabel);
    assert RemoveFirst(r, SummaryLabel) == p;
    TrimExact("", p, "");
    assert "" + p + "" == p;
    assert OccursAt(p, p, 0);
  }

  /**
   * With a "SECTION 2:" marker, the deep dive is the piece after it, up to the
   * next marker, with "ENHANCED DEEP DIVE" cut out and trimmed, unless that
   * leaves nothing, in which case it is the whole text.
   */
  lemma DeepDiveIsSecondSection(text: string)
    requires SecondSection(text).Some?
    ensures var body := Trim(RemoveFirst(SecondSection(text).value, DeepDiveLabel));
            DeepDive(text) == if body == "" then text else body
  {
    SplitSecondPiece(text, SectionTwoLabel);
  }

  /** Without a "SECTION 2:" marker the deep dive is the text verbatim. */
  lemma DeepDiveWithoutMarker(text: string)
    requires !Contains(text, SectionTwoLabel)
    ensures DeepDive(text) == text
    ensures SecondSection(text).None?
  {
  }

  /** The deep dive is empty only for an empty text. */
  lemma DeepDiveEmpty(text: string)
    ensures DeepDive(text) == "" <==> text == ""
  {
    if text == "" {
      assert IndexOf(text, SectionTwoLabel).None? by {
        assert !OccursAt(text, SectionTwoLabel, 0);
      }
    }
  }

  /** A text without the character `pat[0]` does not contain `pat`. */
  lemma NoHeadNoOccurrence(s: string, pat: string)
    requires |pat| > 0 && forall k :: 0 <= k < |s| ==> s[k] != pat[0]
    ensures !Contains(s, pat)
  {
    OccurrenceChar(s, pat, 0);
  }

  /**
   * No occurrence of `pat` straddles `x + y` when `x` has no character equal
   * to `pat[0]` and `y` has no occurrence.
   */
  lemma NoOccurrenceAfterHeadless(x: string, y: string, pat: string)
    requires |pat| > 0
    requires forall k :: 0 <= k < |x| ==> x[k] != pat[0]
    requires !Contains(y, pat)
    ensures !Contains(x + y, pat)
  {
    OccurrenceChar(x + y, pat, 0);
    OccurrenceInSuffix(x, y, pat);
    assert forall k :: 0 <= k < |x| ==> (x + y)[k] == x[k];
  }

  /**
   * "SECTION 2:" does not start inside the summary heading: its only 'S'
   * characters are at 0, where "SECTION 1:" differs in the digit, and at 21,
   * where "SUMMARY" continues with 'U' rather than 'E'.
   */
  lemma NoMarkerAfterHeading(s: string)
    requires !Contains(s, SectionTwoLabel)
    ensures !Contains(SectionOneHeading + s, SectionTwoLabel)
  {
    var h := SectionOneHeading;
    var p := SectionTwoLabel;
    var t := h + s;
    assert |h| == 28 && |p| == 10;
    assert forall k :: 0 <= k < 28 && k != 0 && k != 21 ==> h[k] != 'S';
    assert h[8] == '1' && h[22] == 'U' && p[0] == 'S' && p[1] == 'E' && p[8] == '2';
    assert forall k :: 0 <= k < 28 ==> t[k] == h[k];
    OccurrenceChar(t, p, 0);
    OccurrenceChar(t, p, 1);
    OccurrenceChar(t, p, 8);
    OccurrenceInSuffix(h, s, p);
  }

  /** A text with exactly one "SECTION 2:" splits into the text before it and the text after it. */
  lemma SplitAtOnlyMarker(lead: string, tail: string)
    requires !Contains(lead, SectionTwoLabel) && !Contains(tail, SectionTwoLabel)
    ensures Parts(lead + SectionTwoLabel + tail) == [lead, tail]
  {
    var text := lead + SectionTwoLabel + tail;
    MarkerAfterClean(lead, tail);
    assert text[..|lead|] == lead;
    assert text[|lead| + |SectionTwoLabel|..] == tail;
    SplitUnfold(text, SectionTwoLabel, |lead|);
    assert IndexOf(tail, SectionTwoLabel).None?;
  }

  /**
   * The summary of a reply that opens with the first heading is the trimmed
   * body before the first "SECTION 2:", whatever follows that marker.
   */
  lemma WellFormedSummary(summaryBody: string, tail: string)
    requires !Contains(summaryBody, SectionTwoLabel)
    ensures Summary(SectionOneHeading + summaryBody + SectionTwoLabel + tail) == Trim(summaryBody)
  {
    var lead := SectionOneHeading + summaryBody;
    var text := lead + SectionTwoLabel + tail;
    NoMarkerAfterHeading(summaryBody);
    MarkerAfterClean(lead, tail);
    assert text[..|lead|] == lead;
    assert lead == SectionOneLabel + ([' '] + SummaryLabel + summaryBody);
    RemoveLeading(SectionOneLabel, [' '] + SummaryLabel + summaryBody);
    RemoveAfterOne(' ', SummaryLabel, summaryBody);
    assert AllWhitespace(" ");
    TrimLeadingWhitespace(" ", summaryBody);
  }

  /** The second heading's title holds no 'S', so no "SECTION 2:" starts in it. */
  lemma DeepDiveHeadingClean(deepBody: string)
    requires !Contains(deepBody, SectionTwoLabel)
    ensures !Contains([' '] + DeepDiveLabel + deepBody, SectionTwoLabel)
  {
    var x := [' '] + DeepDiveLabel;
    assert forall k :: 0 <= k < |x| ==> x[k] != 'S';
    NoOccurrenceAfterHeadless(x, deepBody, SectionTwoLabel);
  }

  /** Trimming what follows the second heading's title gives the trimmed body. */
  lemma DeepDiveBody(deepBody: string)
    ensures Trim(RemoveFirst([' '] + DeepDiveLabel + deepBody, DeepDiveLabel)) == Trim(deepBody)
  {
    RemoveAfterOne(' ', DeepDiveLabel, deepBody);
    assert AllWhitespace(" ");
    TrimLeadingWhitespace(" ", deepBody);
  }

  /** The second heading is "SECTION 2:" followed by a space and its title. */
  lemma SecondHeadingRegroup(lead: string, deepBody: string)
    ensures lead + SectionTwoHeading + deepBody == lead + SectionTwoLabel + ([' '] + DeepDiveLabel + deepBody)
  {
    Regroup(lead, SectionTwoLabel, " ", DeepDiveLabel, deepBody);
  }

  lemma Regroup(a: string, b: string, c: string, d: string, e: string)
    ensures a + (b + c + d) + e == a + b + (c + d + e)
  {
  }

  /** The deep dive of a reply whose second section has the heading is its trimmed body. */
  lemma WellFormedDeepDive(lead: string, deepBody: string)
    requires !Contains(lead, SectionTwoLabel)
    requires !Contains(deepBody, SectionTwoLabel)
    requires Trim(deepBody) != ""
    ensures DeepDive(lead + SectionTwoHeading + deepBody) == Trim(deepBody)
  {
    var tail := [' '] + DeepDiveLabel + deepBody;
    DeepDiveHeadingClean(deepBody);
    SplitAtOnlyMarker(lead, tail);
    SecondHeadingRegroup(lead, deepBody);
    DeepDiveBody(deepBody);
  }

  /**
   * When the model follows the prompt, the summary and the deep dive are
   * exactly the two section bodies, trimmed. The summary body must not contain
   * "SECTION 2:", nor the deep-dive body once more (or the body is cut there),
   * and the deep-dive body must not trim to nothing.
   */
  lemma WellFormedReply(summaryBody: string, deepBody: string)
    requires !Contains(summaryBody, SectionTwoLabel)
    requires !Contains(deepBody, SectionTwoLabel)
    requires Trim(deepBody) != ""
    ensures var text := SectionOneHeading + summaryBody + SectionTwoHeading + deepBody;
            Summary(text) == Trim(summaryBody) && DeepDive(text) == Trim(deepBody)
  {
    var lead := SectionOneHeading + summaryBody;
    var tail := [' '] + DeepDiveLabel + deepBody;
    SecondHeadingRegroup(lead, deepBody);
    DeepDiveHeadingClean(deepBody);
    WellFormedSummary(summaryBody, tail);
    NoMarkerAfterHeading(summaryBody);
    WellFormedDeepDive(lead, deepBody);
  }

  /** "SECTION 2:" has no 'S' after its first character. */
  lemma SectionTwoHeadUnique()
    ensures |SectionTwoLabel| > 0
    ensures forall m :: 0 < m < |SectionTwoLabel| ==> SectionTwoLabel[m] != SectionTwoLabel[0]
  {
  }

  /** Character `k` of every occurrence of `pat` is `pat[k]`. */
  lemma OccurrenceChar(s: string, pat: string, k: nat)
    requires k < |pat|
    ensures forall i: nat :: OccursAt(s, pat, i) ==> s[i + k] == pat[k]
  {
    forall i: nat | OccursAt(s, pat, i) ensures s[i + k] == pat[k] {
      assert s[i..i + |pat|][k] == s[i + k];
    }
  }

  /** An occurrence of `sep` that begins in `lead` and overlaps the `sep` after it has `sep[0]` inside. */
  lemma Straddle(lead: string, sep: string, tail: string)
    ensures forall j: nat :: j < |lead| < j + |sep| && OccursAt(lead + sep + tail, sep, j) ==>
      sep[|lead| - j] == sep[0]
  {
    var s := lead + sep + tail;
    forall j: nat | j < |lead| < j + |sep| && OccursAt(s, sep, j) ensures sep[|lead| - j] == sep[0] {
      assert s[j..j + |sep|][|lead| - j] == s[|lead|];
      assert s[|lead|] == sep[0];
    }
  }

  /** An occurrence in `x + y` that starts in `y` is an occurrence in `y`. */
  lemma OccurrenceInSuffix(x: string, y: string, pat: string)
    ensures forall i: nat :: |x| <= i && OccursAt(x + y, pat, i) ==> OccursAt(y, pat, i - |x|)
  {
    forall i: nat | |x| <= i && OccursAt(x + y, pat, i) ensures OccursAt(y, pat, i - |x|) {
      assert (x + y)[i..i + |pat|] == y[i - |x|..i - |x| + |pat|];
    }
  }

  /** An occurrence in `x + y` that ends in `x` is an occurrence in `x`. */
  lemma OccurrenceInPrefix(x: string, y: string, pat: string)
    ensures forall i: nat :: i + |pat| <= |x| && OccursAt(x + y, pat, i) ==> OccursAt(x, pat, i)
  {
    forall i: nat | i + |pat| <= |x| && OccursAt(x + y, pat, i) ensures OccursAt(x, pat, i) {
      assert (x + y)[i..i + |pat|] == x[i..i + |pat|];
    }
  }

  /**
   * The first occurrence of a separator whose first character appears nowhere
   * else in it is right after a prefix that does not contain it: an earlier
   * one would overlap it, and the overlap would put that character later in
   * the separator. "SECTION 2:" is such a separator.
   */
  lemma FirstAfterClean(lead: string, sep: string, tail: string)
    requires |sep| > 0 && forall m :: 0 < m < |sep| ==> sep[m] != sep[0]
    requires !Contains(lead, sep)
    ensures IndexOf(lead + sep + tail, sep) == Some(|lead|)
  {
    var s := lead + sep + tail;
    assert OccursAt(s, sep, |lead|) by {
      assert s[|lead|..|lead| + |sep|] == sep;
    }
    NoEarlier(lead, sep, tail);
  }

  lemma NoEarlier(lead: string, sep: string, tail: string)
    requires |sep| > 0 && forall m :: 0 < m < |sep| ==> sep[m] != sep[0]
    requires !Contains(lead, sep)
    ensures forall j: nat :: j < |lead| ==> !OccursAt(lead + sep + tail, sep, j)
  {
    assert lead + sep + tail == lead + (sep + tail);
    OccurrenceInPrefix(lead, sep + tail, sep);
    Straddle(lead, sep, tail);
  }

  lemma MarkerAfterClean(lead: string, tail: string)
    requires !Contains(lead, SectionTwoLabel)
    ensures IndexOf(lead + SectionTwoLabel + tail, SectionTwoLabel) == Some(|lead|)
  {
    SectionTwoHeadUnique();
    FirstAfterClean(lead, SectionTwoLabel, tail);
  }

  /** The example of a reply in the prompt's format. */
  lemma ExampleReply(text: string, s: string, d: string)
    requires s == "\n" + "Foo" + "\n" && d == "\n" + "Bar" + ""
    requires text == SectionOneHeading + s + SectionTwoHeading + d
    ensures Summary(text) == "Foo" && DeepDive(text) == "Bar"
  {
    ExampleBody(s, "Foo", "\n");
    ExampleBody(d, "Bar", "");
    WellFormedReply(s, d);
  }

  lemma ExampleShape(text: string, s: string, d: string)
    requires text == "SECTION 1: EXECUTIVE SUMMARY" + "\nFoo\n" + "SECTION 2: ENHANCED DEEP DIVE" + "\nBar"
    requires s == "\nFoo\n" && d == "\nBar"
    ensures text == SectionOneHeading + s + SectionTwoHeading + d
  {
    HeadingOneText();
    HeadingTwoText();
  }

  lemma HeadingOneText()
    ensures SectionOneHeading == "SECTION 1: EXECUTIVE SUMMARY"
  {
  }

  lemma HeadingTwoText()
    ensures SectionTwoHeading == "SECTION 2: ENHANCED DEEP DIVE"
  {
  }

  /** The two sample bodies: a newline, a word, and possibly another newline. */
  lemma ExampleBody(s: string, word: string, after: string)
    requires word == "Foo" || word == "Bar"
    requires after == "\n" || after == ""
    requires s == "\n" + word + after
    ensures !Contains(s, SectionTwoLabel) && Trim(s) == word
  {
    NoHeadNoOccurrence(s, SectionTwoLabel);
    TrimExact("\n", word, after);
  }

  /**
   * A reply without any of the labels: the deep dive is the text verbatim and
   * the summary is the text trimmed.
   */
  lemma HeadlessReply(text: string)
    requires !Contains(text, SectionTwoLabel)
    requires !Contains(text, SectionOneLabel) && !Contains(text, SummaryLabel)
    ensures DeepDive(text) == text && Summary(text) == Trim(text)
  {
  }

  /** The sample reply "Just one blob" is both its own summary and its own deep dive. */
  lemma ExampleBlob(text: string)
    requires text == "Just one blob"
    ensures DeepDive(text) == text && Summary(text) == text
  {
    NoHeadNoOccurrence(text, SectionTwoLabel);
    NoHeadNoOccurrence(text, SectionOneLabel);
    NoHeadNoOccurrence(text, SummaryLabel);
    HeadlessReply(text);
    TrimExact("", text, "");
    assert "" + text + "" == text;
  }

  /** The tone badge under the summary. */
  datatype Tone = Positive | Critical | Neutral {
    function Label(): string {
      match this
      case Positive => "Positive Tone"
      case Critical => "Critical Tone"
      case Neutral => "Neutral Tone"
    }
  }

  /**
   * Above 60 is positive, below 40 critical, anything from 40 to 60 neutral;
   * exactly one applies since the result is one value.
   */
  function ToneOf(sentiment: real): (t: Tone)
    ensures t == Positive <==> sentiment > 60.0
    ensures t == Critical <==> sentiment < 40.0
    ensures t == Neutral <==> 40.0 <= sentiment <= 60.0
  {
    if sentiment > 60.0 then Positive
    else if sentiment < 40.0 then Critical
    else Neutral
  }

  /** The three labels are different, so the badge text determines the tone. */
  lemma ToneLabelsDistinct(t: Tone, u: Tone)
    ensures t.Label() == u.Label() <==> t == u
  {
    if t != u {
      assert t.Label()[0] != u.Label()[0];
    }
  }
}
