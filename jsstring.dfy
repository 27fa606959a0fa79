/**
 * The JavaScript string operations that the search screen uses to cut the model's
 * free text into sections: `indexOf`, `split` with a string separator, `replace`
 * of the first occurrence of a string by the empty string, `substring(0, n)` and
 * `trim`. Strings are sequences of characters.
 */
module JsString {
  import opened Wrappers

  /** `pat` occurs in `s` starting at index `i`. */
  predicate OccursAt(s: string, pat: string, i: nat) {
    i + |pat| <= |s| && s[i..i + |pat|] == pat
  }

  predicate Contains(s: string, pat: string) {
    exists i: nat :: i <= |s| && OccursAt(s, pat, i)
  }

  /** `s.indexOf(pat, from)`: the first index at or after `from` where `pat` occurs. */
  function IndexOfFrom(s: string, pat: string, from: nat): (r: Option<nat>)
    requires from <= |s|
    ensures r.Some? ==> from <= r.value <= |s| && OccursAt(s, pat, r.value)
    ensures r.Some? ==> forall j: nat :: from <= j < r.value ==> !OccursAt(s, pat, j)
    ensures r.None? ==> forall j: nat :: from <= j <= |s| ==> !OccursAt(s, pat, j)
    decreases |s| - from
  {
    if OccursAt(s, pat, from) then Some(from)
    else if from == |s| then None
    else IndexOfFrom(s, pat, from + 1)
  }

  /** `s.indexOf(pat)`, with `None` for JavaScript's -1. */
  function IndexOf(s: string, pat: string): (r: Option<nat>)
    ensures r.Some? <==> Contains(s, pat)
    ensures r.Some? ==> OccursAt(s, pat, r.value) && forall j: nat :: j < r.value ==> !OccursAt(s, pat, j)
  {
    IndexOfFrom(s, pat, 0)
  }

  /** An occurrence of `pat` inside a slice of `s` is an occurrence in `s`. */
  lemma OccursInSlice(s: string, pat: string, lo: nat, hi: nat, j: nat)
    requires lo <= hi <= |s| && OccursAt(s[lo..hi], pat, j)
    ensures OccursAt(s, pat, lo + j)
  {
    forall k | 0 <= k < |pat| ensures s[lo + j + k] == pat[k] {
      assert pat[k] == s[lo..hi][j..j + |pat|][k];
    }
    assert s[lo + j..lo + j + |pat|] == pat;
  }

  /** The text before the first occurrence of `pat` does not contain `pat`. */
  lemma PrefixBeforeFirst(s: string, pat: string, i: nat)
    requires i <= |s|
    requires forall j: nat :: j < i ==> !OccursAt(s, pat, j)
    requires |pat| > 0
    ensures !Contains(s[..i], pat)
  {
    forall j: nat | j <= i && OccursAt(s[..i], pat, j) ensures false {
      OccursInSlice(s, pat, 0, i, j);
    }
  }

  /**
   * `s.split(sep)` for a non-empty separator: the pieces between successive
   * non-overlapping occurrences, found left to right.
   */
  function Split(s: string, sep: string): (parts: seq<string>)
    requires |sep| > 0
    ensures |parts| >= 1
    ensures IndexOf(s, sep).None? ==> parts == [s]
    ensures IndexOf(s, sep).Some? ==> parts[0] == s[..IndexOf(s, sep).value]
    ensures forall k :: 0 <= k < |parts| ==> !Contains(parts[k], sep)
    decreases |s|
  {
    match IndexOf(s, sep)
    case None => [s]
    case Some(i) =>
      PrefixBeforeFirst(s, sep, i);
      [s[..i]] + Split(s[i + |sep|..], sep)
  }

  /** `parts.join(sep)`. */
  function Join(parts: seq<string>, sep: string): string {
    if |parts| == 0 then ""
    else if |parts| == 1 then parts[0]
    else parts[0] + sep + Join(parts[1..], sep)
  }

  lemma SplitUnfold(s: string, sep: string, i: nat)
    requires |sep| > 0 && IndexOf(s, sep) == Some(i)
    ensures Split(s, sep) == [s[..i]] + Split(s[i + |sep|..], sep)
  {
  }

  lemma JoinCons(head: string, tail: seq<string>, sep: string)
    requires |tail| > 0
    ensures Join([head] + tail, sep) == head + sep + Join(tail, sep)
  {
    assert ([head] + tail)[1..] == tail;
  }

  /** Splitting loses nothing: joining the pieces with the separator gives the text back. */
  lemma {:induction false} JoinSplit(s: string, sep: string)
    requires |sep| > 0
    ensures Join(Split(s, sep), sep) == s
    decreases |s|
  {
    var found := IndexOf(s, sep);
    if found.Some? {
      var i := found.value;
      var rest := s[i + |sep|..];
      JoinSplit(rest, sep);
      SplitUnfold(s, sep, i);
      JoinCons(s[..i], Split(rest, sep), sep);
      assert OccursAt(s, sep, i);
      SliceAround(s, i, i + |sep|);
    }
  }

  lemma SliceAround(s: string, i: nat, j: nat)
    requires i <= j <= |s|
    ensures s == s[..i] + s[i..j] + s[j..]
  {
  }

  /**
   * The second piece of a split is the text between the first and the second
   * occurrence of the separator, or up to the end when there is no second one.
   */
  lemma SplitSecondPiece(s: string, sep: string)
    requires |sep| > 0 && IndexOf(s, sep).Some?
    ensures var i := IndexOf(s, sep).value;
            var rest := s[i + |sep|..];
            var parts := Split(s, sep);
            |parts| >= 2 &&
            parts[1] == (match IndexOf(rest, sep) case None => rest case Some(j) => rest[..j])
  {
  }

  /** `s.replace(pat, '')`: the first occurrence of `pat` is cut out, if there is one. */
  function RemoveFirst(s: string, pat: string): (r: string)
    ensures IndexOf(s, pat).None? ==> r == s
    ensures IndexOf(s, pat).Some? ==>
              var i := IndexOf(s, pat).value;
              |r| == |s| - |pat| && s == r[..i] + pat + r[i..]
  {
    match IndexOf(s, pat)
    case None => s
    case Some(i) =>
      var r := s[..i] + s[i + |pat|..];
      assert r[..i] == s[..i] && r[i..] == s[i + |pat|..];
      assert s == s[..i] + s[i..i + |pat|] + s[i + |pat|..];
      r
  }

  /** `pat` found at index 0 is the first occurrence, so `RemoveFirst` drops exactly that prefix. */
  lemma RemoveLeading(pat: string, rest: string)
    ensures RemoveFirst(pat + rest, pat) == rest
  {
    assert OccursAt(pat + rest, pat, 0) by { assert (pat + rest)[..|pat|] == pat; }
    assert (pat + rest)[|pat|..] == rest;
  }

  /**
   * A pattern whose first character differs from `c` is found at index 1 of
   * `[c] + pat + rest`, so `RemoveFirst` cuts out exactly that copy.
   */
  lemma RemoveAfterOne(c: char, pat: string, rest: string)
    requires |pat| > 0 && pat[0] != c
    ensures RemoveFirst([c] + pat + rest, pat) == [c] + rest
  {
    var s := [c] + pat + rest;
    assert !OccursAt(s, pat, 0) by { assert s[0] == c; }
    assert OccursAt(s, pat, 1) by { assert s[1..1 + |pat|] == pat; }
    assert IndexOf(s, pat) == Some(1);
    assert s[..1] + s[1 + |pat|..] == [c] + rest;
  }

  /** `s.substring(0, n)`: the first `n` characters, or all of `s` when it is shorter. */
  function Prefix(s: string, n: nat): (r: string)
    ensures |r| == if |s| <= n then |s| else n
    ensures r == s[..|r|]
  {
    if |s| <= n then s else s[..n]
  }

  /**
   * The characters `String.prototype.trim` removes: ECMAScript's WhiteSpace
   * (tab, vertical tab, form feed, the byte-order mark and every character of
   * Unicode category Zs) and LineTerminator (line feed, carriage return, line
   * and paragraph separators).
   */
  predicate IsWhitespace(c: char) {
    c == '\t' || c == '\U{000B}' || c == '\U{000C}' || c == '\U{FEFF}'
    || c == ' ' || c == '\U{00A0}' || c == '\U{1680}'
    || ('\U{2000}' <= c <= '\U{200A}') || c == '\U{202F}' || c == '\U{205F}' || c == '\U{3000}'
    || c == '\n' || c == '\r' || c == '\U{2028}' || c == '\U{2029}'
  }

  predicate AllWhitespace(s: string) {
    forall k :: 0 <= k < |s| ==> IsWhitespace(s[k])
  }

  /** `s.trimStart()`: the longest suffix of `s` not starting with whitespace. */
  function TrimStart(s: string): (r: string)
    ensures |r| <= |s|
    ensures forall k :: 0 <= k < |s| - |r| ==> IsWhitespace(s[k])
    ensures r == [] || !IsWhitespace(r[0])
    decreases |s|
  {
    if |s| > 0 && IsWhitespace(s[0]) then TrimStart(s[1..]) else s
  }

  /** `s.trimEnd()`: the longest prefix of `s` not ending with whitespace. */
  function TrimEnd(s: string): (r: string)
    ensures |r| <= |s| && forall k {:trigger r[k]} :: 0 <= k < |r| ==> r[k] == s[k]
    ensures forall k :: |r| <= k < |s| ==> IsWhitespace(s[k])
    ensures r == [] || !IsWhitespace(r[|r| - 1])
    decreases |s|
  {
    if |s| > 0 && IsWhitespace(s[|s| - 1]) then TrimEnd(s[..|s| - 1]) else s
  }

  /** `s.trim()`. */
  function Trim(s: string): string {
    TrimEnd(TrimStart(s))
  }

  /** `trimStart` keeps a suffix: the text is the whitespace it drops followed by the result. */
  lemma {:induction false} TrimStartSplit(s: string)
    ensures var d := |s| - |TrimStart(s)|;
            s == s[..d] + TrimStart(s) && AllWhitespace(s[..d])
    decreases |s|
  {
    var r := TrimStart(s);
    var d := |s| - |r|;
    assert forall k :: 0 <= k < d ==> s[..d][k] == s[k];
    if |s| > 0 && IsWhitespace(s[0]) {
      var s' := s[1..];
      TrimStartSplit(s');
      assert r == TrimStart(s');
      forall k | 0 <= k < |s| ensures s[k] == (s[..d] + r)[k] {
        if k >= d {
          assert r[k - d] == (s'[..d - 1] + r)[k - 1] == s'[k - 1];
        }
      }
    } else {
      assert s[..0] + s == s;
    }
  }

  /** `trimEnd` keeps a prefix: the text is the result followed by the whitespace it drops. */
  lemma TrimEndSplit(s: string)
    ensures var n := |TrimEnd(s)|;
            s == TrimEnd(s) + s[n..] && AllWhitespace(s[n..])
  {
    var r := TrimEnd(s);
    assert forall k :: 0 <= k < |s| ==> (r + s[|r|..])[k] == s[k];
    assert forall k :: 0 <= k < |s| - |r| ==> s[|r|..][k] == s[|r| + k];
  }

  /**
   * What `trim` computes: the text is some whitespace, then the result, then
   * some whitespace.
   */
  lemma TrimSpec(s: string) returns (before: string, after: string)
    ensures AllWhitespace(before) && AllWhitespace(after)
    ensures s == before + Trim(s) + after
  {
    var t := TrimStart(s);
    var r := TrimEnd(t);
    TrimStartSplit(s);
    TrimEndSplit(t);
    before, after := s[..|s| - |t|], t[|r|..];
    assert s == before + (r + after);
  }

  /** The result of `trim` neither starts nor ends with whitespace. */
  lemma TrimEnds(s: string)
    ensures Trim(s) == [] || (!IsWhitespace(Trim(s)[0]) && !IsWhitespace(Trim(s)[|Trim(s)| - 1]))
  {
    var t := TrimStart(s);
    var r := TrimEnd(t);
    if r != [] {
      assert r[0] == t[0];
    }
  }

  /** The result of `trim` is empty exactly when the text is all whitespace. */
  lemma TrimEmpty(s: string)
    ensures Trim(s) == "" <==> AllWhitespace(s)
  {
    var t := TrimStart(s);
    if AllWhitespace(s) && t != [] {
      TrimStartSplit(s);
    }
  }

  /** Leading whitespace does not change what `trim` returns. */
  lemma {:induction false} TrimLeadingWhitespace(w: string, s: string)
    requires AllWhitespace(w)
    ensures Trim(w + s) == Trim(s)
    decreases |w|
  {
    if |w| == 0 {
      assert w + s == s;
    } else {
      assert (w + s)[0] == w[0];
      assert (w + s)[1..] == w[1..] + s;
      TrimLeadingWhitespace(w[1..], s);
      assert TrimStart(w + s) == TrimStart(w[1..] + s);
    }
  }

  /** `trimStart` drops exactly a whitespace prefix in front of a non-whitespace character. */
  lemma {:induction false} TrimStartExact(w: string, x: string)
    requires AllWhitespace(w) && x != [] && !IsWhitespace(x[0])
    ensures TrimStart(w + x) == x
    decreases |w|
  {
    if w == [] {
      assert w + x == x;
    } else {
      assert (w + x)[0] == w[0];
      assert (w + x)[1..] == w[1..] + x;
      TrimStartExact(w[1..], x);
    }
  }

  /** `trimEnd` drops exactly a whitespace suffix after a non-whitespace character. */
  lemma {:induction false} TrimEndExact(x: string, w: string)
    requires AllWhitespace(w) && x != [] && !IsWhitespace(x[|x| - 1])
    ensures TrimEnd(x + w) == x
    decreases |w|
  {
    if w == [] {
      assert x + w == x;
    } else {
      var n := |x + w|;
      assert (x + w)[n - 1] == w[|w| - 1];
      assert (x + w)[..n - 1] == x + w[..|w| - 1];
      TrimEndExact(x, w[..|w| - 1]);
    }
  }

  /** Trimming whitespace around a text that neither starts nor ends with whitespace gives that text. */
  lemma TrimExact(before: string, x: string, after: string)
    requires AllWhitespace(before) && AllWhitespace(after)
    requires x != [] && !IsWhitespace(x[0]) && !IsWhitespace(x[|x| - 1])
    ensures Trim(before + x + after) == x
  {
    assert before + x + after == before + (x + after);
    TrimStartExact(before, x + after);
    TrimEndExact(x, after);
  }

  /** Trimming twice is trimming once. */
  lemma TrimIdempotent(s: string)
    ensures Trim(Trim(s)) == Trim(s)
  {
    var r := Trim(s);
    TrimEnds(s);
    assert TrimStart(r) == r;
    assert TrimEnd(r) == r;
  }
}
