/**
 * The list of sources under the deep dive (components/SourceList.tsx, lines
 * 10-22): keep the grounding chunks that carry web data, take that data, and
 * fold it into a list that admits a source only when no source with the same
 * URI is in it yet. Nothing is rendered when the list comes out empty.
 */
module SourceList {
  import opened Wrappers
  import opened Types

  /** `chunks.filter((c) => c.web).map((c) => c.web!)`. */
  function WebSources(chunks: seq<GroundingChunk>): (sources: seq<WebSource>)
    ensures |sources| <= |chunks|
    decreases |chunks|
  {
    if chunks == [] then []
    else (if chunks[0].web.Some? then [chunks[0].web.value] else []) + WebSources(chunks[1..])
  }

  /** Every kept source is the web data of a chunk, and the web data of every chunk is kept. */
  lemma {:induction false} WebSourcesMembers(chunks: seq<GroundingChunk>)
    ensures forall s :: s in WebSources(chunks) <==> GroundingChunk(Some(s)) in chunks
    decreases |chunks|
  {
    if chunks != [] {
      WebSourcesMembers(chunks[1..]);
      assert chunks == [chunks[0]] + chunks[1..];
      forall s ensures GroundingChunk(Some(s)) in chunks <==> GroundingChunk(Some(s)) == chunks[0] || GroundingChunk(Some(s)) in chunks[1..] {
      }
    }
  }

  /** Filtering keeps order: the sources of two lists joined are the two lists' sources joined. */
  lemma {:induction false} WebSourcesAppend(a: seq<GroundingChunk>, b: seq<GroundingChunk>)
    ensures WebSources(a + b) == WebSources(a) + WebSources(b)
    decreases |a|
  {
    if a == [] {
      assert a + b == b;
    } else {
      var head := if a[0].web.Some? then [a[0].web.value] else [];
      assert (a + b)[0] == a[0];
      assert (a + b)[1..] == a[1..] + b;
      WebSourcesAppend(a[1..], b);
      calc {
        WebSources(a + b);
        head + WebSources(a[1..] + b);
        head + (WebSources(a[1..]) + WebSources(b));
        (head + WebSources(a[1..])) + WebSources(b);
        WebSources(a) + WebSources(b);
      }
    }
  }

  /** Some source in `s` has this URI. */
  predicate HasUri(s: seq<WebSource>, uri: string) {
    exists k :: 0 <= k < |s| && s[k].uri == uri
  }

  predicate DistinctUris(s: seq<WebSource>) {
    forall k1, k2 :: 0 <= k1 < k2 < |s| ==> s[k1].uri != s[k2].uri
  }

  /** `acc.find(item => item.uri === current.uri)`: the first source with this URI. */
  function FindByUri(acc: seq<WebSource>, uri: string): (found: Option<WebSource>)
    ensures found.Some? <==> HasUri(acc, uri)
    ensures found.Some? ==> found.value in acc && found.value.uri == uri
    decreases |acc|
  {
    if acc == [] then None
    else if acc[0].uri == uri then Some(acc[0])
    else
      var rest := FindByUri(acc[1..], uri);
      assert HasUri(acc, uri) ==> HasUri(acc[1..], uri) by {
        if HasUri(acc, uri) {
          var k :| 0 <= k < |acc| && acc[k].uri == uri;
          assert acc[1..][k - 1].uri == uri;
        }
      }
      assert HasUri(acc[1..], uri) ==> HasUri(acc, uri) by {
        if HasUri(acc[1..], uri) {
          var k :| 0 <= k < |acc[1..]| && acc[1..][k].uri == uri;
          assert acc[k + 1].uri == uri;
        }
      }
      rest
  }

  /** The reducer: append `current` unless a source with its URI is already there. */
  function Admit(acc: seq<WebSource>, current: WebSource): seq<WebSource> {
    if FindByUri(acc, current.uri).None? then acc + [current] else acc
  }

  /**
   * `sources.reduce(Admit, [])`. A left fold: the last source is folded into
   * the result of folding all the others.
   */
  function Dedup(sources: seq<WebSource>): seq<WebSource>
    decreases |sources|
  {
    if sources == [] then []
    else Admit(Dedup(sources[..|sources| - 1]), sources[|sources| - 1])
  }

  /** `validSources`. */
  function ValidSources(chunks: seq<GroundingChunk>): seq<WebSource> {
    Dedup(WebSources(chunks))
  }

  /** The index of the first source with this URI. */
  function FirstIndex(s: seq<WebSource>, uri: string): (i: nat)
    requires HasUri(s, uri)
    ensures i < |s| && s[i].uri == uri
    ensures forall j :: 0 <= j < i ==> s[j].uri != uri
    decreases |s|
  {
    var p := s[..|s| - 1];
    if HasUri(p, uri) then
      var i := FirstIndex(p, uri);
      assert s[i] == p[i];
      i
    else
      assert forall j :: 0 <= j < |p| ==> s[j] == p[j];
      |s| - 1
  }

  /** A prefix's sources, URIs and first indices are the whole list's. */
  lemma PrefixFacts(s: seq<WebSource>, n: nat)
    requires n <= |s|
    ensures forall j :: 0 <= j < n ==> s[..n][j] == s[j]
    ensures forall u :: HasUri(s[..n], u) ==> HasUri(s, u) && FirstIndex(s, u) == FirstIndex(s[..n], u)
  {
    forall u | HasUri(s[..n], u) ensures HasUri(s, u) && FirstIndex(s, u) == FirstIndex(s[..n], u) {
      var i := FirstIndex(s[..n], u);
      assert s[i].uri == u;
      var f := FirstIndex(s, u);
      assert f <= i;
      assert s[..n][f].uri == u;
    }
  }

  /** What comes out: no more sources than went in, each of them one that went in. */
  lemma {:induction false} DedupMembers(xs: seq<WebSource>)
    ensures |Dedup(xs)| <= |xs|
    ensures forall k :: 0 <= k < |Dedup(xs)| ==> Dedup(xs)[k] in xs
    decreases |xs|
  {
    if xs != [] {
      var n := |xs|;
      var p := xs[..n - 1];
      DedupMembers(p);
      var rp := Dedup(p);
      forall k | 0 <= k < |rp| ensures rp[k] in xs {
        var j :| 0 <= j < |p| && p[j] == rp[k];
        assert xs[j] == rp[k];
      }
    }
  }

  /** A URI is among the sources that come out exactly when it is among those that went in. */
  lemma {:induction false} DedupCovers(xs: seq<WebSource>)
    ensures forall u :: HasUri(Dedup(xs), u) <==> HasUri(xs, u)
    decreases |xs|
  {
    DedupMembers(xs);
    forall u | HasUri(Dedup(xs), u) ensures HasUri(xs, u) {
      var k :| 0 <= k < |Dedup(xs)| && Dedup(xs)[k].uri == u;
      var j :| 0 <= j < |xs| && xs[j] == Dedup(xs)[k];
    }
    if xs != [] {
      var n := |xs|;
      var p, x := xs[..n - 1], xs[n - 1];
      DedupCovers(p);
      var rp := Dedup(p);
      forall u | HasUri(xs, u) ensures HasUri(Dedup(xs), u) {
        var i :| 0 <= i < n && xs[i].uri == u;
        if i < n - 1 {
          assert p[i].uri == u;
          assert HasUri(rp, u);
          var k :| 0 <= k < |rp| && rp[k].uri == u;
          assert Dedup(xs)[k] == rp[k];
        } else if FindByUri(rp, x.uri).None? {
          assert Dedup(xs)[|rp|] == x;
        }
      }
    }
  }

  /** No two sources that come out share a URI. */
  lemma {:induction false} DedupDistinct(xs: seq<WebSource>)
    ensures DistinctUris(Dedup(xs))
    decreases |xs|
  {
    if xs != [] {
      var n := |xs|;
      DedupDistinct(xs[..n - 1]);
      var rp := Dedup(xs[..n - 1]);
      var x := xs[n - 1];
      if FindByUri(rp, x.uri).None? {
        var r := rp + [x];
        forall k1, k2 | 0 <= k1 < k2 < |r| ensures r[k1].uri != r[k2].uri {
          if k2 == |rp| {
            assert r[k1] == rp[k1];
          } else {
            assert r[k1] == rp[k1] && r[k2] == rp[k2];
          }
        }
      }
    }
  }

  /** The first indices of the URIs already kept are all before the last input. */
  lemma KeptBeforeLast(xs: seq<WebSource>, p: seq<WebSource>, rp: seq<WebSource>)
    requires |xs| > 0 && p == xs[..|xs| - 1] && rp == Dedup(p)
    ensures forall k :: 0 <= k < |rp| ==>
              HasUri(p, rp[k].uri) && HasUri(xs, rp[k].uri)
              && FirstIndex(xs, rp[k].uri) == FirstIndex(p, rp[k].uri)
              && FirstIndex(xs, rp[k].uri) < |xs| - 1
  {
    DedupCovers(p);
    PrefixFacts(xs, |xs| - 1);
    forall k | 0 <= k < |rp| ensures HasUri(p, rp[k].uri) {
      assert HasUri(rp, rp[k].uri);
    }
  }

  /** A newly admitted last input is the first with its URI. */
  lemma AdmittedIsFirst(xs: seq<WebSource>)
    requires |xs| > 0
    requires FindByUri(Dedup(xs[..|xs| - 1]), xs[|xs| - 1].uri).None?
    ensures HasUri(xs, xs[|xs| - 1].uri) && FirstIndex(xs, xs[|xs| - 1].uri) == |xs| - 1
  {
    DedupCovers(xs[..|xs| - 1]);
    assert xs[|xs| - 1].uri == xs[|xs| - 1].uri;
  }

  /**
   * First occurrence wins: each source that comes out is the earliest input
   * with its URI, title included.
   */
  lemma {:induction false} DedupFirstWins(xs: seq<WebSource>)
    ensures forall k :: 0 <= k < |Dedup(xs)| ==>
              HasUri(xs, Dedup(xs)[k].uri) && Dedup(xs)[k] == xs[FirstIndex(xs, Dedup(xs)[k].uri)]
    decreases |xs|
  {
    if xs != [] {
      var n := |xs|;
      var p, x := xs[..n - 1], xs[n - 1];
      DedupFirstWins(p);
      KeptBeforeLast(xs, p, Dedup(p));
      PrefixFacts(xs, n - 1);
      var rp := Dedup(p);
      var r := Dedup(xs);
      if FindByUri(rp, x.uri).None? {
        AdmittedIsFirst(xs);
        assert r == rp + [x];
        forall k | 0 <= k < |r|
          ensures HasUri(xs, r[k].uri) && r[k] == xs[FirstIndex(xs, r[k].uri)]
        {
          if k < |rp| {
            assert r[k] == rp[k];
          }
        }
      } else {
        assert r == rp;
      }
    }
  }

  /** The sources of `r` appear in the order in which their URIs first appear in `xs`. */
  predicate InFirstSeenOrder(xs: seq<WebSource>, r: seq<WebSource>) {
    forall k1, k2 :: 0 <= k1 < k2 < |r| ==>
      HasUri(xs, r[k1].uri) && HasUri(xs, r[k2].uri)
      && FirstIndex(xs, r[k1].uri) < FirstIndex(xs, r[k2].uri)
  }

  /** Folding in one more input keeps the first-seen order. */
  lemma OrderStep(xs: seq<WebSource>, p: seq<WebSource>, rp: seq<WebSource>)
    requires |xs| > 0 && p == xs[..|xs| - 1] && rp == Dedup(p)
    requires InFirstSeenOrder(p, rp)
    ensures InFirstSeenOrder(xs, Dedup(xs))
  {
    var x := xs[|xs| - 1];
    KeptBeforeLast(xs, p, rp);
    var r := Dedup(xs);
    if FindByUri(rp, x.uri).None? {
      AdmittedIsFirst(xs);
      assert r == rp + [x];
      forall k1, k2 | 0 <= k1 < k2 < |r|
        ensures HasUri(xs, r[k1].uri) && HasUri(xs, r[k2].uri)
                && FirstIndex(xs, r[k1].uri) < FirstIndex(xs, r[k2].uri)
      {
        assert r[k1] == rp[k1];
        if k2 < |rp| {
          assert r[k2] == rp[k2];
        }
      }
    } else {
      assert r == rp;
    }
  }

  /** Sources come out in the order in which their URIs first appear. */
  lemma {:induction false} DedupOrder(xs: seq<WebSource>)
    ensures InFirstSeenOrder(xs, Dedup(xs))
    decreases |xs|
  {
    if xs != [] {
      var p := xs[..|xs| - 1];
      DedupOrder(p);
      OrderStep(xs, p, Dedup(p));
    }
  }

  /** A list whose URIs are already distinct comes out unchanged. */
  lemma {:induction false} DedupOfDistinct(xs: seq<WebSource>)
    requires DistinctUris(xs)
    ensures Dedup(xs) == xs
    decreases |xs|
  {
    if xs != [] {
      var n := |xs|;
      var p := xs[..n - 1];
      assert DistinctUris(p) by {
        forall k1, k2 | 0 <= k1 < k2 < |p| ensures p[k1].uri != p[k2].uri {
          assert p[k1] == xs[k1] && p[k2] == xs[k2];
        }
      }
      DedupOfDistinct(p);
      assert !HasUri(p, xs[n - 1].uri) by {
        forall k | 0 <= k < |p| ensures p[k].uri != xs[n - 1].uri {
          assert p[k] == xs[k];
        }
      }
      assert p + [xs[n - 1]] == xs;
    }
  }

  /** De-duplicating twice is de-duplicating once. */
  lemma DedupIdempotent(xs: seq<WebSource>)
    ensures Dedup(Dedup(xs)) == Dedup(xs)
  {
    DedupDistinct(xs);
    DedupOfDistinct(Dedup(xs));
  }

  /** `if (validSources.length === 0) return null;`: the list, or nothing to render. */
  function Rendered(chunks: seq<GroundingChunk>): Option<seq<WebSource>> {
    var sources := ValidSources(chunks);
    if |sources| == 0 then None else Some(sources)
  }

  /** No source is kept exactly when no chunk carries web data. */
  lemma {:induction false} WebSourcesEmpty(chunks: seq<GroundingChunk>)
    ensures WebSources(chunks) == [] <==> forall i :: 0 <= i < |chunks| ==> chunks[i].web.None?
    decreases |chunks|
  {
    if chunks != [] {
      WebSourcesEmpty(chunks[1..]);
      assert forall i :: 1 <= i < |chunks| ==> chunks[i] == chunks[1..][i - 1];
    }
  }

  /** De-duplication leaves a list empty exactly when it was empty. */
  lemma DedupEmpty(xs: seq<WebSource>)
    ensures Dedup(xs) == [] <==> xs == []
  {
    DedupCovers(xs);
    if xs != [] {
      assert HasUri(xs, xs[0].uri);
    }
  }

  /** Nothing is rendered exactly when no chunk carries web data. */
  lemma NothingRendered(chunks: seq<GroundingChunk>)
    ensures Rendered(chunks).None? <==> forall i :: 0 <= i < |chunks| ==> chunks[i].web.None?
  {
    WebSourcesEmpty(chunks);
    DedupEmpty(WebSources(chunks));
  }

  /** Two chunks with one URI and different titles: only the first is listed. */
  lemma ExampleDuplicateUri(a: WebSource, b: WebSource)
    requires a.uri == b.uri && a.title != b.title
    ensures ValidSources([GroundingChunk(Some(a)), GroundingChunk(Some(b))]) == [a]
  {
    var chunks := [GroundingChunk(Some(a)), GroundingChunk(Some(b))];
    assert chunks[1..] == [GroundingChunk(Some(b))];
    assert WebSources(chunks) == [a, b];
    assert [a, b][..1] == [a];
    assert [a][..0] == [];
    assert Dedup([a]) == [a];
    assert FindByUri([a], b.uri) == Some(a);
  }
}
