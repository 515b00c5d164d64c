/** The link scraper (`scrape_links`): keep the page's hrefs that start with the
    prefix, then drop later repeats as `list(dict.fromkeys(...))` does. The HTML is
    abstracted as the sequence of `href` values of its `<a>` tags, in document order. */
module Scraper {
  import opened Text
  import opened Seqs

  /** The outcome of fetching the source page. */
  datatype PageFetch =
    | Unreachable                              // requests raised (connection error, timeout, ...)
    | Reply(status: int, hrefs: seq<string>)   // a response, with the hrefs of its <a> tags

  /** `response.raise_for_status()` raises for client and server errors only. */
  predicate RaisesForStatus(status: int)
  {
    400 <= status < 600
  }

  /** `[h for h in hrefs if h.startswith(prefix)]`. */
  function Filter(hrefs: seq<string>, prefix: string): seq<string>
    decreases |hrefs|
  {
    if hrefs == [] then []
    else if StartsWith(hrefs[0], prefix) then [hrefs[0]] + Filter(hrefs[1..], prefix)
    else Filter(hrefs[1..], prefix)
  }

  /** The filter keeps exactly the hrefs that start with the prefix. */
  lemma {:induction false} FilterMembers(hrefs: seq<string>, prefix: string)
    ensures var r := Filter(hrefs, prefix);
            (forall i :: 0 <= i < |r| ==> StartsWith(r[i], prefix)) &&
            forall x :: x in r <==> x in hrefs && StartsWith(x, prefix)
    decreases |hrefs|
  {
    if hrefs != [] {
      FilterMembers(hrefs[1..], prefix);
      var rest := Filter(hrefs[1..], prefix);
      assert forall x :: x in hrefs <==> x == hrefs[0] || x in hrefs[1..];
      if StartsWith(hrefs[0], prefix) {
        assert ([hrefs[0]] + rest)[1..] == rest;
      }
    }
  }

  /** The filter keeps the matching hrefs in their page order. */
  lemma {:induction false} FilterSubseq(hrefs: seq<string>, prefix: string)
    ensures IsSubseq(Filter(hrefs, prefix), hrefs)
    decreases |hrefs|
  {
    if hrefs != [] {
      FilterSubseq(hrefs[1..], prefix);
      var rest := Filter(hrefs[1..], prefix);
      if StartsWith(hrefs[0], prefix) {
        assert ([hrefs[0]] + rest)[1..] == rest;
      }
    }
  }

  /** `list(dict.fromkeys(s))`: each value once, at the place it was first seen.
      Defined by appending the elements of `s` left to right, skipping those already kept. */
  function Dedup(s: seq<string>): seq<string>
    decreases |s|
  {
    if s == [] then []
    else
      var init := Dedup(s[..|s| - 1]);
      var last := s[|s| - 1];
      if last in init then init else init + [last]
  }

  /** The kept values are the values of `s`, each once. */
  lemma {:induction false} DedupMembers(s: seq<string>)
    ensures NoDups(Dedup(s))
    ensures forall x :: x in Dedup(s) <==> x in s
    ensures |Dedup(s)| <= |s|
    decreases |s|
  {
    if s != [] {
      var t := s[..|s| - 1];
      var last := s[|s| - 1];
      DedupMembers(t);
      assert s == t + [last];
    }
  }

  /** The kept values are in first-seen order. */
  lemma {:induction false} DedupFirstSeen(s: seq<string>)
    ensures forall x :: x in Dedup(s) ==> x in s
    ensures forall i, j :: 0 <= i < j < |Dedup(s)| ==> IndexOf(s, Dedup(s)[i]) < IndexOf(s, Dedup(s)[j])
    decreases |s|
  {
    if s != [] {
      var t := s[..|s| - 1];
      var last := s[|s| - 1];
      DedupFirstSeen(t);
      DedupMembers(t);
      assert s == t + [last];
      var d := Dedup(t);
      forall x | x in t ensures IndexOf(s, x) == IndexOf(t, x) {
        IndexOfExtend(t, last, x);
      }
      if last !in d {
        assert last !in t;
        forall x | x in t ensures IndexOf(s, x) < IndexOf(s, last) {
          assert IndexOf(s, last) == |t| by {
            assert s[|t|] == last;
            assert forall k :: 0 <= k < |t| ==> s[k] != last;
          }
        }
      }
    }
  }

  lemma IndexOfExtend(t: seq<string>, y: string, x: string)
    requires x in t
    ensures IndexOf(t + [y], x) == IndexOf(t, x)
  {
    var s := t + [y];
    var i := IndexOf(t, x);
    var j := IndexOf(s, x);
    assert s[i] == x;
    assert forall k :: 0 <= k < |t| ==> s[k] == t[k];
  }

  /** A duplicate-free list is its own de-duplication. */
  lemma {:induction false} DedupOfNoDups(s: seq<string>)
    requires NoDups(s)
    ensures Dedup(s) == s
    decreases |s|
  {
    if s != [] {
      var t := s[..|s| - 1];
      assert NoDups(t);
      DedupOfNoDups(t);
      assert s[|s| - 1] !in t;
      assert s == t + [s[|s| - 1]];
    }
  }

  /** The scrape as `scrape_links` returns it: `[]` when the page could not be
      fetched, otherwise the prefix-matching hrefs without later repeats. */
  function ScrapeLinks(page: PageFetch, prefix: string): (r: seq<string>)
    ensures forall i :: 0 <= i < |r| ==> StartsWith(r[i], prefix)
    ensures NoDups(r)
    ensures page.Reply? && !RaisesForStatus(page.status) ==>
              forall x :: x in r <==> x in page.hrefs && StartsWith(x, prefix)
    ensures page.Unreachable? || RaisesForStatus(page.status) ==> r == []
  {
    match page
    case Unreachable => []
    case Reply(status, hrefs) =>
      if RaisesForStatus(status) then []
      else
        var f := Filter(hrefs, prefix);
        FilterMembers(hrefs, prefix);
        DedupMembers(f);
        var r := Dedup(f);
        assert forall i :: 0 <= i < |r| ==> r[i] in f;
        r
  }

  /** The scrape keeps the matching hrefs in the order they were first seen. */
  lemma ScrapeFirstSeen(hrefs: seq<string>, prefix: string, status: int)
    requires !RaisesForStatus(status)
    ensures var r := ScrapeLinks(Reply(status, hrefs), prefix);
            (forall x :: x in r ==> x in Filter(hrefs, prefix)) &&
            forall i, j :: 0 <= i < j < |r| ==>
              IndexOf(Filter(hrefs, prefix), r[i]) < IndexOf(Filter(hrefs, prefix), r[j])
  {
    DedupFirstSeen(Filter(hrefs, prefix));
  }

  /** Scraping a page that holds only the links of an earlier scrape gives them back unchanged. */
  lemma ScrapeIdempotent(page: PageFetch, prefix: string, status: int)
    requires !RaisesForStatus(status)
    ensures var r := ScrapeLinks(page, prefix); ScrapeLinks(Reply(status, r), prefix) == r
  {
    var r := ScrapeLinks(page, prefix);
    FilterKeepsMatching(r, prefix);
    DedupOfNoDups(r);
  }

  lemma {:induction false} FilterKeepsMatching(s: seq<string>, prefix: string)
    requires forall i :: 0 <= i < |s| ==> StartsWith(s[i], prefix)
    ensures Filter(s, prefix) == s
    decreases |s|
  {
    if s != [] { FilterKeepsMatching(s[1..], prefix); assert s == [s[0]] + s[1..]; }
  }

  /** Three matching anchors, two of them the same, and one foreign link: the scrape
      returns the two distinct matching links in first-seen order. */
  lemma DuplicateAnchorScenario(prefix: string, a: string, b: string, other: string)
    requires StartsWith(a, prefix) && StartsWith(b, prefix) && !StartsWith(other, prefix) && a != b
    ensures ScrapeLinks(Reply(200, [a, other, b, a]), prefix) == [a, b]
  {
    FilterDropsForeign(prefix, a, b, other);
    DedupDropsRepeat(a, b);
  }

  lemma FilterDropsForeign(prefix: string, a: string, b: string, other: string)
    requires StartsWith(a, prefix) && StartsWith(b, prefix) && !StartsWith(other, prefix)
    ensures Filter([a, other, b, a], prefix) == [a, b, a]
  {
    FilterKeepsPair(prefix, b, a);
    FilterSkips(prefix, other, [b, a]);
    FilterStep(a, [other, b, a], prefix);
    assert [a] + [other, b, a] == [a, other, b, a];
    assert [a] + [b, a] == [a, b, a];
  }

  lemma FilterSkips(prefix: string, other: string, t: seq<string>)
    requires !StartsWith(other, prefix)
    ensures Filter([other] + t, prefix) == Filter(t, prefix)
  {
    FilterStep(other, t, prefix);
  }

  lemma FilterKeepsPair(prefix: string, b: string, a: string)
    requires StartsWith(a, prefix) && StartsWith(b, prefix)
    ensures Filter([b, a], prefix) == [b, a]
  {
    FilterStep(a, [], prefix);
    assert [a] + [] == [a];
    FilterStep(b, [a], prefix);
    assert [b] + [a] == [b, a];
  }

  lemma DedupDropsRepeat(a: string, b: string)
    requires a != b
    ensures Dedup([a, b, a]) == [a, b]
  {
    DedupStep([], a);
    assert [] + [a] == [a];
    DedupStep([a], b);
    assert [a] + [b] == [a, b];
    DedupStep([a, b], a);
    assert [a, b] + [a] == [a, b, a];
  }

  lemma FilterStep(h: string, t: seq<string>, prefix: string)
    ensures Filter([h] + t, prefix) == if StartsWith(h, prefix) then [h] + Filter(t, prefix) else Filter(t, prefix)
  {
    assert ([h] + t)[0] == h && ([h] + t)[1..] == t;
  }

  lemma DedupStep(t: seq<string>, x: string)
    ensures Dedup(t + [x]) == if x in Dedup(t) then Dedup(t) else Dedup(t) + [x]
  {
    var s := t + [x];
    assert s[..|s| - 1] == t && s[|s| - 1] == x;
  }
}
