/** How a downloaded file gets its name: the sanitiser shared by the resolver and
    the download engine, the last path segment of a URL, the `filename=` capture of
    a content-disposition header, and the priority chain with its fallback. */
module FileNames {
  import opened Wrappers
  import opened Text

  /** The characters the regex class `[<>:"/\\|?*]` matches. */
  predicate Forbidden(c: char)
  {
    c == '<' || c == '>' || c == ':' || c == '"' || c == '/' || c == '\\' || c == '|' || c == '?' || c == '*'
  }

  predicate Safe(s: string)
  {
    forall i :: 0 <= i < |s| ==> !Forbidden(s[i])
  }

  /** `re.sub(r'[<>:"/\\|?*]', '_', s)`. */
  function Sanitize(s: string): (r: string)
    ensures |r| == |s|
    ensures forall i :: 0 <= i < |s| && Forbidden(s[i]) ==> r[i] == '_'
    ensures forall i :: 0 <= i < |s| && !Forbidden(s[i]) ==> r[i] == s[i]
  {
    if s == [] then []
    else (if Forbidden(s[0]) then "_" else [s[0]]) + Sanitize(s[1..])
  }

  lemma SanitizeSafe(s: string)
    ensures Safe(Sanitize(s))
  {
  }

  /** Sanitising twice is sanitising once. */
  lemma SanitizeIdempotent(s: string)
    ensures Sanitize(Sanitize(s)) == Sanitize(s)
  {
    var r := Sanitize(s);
    assert Sanitize(r) == r by {
      forall i | 0 <= i < |r| ensures Sanitize(r)[i] == r[i] { assert !Forbidden(r[i]); }
    }
  }

  /** `s.split(c)[0]`: the part of `s` before the first `c`. */
  function BeforeFirst(s: string, c: char): (r: string)
    ensures c !in r
    ensures StartsWith(s, r)
    ensures r == s || s[|r|] == c
  {
    if s == [] || s[0] == c then []
    else [s[0]] + BeforeFirst(s[1..], c)
  }

  /** `s.split(c)[-1]`: the part of `s` after the last `c`. */
  function AfterLast(s: string, c: char): (r: string)
    ensures c !in r
    ensures |r| <= |s| && r == s[|s| - |r|..]
    ensures r == s || s[|s| - |r| - 1] == c
  {
    if s == [] || s[|s| - 1] == c then []
    else AfterLast(s[..|s| - 1], c) + [s[|s| - 1]]
  }

  /** `download_url.split('?')[0].split('#')[0]`: the URL without query and fragment. */
  function UrlPath(url: string): (path: string)
    ensures '?' !in path && '#' !in path
    ensures StartsWith(url, path)
    ensures path == url || url[|path|] == '?' || url[|path|] == '#'
  {
    var q := BeforeFirst(url, '?');
    var path := BeforeFirst(q, '#');
    assert path == q[..|path|];
    assert q == url[..|q|];
    assert forall i :: 0 <= i < |path| ==> path[i] == q[i];
    path
  }

  /** `download_url.split('?')[0].split('#')[0].split('/')[-1]`: the part of the path
      after its last `/`. */
  function UrlSegment(url: string): (r: string)
    ensures '/' !in r && '?' !in r && '#' !in r
    ensures var path := UrlPath(url);
            |r| <= |path| && r == path[|path| - |r|..] && (r == path || path[|path| - |r| - 1] == '/')
  {
    var path := UrlPath(url);
    var r := AfterLast(path, '/');
    assert forall i :: 0 <= i < |r| ==> r[i] == path[|path| - |r| + i];
    r
  }

  /** The group of `filename="?([^"]+)"?` when the match starts at `p`. The optional
      quote is tried first; when it leaves no non-quote character to capture, the regex
      backtracks to an empty `"?`, whose `[^"]+` then fails on the quote itself. */
  function FilenameAt(h: string, p: nat): (r: Option<string>)
    ensures r.Some? ==> r.value != [] && '"' !in r.value
    ensures r.Some? <==>
              (StartsAt(h, p, "filename=") &&
               (var from := if p + 9 < |h| && h[p + 9] == '"' then p + 10 else p + 9;
                from < |h| && h[from] != '"'))
    ensures r.Some? ==>
              (var from := if p + 9 < |h| && h[p + 9] == '"' then p + 10 else p + 9;
               StartsAt(h, from, r.value) && (from + |r.value| == |h| || h[from + |r.value|] == '"'))
  {
    if !StartsAt(h, p, "filename=") then None
    else
      var q := p + 9;
      var from := if q < |h| && h[q] == '"' then q + 1 else q;
      var j := RunEnd(h, from, c => c == '"');
      if j > from then Some(h[from..j]) else None
  }

  /** The first match starting at or after `p`, as `re.search` tries start positions
      from left to right. */
  function FilenameFrom(h: string, p: nat): (r: Option<string>)
    ensures r.Some? ==> exists q :: p <= q <= |h| && FilenameAt(h, q) == r &&
                          forall k :: p <= k < q ==> FilenameAt(h, k).None?
    ensures r.None? ==> forall q :: p <= q <= |h| ==> FilenameAt(h, q).None?
    decreases |h| - p
  {
    if p > |h| then None
    else if FilenameAt(h, p).Some? then FilenameAt(h, p)
    else FilenameFrom(h, p + 1)
  }

  /** `re.search(r'filename="?([^"]+)"?', h).group(1)`: the leftmost match. */
  function FilenameParam(h: string): (r: Option<string>)
    ensures r.Some? ==> r.value != [] && '"' !in r.value
    ensures r.Some? <==> exists p :: 0 <= p <= |h| && FilenameAt(h, p).Some?
    ensures r.Some? ==> exists p :: 0 <= p <= |h| && FilenameAt(h, p) == r &&
                          forall q :: 0 <= q < p ==> FilenameAt(h, q).None?
  {
    FilenameFrom(h, 0)
  }

  /** The name before sanitising (source lines 472-482): a non-empty
      content-disposition header decides alone, by its `filename=` capture or else the
      fileLabel; without one, the URL's last path segment if non-empty, else the label. */
  function Candidate(fileLabel: string, disposition: Option<string>, url: string): string
  {
    if disposition.Some? && disposition.value != [] then
      match FilenameParam(disposition.value)
      case Some(g) => g
      case None => fileLabel
    else if UrlSegment(url) != [] then UrlSegment(url)
    else fileLabel
  }

  const Suffix: string := "_download"

  /** The fallback name is never empty, never ends in a dot, and is as safe as the label. */
  lemma FallbackName(fileLabel: string)
    ensures var r := fileLabel + Suffix; r != [] && r[|r| - 1] != '.'
    ensures Safe(fileLabel) ==> Safe(fileLabel + Suffix)
  {
    var r := fileLabel + Suffix;
    assert forall i :: |fileLabel| <= i < |r| ==> r[i] == Suffix[i - |fileLabel|];
  }

  /** The file name the download is written under (source lines 472-488). */
  function FileName(fileLabel: string, disposition: Option<string>, url: string): (r: string)
    ensures r != [] && r[|r| - 1] != '.'
    ensures r == Sanitize(Candidate(fileLabel, disposition, url)) || r == fileLabel + Suffix
    ensures Safe(fileLabel) ==> Safe(r)
  {
    var n := Sanitize(Candidate(fileLabel, disposition, url));
    SanitizeSafe(Candidate(fileLabel, disposition, url));
    FallbackName(fileLabel);
    if n == [] || n[|n| - 1] == '.' then fileLabel + Suffix else n
  }

  /** The fallback is taken exactly when the sanitised candidate is empty or ends in a dot. */
  lemma FileNameFallback(fileLabel: string, disposition: Option<string>, url: string)
    ensures var n := Sanitize(Candidate(fileLabel, disposition, url));
            (FileName(fileLabel, disposition, url) == n) <==> (n != [] && n[|n| - 1] != '.')
  {
  }

  /** A header whose `filename=` matches names the file by the (sanitised) capture. */
  lemma HeaderCaptureWins(fileLabel: string, h: string, url: string)
    ensures FilenameParam(h).Some? ==> Candidate(fileLabel, Some(h), url) == FilenameParam(h).value
    ensures FilenameParam(h).Some? ==>
              var n := Sanitize(FilenameParam(h).value);
              n[|n| - 1] != '.' ==> FileName(fileLabel, Some(h), url) == n
  {
    if FilenameParam(h).Some? {
      assert h != [] by {
        var p :| 0 <= p <= |h| && FilenameAt(h, p).Some?;
        assert StartsAt(h, p, "filename=");
      }
      FileNameFallback(fileLabel, Some(h), url);
    }
  }

  /** A non-empty header without a match keeps the label, whatever the URL says. */
  lemma HeaderWithoutMatchKeepsLabel(fileLabel: string, h: string, url: string)
    requires h != [] && FilenameParam(h).None?
    ensures Candidate(fileLabel, Some(h), url) == fileLabel
  {
  }

  /** Without a header the URL's last segment is used when it is non-empty. */
  lemma NoHeaderUsesUrl(fileLabel: string, url: string)
    requires UrlSegment(url) != []
    ensures Candidate(fileLabel, None, url) == UrlSegment(url)
    ensures Candidate(fileLabel, Some([]), url) == UrlSegment(url)
  {
  }

  /** Without a header and with an empty URL segment the label is kept. */
  lemma NoHeaderEmptySegmentKeepsLabel(fileLabel: string, url: string)
    requires UrlSegment(url) == []
    ensures Candidate(fileLabel, None, url) == fileLabel
    ensures Candidate(fileLabel, Some([]), url) == fileLabel
  {
  }
}
