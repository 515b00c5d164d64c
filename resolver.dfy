/** The file resolver: turns one intermediary page into a discovered file (source
    lines 315-354). The fetched page is abstracted as its status code, the `content`
    of its `<meta name="title">` tag and the text of each of its `<script>` tags. */
module Resolver {
  import opened Wrappers
  import opened Text
  import opened FileNames

  /** What fetching one page link produced. */
  datatype PageOutcome =
    | Raised                                                          // requests raised
    | Page(status: int, metaTitle: Option<string>, scripts: seq<Option<string>>)

  /** A file found on an intermediary page; `pageLink` is the pending link it came from. */
  datatype DiscoveredFile = DiscoveredFile(name: string, url: string, pageLink: string)

  /** The characters Python's `\s` matches in a `str` pattern (those for which
      `str.isspace` holds). */
  predicate IsSpace(c: char)
  {
    ('\t' <= c <= '\r') || ('\U{1C}' <= c <= ' ') || c == '\U{85}' || c == '\U{A0}' ||
    c == '\U{1680}' || ('\U{2000}' <= c <= '\U{200A}') || c == '\U{2028}' || c == '\U{2029}' ||
    c == '\U{202F}' || c == '\U{205F}' || c == '\U{3000}'
  }

  /** What the class `[^\s"\'\)]` refuses: the characters that end the URL. */
  predicate EndsUrl(c: char)
  {
    IsSpace(c) || c == '"' || c == '\'' || c == ')'
  }

  /** End of the longest run of URL characters that begins at `i`. */
  function UrlEnd(t: string, i: nat): (j: nat)
    requires i <= |t|
    ensures i <= j <= |t|
    ensures forall k :: i <= k < j ==> !EndsUrl(t[k])
    ensures j == |t| || EndsUrl(t[j])
  {
    RunEnd(t, i, EndsUrl)
  }

  predicate IsHttpUrl(u: string)
  {
    StartsWith(u, "http://") || StartsWith(u, "https://")
  }

  /** No character of either scheme ends a URL. */
  lemma SchemeAllowed(scheme: string)
    requires scheme == "http://" || scheme == "https://"
    ensures forall i :: 0 <= i < |scheme| ==> !EndsUrl(scheme[i])
  {
  }

  /** The group `https?://[^\s"\'\)]+` when it starts at `k`. When `https` is not followed
      by `://`, backtracking to an empty `s?` would need `:` where the `s` is, so only the
      two literal schemes can start the group. */
  function UrlAt(t: string, k: nat): (r: Option<string>)
    ensures r.Some? ==> IsHttpUrl(r.value)
    ensures r.Some? ==> forall i :: 0 <= i < |r.value| ==> !EndsUrl(r.value[i])
    ensures r.Some? ==> StartsAt(t, k, r.value)
    ensures r.Some? ==> k + |r.value| == |t| || EndsUrl(t[k + |r.value|])
  {
    var scheme := if StartsAt(t, k, "https://") then "https://" else if StartsAt(t, k, "http://") then "http://" else "";
    if scheme == "" then None
    else
      var j := UrlEnd(t, k + |scheme|);
      if j == k + |scheme| then None
      else
        SchemeRun(t, k, scheme, j);
        Some(t[k..j])
  }

  /** A scheme followed by a non-empty run of URL characters is a URL match. */
  lemma SchemeRun(t: string, k: nat, scheme: string, j: nat)
    requires scheme == "http://" || scheme == "https://"
    requires StartsAt(t, k, scheme) && k + |scheme| < j <= |t|
    requires forall m :: k + |scheme| <= m < j ==> !EndsUrl(t[m])
    ensures IsHttpUrl(t[k..j])
    ensures forall i :: 0 <= i < j - k ==> !EndsUrl(t[k..j][i])
    ensures StartsAt(t, k, t[k..j])
  {
    var u := t[k..j];
    assert u[..|scheme|] == t[k..k + |scheme|];
    SchemeAllowed(scheme);
    forall i | 0 <= i < |u| ensures !EndsUrl(u[i]) {
      if i < |scheme| {
        assert u[i] == scheme[i];
      } else {
        assert u[i] == t[k + i];
      }
    }
  }

  /** The group of `window\.open\(["\'](https?://[^\s"\'\)]+)` when the match starts at `p`. */
  function OpenCallAt(t: string, p: nat): (r: Option<string>)
    ensures r.Some? ==> IsHttpUrl(r.value)
    ensures r.Some? ==> forall i :: 0 <= i < |r.value| ==> !EndsUrl(r.value[i])
    ensures r.Some? ==> StartsAt(t, p, "window.open(") && p + 12 < |t| && (t[p + 12] == '"' || t[p + 12] == '\'')
    ensures r.Some? ==> StartsAt(t, p + 13, r.value) && (p + 13 + |r.value| == |t| || EndsUrl(t[p + 13 + |r.value|]))
  {
    if !StartsAt(t, p, "window.open(") then None
    else if p + 12 >= |t| || (t[p + 12] != '"' && t[p + 12] != '\'') then None
    else UrlAt(t, p + 13)
  }

  /** The first match starting at or after `p`. */
  function OpenCallFrom(t: string, p: nat): (r: Option<string>)
    ensures r.Some? ==> exists q :: p <= q <= |t| && OpenCallAt(t, q) == r &&
                          forall k :: p <= k < q ==> OpenCallAt(t, k).None?
    ensures r.None? ==> forall q :: p <= q <= |t| ==> OpenCallAt(t, q).None?
    decreases |t| - p
  {
    if p > |t| then None
    else if OpenCallAt(t, p).Some? then OpenCallAt(t, p)
    else OpenCallFrom(t, p + 1)
  }

  /** `re.search(r'window\.open\(["\'](https?://[^\s"\'\)]+)', t).group(1)`. */
  function DirectUrl(t: string): (r: Option<string>)
    ensures r.Some? ==> IsHttpUrl(r.value) && forall i :: 0 <= i < |r.value| ==> !EndsUrl(r.value[i])
    ensures r.Some? <==> exists p :: 0 <= p <= |t| && OpenCallAt(t, p).Some?
    ensures r.Some? ==> exists p :: 0 <= p <= |t| && OpenCallAt(t, p) == r &&
                          forall q :: 0 <= q < p ==> OpenCallAt(t, q).None?
  {
    OpenCallFrom(t, 0)
  }

  /** `script.string and 'function download' in script.string`. */
  predicate DefinesDownload(script: Option<string>)
  {
    script.Some? && script.value != [] && Contains(script.value, "function download")
  }

  /** The text of the first script defining a download function (the loop with `break`). */
  function DownloadScript(scripts: seq<Option<string>>): (r: Option<string>)
    ensures r.Some? ==> exists i :: 0 <= i < |scripts| && DefinesDownload(scripts[i]) &&
                          scripts[i] == r && forall j :: 0 <= j < i ==> !DefinesDownload(scripts[j])
    ensures r.None? ==> forall i :: 0 <= i < |scripts| ==> !DefinesDownload(scripts[i])
  {
    if scripts == [] then None
    else if DefinesDownload(scripts[0]) then scripts[0]
    else
      var r := DownloadScript(scripts[1..]);
      assert r.Some? ==> exists i :: 1 <= i < |scripts| && DefinesDownload(scripts[i]) &&
                          scripts[i] == r && forall j :: 0 <= j < i ==> !DefinesDownload(scripts[j]) by {
        if r.Some? {
          var i :| 0 <= i < |scripts[1..]| && DefinesDownload(scripts[1..][i]) && scripts[1..][i] == r &&
                   forall j :: 0 <= j < i ==> !DefinesDownload(scripts[1..][j]);
          assert forall j :: 1 <= j < i + 1 ==> scripts[j] == scripts[1..][j - 1];
        }
      }
      assert r.None? ==> forall i :: 1 <= i < |scripts| ==> !DefinesDownload(scripts[i]) by {
        if r.None? { assert forall i :: 1 <= i < |scripts| ==> scripts[i] == scripts[1..][i - 1]; }
      }
      r
  }

  /** The direct URL of a page: searched for only in its first download script. */
  function ScriptUrl(scripts: seq<Option<string>>): (r: Option<string>)
    ensures r.Some? ==> IsHttpUrl(r.value)
    ensures r.Some? <==> DownloadScript(scripts).Some? && DirectUrl(DownloadScript(scripts).value).Some?
  {
    match DownloadScript(scripts)
    case None => None
    case Some(t) => DirectUrl(t)
  }

  /** Only the first download script is searched: whatever later scripts hold, the URL is
      the one found in script `i`, or none when script `i` has no match. */
  lemma OnlyFirstScriptSearched(scripts: seq<Option<string>>, i: nat)
    requires i < |scripts| && DefinesDownload(scripts[i])
    requires forall k :: 0 <= k < i ==> !DefinesDownload(scripts[k])
    ensures ScriptUrl(scripts) == DirectUrl(scripts[i].value)
  {
    var r := DownloadScript(scripts);
    var m :| 0 <= m < |scripts| && DefinesDownload(scripts[m]) && scripts[m] == r &&
             forall k :: 0 <= k < m ==> !DefinesDownload(scripts[k]);
    assert m == i;
  }

  /** The number a string of decimal digits spells. */
  function DigitsValue(s: string): nat
    requires forall i :: 0 <= i < |s| ==> '0' <= s[i] <= '9'
  {
    if s == [] then 0 else DigitsValue(s[..|s| - 1]) * 10 + (s[|s| - 1] - '0') as nat
  }

  /** `str(n)`: decimal digits that spell `n`. */
  function Decimal(n: nat): (r: string)
    ensures r != [] && forall i :: 0 <= i < |r| ==> '0' <= r[i] <= '9'
    ensures DigitsValue(r) == n
    ensures r[0] == '0' ==> r == "0"
  {
    var d := [(n % 10) as char + '0'];
    if n < 10 then d
    else
      var r := Decimal(n / 10) + d;
      assert r[..|r| - 1] == Decimal(n / 10);
      r
  }

  /** Different indices give different strings. */
  lemma DecimalInjective(m: nat, n: nat)
    requires Decimal(m) == Decimal(n)
    ensures m == n
  {
    assert DigitsValue(Decimal(m)) == m && DigitsValue(Decimal(n)) == n;
  }

  /** The display name (source lines 324-331): the sanitised meta title when the tag has a
      non-empty `content`, else `download_<stamp>_<index>`, with the timestamp as a parameter. */
  function TitleName(metaTitle: Option<string>, stamp: string, index: nat): (r: string)
    ensures r != []
    ensures metaTitle.Some? && metaTitle.value != [] ==> r == Sanitize(metaTitle.value)
    ensures !(metaTitle.Some? && metaTitle.value != []) ==> r == "download_" + stamp + "_" + Decimal(index)
    ensures Safe(stamp) ==> Safe(r)
  {
    if metaTitle.Some? && metaTitle.value != [] then
      SanitizeSafe(metaTitle.value);
      Sanitize(metaTitle.value)
    else
      var r := "download_" + stamp + "_" + Decimal(index);
      assert r[..9] == "download_";
      r
  }

  /** One iteration of the discovery loop: a file when the page answered 200 and its first
      download script holds a `window.open` URL; nothing otherwise. */
  function Resolve(link: string, outcome: PageOutcome, stamp: string, index: nat): (r: Option<DiscoveredFile>)
    ensures r.Some? <==> outcome.Page? && outcome.status == 200 && ScriptUrl(outcome.scripts).Some?
    ensures r.Some? ==> r.value.pageLink == link && IsHttpUrl(r.value.url) && r.value.name != []
    ensures r.Some? ==> r.value.url == ScriptUrl(outcome.scripts).value
    ensures r.Some? ==> r.value.name == TitleName(outcome.metaTitle, stamp, index)
  {
    match outcome
    case Raised => None
    case Page(status, metaTitle, scripts) =>
      if status != 200 then None
      else
        var name := TitleName(metaTitle, stamp, index);
        match ScriptUrl(scripts)
        case None => None
        case Some(u) => Some(DiscoveredFile(name, u, link))
  }

  /** A run of URL characters ended by a stop character (or the end) is what `UrlEnd` finds. */
  lemma UrlEndAt(t: string, i: nat, j: nat)
    requires i <= j <= |t|
    requires forall k :: i <= k < j ==> !EndsUrl(t[k])
    requires j == |t| || EndsUrl(t[j])
    ensures UrlEnd(t, i) == j
  {
    RunEndAt(t, i, j, EndsUrl);
  }

  /** A match needs the `.` of `window.open`, so none starts inside a dot-free prefix. */
  lemma NoCallInDotFreePrefix(pre: string, t: string, q: nat)
    requires '.' !in pre && StartsWith(t, pre + "window.open(") && q < |pre|
    ensures OpenCallAt(t, q).None?
  {
    var w := "window.open(";
    var n := |pre|;
    assert t[..n + 12] == pre + w;
    assert t[q + 6] != '.' by {
      if q + 6 < n { assert t[q + 6] == pre[q + 6]; } else { assert t[q + 6] == w[q + 6 - n]; }
    }
    assert t[q..q + 12][6] == t[q + 6];
    assert w[6] == '.';
  }

  /** A well-formed URL followed by a stop character is captured whole. */
  lemma UrlAtStart(t: string, k: nat, url: string)
    requires IsHttpUrl(url) && |url| > (if StartsWith(url, "https://") then 8 else 7) && forall i :: 0 <= i < |url| ==> !EndsUrl(url[i])
    requires StartsAt(t, k, url) && (k + |url| == |t| || EndsUrl(t[k + |url|]))
    ensures UrlAt(t, k) == Some(url)
  {
    assert t[k..k + |url|] == url;
    forall m | k <= m < k + |url| ensures !EndsUrl(t[m]) {
      assert t[m] == url[m - k];
    }
    if StartsWith(url, "https://") {
      assert t[k..k + 8] == url[..8];
      UrlEndAt(t, k + 8, k + |url|);
    } else {
      assert url[..7] == "http://";
      assert t[k..k + 7] == url[..7];
      assert t[k + 4] == url[4] == ':';
      assert !StartsAt(t, k, "https://") by { assert "https://"[4] == 's'; }
      UrlEndAt(t, k + 7, k + |url|);
    }
  }

  /** The shortest URL the group accepts: a scheme and one URL character. */
  lemma ShortestHttpUrl()
    ensures UrlAt("http://x", 0) == Some("http://x")
  {
    var u := "http://x";
    assert u[..7] == "http://";
    assert !StartsWith(u, "https://") by { assert u[4] != "https://"[4]; }
    UrlAtStart(u, 0, u);
  }

  /** `window.open(`, a quote and a well-formed URL form a match. */
  lemma CallAt(t: string, n: nat, url: string)
    requires StartsAt(t, n, "window.open(") && n + 12 < |t| && (t[n + 12] == '"' || t[n + 12] == '\'')
    requires IsHttpUrl(url) && |url| > (if StartsWith(url, "https://") then 8 else 7) && forall i :: 0 <= i < |url| ==> !EndsUrl(url[i])
    requires StartsAt(t, n + 13, url) && (n + 13 + |url| == |t| || EndsUrl(t[n + 13 + |url|]))
    ensures OpenCallAt(t, n) == Some(url)
  {
    UrlAtStart(t, n + 13, url);
  }

  /** The leftmost match is the result. */
  lemma FirstCallWins(t: string, n: nat, url: string)
    requires n <= |t| && OpenCallAt(t, n) == Some(url)
    requires forall q :: 0 <= q < n ==> OpenCallAt(t, q).None?
    ensures DirectUrl(t) == Some(url)
  {
    var r := DirectUrl(t);
    var p :| 0 <= p <= |t| && OpenCallAt(t, p) == r && forall q :: 0 <= q < p ==> OpenCallAt(t, q).None?;
  }

  /** A script of the form `<dot-free text>window.open("<url>...`, with `<url>` followed by
      a stop character or the end of the text, yields exactly `<url>`. */
  lemma OpenCallAfterDotFree(pre: string, quote: char, url: string, post: string)
    requires '.' !in pre
    requires quote == '"' || quote == '\''
    requires IsHttpUrl(url) && |url| > (if StartsWith(url, "https://") then 8 else 7) && forall i :: 0 <= i < |url| ==> !EndsUrl(url[i])
    requires post == [] || EndsUrl(post[0])
    ensures DirectUrl(pre + "window.open(" + [quote] + url + post) == Some(url)
  {
    var w := "window.open(";
    var t := pre + w + [quote] + url + post;
    var n := |pre|;
    assert t[..n + 12] == pre + w;
    forall q | 0 <= q < n ensures OpenCallAt(t, q).None? { NoCallInDotFreePrefix(pre, t, q); }
    assert t[n..n + 12] == w;
    assert t[n + 12] == quote;
    assert t[n + 13..n + 13 + |url|] == url;
    assert n + 13 + |url| < |t| ==> t[n + 13 + |url|] == post[0];
    CallAt(t, n, url);
    FirstCallWins(t, n, url);
  }

  /** `pat` still occurs after text is appended. */
  lemma ContainsExtend(s: string, pat: string, more: string)
    requires Contains(s, pat)
    ensures Contains(s + more, pat)
  {
    var p :| 0 <= p <= |s| && StartsAt(s, p, pat);
    assert (s + more)[p..p + |pat|] == s[p..p + |pat|];
    assert StartsAt(s + more, p, pat);
  }

  /** The one-script page of the form `function download(){ window.open("<url>"); }`: when
      the text before `window.open("` holds `function download` and no `.`, and a stop
      character or the end follows `<url>`, its direct URL is `<url>`. */
  lemma DownloadScriptScenario(pre: string, url: string, post: string)
    requires Contains(pre, "function download") && '.' !in pre
    requires IsHttpUrl(url) && |url| > (if StartsWith(url, "https://") then 8 else 7) && forall i :: 0 <= i < |url| ==> !EndsUrl(url[i])
    requires post == [] || EndsUrl(post[0])
    ensures ScriptUrl([Some(pre + "window.open(\"" + url + post)]) == Some(url)
  {
    var t := pre + "window.open(\"" + url + post;
    assert t == pre + ("window.open(\"" + url + post);
    ContainsExtend(pre, "function download", "window.open(\"" + url + post);
    assert DownloadScript([Some(t)]) == Some(t);
    assert t == pre + "window.open(" + ['"'] + url + post;
    OpenCallAfterDotFree(pre, '"', url, post);
  }
}
