# Web page link downloader — a verified model of its core

The program is a desktop tool. It scrapes one web page for links under a fixed host
prefix, follows each link to a file page, and finds the file's display name and direct
download URL there. The user picks files in a checkbox dialog, and the tool downloads
them. The list of page links still to be processed is kept in a session file next to
the downloads, so an interrupted run resumes where it stopped.

This project models the logic of that tool in Dafny and proves its properties. The
GUI, the network and the disk are replaced by their observable outcomes:

- the hrefs of the scraped page;
- the meta title and script texts of each file page;
- the dialog's answer;
- the status, headers and chunk lengths of each download;
- the session file, modelled as a value.

Modules:

- `Wrappers` holds `Option` and `Somes`, which keeps the values of a list of options.
- `Text` has prefix tests, substring search and maximal runs of characters outside a stop class.
- `Seqs` has duplicate-freedom, subsequences, and Python's `list.remove` as `RemoveFirst`.
- `FileNames` has the sanitiser and the download file name: the `filename=` capture of a
  `content-disposition` header, the URL's last path segment, and the fallback.
- `Scraper` is `scrape_links`: the prefix filter and `dict.fromkeys` de-duplication.
- `Resolver` is one iteration of the discovery loop: the display name, the first script
  defining `function download`, and the leftmost `window.open` URL in it.
- `Selection` is the selection dialog's OK and Cancel handlers.
- `Downloader` is `download_file_gui`: its status and header checks, and the chunk loop
  with its progress reports.
- `Pipeline` has the `Session` class: `process_links` as methods that update the pending
  list and the session file. Each method is proved against a specification function
  (`Entered`, `Discovered`, `AfterDownload`, `AfterDownloads`, `Finished`, `Outcome`).
- `PipelineLemmas` proves what a run guarantees about the session file: durability,
  order-preserving removal and cleanup.

Three behaviours of the code are easy to misread, and the model follows the code in each:

- `raise_for_status` raises only for statuses 400 to 599. A 1xx or 3xx scrape response
  is parsed like a 200 one, so "any non-2xx status gives no links" does not hold.
- The download loop has no clean-up. When the stream or the disk fails after some
  chunks, those bytes remain on disk under the final name and the call returns False.
  `DownloadFile` states exactly that (`written` is `Some` whenever a file was opened).
- The fallback name `label + "_download"` is not sanitised again. The model says it is
  safe whenever the label is safe.

## Model

| member | source | states |
|---|---|---|
| FileNames.Forbidden | main.py:328 | definition: the nine characters of the regex class, `<`, `>`, `:`, `"`, `/`, backslash, vertical bar, `?` and `*`; `Sanitize` and `SanitizeSafe` state what becomes of them |
| FileNames.Sanitize | main.py:484 | the result has the input's length; each of the nine characters the regex class names (`Forbidden`) becomes `_`; every other character is unchanged |
| FileNames.SanitizeSafe | main.py:328 | no forbidden character survives sanitising |
| FileNames.SanitizeIdempotent | main.py:484 | sanitising twice equals sanitising once |
| FileNames.BeforeFirst | main.py:479 | `split(c)[0]` is the prefix of the input up to the first `c`, holding no `c` |
| FileNames.AfterLast | main.py:480 | `split(c)[-1]` is the suffix of the input after the last `c`, holding no `c` |
| FileNames.UrlPath | main.py:479 | the part before the first `?` and then the first `#` is a prefix of the URL holding neither character |
| FileNames.UrlSegment | main.py:479-480 | the URL segment holds no `/`, `?` or `#` and is the suffix of the URL's path after its last `/` (the whole path when it has none) |
| FileNames.FilenameAt | main.py:475 | a match at `p` needs `filename=` there; the capture is a non-empty run without `"` that starts right after `filename=` and its optional opening quote and is maximal: it stops at the next `"` or the end of the header |
| FileNames.FilenameFrom | main.py:475 | the search from `p` returns the match at the first position at or after `p` that has one, and nothing when no position has one |
| FileNames.FilenameParam | main.py:475 | `re.search` finds a capture exactly when some position matches; it returns the leftmost one, non-empty and without `"` |
| FileNames.Candidate | main.py:472-482 | definition of the name before sanitising: a non-empty header decides by its capture or the label, else a non-empty URL segment, else the label; its properties are `HeaderCaptureWins`, `HeaderWithoutMatchKeepsLabel`, `NoHeaderUsesUrl` and `NoHeaderEmptySegmentKeepsLabel` |
| FileNames.FallbackName | main.py:486-487 | `label + "_download"` is non-empty, does not end in `.`, and is safe when the label is |
| FileNames.FileName | main.py:472-488 | the name is never empty and never ends in `.`; it is the sanitised candidate or `label + "_download"`; it is safe when the label is |
| FileNames.FileNameFallback | main.py:484-488 | the sanitised candidate is kept exactly when it is non-empty and does not end in `.` |
| FileNames.HeaderCaptureWins | main.py:474-477 | a header with a `filename=` capture makes that capture the candidate, and the file is named by the sanitised capture unless that ends in `.` |
| FileNames.HeaderWithoutMatchKeepsLabel | main.py:474-477 | a non-empty header without a match keeps the label, whatever the URL |
| FileNames.NoHeaderUsesUrl | main.py:478-482 | without a header, a non-empty URL segment is the candidate |
| FileNames.NoHeaderEmptySegmentKeepsLabel | main.py:472-482 | with no header, or an empty one, and an empty URL segment, the label stays the candidate |
| Scraper.RaisesForStatus | main.py:439 | definition: `raise_for_status` raises exactly for statuses 400 to 599; `ScrapeLinks` states its effect |
| Scraper.Filter | main.py:445-448 | definition of the prefix filter; its properties are `FilterMembers`, `FilterSubseq` and `FilterKeepsMatching` |
| Scraper.Dedup | main.py:456 | definition of `dict.fromkeys` de-duplication; its properties are `DedupMembers`, `DedupFirstSeen` and `DedupOfNoDups` |
| Scraper.FilterMembers | main.py:445-448 | the filter keeps exactly the hrefs that start with the prefix |
| Scraper.FilterSubseq | main.py:445-448 | the filtered hrefs keep their page order |
| Scraper.FilterKeepsMatching | main.py:445-448 | a list whose every entry matches passes the filter unchanged |
| Scraper.DedupMembers | main.py:456 | `dict.fromkeys` keeps each value exactly once, and the same set of values |
| Scraper.DedupFirstSeen | main.py:456 | the kept values are in order of first occurrence |
| Scraper.DedupOfNoDups | main.py:456 | a duplicate-free list is its own de-duplication |
| Scraper.ScrapeLinks | main.py:434-460 | every returned link starts with the prefix and occurs once; on a usable reply the links are exactly the matching hrefs; a fetch error or a 4xx/5xx status gives `[]` |
| Scraper.ScrapeFirstSeen | main.py:445-456 | the scrape lists the matching hrefs in first-seen order |
| Scraper.ScrapeIdempotent | main.py:434-460 | scraping a page whose links are an earlier scrape's result gives that result back |
| Scraper.DuplicateAnchorScenario | main.py:445-456 | anchors `a, other, b, a`, where `other` lacks the prefix, scrape to `[a, b]` |
| Scraper.FilterDropsForeign | main.py:445-448 | in that page, the filter drops only the foreign link |
| Scraper.DedupDropsRepeat | main.py:456 | in that page, de-duplication drops only the second `a` |
| Text.StartsWith | main.py:447 | definition of `str.startswith`; `FilterMembers` and `ScrapeLinks` state the filter by it |
| Text.Contains | main.py:336 | definition of the `in` substring test; `DefinesDownload` is built on it and `ContainsExtend` states that appending text keeps a match |
| Text.RunEnd | main.py:475 | a greedy negated character-class run ends exactly at the first stop character at or after its start, or at the end; `FilenameAt` uses it for `[^"]+` and `UrlEnd` for `[^\s"\'\)]+` |
| Resolver.IsSpace | main.py:341 | definition: the characters Python's `\s` matches in a `str` pattern (those for which `str.isspace` holds) |
| Resolver.EndsUrl | main.py:341 | definition: the characters `[^\s"\'\)]` refuses; `UrlEnd` and `UrlAt` state that the URL group stops at them |
| Resolver.UrlEnd | main.py:341 | `[^\s"\'\)]+` runs exactly to the first whitespace, quote or `)` |
| Resolver.UrlAt | main.py:341 | a `https?://` group is a URL at that position, starts with a scheme, holds no stop character, and is maximal: the text ends or a stop character follows it |
| Resolver.SchemeRun | main.py:341 | a scheme plus a non-empty run of URL characters forms a well-formed group |
| Resolver.UrlAtStart | main.py:341 | a well-formed URL (a scheme and at least one URL character) at a position, ended by a stop character or the text's end, is the group found there |
| Resolver.ShortestHttpUrl | main.py:341 | `http://x`, a scheme and one character, is matched whole |
| Resolver.OpenCallAt | main.py:341 | a match at `p` needs `window.open(` and a quote there, and yields a well-formed URL that starts at `p + 13` and runs to the end of the text or to a stop character |
| Resolver.OpenCallFrom | main.py:341 | the search from `p` returns the first position with a match, and nothing when none has one |
| Resolver.DirectUrl | main.py:341 | a URL is found exactly when some position matches; it is the leftmost match, an `http(s)://` URL without whitespace, quotes or `)` |
| Resolver.DefinesDownload | main.py:336 | definition: a script with text that contains `function download`; `DownloadScript` and `OnlyFirstScriptSearched` state how it selects the script |
| Resolver.DownloadScript | main.py:333-338 | the first script whose text contains `function download`, else none |
| Resolver.ScriptUrl | main.py:340-352 | a URL exists exactly when there is a download script and its text has a match |
| Resolver.OnlyFirstScriptSearched | main.py:335-343 | when script `i` is the first to define `function download`, the URL is that script's leftmost match (or none), whatever later scripts hold |
| Resolver.DownloadScriptScenario | main.py:333-343 | a one-script page whose text before `window.open("` holds `function download` and no `.`, with `<url>` followed by a stop character or the end, yields `<url>` |
| Resolver.OpenCallAfterDotFree | main.py:341 | after dot-free text, `window.open(` plus a quote plus a URL followed by a stop character or the end of the text yields exactly that URL |
| Resolver.Decimal | main.py:330 | `str(i)` of the index is a non-empty string of digits whose decimal value is the index |
| Resolver.DecimalInjective | main.py:330 | distinct indices give distinct strings |
| Resolver.TitleName | main.py:324-331 | a non-empty meta title gives its sanitised text; otherwise the name is exactly `download_<stamp>_<index>`; it is never empty |
| Resolver.Resolve | main.py:315-354 | a file is discovered exactly when the page answers 200 and its first download script holds a URL; the file carries that URL, its own page link and the `TitleName` of the page's meta title |
| Selection.Checked | main.py:90-93 | definition of the files at checked positions; its properties are `CheckedSubseq`, `CheckedMembers` and `CheckedAll`, and `OnOk` is proved equal to it |
| Selection.Selected | main.py:88-101 | definition of the dialog's answer: the checked files on OK, none otherwise; `Respond` is proved equal to it and `SelectedDefaults` states its defaults |
| Selection.Checkboxes | main.py:59-61 | one checkbox per file, checked unless the user unticked it |
| Selection.OnOk | main.py:88-96 | returns the checked files, in list order |
| Selection.Respond | main.py:88-101 | OK returns the checked files; Cancel and closing the window return `[]` |
| Selection.CheckedSubseq | main.py:90-93 | the chosen files keep the order of the list |
| Selection.CheckedMembers | main.py:90-93 | a file is chosen exactly when a checked position holds it |
| Selection.CheckedAll | main.py:90-93 | with every box checked, all files are chosen |
| Selection.SelectedDefaults | main.py:60 | OK with nothing unticked selects every file; Cancel selects none |
| Downloader.TotalSize | main.py:491 | definition of `int(headers.get('content-length', 0))`: 0 when absent, the value when it parses, none when `int` raises; `DownloadFile` states its effect |
| Downloader.Opens | main.py:470-493 | definition: status 200 and a parsable length, the condition under which the file is opened; `DownloadFile` states that no file exists otherwise |
| Downloader.Succeeds | main.py:470-514 | definition of a True result: the file opens and the stream does not break; `DownloadFile` returns exactly it |
| Downloader.Sum | main.py:500 | definition of `downloaded_so_far` after the given chunks; `SumPrefixMonotone` states it never decreases |
| Downloader.Reports | main.py:493-501 | definition of the `update_progress` calls: one before the loop, one after each chunk; its properties are `ReportsAt` and `ReportsProgress`, and `WriteChunks` is proved to produce it |
| Downloader.DownloadFile | main.py:468-514 | returns True exactly for status 200, a parsable length and an unbroken stream; no file and no reports unless the file was opened; otherwise the file holds the chunk bytes under `FileName`, with the reports `Reports` describes |
| Downloader.WriteChunks | main.py:493-501 | the loop writes the sum of the chunk lengths and reports 0, then the running total after each chunk |
| Downloader.ReportsAt | main.py:495-501 | report `k` carries the bytes of the first `k` chunks; there is one report more than chunks |
| Downloader.SumPrefixMonotone | main.py:500 | the running byte count never decreases |
| Downloader.ReportsProgress | main.py:493-501 | reports start at 0, never decrease, end at the total written, and carry the same total and name |
| Seqs.IndexOf | main.py:389-390 | the position of the first occurrence: it holds the value and no earlier position does |
| Seqs.RemoveFirst | main.py:389-390 | definition of `list.remove`; its properties are `RemoveFirstAt`, `RemoveFirstMultiset`, `RemoveFirstSubseq` and `RemoveFirstNoDups` |
| Seqs.RemoveFirstAt | main.py:390 | `list.remove` cuts out exactly the first occurrence and shortens the list by one |
| Seqs.RemoveFirstMultiset | main.py:390 | `list.remove` takes away one copy of the value and nothing else |
| Seqs.RemoveFirstSubseq | main.py:390 | `list.remove` keeps the remaining order |
| Seqs.RemoveFirstNoDups | main.py:390 | on a duplicate-free list, `list.remove(y)` removes exactly `y` |
| Pipeline.Resumes | main.py:286-299 | definition: a saved, non-empty link list is resumed; `EntryRules` states the entry phase by it |
| Pipeline.Entered | main.py:282-308 | definition of the entry phase's state; `Session.Enter` is proved equal to it and `EntryRules` and `FreshSessionWellFormed` state its rules |
| Pipeline.Attempts | main.py:313-354 | definition: one `Resolve` per pending link with its `enumerate` index; the contract states there is one per link, and `Discovered`, `DiscoveredEmpty` and `DiscoveredLinks` are built on it |
| Pipeline.Discovered | main.py:313-354 | definition of the files the discovery loop collects; its properties are `DiscoveredStep`, `DiscoveredEmpty` and `DiscoveredLinks` |
| Pipeline.DiscoveredStep | main.py:344-354 | one more link adds its resolution, if any, to the end of the files found |
| Pipeline.AfterDownload | main.py:385-394 | definition of one download's effect on the state; its properties are in `AfterDownloadEffect` |
| Pipeline.AfterDownloads | main.py:380-398 | definition of the download phase's effect; its properties are `DownloadsKeepSynced` and `DownloadsRemoveSucceeded` |
| Pipeline.Finished | main.py:403-412 | definition of the final cleanup; `Session.Finish` is proved equal to it and `CompletedCleanup` states its effect |
| Pipeline.Outcome | main.py:264-421 | definition of a whole run; `Session.ProcessLinks` is proved equal to it and the `PipelineLemmas` lemmas state what it guarantees |
| Pipeline.Session.SaveStateFile | main.py:424-430 | the session file then holds exactly the given list |
| Pipeline.Session.Enter | main.py:282-308 | resume a non-empty saved list, else scrape and save a non-empty result; proceed exactly when links are pending, with the file then equal to them |
| Pipeline.Session.Discover | main.py:313-354 | the files found are the resolutions of the pending links, in order; none is found exactly when no link resolves; each file's page link is pending |
| Pipeline.DiscoveredEmpty | main.py:313-356 | resolving the first `n` links finds nothing exactly when none of them resolves |
| Pipeline.DiscoveredLinks | main.py:344-348 | every discovered file's page link is one of the links resolved |
| Pipeline.Session.ForgetSession | main.py:358-361 | the session file no longer exists |
| Pipeline.Session.RecordDownload | main.py:385-394 | the pending list and the file change as `AfterDownload` says |
| Pipeline.Session.DownloadSelected | main.py:380-398 | after the downloads, the pending list and the file are as `AfterDownloads` says |
| Pipeline.Session.Finish | main.py:403-412 | an empty pending list removes the session file; otherwise nothing changes |
| Pipeline.Session.ProcessLinks | main.py:264-421 | the final pending list, session file and way of ending are those the whole-run function `Outcome` gives for the file found on disk |
| PipelineLemmas.EntryRules | main.py:282-308 | a non-empty saved list is resumed without consulting the page; anything else scrapes; an empty scrape leaves the file as it was; a non-empty one is saved |
| PipelineLemmas.FreshSessionWellFormed | main.py:299-305 | a fresh pending list is duplicate-free and every link has the host prefix |
| PipelineLemmas.AfterDownloadEffect | main.py:383-394 | a success with the link pending removes its first occurrence, keeps the order around it and rewrites the file to equal the list; a failure or an absent link changes nothing |
| PipelineLemmas.DownloadsKeepSynced | main.py:380-398 | during the downloads the file always equals the pending list, which only shrinks to a subsequence |
| PipelineLemmas.DownloadsRemoveSucceeded | main.py:380-398 | on a duplicate-free list, exactly the page links of successful downloads go |
| PipelineLemmas.NothingFoundCleansUp | main.py:356-362 | ending with nothing found means links were pending and none of them resolved; the file is removed, and the dialog's answer and the downloads play no part |
| PipelineLemmas.NoResolutionRemovesFile | main.py:356-362 | when links are pending and none resolves, the run ends with nothing found and the file removed |
| PipelineLemmas.CancelKeepsSession | main.py:372-375 | an empty selection ends with the file as the entry phase left it (the file found on disk when resuming); Cancel never reaches the downloads |
| PipelineLemmas.CompletedCleanup | main.py:403-412 | after the downloads, an empty list means no file; otherwise the file equals the remaining list, a subsequence of the starting list |
| PipelineLemmas.RunLeavesConsistentFile | main.py:264-421 | every run leaves the file untouched with nothing to do, removed, or equal to a subsequence of the starting list |
| PipelineLemmas.FreshRunRemovesDownloaded | main.py:299-412 | a fresh session ends with exactly the links whose download did not succeed |
| PipelineLemmas.ResumeScenario | main.py:385-391 | resuming `[a, b, c]` and downloading `b`'s file saves `[a, c]` |

## Left out

- The Tkinter GUI: widgets, the log pane, the progress bar and its percentage and megabyte arithmetic, message boxes, and the Select All and Deselect All buttons. The dialog is modelled by its answer: OK with the set of unticked positions, or Cancel.
- Input checks in `start_processing_thread` and the folder picker: these are GUI.
- The worker thread and the selection queue. The run is modelled sequentially, with the dialog's answer as a parameter.
- HTTP and HTML parsing. Pages and responses are given as parameters:
  - a scraped page is the list of its `<a href>` values;
  - a file page is its status, meta title and script texts;
  - a download is its status, two headers, chunk lengths, and whether it broke.

  Each of these is a deterministic function of the URL.
- The session file's path (a SHA-1 of the URL under the download folder) and the output path. The model keeps one file per run.
- JSON reading and writing. A missing file is `Absent`, a file that cannot be read is `Unreadable`, and any list read is `Saved`. A JSON value that is not a list of strings is not modelled.
- `save_state_file` failing: its error is only logged. The model assumes every write succeeds.
- `os.remove` failing at lines 408-409: the error is only logged. The model assumes the removal succeeds.
- An exception from `os.remove` at line 360, or from parsing, reaching the top-level handler at lines 415-417: not modelled.
- Logging, and the button reset in the `finally` block.
- `Resolver.TitleName`: the timestamp from `datetime.now()` is one string parameter for the whole run. The source reads the clock once per page.
- `Downloader.DownloadFile`: an exception from `open()` is treated like a stream that breaks before its first chunk. The source leaves no file in that case, but the model records an empty written file.
- `Downloader.DownloadFile`: the 8192-byte block size only affects how the body is split, so chunks are arbitrary lengths.
