/** What a run of `process_links` guarantees about the session file and the pending list. */
module PipelineLemmas {
  import opened Wrappers
  import opened Seqs
  import opened Scraper
  import opened Resolver
  import opened Selection
  import opened Downloader
  import opened Pipeline
  import opened Text

  /** The file is in step with the pending list. */
  predicate Synced(st: Store)
  {
    st.file == Saved(st.pending)
  }

  /** Entry: a non-empty saved list is resumed and the page is not consulted; anything
      else (no file, an unreadable one, an empty list) leads to a fresh scrape, whose empty
      result leaves the file as it was and whose non-empty result is saved. */
  lemma EntryRules(file: StateFile, page: PageFetch, other: PageFetch)
    ensures Resumes(file) ==> Entered(file, page) == Entered(file, other) == Store(file.links, file)
    ensures !Resumes(file) ==> Entered(file, page).pending == ScrapeLinks(page, FilterPrefix)
    ensures !Resumes(file) && ScrapeLinks(page, FilterPrefix) == [] ==> Entered(file, page).file == file
    ensures Entered(file, page).pending != [] ==> Synced(Entered(file, page))
    ensures file.Absent? || file.Unreadable? || file == Saved([]) ==> !Resumes(file)
  {
  }

  /** A freshly scraped session has no duplicate links, all with the prefix. */
  lemma FreshSessionWellFormed(file: StateFile, page: PageFetch)
    requires !Resumes(file)
    ensures NoDups(Entered(file, page).pending)
    ensures forall i :: 0 <= i < |Entered(file, page).pending| ==>
              StartsWith(Entered(file, page).pending[i], FilterPrefix)
  {
  }

  /** After a download: success with the link pending removes exactly its first occurrence,
      leaves the rest in order and rewrites the file to the new list; otherwise nothing moves. */
  lemma AfterDownloadEffect(st: Store, link: string, ok: bool)
    ensures var r := AfterDownload(st, link, ok);
            ok && link in st.pending ==>
              var i := IndexOf(st.pending, link);
              r.pending == st.pending[..i] + st.pending[i + 1..] && r.file == Saved(r.pending) &&
              |r.pending| == |st.pending| - 1
    ensures !ok || link !in st.pending ==> AfterDownload(st, link, ok) == st
  {
    if ok && link in st.pending { RemoveFirstAt(st.pending, link); }
  }

  /** Durability: during the download phase the file always equals the pending list, and
      the pending list only ever shrinks to a subsequence of what it was. */
  lemma {:induction false} DownloadsKeepSynced(st: Store, selected: seq<DiscoveredFile>, serve: string -> Response)
    requires Synced(st)
    ensures Synced(AfterDownloads(st, selected, serve))
    ensures IsSubseq(AfterDownloads(st, selected, serve).pending, st.pending)
    decreases |selected|
  {
    if selected == [] {
      SubseqRefl(st.pending);
    } else {
      var n := |selected| - 1;
      DownloadsKeepSynced(st, selected[..n], serve);
      var mid := AfterDownloads(st, selected[..n], serve);
      var link := selected[n].pageLink;
      if Succeeds(serve(selected[n].url)) && link in mid.pending {
        RemoveFirstSubseq(mid.pending, link);
        SubseqTrans(RemoveFirst(mid.pending, link), mid.pending, st.pending);
      }
    }
  }

  /** On a duplicate-free pending list the downloads remove exactly the page links of the
      files that downloaded successfully. */
  lemma {:induction false} DownloadsRemoveSucceeded(st: Store, selected: seq<DiscoveredFile>, serve: string -> Response)
    requires NoDups(st.pending)
    ensures NoDups(AfterDownloads(st, selected, serve).pending)
    ensures forall x :: x in AfterDownloads(st, selected, serve).pending <==>
              x in st.pending && x !in Succeeded(selected, serve)
    decreases |selected|
  {
    if selected != [] {
      var n := |selected| - 1;
      DownloadsRemoveSucceeded(st, selected[..n], serve);
      var mid := AfterDownloads(st, selected[..n], serve);
      var link := selected[n].pageLink;
      if Succeeds(serve(selected[n].url)) {
        RemoveFirstNoDups(mid.pending, link);
      }
    }
  }

  /** Ending with nothing found means no pending link resolved; the session file is then
      removed, and the dialog's answer and the download responses play no part (no
      selection is requested). `NoResolutionRemovesFile` is the converse. */
  lemma NothingFoundCleansUp(file: StateFile, page: PageFetch, fetch: string -> PageOutcome, stamp: string,
                             choice: Choice, serve: string -> Response, choice': Choice, serve': string -> Response)
    requires Outcome(file, page, fetch, stamp, choice, serve).1 == NothingFound
    ensures Outcome(file, page, fetch, stamp, choice, serve).0.file == Absent
    ensures Outcome(file, page, fetch, stamp, choice, serve) == Outcome(file, page, fetch, stamp, choice', serve')
    ensures var st := Entered(file, page); st.pending != [] && Discovered(st.pending, fetch, stamp, |st.pending|) == []
    ensures var st := Entered(file, page);
            forall i :: 0 <= i < |st.pending| ==> Resolve(st.pending[i], fetch(st.pending[i]), stamp, i).None?
  {
    var st := Entered(file, page);
    DiscoveredEmpty(st.pending, fetch, stamp, |st.pending|);
  }

  /** When no pending link resolves, the run ends without a selection and removes the file. */
  lemma NoResolutionRemovesFile(file: StateFile, page: PageFetch, fetch: string -> PageOutcome, stamp: string,
                                choice: Choice, serve: string -> Response)
    requires var st := Entered(file, page);
             st.pending != [] &&
             forall i :: 0 <= i < |st.pending| ==> Resolve(st.pending[i], fetch(st.pending[i]), stamp, i).None?
    ensures Outcome(file, page, fetch, stamp, choice, serve).1 == NothingFound
    ensures Outcome(file, page, fetch, stamp, choice, serve).0.file == Absent
  {
    var st := Entered(file, page);
    DiscoveredEmpty(st.pending, fetch, stamp, |st.pending|);
  }

  /** An empty selection leaves the session file as the entry phase left it: the very file
      found on disk when the run resumed, or the fresh scrape otherwise. */
  lemma CancelKeepsSession(file: StateFile, page: PageFetch, fetch: string -> PageOutcome, stamp: string,
                           choice: Choice, serve: string -> Response)
    ensures var (st, ending) := Outcome(file, page, fetch, stamp, choice, serve);
            ending == Cancelled ==> st == Entered(file, page) && (Resumes(file) ==> st.file == file)
    ensures Outcome(file, page, fetch, stamp, Cancel, serve).1 in {NoLinks, NothingFound, Cancelled}
  {
  }

  /** Final cleanup: an empty pending list means no session file; otherwise the file holds
      the remaining links, a subsequence of the list the run started with. */
  lemma CompletedCleanup(file: StateFile, page: PageFetch, fetch: string -> PageOutcome, stamp: string,
                         choice: Choice, serve: string -> Response)
    ensures var (st, ending) := Outcome(file, page, fetch, stamp, choice, serve);
            ending == Completed ==>
              (st.pending == [] ==> st.file == Absent) &&
              (st.pending != [] ==> st.file == Saved(st.pending)) &&
              IsSubseq(st.pending, Entered(file, page).pending)
  {
    var entered := Entered(file, page);
    if entered.pending != [] {
      var found := Discovered(entered.pending, fetch, stamp, |entered.pending|);
      DownloadsKeepSynced(entered, Selected(found, choice), serve);
    }
  }

  /** Every way a run can end leaves the file either untouched (nothing to do), removed, or
      holding a subsequence of the run's starting list that equals the pending list. */
  lemma RunLeavesConsistentFile(file: StateFile, page: PageFetch, fetch: string -> PageOutcome, stamp: string,
                                choice: Choice, serve: string -> Response)
    ensures var (st, ending) := Outcome(file, page, fetch, stamp, choice, serve);
            (ending == NoLinks && st.file == file && st.pending == []) ||
            st.file == Absent ||
            (st.file == Saved(st.pending) && IsSubseq(st.pending, Entered(file, page).pending))
  {
    var ending := Outcome(file, page, fetch, stamp, choice, serve).1;
    if ending == Completed {
      CompletedCleanup(file, page, fetch, stamp, choice, serve);
    } else if ending == Cancelled {
      SubseqRefl(Entered(file, page).pending);
    }
  }

  /** A fresh session ends with exactly the links whose download never succeeded. */
  lemma FreshRunRemovesDownloaded(file: StateFile, page: PageFetch, fetch: string -> PageOutcome, stamp: string,
                                  choice: Choice, serve: string -> Response)
    ensures var entered := Entered(file, page);
            var selected := Selected(Discovered(entered.pending, fetch, stamp, |entered.pending|), choice);
            !Resumes(file) && Outcome(file, page, fetch, stamp, choice, serve).1 == Completed ==>
              forall x :: x in Outcome(file, page, fetch, stamp, choice, serve).0.pending <==>
                x in entered.pending && x !in Succeeded(selected, serve)
  {
    var entered := Entered(file, page);
    var selected := Selected(Discovered(entered.pending, fetch, stamp, |entered.pending|), choice);
    if !Resumes(file) {
      DownloadsRemoveSucceeded(entered, selected, serve);
    }
  }

  /** Resuming `[a, b, c]` and downloading the file resolved from `b` leaves `[a, c]` saved. */
  lemma ResumeScenario(a: string, b: string, c: string)
    requires a != b && b != c && a != c
    ensures AfterDownload(Store([a, b, c], Saved([a, b, c])), b, true) == Store([a, c], Saved([a, c]))
  {
    var s := [a, b, c];
    assert s[0] == a && s[1..] == [b, c] && s[1] == b;
    assert b in s;
    assert [b, c][0] == b && [b, c][1..] == [c];
    assert RemoveFirst([b, c], b) == [c];
    assert RemoveFirst(s, b) == [a] + RemoveFirst([b, c], b);
    assert [a] + [c] == [a, c];
  }
}
