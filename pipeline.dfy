/** The pipeline orchestrator (`process_links` with `save_state_file`): resume or scrape,
    resolve every pending link, ask for a selection, download the chosen files, and keep
    the session file in step with the pending list. The network and the user are
    parameters: the scraped page, a fetch result per page link, the dialog's answer and a
    download response per direct URL. */
module Pipeline {
  import opened Wrappers
  import opened Seqs
  import opened Scraper
  import opened Resolver
  import opened Selection
  import opened Downloader

  /** The only links the scrape keeps (source line 279). */
  const FilterPrefix: string := "https://fuckingfast.co/"

  /** The session file at the hashed path: missing, present but not a readable JSON list,
      or holding a list of pending page links. */
  datatype StateFile = Absent | Unreadable | Saved(links: seq<string>)

  /** Where a run stopped. */
  datatype Ending =
    | NoLinks        // nothing to resume and the scrape found nothing (line 308)
    | NothingFound   // no pending link resolved to a file (line 362)
    | Cancelled      // the selection was empty (line 375)
    | Completed      // the selected files were processed (lines 400-412)

  /** The in-memory pending list together with the session file. */
  datatype Store = Store(pending: seq<string>, file: StateFile)

  /** A session file whose list is non-empty is resumed. */
  predicate Resumes(file: StateFile)
  {
    file.Saved? && file.links != []
  }

  /** Phase 1 (lines 282-308): resume, or scrape and persist a non-empty scrape. */
  function Entered(file: StateFile, page: PageFetch): Store
  {
    if Resumes(file) then Store(file.links, file)
    else
      var links := ScrapeLinks(page, FilterPrefix);
      if links == [] then Store([], file) else Store(links, Saved(links))
  }

  /** The result of resolving each page link, in order (the body of the loop at lines 315-354). */
  function Attempts(links: seq<string>, fetch: string -> PageOutcome, stamp: string): (r: seq<Option<DiscoveredFile>>)
    ensures |r| == |links|
  {
    seq(|links|, i requires 0 <= i < |links| => Resolve(links[i], fetch(links[i]), stamp, i))
  }

  /** Phase 2 (lines 313-354): the files found for the first `n` pending links. */
  function Discovered(links: seq<string>, fetch: string -> PageOutcome, stamp: string, n: nat): seq<DiscoveredFile>
    requires n <= |links|
  {
    Somes(Attempts(links, fetch, stamp)[..n])
  }

  /** Lines 385-394: a successful download removes the first occurrence of its page link
      and rewrites the session file; otherwise nothing changes. */
  function AfterDownload(st: Store, link: string, ok: bool): Store
  {
    if ok && link in st.pending then
      var rest := RemoveFirst(st.pending, link);
      Store(rest, Saved(rest))
    else st
  }

  /** Phase 3 (lines 380-398): the selected files downloaded one after the other. */
  function AfterDownloads(st: Store, selected: seq<DiscoveredFile>, serve: string -> Response): Store
  {
    if selected == [] then st
    else
      var n := |selected| - 1;
      AfterDownload(AfterDownloads(st, selected[..n], serve), selected[n].pageLink, Succeeds(serve(selected[n].url)))
  }

  /** Final cleanup (lines 403-412). */
  function Finished(st: Store): Store
  {
    if st.pending == [] then Store([], Absent) else st
  }

  /** A whole run of `process_links`, from the session file found on disk. */
  function Outcome(file: StateFile, page: PageFetch, fetch: string -> PageOutcome, stamp: string,
                   choice: Choice, serve: string -> Response): (Store, Ending)
  {
    var st := Entered(file, page);
    if st.pending == [] then (st, NoLinks)
    else
      var found := Discovered(st.pending, fetch, stamp, |st.pending|);
      if found == [] then (Store(st.pending, Absent), NothingFound)
      else
        var selected := Selected(found, choice);
        if selected == [] then (st, Cancelled)
        else (Finished(AfterDownloads(st, selected, serve)), Completed)
  }

  lemma DiscoveredStep(links: seq<string>, fetch: string -> PageOutcome, stamp: string, i: nat)
    requires i < |links|
    ensures var r := Resolve(links[i], fetch(links[i]), stamp, i);
            Discovered(links, fetch, stamp, i + 1) ==
              Discovered(links, fetch, stamp, i) + (if r.Some? then [r.value] else [])
  {
    SomesPrefix(Attempts(links, fetch, stamp), i);
  }

  /** Discovery finds nothing exactly when none of the first `n` links resolves. */
  lemma DiscoveredEmpty(links: seq<string>, fetch: string -> PageOutcome, stamp: string, n: nat)
    requires n <= |links|
    ensures Discovered(links, fetch, stamp, n) == [] <==>
              forall i :: 0 <= i < n ==> Resolve(links[i], fetch(links[i]), stamp, i).None?
  {
    var a := Attempts(links, fetch, stamp)[..n];
    SomesEmpty(a);
    assert forall i :: 0 <= i < n ==> a[i] == Resolve(links[i], fetch(links[i]), stamp, i);
  }

  /** Every discovered file points back to a pending link, the one the downloads remove. */
  lemma DiscoveredLinks(links: seq<string>, fetch: string -> PageOutcome, stamp: string, n: nat)
    requires n <= |links|
    ensures forall f :: f in Discovered(links, fetch, stamp, n) ==> f.pageLink in links
  {
    var a := Attempts(links, fetch, stamp)[..n];
    forall f | f in Discovered(links, fetch, stamp, n) ensures f.pageLink in links {
      SomesMembers(a, f);
      var i :| 0 <= i < |a| && a[i] == Some(f);
      assert Resolve(links[i], fetch(links[i]), stamp, i) == Some(f);
    }
  }

  /** The page links whose selected file downloaded successfully. */
  function Succeeded(selected: seq<DiscoveredFile>, serve: string -> Response): set<string>
  {
    if selected == [] then {}
    else
      var n := |selected| - 1;
      Succeeded(selected[..n], serve) + (if Succeeds(serve(selected[n].url)) then {selected[n].pageLink} else {})
  }

  /** One call of `process_links`: `pending` is `links_to_discover`, `stateFile` the file on disk. */
  class Session {
    var pending: seq<string>
    var stateFile: StateFile

    constructor (file: StateFile)
      ensures pending == [] && stateFile == file
    {
      pending := [];
      stateFile := file;
    }

    function State(): Store
      reads this
    {
      Store(pending, stateFile)
    }

    /** `save_state_file`: the file now holds exactly `links`. */
    method SaveStateFile(links: seq<string>)
      modifies this`stateFile
      ensures stateFile == Saved(links)
    {
      stateFile := Saved(links);
    }

    /** Resume from a non-empty session file, or scrape afresh and persist the result. */
    method Enter(page: PageFetch) returns (proceed: bool)
      modifies this
      ensures State() == Entered(old(stateFile), page)
      ensures proceed <==> pending != []
      ensures proceed ==> stateFile == Saved(pending)
    {
      pending := [];
      if stateFile.Saved? && stateFile.links != [] {
        pending := stateFile.links;
      }
      if pending == [] {
        pending := ScrapeLinks(page, FilterPrefix);
        if pending != [] {
          SaveStateFile(pending);
        } else {
          return false;
        }
      }
      return true;
    }

    /** Resolve every pending link in order, collecting the files found. */
    method Discover(fetch: string -> PageOutcome, stamp: string) returns (found: seq<DiscoveredFile>)
      ensures found == Discovered(pending, fetch, stamp, |pending|)
      ensures found == [] <==> forall i :: 0 <= i < |pending| ==> Resolve(pending[i], fetch(pending[i]), stamp, i).None?
      ensures forall f :: f in found ==> f.pageLink in pending
    {
      var links := pending;
      found := [];
      for i := 0 to |links|
        invariant found == Discovered(links, fetch, stamp, i)
      {
        var file := Resolve(links[i], fetch(links[i]), stamp, i);
        DiscoveredStep(links, fetch, stamp, i);
        if file.Some? {
          found := found + [file.value];
        }
      }
      DiscoveredEmpty(links, fetch, stamp, |links|);
      DiscoveredLinks(links, fetch, stamp, |links|);
    }

    /** Lines 359-360: remove the session file if it exists. */
    method ForgetSession()
      modifies this`stateFile
      ensures stateFile == Absent
    {
      stateFile := Absent;
    }

    /** Lines 385-394: account for one finished download. */
    method RecordDownload(link: string, ok: bool)
      modifies this
      ensures State() == AfterDownload(old(State()), link, ok)
    {
      if ok {
        if link in pending {
          pending := RemoveFirst(pending, link);
          SaveStateFile(pending);
        }
      }
    }

    /** Lines 380-398: download each selected file and record the outcome. */
    method DownloadSelected(selected: seq<DiscoveredFile>, serve: string -> Response)
      modifies this
      ensures State() == AfterDownloads(old(State()), selected, serve)
    {
      for i := 0 to |selected|
        invariant State() == AfterDownloads(old(State()), selected[..i], serve)
      {
        assert selected[..i + 1][..i] == selected[..i];
        var t := DownloadFile(selected[i].url, selected[i].name, serve(selected[i].url));
        RecordDownload(selected[i].pageLink, t.ok);
      }
      assert selected[..|selected|] == selected;
    }

    /** Lines 403-412: retire the session file once nothing is pending. */
    method Finish()
      modifies this
      ensures State() == Finished(old(State()))
    {
      if pending == [] {
        stateFile := Absent;
      }
    }

    /** `process_links` (lines 264-421). */
    method ProcessLinks(page: PageFetch, fetch: string -> PageOutcome, stamp: string,
                        choice: Choice, serve: string -> Response) returns (ending: Ending)
      modifies this
      ensures (State(), ending) == Outcome(old(stateFile), page, fetch, stamp, choice, serve)
    {
      var proceed := Enter(page);
      if !proceed {
        return NoLinks;
      }
      var found := Discover(fetch, stamp);
      if found == [] {
        ForgetSession();
        return NothingFound;
      }
      var selected := Respond(found, choice);
      if selected == [] {
        return Cancelled;
      }
      DownloadSelected(selected, serve);
      Finish();
      return Completed;
    }
  }
}
