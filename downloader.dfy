/** The download engine (`download_file_gui`): a streamed GET whose response is
    abstracted as status, two headers, the lengths of the chunks `iter_content` yields,
    and whether the stream or the disk raised after those chunks. */
module Downloader {
  import opened Wrappers
  import opened FileNames

  /** The content-length header, as `int(...)` sees it. */
  datatype LengthHeader = NoLength | Length(n: int) | Malformed

  datatype Response =
    | Raised                              // requests.get raised
    | Reply(status: int, disposition: Option<string>, contentLength: LengthHeader,
            chunks: seq<nat>, broken: bool)

  /** One call of the progress callback: bytes so far, total (0 when unknown), file name. */
  datatype Progress = Progress(bytes: nat, total: int, name: string)

  /** A file left on disk: its name and how many bytes were written to it. */
  datatype WrittenFile = WrittenFile(name: string, size: nat)

  /** The result of one download: the returned flag, the file on disk, the progress reports. */
  datatype Transfer = Transfer(ok: bool, written: Option<WrittenFile>, reports: seq<Progress>)

  /** Bytes in the given chunks. */
  function Sum(chunks: seq<nat>): nat
  {
    if chunks == [] then 0 else Sum(chunks[..|chunks| - 1]) + chunks[|chunks| - 1]
  }

  /** The progress reports: one before the first chunk, then one after each chunk. */
  function Reports(chunks: seq<nat>, total: int, name: string): seq<Progress>
  {
    if chunks == [] then [Progress(0, total, name)]
    else Reports(chunks[..|chunks| - 1], total, name) + [Progress(Sum(chunks), total, name)]
  }

  /** `int(response.headers.get('content-length', 0))`; `None` when it would raise. */
  function TotalSize(h: LengthHeader): Option<int>
  {
    match h
    case NoLength => Some(0)
    case Length(n) => Some(n)
    case Malformed => None
  }

  /** The response leads to writing a file: status 200 and a parsable content-length. */
  predicate Opens(resp: Response)
  {
    resp.Reply? && resp.status == 200 && TotalSize(resp.contentLength).Some?
  }

  /** `download_file_gui` returns True. */
  predicate Succeeds(resp: Response)
  {
    Opens(resp) && !resp.broken
  }

  /** Stream the body to disk, reporting progress after every chunk (source lines 468-514). */
  method DownloadFile(url: string, fileLabel: string, resp: Response) returns (t: Transfer)
    ensures t.ok <==> Succeeds(resp)
    ensures !Opens(resp) ==> t.written.None? && t.reports == []
    ensures Opens(resp) ==>
              var name := FileName(fileLabel, resp.disposition, url);
              t.written == Some(WrittenFile(name, Sum(resp.chunks))) &&
              t.reports == Reports(resp.chunks, TotalSize(resp.contentLength).value, name)
  {
    if resp.Raised? || resp.status != 200 {
      return Transfer(false, None, []);
    }
    var fileName := FileName(fileLabel, resp.disposition, url);
    var total;
    match TotalSize(resp.contentLength) {
      case None => return Transfer(false, None, []);
      case Some(n) => total := n;
    }
    var downloadedSoFar, reports := WriteChunks(resp.chunks, total, fileName);
    return Transfer(!resp.broken, Some(WrittenFile(fileName, downloadedSoFar)), reports);
  }

  /** The `iter_content` loop: write each chunk, add its length, report progress. */
  method WriteChunks(chunks: seq<nat>, total: int, fileName: string) returns (written: nat, reports: seq<Progress>)
    ensures written == Sum(chunks)
    ensures reports == Reports(chunks, total, fileName)
  {
    written := 0;
    reports := [Progress(0, total, fileName)];
    for i := 0 to |chunks|
      invariant written == Sum(chunks[..i])
      invariant reports == Reports(chunks[..i], total, fileName)
    {
      assert chunks[..i + 1][..i] == chunks[..i];
      written := written + chunks[i];
      reports := reports + [Progress(written, total, fileName)];
    }
    assert chunks[..|chunks|] == chunks;
  }

  /** Report `k` carries the bytes of the first `k` chunks; there is one report more than chunks. */
  lemma {:induction false} ReportsAt(chunks: seq<nat>, total: int, name: string, k: nat)
    requires k <= |chunks|
    ensures |Reports(chunks, total, name)| == |chunks| + 1
    ensures Reports(chunks, total, name)[k] == Progress(Sum(chunks[..k]), total, name)
    decreases |chunks|
  {
    if chunks != [] {
      var n := |chunks| - 1;
      ReportsAt(chunks[..n], total, name, if k < |chunks| then k else 0);
      assert chunks[..n][..if k < |chunks| then k else 0] == chunks[..if k < |chunks| then k else 0];
      assert chunks[..|chunks|] == chunks;
    }
  }

  /** The byte count never goes down from one report to the next. */
  lemma {:induction false} SumPrefixMonotone(chunks: seq<nat>, i: nat, j: nat)
    requires i <= j <= |chunks|
    ensures Sum(chunks[..i]) <= Sum(chunks[..j])
    decreases j - i
  {
    if i < j {
      SumPrefixMonotone(chunks, i, j - 1);
      assert chunks[..j][..j - 1] == chunks[..j - 1];
    }
  }

  /** The reports start at 0, never decrease, and the last one is the whole body. */
  lemma ReportsProgress(chunks: seq<nat>, total: int, name: string)
    ensures var r := Reports(chunks, total, name);
            |r| == |chunks| + 1 && r[0].bytes == 0 && r[|r| - 1].bytes == Sum(chunks) &&
            (forall i, j :: 0 <= i <= j < |r| ==> r[i].bytes <= r[j].bytes) &&
            forall i :: 0 <= i < |r| ==> r[i].total == total && r[i].name == name
  {
    var r := Reports(chunks, total, name);
    ReportsAt(chunks, total, name, 0);
    ReportsAt(chunks, total, name, |chunks|);
    assert chunks[..|chunks|] == chunks;
    forall i | 0 <= i < |r| ensures r[i] == Progress(Sum(chunks[..i]), total, name) {
      ReportsAt(chunks, total, name, i);
    }
    forall i, j | 0 <= i <= j < |r| ensures r[i].bytes <= r[j].bytes {
      SumPrefixMonotone(chunks, i, j);
    }
  }
}
