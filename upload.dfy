/**
  The upload routes: app/api/routes/protected/upload.py (authenticated, with a user id)
  and app/api/routes/upload.py (the same pipeline without one), written once with the
  user id as an `Option`. A file is read, its pages extracted with a per-page error
  sentinel, the valid pages indexed in batches of 20, and the per-file results
  aggregated. Reading the upload, the PDF reader, `encode_doc` followed by
  `insert_document`, and the clock are inputs.
 */
module Upload {
  import opened Wrappers
  import opened Text
  import opened Documents
  import opened Batching

  const PageBatchSize: int := 20
  const UnnamedPdf: string := "unnamed.pdf"
  const LoadFailed: string := "Error loading PDF: "
  const NoValidPages: string := "Could not extract text from any pages in the document"
  const FileFailed: string := "Error processing file: "

  /** `f"[Error extracting page {page}]"` for the formatted page value `page`. */
  function SentinelText(page: string): string
  {
    "[Error extracting page " + page + "]"
  }

  /** The sentinel of page number `n`. */
  function Sentinel(n: int): string
  {
    SentinelText(IntToString(n))
  }

  /**
    An uploaded file as the route sees it: `file.filename` (possibly missing), what
    `await file.read()` gives (the content's length, or the error it raised), and what
    `PdfReader` makes of the content (the error it raised, or one extraction outcome
    per page: the text, or the error `extract_text` raised).
   */
  datatype UploadedFile = UploadedFile(
    filename: Option<string>,
    read: Result<nat, string>,
    pdf: Result<seq<Result<string, string>>, string>)

  /** `file.filename or "unnamed.pdf"`. */
  function DisplayName(filename: Option<string>): (r: string)
    ensures r != ""
    ensures filename.Some? && filename.value != "" ==> r == filename.value
  {
    if filename.Some? && filename.value != "" then filename.value else UnnamedPdf
  }

  /** The per-file result dict. */
  datatype FileResult =
    | Failed(originalName: Option<string>, message: string)
    | Succeeded(name: string, size: nat, chunks: int, pages: nat, parsedPages: nat, userId: Option<string>)

  /** The page metadata; `user_id` only in the authenticated route, `error` only for a failed page. */
  function PageMetadata(filename: string, page: int, totalPages: int, userId: Option<string>, error: Option<string>): (m: Metadata)
    ensures "source" in m && m["source"] == Str(filename)
    ensures "page" in m && m["page"] == Int(page)
    ensures "total_pages" in m && m["total_pages"] == Int(totalPages)
    ensures ("user_id" in m) == userId.Some? && (userId.Some? ==> m["user_id"] == Str(userId.value))
    ensures ("error" in m) == error.Some? && (error.Some? ==> m["error"] == Str(error.value))
    ensures m.Keys <= {"source", "page", "total_pages", "user_id", "error"}
  {
    var base := map["source" := Str(filename), "page" := Int(page), "total_pages" := Int(totalPages)];
    var withError := if error.Some? then base["error" := Str(error.value)] else base;
    if userId.Some? then withError["user_id" := Str(userId.value)] else withError
  }

  /**
    `extract_page(page_num)`: the page's text with 1-based page metadata, or, when the
    extraction raised, the sentinel text with the error recorded under `error`.
   */
  function ExtractPage(filename: string, k: nat, totalPages: int, outcome: Result<string, string>, userId: Option<string>): (d: Doc)
    ensures "page" in d.metadata && d.metadata["page"] == Int(k + 1)
    ensures outcome.Success? ==> d.content == outcome.value && "error" !in d.metadata
    ensures outcome.Failure? ==> d.content == Sentinel(k + 1) && "error" in d.metadata && d.metadata["error"] == Str(outcome.error)
  {
    match outcome
    case Success(text) => Doc(text, PageMetadata(filename, k + 1, totalPages, userId, None))
    case Failure(e) => Doc(Sentinel(k + 1), PageMetadata(filename, k + 1, totalPages, userId, Some(e)))
  }

  /** `list(executor.map(extract_page, range(total_pages)))`: page `k` at index `k`. */
  function ExtractPages(filename: string, outcomes: seq<Result<string, string>>, userId: Option<string>): (pages: seq<Doc>)
    ensures |pages| == |outcomes|
    ensures forall k :: 0 <= k < |outcomes| ==> pages[k] == ExtractPage(filename, k, |outcomes|, outcomes[k], userId)
  {
    seq(|outcomes|, k requires 0 <= k < |outcomes| => ExtractPage(filename, k, |outcomes|, outcomes[k], userId))
  }

  /** `p.page_content and p.page_content != f"[Error extracting page {p.metadata['page']}]"`. */
  predicate IsValidPage(p: Doc)
    requires "page" in p.metadata
  {
    p.content != "" && p.content != SentinelText(Format(p.metadata["page"]))
  }

  /**
    A page is kept exactly when its extraction succeeded with a non-empty text that is
    not the sentinel of its own page number.
   */
  lemma ExtractedPageValid(filename: string, k: nat, totalPages: int, outcome: Result<string, string>, userId: Option<string>)
    ensures var d := ExtractPage(filename, k, totalPages, outcome, userId);
      IsValidPage(d) <==> outcome.Success? && outcome.value != "" && outcome.value != Sentinel(k + 1)
  {
  }

  /** `[p for p in pages if ...]`: the valid pages, in page order. */
  function ValidPages(pages: seq<Doc>): (valid: seq<Doc>)
    requires forall k :: 0 <= k < |pages| ==> "page" in pages[k].metadata
    ensures |valid| <= |pages|
    ensures forall j :: 0 <= j < |valid| ==> "page" in valid[j].metadata && IsValidPage(valid[j]) && valid[j] in pages
    ensures valid == [] <==> forall k :: 0 <= k < |pages| ==> !IsValidPage(pages[k])
  {
    if pages == [] then []
    else
      var rest := ValidPages(pages[1..]);
      assert forall k :: 1 <= k < |pages| ==> pages[1..][k - 1] == pages[k];
      if IsValidPage(pages[0]) then [pages[0]] + rest else rest
  }

  /** The filter of a single page keeps it exactly when it is valid. */
  lemma ValidPagesOne(p: Doc)
    requires "page" in p.metadata
    ensures ValidPages([p]) == if IsValidPage(p) then [p] else []
  {
    assert [p][1..] == [];
  }

  /**
    The filter works page by page: filtering two runs of pages and concatenating the
    results is filtering their concatenation. With `ValidPagesOne` this pins the filter
    down: every valid page is kept, no other, and in their relative order.
   */
  lemma {:induction false} ValidPagesAppend(a: seq<Doc>, b: seq<Doc>)
    requires forall k :: 0 <= k < |a| ==> "page" in a[k].metadata
    requires forall k :: 0 <= k < |b| ==> "page" in b[k].metadata
    ensures forall k :: 0 <= k < |a + b| ==> "page" in (a + b)[k].metadata
    ensures ValidPages(a + b) == ValidPages(a) + ValidPages(b)
  {
    if a == [] {
      assert a + b == b;
    } else {
      assert (a + b)[1..] == a[1..] + b;
      ValidPagesAppend(a[1..], b);
    }
  }

  /**
    `all_chunks` after the batch loop: the per-batch inserted-chunk counts summed in
    batch order, or the error of the first batch that raised.
   */
  function IndexAll(indexBatch: (seq<Doc>, Option<Metadata>) -> Result<int, string>, meta: Option<Metadata>, bs: seq<seq<Doc>>): Result<int, string>
  {
    if bs == [] then Success(0)
    else
      match indexBatch(bs[0], meta)
      case Failure(m) => Failure(m)
      case Success(c) =>
        match IndexAll(indexBatch, meta, bs[1..])
        case Failure(m) => Failure(m)
        case Success(t) => Success(c + t)
  }

  /** The batches handed to `encode_doc`/`insert_document`: up to and including the first that raised. */
  function Submitted(indexBatch: (seq<Doc>, Option<Metadata>) -> Result<int, string>, meta: Option<Metadata>, bs: seq<seq<Doc>>): seq<seq<Doc>>
  {
    if bs == [] then []
    else if indexBatch(bs[0], meta).Failure? then [bs[0]]
    else [bs[0]] + Submitted(indexBatch, meta, bs[1..])
  }

  /** `a + r` for a running total `a` and a result `r`. */
  function AddTo(a: int, r: Result<int, string>): Result<int, string>
  {
    if r.Success? then Success(a + r.value) else r
  }

  /**
    Indexing succeeds exactly when every batch does; then every batch was submitted, in
    order, and the total is the sum of the per-batch counts.
   */
  lemma {:induction false} IndexAllSucceeds(indexBatch: (seq<Doc>, Option<Metadata>) -> Result<int, string>, meta: Option<Metadata>, bs: seq<seq<Doc>>)
    ensures IndexAll(indexBatch, meta, bs).Success? <==> forall k :: 0 <= k < |bs| ==> indexBatch(bs[k], meta).Success?
    ensures IndexAll(indexBatch, meta, bs).Success? ==> Submitted(indexBatch, meta, bs) == bs
    ensures IndexAll(indexBatch, meta, bs).Failure? ==>
      var sub := Submitted(indexBatch, meta, bs);
      && 1 <= |sub| <= |bs| && sub == bs[..|sub|]
      && indexBatch(sub[|sub| - 1], meta) == IndexAll(indexBatch, meta, bs)
  {
    if bs != [] {
      IndexAllSucceeds(indexBatch, meta, bs[1..]);
      assert forall k :: 1 <= k < |bs| ==> bs[1..][k - 1] == bs[k];
      if indexBatch(bs[0], meta).Success? {
        assert bs == [bs[0]] + bs[1..];
        if IndexAll(indexBatch, meta, bs).Failure? {
          var sub := Submitted(indexBatch, meta, bs[1..]);
          assert Submitted(indexBatch, meta, bs) == [bs[0]] + sub;
          assert sub == bs[1..][..|sub|];
          assert bs[..|sub| + 1] == [bs[0]] + bs[1..][..|sub|];
          assert ([bs[0]] + sub)[1..] == sub;
        }
      } else {
        assert bs[..1] == [bs[0]];
      }
    }
  }

  /** The total is the sum of the counts: appending batches adds their totals. */
  function SumCounts(indexBatch: (seq<Doc>, Option<Metadata>) -> Result<int, string>, meta: Option<Metadata>, bs: seq<seq<Doc>>): int
    requires forall k :: 0 <= k < |bs| ==> indexBatch(bs[k], meta).Success?
  {
    if bs == [] then 0 else indexBatch(bs[0], meta).value + SumCounts(indexBatch, meta, bs[1..])
  }

  lemma {:induction false} IndexAllIsSum(indexBatch: (seq<Doc>, Option<Metadata>) -> Result<int, string>, meta: Option<Metadata>, bs: seq<seq<Doc>>)
    requires forall k :: 0 <= k < |bs| ==> indexBatch(bs[k], meta).Success?
    ensures IndexAll(indexBatch, meta, bs) == Success(SumCounts(indexBatch, meta, bs))
  {
    if bs != [] {
      assert forall k :: 0 <= k < |bs[1..]| ==> bs[1..][k] == bs[k + 1];
      IndexAllIsSum(indexBatch, meta, bs[1..]);
    }
  }

  /** The metadata the authenticated route passes to `insert_document`; none in the other route. */
  function UploadMetadata(userId: Option<string>, filename: string, uploadTime: string): (m: Option<Metadata>)
    ensures userId.None? ==> m.None?
    ensures userId.Some? ==>
      && m.Some? && m.value.Keys == {"user_id", "original_filename", "upload_time"}
      && m.value["user_id"] == Str(userId.value) && m.value["original_filename"] == Str(filename)
      && m.value["upload_time"] == Str(uploadTime)
  {
    if userId.None? then None
    else Some(map["user_id" := Str(userId.value), "original_filename" := Str(filename), "upload_time" := Str(uploadTime)])
  }

  /** The valid pages of a loaded PDF. */
  function ValidPagesOf(filename: string, outcomes: seq<Result<string, string>>, userId: Option<string>): seq<Doc>
  {
    ValidPages(ExtractPages(filename, outcomes, userId))
  }

  /** What `process_pdf(file, user_id)` returns. */
  function ProcessedFile(f: UploadedFile, userId: Option<string>, uploadTime: string, indexBatch: (seq<Doc>, Option<Metadata>) -> Result<int, string>): FileResult
  {
    match f.read
    case Failure(m) => Failed(f.filename, FileFailed + m)
    case Success(size) =>
      var filename := DisplayName(f.filename);
      match f.pdf
      case Failure(m) => Failed(Some(filename), LoadFailed + m)
      case Success(outcomes) =>
        var valid := ValidPagesOf(filename, outcomes, userId);
        if valid == [] then Failed(Some(filename), NoValidPages)
        else
          match IndexAll(indexBatch, UploadMetadata(userId, filename, uploadTime), Batches(valid, PageBatchSize))
          case Failure(m) => Failed(f.filename, FileFailed + m)
          case Success(total) => Succeeded(filename, size, total, |outcomes|, |valid|, userId)
  }

  /**
    `process_pdf(file, user_id)`. It never raises: a failed read or a failing batch
    gives "Error processing file: ..." under the raw filename, an unloadable PDF gives
    "Error loading PDF: ...", and a document without a valid page gives the
    no-text message without indexing anything. Otherwise the valid pages go to
    `encode_doc` and `insert_document` in consecutive batches of 20 (`submitted`), and
    the reported chunk count is the sum of the batch counts.
   */
  method ProcessPdf(f: UploadedFile, userId: Option<string>, uploadTime: string, indexBatch: (seq<Doc>, Option<Metadata>) -> Result<int, string>)
    returns (r: FileResult, submitted: seq<seq<Doc>>)
    ensures r == ProcessedFile(f, userId, uploadTime, indexBatch)
    ensures submitted ==
      if f.read.Success? && f.pdf.Success? && ValidPagesOf(DisplayName(f.filename), f.pdf.value, userId) != [] then
        Submitted(indexBatch, UploadMetadata(userId, DisplayName(f.filename), uploadTime), Batches(ValidPagesOf(DisplayName(f.filename), f.pdf.value, userId), PageBatchSize))
      else []
  {
    submitted := [];
    if f.read.Failure? {
      return Failed(f.filename, FileFailed + f.read.error), submitted;
    }
    var filename := DisplayName(f.filename);
    var meta := UploadMetadata(userId, filename, uploadTime);
    if f.pdf.Failure? {
      return Failed(Some(filename), LoadFailed + f.pdf.error), submitted;
    }
    var outcomes := f.pdf.value;
    var pages := ExtractPages(filename, outcomes, userId);
    var valid := ValidPages(pages);
    if valid == [] {
      return Failed(Some(filename), NoValidPages), submitted;
    }
    var total;
    total, submitted := IndexBatches(indexBatch, meta, valid);
    if total.Failure? {
      return Failed(f.filename, FileFailed + total.error), submitted;
    }
    r := Succeeded(filename, f.read.value, total.value, |outcomes|, |valid|, userId);
  }

  /**
    The loop `for i in range(0, len(valid_pages), 20)` with its `all_chunks += ...`
    accumulator: the running total of the batches indexed so far, stopping at the
    first batch that raises.
   */
  method IndexBatches(indexBatch: (seq<Doc>, Option<Metadata>) -> Result<int, string>, meta: Option<Metadata>, valid: seq<Doc>)
    returns (total: Result<int, string>, submitted: seq<seq<Doc>>)
    ensures total == IndexAll(indexBatch, meta, Batches(valid, PageBatchSize))
    ensures submitted == Submitted(indexBatch, meta, Batches(valid, PageBatchSize))
  {
    submitted := [];
    var allChunks := 0;
    var i := 0;
    IndexLoopStart(indexBatch, meta, valid);
    while i < |valid|
      invariant 0 <= i <= |valid|
      invariant IndexedSoFar(indexBatch, meta, valid, i, allChunks, submitted)
      decreases |valid| - i
    {
      var end := SliceEnd(i, PageBatchSize, |valid|);
      var batch := valid[i..end];
      IndexLoopStep(indexBatch, meta, valid, i, end, allChunks, submitted);
      var inserted := indexBatch(batch, meta);
      if inserted.Failure? {
        submitted := submitted + [batch];
        return inserted, submitted;
      }
      allChunks := allChunks + inserted.value;
      submitted := submitted + [batch];
      i := end;
    }
    IndexLoopEnd(indexBatch, meta, valid, i, allChunks, submitted);
    total := Success(allChunks);
  }

  /**
    The invariant of `IndexBatches` at offset `i`: adding what the remaining batches
    give to the running total, and appending the batches they submit to the trace so
    far, yields the result and the trace of indexing all batches.
   */
  ghost predicate IndexedSoFar(indexBatch: (seq<Doc>, Option<Metadata>) -> Result<int, string>, meta: Option<Metadata>, valid: seq<Doc>, i: nat, allChunks: int, submitted: seq<seq<Doc>>)
  {
    && i <= |valid|
    && AddTo(allChunks, IndexAll(indexBatch, meta, Batches(valid[i..], PageBatchSize))) == IndexAll(indexBatch, meta, Batches(valid, PageBatchSize))
    && submitted + Submitted(indexBatch, meta, Batches(valid[i..], PageBatchSize)) == Submitted(indexBatch, meta, Batches(valid, PageBatchSize))
  }

  /** Before the loop nothing is indexed yet. */
  lemma IndexLoopStart(indexBatch: (seq<Doc>, Option<Metadata>) -> Result<int, string>, meta: Option<Metadata>, valid: seq<Doc>)
    ensures IndexedSoFar(indexBatch, meta, valid, 0, 0, [])
  {
    assert valid[0..] == valid;
    assert [] + Submitted(indexBatch, meta, Batches(valid, PageBatchSize)) == Submitted(indexBatch, meta, Batches(valid, PageBatchSize));
  }

  /**
    One iteration of `IndexBatches`: a failing batch ends the loop with the overall
    result and trace; a succeeding one keeps the invariant for the rest.
   */
  lemma IndexLoopStep(indexBatch: (seq<Doc>, Option<Metadata>) -> Result<int, string>, meta: Option<Metadata>, valid: seq<Doc>, i: nat, end: nat, allChunks: int, submitted: seq<seq<Doc>>)
    requires i < |valid| && end == SliceEnd(i, PageBatchSize, |valid|)
    requires IndexedSoFar(indexBatch, meta, valid, i, allChunks, submitted)
    ensures var r := indexBatch(valid[i..end], meta);
      r.Failure? ==>
        && r == IndexAll(indexBatch, meta, Batches(valid, PageBatchSize))
        && submitted + [valid[i..end]] == Submitted(indexBatch, meta, Batches(valid, PageBatchSize))
    ensures var r := indexBatch(valid[i..end], meta);
      r.Success? ==> IndexedSoFar(indexBatch, meta, valid, end, allChunks + r.value, submitted + [valid[i..end]])
  {
    IndexStep(indexBatch, meta, valid, i, end);
    AppendAssoc(submitted, [valid[i..end]], Submitted(indexBatch, meta, Batches(valid[end..], PageBatchSize)));
  }

  /** When the loop runs out of pages, the accumulator and the trace are the whole result. */
  lemma IndexLoopEnd(indexBatch: (seq<Doc>, Option<Metadata>) -> Result<int, string>, meta: Option<Metadata>, valid: seq<Doc>, i: nat, allChunks: int, submitted: seq<seq<Doc>>)
    requires i == |valid|
    requires IndexedSoFar(indexBatch, meta, valid, i, allChunks, submitted)
    ensures Success(allChunks) == IndexAll(indexBatch, meta, Batches(valid, PageBatchSize))
    ensures submitted == Submitted(indexBatch, meta, Batches(valid, PageBatchSize))
  {
    assert valid[i..] == [];
    assert submitted + [] == submitted;
  }

  /** Indexing the batches of `valid[i..]` is indexing `valid[i..end]`, then the batches of `valid[end..]`. */
  lemma IndexStep(indexBatch: (seq<Doc>, Option<Metadata>) -> Result<int, string>, meta: Option<Metadata>, valid: seq<Doc>, i: nat, end: nat)
    requires i < |valid| && end == SliceEnd(i, PageBatchSize, |valid|)
    ensures var batch := valid[i..end];
      var rest := Batches(valid[end..], PageBatchSize);
      && IndexAll(indexBatch, meta, Batches(valid[i..], PageBatchSize)) ==
           (if indexBatch(batch, meta).Failure? then indexBatch(batch, meta)
            else AddTo(indexBatch(batch, meta).value, IndexAll(indexBatch, meta, rest)))
      && Submitted(indexBatch, meta, Batches(valid[i..], PageBatchSize)) ==
           (if indexBatch(batch, meta).Failure? then [batch] else [batch] + Submitted(indexBatch, meta, rest))
  {
    var batch := valid[i..end];
    var rest := Batches(valid[end..], PageBatchSize);
    BatchesStep(valid, PageBatchSize, i, end);
    assert ([batch] + rest)[0] == batch && ([batch] + rest)[1..] == rest;
  }

  /**
    A success reports every page of the PDF and the number of valid ones, at least one
    and at most all of them; the valid pages went to indexing in consecutive batches of
    at most 20 that cover each of them once, in page order.
   */
  lemma ProcessedFileSuccess(f: UploadedFile, userId: Option<string>, uploadTime: string, indexBatch: (seq<Doc>, Option<Metadata>) -> Result<int, string>)
    requires ProcessedFile(f, userId, uploadTime, indexBatch).Succeeded?
    ensures f.read.Success? && f.pdf.Success?
    ensures var r := ProcessedFile(f, userId, uploadTime, indexBatch);
      var valid := ValidPagesOf(DisplayName(f.filename), f.pdf.value, userId);
      var bs := Batches(valid, PageBatchSize);
      && r.pages == |f.pdf.value| && r.parsedPages == |valid| && 1 <= r.parsedPages <= r.pages
      && r.size == f.read.value && r.name == DisplayName(f.filename) && r.userId == userId
      && Flatten(bs) == valid
      && (forall k :: 0 <= k < |bs| ==> 1 <= |bs[k]| <= PageBatchSize)
      && Submitted(indexBatch, UploadMetadata(userId, DisplayName(f.filename), uploadTime), bs) == bs
      && (forall k :: 0 <= k < |bs| ==> indexBatch(bs[k], UploadMetadata(userId, DisplayName(f.filename), uploadTime)).Success?)
      && r.chunks == SumCounts(indexBatch, UploadMetadata(userId, DisplayName(f.filename), uploadTime), bs)
  {
    var filename := DisplayName(f.filename);
    var valid := ValidPagesOf(filename, f.pdf.value, userId);
    var meta := UploadMetadata(userId, filename, uploadTime);
    var bs := Batches(valid, PageBatchSize);
    BatchesFlatten(valid, PageBatchSize);
    IndexAllSucceeds(indexBatch, meta, bs);
    IndexAllIsSum(indexBatch, meta, bs);
  }

  /** A PDF whose every page failed or came out empty is a failure, and nothing is indexed. */
  lemma NoValidPageFails(f: UploadedFile, userId: Option<string>, uploadTime: string, indexBatch: (seq<Doc>, Option<Metadata>) -> Result<int, string>)
    requires f.read.Success? && f.pdf.Success?
    requires forall k :: 0 <= k < |f.pdf.value| ==>
      f.pdf.value[k].Failure? || f.pdf.value[k].value == "" || f.pdf.value[k].value == Sentinel(k + 1)
    ensures ProcessedFile(f, userId, uploadTime, indexBatch) == Failed(Some(DisplayName(f.filename)), NoValidPages)
  {
    var filename := DisplayName(f.filename);
    var pages := ExtractPages(filename, f.pdf.value, userId);
    forall k | 0 <= k < |pages| ensures !IsValidPage(pages[k]) {
      ExtractedPageValid(filename, k, |f.pdf.value|, f.pdf.value[k], userId);
    }
  }

  // --------------------------------------------------------- upload_documents

  /** `sum(1 for result in results if result.get("success", False))`. */
  function SuccessCount(results: seq<FileResult>): (n: nat)
    ensures n <= |results|
  {
    if results == [] then 0 else (if results[0].Succeeded? then 1 else 0) + SuccessCount(results[1..])
  }

  /** `sum(result.get("chunks", 0) for result in results if result.get("success", False))`. */
  function TotalChunks(results: seq<FileResult>): int
  {
    if results == [] then 0 else (if results[0].Succeeded? then results[0].chunks else 0) + TotalChunks(results[1..])
  }

  lemma {:induction false} AggregatesAppend(a: seq<FileResult>, b: seq<FileResult>)
    ensures SuccessCount(a + b) == SuccessCount(a) + SuccessCount(b)
    ensures TotalChunks(a + b) == TotalChunks(a) + TotalChunks(b)
  {
    if a == [] {
      assert a + b == b;
    } else {
      assert (a + b)[1..] == a[1..] + b;
      AggregatesAppend(a[1..], b);
    }
  }

  /** Failed files count for nothing: with no success both aggregates are zero. */
  lemma {:induction false} AggregatesOfFailures(results: seq<FileResult>)
    requires forall k :: 0 <= k < |results| ==> results[k].Failed?
    ensures SuccessCount(results) == 0 && TotalChunks(results) == 0
  {
    if results != [] {
      assert forall k :: 0 <= k < |results[1..]| ==> results[1..][k] == results[k + 1];
      AggregatesOfFailures(results[1..]);
    }
  }

  /** Every file succeeded exactly when the success count is the number of files. */
  lemma {:induction false} AllSucceeded(results: seq<FileResult>)
    ensures SuccessCount(results) == |results| <==> forall k :: 0 <= k < |results| ==> results[k].Succeeded?
  {
    if results != [] {
      AllSucceeded(results[1..]);
      assert forall k :: 1 <= k < |results| ==> results[1..][k - 1] == results[k];
    }
  }

  datatype UploadResponse = UploadResponse(success: bool, message: string, files: seq<FileResult>, userId: Option<string>)

  /** `f"Successfully processed {successful_files}/{len(files)} files with {total_chunks} total chunks inserted."` */
  function SummaryMessage(successes: nat, files: nat, chunks: int): string
  {
    "Successfully processed " + IntToString(successes) + "/" + IntToString(files)
      + " files with " + IntToString(chunks) + " total chunks inserted."
  }

  /**
    `upload_documents(files, user)`: every file processed, results in upload order,
    the summary counting the successful files and the chunks of those files only.
    Each `process_pdf` call reads the clock itself; `clock(i)` is the reading taken
    while processing `files[i]`.
   */
  function UploadDocuments(files: seq<UploadedFile>, userId: Option<string>, clock: nat -> string, indexBatch: (seq<Doc>, Option<Metadata>) -> Result<int, string>): (r: UploadResponse)
    ensures r.success && r.userId == userId && |r.files| == |files|
    ensures forall i :: 0 <= i < |files| ==> r.files[i] == ProcessedFile(files[i], userId, clock(i), indexBatch)
    ensures r.message == SummaryMessage(SuccessCount(r.files), |files|, TotalChunks(r.files))
    ensures SuccessCount(r.files) <= |files|
  {
    var results := seq(|files|, i requires 0 <= i < |files| => ProcessedFile(files[i], userId, clock(i), indexBatch));
    UploadResponse(true, SummaryMessage(SuccessCount(results), |files|, TotalChunks(results)), results, userId)
  }
}
