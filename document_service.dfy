/**
  The indexing `DocumentService` (app/services/indexing/document_service.py): PDF text
  assembly, the document and chunk rows it writes through a database session, and the
  complete upload pipeline. The HTTP fetch and PDF reader, `preprocess_text`, the text
  splitter, the embedding provider, `uuid4` and the database's failures are inputs.
 */
module DocumentService {
  import opened Wrappers
  import opened Text
  import opened Documents

  /** The Python exceptions the service raises or catches, with `str(e)` as `msg`. */
  datatype Exc =
    | ValueError(msg: string)
    | RuntimeError(msg: string)
    | IntegrityError(msg: string)
    | OtherError(msg: string)

  const ParseFailed: string := "Failed to parse PDF: "
  const NoText: string := "No text content found in PDF"
  const TablesFailed: string := "Failed to create tables: "
  const IntegrityFailed: string := "Database integrity error: "
  const InsertFailed: string := "Failed to insert document: "
  const PipelineFailed: string := "PDF processing failed: "
  const UntitledDocument: string := "Untitled Document"
  const PdfContentType: string := "application/pdf"
  const ChunkIndexKey: string := "chunk_index"
  const DefaultChunkSize: int := 1000
  const DefaultChunkOverlap: int := 200

  // ---------------------------------------------------------------- parse_pdf

  /**
    The texts of the pages up to the first page whose extraction raised, or that
    page's error.
   */
  function Extracted(pages: seq<Result<string, string>>): Result<seq<string>, string>
  {
    if pages == [] then Success([])
    else
      match Extracted(pages[..|pages| - 1])
      case Failure(m) => Failure(m)
      case Success(ts) =>
        match pages[|pages| - 1]
        case Failure(m) => Failure(m)
        case Success(t) => Success(ts + [t])
  }

  /** `text_content += page.extract_text() + "\n"` over the pages, in page order. */
  function PagesText(ts: seq<string>): string
  {
    if ts == [] then "" else PagesText(ts[..|ts| - 1]) + ts[|ts| - 1] + "\n"
  }

  /**
    What `parse_pdf` returns or raises: a failed fetch or reader, or a page that fails,
    raises; so does a text that is whitespace only. Every error is a `ValueError`
    starting "Failed to parse PDF: ".
   */
  function ParsedText(load: Result<seq<Result<string, string>>, string>): Result<string, Exc>
  {
    match load
    case Failure(m) => Failure(ValueError(ParseFailed + m))
    case Success(pages) =>
      match Extracted(pages)
      case Failure(m) => Failure(ValueError(ParseFailed + m))
      case Success(ts) =>
        if Strip(PagesText(ts)) == "" then Failure(ValueError(ParseFailed + NoText))
        else Success(PagesText(ts))
  }

  lemma {:induction false} ExtractedFailureSticks(pages: seq<Result<string, string>>, j: nat, m: string)
    requires j <= |pages|
    requires Extracted(pages[..j]) == Failure(m)
    ensures Extracted(pages) == Failure(m)
    decreases |pages| - j
  {
    if j < |pages| {
      assert pages[..j + 1][..j] == pages[..j];
      ExtractedFailureSticks(pages, j + 1, m);
    } else {
      assert pages[..j] == pages;
    }
  }

  /** `parse_pdf(document_url)`, given what the fetch and the PDF reader produce. */
  method ParsePdf(load: Result<seq<Result<string, string>>, string>) returns (r: Result<string, Exc>)
    ensures r == ParsedText(load)
  {
    if load.Failure? {
      return Failure(ValueError(ParseFailed + load.error));
    }
    var pages := load.value;
    var text := "";
    var i := 0;
    while i < |pages|
      invariant 0 <= i <= |pages|
      invariant Extracted(pages[..i]).Success?
      invariant text == PagesText(Extracted(pages[..i]).value)
    {
      assert pages[..i + 1][..i] == pages[..i];
      match pages[i]
      case Failure(m) =>
        ExtractedFailureSticks(pages, i + 1, m);
        return Failure(ValueError(ParseFailed + m));
      case Success(t) =>
        var ts := Extracted(pages[..i]).value;
        assert Extracted(pages[..i + 1]).value == ts + [t];
        assert (ts + [t])[..|ts|] == ts;
        text := text + t + "\n";
      i := i + 1;
    }
    assert pages[..i] == pages;
    if Strip(text) == "" {
      return Failure(ValueError(ParseFailed + NoText));
    }
    r := Success(text);
  }

  /** The assembled text is the pages joined by newlines, with one more newline at the end. */
  lemma {:induction false} PagesTextJoin(ts: seq<string>)
    requires ts != []
    ensures PagesText(ts) == Join(ts, "\n") + "\n"
  {
    if |ts| == 1 {
      assert ts[..0] == [];
    } else {
      var init := ts[..|ts| - 1];
      PagesTextJoin(init);
      JoinLast(ts, "\n");
    }
  }

  /** The text is blank exactly when every page's text is blank. */
  lemma {:induction false} PagesTextBlank(ts: seq<string>)
    ensures AllSpace(PagesText(ts)) <==> forall i :: 0 <= i < |ts| ==> AllSpace(ts[i])
  {
    if ts != [] {
      var init := ts[..|ts| - 1];
      var last := ts[|ts| - 1];
      PagesTextBlank(init);
      AllSpaceAppend(PagesText(init) + last, "\n");
      AllSpaceAppend(PagesText(init), last);
      assert IsSpace("\n"[0]);
      if forall i :: 0 <= i < |init| ==> AllSpace(init[i]) {
        if AllSpace(last) {
          forall i | 0 <= i < |ts| ensures AllSpace(ts[i]) {
            if i < |init| {
              assert ts[i] == init[i];
            }
          }
        }
      }
      if forall i :: 0 <= i < |ts| ==> AllSpace(ts[i]) {
        forall i | 0 <= i < |init| ensures AllSpace(init[i]) {
          assert init[i] == ts[i];
        }
      }
    }
  }

  /**
    `parse_pdf` succeeds exactly when the PDF loads, every page extracts and some page
    holds a non-whitespace character; the text is then the pages joined by newlines
    plus a final newline.
   */
  lemma ParsedTextSucceeds(load: Result<seq<Result<string, string>>, string>)
    ensures ParsedText(load).Success? <==>
      && load.Success? && Extracted(load.value).Success?
      && exists i :: 0 <= i < |Extracted(load.value).value| && !AllSpace(Extracted(load.value).value[i])
    ensures ParsedText(load).Success? ==>
      ParsedText(load).value == Join(Extracted(load.value).value, "\n") + "\n"
    ensures ParsedText(load).Failure? ==>
      ParsedText(load).error.ValueError? && StartsWith(ParsedText(load).error.msg, ParseFailed)
  {
    if load.Success? && Extracted(load.value).Success? {
      var ts := Extracted(load.value).value;
      PagesTextBlank(ts);
      if ParsedText(load).Success? {
        PagesTextJoin(ts);
      }
    }
    if ParsedText(load).Failure? {
      var msg := ParsedText(load).error.msg;
      assert msg[..|ParseFailed|] == ParseFailed;
    }
  }

  // ------------------------------------------------- insert_document_with_chunks

  /** The `Document` row: `created_at` is left out. */
  datatype DocumentRow = DocumentRow(id: string, title: string, content: string, metadata: Metadata, userId: Option<string>)

  /** The `DocumentChunk` row: its own `id` and `created_at` are left out. */
  datatype ChunkRow = ChunkRow(documentId: string, content: string, chunkIndex: int, metadata: Metadata, embedding: Row)

  datatype Record = DocRecord(doc: DocumentRow) | ChunkRecord(chunk: ChunkRow)

  /** `{**metadata, "chunk_index": i}`. */
  function WithChunkIndex(metadata: Metadata, i: int): (m: Metadata)
    ensures m.Keys == metadata.Keys + {ChunkIndexKey}
    ensures m[ChunkIndexKey] == Int(i)
    ensures forall k :: k in metadata && k != ChunkIndexKey ==> m[k] == metadata[k]
  {
    metadata[ChunkIndexKey := Int(i)]
  }

  /**
    The chunk rows of `enumerate(zip(chunks, embeddings))`: as many as the shorter
    input, row `i` pairing chunk `i` with embedding `i`, indexed `i`, and pointing at
    the new document.
   */
  function ChunkRows(docId: string, chunks: seq<Doc>, embeddings: seq<Row>): (rs: seq<ChunkRow>)
    ensures |rs| == if |chunks| < |embeddings| then |chunks| else |embeddings|
    ensures forall i :: 0 <= i < |rs| ==>
      && rs[i].documentId == docId
      && rs[i].chunkIndex == i
      && rs[i].content == chunks[i].content
      && rs[i].embedding == embeddings[i]
      && rs[i].metadata == WithChunkIndex(chunks[i].metadata, i)
  {
    var n := if |chunks| < |embeddings| then |chunks| else |embeddings|;
    seq(n, i requires 0 <= i < n => ChunkRow(docId, chunks[i].content, i, WithChunkIndex(chunks[i].metadata, i), embeddings[i]))
  }

  /**
    The chunk indices are `0..N-1` in order, so no two rows share one, and each row's
    metadata records its own index.
   */
  lemma ChunkIndicesDistinct(docId: string, chunks: seq<Doc>, embeddings: seq<Row>)
    ensures var rs := ChunkRows(docId, chunks, embeddings);
      forall i, j :: 0 <= i < j < |rs| ==>
        rs[i].chunkIndex != rs[j].chunkIndex && rs[i].metadata[ChunkIndexKey] != rs[j].metadata[ChunkIndexKey]
  {
  }

  /** Chunks that all carry metadata `m` give rows whose metadata is `m` plus the index. */
  lemma ChunkRowsInherit(docId: string, chunks: seq<Doc>, embeddings: seq<Row>, m: Metadata)
    requires forall k :: 0 <= k < |chunks| ==> chunks[k].metadata == m
    ensures forall i :: 0 <= i < |ChunkRows(docId, chunks, embeddings)| ==>
      ChunkRows(docId, chunks, embeddings)[i].metadata == m[ChunkIndexKey := Int(i)]
  {
  }

  function ChunkRecords(rs: seq<ChunkRow>): (out: seq<Record>)
    ensures |out| == |rs|
    ensures forall i :: 0 <= i < |rs| ==> out[i] == ChunkRecord(rs[i])
  {
    seq(|rs|, i requires 0 <= i < |rs| => ChunkRecord(rs[i]))
  }

  /**
    The `AsyncSession`: rows added since the last commit or rollback, and the rows the
    database holds.
   */
  class Session {
    var committed: seq<Record>
    var pending: seq<Record>

    constructor ()
      ensures committed == [] && pending == []
    {
      committed := [];
      pending := [];
    }

    /** `db.add(row)`. */
    method Add(x: Record)
      modifies this
      ensures pending == old(pending) + [x] && committed == old(committed)
    {
      pending := pending + [x];
    }

    /**
      `db.flush()`: sends the pending rows inside the still-open transaction. It has no
      `modifies` clause, so neither the pending nor the committed rows change; `fault`
      is what it raises, if anything.
     */
    method Flush(fault: Option<Exc>) returns (err: Option<Exc>)
      ensures err == fault
    {
      err := fault;
    }

    /** `db.commit()`: on success the pending rows become durable; on failure nothing changes. */
    method Commit(fault: Option<Exc>) returns (err: Option<Exc>)
      modifies this
      ensures err == fault
      ensures fault.None? ==> committed == old(committed) + old(pending) && pending == []
      ensures fault.Some? ==> committed == old(committed) && pending == old(pending)
    {
      err := fault;
      if fault.None? {
        committed := committed + pending;
        pending := [];
      }
    }

    /** `db.rollback()`: forgets the pending rows. */
    method Rollback()
      modifies this
      ensures pending == [] && committed == old(committed)
    {
      pending := [];
    }
  }

  /** What each step of the insertion raises, if anything. */
  datatype InsertFaults = InsertFaults(tables: Option<string>, flush: Option<Exc>, commit: Option<Exc>, refresh: Option<Exc>)

  /** The `except` clauses: an `IntegrityError` becomes a `ValueError`, anything else a `RuntimeError`. */
  function InsertError(e: Exc): (r: Exc)
    ensures e.IntegrityError? ==> r == ValueError(IntegrityFailed + e.msg)
    ensures !e.IntegrityError? ==> r == RuntimeError(InsertFailed + e.msg)
  {
    if e.IntegrityError? then ValueError(IntegrityFailed + e.msg) else RuntimeError(InsertFailed + e.msg)
  }

  /** The rows one insertion adds: the document, then its chunks in index order. */
  function InsertedRecords(doc: DocumentRow, chunks: seq<Doc>, embeddings: seq<Row>): seq<Record>
  {
    [DocRecord(doc)] + ChunkRecords(ChunkRows(doc.id, chunks, embeddings))
  }

  /**
    `insert_document_with_chunks(...)` with `docId` as the fresh `uuid4()`. A failure to
    create the tables raises before the session is touched. Otherwise the rows are
    added and committed together: after a flush or commit failure the session is rolled
    back and nothing of this insertion is stored. A failure of `refresh` comes after the
    commit, so the rows stay stored while the call still raises.
   */
  method InsertDocumentWithChunks(
    s: Session, faults: InsertFaults, docId: string,
    title: string, content: string, chunks: seq<Doc>, embeddings: seq<Row>,
    metadata: Option<Metadata>, userId: Option<string>)
    returns (r: Result<DocumentRow, Exc>)
    modifies s
    ensures var doc := DocumentRow(docId, title, content, metadata.GetOr(map[]), userId);
      && (faults.tables.Some? ==>
            r == Failure(RuntimeError(TablesFailed + faults.tables.value))
            && s.committed == old(s.committed) && s.pending == old(s.pending))
      && (faults.tables.None? && faults.flush.Some? ==>
            r == Failure(InsertError(faults.flush.value)) && s.committed == old(s.committed) && s.pending == [])
      && (faults.tables.None? && faults.flush.None? && faults.commit.Some? ==>
            r == Failure(InsertError(faults.commit.value)) && s.committed == old(s.committed) && s.pending == [])
      && (faults.tables.None? && faults.flush.None? && faults.commit.None? ==>
            s.committed == old(s.committed) + old(s.pending) + InsertedRecords(doc, chunks, embeddings) && s.pending == []
            && r == (if faults.refresh.Some? then Failure(InsertError(faults.refresh.value)) else Success(doc)))
  {
    if faults.tables.Some? {
      return Failure(RuntimeError(TablesFailed + faults.tables.value));
    }
    var doc := DocumentRow(docId, title, content, metadata.GetOr(map[]), userId);
    ghost var before := s.pending;
    s.Add(DocRecord(doc));
    var e := s.Flush(faults.flush);
    if e.Some? {
      s.Rollback();
      return Failure(InsertError(e.value));
    }
    var rows := ChunkRows(doc.id, chunks, embeddings);
    var n := if |chunks| < |embeddings| then |chunks| else |embeddings|;
    var i := 0;
    while i < n
      invariant 0 <= i <= n
      invariant s.committed == old(s.committed)
      invariant s.pending == before + [DocRecord(doc)] + ChunkRecords(rows[..i])
    {
      var row := ChunkRow(doc.id, chunks[i].content, i, WithChunkIndex(chunks[i].metadata, i), embeddings[i]);
      assert row == rows[i];
      assert ChunkRecords(rows[..i + 1]) == ChunkRecords(rows[..i]) + [ChunkRecord(row)];
      s.Add(ChunkRecord(row));
      i := i + 1;
    }
    assert rows[..i] == rows;
    e := s.Commit(faults.commit);
    if e.Some? {
      s.Rollback();
      return Failure(InsertError(e.value));
    }
    if faults.refresh.Some? {
      s.Rollback();
      return Failure(InsertError(faults.refresh.value));
    }
    r := Success(doc);
  }

  // ------------------------------------------------------ process_pdf_complete

  /** `document_url.split("/")[-1]`: everything after the last `/`, or the whole URL. */
  function LastSegment(url: string): (r: string)
    ensures '/' !in r
    ensures |r| <= |url| && url[|url| - |r|..] == r
    ensures |r| < |url| ==> url[|url| - |r| - 1] == '/'
  {
    var parts := SplitOn(url, '/');
    var last := parts[|parts| - 1];
    if |parts| >= 2 then
      JoinLast(parts, "/");
      var init := Join(parts[..|parts| - 1], "/");
      assert url == init + "/" + last;
      assert url[|url| - |last|..] == last;
      last
    else
      assert url == last;
      last
  }

  /** `document_filename or "Untitled Document"`. */
  function Title(filename: string): (t: string)
    ensures t != ""
    ensures filename != "" ==> t == filename
    ensures filename == "" ==> t == UntitledDocument
  {
    if filename != "" then filename else UntitledDocument
  }

  /** `{"filename": document_filename, "content_type": "application/pdf"}`. */
  function PdfMetadata(filename: string): (m: Metadata)
    ensures m.Keys == {"filename", "content_type"}
    ensures m["filename"] == Str(filename) && m["content_type"] == Str(PdfContentType)
  {
    map["filename" := Str(filename), "content_type" := Str(PdfContentType)]
  }

  /** The foreign steps of the pipeline. */
  datatype PipelineSteps = PipelineSteps(
    preprocessText: string -> string,
    split: (string, int, int) -> seq<string>,
    embedBatch: seq<string> -> Result<seq<Row>, string>)

  /** `RuntimeError(f"PDF processing failed: {str(e)}")`. */
  function PipelineError(m: string): Exc
  {
    RuntimeError(PipelineFailed + m)
  }

  /**
    `process_pdf_complete(document_url, user_id, chunk_size, chunk_overlap)`: parse,
    clean, chunk the single document with the PDF metadata, embed the chunk texts and
    insert everything. Any failure is re-raised as a `RuntimeError` starting
    "PDF processing failed: ". On success the stored document is titled by the URL's
    last segment, holds the cleaned text and the PDF metadata, and each stored chunk
    carries that metadata plus its index.
   */
  method ProcessPdfComplete(
    s: Session, steps: PipelineSteps, faults: InsertFaults, docId: string,
    load: Result<seq<Result<string, string>>, string>, url: string,
    userId: Option<string>, chunkSize: int, chunkOverlap: int)
    returns (r: Result<DocumentRow, Exc>)
    modifies s
    ensures r.Failure? ==> r.error.RuntimeError? && StartsWith(r.error.msg, PipelineFailed)
    ensures ParsedText(load).Failure? ==>
      r == Failure(PipelineError(ParsedText(load).error.msg)) && s.committed == old(s.committed) && s.pending == old(s.pending)
    ensures ParsedText(load).Success? ==>
      var filename := LastSegment(url);
      var meta := PdfMetadata(filename);
      var content := steps.preprocessText(ParsedText(load).value);
      var chunks := SplitDocuments(steps.split, chunkSize, chunkOverlap, [Doc(content, meta)]);
      var embeddings := steps.embedBatch(Contents(chunks));
      var doc := DocumentRow(docId, Title(filename), content, meta, userId);
      && (embeddings.Failure? ==>
            r == Failure(PipelineError(embeddings.error)) && s.committed == old(s.committed) && s.pending == old(s.pending))
      && (embeddings.Success? && faults.tables.Some? ==>
            r == Failure(PipelineError(TablesFailed + faults.tables.value))
            && s.committed == old(s.committed) && s.pending == old(s.pending))
      && (embeddings.Success? && faults.tables.None? && faults.flush.Some? ==>
            r == Failure(PipelineError(InsertError(faults.flush.value).msg)) && s.committed == old(s.committed) && s.pending == [])
      && (embeddings.Success? && faults.tables.None? && faults.flush.None? && faults.commit.Some? ==>
            r == Failure(PipelineError(InsertError(faults.commit.value).msg)) && s.committed == old(s.committed) && s.pending == [])
      && (embeddings.Success? && faults.tables.None? && faults.flush.None? && faults.commit.None? ==>
            s.committed == old(s.committed) + old(s.pending) + InsertedRecords(doc, chunks, embeddings.value) && s.pending == []
            && r == (if faults.refresh.Some? then Failure(PipelineError(InsertError(faults.refresh.value).msg)) else Success(doc)))
    ensures r.Success? ==>
      var filename := LastSegment(url);
      var meta := PdfMetadata(filename);
      var content := steps.preprocessText(ParsedText(load).value);
      var chunks := SplitDocuments(steps.split, chunkSize, chunkOverlap, [Doc(content, meta)]);
      var embeddings := steps.embedBatch(Contents(chunks));
      && ParsedText(load).Success? && embeddings.Success?
      && r.value == DocumentRow(docId, Title(filename), content, meta, userId)
      && s.committed == old(s.committed) + old(s.pending) + InsertedRecords(r.value, chunks, embeddings.value)
      && (forall i :: 0 <= i < |ChunkRows(docId, chunks, embeddings.value)| ==>
            ChunkRows(docId, chunks, embeddings.value)[i].metadata == meta[ChunkIndexKey := Int(i)])
  {
    var parsed := ParsePdf(load);
    if parsed.Failure? {
      r := Failure(PipelineError(parsed.error.msg));
      assert r.error.msg[..|PipelineFailed|] == PipelineFailed;
      return;
    }
    var filename := LastSegment(url);
    var content := steps.preprocessText(parsed.value);
    var meta := PdfMetadata(filename);
    var chunks := SplitDocuments(steps.split, chunkSize, chunkOverlap, [Doc(content, meta)]);
    var embedded := steps.embedBatch(Contents(chunks));
    if embedded.Failure? {
      r := Failure(PipelineError(embedded.error));
      assert r.error.msg[..|PipelineFailed|] == PipelineFailed;
      return;
    }
    var inserted := InsertDocumentWithChunks(s, faults, docId, Title(filename), content, chunks, embedded.value, Some(meta), userId);
    if inserted.Failure? {
      r := Failure(PipelineError(inserted.error.msg));
      assert r.error.msg[..|PipelineFailed|] == PipelineFailed;
      return;
    }
    SplitOneInherits(steps.split, chunkSize, chunkOverlap, Doc(content, meta));
    ChunkRowsInherit(docId, chunks, embedded.value, meta);
    r := inserted;
  }
}
