/**
  `encode_doc` (app/services/indexing/encoding.py): clean every document's text, chunk
  the documents, and embed the chunk texts batch by batch, extending one list of
  embeddings in place. The chunker and the batch encoder are supplied by the caller.
 */
module Encoding {
  import opened Wrappers
  import opened Documents
  import opened Preprocessing
  import opened Batching

  const DefaultChunkSize: int := 1000
  const DefaultChunkOverlap: int := 300

  /** Python's message for `range(0, n, 0)`. */
  const RangeZeroStep: string := "range() arg 3 must not be zero"

  /** The dict `encode_doc` returns: `{"embeddings": ..., "chunks": ...}`. */
  datatype DocContainer = DocContainer(embeddings: seq<Row>, chunks: seq<Doc>)

  /**
    The parallel map: `Document(page_content=preprocessing(doc.page_content),
    metadata=doc.metadata)` for every document. `executor.map` keeps input order, so
    document `i` of the result is document `i` of the input with cleaned text and the
    same metadata; no cleaned text holds a NUL or a carriage return.
   */
  function PreprocessDocs(nfc: string -> string, docs: seq<Doc>): (out: seq<Doc>)
    ensures |out| == |docs|
    ensures forall i :: 0 <= i < |docs| ==>
      out[i].metadata == docs[i].metadata && out[i].content == Preprocess(nfc, docs[i].content)
    ensures forall i :: 0 <= i < |out| ==> NUL !in out[i].content && CR !in out[i].content
  {
    seq(|docs|, i requires 0 <= i < |docs| => Doc(Preprocess(nfc, docs[i].content), docs[i].metadata))
  }

  /** The chunk texts `encode_doc` embeds: the chunks of the cleaned documents. */
  function ChunksOf(nfc: string -> string, chunk: (int, int, seq<Doc>) -> seq<Doc>, documents: seq<Doc>, chunkSize: int, chunkOverlap: int): seq<Doc>
  {
    chunk(chunkSize, chunkOverlap, PreprocessDocs(nfc, documents))
  }

  /**
    `encode_doc(documents, chunk_size, chunk_overlap, batch_size)`. `calls` are the
    batches handed to `encode`, in call order. With `batch_size >= 1` they are exactly
    the consecutive slices `Batches` of the chunk texts and the embeddings are the
    per-batch results concatenated in that order; a negative `batch_size` makes the
    range empty, so nothing is encoded; `batch_size == 0` raises before any call.
   */
  method EncodeDoc(
    nfc: string -> string,
    chunk: (int, int, seq<Doc>) -> seq<Doc>,
    encode: seq<string> -> seq<Row>,
    documents: seq<Doc>, chunkSize: int, chunkOverlap: int, batchSize: int)
    returns (r: Result<DocContainer, string>, calls: seq<seq<string>>)
    ensures batchSize == 0 ==> r == Failure(RangeZeroStep) && calls == []
    ensures batchSize < 0 ==> r == Success(DocContainer([], ChunksOf(nfc, chunk, documents, chunkSize, chunkOverlap))) && calls == []
    ensures batchSize >= 1 ==>
      var texts := Contents(ChunksOf(nfc, chunk, documents, chunkSize, chunkOverlap));
      && calls == Batches(texts, batchSize)
      && r == Success(DocContainer(Stack(encode, calls), ChunksOf(nfc, chunk, documents, chunkSize, chunkOverlap)))
  {
    var preprocessed := PreprocessDocs(nfc, documents);
    var chunks := chunk(chunkSize, chunkOverlap, preprocessed);
    var texts := Contents(chunks);
    if batchSize == 0 {
      return Failure(RangeZeroStep), [];
    }
    var all: seq<Row> := [];
    calls := [];
    if batchSize > 0 {
      all, calls := EmbedBatches(encode, texts, batchSize);
    }
    r := Success(DocContainer(all, chunks));
  }

  /**
    The loop `for i in range(0, len(texts), batch_size)` of `encode_doc`: encode
    `texts[i:i + batch_size]` and extend the embeddings with the result. The batches
    are `Batches(texts, batch_size)`, in order, and the embeddings their stacked results.
   */
  method EmbedBatches(encode: seq<string> -> seq<Row>, texts: seq<string>, batchSize: int)
    returns (all: seq<Row>, calls: seq<seq<string>>)
    requires batchSize >= 1
    ensures calls == Batches(texts, batchSize)
    ensures all == Stack(encode, calls)
  {
    all := [];
    calls := [];
    var i := 0;
    LoopStart(encode, texts, batchSize);
    while i < |texts|
      invariant 0 <= i <= |texts|
      invariant EmbeddedSoFar(encode, texts, batchSize, i, calls, all)
      decreases |texts| - i
    {
      var end := SliceEnd(i, batchSize, |texts|);
      var batch := texts[i..end];
      LoopStep(encode, texts, batchSize, i, end, calls, all);
      all := all + encode(batch);
      calls := calls + [batch];
      i := end;
    }
    LoopEnd(encode, texts, batchSize, i, calls, all);
  }

  /**
    The invariant of `EmbedBatches` at offset `i`: the calls made so far followed by the
    batches of `texts[i..]` are all the batches, and likewise for the embeddings.
   */
  ghost predicate EmbeddedSoFar(encode: seq<string> -> seq<Row>, texts: seq<string>, batchSize: int, i: nat, calls: seq<seq<string>>, all: seq<Row>)
    requires batchSize >= 1
  {
    && i <= |texts|
    && calls + Batches(texts[i..], batchSize) == Batches(texts, batchSize)
    && all + Stack(encode, Batches(texts[i..], batchSize)) == Stack(encode, Batches(texts, batchSize))
  }

  /** Before the loop no batch has been encoded. */
  lemma LoopStart(encode: seq<string> -> seq<Row>, texts: seq<string>, batchSize: int)
    requires batchSize >= 1
    ensures EmbeddedSoFar(encode, texts, batchSize, 0, [], [])
  {
    assert texts[0..] == texts;
    assert [] + Batches(texts, batchSize) == Batches(texts, batchSize);
    assert [] + Stack(encode, Batches(texts, batchSize)) == Stack(encode, Batches(texts, batchSize));
  }

  /** One iteration of `EmbedBatches` keeps its invariant. */
  lemma LoopStep(encode: seq<string> -> seq<Row>, texts: seq<string>, batchSize: int, i: nat, end: nat, calls: seq<seq<string>>, all: seq<Row>)
    requires batchSize >= 1 && i < |texts|
    requires end == SliceEnd(i, batchSize, |texts|)
    requires EmbeddedSoFar(encode, texts, batchSize, i, calls, all)
    ensures EmbeddedSoFar(encode, texts, batchSize, end, calls + [texts[i..end]], all + encode(texts[i..end]))
  {
    var batch := texts[i..end];
    var rest := Batches(texts[end..], batchSize);
    BatchesStep(texts, batchSize, i, end);
    StackCons(encode, batch, rest);
  }

  /** When the loop has consumed every text, the calls and embeddings are complete. */
  lemma LoopEnd(encode: seq<string> -> seq<Row>, texts: seq<string>, batchSize: int, i: nat, calls: seq<seq<string>>, all: seq<Row>)
    requires batchSize >= 1 && i == |texts|
    requires EmbeddedSoFar(encode, texts, batchSize, i, calls, all)
    ensures calls == Batches(texts, batchSize)
    ensures all == Stack(encode, calls)
  {
    assert texts[i..] == [];
    assert calls + [] == calls;
    assert all + [] == all;
  }

  /**
    With an encoder that embeds text by text and `batch_size >= 1`, there is one
    embedding per chunk, embedding `i` belonging to chunk `i`, whatever the batch size;
    with no chunks `encode` is never called.
   */
  lemma EncodeDocAligned(
    nfc: string -> string, chunk: (int, int, seq<Doc>) -> seq<Doc>,
    encode: seq<string> -> seq<Row>, f: string -> Row,
    documents: seq<Doc>, chunkSize: int, chunkOverlap: int, batchSize: int)
    requires PerText(encode, f)
    requires batchSize >= 1
    ensures var chunks := ChunksOf(nfc, chunk, documents, chunkSize, chunkOverlap);
            var embeddings := Stack(encode, Batches(Contents(chunks), batchSize));
            && |embeddings| == |chunks|
            && (forall i :: 0 <= i < |chunks| ==> embeddings[i] == f(chunks[i].content))
            && (chunks == [] ==> Batches(Contents(chunks), batchSize) == [])
  {
    var chunks := ChunksOf(nfc, chunk, documents, chunkSize, chunkOverlap);
    var texts := Contents(chunks);
    StackPerText(encode, f, Batches(texts, batchSize));
    BatchesFlatten(texts, batchSize);
  }
}
