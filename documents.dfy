/**
  The LangChain `Document` (page text plus a metadata dict) that flows through the
  indexing pipeline, the metadata values the indexing pipeline writes, and the text splitter.
 */
module Documents {
  import opened Text

  /** The metadata values the backend stores: strings and integers. */
  datatype MetaValue = Str(s: string) | Int(i: int)

  type Metadata = map<string, MetaValue>

  datatype Doc = Doc(content: string, metadata: Metadata)

  /** One embedding row, as the embedding model returns it. */
  type Row = seq<real>

  /** `f"{v}"` / `str(v)` of a metadata value. */
  function Format(v: MetaValue): string
  {
    match v
    case Str(s) => s
    case Int(i) => IntToString(i)
  }

  /** The text of each document, in order (`[doc.page_content for doc in docs]`). */
  function Contents(docs: seq<Doc>): (texts: seq<string>)
    ensures |texts| == |docs|
    ensures forall i :: 0 <= i < |docs| ==> texts[i] == docs[i].content
  {
    seq(|docs|, i requires 0 <= i < |docs| => docs[i].content)
  }

  /**
    `RecursiveCharacterTextSplitter(chunk_size, chunk_overlap).split_documents(docs)`:
    each document's text is cut by `split` (the library's splitting algorithm, supplied
    by the caller) and every piece carries a copy of its document's metadata; documents
    stay in order.
   */
  function SplitDocuments(split: (string, int, int) -> seq<string>, size: int, overlap: int, docs: seq<Doc>): (chunks: seq<Doc>)
    ensures forall k :: 0 <= k < |chunks| ==> exists j :: 0 <= j < |docs| && chunks[k].metadata == docs[j].metadata
  {
    if docs == [] then []
    else
      var pieces := split(docs[0].content, size, overlap);
      var first := seq(|pieces|, i requires 0 <= i < |pieces| => Doc(pieces[i], docs[0].metadata));
      var rest := SplitDocuments(split, size, overlap, docs[1..]);
      assert forall k :: 0 <= k < |rest| ==> exists j :: 0 <= j < |docs| && rest[k].metadata == docs[j].metadata by {
        forall k | 0 <= k < |rest| ensures exists j :: 0 <= j < |docs| && rest[k].metadata == docs[j].metadata {
          var j :| 0 <= j < |docs[1..]| && rest[k].metadata == docs[1..][j].metadata;
          assert docs[1..][j] == docs[j + 1];
        }
      }
      first + rest
  }

  /** Splitting one document: every chunk carries exactly that document's metadata. */
  lemma SplitOneInherits(split: (string, int, int) -> seq<string>, size: int, overlap: int, d: Doc)
    ensures forall k :: 0 <= k < |SplitDocuments(split, size, overlap, [d])| ==>
      SplitDocuments(split, size, overlap, [d])[k].metadata == d.metadata
  {
  }

  /** Splitting one document gives exactly the splitter's pieces, in order, each with its metadata. */
  lemma SplitOnePieces(split: (string, int, int) -> seq<string>, size: int, overlap: int, d: Doc)
    ensures var pieces := split(d.content, size, overlap);
      && |SplitDocuments(split, size, overlap, [d])| == |pieces|
      && forall k :: 0 <= k < |pieces| ==> SplitDocuments(split, size, overlap, [d])[k] == Doc(pieces[k], d.metadata)
  {
    assert [d][1..] == [];
  }

  /** The chunks of a concatenation are the chunks of each part, in order: documents stay in order. */
  lemma {:induction false} SplitDocumentsAppend(split: (string, int, int) -> seq<string>, size: int, overlap: int, a: seq<Doc>, b: seq<Doc>)
    ensures SplitDocuments(split, size, overlap, a + b)
      == SplitDocuments(split, size, overlap, a) + SplitDocuments(split, size, overlap, b)
  {
    if a == [] {
      assert a + b == b;
    } else {
      assert (a + b)[0] == a[0];
      assert (a + b)[1..] == a[1..] + b;
      SplitDocumentsAppend(split, size, overlap, a[1..], b);
    }
  }
}
