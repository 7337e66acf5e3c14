/**
  The query side of retrieval, written once for the four retriever modules:
    - app/services/retrieval/retriever.py (an embedding provider taking a list of texts),
    - app/services/retrieval/utils/retriever.py (the batching `encode_texts`, first row),
    - app/utils/retriever.py (a model taking the single query string),
    - app/query_processing/retriever.py (the same single-string model, plus alpha and
      threshold overrides, and no serialization pass).
  `preprocess_query` is `Text.Strip`, `preprocess_query_for_tsquery` is
  `TsQuery.FormatTsQuery` and `_ensure_serializable` is
  `Serialization.EnsureSerializable`. The `hybrid_search` stored procedure is supplied
  by the caller as a function from its arguments to the returned rows.
 */
module Retrievers {
  import opened Wrappers
  import opened Text
  import opened Documents
  import opened Batching
  import opened Serialization

  /** The factory defaults of `create_retriever`. */
  const DefaultMatchCount: int := 10
  const DefaultMatchThreshold: real := 0.0
  const DefaultAlpha: real := 0.5

  /** Python's message for `[][0]`. */
  const IndexErrorMessage: string := "list index out of range"

  /** How each retriever module turns the stripped query into one embedding. */
  datatype Embedder =
      /** `embedding_provider.get_embedding([q])`, then `embeddings[0] if embeddings else []`. */
    | ProviderList(getEmbedding: seq<string> -> seq<Row>)
      /** `await encode_texts([q])` with the model's `encode`, then `.tolist()[0]`. */
    | BatchEncoder(encode: seq<string> -> seq<Row>)
      /** `encode(q)` on the string itself, an array converted whole with `.tolist()`. */
    | TextEncoder(encodeOne: string -> Row)

  /** What the provider or the model returns for the one-element input `[q]`, as rows. */
  function RowsFor(e: Embedder, q: string): seq<Row>
    requires !e.TextEncoder?
  {
    if e.ProviderList? then e.getEmbedding([q])
    else
      var r := EncodedTexts([q], DefaultBatchSize, e.encode);
      if r.Success? then r.value else []
  }

  /**
    `create_embeddings(query)`: one embedding of the stripped query. The list provider
    gives its first row, or `[]` when it returns no row; the batch encoder gives its
    first row and raises an `IndexError` when the model returns none; the single-text
    model gives its whole vector. Only the batch encoder can fail.
   */
  function CreateEmbeddings(e: Embedder, query: string): (r: Result<Row, string>)
    ensures r.Failure? <==> e.BatchEncoder? && e.encode([Strip(query)]) == []
    ensures r.Failure? ==> r.error == IndexErrorMessage
    ensures r.Success? && e.TextEncoder? ==> r.value == e.encodeOne(Strip(query))
    ensures r.Success? && !e.TextEncoder? ==>
      r.value == (if RowsFor(e, Strip(query)) == [] then [] else RowsFor(e, Strip(query))[0])
  {
    var q := Strip(query);
    match e
    case ProviderList(g) =>
      var rows := g([q]);
      Success(if rows != [] then rows[0] else [])
    case BatchEncoder(encode) =>
      assert EncodedTexts([q], DefaultBatchSize, encode) == Success(encode([q]));
      var rows := encode([q]);
      if rows == [] then Failure(IndexErrorMessage) else Success(rows[0])
    case TextEncoder(encodeOne) =>
      Success(encodeOne(q))
  }

  /**
    The embedding depends on the query only through its stripped form: queries that
    differ only in surrounding whitespace get the same embedding (or the same error).
   */
  lemma EmbeddingOfStripped(e: Embedder, q1: string, q2: string)
    requires Strip(q1) == Strip(q2)
    ensures CreateEmbeddings(e, q1) == CreateEmbeddings(e, q2)
    ensures CreateEmbeddings(e, q1) == CreateEmbeddings(e, Strip(q1))
  {
    StripIdempotent(q1);
  }

  /** A provider or model that embeds every text of a batch with `f`, in order. */
  ghost predicate EmbedsWith(e: Embedder, f: string -> Row)
  {
    match e
    case ProviderList(g) => PerText(g, f)
    case BatchEncoder(encode) => PerText(encode, f)
    case TextEncoder(encodeOne) => forall q :: encodeOne(q) == f(q)
  }

  /**
    The three `create_embeddings` variants agree: with a model that embeds text by
    text, each returns the embedding of the stripped query and none fails.
   */
  lemma CreateEmbeddingsAgree(e: Embedder, f: string -> Row, query: string)
    requires EmbedsWith(e, f)
    ensures CreateEmbeddings(e, query) == Success(f(Strip(query)))
  {
    var q := Strip(query);
    match e
    case ProviderList(g) =>
      assert g([q]) == MapRows(f, [q]);
    case BatchEncoder(encode) =>
      assert encode([q]) == MapRows(f, [q]);
    case TextEncoder(_) =>
  }

  /** `override if override is not None else default`. */
  function ResolveOverride<T>(override: Option<T>, default: T): (r: T)
    ensures override.Some? ==> r == override.value
    ensures override.None? ==> r == default
  {
    match override
    case Some(v) => v
    case None => default
  }

  /**
    The arguments of the `hybrid_search` call. The first three retriever modules send
    no alpha and no threshold (`None` here); app/query_processing/retriever.py sends
    both.
   */
  datatype SearchArgs = SearchArgs(
    queryText: string,
    queryEmbedding: Row,
    matchCount: int,
    alpha: Option<real>,
    threshold: Option<real>)

  /** `create_retriever(embedder, match_count)`: the closure's captured settings. */
  datatype Retriever = Retriever(embedder: Embedder, matchCount: int)

  /** `create_retriever()` with its default match count. */
  function DefaultRetriever(e: Embedder): (r: Retriever)
    ensures r.embedder == e && r.matchCount == 10
  {
    Retriever(e, DefaultMatchCount)
  }

  /**
    The arguments `retrieve(query, override_match_count)` passes to `hybrid_search`:
    the query text exactly as given (not stripped), the embedding of the stripped query,
    and the override count whenever one is given (0 included), else the retriever's.
   */
  function SearchRequest(rt: Retriever, query: string, overrideCount: Option<int>): (r: Result<SearchArgs, string>)
    ensures r.Failure? <==> CreateEmbeddings(rt.embedder, query).Failure?
    ensures r.Success? ==>
      && r.value.queryText == query
      && Success(r.value.queryEmbedding) == CreateEmbeddings(rt.embedder, Strip(query))
      && r.value.matchCount == (if overrideCount.Some? then overrideCount.value else rt.matchCount)
      && r.value.alpha.None? && r.value.threshold.None?
  {
    EmbeddingOfStripped(rt.embedder, query, Strip(query));
    match CreateEmbeddings(rt.embedder, query)
    case Failure(m) => Failure(m)
    case Success(emb) => Success(SearchArgs(query, emb, ResolveOverride(overrideCount, rt.matchCount), None, None))
  }

  /**
    `retrieve(query, override_match_count)`: the `hybrid_search` rows for the request,
    passed through `_ensure_serializable`. The result holds no NumPy array; a failure
    is the embedding step's. `search` is total, so the stored procedure's own errors
    are not represented.
   */
  function Retrieve(rt: Retriever, search: SearchArgs -> Value, query: string, overrideCount: Option<int>): (r: Result<Value, string>)
    ensures r.Failure? <==> SearchRequest(rt, query, overrideCount).Failure?
    ensures r.Success? ==> NoArrays(r.value)
    ensures r.Success? ==> r.value == EnsureSerializable(search(SearchRequest(rt, query, overrideCount).value))
  {
    match SearchRequest(rt, query, overrideCount)
    case Failure(m) => Failure(m)
    case Success(args) => Success(EnsureSerializable(search(args)))
  }

  /**
    Surrounding whitespace changes what full-text search sees but not the embedding:
    two queries with the same strip send the same embedding and count, and their raw
    texts.
   */
  lemma SearchSeesRawText(rt: Retriever, q1: string, q2: string, overrideCount: Option<int>)
    requires Strip(q1) == Strip(q2)
    ensures SearchRequest(rt, q1, overrideCount).Success? <==> SearchRequest(rt, q2, overrideCount).Success?
    ensures SearchRequest(rt, q1, overrideCount).Success? ==>
      var a1 := SearchRequest(rt, q1, overrideCount).value;
      var a2 := SearchRequest(rt, q2, overrideCount).value;
      && a1.queryEmbedding == a2.queryEmbedding
      && a1.matchCount == a2.matchCount
      && a1.queryText == q1 && a2.queryText == q2
  {
    EmbeddingOfStripped(rt.embedder, q1, q2);
    StripIdempotent(q1);
  }

  /**
    When the search rows hold no array, `retrieve` returns them untouched; retrieving
    again from the returned rows would change nothing either.
   */
  lemma RetrievePassesArrayFreeRows(rt: Retriever, search: SearchArgs -> Value, query: string, overrideCount: Option<int>)
    requires SearchRequest(rt, query, overrideCount).Success?
    requires NoArrays(search(SearchRequest(rt, query, overrideCount).value))
    ensures Retrieve(rt, search, query, overrideCount) == Success(search(SearchRequest(rt, query, overrideCount).value))
  {
    EnsureSerializableFixesArrayFree(search(SearchRequest(rt, query, overrideCount).value));
  }

  /**
    app/query_processing/retriever.py: `create_retriever(match_count, match_threshold,
    alpha)` with a model taking the single query string.
   */
  datatype WeightedRetriever = WeightedRetriever(encode: string -> Row, matchCount: int, matchThreshold: real, alpha: real)

  function DefaultWeightedRetriever(encode: string -> Row): (r: WeightedRetriever)
    ensures r.matchCount == 10 && r.matchThreshold == 0.0 && r.alpha == 0.5
  {
    WeightedRetriever(encode, DefaultMatchCount, DefaultMatchThreshold, DefaultAlpha)
  }

  /**
    The `hybrid_search` arguments of the weighted `retrieve`: alpha, threshold and count
    each resolved on its own, the override whenever it is given (0 and 0.0 included);
    the raw query text and the embedding of the stripped query.
   */
  function WeightedSearchRequest(rt: WeightedRetriever, query: string, overrideAlpha: Option<real>, overrideThreshold: Option<real>, overrideCount: Option<int>): (r: SearchArgs)
    ensures r.queryText == query
    ensures r.queryEmbedding == rt.encode(Strip(query))
    ensures r.alpha == Some(if overrideAlpha.Some? then overrideAlpha.value else rt.alpha)
    ensures r.threshold == Some(if overrideThreshold.Some? then overrideThreshold.value else rt.matchThreshold)
    ensures r.matchCount == (if overrideCount.Some? then overrideCount.value else rt.matchCount)
  {
    var embedding := CreateEmbeddings(TextEncoder(rt.encode), query).value;
    SearchArgs(
      query,
      embedding,
      ResolveOverride(overrideCount, rt.matchCount),
      Some(ResolveOverride(overrideAlpha, rt.alpha)),
      Some(ResolveOverride(overrideThreshold, rt.matchThreshold)))
  }

  /**
    The weighted `retrieve`: `[]` when the search returns no row, else the rows as
    returned. The empty-result branch changes nothing: the result is the search rows
    exactly, in storage order, with no serialization pass.
   */
  function RetrieveWeighted(rt: WeightedRetriever, search: SearchArgs -> seq<Value>, query: string, overrideAlpha: Option<real>, overrideThreshold: Option<real>, overrideCount: Option<int>): (r: seq<Value>)
    ensures r == search(WeightedSearchRequest(rt, query, overrideAlpha, overrideThreshold, overrideCount))
  {
    var data := search(WeightedSearchRequest(rt, query, overrideAlpha, overrideThreshold, overrideCount));
    if |data| == 0 then [] else data
  }
}
