/**
  Embedding batching (app/services/indexing/utils/embeddings.py): `encode_texts` cuts
  the texts into consecutive slices of `batch_size`, encodes each slice with the model
  and stacks the per-batch rows; `get_embedding_model` loads the model once
  (`lru_cache(maxsize=1)`), from the local cache directory when it exists.
 */
module Batching {
  import opened Wrappers
  import opened Documents

  const DefaultBatchSize: int := 32
  const LocalModelPath: string := "model_cache/embedding_model"
  const HubModelName: string := "Alibaba-NLP/gte-large-en-v1.5"

  /** Concatenation of a sequence of sequences (`np.vstack` on rows, `list.extend` in a loop). */
  function Flatten<T>(ss: seq<seq<T>>): seq<T>
  {
    if ss == [] then [] else ss[0] + Flatten(ss[1..])
  }

  lemma {:induction false} FlattenAppend<T>(a: seq<seq<T>>, b: seq<seq<T>>)
    ensures Flatten(a + b) == Flatten(a) + Flatten(b)
  {
    if a != [] {
      assert (a + b)[1..] == a[1..] + b;
      FlattenAppend(a[1..], b);
    } else {
      assert a + b == b;
    }
  }

  lemma MulSucc(x: int, y: int)
    ensures (x + 1) * y == x * y + y
  {
  }

  /**
    `[xs[i:i + size] for i in range(0, len(xs), size)]`: consecutive slices whose
    concatenation is `xs`, every one of `size` items except a shorter, non-empty last
    one (`BatchCount` bounds how many there are).
   */
  function Batches<T>(xs: seq<T>, size: int): (bs: seq<seq<T>>)
    requires size >= 1
    ensures xs == [] <==> bs == []
    ensures forall k :: 0 <= k < |bs| ==> 1 <= |bs[k]| <= size
    ensures forall k :: 0 <= k < |bs| - 1 ==> |bs[k]| == size
    decreases |xs|
  {
    if xs == [] then []
    else if |xs| <= size then [xs]
    else [xs[..size]] + Batches(xs[size..], size)
  }

  /** The batches, concatenated in order, are `xs` again: nothing lost, repeated or moved. */
  lemma {:induction false} BatchesFlatten<T>(xs: seq<T>, size: int)
    requires size >= 1
    ensures Flatten(Batches(xs, size)) == xs
    decreases |xs|
  {
    if |xs| > size {
      BatchesFlatten(xs[size..], size);
      assert xs == xs[..size] + xs[size..];
    } else if xs != [] {
      assert [xs][1..] == [];
    }
  }

  /** `k * size`, counted up one batch at a time. */
  function Offset(k: nat, size: nat): nat
  {
    if k == 0 then 0 else Offset(k - 1, size) + size
  }

  lemma {:induction false} OffsetIsProduct(k: nat, size: nat)
    ensures Offset(k, size) == k * size
  {
    if k > 0 {
      OffsetIsProduct(k - 1, size);
      MulSucc(k - 1, size);
    }
  }

  /** There are ceil(|xs| / size) batches: the last one starts before the end of `xs`. */
  lemma {:induction false} BatchCount<T>(xs: seq<T>, size: int)
    requires size >= 1
    ensures (|Batches(xs, size)| - 1) * size < |xs| <= |Batches(xs, size)| * size
    decreases |xs|
  {
    var n := |Batches(xs, size)|;
    if |xs| > size {
      BatchCount(xs[size..], size);
      assert n == |Batches(xs[size..], size)| + 1;
      MulSucc(n - 1, size);
      MulSucc(n - 2, size);
    }
  }

  /** The end of the slice of at most `size` items that starts at `start`. */
  function SliceEnd(start: nat, size: nat, n: nat): nat
  {
    if start + size < n then start + size else n
  }

  /**
    Batch `k` is the slice `xs[k * size:k * size + size]` (clipped to the end of `xs`):
    the range that `range(0, len(xs), size)` gives it.
   */
  lemma {:induction false} BatchIsSlice<T>(xs: seq<T>, size: int, k: nat)
    requires size >= 1
    requires k < |Batches(xs, size)|
    ensures Offset(k, size) < |xs|
    ensures Batches(xs, size)[k] == xs[Offset(k, size)..SliceEnd(Offset(k, size), size, |xs|)]
    decreases |xs|
  {
    if |xs| <= size {
      BatchesShort(xs, size);
    } else if k == 0 {
      BatchesLong(xs, size);
    } else {
      BatchesLong(xs, size);
      BatchIsSlice(xs[size..], size, k - 1);
      BatchIsSliceStep(xs, size, k);
    }
  }

  /** Batch `k` of `xs` is batch `k - 1` of `xs[size..]`, shifted by `size`. */
  lemma BatchIsSliceStep<T>(xs: seq<T>, size: int, k: nat)
    requires size >= 1 && |xs| > size
    requires 0 < k < |Batches(xs, size)|
    requires Offset(k - 1, size) < |xs| - size
    requires Batches(xs[size..], size)[k - 1] == xs[size..][Offset(k - 1, size)..SliceEnd(Offset(k - 1, size), size, |xs| - size)]
    ensures Offset(k, size) < |xs|
    ensures Batches(xs, size)[k] == xs[Offset(k, size)..SliceEnd(Offset(k, size), size, |xs|)]
  {
    var a := Offset(k - 1, size);
    var e := SliceEnd(a, size, |xs| - size);
    assert Offset(k, size) == a + size;
    assert SliceEnd(a + size, size, |xs|) == e + size;
    var b := Batches(xs[size..], size)[k - 1];
    assert Batches(xs, size)[k] == b by {
      BatchesLong(xs, size);
    }
    assert b == xs[a + size..e + size] by {
      ShiftSlice(xs, size, a, e);
    }
  }

  lemma BatchesShort<T>(xs: seq<T>, size: int)
    requires size >= 1 && 0 < |xs| <= size
    ensures Batches(xs, size) == [xs[0..|xs|]]
  {
    assert xs[0..|xs|] == xs;
  }

  lemma BatchesLong<T>(xs: seq<T>, size: int)
    requires size >= 1 && |xs| > size
    ensures Batches(xs, size) == [xs[0..size]] + Batches(xs[size..], size)
  {
  }

  /**
    Cutting the first batch off a suffix: the batches of `xs[i..]` are the slice
    `xs[i..end]` of at most `size` items followed by the batches of `xs[end..]`. This
    is the step of a loop over `range(i, len(xs), size)`.
   */
  lemma BatchesStep<T>(xs: seq<T>, size: int, i: nat, end: nat)
    requires size >= 1 && i < |xs|
    requires end == SliceEnd(i, size, |xs|)
    ensures Batches(xs[i..], size) == [xs[i..end]] + Batches(xs[end..], size)
  {
    var t := xs[i..];
    if |t| <= size {
      BatchesShort(t, size);
      assert t[0..|t|] == xs[i..end];
      assert xs[end..] == [];
    } else {
      BatchesLong(t, size);
      assert t[0..size] == xs[i..end];
      assert t[size..] == xs[end..];
    }
  }

  /** Stacking one more batch in front. */
  lemma StackCons(encode: seq<string> -> seq<Row>, b: seq<string>, rest: seq<seq<string>>)
    ensures Stack(encode, [b] + rest) == encode(b) + Stack(encode, rest)
  {
    assert ([b] + rest)[1..] == rest;
  }

  lemma ShiftSlice<T>(xs: seq<T>, d: nat, i: nat, j: nat)
    requires d <= |xs| && i <= j <= |xs| - d
    ensures xs[d..][i..j] == xs[i + d..j + d]
  {
  }

  /** `f` applied to every text. */
  function MapRows(f: string -> Row, texts: seq<string>): (rows: seq<Row>)
    ensures |rows| == |texts|
  {
    seq(|texts|, i requires 0 <= i < |texts| => f(texts[i]))
  }

  /** The rows of `encode` over each batch, stacked in batch order. */
  function Stack(encode: seq<string> -> seq<Row>, batches: seq<seq<string>>): seq<Row>
  {
    if batches == [] then [] else encode(batches[0]) + Stack(encode, batches[1..])
  }

  /** `encode` works text by text: it returns `f` of each text of its batch. */
  ghost predicate PerText(encode: seq<string> -> seq<Row>, f: string -> Row) {
    forall batch :: encode(batch) == MapRows(f, batch)
  }

  /** Stacking per-text results of any batching is `f` over the concatenated texts. */
  lemma {:induction false} StackPerText(encode: seq<string> -> seq<Row>, f: string -> Row, batches: seq<seq<string>>)
    requires PerText(encode, f)
    ensures Stack(encode, batches) == MapRows(f, Flatten(batches))
  {
    if batches != [] {
      StackPerText(encode, f, batches[1..]);
      assert MapRows(f, batches[0] + Flatten(batches[1..])) == MapRows(f, batches[0]) + MapRows(f, Flatten(batches[1..]));
    }
  }

  /**
    `encode_texts(texts, batch_size)`. An empty input gives no rows; up to `batch_size`
    texts go to the model in one call; more are cut into batches whose results are
    stacked. `range(0, n, 0)` raises, and a negative step gives no batch at all, so
    `np.vstack([])` raises.
   */
  function EncodedTexts(texts: seq<string>, batchSize: int, encode: seq<string> -> seq<Row>): Result<seq<Row>, string>
  {
    if texts == [] then Success([])
    else if |texts| <= batchSize then Success(encode(texts))
    else if batchSize == 0 then Failure("range() arg 3 must not be zero")
    else if batchSize < 0 then Failure("need at least one array to concatenate")
    else Success(Stack(encode, Batches(texts, batchSize)))
  }

  /** The batches `encode_texts` hands to the model, one per model call. */
  function EncodeCalls(texts: seq<string>, batchSize: int): Result<seq<seq<string>>, string>
  {
    if texts == [] then Success([])
    else if |texts| <= batchSize then Success([texts])
    else if batchSize == 0 then Failure("range() arg 3 must not be zero")
    else if batchSize < 0 then Failure("need at least one array to concatenate")
    else Success(Batches(texts, batchSize))
  }

  /**
    The model calls of `encode_texts`: none for an empty input, exactly one with all
    texts when they fit in one batch, and otherwise ceil(n / batch_size) consecutive
    batches of `batch_size` (the last one shorter) that cover the texts in order. The
    result is the per-call rows stacked in call order. It fails exactly when there are
    texts and `batch_size < 1`.
   */
  lemma EncodeCallsShape(texts: seq<string>, batchSize: int, encode: seq<string> -> seq<Row>)
    ensures EncodeCalls(texts, batchSize).Failure? <==> texts != [] && batchSize < 1
    ensures EncodedTexts(texts, batchSize, encode).Failure? <==> EncodeCalls(texts, batchSize).Failure?
    ensures EncodeCalls(texts, batchSize).Success? ==>
      var calls := EncodeCalls(texts, batchSize).value;
      && Flatten(calls) == texts
      && (texts == [] ==> calls == [])
      && (0 < |texts| <= batchSize ==> calls == [texts])
      && (batchSize >= 1 ==> (|calls| - 1) * batchSize < |texts| <= |calls| * batchSize)
      && (forall k :: 0 <= k < |calls| ==> 1 <= |calls[k]| <= batchSize)
      && (forall k :: 0 <= k < |calls| - 1 ==> |calls[k]| == batchSize)
      && EncodedTexts(texts, batchSize, encode) == Success(Stack(encode, calls))
  {
    if batchSize >= 1 && |texts| > batchSize {
      BatchCount(texts, batchSize);
      BatchesFlatten(texts, batchSize);
    }
    if texts != [] && |texts| <= batchSize {
      assert Flatten([texts]) == texts;
      assert [texts][1..] == [];
      assert Stack(encode, [texts]) == encode(texts) + Stack(encode, []);
      assert encode(texts) + [] == encode(texts);
    }
  }

  /**
    Batching does not change the result: with a model that encodes text by text, the
    stacked rows are `f` of each text, row `i` belonging to `texts[i]`, for every batch
    size that can slice.
   */
  lemma EncodedTextsPerText(texts: seq<string>, batchSize: int, encode: seq<string> -> seq<Row>, f: string -> Row)
    requires PerText(encode, f)
    requires batchSize >= 1
    ensures EncodedTexts(texts, batchSize, encode) == Success(MapRows(f, texts))
  {
    EncodeCallsShape(texts, batchSize, encode);
    if texts != [] {
      StackPerText(encode, f, EncodeCalls(texts, batchSize).value);
    }
  }

  /** Where `get_embedding_model` loads the model from. */
  datatype ModelSource = LocalCache | Hub {
    function Location(): string {
      match this
      case LocalCache => LocalModelPath
      case Hub => HubModelName
    }
  }

  /** `model_path if os.path.exists(model_path) else model_name`. */
  function ChooseSource(localCacheExists: bool): (m: ModelSource)
    ensures m.Location() == (if localCacheExists then LocalModelPath else HubModelName)
  {
    if localCacheExists then LocalCache else Hub
  }

  /**
    The `lru_cache(maxsize=1)` memo of `get_embedding_model`: the model it loaded, if any,
    and how many times it has loaded one.
   */
  class EmbeddingModelCache {
    var cached: Option<ModelSource>
    var loads: nat

    ghost predicate Valid()
      reads this
    {
      loads == (if cached.Some? then 1 else 0)
    }

    constructor ()
      ensures Valid() && cached == None && loads == 0
    {
      cached := None;
      loads := 0;
    }

    /** `get_embedding_model()`: the first call loads and remembers, later calls reuse. */
    method GetEmbeddingModel(localCacheExists: bool) returns (m: ModelSource)
      requires Valid()
      modifies this
      ensures Valid() && cached == Some(m) && loads == 1
      ensures old(cached).Some? ==> m == old(cached).value && loads == old(loads)
      ensures old(cached).None? ==> m == ChooseSource(localCacheExists)
    {
      if cached.Some? {
        m := cached.value;
      } else {
        m := ChooseSource(localCacheExists);
        cached := Some(m);
        loads := loads + 1;
      }
    }

    /**
      `encode_texts(texts, batch_size)`: the result of `EncodedTexts`; an empty input
      returns before the model is loaded, any other input leaves the model loaded, and
      the model is never loaded twice.
     */
    method EncodeTexts(texts: seq<string>, batchSize: int, localCacheExists: bool, encode: seq<string> -> seq<Row>)
      returns (r: Result<seq<Row>, string>)
      requires Valid()
      modifies this
      ensures Valid() && loads <= 1
      ensures r == EncodedTexts(texts, batchSize, encode)
      ensures texts == [] ==> cached == old(cached) && loads == old(loads)
      ensures texts != [] ==> cached.Some? && (old(cached).Some? ==> cached == old(cached))
      ensures texts != [] && old(cached).None? ==> cached == Some(ChooseSource(localCacheExists))
    {
      if texts == [] {
        return Success([]);
      }
      var model := GetEmbeddingModel(localCacheExists);
      r := EncodedTexts(texts, batchSize, encode);
    }
  }
}
