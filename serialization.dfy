/**
  `_ensure_serializable` (identical in the three retriever modules): a recursive
  rewrite of a JSON-like value that turns every NumPy array into nested Python lists.
 */
module Serialization {

  /** A float-dtype NumPy array: a 0-d scalar, or an axis of sub-arrays. */
  datatype NdArray = Scalar(x: real) | Axis(parts: seq<NdArray>)

  /** The Python values a hybrid-search row can hold. Dicts keep insertion order. */
  datatype Value =
    | Null
    | Bool(b: bool)
    | Int(i: int)
    | Float(x: real)
    | Str(s: string)
    | List(items: seq<Value>)
    | Dict(entries: seq<Entry>)
    | Array(nd: NdArray)

  datatype Entry = Entry(key: string, value: Value)

  predicate IsScalar(v: Value) {
    v.Null? || v.Bool? || v.Int? || v.Float? || v.Str?
  }

  /** No NumPy array anywhere inside `v`. */
  predicate NoArrays(v: Value)
  {
    match v
    case Array(_) => false
    case List(xs) => forall i :: 0 <= i < |xs| ==> NoArrays(xs[i])
    case Dict(es) => forall i :: 0 <= i < |es| ==> NoArrays(es[i].value)
    case _ => true
  }

  /** The keys of a dict, in insertion order. */
  function Keys(es: seq<Entry>): (ks: seq<string>)
    ensures |ks| == |es|
  {
    seq(|es|, i requires 0 <= i < |es| => es[i].key)
  }

  /** The numbers of an array in row-major order. */
  function NdLeaves(a: NdArray): seq<real>
  {
    match a
    case Scalar(x) => [x]
    case Axis(ps) => NdLeavesOf(ps)
  }

  function NdLeavesOf(ps: seq<NdArray>): seq<real>
  {
    if ps == [] then [] else NdLeaves(ps[0]) + NdLeavesOf(ps[1..])
  }

  /** The floats of a nested list in order (nothing for other values). */
  function ListLeaves(v: Value): seq<real>
  {
    match v
    case Float(x) => [x]
    case List(xs) => ListLeavesOf(xs)
    case _ => []
  }

  function ListLeavesOf(xs: seq<Value>): seq<real>
  {
    if xs == [] then [] else ListLeaves(xs[0]) + ListLeavesOf(xs[1..])
  }

  /**
    `ndarray.tolist()`: a 0-d array becomes its number, an axis becomes a list.
    The result holds no array and carries the same numbers in the same order.
   */
  function ToList(a: NdArray): (r: Value)
    ensures NoArrays(r)
    ensures ListLeaves(r) == NdLeaves(a)
  {
    match a
    case Scalar(x) => Float(x)
    case Axis(ps) =>
      var items := seq(|ps|, i requires 0 <= i < |ps| => ToList(ps[i]));
      ToListLeaves(ps, items);
      List(items)
  }

  lemma {:induction false} ToListLeaves(ps: seq<NdArray>, items: seq<Value>)
    requires |items| == |ps|
    requires forall i :: 0 <= i < |ps| ==> ListLeaves(items[i]) == NdLeaves(ps[i])
    ensures ListLeavesOf(items) == NdLeavesOf(ps)
  {
    if ps != [] {
      ToListLeaves(ps[1..], items[1..]);
    }
  }

  /**
    `_ensure_serializable(data)`. The result holds no NumPy array; a list keeps its
    length and order, item `i` becoming the rewrite of item `i`; a dict keeps its keys
    in order, each value rewritten in place; an array becomes its `tolist()`, and every
    other value is returned unchanged.
   */
  function EnsureSerializable(v: Value): (r: Value)
    ensures NoArrays(r)
    ensures v.List? ==> r.List? && |r.items| == |v.items|
    ensures v.List? ==> forall i :: 0 <= i < |v.items| ==> r.items[i] == EnsureSerializable(v.items[i])
    ensures v.Dict? ==> r.Dict? && Keys(r.entries) == Keys(v.entries)
    ensures v.Dict? ==> forall i :: 0 <= i < |v.entries| ==>
      r.entries[i] == Entry(v.entries[i].key, EnsureSerializable(v.entries[i].value))
    ensures v.Array? ==> r == ToList(v.nd)
    ensures IsScalar(v) ==> r == v
  {
    match v
    case Array(a) => ToList(a)
    case Dict(es) =>
      var out := seq(|es|, i requires 0 <= i < |es| => Entry(es[i].key, EnsureSerializable(es[i].value)));
      assert Keys(out) == Keys(es);
      Dict(out)
    case List(xs) => List(seq(|xs|, i requires 0 <= i < |xs| => EnsureSerializable(xs[i])))
    case _ => v
  }

  /** A value without arrays comes back exactly as it went in. */
  lemma {:induction false} EnsureSerializableFixesArrayFree(v: Value)
    requires NoArrays(v)
    ensures EnsureSerializable(v) == v
  {
    match v
    case List(xs) =>
      forall i | 0 <= i < |xs| ensures EnsureSerializable(xs[i]) == xs[i] {
        EnsureSerializableFixesArrayFree(xs[i]);
      }
    case Dict(es) =>
      forall i | 0 <= i < |es| ensures EnsureSerializable(es[i].value) == es[i].value {
        EnsureSerializableFixesArrayFree(es[i].value);
      }
    case _ =>
  }

  /** `_ensure_serializable` is the identity exactly on array-free values. */
  lemma EnsureSerializableFixpoint(v: Value)
    ensures EnsureSerializable(v) == v <==> NoArrays(v)
  {
    if NoArrays(v) {
      EnsureSerializableFixesArrayFree(v);
    }
  }

  /** Applying `_ensure_serializable` twice is the same as once. */
  lemma EnsureSerializableIdempotent(v: Value)
    ensures EnsureSerializable(EnsureSerializable(v)) == EnsureSerializable(v)
  {
    EnsureSerializableFixesArrayFree(EnsureSerializable(v));
  }
}
