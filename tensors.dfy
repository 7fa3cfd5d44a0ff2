/**
 * The handful of tensor operations the core is built from, on tensors
 * written as nested sequences (the outermost sequence is the batch axis).
 */
module Tensors {

  function Min(a: int, b: int): int { if a <= b then a else b }

  function Max(a: int, b: int): int { if a <= b then b else a }

  /** A rank-2 tensor of shape [rows, cols]. */
  ghost predicate IsMatrix<T>(x: seq<seq<T>>, rows: nat, cols: nat) {
    |x| == rows && forall i :: 0 <= i < rows ==> |x[i]| == cols
  }

  /** A rank-3 tensor of shape [d0, d1, d2]. */
  ghost predicate IsTensor3<T>(x: seq<seq<seq<T>>>, d0: nat, d1: nat, d2: nat) {
    |x| == d0 && forall i :: 0 <= i < d0 ==> IsMatrix(x[i], d1, d2)
  }

  /** A rank-4 tensor of shape [d0, d1, d2, d3]. */
  ghost predicate IsTensor4<T>(x: seq<seq<seq<seq<T>>>>, d0: nat, d1: nat, d2: nat, d3: nat) {
    |x| == d0 && forall i :: 0 <= i < d0 ==> IsTensor3(x[i], d1, d2, d3)
  }

  /**
   * The slice `s[:stop]` of Python and of TensorFlow's strided slice: a stop
   * beyond the end is clamped, a negative stop counts from the end.
   */
  function TakePrefix<T>(s: seq<T>, stop: int): (r: seq<T>)
    ensures r <= s
    ensures stop >= 0 ==> |r| == Min(stop, |s|)
    ensures stop < 0 ==> |r| == Max(0, |s| + stop)
  {
    if stop >= 0 then s[..Min(stop, |s|)] else s[..Max(0, |s| + stop)]
  }

  /** `tf.sequence_mask(length, maxlen)` for one example: True exactly below `length`. */
  function SequenceMask(length: int, maxlen: nat): (m: seq<bool>)
    ensures |m| == maxlen
    ensures forall j :: 0 <= j < maxlen ==> (m[j] <==> j < length)
  {
    seq(maxlen, j => j < length)
  }

  /** The all-zero feature vector of width `dims`. */
  function Zeros<E>(dims: nat, zero: E): (z: seq<E>)
    ensures |z| == dims
    ensures forall i :: 0 <= i < dims ==> z[i] == zero
  {
    seq(dims, _ => zero)
  }

  /** Slice `c` of `tf.unstack(x, axis=1)`. */
  function Unstack<T>(x: seq<seq<T>>, c: nat): (r: seq<T>)
    requires forall i :: 0 <= i < |x| ==> c < |x[i]|
    ensures |r| == |x|
    ensures forall i :: 0 <= i < |x| ==> r[i] == x[i][c]
  {
    seq(|x|, i requires 0 <= i < |x| => x[i][c])
  }

  /** `tf.stack(xs, axis=1)` of a list of tensors whose batch axis has length `batch`. */
  function Stack<T>(xs: seq<seq<T>>, batch: nat): (r: seq<seq<T>>)
    requires |xs| > 0
    requires forall c :: 0 <= c < |xs| ==> |xs[c]| == batch
    ensures IsMatrix(r, batch, |xs|)
    ensures forall b, c :: 0 <= b < batch && 0 <= c < |xs| ==> r[b][c] == xs[c][b]
  {
    seq(batch, b requires 0 <= b < batch => seq(|xs|, c requires 0 <= c < |xs| => xs[c][b]))
  }
}
