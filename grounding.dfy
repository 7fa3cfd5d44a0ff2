/**
 * `ground_detection_features`: every tagged token of every choice takes the
 * feature vector of the detection its tag names, and an untagged token the
 * zero vector, by a branchless lookup into the detection table extended
 * with one all-zero row.
 */
module Grounding {
  import opened Tensors
  import opened Detections
  import Wrappers

  /**
   * The table `tf.concat([features, zeros([batch, 1, dims])], 1)` builds:
   * each example's detections, followed by one zero row at index `m`.
   */
  function AppendZeroRow<E>(features: seq<seq<seq<E>>>, m: nat, dims: nat, zero: E): (t: seq<seq<seq<E>>>)
    requires IsTensor3(features, |features|, m, dims)
    ensures IsTensor3(t, |features|, m + 1, dims)
    ensures forall b :: 0 <= b < |t| ==> t[b][..m] == features[b] && t[b][m] == Zeros(dims, zero)
  {
    var t := seq(|features|, b requires 0 <= b < |features| => features[b] + [Zeros(dims, zero)]);
    assert forall b :: 0 <= b < |t| ==> IsMatrix(t[b], m + 1, dims) by {
      forall b | 0 <= b < |t| ensures IsMatrix(t[b], m + 1, dims) {
        assert IsMatrix(features[b], m, dims);
        forall i | 0 <= i < m + 1 ensures |t[b][i]| == dims {
          if i < m { assert t[b][i] == features[b][i]; } else { assert t[b][i] == Zeros(dims, zero); }
        }
      }
    }
    t
  }

  /** The tag ids the lookup accepts: the sentinel, a detection, or the zero row itself. */
  predicate ValidTag(tag: int, m: nat) {
    NoTag <= tag <= m
  }

  /**
   * The row of the extended table a tag selects; the sentinel selects the
   * last row, the appended zero row, as in last-element indexing.
   */
  function TableRow(tag: int, m: nat): (row: nat)
    requires ValidTag(tag, m)
    ensures row <= m
    ensures row == m <==> (tag == NoTag || tag == m)
    ensures 0 <= tag < m ==> row == tag
  {
    if tag == NoTag then m else tag
  }

  /**
   * The row index as `tf.gather_nd` itself treats it: there is no
   * last-element indexing, and an index outside `[0, rows)` is an error (on
   * a CPU; a GPU stores zeros instead).
   */
  function GatherNdRowAsWritten(tag: int, rows: nat): (r: Wrappers.Result<nat, string>)
    ensures r.Success? <==> 0 <= tag < rows
    ensures r.Success? ==> r.value == tag
  {
    if 0 <= tag < rows then Wrappers.Success(tag) else Wrappers.Failure("indices is not in [0, rows)")
  }

  /**
   * Passed straight to `tf.gather_nd`, the sentinel does not reach the zero
   * row at index `m` but is refused, for every table of `m + 1` rows.
   */
  lemma SentinelMissesZeroRowAsWritten(m: nat)
    ensures GatherNdRowAsWritten(NoTag, m + 1).Failure?
    ensures TableRow(NoTag, m) == m
  {
  }

  /**
   * `tf.gather_nd(table, tf.stack([base_indices, tags], -1))` for the tags
   * `[batch, len]` of one choice: position `k` of example `b` reads row
   * `tags[b][k]` of example `b`'s own table.
   */
  function GatherByTag<E>(table: seq<seq<seq<E>>>, tags: seq<seq<int>>, m: nat): (g: seq<seq<seq<E>>>)
    requires |tags| == |table|
    requires forall b :: 0 <= b < |table| ==> |table[b]| == m + 1
    requires forall b, k :: 0 <= b < |tags| && 0 <= k < |tags[b]| ==> ValidTag(tags[b][k], m)
    ensures |g| == |tags|
    ensures forall b :: 0 <= b < |tags| ==> |g[b]| == |tags[b]|
    ensures forall b, k :: 0 <= b < |tags| && 0 <= k < |tags[b]| ==>
      g[b][k] == table[b][TableRow(tags[b][k], m)]
  {
    seq(|tags|, b requires 0 <= b < |tags| =>
      seq(|tags[b]|, k requires 0 <= k < |tags[b]| => table[b][TableRow(tags[b][k], m)]))
  }

  /**
   * What grounding promises of its result `g` of shape
   * `[batch, numChoices, len, dims]`: a tag naming a detection yields that
   * detection's features, the sentinel (and the zero row's own index) the
   * zero vector.
   */
  ghost predicate IsGrounding<E>(g: seq<seq<seq<seq<E>>>>, features: seq<seq<seq<E>>>, tags: seq<seq<seq<int>>>,
                                 m: nat, dims: nat, zero: E, numChoices: nat, len: nat)
    requires IsTensor3(tags, |features|, numChoices, len)
  {
    IsTensor4(g, |features|, numChoices, len, dims) &&
    (forall b, c, k :: 0 <= b < |features| && 0 <= c < numChoices && 0 <= k < len && 0 <= tags[b][c][k] < m ==>
       |features[b]| == m && g[b][c][k] == features[b][tags[b][c][k]]) &&
    (forall b, c, k ::
       0 <= b < |features| && 0 <= c < numChoices && 0 <= k < len && (tags[b][c][k] == NoTag || tags[b][c][k] == m) ==>
       g[b][c][k] == Zeros(dims, zero))
  }

  /** The error `tf.stack` raises when the list of per-choice tensors is empty. */
  const EmptyStack := "tf.stack of an empty list"

  /**
   * `ground_detection_features`: one `gather_nd` per choice over the table
   * with the zero row appended, stacked along the choice axis; with no
   * choices the final stack fails.
   */
  method GroundDetectionFeatures<E>(features: seq<seq<seq<E>>>, tags: seq<seq<seq<int>>>,
                                    m: nat, dims: nat, zero: E, numChoices: nat, len: nat)
    returns (r: Wrappers.Result<seq<seq<seq<seq<E>>>>, string>)
    requires IsTensor3(features, |features|, m, dims)
    requires IsTensor3(tags, |features|, numChoices, len)
    requires forall b, c, k :: 0 <= b < |features| && 0 <= c < numChoices && 0 <= k < len ==> ValidTag(tags[b][c][k], m)
    ensures r.Failure? <==> numChoices == 0
    ensures r.Success? ==> IsGrounding(r.value, features, tags, m, dims, zero, numChoices, len)
  {
    if numChoices == 0 {
      return Wrappers.Failure(EmptyStack);
    }
    var batch := |features|;
    var table := AppendZeroRow(features, m, dims, zero);
    var tagFeatures: seq<seq<seq<seq<E>>>> := [];
    var c := 0;
    while c < numChoices
      invariant 0 <= c <= numChoices
      invariant |tagFeatures| == c
      invariant forall c' :: 0 <= c' < c ==> tagFeatures[c'] == GatherByTag(table, Unstack(tags, c'), m)
    {
      tagFeatures := tagFeatures + [GatherByTag(table, Unstack(tags, c), m)];
      c := c + 1;
    }
    var grounded := Stack(tagFeatures, batch);
    forall b, c', k | 0 <= b < batch && 0 <= c' < numChoices && 0 <= k < len
      ensures |grounded[b][c']| == len && grounded[b][c'][k] == table[b][TableRow(tags[b][c'][k], m)]
    {
      assert grounded[b][c'] == tagFeatures[c'][b];
      assert Unstack(tags, c')[b] == tags[b][c'];
    }
    forall b, c', k | 0 <= b < batch && 0 <= c' < numChoices && 0 <= k < len && 0 <= tags[b][c'][k] < m
      ensures grounded[b][c'][k] == features[b][tags[b][c'][k]]
    {
      assert table[b][..m][tags[b][c'][k]] == table[b][tags[b][c'][k]];
    }
    r := Wrappers.Success(grounded);
  }
}
