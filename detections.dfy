/**
 * The detection normaliser (`remove_detections`) and the tag resolver
 * (`preprocess_tags`) of models/vbert_ft.py.
 */
module Detections {
  import opened Tensors

  /** The default of `max_num_detections`. */
  const DefaultMaxNumDetections: int := 10

  /** The lowest int32, which `tf.reduce_max` yields for an empty vector. */
  const Int32Min: int := -0x8000_0000

  /** The sentinel tag id meaning "this token refers to no detection". */
  const NoTag: int := -1

  /**
   * One batch of detections: a count per example and four per-detection
   * arrays padded along their second axis.  Boxes, scores and features are
   * only ever copied, so their element types are left abstract.
   */
  datatype DetectionBatch<B, S, F> = DetectionBatch(
    numDetections: seq<int>,
    boxes: seq<seq<B>>,
    classes: seq<seq<int>>,
    scores: seq<seq<S>>,
    features: seq<seq<F>>)

  /** All five arrays share the batch axis, as the tensors of one batch do. */
  predicate SameBatch<B, S, F>(d: DetectionBatch<B, S, F>) {
    var n := |d.numDetections|;
    |d.boxes| == n && |d.classes| == n && |d.scores| == n && |d.features| == n
  }

  /** What `remove_detections` returns: the batch cap and the trimmed batch. */
  datatype Trimmed<B, S, F> = Trimmed(maxNumDetections: int, detections: DetectionBatch<B, S, F>)

  /** `tf.reduce_max` over an int32 vector. */
  function ReduceMax(xs: seq<int>): (m: int)
    ensures |xs| == 0 ==> m == Int32Min
    ensures |xs| > 0 ==> m in xs && forall i :: 0 <= i < |xs| ==> xs[i] <= m
  {
    if |xs| == 0 then Int32Min
    else if |xs| == 1 then xs[0]
    else Max(xs[0], ReduceMax(xs[1..]))
  }

  /** Every row of `x` cut to `x[:, :stop]`. */
  function TakeColumns<T>(x: seq<seq<T>>, stop: int): (r: seq<seq<T>>)
    ensures |r| == |x|
    ensures forall i :: 0 <= i < |x| ==> r[i] == TakePrefix(x[i], stop)
  {
    seq(|x|, i requires 0 <= i < |x| => TakePrefix(x[i], stop))
  }

  /**
   * `remove_detections`: the batch cap is the smaller of the largest count
   * and the configured maximum; every count is clamped to the cap and every
   * per-detection array keeps the prefix `[:cap]` of each row.
   */
  function RemoveDetections<B, S, F>(d: DetectionBatch<B, S, F>, maxNumDetections: int): (r: Trimmed<B, S, F>)
    // the cap
    ensures r.maxNumDetections == Min(ReduceMax(d.numDetections), maxNumDetections)
    ensures |d.numDetections| > 0 ==> r.maxNumDetections <= maxNumDetections
    ensures |d.numDetections| > 0 ==> exists i :: 0 <= i < |d.numDetections| && r.maxNumDetections == Min(d.numDetections[i], maxNumDetections)
    // the clamped counts
    ensures |r.detections.numDetections| == |d.numDetections|
    ensures forall i :: 0 <= i < |d.numDetections| ==>
      var n := r.detections.numDetections[i];
      n <= r.maxNumDetections && n <= d.numDetections[i] &&
      (n == d.numDetections[i] || n == r.maxNumDetections)
    // every row of every array is a prefix of its input row, of the cut width
    ensures PrefixRows(r.detections.boxes, d.boxes, r.maxNumDetections)
    ensures PrefixRows(r.detections.classes, d.classes, r.maxNumDetections)
    ensures PrefixRows(r.detections.scores, d.scores, r.maxNumDetections)
    ensures PrefixRows(r.detections.features, d.features, r.maxNumDetections)
  {
    var cap := Min(ReduceMax(d.numDetections), maxNumDetections);
    var counts := seq(|d.numDetections|, i requires 0 <= i < |d.numDetections| => Min(cap, d.numDetections[i]));
    Trimmed(cap, DetectionBatch(
      counts,
      TakeColumns(d.boxes, cap),
      TakeColumns(d.classes, cap),
      TakeColumns(d.scores, cap),
      TakeColumns(d.features, cap)))
  }

  /**
   * `out` has as many rows as `inp`, and each row of `out` is the first
   * `min(stop, width)` entries of the matching row of `inp`, unchanged and in
   * order (for a negative `stop`, what remains after dropping `-stop` from the end).
   */
  ghost predicate PrefixRows<T>(out: seq<seq<T>>, inp: seq<seq<T>>, stop: int) {
    |out| == |inp| &&
    forall i :: 0 <= i < |inp| ==>
      out[i] <= inp[i] &&
      |out[i]| == (if stop >= 0 then Min(stop, |inp[i]|) else Max(0, |inp[i]| + stop))
  }

  /** Clamping every element caps the maximum the same way. */
  lemma {:induction false} ReduceMaxOfClamped(xs: seq<int>, cap: int)
    requires |xs| > 0
    ensures ReduceMax(seq(|xs|, i requires 0 <= i < |xs| => Min(cap, xs[i]))) == Min(cap, ReduceMax(xs))
  {
    var ys := seq(|xs|, i requires 0 <= i < |xs| => Min(cap, xs[i]));
    if |xs| > 1 {
      var tail := seq(|xs| - 1, i requires 0 <= i < |xs| - 1 => Min(cap, xs[1..][i]));
      assert ys[1..] == tail;
      ReduceMaxOfClamped(xs[1..], cap);
    }
  }

  /**
   * Trimming twice with the same configured maximum trims nothing more:
   * the second call finds the same cap, the same counts and rows already cut.
   */
  lemma RemoveDetectionsIdempotent<B, S, F>(d: DetectionBatch<B, S, F>, maxNumDetections: int)
    requires SameBatch(d)
    requires maxNumDetections >= 0
    requires forall i :: 0 <= i < |d.numDetections| ==> d.numDetections[i] >= 0
    ensures var once := RemoveDetections(d, maxNumDetections);
      RemoveDetections(once.detections, maxNumDetections) == once
  {
    var once := RemoveDetections(d, maxNumDetections);
    var cap := once.maxNumDetections;
    var twice := RemoveDetections(once.detections, maxNumDetections);
    if |d.numDetections| > 0 {
      ReduceMaxOfClamped(d.numDetections, cap);
      assert once.detections.numDetections == seq(|d.numDetections|, i requires 0 <= i < |d.numDetections| => Min(cap, d.numDetections[i]));
      assert twice.maxNumDetections == cap;
      assert cap >= 0;
      TakeColumnsTwice(d.boxes, cap);
      TakeColumnsTwice(d.classes, cap);
      TakeColumnsTwice(d.scores, cap);
      TakeColumnsTwice(d.features, cap);
    } else {
      assert twice.maxNumDetections == cap;
    }
    assert twice.detections.numDetections == once.detections.numDetections;
  }

  /** Cutting rows to a non-negative width twice is cutting them once. */
  lemma TakeColumnsTwice<T>(x: seq<seq<T>>, stop: int)
    requires stop >= 0
    ensures TakeColumns(TakeColumns(x, stop), stop) == TakeColumns(x, stop)
  {
    var once := TakeColumns(x, stop);
    forall i | 0 <= i < |x| ensures TakePrefix(once[i], stop) == once[i] {
      assert |once[i]| <= stop;
    }
  }

  /** The rewrite `preprocess_tags` applies to one tag id. */
  function RewriteTag(tag: int, maxNumDetections: int): (r: int)
    ensures r == NoTag || r < maxNumDetections
    ensures r == tag <==> tag < maxNumDetections || tag == NoTag
  {
    if tag >= maxNumDetections then NoTag else tag
  }

  /**
   * `preprocess_tags`: a tensor of the same shape in which every tag id at or
   * above the detection cap has become the sentinel and every other id,
   * the sentinel included, is unchanged.
   */
  function PreprocessTags(tags: seq<seq<seq<int>>>, maxNumDetections: int): (r: seq<seq<seq<int>>>)
    ensures |r| == |tags|
    ensures forall b :: 0 <= b < |tags| ==> |r[b]| == |tags[b]|
    ensures forall b, c :: 0 <= b < |tags| && 0 <= c < |tags[b]| ==> |r[b][c]| == |tags[b][c]|
    ensures forall b, c, k :: 0 <= b < |tags| && 0 <= c < |tags[b]| && 0 <= k < |tags[b][c]| ==>
      (tags[b][c][k] >= maxNumDetections ==> r[b][c][k] == NoTag) &&
      (tags[b][c][k] < maxNumDetections ==> r[b][c][k] == tags[b][c][k])
    ensures forall b, c, k :: 0 <= b < |r| && 0 <= c < |r[b]| && 0 <= k < |r[b][c]| ==>
      r[b][c][k] == NoTag || r[b][c][k] < maxNumDetections
  {
    seq(|tags|, b requires 0 <= b < |tags| =>
      seq(|tags[b]|, c requires 0 <= c < |tags[b]| =>
        seq(|tags[b][c]|, k requires 0 <= k < |tags[b][c]| => RewriteTag(tags[b][c][k], maxNumDetections))))
  }

  /** Rewriting the tags a second time changes nothing. */
  lemma PreprocessTagsIdempotent(tags: seq<seq<seq<int>>>, maxNumDetections: int)
    ensures PreprocessTags(PreprocessTags(tags, maxNumDetections), maxNumDetections) == PreprocessTags(tags, maxNumDetections)
  {
    var once := PreprocessTags(tags, maxNumDetections);
    var twice := PreprocessTags(once, maxNumDetections);
    forall b | 0 <= b < |tags| ensures twice[b] == once[b] {
      forall c | 0 <= c < |tags[b]| ensures twice[b][c] == once[b][c] {
        assert |twice[b][c]| == |once[b][c]|;
      }
    }
  }

  /**
   * After the rewrite, ids that were at least the sentinel lie in
   * `[-1, cap)`: the range the grounding lookup accepts.
   */
  lemma PreprocessedTagsInRange(tags: seq<seq<seq<int>>>, maxNumDetections: int)
    requires maxNumDetections >= 0
    requires forall b, c, k :: 0 <= b < |tags| && 0 <= c < |tags[b]| && 0 <= k < |tags[b][c]| ==> tags[b][c][k] >= NoTag
    ensures var r := PreprocessTags(tags, maxNumDetections);
      forall b, c, k :: 0 <= b < |r| && 0 <= c < |r[b]| && 0 <= k < |r[b][c]| ==>
        NoTag <= r[b][c][k] < maxNumDetections
  {
  }
}
