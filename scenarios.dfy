/** Concrete batches for the cap, the tag rewrite and the zero row. */
module Scenarios {
  import opened Tensors
  import opened Detections
  import opened Grounding

  /** Three detections under the default cap of ten: the cap is three and nothing is cut. */
  lemma FewDetectionsKeepAll(boxes: seq<int>, features: seq<int>)
    requires |boxes| == 3 && |features| == 3
    ensures var r := RemoveDetections(DetectionBatch([3], [boxes], [[7, 8, 9]], [boxes], [features]), DefaultMaxNumDetections);
      r.maxNumDetections == 3 && r.detections.numDetections == [3] &&
      r.detections.boxes == [boxes] && r.detections.classes == [[7, 8, 9]] && r.detections.scores == [boxes] &&
      r.detections.features == [features]
  {
    var r := RemoveDetections(DetectionBatch([3], [boxes], [[7, 8, 9]], [boxes], [features]), DefaultMaxNumDetections);
    assert r.detections.classes[0] == [7, 8, 9];
    assert r.detections.boxes[0] == boxes;
    assert r.detections.scores[0] == boxes;
    assert r.detections.features[0] == features;
  }

  /** Fifteen detections under a cap of ten: the count becomes ten and every array keeps its first ten entries. */
  lemma ManyDetectionsAreCapped(row: seq<int>)
    requires |row| == 15
    ensures var r := RemoveDetections(DetectionBatch([15], [row], [row], [row], [row]), DefaultMaxNumDetections);
      r.maxNumDetections == 10 && r.detections.numDetections == [10] && r.detections.classes == [row[..10]] &&
      r.detections.boxes == [row[..10]] && r.detections.scores == [row[..10]] && r.detections.features == [row[..10]]
  {
    var r := RemoveDetections(DetectionBatch([15], [row], [row], [row], [row]), DefaultMaxNumDetections);
    assert r.detections.numDetections[0] == 10;
    assert r.detections.classes[0] == row[..10];
    assert r.detections.boxes[0] == row[..10];
    assert r.detections.scores[0] == row[..10];
    assert r.detections.features[0] == row[..10];
  }

  /** Tags `[2, 15, -1]` with a cap of ten resolve to `[2, -1, -1]`. */
  lemma TagsResolve()
    ensures PreprocessTags([[[2, 15, -1]]], 10) == [[[2, -1, -1]]]
  {
    var r := PreprocessTags([[[2, 15, -1]]], 10);
    assert r[0][0] == [2, -1, -1];
    assert r[0] == [[2, -1, -1]];
  }

  /** The sentinel tag against a two-detection table of width four grounds to four zeros. */
  lemma SentinelGroundsToZeros<E>(g: seq<seq<seq<seq<E>>>>, features: seq<seq<seq<E>>>, zero: E)
    requires IsTensor3(features, 1, 2, 4)
    requires IsGrounding(g, features, [[[NoTag]]], 2, 4, zero, 1, 1)
    ensures g[0][0][0] == [zero, zero, zero, zero]
  {
    assert [[[NoTag]]][0][0][0] == NoTag;
    assert g[0][0][0] == Zeros(4, zero);
  }
}
