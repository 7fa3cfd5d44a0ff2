/**
 * The detection-accuracy metric of `VBertFt.build_metrics`: from a
 * `[batch, M]` tensor of detection labels, keep the positions `j >= 1`
 * (position 0 holds the whole image) below the example's detection count,
 * row after row, and count where true and predicted labels agree.
 */
module DetectionMetrics {
  import opened Tensors

  /** The entries of `row` whose mask bit is set, in order. */
  function Filter<T>(row: seq<T>, mask: seq<bool>): (r: seq<T>)
    requires |row| == |mask|
    ensures |r| <= |row|
    ensures (forall j :: 0 <= j < |mask| ==> mask[j]) ==> r == row
    ensures (forall j :: 0 <= j < |mask| ==> !mask[j]) ==> r == []
  {
    if |row| == 0 then []
    else (if mask[0] then [row[0]] else []) + Filter(row[1..], mask[1..])
  }

  /** `tf.boolean_mask(x, mask)` from row `b0` on: the kept entries of each row, row after row. */
  function BooleanMask<T>(x: seq<seq<T>>, mask: seq<seq<bool>>, b0: nat): (r: seq<T>)
    requires |x| == |mask|
    requires forall b :: 0 <= b < |x| ==> |x[b]| == |mask[b]|
    decreases |x| - b0
    ensures (forall b, j :: b0 <= b < |x| && 0 <= j < |x[b]| ==> !mask[b][j]) ==> r == []
  {
    if b0 >= |x| then [] else Filter(x[b0], mask[b0]) + BooleanMask(x, mask, b0 + 1)
  }

  /** `x[:, 1:]`. */
  function DropFirstColumn<T>(x: seq<seq<T>>): (r: seq<seq<T>>)
    ensures |r| == |x|
    ensures forall b :: 0 <= b < |x| ==> r[b] == (if |x[b]| == 0 then [] else x[b][1..])
  {
    seq(|x|, b requires 0 <= b < |x| => if |x[b]| == 0 then [] else x[b][1..])
  }

  /** `tf.sequence_mask(num_detections, maxlen=m)`. */
  function DetectionMasks(numDetections: seq<int>, m: nat): (r: seq<seq<bool>>)
    ensures IsMatrix(r, |numDetections|, m)
    ensures forall b :: 0 <= b < |numDetections| ==> r[b] == SequenceMask(numDetections[b], m)
  {
    seq(|numDetections|, b requires 0 <= b < |numDetections| => SequenceMask(numDetections[b], m))
  }


  /** Row-major order on positions `(b, j)`. */
  predicate Before(p: (nat, nat), q: (nat, nat)) {
    p.0 < q.0 || (p.0 == q.0 && p.1 < q.1)
  }

  /** The selected positions of example `b`: `1 <= j < min(numDetections[b], m)`. */
  function RowPositions(b: nat, n: int, m: nat): (ps: seq<(nat, nat)>)
    ensures |ps| == Max(0, Min(n, m) - 1)
    ensures forall i :: 0 <= i < |ps| ==> ps[i] == (b, i + 1)
  {
    seq(Max(0, Min(n, m) - 1), i => (b, i + 1))
  }

  /**
   * The reference definition of the selection: every position `(b, j)` with
   * `b >= b0` and `1 <= j < min(numDetections[b], m)`, in row-major order.
   */
  function Positions(numDetections: seq<int>, m: nat, b0: nat): (ps: seq<(nat, nat)>)
    decreases |numDetections| - b0
    ensures forall i :: 0 <= i < |ps| ==>
      b0 <= ps[i].0 < |numDetections| && 1 <= ps[i].1 && ps[i].1 < Min(numDetections[ps[i].0], m)
    ensures forall i, i' :: 0 <= i < i' < |ps| ==> Before(ps[i], ps[i'])
  {
    if b0 >= |numDetections| then []
    else RowPositions(b0, numDetections[b0], m) + Positions(numDetections, m, b0 + 1)
  }

  /** Every position of `ps` lies inside `x`. */
  predicate Inside(x: seq<seq<int>>, ps: seq<(nat, nat)>) {
    forall i :: 0 <= i < |ps| ==> ps[i].0 < |x| && ps[i].1 < |x[ps[i].0]|
  }

  /** The reference positions lie inside a `[batch, m]` tensor. */
  lemma PositionsInside(x: seq<seq<int>>, numDetections: seq<int>, m: nat, b0: nat)
    requires IsMatrix(x, |numDetections|, m)
    ensures Inside(x, Positions(numDetections, m, b0))
  {
    var ps := Positions(numDetections, m, b0);
    forall i | 0 <= i < |ps| ensures ps[i].0 < |x| && ps[i].1 < |x[ps[i].0]| {
      assert |x[ps[i].0]| == m;
    }
  }

  /** The entries of `x` at the positions `ps`. */
  function Gather(x: seq<seq<int>>, ps: seq<(nat, nat)>): (r: seq<int>)
    requires Inside(x, ps)
    ensures |r| == |ps|
    ensures forall i :: 0 <= i < |ps| ==> r[i] == x[ps[i].0][ps[i].1]
  {
    seq(|ps|, i requires 0 <= i < |ps| => x[ps[i].0][ps[i].1])
  }

  /** Filtering with a prefix mask keeps a prefix. */
  lemma {:induction false} FilterPrefixMask<T>(row: seq<T>, mask: seq<bool>, n: int)
    requires |row| == |mask|
    requires forall j :: 0 <= j < |mask| ==> (mask[j] <==> j < n)
    ensures Filter(row, mask) == row[..Max(0, Min(n, |row|))]
  {
    if |row| > 0 {
      FilterPrefixMask(row[1..], mask[1..], n - 1);
      if n <= 0 {
        assert !mask[0];
      } else {
        assert mask[0];
        assert row[..Max(0, Min(n, |row|))] == [row[0]] + row[1..][..Max(0, Min(n - 1, |row| - 1))];
      }
    }
  }

  /** Row `b` of the masked tail is the labels at the row's reference positions. */
  lemma RowSelection(x: seq<seq<int>>, numDetections: seq<int>, m: nat, b: nat)
    requires IsMatrix(x, |numDetections|, m)
    requires b < |numDetections|
    ensures Inside(x, RowPositions(b, numDetections[b], m))
    ensures var masks := DetectionMasks(numDetections, m);
      Filter(DropFirstColumn(x)[b], DropFirstColumn(masks)[b]) == Gather(x, RowPositions(b, numDetections[b], m))
  {
    assert |x[b]| == m;
    var masks := DetectionMasks(numDetections, m);
    var row, mask := DropFirstColumn(x)[b], DropFirstColumn(masks)[b];
    if m > 0 {
      FilterPrefixMask(row, mask, numDetections[b] - 1);
    }
  }

  /**
   * The source's selection is the gather at the reference positions: the two
   * descriptions pick the same labels in the same order.
   */
  lemma {:induction false} SelectionIsGatherAt(x: seq<seq<int>>, numDetections: seq<int>, m: nat, b0: nat)
    requires IsMatrix(x, |numDetections|, m)
    decreases |numDetections| - b0
    ensures Inside(x, Positions(numDetections, m, b0))
    ensures var masks := DetectionMasks(numDetections, m);
      BooleanMask(DropFirstColumn(x), DropFirstColumn(masks), b0) == Gather(x, Positions(numDetections, m, b0))
  {
    PositionsInside(x, numDetections, m, b0);
    if b0 < |numDetections| {
      RowSelection(x, numDetections, m, b0);
      SelectionIsGatherAt(x, numDetections, m, b0 + 1);
      GatherConcat(x, RowPositions(b0, numDetections[b0], m), Positions(numDetections, m, b0 + 1));
    }
  }

  /** Gathering at two position lists one after the other is gathering at their concatenation. */
  lemma GatherConcat(x: seq<seq<int>>, ps: seq<(nat, nat)>, qs: seq<(nat, nat)>)
    requires Inside(x, ps) && Inside(x, qs)
    ensures Inside(x, ps + qs)
    ensures Gather(x, ps + qs) == Gather(x, ps) + Gather(x, qs)
  {
    assert forall i :: 0 <= i < |ps + qs| ==> (ps + qs)[i] == if i < |ps| then ps[i] else qs[i - |ps|];
  }

  /**
   * The labels the metric compares, selected as the source selects them:
   * they are the labels at the reference positions, in row-major order.
   */
  function SelectDetections(x: seq<seq<int>>, numDetections: seq<int>, m: nat): (r: seq<int>)
    requires IsMatrix(x, |numDetections|, m)
    ensures Inside(x, Positions(numDetections, m, 0))
    ensures r == Gather(x, Positions(numDetections, m, 0))
  {
    var masks := DetectionMasks(numDetections, m);
    SelectionIsGatherAt(x, numDetections, m, 0);
    BooleanMask(DropFirstColumn(x), DropFirstColumn(masks), 0)
  }

  /** Every position the metric is meant to count is among the reference positions. */
  lemma {:induction false} PositionsComplete(numDetections: seq<int>, m: nat, b0: nat, b: nat, j: nat)
    requires b0 <= b < |numDetections| && 1 <= j < Min(numDetections[b], m)
    decreases |numDetections| - b0
    ensures (b, j) in Positions(numDetections, m, b0)
  {
    var row := RowPositions(b0, numDetections[b0], m);
    if b == b0 {
      assert row[j - 1] == (b, j);
    } else {
      PositionsComplete(numDetections, m, b0 + 1, b, j);
    }
  }

  /** How many of the paired entries agree: index `i` counts when `a[i] == b[i]`. */
  function Agreements(a: seq<int>, b: seq<int>): (n: nat)
    requires |a| == |b|
    ensures n <= |a|
    ensures n == |a| <==> a == b
  {
    if |a| == 0 then 0
    else (if a[0] == b[0] then 1 else 0) + Agreements(a[1..], b[1..])
  }

  /** Counting agreements splits over concatenation. */
  lemma {:induction false} AgreementsConcat(a: seq<int>, b: seq<int>, a': seq<int>, b': seq<int>)
    requires |a| == |b| && |a'| == |b'|
    ensures Agreements(a + a', b + b') == Agreements(a, b) + Agreements(a', b')
  {
    if |a| > 0 {
      assert (a + a')[1..] == a[1..] + a' && (b + b')[1..] == b[1..] + b';
      AgreementsConcat(a[1..], b[1..], a', b');
    } else {
      assert a + a' == a' && b + b' == b';
    }
  }

  /** One pair counts one exactly when it agrees. */
  lemma AgreementsSingleton(x: int, y: int)
    ensures Agreements([x], [y]) == if x == y then 1 else 0
  {
  }

  /** The positions of `ps`, in order, at which `x` and `y` hold the same label. */
  function AgreeingPositions(x: seq<seq<int>>, y: seq<seq<int>>, ps: seq<(nat, nat)>): (qs: seq<(nat, nat)>)
    requires Inside(x, ps) && Inside(y, ps)
    ensures |qs| <= |ps|
    ensures forall q :: q in qs <==> q in ps && x[q.0][q.1] == y[q.0][q.1]
    ensures (forall i, i' :: 0 <= i < i' < |ps| ==> Before(ps[i], ps[i'])) ==>
      forall i, i' :: 0 <= i < i' < |qs| ==> Before(qs[i], qs[i'])
  {
    if |ps| == 0 then []
    else
      assert Inside(x, ps[1..]) && Inside(y, ps[1..]);
      (if x[ps[0].0][ps[0].1] == y[ps[0].0][ps[0].1] then [ps[0]] else []) + AgreeingPositions(x, y, ps[1..])
  }

  /** The agreements of two gathers at `ps` are the agreeing positions of `ps`. */
  lemma {:induction false} AgreementsOfGather(x: seq<seq<int>>, y: seq<seq<int>>, ps: seq<(nat, nat)>)
    requires Inside(x, ps) && Inside(y, ps)
    ensures Agreements(Gather(x, ps), Gather(y, ps)) == |AgreeingPositions(x, y, ps)|
  {
    if |ps| > 0 {
      assert Inside(x, ps[1..]) && Inside(y, ps[1..]);
      assert Gather(x, ps)[1..] == Gather(x, ps[1..]);
      assert Gather(y, ps)[1..] == Gather(y, ps[1..]);
      AgreementsOfGather(x, y, ps[1..]);
    }
  }

  /** The integer part of the detection accuracy: agreements among the compared pairs. */
  datatype AccuracyCounts = AccuracyCounts(agreements: nat, total: nat)

  /** The labels at the selected positions agree everywhere exactly when the two selections are equal. */
  lemma SelectionsEqualIff(classes: seq<seq<int>>, predictions: seq<seq<int>>, numDetections: seq<int>, m: nat)
    requires IsMatrix(classes, |numDetections|, m) && IsMatrix(predictions, |numDetections|, m)
    ensures |SelectDetections(classes, numDetections, m)| == |SelectDetections(predictions, numDetections, m)| == |Positions(numDetections, m, 0)|
    ensures SelectDetections(classes, numDetections, m) == SelectDetections(predictions, numDetections, m) <==>
      forall b, j :: 0 <= b < |numDetections| && 1 <= j < Min(numDetections[b], m) ==> classes[b][j] == predictions[b][j]
  {
    var truth := SelectDetections(classes, numDetections, m);
    var guess := SelectDetections(predictions, numDetections, m);
    SelectionIsGatherAt(classes, numDetections, m, 0);
    SelectionIsGatherAt(predictions, numDetections, m, 0);
    var ps := Positions(numDetections, m, 0);
    assert truth == Gather(classes, ps) && guess == Gather(predictions, ps);
    if truth == guess {
      forall b, j | 0 <= b < |numDetections| && 1 <= j < Min(numDetections[b], m)
        ensures classes[b][j] == predictions[b][j]
      {
        PositionsComplete(numDetections, m, 0, b, j);
        var i :| 0 <= i < |ps| && ps[i] == (b, j);
        assert truth[i] == guess[i];
      }
    }
  }

  /**
   * The pairs `Accuracy.update_state` receives from the metric: how many label
   * pairs are compared and how many of them agree.
   */
  function DetectionAccuracyCounts(classes: seq<seq<int>>, predictions: seq<seq<int>>, numDetections: seq<int>, m: nat): (r: AccuracyCounts)
    requires IsMatrix(classes, |numDetections|, m) && IsMatrix(predictions, |numDetections|, m)
    ensures r.total == |Positions(numDetections, m, 0)|
    ensures r.agreements <= r.total
    ensures r.agreements == r.total <==>
      forall b, j :: 0 <= b < |numDetections| && 1 <= j < Min(numDetections[b], m) ==> classes[b][j] == predictions[b][j]
    ensures Inside(classes, Positions(numDetections, m, 0)) && Inside(predictions, Positions(numDetections, m, 0))
    ensures r.agreements == |AgreeingPositions(classes, predictions, Positions(numDetections, m, 0))|
  {
    SelectionsEqualIff(classes, predictions, numDetections, m);
    PositionsInside(classes, numDetections, m, 0);
    PositionsInside(predictions, numDetections, m, 0);
    AgreementsOfGather(classes, predictions, Positions(numDetections, m, 0));
    var truth := SelectDetections(classes, numDetections, m);
    var guess := SelectDetections(predictions, numDetections, m);
    AccuracyCounts(Agreements(truth, guess), |truth|)
  }

  /** Position 0, the whole-image slot, is never compared. */
  lemma WholeImageNeverCounted(numDetections: seq<int>, m: nat, b: nat)
    ensures (b, 0) !in Positions(numDetections, m, 0)
  {
  }
}
