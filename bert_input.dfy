/**
 * `create_bert_input_tensors`: the mixed visual and textual input of the
 * encoder, laid out as
 *   [CLS] det_1 .. det_M [SEP] tok_1 .. tok_L [SEP]
 * in four parallel tensors: token ids, the validity mask, the mask of
 * positions whose word embedding is overridden, and the overriding features.
 */
module BertInput {
  import opened Tensors
  import opened Detections
  import opened Grounding

  const ClsId: int := 101
  const SepId: int := 102

  /** `1 + M + 1 + L + 1`: the length of every assembled sequence. */
  function SequenceLength(m: nat, l: nat): nat { 1 + m + 1 + l + 1 }

  /** The position of detection slot `j`. */
  function DetectionSlot(j: nat): nat { 1 + j }

  /** The position of the separator between detections and caption. */
  function SeparatorSlot(m: nat): nat { m + 1 }

  /** The position of caption token `k`. */
  function CaptionSlot(m: nat, k: nat): nat { m + 2 + k }

  /** The position of the final separator. */
  function LastSlot(m: nat, l: nat): nat { m + l + 2 }

  /** The three structural positions: the start marker and the two separators. */
  predicate IsMarker(p: nat, m: nat, l: nat) {
    p == 0 || p == SeparatorSlot(m) || p == LastSlot(m, l)
  }

  /** One row of the layout, for any of the four tensors. */
  function Layout<T>(start: T, dets: seq<T>, sep: T, caption: seq<T>, end: T): (r: seq<T>)
    ensures |r| == SequenceLength(|dets|, |caption|)
    ensures r[0] == start && r[SeparatorSlot(|dets|)] == sep && r[LastSlot(|dets|, |caption|)] == end
    ensures forall j :: 0 <= j < |dets| ==> r[DetectionSlot(j)] == dets[j]
    ensures forall k :: 0 <= k < |caption| ==> r[CaptionSlot(|dets|, k)] == caption[k]
    ensures forall p :: 0 <= p < |r| ==>
      IsMarker(p, |dets|, |caption|) || (1 <= p <= |dets|) || (|dets| + 2 <= p < |dets| + 2 + |caption|)
  {
    [start] + dets + [sep] + caption + [end]
  }

  /** `tf.greater(caption_tag_ids, -1)` for one example. */
  function TaggedMask(tagIds: seq<int>): (r: seq<bool>)
    ensures |r| == |tagIds|
    ensures forall k :: 0 <= k < |tagIds| ==> (r[k] <==> tagIds[k] > NoTag)
  {
    seq(|tagIds|, k requires 0 <= k < |tagIds| => tagIds[k] > NoTag)
  }

  datatype BertInputs<E> = BertInputs(
    inputIds: seq<seq<int>>,
    inputMasks: seq<seq<bool>>,
    inputTagMasks: seq<seq<bool>>,
    inputTagFeatures: seq<seq<seq<E>>>)

  /** The shapes of the arguments, with `m` detection slots, `l` caption positions and features of width `dims`. */
  ghost predicate WellShaped<E>(numDetections: seq<int>, detectionClasses: seq<seq<int>>, detectionFeatures: seq<seq<seq<E>>>,
                                captionIds: seq<seq<int>>, captionTagIds: seq<seq<int>>, captionTagFeatures: seq<seq<seq<E>>>,
                                captionLen: seq<int>, m: nat, l: nat, dims: nat)
  {
    var batch := |numDetections|;
    IsMatrix(detectionClasses, batch, m) && IsTensor3(detectionFeatures, batch, m, dims) &&
    IsMatrix(captionIds, batch, l) && IsMatrix(captionTagIds, batch, l) &&
    IsTensor3(captionTagFeatures, batch, l, dims) && |captionLen| == batch
  }

  /** `input_ids`: the start marker, the detection class ids, a separator, the caption ids, a separator. */
  function InputIds(detectionClasses: seq<seq<int>>, captionIds: seq<seq<int>>, m: nat, l: nat): (ids: seq<seq<int>>)
    requires |captionIds| == |detectionClasses|
    requires IsMatrix(detectionClasses, |detectionClasses|, m) && IsMatrix(captionIds, |captionIds|, l)
    ensures IsMatrix(ids, |detectionClasses|, SequenceLength(m, l))
    ensures forall b :: 0 <= b < |ids| ==>
      ids[b][0] == ClsId && ids[b][SeparatorSlot(m)] == SepId && ids[b][LastSlot(m, l)] == SepId
    ensures forall b, j :: 0 <= b < |ids| && 0 <= j < m ==> ids[b][DetectionSlot(j)] == detectionClasses[b][j]
    ensures forall b, k :: 0 <= b < |ids| && 0 <= k < l ==> ids[b][CaptionSlot(m, k)] == captionIds[b][k]
  {
    seq(|detectionClasses|, b requires 0 <= b < |detectionClasses| =>
      assert |detectionClasses[b]| == m && |captionIds[b]| == l;
      Layout(ClsId, detectionClasses[b], SepId, captionIds[b], SepId))
  }

  /** `input_masks`: True at the markers, below the detection count and below the caption length. */
  function InputMasks(numDetections: seq<int>, captionLen: seq<int>, m: nat, l: nat): (masks: seq<seq<bool>>)
    requires |captionLen| == |numDetections|
    ensures IsMatrix(masks, |numDetections|, SequenceLength(m, l))
    ensures forall b, p :: 0 <= b < |masks| && 0 <= p < SequenceLength(m, l) && IsMarker(p, m, l) ==> masks[b][p]
    ensures forall b, j :: 0 <= b < |masks| && 0 <= j < m ==> (masks[b][DetectionSlot(j)] <==> j < numDetections[b])
    ensures forall b, k :: 0 <= b < |masks| && 0 <= k < l ==> (masks[b][CaptionSlot(m, k)] <==> k < captionLen[b])
  {
    seq(|numDetections|, b requires 0 <= b < |numDetections| =>
      Layout(true, SequenceMask(numDetections[b], m), true, SequenceMask(captionLen[b], l), true))
  }

  /** `input_tag_masks`: False at the markers, True below the detection count and at tagged caption tokens. */
  function InputTagMasks(numDetections: seq<int>, captionTagIds: seq<seq<int>>, m: nat, l: nat): (masks: seq<seq<bool>>)
    requires IsMatrix(captionTagIds, |numDetections|, l)
    ensures IsMatrix(masks, |numDetections|, SequenceLength(m, l))
    ensures forall b, p :: 0 <= b < |masks| && 0 <= p < SequenceLength(m, l) && IsMarker(p, m, l) ==> !masks[b][p]
    ensures forall b, j :: 0 <= b < |masks| && 0 <= j < m ==> (masks[b][DetectionSlot(j)] <==> j < numDetections[b])
    ensures forall b, k :: 0 <= b < |masks| && 0 <= k < l ==> (masks[b][CaptionSlot(m, k)] <==> captionTagIds[b][k] > NoTag)
  {
    seq(|numDetections|, b requires 0 <= b < |numDetections| =>
      assert |captionTagIds[b]| == l;
      Layout(false, SequenceMask(numDetections[b], m), false, TaggedMask(captionTagIds[b]), false))
  }

  /** `input_tag_features`: zero at the markers, the detection features, then the caption's grounded features. */
  function InputTagFeatures<E>(detectionFeatures: seq<seq<seq<E>>>, captionTagFeatures: seq<seq<seq<E>>>,
                               m: nat, l: nat, dims: nat, zero: E): (features: seq<seq<seq<E>>>)
    requires IsTensor3(detectionFeatures, |detectionFeatures|, m, dims)
    requires IsTensor3(captionTagFeatures, |detectionFeatures|, l, dims)
    ensures IsTensor3(features, |detectionFeatures|, SequenceLength(m, l), dims)
    ensures forall b, p :: 0 <= b < |features| && 0 <= p < SequenceLength(m, l) && IsMarker(p, m, l) ==> features[b][p] == Zeros(dims, zero)
    ensures forall b, j :: 0 <= b < |features| && 0 <= j < m ==> features[b][DetectionSlot(j)] == detectionFeatures[b][j]
    ensures forall b, k :: 0 <= b < |features| && 0 <= k < l ==> features[b][CaptionSlot(m, k)] == captionTagFeatures[b][k]
  {
    var batch := |detectionFeatures|;
    var z := Zeros(dims, zero);
    var features := seq(batch, b requires 0 <= b < batch => Layout(z, detectionFeatures[b], z, captionTagFeatures[b], z));
    assert IsTensor3(features, batch, SequenceLength(m, l), dims) by {
      forall b | 0 <= b < batch ensures IsMatrix(features[b], SequenceLength(m, l), dims) {
        assert IsMatrix(detectionFeatures[b], m, dims) && IsMatrix(captionTagFeatures[b], l, dims);
        forall p | 0 <= p < SequenceLength(m, l) ensures |features[b][p]| == dims {
          if 1 <= p <= m {
            assert features[b][DetectionSlot(p - 1)] == detectionFeatures[b][p - 1];
          } else if m + 2 <= p < m + 2 + l {
            assert features[b][CaptionSlot(m, p - m - 2)] == captionTagFeatures[b][p - m - 2];
          }
        }
      }
    }
    features
  }

  /** `create_bert_input_tensors`: the four tensors of the layout, each described by its own function. */
  function CreateBertInputTensors<E>(numDetections: seq<int>, detectionClasses: seq<seq<int>>, detectionFeatures: seq<seq<seq<E>>>,
                                     captionIds: seq<seq<int>>, captionTagIds: seq<seq<int>>, captionTagFeatures: seq<seq<seq<E>>>,
                                     captionLen: seq<int>, m: nat, l: nat, dims: nat, zero: E): (r: BertInputs<E>)
    requires WellShaped(numDetections, detectionClasses, detectionFeatures, captionIds, captionTagIds, captionTagFeatures, captionLen, m, l, dims)
    ensures IsMatrix(r.inputIds, |numDetections|, SequenceLength(m, l))
    ensures IsMatrix(r.inputMasks, |numDetections|, SequenceLength(m, l))
    ensures IsMatrix(r.inputTagMasks, |numDetections|, SequenceLength(m, l))
    ensures IsTensor3(r.inputTagFeatures, |numDetections|, SequenceLength(m, l), dims)
  {
    BertInputs(
      InputIds(detectionClasses, captionIds, m, l),
      InputMasks(numDetections, captionLen, m, l),
      InputTagMasks(numDetections, captionTagIds, m, l),
      InputTagFeatures(detectionFeatures, captionTagFeatures, m, l, dims, zero))
  }

  /**
   * The override mask never marks a position the validity mask leaves out,
   * provided caption positions past the caption length carry the sentinel
   * tag (as padding does); detection slots need no such proviso.
   */
  lemma OverrideImpliesValid<E>(numDetections: seq<int>, detectionClasses: seq<seq<int>>, detectionFeatures: seq<seq<seq<E>>>,
                                captionIds: seq<seq<int>>, captionTagIds: seq<seq<int>>, captionTagFeatures: seq<seq<seq<E>>>,
                                captionLen: seq<int>, m: nat, l: nat, dims: nat, zero: E)
    requires WellShaped(numDetections, detectionClasses, detectionFeatures, captionIds, captionTagIds, captionTagFeatures, captionLen, m, l, dims)
    requires forall b, k :: 0 <= b < |numDetections| && 0 <= k < l && k >= captionLen[b] ==> captionTagIds[b][k] <= NoTag
    ensures var r := CreateBertInputTensors(numDetections, detectionClasses, detectionFeatures, captionIds, captionTagIds,
                                            captionTagFeatures, captionLen, m, l, dims, zero);
      forall b, p :: 0 <= b < |numDetections| && 0 <= p < SequenceLength(m, l) && r.inputTagMasks[b][p] ==> r.inputMasks[b][p]
  {
    var r := CreateBertInputTensors(numDetections, detectionClasses, detectionFeatures, captionIds, captionTagIds,
                                    captionTagFeatures, captionLen, m, l, dims, zero);
    forall b, p | 0 <= b < |numDetections| && 0 <= p < SequenceLength(m, l) && r.inputTagMasks[b][p]
      ensures r.inputMasks[b][p]
    {
      if 1 <= p <= m {
        assert p == DetectionSlot(p - 1);
      } else if m + 2 <= p < m + 2 + l {
        assert p == CaptionSlot(m, p - m - 2);
      }
    }
  }

  /**
   * The shapes of the choice tensors of one batch: `numChoices` captions per
   * example over the same `m` detection slots.
   */
  ghost predicate ChoicesWellShaped<E>(numDetections: seq<int>, detectionClasses: seq<seq<int>>, detectionFeatures: seq<seq<seq<E>>>,
                                       choiceIds: seq<seq<seq<int>>>, choiceTagIds: seq<seq<seq<int>>>,
                                       choiceTagFeatures: seq<seq<seq<seq<E>>>>, choiceLengths: seq<seq<int>>,
                                       m: nat, l: nat, dims: nat, numChoices: nat)
  {
    var batch := |numDetections|;
    IsMatrix(detectionClasses, batch, m) && IsTensor3(detectionFeatures, batch, m, dims) &&
    IsTensor3(choiceIds, batch, numChoices, l) && IsTensor3(choiceTagIds, batch, numChoices, l) &&
    IsTensor4(choiceTagFeatures, batch, numChoices, l, dims) && IsMatrix(choiceLengths, batch, numChoices)
  }

  /** Slice `c` along the choice axis is a well-shaped caption for the assembler. */
  lemma ChoiceSliceWellShaped<E>(numDetections: seq<int>, detectionClasses: seq<seq<int>>, detectionFeatures: seq<seq<seq<E>>>,
                                 choiceIds: seq<seq<seq<int>>>, choiceTagIds: seq<seq<seq<int>>>,
                                 choiceTagFeatures: seq<seq<seq<seq<E>>>>, choiceLengths: seq<seq<int>>,
                                 m: nat, l: nat, dims: nat, numChoices: nat, c: nat)
    requires ChoicesWellShaped(numDetections, detectionClasses, detectionFeatures, choiceIds, choiceTagIds, choiceTagFeatures, choiceLengths, m, l, dims, numChoices)
    requires c < numChoices
    ensures WellShaped(numDetections, detectionClasses, detectionFeatures, Unstack(choiceIds, c), Unstack(choiceTagIds, c),
                       Unstack(choiceTagFeatures, c), Unstack(choiceLengths, c), m, l, dims)
  {
    assert forall b :: 0 <= b < |numDetections| ==> IsMatrix(choiceIds[b], numChoices, l);
    assert forall b :: 0 <= b < |numDetections| ==> IsMatrix(choiceTagIds[b], numChoices, l);
    assert forall b :: 0 <= b < |numDetections| ==> IsTensor3(choiceTagFeatures[b], numChoices, l, dims);
  }

  /**
   * The input the encoder receives for choice `c`: the shared detections with
   * slice `c` of every choice tensor.
   */
  function ChoiceInput<E>(numDetections: seq<int>, detectionClasses: seq<seq<int>>, detectionFeatures: seq<seq<seq<E>>>,
                          choiceIds: seq<seq<seq<int>>>, choiceTagIds: seq<seq<seq<int>>>,
                          choiceTagFeatures: seq<seq<seq<seq<E>>>>, choiceLengths: seq<seq<int>>,
                          m: nat, l: nat, dims: nat, zero: E, numChoices: nat, c: nat): (r: BertInputs<E>)
    requires ChoicesWellShaped(numDetections, detectionClasses, detectionFeatures, choiceIds, choiceTagIds, choiceTagFeatures, choiceLengths, m, l, dims, numChoices)
    requires c < numChoices
    ensures IsMatrix(r.inputIds, |numDetections|, SequenceLength(m, l))
    ensures IsMatrix(r.inputMasks, |numDetections|, SequenceLength(m, l))
    ensures IsMatrix(r.inputTagMasks, |numDetections|, SequenceLength(m, l))
    ensures IsTensor3(r.inputTagFeatures, |numDetections|, SequenceLength(m, l), dims)
  {
    ChoiceSliceWellShaped(numDetections, detectionClasses, detectionFeatures, choiceIds, choiceTagIds, choiceTagFeatures, choiceLengths, m, l, dims, numChoices, c);
    CreateBertInputTensors(numDetections, detectionClasses, detectionFeatures, Unstack(choiceIds, c), Unstack(choiceTagIds, c),
                           Unstack(choiceTagFeatures, c), Unstack(choiceLengths, c), m, l, dims, zero)
  }

  /**
   * Caption position `k` of example `b` is overridden exactly when its tag
   * names a detection, and then by that detection's features; an untagged
   * caption position carries the zero vector.
   */
  ghost predicate OverridesByTag<E>(r: BertInputs<E>, detectionFeatures: seq<seq<seq<E>>>, tags: seq<seq<int>>,
                                    m: nat, l: nat, dims: nat, zero: E)
    requires IsMatrix(r.inputTagMasks, |tags|, SequenceLength(m, l))
    requires IsTensor3(r.inputTagFeatures, |tags|, SequenceLength(m, l), dims)
    requires IsTensor3(detectionFeatures, |tags|, m, dims) && IsMatrix(tags, |tags|, l)
  {
    forall b, k :: 0 <= b < |tags| && 0 <= k < l ==>
      (r.inputTagMasks[b][CaptionSlot(m, k)] <==> tags[b][k] != NoTag) &&
      (0 <= tags[b][k] < m ==> r.inputTagFeatures[b][CaptionSlot(m, k)] == detectionFeatures[b][tags[b][k]]) &&
      (tags[b][k] == NoTag ==> r.inputTagFeatures[b][CaptionSlot(m, k)] == Zeros(dims, zero))
  }

  /**
   * With caption features from grounding, the encoder input for choice `c`
   * overrides the caption positions by tag.
   */
  lemma GroundedCaptionOverrides<E>(numDetections: seq<int>, detectionClasses: seq<seq<int>>, detectionFeatures: seq<seq<seq<E>>>,
                                    choiceIds: seq<seq<seq<int>>>, choiceTagIds: seq<seq<seq<int>>>,
                                    grounded: seq<seq<seq<seq<E>>>>, choiceLengths: seq<seq<int>>,
                                    m: nat, l: nat, dims: nat, zero: E, numChoices: nat, c: nat)
    requires ChoicesWellShaped(numDetections, detectionClasses, detectionFeatures, choiceIds, choiceTagIds, grounded, choiceLengths, m, l, dims, numChoices)
    requires c < numChoices
    requires forall b, c', k :: 0 <= b < |numDetections| && 0 <= c' < numChoices && 0 <= k < l ==>
      NoTag <= choiceTagIds[b][c'][k] < m
    requires IsGrounding(grounded, detectionFeatures, choiceTagIds, m, dims, zero, numChoices, l)
    ensures OverridesByTag(ChoiceInput(numDetections, detectionClasses, detectionFeatures, choiceIds, choiceTagIds, grounded,
                                 choiceLengths, m, l, dims, zero, numChoices, c),
                     detectionFeatures, Unstack(choiceTagIds, c), m, l, dims, zero)
  {
    ChoiceSliceWellShaped(numDetections, detectionClasses, detectionFeatures, choiceIds, choiceTagIds, grounded, choiceLengths, m, l, dims, numChoices, c);
    var tags, feats := Unstack(choiceTagIds, c), Unstack(grounded, c);
    var tagMasks := InputTagMasks(numDetections, tags, m, l);
    var tagFeatures := InputTagFeatures(detectionFeatures, feats, m, l, dims, zero);
    var r := ChoiceInput(numDetections, detectionClasses, detectionFeatures, choiceIds, choiceTagIds, grounded,
                         choiceLengths, m, l, dims, zero, numChoices, c);
    assert r.inputTagMasks == tagMasks && r.inputTagFeatures == tagFeatures;
    forall b, k | 0 <= b < |numDetections| && 0 <= k < l
      ensures tagMasks[b][CaptionSlot(m, k)] <==> tags[b][k] != NoTag
      ensures 0 <= tags[b][k] < m ==> tagFeatures[b][CaptionSlot(m, k)] == detectionFeatures[b][tags[b][k]]
      ensures tags[b][k] == NoTag ==> tagFeatures[b][CaptionSlot(m, k)] == Zeros(dims, zero)
    {
      var t := choiceTagIds[b][c][k];
      assert tagMasks[b][CaptionSlot(m, k)] <==> t > NoTag by {
        assert IsMatrix(choiceTagIds[b], numChoices, l);
        assert tags[b][k] == t;
      }
      assert tagFeatures[b][CaptionSlot(m, k)] == grounded[b][c][k] by {
        assert feats[b] == grounded[b][c];
      }
      assert NoTag <= t < m;
    }
  }
}
