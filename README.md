# Cross-modal input construction of VBertFt, in Dafny

This project models the index and shape logic in `models/vbert_ft.py`. That logic turns a
batch of object detections and multiple-choice caption tensors into the mixed visual and
textual input of a pretrained transformer encoder. It then runs the encoder once per choice,
with shared parameters. For each step the project states what it computes and proves properties relating it to an independent description or to the other steps.

The pieces modelled:

- **Detection normaliser** (`remove_detections`). It computes the batch detection cap,
  clamps every example's count to it, and cuts every per-detection array to that width.
- **Tag resolver** (`preprocess_tags`). Tag ids at or above the cap become the sentinel `-1`.
- **Grounding** (`ground_detection_features`). One zero row is appended to each example's
  detection table. Then, choice by choice, one row is gathered per caption position.
- **Sequence assembler** (`create_bert_input_tensors`). It builds the layout
  `[CLS] det_1 .. det_M [SEP] tok_1 .. tok_L [SEP]` as four parallel tensors: ids, the
  validity mask, the override mask and the override features.
- **Choice loop** of `predict`. Each choice is encoded over the same detections. The first
  iteration creates the encoder parameters and the later ones reuse them.
- **Layer plan** of `project_detection_features`. This covers only which layers are built and
  the error raised for an unknown adaptation.
- **Detection accuracy** of `build_metrics`. It selects positions `1 <= j < num_detections[b]`
  row by row and counts agreements.
- **Partitioner** (`get_variables_to_train`). It drops every trainable variable whose name
  contains a frozen pattern.

Tensors are nested sequences, with the batch axis outermost. Feature vectors are sequences
over a type parameter `E`, and a `zero: E` argument gives the zero element. These functions
only copy, slice, gather and concatenate features, so nothing here computes with floats.

Modules: `Wrappers` (Option, Result), `Tensors` (slicing, `sequence_mask`, zeros,
unstack and stack along axis 1, shape predicates), `Detections`, `Grounding`, `BertInput`,
`ChoiceLoop`, `Projection`, `DetectionMetrics`, `Freezing` and `Scenarios`. `Scenarios`
holds concrete batches for the cap, the tag rewrite and the zero row.

In three places the code does something other than its names suggest; the model follows the code in the first two and the evident intent in the third:

- At detection slots, the override features are the detection features for all `M` slots.
  They are not zero beyond `num_detections[b]`. Only the masks depend on the count.
- The caption part of the override mask is `tag > -1`, as written. It ignores the caption
  length, so a tag below `-1` also counts as untagged.
- The code does not remap the sentinel before the lookup (see Findings). The model follows
  the evident intent: `-1` selects the appended zero row.

## Model

| member | source | states |
|---|---|---|
| `Detections.ReduceMax` | models/vbert_ft.py:68 | the batch maximum is one of the counts and bounds them all; an empty batch gives the lowest int32 |
| `Tensors.TakePrefix` | models/vbert_ft.py:72-75 | `s[:stop]` is a prefix of `s`, of length `min(stop, len)` for a non-negative stop and `max(0, len + stop)` for a negative one |
| `Tensors.SequenceMask` | models/vbert_ft.py:228-229 | the mask has length `maxlen` and is True exactly below the length |
| `Tensors.Zeros` | models/vbert_ft.py:105 | the zero vector has width `dims` and every entry is the zero element |
| `Tensors.Unstack` | models/vbert_ft.py:110 | slice `c` of `tf.unstack(x, axis=1)` holds `x[b][c]` for every example `b` |
| `Tensors.Stack` | models/vbert_ft.py:114 | for a non-empty list (`tf.stack` raises on an empty one, which `GroundDetectionFeatures` models), `tf.stack(xs, axis=1)` has shape `[batch, len(xs)]` and holds `xs[c][b]` at `[b][c]` |
| `Detections.TakeColumns` | models/vbert_ft.py:72-75 | `x[:, :stop]` keeps the batch and cuts every row with the Python slice |
| `Detections.RemoveDetections` | models/vbert_ft.py:44-77 | the cap is `min(max count, max_num_detections)`; in a non-empty batch it is at most the configured maximum and equals `min(count_i, maximum)` for some example; each output count is at most the cap and its input count, and is one of the two; every row of boxes, classes, scores and features is a prefix of its input row, of width `min(cap, padded width)` |
| `Detections.ReduceMaxOfClamped` | models/vbert_ft.py:68-71 | clamping every count to a cap clamps their maximum the same way |
| `Detections.TakeColumnsTwice` | models/vbert_ft.py:72-75 | cutting rows to a non-negative width twice equals cutting them once |
| `Detections.RemoveDetectionsIdempotent` | models/vbert_ft.py:68-77 | with a non-negative maximum and counts, trimming the trimmed batch again returns the same cap, counts and arrays |
| `Detections.PreprocessTags` | models/vbert_ft.py:80-88 | the shape is kept; every tag at or above the cap becomes `-1`, every tag below it is unchanged (an existing `-1` too); afterwards every tag is `-1` or below the cap |
| `Detections.RewriteTag` | models/vbert_ft.py:87-88 | one rewritten tag is `-1` or below the cap, and is the tag itself exactly when the tag is below the cap or already `-1` |
| `Detections.PreprocessTagsIdempotent` | models/vbert_ft.py:87-88 | rewriting the rewritten tags changes nothing |
| `Detections.PreprocessedTagsInRange` | models/vbert_ft.py:87-88 | for tags no lower than the sentinel and a non-negative cap, every rewritten tag lies in `[-1, cap)`, the range grounding accepts |
| `Grounding.AppendZeroRow` | models/vbert_ft.py:102-105 | each example's table has `M+1` rows of width `dims`: its `M` detections unchanged, then the zero vector at index `M` |
| `Grounding.GatherNdRowAsWritten` | models/vbert_ft.py:111-112 | `gather_nd` accepts a row index exactly when it lies in `[0, rows)`, and then returns that index |
| `Grounding.SentinelMissesZeroRowAsWritten` | models/vbert_ft.py:111-112 | passed unchanged, the sentinel `-1` is refused by the lookup; the corrected lookup sends it to row `M` |
| `Grounding.TableRow` | models/vbert_ft.py:102-112 | a tag selects a row of the extended table: row `M` exactly for `-1` or `M`, row `t` for a detection `t` |
| `Grounding.GatherByTag` | models/vbert_ft.py:108-112 | for one choice, position `k` of example `b` reads the row of example `b`'s own table that its tag selects |
| `Grounding.GroundDetectionFeatures` | models/vbert_ft.py:91-114 | with no choices it fails, as the final `tf.stack` of an empty list does; otherwise the result has shape `[batch, choices, L, dims]`; a tag `t` in `[0, M)` yields `detection_features[b][t]`; the sentinel yields the zero vector |
| `BertInput.Layout` | models/vbert_ft.py:221-249 | a row of the layout has length `1+M+1+L+1`: the start marker at 0, detections at `1..M`, a separator at `M+1`, caption at `M+2..M+L+1`, the end marker last, and no other positions |
| `BertInput.TaggedMask` | models/vbert_ft.py:238 | a caption position is tagged exactly when its tag id exceeds `-1` |
| `BertInput.InputIds` | models/vbert_ft.py:217-222 | each row has length `1+M+1+L+1` and holds `101`, the detection classes, `102`, the caption ids, `102` |
| `BertInput.InputMasks` | models/vbert_ft.py:224-230 | each row has length `1+M+1+L+1`; validity is True at the three markers, at detection slot `j` iff `j < num_detections[b]`, and at caption position `k` iff `k < caption_len[b]` |
| `BertInput.InputTagMasks` | models/vbert_ft.py:232-239 | each row has length `1+M+1+L+1`; the override mask is False at the markers, True at detection slot `j` iff `j < num_detections[b]`, and True at caption position `k` iff its tag exceeds `-1` |
| `BertInput.InputTagFeatures` | models/vbert_ft.py:241-249 | shape `[batch, 1+M+1+L+1, dims]`; the override features are zero at the markers, the detection features at the detection slots and the caption's grounded features at the caption positions |
| `BertInput.CreateBertInputTensors` | models/vbert_ft.py:183-250 | the four outputs share the batch and the sequence length `1+M+1+L+1`, with `dims` features per position in the last one |
| `BertInput.OverrideImpliesValid` | models/vbert_ft.py:224-239 | if the caption padding carries the sentinel, every overridden position is also valid |
| `BertInput.ChoiceSliceWellShaped` | models/vbert_ft.py:364-367 | slice `c` of every choice tensor along axis 1 is a well-shaped caption for the assembler |
| `BertInput.ChoiceInput` | models/vbert_ft.py:371-378 | the input of choice `c` has the assembled shape, built over the shared detections |
| `BertInput.GroundedCaptionOverrides` | models/vbert_ft.py:235-249 | with grounded caption features, a caption position is overridden exactly when its tag is not `-1`, and then carries the features of the detection its tag names; any other caption position carries the zero vector |
| `ChoiceLoop.ScopeVariables` | models/vbert_ft.py:374 | a scope without reuse creates the parameters and fails if they exist; a scope with reuse returns the existing ones and fails if there are none |
| `ChoiceLoop.EncodeChoices` | models/vbert_ft.py:364-384 | no variable-scope error ever occurs; the loop fails exactly when there are no choices; otherwise it returns one pooled output per choice, each computed by the encoder on that choice's input with the parameters the first iteration created, plus the embedding table of the last choice |
| `ChoiceLoop.IdenticalChoicesEncodeAlike` | models/vbert_ft.py:369-380 | choices with identical captions, tags, features and lengths get identical pooled outputs under the shared parameters |
| `Projection.ProjectionLayers` | models/vbert_ft.py:145-181 | an unknown adaptation is refused with the source's message; MLP builds the projection, dropout and adaptation layers; linear builds only the adaptation layer; both end in a linear layer of the encoder's hidden size |
| `DetectionMetrics.Filter` | models/vbert_ft.py:489-492 | a masked row is never longer than the row; an all-True mask keeps the row and an all-False mask keeps nothing |
| `DetectionMetrics.BooleanMask` | models/vbert_ft.py:489-492 | `tf.boolean_mask` of a matrix keeps nothing when no mask bit is set; what it keeps for the metric's masks is stated by `SelectionIsGatherAt` |
| `DetectionMetrics.DropFirstColumn` | models/vbert_ft.py:489-492 | `x[:, 1:]` keeps the batch and drops the first entry of every non-empty row |
| `DetectionMetrics.DetectionMasks` | models/vbert_ft.py:485-487 | the masks have shape `[batch, M]` and row `b` is `sequence_mask(num_detections[b], M)` |
| `DetectionMetrics.Positions` | models/vbert_ft.py:485-492 | the reference positions all have `1 <= j < min(num_detections[b], M)` and are strictly increasing in row-major order |
| `DetectionMetrics.FilterPrefixMask` | models/vbert_ft.py:485-490 | masking a row with a `sequence_mask` keeps its prefix below the count |
| `DetectionMetrics.RowSelection` | models/vbert_ft.py:489-492 | the masked tail of one row is the labels at that row's reference positions |
| `DetectionMetrics.SelectionIsGatherAt` | models/vbert_ft.py:485-492 | `boolean_mask` of the tails selects exactly the labels at the reference positions, in order |
| `DetectionMetrics.SelectDetections` | models/vbert_ft.py:485-492 | the labels the metric compares are the labels at the reference positions, in row-major order |
| `DetectionMetrics.PositionsComplete` | models/vbert_ft.py:485-492 | every position with `1 <= j < min(num_detections[b], M)` is among the reference positions |
| `DetectionMetrics.Agreements` | models/vbert_ft.py:493-494 | the agreement count is at most the number of pairs, and reaches it exactly when the two lists are equal |
| `DetectionMetrics.AgreementsConcat` | models/vbert_ft.py:493-494 | the agreement count of two concatenated lists of pairs is the sum of their counts |
| `DetectionMetrics.AgreementsSingleton` | models/vbert_ft.py:493-494 | one pair counts one exactly when its labels agree, so with `AgreementsConcat` the count is the number of agreeing pairs |
| `DetectionMetrics.AgreeingPositions` | models/vbert_ft.py:485-494 | a position is listed exactly when it is one of the given positions and both label tensors hold the same label there; strictly increasing positions stay strictly increasing, so none is listed twice |
| `DetectionMetrics.AgreementsOfGather` | models/vbert_ft.py:489-494 | the agreements of the labels gathered at some positions are the number of those positions where the labels agree |
| `DetectionMetrics.SelectionsEqualIff` | models/vbert_ft.py:485-492 | true and predicted selections have the same length, the number of reference positions; they are equal iff the labels agree at every selected position |
| `DetectionMetrics.DetectionAccuracyCounts` | models/vbert_ft.py:479-495 | the number of pairs compared is the number of selected positions; the agreements are the number of selected positions at which true and predicted labels agree; they never exceed the total, and equal it iff the labels agree at every position `1 <= j < min(num_detections[b], M)` |
| `DetectionMetrics.WholeImageNeverCounted` | models/vbert_ft.py:438 | position 0, the whole image, is never compared |
| `Freezing.IsSubstringIffOccurs` | models/vbert_ft.py:511 | the substring test holds exactly when the pattern occurs at some offset of the name |
| `Freezing.IsSubstring` | models/vbert_ft.py:511 | `pattern in name` holds for every prefix of the name and never for a pattern longer than the name; `IsSubstringIffOccurs` gives its full meaning |
| `Freezing.EmptyPatternMatchesAll` | models/vbert_ft.py:511 | the empty pattern occurs in every name |
| `Freezing.MatchingVariablesCounts` | models/vbert_ft.py:508-513 | each matching variable is recorded as often as it occurs among the trainable variables, and no other variable is recorded |
| `Freezing.MatchingVariables` | models/vbert_ft.py:507-513 | the reference list of frozen variables is no longer than the trainable list and holds only trainable variables some pattern matches |
| `Freezing.FrozenVariables` | models/vbert_ft.py:507-513 | the nested loop with `break` records exactly the matching variables, in order; a variable is recorded iff it is trainable and some pattern occurs in its name |
| `Freezing.GetVariablesToTrain` | models/vbert_ft.py:498-517 | the result is the set of trainable variables that no pattern matches; it holds only trainable variables; with no patterns it is every trainable variable |
| `Freezing.EmptyPatternFreezesAll` | models/vbert_ft.py:510-511 | configuring the empty pattern freezes every variable |
| `Scenarios.FewDetectionsKeepAll` | models/vbert_ft.py:68-77 | a count of 3 under the default cap: the cap is 3 and boxes, classes, scores and features are kept whole |
| `Scenarios.ManyDetectionsAreCapped` | models/vbert_ft.py:68-77 | a count of 15 under the default cap: the cap and the count become 10 and the rows of boxes, classes, scores and features keep their first ten entries |
| `Scenarios.TagsResolve` | models/vbert_ft.py:87-88 | tags `[2, 15, -1]` under cap 10 become `[2, -1, -1]` |
| `Scenarios.SentinelGroundsToZeros` | models/vbert_ft.py:102-114 | the sentinel against a two-detection table of width 4 grounds to four zeros |

## Findings

| source | as written | input that shows it | evidently intended | confidence | as-written member | corrected member |
|---|---|---|---|---|---|---|
| models/vbert_ft.py:104-112 | the sentinel tag `-1` is passed straight to `tf.gather_nd`. `gather_nd` has no last-element indexing: on a CPU it refuses the index, and on a GPU it stores zeros | any caption with an untagged token, i.e. a tag of `-1` against a table of `M+1` rows | `-1` selects the zero row appended at index `M`, as the "Add ZEROs to the end" step prepares | medium, not executed | `Grounding.SentinelMissesZeroRowAsWritten` | `Grounding.GroundDetectionFeatures` |

## Left out

- The transformer encoder (`bert_modeling.BertModel`) is external. `ChoiceLoop.EncodeChoices`
  takes it as a function parameter over parameters and one assembled input. Its internals,
  dropout randomness and gradients are not modelled.
- The projection layers, `decode_bert_output`, the `itm/logits` projection and the stacking
  of pooled outputs feeding it are float numerics and are not modelled. Only the layer plan
  and its `ValueError` are.
- The cross-entropy losses, `one_hot`, `masked_ops.masked_avg`, `tf.argmax` over float logits
  and the stateful Keras `Accuracy` objects are float numerics or foreign helpers. The
  accuracy is modelled as its integer agreement and pair counts. Predicted labels are an
  integer input.
- Checkpoint restoration, proto and config loading, the proto type check in the constructor,
  and the answer-versus-rationale field selection are I/O and configuration plumbing.
- `ChoiceLoop.ScopeVariables`: TensorFlow's variable store is modelled as one optional
  parameter set. A scope without reuse inheriting reuse from an enclosing scope is not
  modelled.
- `Grounding.GroundDetectionFeatures`: it requires every tag to be in `[-1, M]`. For an id
  outside that range the source's `gather_nd` fails on a CPU and stores zeros on a GPU; the
  model requires such ids away instead of modelling either behaviour.
- `BertInput.CreateBertInputTensors`: the source accepts `detection_boxes` and
  `detection_scores` but never reads them, so the model omits both arguments.
- `Freezing.GetVariablesToTrain`: the source returns `list(set(...))`, whose order is
  unspecified. The model returns the set.
- `NUM_CHOICES` is defined in `readers/vcr_fields.py`, which is not part of this model. The
  number of choices is a parameter.
- Integer widths: counts and ids are unbounded integers. The only int32 fact used is the
  lowest int32, which `tf.reduce_max` returns for an empty batch.
