/**
 * The choice loop of `VBertFt.predict`: one encoder invocation per candidate
 * choice, over the same detections, all with the one set of encoder
 * parameters that the first invocation creates.
 */
module ChoiceLoop {
  import opened Wrappers
  import opened Tensors
  import opened BertInput

  datatype LoopError =
    | VariableAlreadyExists  // a scope without reuse found the parameters already made
    | VariableDoesNotExist   // a scope with reuse found no parameters to reuse
    | NoChoices              // the loop never ran, so no embedding table was bound

  /**
   * The encoder parameters `tf.variable_scope(..., reuse=reuse)` hands out:
   * without reuse it creates them (`initial`) and they must not exist yet;
   * with reuse it returns the existing ones, which must exist.
   */
  function ScopeVariables<W>(store: Option<W>, reuse: bool, initial: W): (r: Result<W, LoopError>)
    ensures r.Success? <==> (reuse <==> store.Some?)
    ensures r.Success? ==> r.value == (if reuse then store.value else initial)
  {
    if !reuse then
      (if store.None? then Success(initial) else Failure(VariableAlreadyExists))
    else
      (if store.Some? then Success(store.value) else Failure(VariableDoesNotExist))
  }

  /** The pooled output of every choice, and the embedding table of the last invocation. */
  datatype ChoiceEncodings<P, T> = ChoiceEncodings(pooled: seq<P>, embeddingTable: T)

  /**
   * The loop over the choices.  `bert` stands for the external encoder: from
   * its parameters and one assembled input it yields the pooled output and
   * the embedding table.
   */
  method EncodeChoices<W, P, T, E>(numDetections: seq<int>, detectionClasses: seq<seq<int>>, detectionFeatures: seq<seq<seq<E>>>,
                                   choiceIds: seq<seq<seq<int>>>, choiceTagIds: seq<seq<seq<int>>>,
                                   choiceTagFeatures: seq<seq<seq<seq<E>>>>, choiceLengths: seq<seq<int>>,
                                   m: nat, l: nat, dims: nat, zero: E, numChoices: nat,
                                   bert: (W, BertInputs<E>) -> (P, T), initial: W)
    returns (r: Result<ChoiceEncodings<P, T>, LoopError>)
    requires ChoicesWellShaped(numDetections, detectionClasses, detectionFeatures, choiceIds, choiceTagIds, choiceTagFeatures, choiceLengths, m, l, dims, numChoices)
    ensures r.Failure? <==> numChoices == 0
    ensures r.Failure? ==> r.error == NoChoices
    ensures r.Success? ==>
      |r.value.pooled| == numChoices &&
      (forall c :: 0 <= c < numChoices ==>
         r.value.pooled[c] == bert(initial, ChoiceInput(numDetections, detectionClasses, detectionFeatures, choiceIds, choiceTagIds,
                                                        choiceTagFeatures, choiceLengths, m, l, dims, zero, numChoices, c)).0) &&
      r.value.embeddingTable == bert(initial, ChoiceInput(numDetections, detectionClasses, detectionFeatures, choiceIds, choiceTagIds,
                                                          choiceTagFeatures, choiceLengths, m, l, dims, zero, numChoices, numChoices - 1)).1
  {
    var reuse := false;
    var store: Option<W> := None;
    var pooled: seq<P> := [];
    var table: Option<T> := None;
    var c := 0;
    while c < numChoices
      invariant 0 <= c <= numChoices
      invariant reuse == (c > 0)
      invariant store == (if c == 0 then None else Some(initial))
      invariant |pooled| == c
      invariant forall c' :: 0 <= c' < c ==>
        pooled[c'] == bert(initial, ChoiceInput(numDetections, detectionClasses, detectionFeatures, choiceIds, choiceTagIds,
                                                choiceTagFeatures, choiceLengths, m, l, dims, zero, numChoices, c')).0
      invariant table == if c == 0 then None else
        Some(bert(initial, ChoiceInput(numDetections, detectionClasses, detectionFeatures, choiceIds, choiceTagIds,
                                       choiceTagFeatures, choiceLengths, m, l, dims, zero, numChoices, c - 1)).1)
    {
      var weights := ScopeVariables(store, reuse, initial);
      assert weights.Success?;
      store := Some(weights.value);
      var output := bert(weights.value, ChoiceInput(numDetections, detectionClasses, detectionFeatures, choiceIds, choiceTagIds,
                                                    choiceTagFeatures, choiceLengths, m, l, dims, zero, numChoices, c));
      pooled := pooled + [output.0];
      table := Some(output.1);
      reuse := true;
      c := c + 1;
    }
    if table.None? {
      r := Failure(NoChoices);
    } else {
      r := Success(ChoiceEncodings(pooled, table.value));
    }
  }

  /**
   * Choices that carry identical captions, tags, features and lengths get
   * identical encoder inputs, so with shared parameters the encoder's pooled
   * outputs for them are identical. The encoder is a function here, so this
   * holds for a deterministic encoder; dropout in training is not modelled.
   */
  lemma IdenticalChoicesEncodeAlike<W, P, T, E>(numDetections: seq<int>, detectionClasses: seq<seq<int>>, detectionFeatures: seq<seq<seq<E>>>,
                                                choiceIds: seq<seq<seq<int>>>, choiceTagIds: seq<seq<seq<int>>>,
                                                choiceTagFeatures: seq<seq<seq<seq<E>>>>, choiceLengths: seq<seq<int>>,
                                                m: nat, l: nat, dims: nat, zero: E, numChoices: nat,
                                                bert: (W, BertInputs<E>) -> (P, T), initial: W)
    requires ChoicesWellShaped(numDetections, detectionClasses, detectionFeatures, choiceIds, choiceTagIds, choiceTagFeatures, choiceLengths, m, l, dims, numChoices)
    requires numChoices > 0
    requires forall b, c :: 0 <= b < |numDetections| && 0 <= c < numChoices ==>
      choiceIds[b][c] == choiceIds[b][0] && choiceTagIds[b][c] == choiceTagIds[b][0] &&
      choiceTagFeatures[b][c] == choiceTagFeatures[b][0] && choiceLengths[b][c] == choiceLengths[b][0]
    ensures forall c :: 0 <= c < numChoices ==>
      bert(initial, ChoiceInput(numDetections, detectionClasses, detectionFeatures, choiceIds, choiceTagIds,
                                choiceTagFeatures, choiceLengths, m, l, dims, zero, numChoices, c)).0 ==
      bert(initial, ChoiceInput(numDetections, detectionClasses, detectionFeatures, choiceIds, choiceTagIds,
                                choiceTagFeatures, choiceLengths, m, l, dims, zero, numChoices, 0)).0
  {
    forall c | 0 <= c < numChoices
      ensures ChoiceInput(numDetections, detectionClasses, detectionFeatures, choiceIds, choiceTagIds,
                          choiceTagFeatures, choiceLengths, m, l, dims, zero, numChoices, c) ==
              ChoiceInput(numDetections, detectionClasses, detectionFeatures, choiceIds, choiceTagIds,
                          choiceTagFeatures, choiceLengths, m, l, dims, zero, numChoices, 0)
    {
      assert Unstack(choiceIds, c) == Unstack(choiceIds, 0);
      assert Unstack(choiceTagIds, c) == Unstack(choiceTagIds, 0);
      assert Unstack(choiceTagFeatures, c) == Unstack(choiceTagFeatures, 0);
      assert Unstack(choiceLengths, c) == Unstack(choiceLengths, 0);
    }
  }
}
