/**
 * The layer plan of `VBertFt.project_detection_features`.  The layers
 * themselves compute over floats and are not modelled; what is modelled is
 * which layers each configured adaptation builds, and the error raised for
 * an adaptation the method does not know.
 */
module Projection {
  import opened Wrappers

  /** The `detection_adaptation` option; `Unrecognized` is any other enum value. */
  datatype DetectionAdaptation = Mlp | Linear | Unrecognized(value: int)

  datatype Activation = Relu | NoActivation

  datatype Layer =
    | FullyConnected(scope: string, units: nat, activation: Activation)
    | Dropout(keepProb: real)

  const InvalidAdaptation: string := "Invalid detection adaptation method."

  /**
   * The layers applied to detection features, in order.  Both known plans
   * end in the linear layer `detection/adaptation` of the encoder's hidden
   * size, so projected features can stand in for word embeddings.
   */
  function ProjectionLayers(adaptation: DetectionAdaptation, mlpHiddenUnits: nat, dropoutKeepProb: real, hiddenSize: nat)
    : (r: Result<seq<Layer>, string>)
    ensures r.Failure? <==> adaptation.Unrecognized?
    ensures r.Failure? ==> r.error == InvalidAdaptation
    ensures r.Success? ==>
      (|r.value| > 0 && r.value[|r.value| - 1] == FullyConnected("detection/adaptation", hiddenSize, NoActivation))
    ensures r.Success? && adaptation.Mlp? ==>
      (|r.value| == 3 && r.value[0] == FullyConnected("detection/project", mlpHiddenUnits, Relu) &&
       r.value[1] == Dropout(dropoutKeepProb))
    ensures r.Success? && adaptation.Linear? ==> |r.value| == 1
  {
    match adaptation
    case Mlp =>
      Success([FullyConnected("detection/project", mlpHiddenUnits, Relu), Dropout(dropoutKeepProb),
               FullyConnected("detection/adaptation", hiddenSize, NoActivation)])
    case Linear => Success([FullyConnected("detection/adaptation", hiddenSize, NoActivation)])
    case Unrecognized(_) => Failure(InvalidAdaptation)
  }
}
