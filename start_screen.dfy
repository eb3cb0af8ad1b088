/** `getButtonLabel` and the enable rule of `src/components/StartScreen.tsx`. */
module StartScreen {
  import opened Constants
  import App

  function ButtonLabel(status: AppStatus, tensorFlowStatus: TensorFlowStatus): (caption: string)
    // a model still loading overrides every status
    ensures caption == "Initializing..." <==> tensorFlowStatus == TfInitializing || status == Initializing
    ensures caption == "Loading..." <==> tensorFlowStatus != TfInitializing && status == Loading
    ensures caption == "Error" <==> tensorFlowStatus != TfInitializing && status == Error
    // every other status, including `ready` and `capturing`, reads `Start`
    ensures caption in {"Initializing...", "Loading...", "Error", "Start"}
  {
    if tensorFlowStatus == TfInitializing then "Initializing..."
    else
      match status
      case Initializing => "Initializing..."
      case Start => "Start"
      case Loading => "Loading..."
      case Error => "Error"
      case _ => "Start"
  }

  /** `isButtonEnabled`: an enabled button always reads `Start`, and a
      model that is not ready always disables it. */
  function IsButtonEnabled(status: AppStatus, tensorFlowStatus: TensorFlowStatus): (enabled: bool)
    ensures enabled ==> ButtonLabel(status, tensorFlowStatus) == "Start"
    ensures tensorFlowStatus != TfReady ==> !enabled
    ensures status != Start ==> !enabled
  {
    status == Start && tensorFlowStatus == TfReady
  }

  /** Given how the application derives its status, `start` already implies
      a ready model: the button is enabled exactly in status `start`. */
  lemma EnabledIffStart(isCapturing: bool, tensorFlowStatus: TensorFlowStatus, cameraStatus: CameraStatus)
    ensures var status := App.DeriveStatus(isCapturing, tensorFlowStatus, cameraStatus);
            IsButtonEnabled(status, tensorFlowStatus) <==> status == Start
  {
  }

  /** The application never shows `Loading...`, and shows `Error` exactly
      when the model failed and nothing is being captured. */
  lemma LabelsOfDerivedStatus(isCapturing: bool, tensorFlowStatus: TensorFlowStatus, cameraStatus: CameraStatus)
    ensures var caption := ButtonLabel(App.DeriveStatus(isCapturing, tensorFlowStatus, cameraStatus), tensorFlowStatus);
            caption != "Loading..." &&
            (caption == "Error" <==> !isCapturing && tensorFlowStatus == TfError)
  {
  }
}
