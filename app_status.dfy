/** The two pure decisions of `src/main.tsx` that the model keeps: the
    derived application status and the camera facing-mode flip. */
module App {
  import opened Constants

  /** The `status` memo: capturing wins, then the model-loading state,
      then the camera. */
  function DeriveStatus(isCapturing: bool, tensorFlowStatus: TensorFlowStatus, cameraStatus: CameraStatus): (status: AppStatus)
    ensures isCapturing ==> status == Capturing
    ensures !isCapturing && tensorFlowStatus == TfInitializing ==> status == Initializing
    ensures !isCapturing && tensorFlowStatus == TfError ==> status == Error
    ensures !isCapturing && tensorFlowStatus == TfReady ==> status == (if cameraStatus == Off then Start else Ready)
    // nothing yields `loading`
    ensures status != Loading
  {
    if isCapturing then Capturing
    else if tensorFlowStatus == TfInitializing then Initializing
    else if tensorFlowStatus == TfError then Error
    else if cameraStatus.Off? && tensorFlowStatus == TfReady then Start
    else if cameraStatus.On? && tensorFlowStatus == TfReady then Ready
    else Initializing
  }

  /** The final fallback is never reached: `initializing` means exactly
      that the model is still loading and nothing is being captured. */
  lemma InitializingOnlyWhileModelLoads(isCapturing: bool, tensorFlowStatus: TensorFlowStatus, cameraStatus: CameraStatus)
    ensures DeriveStatus(isCapturing, tensorFlowStatus, cameraStatus) == Initializing <==>
              !isCapturing && tensorFlowStatus == TfInitializing
  {
    assert tensorFlowStatus.TfInitializing? || tensorFlowStatus.TfReady? || tensorFlowStatus.TfError?;
    assert cameraStatus.Off? || cameraStatus.On?;
  }

  /** The status is `start` only while the model is ready, the camera is
      off and nothing is being captured. */
  lemma StartMeansReadyAndIdle(isCapturing: bool, tensorFlowStatus: TensorFlowStatus, cameraStatus: CameraStatus)
    ensures DeriveStatus(isCapturing, tensorFlowStatus, cameraStatus) == Start <==>
              !isCapturing && tensorFlowStatus == TfReady && cameraStatus == Off
  {
  }

  datatype FacingMode = User | Environment

  /** The target of `handleFlip`: the other camera. */
  function Flip(mode: FacingMode): (flipped: FacingMode)
    ensures flipped != mode
  {
    if mode == User then Environment else User
  }

  lemma FlipTwiceIsIdentity(mode: FacingMode)
    ensures Flip(Flip(mode)) == mode
  {
  }
}
