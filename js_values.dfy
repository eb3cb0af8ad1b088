/** Values of the host language that the model needs to name explicitly:
    optional values (`null`/`undefined`), numbers that may be NaN, and the
    truncating remainder operator. */
module JsValues {

  /** `null` (or `undefined`) is None, any other value is Some. */
  datatype Option<+T> = None | Some(value: T)

  /** A number as the application sees it: a finite value or NaN.
      Infinities never arise in the modelled code and are not represented. */
  datatype Num = Finite(value: real) | NaN

  /** The host language's `a % n`: the remainder takes the sign of the
      dividend (it truncates toward zero), unlike Dafny's Euclidean `%`. */
  function JsRem(a: int, n: int): (r: int)
    requires n > 0
    ensures -n < r < n
    ensures a >= 0 ==> 0 <= r && r == a % n
    ensures a < 0 ==> r <= 0 && (-r) == (-a) % n
  {
    if a >= 0 then a % n else -((-a) % n)
  }
}

/** The configuration constants and enumerations shared by the core. */
module Constants {

  datatype KneeSide = Left | Right | NoSide

  datatype AppStatus = Initializing | Error | Start | Loading | Ready | Capturing

  datatype CameraStatus = Off | On

  datatype TensorFlowStatus = TfInitializing | TfReady | TfError

  const MovingAverageMinValidCount: nat := 3
  const MovingAverageWindowSize: nat := 30
  const MovingAverageBufferSize: nat := 200

  /** Milliseconds between two published results: 1000 / 60. */
  const FrameUpdateInterval: real := 1000.0 / 60.0

  const MinimumPointScore: real := 0.25
  const MinimumDistanceRatio: real := 0.0
}
