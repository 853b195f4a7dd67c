/** The per-track estimator, kept opaque: the model knows the shape of its state
    and how it is seeded, while `predict` and `correct` (float32
    `cv::KalmanFilter` numerics) are supplied as the functions of `KalmanOps`. */
module Kalman {
  import opened Geometry

  /** Dimension of the state vector and of the measurement vector. */
  const STATE_DIM: nat := 8
  const MEASURE_DIM: nat := 4

  /** The filter's state: `position` holds the first four components of the state
      vector, read as the rectangle corners `(x1, y1, x2, y2)`; `velocity` the other
      four; `errorCov` the error covariance. */
  datatype FilterState = FilterState(position: Corners, velocity: seq<real>, errorCov: seq<seq<real>>)

  /** `predict()` and `correct(measurement)` of the underlying filter. */
  datatype KalmanOps = KalmanOps(
    predict: FilterState -> FilterState,
    correct: (FilterState, Corners) -> FilterState)

  function Identity(n: nat): seq<seq<real>>
  {
    seq(n, i => seq(n, j => if i == j then 1.0 else 0.0))
  }

  /** The filter built for a new track: the position seeded with the detection's
      corners, zero velocity, unit error covariance. */
  function InitialFilter(d: DetectionRect): (f: FilterState)
    ensures f.position.x1 == d.x1 && f.position.y1 == d.y1
    ensures f.position.x2 == d.x2 && f.position.y2 == d.y2
    ensures |f.velocity| == STATE_DIM - MEASURE_DIM
    ensures forall i :: 0 <= i < |f.velocity| ==> f.velocity[i] == 0.0
    ensures |f.errorCov| == STATE_DIM
    ensures forall i :: 0 <= i < STATE_DIM ==> |f.errorCov[i]| == STATE_DIM
    ensures forall i, j :: 0 <= i < STATE_DIM && 0 <= j < STATE_DIM ==>
              f.errorCov[i][j] == (if i == j then 1.0 else 0.0)
  {
    FilterState(CornersOf(d), seq(STATE_DIM - MEASURE_DIM, _ => 0.0), Identity(STATE_DIM))
  }
}
