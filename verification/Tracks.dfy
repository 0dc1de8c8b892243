/** The plain data the components exchange. */
module Tracks {

  datatype TargetType = Vehicle | NonVehicle | Pedestrian | Obstacle

  /** A measured or published target; times are seconds. */
  datatype TargetTrack = TargetTrack(
    id: int, kind: TargetType, longitude: real, latitude: real,
    velocity: real, heading: real, confidence: real, timestamp: real)

  type PositiveReal = r: real | r > 0.0 witness 1.0

  /** The C mathematics library, which the model leaves abstract. */
  datatype MathLib = MathLib(
    pi: PositiveReal, cos: real -> real, sin: real -> real, sqrt: real -> real, atan2: (real, real) -> real)
}
