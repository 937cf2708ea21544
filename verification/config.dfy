/** Constants of the simulation: canvas and car dimensions from config.py and the
    literal tuning values written inline in car.py and simulation.py. */
module Config {

  /** Canvas size in pixels. */
  const Width: int := 1920
  const Height: int := 1080

  /** Car footprint in pixels. */
  const CarSizeX: int := 50
  const CarSizeY: int := 50

  /** Half of the footprint: the offset from the top-left position to the centre,
      the corner radius, and the divisor of the reward. */
  const HalfX: real := CarSizeX as real / 2.0
  const HalfY: real := CarSizeY as real / 2.0

  /** Clamp range of the top-left position after each move. */
  const MinX: int := 20
  const MaxX: int := Width - 120
  const MinY: int := 20
  const MaxY: int := Height - 120

  /** Default start position of a new car. */
  const StartX: int := 580
  const StartY: int := 755

  /** Speed forced by the first update (the one-time latch). */
  const LatchSpeed: int := 20
  /** Deceleration never takes the speed below this floor. */
  const MinSpeed: int := 12
  /** Speed change of one accelerate or decelerate action. */
  const SpeedStep: int := 2
  /** Heading change of one turn action, in degrees. */
  const TurnStep: int := 10

  /** Number of one-pixel steps after which a radar ray gives up. */
  const RadarRange: nat := 300
  /** Width of one sensor bucket and the largest bucket. */
  const BucketWidth: nat := 30
  const MaxBucket: nat := 10

  /** Ray offsets relative to the heading, in the order `range(-90, 120, 45)` yields them. */
  const RayOffsets: seq<int> := [-90, -45, 0, 45, 90]

  /** Ticks per generation: `30 * 40`, about 20 seconds at 60 frames per second. */
  const TickBudget: nat := 30 * 40
}
