/** The environment a generation runs in. Everything that is not integer logic is a
    parameter here: the track raster and the trigonometry. */
module Track {

  /** `isBorder(x, y)` holds when the track pixel at integer coordinates (x, y) has the
      border colour (opaque white).
      `cos(d)` and `sin(d)` stand for `math.cos(math.radians(360 - d))` and
      `math.sin(math.radians(360 - d))`: every trigonometric term of the car uses an
      angle of this form, so the model only needs their values, never their numerics. */
  datatype World = World(
    isBorder: (int, int) -> bool,
    cos: int -> real,
    sin: int -> real)
}
