/**
 * The colour arithmetic shared by the filter backends: the luma weights and the
 * sepia matrix, with decimal coefficients read as exact reals.
 */
module ColorTransform {
  import opened Image

  /** A row of a 3 x 3 matrix. */
  type Row = s: seq<real> | |s| == 3 witness [0.0, 0.0, 0.0]

  /** A 3 x 3 matrix acting on the channel axis. */
  type Matrix = m: seq<Row> | |m| == 3 witness var z: Row := [0.0, 0.0, 0.0]; [z, z, z]

  /** The fixed sepia matrix; row c gives output channel c. */
  const SepiaMatrix: Matrix := [
    [0.393, 0.769, 0.189],
    [0.349, 0.686, 0.168],
    [0.272, 0.534, 0.131]
  ]

  /** np.identity(3). */
  const Identity: Matrix := [
    [1.0, 0.0, 0.0],
    [0.0, 1.0, 0.0],
    [0.0, 0.0, 1.0]
  ]

  /** Channel c of a pixel (0 = red, 1 = green, 2 = blue). */
  function Channel(p: Rgb, c: nat): byte
    requires c < 3
  {
    if c == 0 then p.r else if c == 1 then p.g else p.b
  }

  /** The weighted channel sum r * 0.21 + g * 0.72 + b * 0.07. */
  function Luma(p: Rgb): real {
    p.r as real * 0.21 + p.g as real * 0.72 + p.b as real * 0.07
  }

  /** The dot product of a matrix row with the pixel's (r, g, b). */
  function Apply(row: Row, p: Rgb): real {
    row[0] * p.r as real + row[1] * p.g as real + row[2] * p.b as real
  }
}
