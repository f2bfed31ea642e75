/**
 * The whole-array backend: grey is the rounded weighted channel sum, and sepia
 * applies the blended matrix k * S + (1 - k) * I, clips into [0, 255] and casts.
 */
module NumpyFilters {
  import opened Wrappers
  import opened Image
  import opened PyNumeric
  import opened ColorTransform
  import PythonFilters

  /** One grey value: np.round of the weighted sum, cast to uint8. */
  function RoundedGrayOf(p: Rgb): byte {
    Uint8(RoundHalfEven(Luma(p)))
  }

  /**
   * The rounded grey value is the nearest integer to the weighted sum, needs
   * no wrap-around in the cast, and is the truncated reference value or one more.
   */
  lemma RoundedGrayBracket(p: Rgb)
    ensures 0 <= RoundHalfEven(Luma(p)) <= 255 && RoundedGrayOf(p) == RoundHalfEven(Luma(p))
    ensures RoundedGrayOf(p) as real - 0.5 <= Luma(p) <= RoundedGrayOf(p) as real + 0.5
    ensures PythonFilters.GrayOf(p) <= RoundedGrayOf(p) <= PythonFilters.GrayOf(p) + 1
  {
    PythonFilters.GrayIsTruncatedLuma(p);
  }

  /** numpy_color2gray: one rounded grey value per pixel, shape (rows, cols). */
  function NumpyColor2Gray(image: Grid<Rgb>): (gray: Grid<byte>)
    ensures SameShape(image, gray)
    ensures forall i, j :: 0 <= i < |image| && 0 <= j < |image[i]| ==>
      gray[i][j] as real - 0.5 <= Luma(image[i][j]) <= gray[i][j] as real + 0.5
    ensures forall i, j :: 0 <= i < |image| && 0 <= j < |image[i]| ==>
      PythonFilters.GrayOf(image[i][j]) <= gray[i][j] <= PythonFilters.GrayOf(image[i][j]) + 1
  {
    var gray := MapGrid(image, RoundedGrayOf);
    forall i, j | 0 <= i < |image| && 0 <= j < |image[i]|
      ensures gray[i][j] as real - 0.5 <= Luma(image[i][j]) <= gray[i][j] as real + 0.5
      ensures PythonFilters.GrayOf(image[i][j]) <= gray[i][j] <= PythonFilters.GrayOf(image[i][j]) + 1
    {
      RoundedGrayBracket(image[i][j]);
    }
    gray
  }

  /** The recorded rounded grey values of the primaries red, green and blue. */
  lemma RecordedRoundedGrayPrimaries()
    ensures RoundedGrayOf(Rgb(255, 0, 0)) == 54
    ensures RoundedGrayOf(Rgb(0, 255, 0)) == 184
    ensures RoundedGrayOf(Rgb(0, 0, 255)) == 18
  {
    RoundedGrayBracket(Rgb(255, 0, 0));
    RoundedGrayBracket(Rgb(0, 255, 0));
    RoundedGrayBracket(Rgb(0, 0, 255));
  }

  /** The recorded rounded grey values of yellow, cyan and magenta. */
  lemma RecordedRoundedGraySecondaries()
    ensures RoundedGrayOf(Rgb(255, 255, 0)) == 237
    ensures RoundedGrayOf(Rgb(0, 255, 255)) == 201
    ensures RoundedGrayOf(Rgb(255, 0, 255)) == 71
  {
    RoundedGrayBracket(Rgb(255, 255, 0));
    RoundedGrayBracket(Rgb(0, 255, 255));
    RoundedGrayBracket(Rgb(255, 0, 255));
  }

  /** The recorded rounded grey values of white, grey and black. */
  lemma RecordedRoundedGrayGreys()
    ensures RoundedGrayOf(Rgb(255, 255, 255)) == 255
    ensures RoundedGrayOf(Rgb(128, 128, 128)) == 128
    ensures RoundedGrayOf(Rgb(0, 0, 0)) == 0
  {
    RoundedGrayBracket(Rgb(255, 255, 255));
    RoundedGrayBracket(Rgb(128, 128, 128));
    RoundedGrayBracket(Rgb(0, 0, 0));
  }

  /** The recorded rounded grey values of the test image. */
  lemma RecordedRoundedGray()
    ensures NumpyColor2Gray(PythonFilters.TestImage) == [
      [54, 184, 18],
      [237, 201, 71],
      [255, 128, 0]
    ]
  {
    var image := PythonFilters.TestImage;
    var expected: Grid<byte> := [[54, 184, 18], [237, 201, 71], [255, 128, 0]];
    RecordedRoundedGrayPrimaries();
    RecordedRoundedGraySecondaries();
    RecordedRoundedGrayGreys();
    forall i, j | 0 <= i < 3 && 0 <= j < 3
      ensures RoundedGrayOf(image[i][j]) == expected[i][j]
    {
    }
    GridExtensionality(NumpyColor2Gray(image), expected);
  }

  /** Row c of the blended matrix k * S + (1 - k) * I. */
  function BlendRow(k: real, c: nat): Row
    requires c < 3
  {
    [ k * SepiaMatrix[c][0] + (1.0 - k) * Identity[c][0],
      k * SepiaMatrix[c][1] + (1.0 - k) * Identity[c][1],
      k * SepiaMatrix[c][2] + (1.0 - k) * Identity[c][2] ]
  }

  /** The effective sepia matrix for blend factor k. */
  function Blend(k: real): Matrix {
    [BlendRow(k, 0), BlendRow(k, 1), BlendRow(k, 2)]
  }

  /** Full sepia uses exactly the sepia matrix; no sepia uses the identity. */
  lemma BlendEndpoints()
    ensures Blend(1.0) == SepiaMatrix
    ensures Blend(0.0) == Identity
  {
  }

  /** One channel of the einsum result, clipped into [0, 255] and cast to uint8. */
  function ClipCast(x: real): byte {
    Uint8(Int(Clip(x, 0.0, 255.0)))
  }

  /**
   * The cast after the clip never wraps, and for a non-negative sum clipping
   * then truncating is truncating then capping at 255.
   */
  lemma ClipCastIsCappedTruncation(x: real)
    ensures 0 <= Int(Clip(x, 0.0, 255.0)) <= 255 && ClipCast(x) == Int(Clip(x, 0.0, 255.0))
    ensures 0.0 <= x ==> ClipCast(x) == Min(255, Int(x))
  {
  }

  /** One output pixel of the blended sepia transform. */
  function BlendPixel(m: Matrix, p: Rgb): Rgb {
    Rgb(ClipCast(Apply(m[0], p)), ClipCast(Apply(m[1], p)), ClipCast(Apply(m[2], p)))
  }

  /**
   * numpy_color2sepia: k outside [0, 1] raises ValueError before any pixel is
   * computed; otherwise an image of the input's shape.
   */
  function NumpyColor2Sepia(image: Grid<Rgb>, k: real): (r: Result<Grid<Rgb>>)
    ensures r.Err? <==> !(0.0 <= k <= 1.0)
    ensures r.Err? ==> r.error == ValueError
    ensures r.Ok? ==> SameShape(image, r.value)
  {
    if !(0.0 <= k <= 1.0) then
      Err(ValueError)
    else
      var m := Blend(k);
      Ok(MapGrid(image, p => BlendPixel(m, p)))
  }

  /** At k = 1 the whole-array sepia equals the reference backend's, pixel for pixel. */
  lemma FullSepiaMatchesReference(image: Grid<Rgb>)
    ensures NumpyColor2Sepia(image, 1.0) == Ok(PythonFilters.SepiaImage(image))
  {
    BlendEndpoints();
    var out := NumpyColor2Sepia(image, 1.0).value;
    var reference := PythonFilters.SepiaImage(image);
    forall i, j | 0 <= i < |image| && 0 <= j < |image[i]|
      ensures out[i][j] == reference[i][j]
    {
      var p := image[i][j];
      forall c | 0 <= c < 3
        ensures ClipCast(Apply(SepiaMatrix[c], p)) == PythonFilters.SepiaChannel(p, c)
      {
        assert Apply(SepiaMatrix[c], p) >= 0.0;
        ClipCastIsCappedTruncation(Apply(SepiaMatrix[c], p));
      }
    }
    GridExtensionality(out, reference);
  }

  /** At k = 0 the output equals the input pixel for pixel. */
  lemma ZeroSepiaIsIdentity(image: Grid<Rgb>)
    ensures NumpyColor2Sepia(image, 0.0) == Ok(image)
  {
    BlendEndpoints();
    var out := NumpyColor2Sepia(image, 0.0).value;
    forall i, j | 0 <= i < |image| && 0 <= j < |image[i]|
      ensures out[i][j] == image[i][j]
    {
      var p := image[i][j];
      assert Apply(Identity[0], p) == p.r as real;
      assert Apply(Identity[1], p) == p.g as real;
      assert Apply(Identity[2], p) == p.b as real;
    }
    GridExtensionality(out, image);
  }
}
