/**
 * The reference backend: per-pixel loops that fill a freshly allocated output
 * array, truncating each weighted sum to an integer.
 */
module PythonFilters {
  import opened Image
  import opened PyNumeric
  import opened ColorTransform

  /** The grey level kept in the float64 buffer: int(r * 0.21 + g * 0.72 + b * 0.07). */
  function GrayLevel(p: Rgb): int {
    Int(Luma(p))
  }

  /** The stored grey value: the float64 level after astype(np.uint8). */
  function GrayOf(p: Rgb): byte {
    Uint8(GrayLevel(p))
  }

  /** Sepia channel c: min(255, int(S[c] . (r, g, b))). */
  function SepiaChannel(p: Rgb, c: nat): byte
    requires c < 3
  {
    assert SepiaMatrix[c][0] >= 0.0 && SepiaMatrix[c][1] >= 0.0 && SepiaMatrix[c][2] >= 0.0;
    Min(255, Int(Apply(SepiaMatrix[c], p)))
  }

  /** The sepia pixel [min(255, tr), min(255, tg), min(255, tb)]. */
  function SepiaOf(p: Rgb): Rgb {
    Rgb(SepiaChannel(p, 0), SepiaChannel(p, 1), SepiaChannel(p, 2))
  }

  /** The sepia pixel with the matrix entries written out, as the loops compute it. */
  lemma SepiaOfWeights(p: Rgb)
    ensures SepiaOf(p) == Rgb(
      Min(255, Int(0.393 * p.r as real + 0.769 * p.g as real + 0.189 * p.b as real)),
      Min(255, Int(0.349 * p.r as real + 0.686 * p.g as real + 0.168 * p.b as real)),
      Min(255, Int(0.272 * p.r as real + 0.534 * p.g as real + 0.131 * p.b as real)))
  {
  }

  /** The value python_color2gray returns for an image value. */
  function GrayImage(g: Grid<Rgb>): Grid<byte> {
    MapGrid(g, GrayOf)
  }

  /** The value python_color2sepia returns for an image value. */
  function SepiaImage(g: Grid<Rgb>): Grid<Rgb> {
    MapGrid(g, SepiaOf)
  }

  /**
   * Each grey value is the floor of the weighted sum, equal to the integer
   * formula (21r + 72g + 7b) div 100, and at most 255, so the uint8 cast
   * never wraps.
   */
  lemma GrayIsTruncatedLuma(p: Rgb)
    ensures 0 <= GrayLevel(p) <= 255 && GrayOf(p) == GrayLevel(p)
    ensures GrayOf(p) == (21 * p.r + 72 * p.g + 7 * p.b) / 100
    ensures GrayOf(p) as real <= Luma(p) < GrayOf(p) as real + 1.0
  {
  }

  /**
   * Each sepia channel is the weighted sum truncated and capped at 255: it is
   * no larger than the sum, and either it is 255 or the sum is below it plus one.
   */
  lemma SepiaIsCappedTruncation(p: Rgb, c: nat)
    requires c < 3
    ensures Channel(SepiaOf(p), c) as real <= Apply(SepiaMatrix[c], p)
    ensures Channel(SepiaOf(p), c) == 255 || Apply(SepiaMatrix[c], p) < Channel(SepiaOf(p), c) as real + 1.0
  {
  }

  /** Each row of the sepia matrix dominates the next, so red >= green >= blue. */
  lemma SepiaOrdered(p: Rgb)
    ensures SepiaOf(p).r >= SepiaOf(p).g >= SepiaOf(p).b
  {
    assert Apply(SepiaMatrix[0], p) >= Apply(SepiaMatrix[1], p) >= Apply(SepiaMatrix[2], p);
  }

  /** A black pixel stays black under both filters. */
  lemma BlackStaysBlack()
    ensures GrayOf(Rgb(0, 0, 0)) == 0
    ensures SepiaOf(Rgb(0, 0, 0)) == Rgb(0, 0, 0)
  {
  }

  /** The 3 x 3 image used by the backends' tests. */
  const TestImage: Grid<Rgb> := [
    [Rgb(255, 0, 0), Rgb(0, 255, 0), Rgb(0, 0, 255)],
    [Rgb(255, 255, 0), Rgb(0, 255, 255), Rgb(255, 0, 255)],
    [Rgb(255, 255, 255), Rgb(128, 128, 128), Rgb(0, 0, 0)]
  ]

  /** The recorded sepia values of the test image's first row: red, green and blue. */
  lemma RecordedSepiaPrimaries()
    ensures SepiaOf(Rgb(255, 0, 0)) == Rgb(100, 88, 69)
    ensures SepiaOf(Rgb(0, 255, 0)) == Rgb(196, 174, 136)
    ensures SepiaOf(Rgb(0, 0, 255)) == Rgb(48, 42, 33)
  {
    SepiaOfWeights(Rgb(255, 0, 0));
    SepiaOfWeights(Rgb(0, 255, 0));
    SepiaOfWeights(Rgb(0, 0, 255));
  }

  /** The recorded sepia values of the test image's second row: yellow, cyan and magenta. */
  lemma RecordedSepiaSecondaries()
    ensures SepiaOf(Rgb(255, 255, 0)) == Rgb(255, 255, 205)
    ensures SepiaOf(Rgb(0, 255, 255)) == Rgb(244, 217, 169)
    ensures SepiaOf(Rgb(255, 0, 255)) == Rgb(148, 131, 102)
  {
    SepiaOfWeights(Rgb(255, 255, 0));
    SepiaOfWeights(Rgb(0, 255, 255));
    SepiaOfWeights(Rgb(255, 0, 255));
  }

  /** The recorded sepia values of the test image's third row: white, grey and black. */
  lemma RecordedSepiaGreys()
    ensures SepiaOf(Rgb(255, 255, 255)) == Rgb(255, 255, 238)
    ensures SepiaOf(Rgb(128, 128, 128)) == Rgb(172, 153, 119)
    ensures SepiaOf(Rgb(0, 0, 0)) == Rgb(0, 0, 0)
  {
    SepiaOfWeights(Rgb(255, 255, 255));
    SepiaOfWeights(Rgb(128, 128, 128));
    SepiaOfWeights(Rgb(0, 0, 0));
  }

  /** The recorded sepia values of the test image. */
  lemma RecordedSepia()
    ensures SepiaImage(TestImage) == [
      [Rgb(100, 88, 69), Rgb(196, 174, 136), Rgb(48, 42, 33)],
      [Rgb(255, 255, 205), Rgb(244, 217, 169), Rgb(148, 131, 102)],
      [Rgb(255, 255, 238), Rgb(172, 153, 119), Rgb(0, 0, 0)]
    ]
  {
    var expected := [
      [Rgb(100, 88, 69), Rgb(196, 174, 136), Rgb(48, 42, 33)],
      [Rgb(255, 255, 205), Rgb(244, 217, 169), Rgb(148, 131, 102)],
      [Rgb(255, 255, 238), Rgb(172, 153, 119), Rgb(0, 0, 0)]
    ];
    RecordedSepiaPrimaries();
    RecordedSepiaSecondaries();
    RecordedSepiaGreys();
    forall i, j | 0 <= i < 3 && 0 <= j < 3
      ensures SepiaOf(TestImage[i][j]) == expected[i][j]
    {
    }
    GridExtensionality(SepiaImage(TestImage), expected);
  }

  /**
   * The recorded grey values of the test image. The white cell is recorded
   * as 254, a binary floating-point effect; in exact arithmetic it is 255.
   */
  lemma RecordedGray()
    ensures GrayImage(TestImage) == [
      [53, 183, 17],
      [237, 201, 71],
      [255, 128, 0]
    ]
  {
    var expected: Grid<byte> := [[53, 183, 17], [237, 201, 71], [255, 128, 0]];
    forall i, j | 0 <= i < 3 && 0 <= j < 3
      ensures GrayOf(TestImage[i][j]) == expected[i][j]
    {
      GrayIsTruncatedLuma(TestImage[i][j]);
    }
    GridExtensionality(GrayImage(TestImage), expected);
  }

  /**
   * python_color2gray: one grey value per pixel in a fresh (rows, cols)
   * array, the channel axis dropped.
   */
  method PythonColor2Gray(image: array2<Rgb>) returns (gray: array2<byte>)
    ensures fresh(gray)
    ensures gray.Length0 == image.Length0 && gray.Length1 == image.Length1
    ensures GridOf(gray) == GrayImage(GridOf(image))
  {
    var rows, cols := image.Length0, image.Length1;
    gray := new byte[rows, cols];
    for i := 0 to rows
      invariant forall i', j' :: 0 <= i' < i && 0 <= j' < cols ==> gray[i', j'] == GrayOf(image[i', j'])
    {
      for j := 0 to cols
        invariant forall i', j' :: 0 <= i' < i && 0 <= j' < cols ==> gray[i', j'] == GrayOf(image[i', j'])
        invariant forall j' :: 0 <= j' < j ==> gray[i, j'] == GrayOf(image[i, j'])
      {
        var p := image[i, j];
        gray[i, j] := Uint8(GrayLevel(p));
      }
    }
    GridExtensionality(GridOf(gray), GrayImage(GridOf(image)));
  }

  /**
   * python_color2sepia: a fresh array of the input's shape holding the sepia
   * pixel of every input pixel; the input is not written.
   */
  method PythonColor2Sepia(image: array2<Rgb>) returns (sepia: array2<Rgb>)
    ensures fresh(sepia)
    ensures sepia.Length0 == image.Length0 && sepia.Length1 == image.Length1
    ensures GridOf(sepia) == SepiaImage(GridOf(image))
  {
    var height, width := image.Length0, image.Length1;
    sepia := new Rgb[height, width]((_, _) => Rgb(0, 0, 0));
    for y := 0 to height
      invariant forall y', x' :: 0 <= y' < y && 0 <= x' < width ==> sepia[y', x'] == SepiaOf(image[y', x'])
    {
      for x := 0 to width
        invariant forall y', x' :: 0 <= y' < y && 0 <= x' < width ==> sepia[y', x'] == SepiaOf(image[y', x'])
        invariant forall x' :: 0 <= x' < x ==> sepia[y, x'] == SepiaOf(image[y, x'])
      {
        var p := image[y, x];
        var tr := Int(0.393 * p.r as real + 0.769 * p.g as real + 0.189 * p.b as real);
        var tg := Int(0.349 * p.r as real + 0.686 * p.g as real + 0.168 * p.b as real);
        var tb := Int(0.272 * p.r as real + 0.534 * p.g as real + 0.131 * p.b as real);
        SepiaOfWeights(p);
        sepia[y, x] := Rgb(Min(255, tr), Min(255, tg), Min(255, tb));
      }
    }
    GridExtensionality(GridOf(sepia), SepiaImage(GridOf(image)));
  }
}
