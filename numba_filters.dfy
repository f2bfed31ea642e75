/**
 * The JIT backend: the same per-pixel loops as the reference backend, compiled
 * by numba (compilation itself is not modelled), plus the wrappers the command
 * line calls.
 */
module NumbaFilters {
  import opened Image
  import opened PyNumeric
  import PythonFilters

  /** convert_to_numpy on an array argument: the argument itself. */
  function ConvertToNumpy(imageInput: array2<Rgb>): array2<Rgb> {
    imageInput
  }

  /** numba_color2gray: the reference grey loop, giving an equal (rows, cols) array. */
  method NumbaColor2Gray(image: array2<Rgb>) returns (gray: array2<byte>)
    ensures fresh(gray)
    ensures gray.Length0 == image.Length0 && gray.Length1 == image.Length1
    ensures GridOf(gray) == PythonFilters.GrayImage(GridOf(image))
  {
    var rows, cols := image.Length0, image.Length1;
    gray := new byte[rows, cols];
    for i := 0 to rows
      invariant forall i', j' :: 0 <= i' < i && 0 <= j' < cols ==> gray[i', j'] == PythonFilters.GrayOf(image[i', j'])
    {
      for j := 0 to cols
        invariant forall i', j' :: 0 <= i' < i && 0 <= j' < cols ==> gray[i', j'] == PythonFilters.GrayOf(image[i', j'])
        invariant forall j' :: 0 <= j' < j ==> gray[i, j'] == PythonFilters.GrayOf(image[i, j'])
      {
        var p := image[i, j];
        var level := Int(p.r as real * 0.21 + p.g as real * 0.72 + p.b as real * 0.07);
        gray[i, j] := Uint8(level);
      }
    }
    GridExtensionality(GridOf(gray), PythonFilters.GrayImage(GridOf(image)));
  }

  /** numba_color2sepia: the reference sepia loop, giving an equal array of the input's shape. */
  method NumbaColor2Sepia(image: array2<Rgb>) returns (sepia: array2<Rgb>)
    ensures fresh(sepia)
    ensures sepia.Length0 == image.Length0 && sepia.Length1 == image.Length1
    ensures GridOf(sepia) == PythonFilters.SepiaImage(GridOf(image))
  {
    var height, width := image.Length0, image.Length1;
    sepia := new Rgb[height, width]((_, _) => Rgb(0, 0, 0));
    for y := 0 to height
      invariant forall y', x' :: 0 <= y' < y && 0 <= x' < width ==> sepia[y', x'] == PythonFilters.SepiaOf(image[y', x'])
    {
      for x := 0 to width
        invariant forall y', x' :: 0 <= y' < y && 0 <= x' < width ==> sepia[y', x'] == PythonFilters.SepiaOf(image[y', x'])
        invariant forall x' :: 0 <= x' < x ==> sepia[y, x'] == PythonFilters.SepiaOf(image[y, x'])
      {
        var p := image[y, x];
        var tr := Int(0.393 * p.r as real + 0.769 * p.g as real + 0.189 * p.b as real);
        var tg := Int(0.349 * p.r as real + 0.686 * p.g as real + 0.168 * p.b as real);
        var tb := Int(0.272 * p.r as real + 0.534 * p.g as real + 0.131 * p.b as real);
        PythonFilters.SepiaOfWeights(p);
        sepia[y, x] := Rgb(Min(255, tr), Min(255, tg), Min(255, tb));
      }
    }
    GridExtensionality(GridOf(sepia), PythonFilters.SepiaImage(GridOf(image)));
  }

  /** numba_color2sepia_wrapper on an array: the kernel's result for that array. */
  method NumbaColor2SepiaWrapper(imageInput: array2<Rgb>) returns (sepia: array2<Rgb>)
    ensures fresh(sepia)
    ensures sepia.Length0 == imageInput.Length0 && sepia.Length1 == imageInput.Length1
    ensures GridOf(sepia) == PythonFilters.SepiaImage(GridOf(imageInput))
  {
    var image := ConvertToNumpy(imageInput);
    sepia := NumbaColor2Sepia(image);
  }

  /** numba_color2gray_wrapper on an array: the kernel's result for that array. */
  method NumbaColor2GrayWrapper(imageInput: array2<Rgb>) returns (gray: array2<byte>)
    ensures fresh(gray)
    ensures gray.Length0 == imageInput.Length0 && gray.Length1 == imageInput.Length1
    ensures GridOf(gray) == PythonFilters.GrayImage(GridOf(imageInput))
  {
    var image := ConvertToNumpy(imageInput);
    gray := NumbaColor2Gray(image);
  }
}
