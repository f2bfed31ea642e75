/** Pixel buffers: an H x W x 3 uint8 array is a 2-D array of RGB triples. */
module Image {

  /** numpy's uint8. */
  type byte = x: int | 0 <= x < 256

  /** One pixel; the channel axis of the source's (H, W, 3) arrays, in R, G, B order. */
  datatype Rgb = Rgb(r: byte, g: byte, b: byte)

  /** The value of an image: a sequence of rows. */
  type Grid<T> = seq<seq<T>>

  /** Two grids have the same shape: as many rows, and rows of equal length. */
  predicate SameShape<T, U>(a: Grid<T>, b: Grid<U>) {
    |a| == |b| && forall i :: 0 <= i < |a| ==> |a[i]| == |b[i]|
  }

  /** The contents of a 2-D array, row by row. */
  function GridOf<T>(a: array2<T>): (g: Grid<T>)
    reads a
    ensures |g| == a.Length0
    ensures forall i :: 0 <= i < a.Length0 ==> |g[i]| == a.Length1
    ensures forall i, j :: 0 <= i < a.Length0 && 0 <= j < a.Length1 ==> g[i][j] == a[i, j]
  {
    seq(a.Length0, i requires 0 <= i < a.Length0 reads a =>
      seq(a.Length1, j requires 0 <= j < a.Length1 reads a => a[i, j]))
  }

  /** Applies a per-pixel transform to every cell, keeping the shape. */
  function MapGrid<T, U>(g: Grid<T>, f: T -> U): (r: Grid<U>)
    ensures SameShape(g, r)
    ensures forall i, j :: 0 <= i < |g| && 0 <= j < |g[i]| ==> r[i][j] == f(g[i][j])
  {
    seq(|g|, i requires 0 <= i < |g| => seq(|g[i]|, j requires 0 <= j < |g[i]| => f(g[i][j])))
  }

  /** Grids of the same shape that agree cell by cell are equal. */
  lemma GridExtensionality<T>(a: Grid<T>, b: Grid<T>)
    requires SameShape(a, b)
    requires forall i, j :: 0 <= i < |a| && 0 <= j < |a[i]| ==> a[i][j] == b[i][j]
    ensures a == b
  {
    forall i | 0 <= i < |a|
      ensures a[i] == b[i]
    {
      assert forall j :: 0 <= j < |a[i]| ==> a[i][j] == b[i][j];
    }
  }
}
