/**
  The loaded CT volume and its multiplanar slicing (`CtVolume`).

  A volume is a stack of axial slices, each a row-major `Columns x Rows`
  array of samples, with one DICOM object and one source path per slice.
  Sagittal and coronal planes are read across the stack; their rows run
  from the last (highest) axial slice at the top down to the first.
*/
module Volume {
  import opened Samples
  import opened Dicom

  datatype CtVolume = CtVolume(
    axialSlices: seq<seq<Int16>>,
    dicomObjects: seq<DicomObject>,
    filePaths: seq<string>,
    columns: nat,
    rows: nat,
    pixelSpacingX: real,
    pixelSpacingY: real,
    sliceSpacing: real)

  function SliceCount(v: CtVolume): nat {
    |v.axialSlices|
  }

  /** The pixel, metadata and path lists have one entry per slice. */
  predicate Aligned(v: CtVolume) {
    |v.dicomObjects| == SliceCount(v) && |v.filePaths| == SliceCount(v)
  }

  /** Every slice holds exactly `Columns * Rows` samples (not checked on load). */
  predicate Uniform(v: CtVolume) {
    forall z :: 0 <= z < SliceCount(v) ==> |v.axialSlices[z]| == v.columns * v.rows
  }

  /**
    Every slice holds at least `Columns * Rows` samples, so each `(x, y)` of
    the `Columns x Rows` grid can be read from it; longer slices, such as those
    of earlier files larger than the last one, are read without error.
  */
  predicate Filled(v: CtVolume) {
    forall z :: 0 <= z < SliceCount(v) ==> |v.axialSlices[z]| >= v.columns * v.rows
  }

  lemma MulMono(a: int, b: int, w: nat)
    requires a <= b
    ensures a * w <= b * w
  {
    assert b * w - a * w == (b - a) * w;
  }

  /** Euclidean division is determined by its quotient-remainder equation. */
  lemma DivModUnique(k: int, w: int, q: int, m: int)
    requires w > 0 && k == q * w + m && 0 <= m < w
    ensures k / w == q && k % w == m
  {
    var d := q - k / w;
    assert d * w == k % w - m;
    if d > 0 {
      MulMono(1, d, w);
    } else if d < 0 {
      MulMono(d, -1, w);
    }
  }

  /** Cell (r, c) of an `n x w` row-major grid is at `r * w + c`, and that position determines r and c. */
  lemma RowMajor(n: nat, w: nat, r: nat, c: nat)
    requires r < n && c < w
    ensures r * w + c < n * w
    ensures (r * w + c) / w == r && (r * w + c) % w == c
  {
    MulMono(r + 1, n, w);
    DivModUnique(r * w + c, w, r, c);
  }

  /** Every position of an `n x w` row-major grid is some cell (k / w, k % w). */
  lemma RowMajorCover(n: nat, w: nat, k: nat)
    requires k < n * w
    ensures w > 0 && k / w < n && k % w < w && (k / w) * w + k % w == k
  {
    if k / w >= n {
      MulMono(n, k / w, w);
    }
  }

  /**
    Position of column `c` of stacking index `z` in a plane `w` cells wide
    whose rows are reversed: `outZ * w + c` with `outZ = n - 1 - z`.
  */
  function OutIndex(n: nat, w: nat, z: nat, c: nat): int {
    (n - 1 - z) * w + c
  }

  /** The stacking index whose row holds output position `k`. */
  function SourceZ(n: nat, w: nat, k: nat): int
    requires w > 0
  {
    n - 1 - k / w
  }

  /** Each (z, c) lands on its own output position, from which z and c are recovered. */
  lemma OutIndexInverse(n: nat, w: nat, z: nat, c: nat)
    requires z < n && c < w
    ensures 0 <= OutIndex(n, w, z, c) < n * w
    ensures SourceZ(n, w, OutIndex(n, w, z, c)) == z && OutIndex(n, w, z, c) % w == c
  {
    RowMajor(n, w, n - 1 - z, c);
  }

  /** Each output position is the image of some (z, c): with OutIndexInverse, every cell is written exactly once. */
  lemma OutIndexCovers(n: nat, w: nat, k: nat)
    requires k < n * w
    ensures w > 0 && 0 <= SourceZ(n, w, k) < n && k % w < w
    ensures OutIndex(n, w, SourceZ(n, w, k), k % w) == k
  {
    RowMajorCover(n, w, k);
  }

  /** `GetAxialSlice(z)`: the z-th slice of the stack, as stored. */
  function GetAxialSlice(v: CtVolume, z: nat): (pixels: seq<Int16>)
    requires z < SliceCount(v)
    ensures Uniform(v) ==> |pixels| == v.columns * v.rows
    ensures Filled(v) ==> |pixels| >= v.columns * v.rows
  {
    v.axialSlices[z]
  }

  /** The samples of column x of slice z, top to bottom: one row of a sagittal plane. */
  function SagittalRow(v: CtVolume, x: nat, z: nat): (row: seq<Int16>)
    requires Filled(v) && x < v.columns && z < SliceCount(v)
    ensures |row| == v.rows
  {
    seq(v.rows, y requires 0 <= y < v.rows => RowMajor(v.rows, v.columns, y, x); v.axialSlices[z][y * v.columns + x])
  }

  /** The rows of slices m-1 down to 0, in that order (the highest slice first). */
  function SagittalRows(v: CtVolume, x: nat, m: nat): (rows: seq<Int16>)
    requires Filled(v) && x < v.columns && m <= SliceCount(v)
    ensures |rows| == m * v.rows
  {
    if m == 0 then [] else SagittalRow(v, x, m - 1) + SagittalRows(v, x, m - 1)
  }

  /** The YZ plane at column x: `Rows` wide, `SliceCount` high, the last slice in row 0. */
  function Sagittal(v: CtVolume, x: nat): (plane: seq<Int16>)
    requires Filled(v) && x < v.columns
    ensures |plane| == v.rows * SliceCount(v)
  {
    SagittalRows(v, x, SliceCount(v))
  }

  /** Row y of slice z, left to right: one row of a coronal plane. */
  function CoronalRow(v: CtVolume, y: nat, z: nat): (row: seq<Int16>)
    requires Filled(v) && y < v.rows && z < SliceCount(v)
    ensures |row| == v.columns
  {
    seq(v.columns, x requires 0 <= x < v.columns => RowMajor(v.rows, v.columns, y, x); v.axialSlices[z][y * v.columns + x])
  }

  /** The rows of slices m-1 down to 0, in that order (the highest slice first). */
  function CoronalRows(v: CtVolume, y: nat, m: nat): (rows: seq<Int16>)
    requires Filled(v) && y < v.rows && m <= SliceCount(v)
    ensures |rows| == m * v.columns
  {
    if m == 0 then [] else CoronalRow(v, y, m - 1) + CoronalRows(v, y, m - 1)
  }

  /** The XZ plane at row y: `Columns` wide, `SliceCount` high, the last slice in row 0. */
  function Coronal(v: CtVolume, y: nat): (plane: seq<Int16>)
    requires Filled(v) && y < v.rows
    ensures |plane| == v.columns * SliceCount(v)
  {
    CoronalRows(v, y, SliceCount(v))
  }

  lemma {:induction false} SagittalRowsAt(v: CtVolume, x: nat, m: nat, z: nat, y: nat)
    requires Filled(v) && x < v.columns && m <= SliceCount(v) && z < m && y < v.rows
    ensures 0 <= OutIndex(m, v.rows, z, y) < |SagittalRows(v, x, m)|
    ensures SagittalRows(v, x, m)[OutIndex(m, v.rows, z, y)] == SagittalRow(v, x, z)[y]
  {
    OutIndexInverse(m, v.rows, z, y);
    if z < m - 1 {
      SagittalRowsAt(v, x, m - 1, z, y);
      assert OutIndex(m, v.rows, z, y) == v.rows + OutIndex(m - 1, v.rows, z, y);
    }
  }

  lemma {:induction false} CoronalRowsAt(v: CtVolume, y: nat, m: nat, z: nat, x: nat)
    requires Filled(v) && y < v.rows && m <= SliceCount(v) && z < m && x < v.columns
    ensures 0 <= OutIndex(m, v.columns, z, x) < |CoronalRows(v, y, m)|
    ensures CoronalRows(v, y, m)[OutIndex(m, v.columns, z, x)] == CoronalRow(v, y, z)[x]
  {
    OutIndexInverse(m, v.columns, z, x);
    if z < m - 1 {
      CoronalRowsAt(v, y, m - 1, z, x);
      assert OutIndex(m, v.columns, z, x) == v.columns + OutIndex(m - 1, v.columns, z, x);
    }
  }

  /** Sagittal sample (outZ, y) is axial sample (x, y) of slice z, with outZ = SliceCount - 1 - z. */
  lemma SagittalAt(v: CtVolume, x: nat, z: nat, y: nat)
    requires Filled(v) && x < v.columns && z < SliceCount(v) && y < v.rows
    ensures 0 <= OutIndex(SliceCount(v), v.rows, z, y) < |Sagittal(v, x)|
    ensures y * v.columns + x < |v.axialSlices[z]|
    ensures Sagittal(v, x)[OutIndex(SliceCount(v), v.rows, z, y)] == v.axialSlices[z][y * v.columns + x]
  {
    SagittalRowsAt(v, x, SliceCount(v), z, y);
    RowMajor(v.rows, v.columns, y, x);
  }

  /** Coronal sample (outZ, x) is axial sample (x, y) of slice z, with outZ = SliceCount - 1 - z. */
  lemma CoronalAt(v: CtVolume, y: nat, z: nat, x: nat)
    requires Filled(v) && y < v.rows && z < SliceCount(v) && x < v.columns
    ensures 0 <= OutIndex(SliceCount(v), v.columns, z, x) < |Coronal(v, y)|
    ensures y * v.columns + x < |v.axialSlices[z]|
    ensures Coronal(v, y)[OutIndex(SliceCount(v), v.columns, z, x)] == v.axialSlices[z][y * v.columns + x]
  {
    CoronalRowsAt(v, y, SliceCount(v), z, x);
    RowMajor(v.rows, v.columns, y, x);
  }

  lemma SplitAt(s: seq<Int16>, i: nat, j: nat)
    requires i <= j <= |s|
    ensures s[i..] == s[i..j] + s[j..]
  {
  }

  /** Where the rows of the top `n - m` rows of an `n`-row plane `w` cells wide end: `(n - m) * w`. */
  function RowOffset(n: nat, w: nat, m: nat): (r: nat)
    requires m <= n
  {
    MulMono(0, n - m, w);
    (n - m) * w
  }

  /** Row `n - 1 - z` of an `n`-row plane starts at `outZ * w` and ends where the rows below it begin. */
  lemma RowStart(n: nat, w: nat, z: nat)
    requires z < n
    ensures (n - 1 - z) * w == RowOffset(n, w, z + 1)
    ensures RowOffset(n, w, z + 1) + w == RowOffset(n, w, z) <= n * w
  {
    MulMono(n - z, n, w);
  }

  /** `GetSagittalSlice(x)`: fills a fresh array slice by slice, row outZ from slice z. */
  method GetSagittalSlice(v: CtVolume, x: nat) returns (slice: seq<Int16>)
    requires Filled(v) && x < v.columns
    ensures slice == Sagittal(v, x)
  {
    var n, w := SliceCount(v), v.rows;
    var a := new Int16[w * n];
    // the rows of the slices already copied fill the end of the array
    for z := 0 to n
      invariant RowOffset(n, w, z) <= a.Length && a[RowOffset(n, w, z) ..] == SagittalRows(v, x, z)
    {
      PlaceSagittalRow(v, x, z, a);
    }
    slice := a[..];
  }

  /** One pass of the outer loop of `GetSagittalSlice`: slice z's row goes to row `outZ = n - 1 - z`. */
  method PlaceSagittalRow(v: CtVolume, x: nat, z: nat, a: array<Int16>)
    requires Filled(v) && x < v.columns && z < SliceCount(v) && a.Length == v.rows * SliceCount(v)
    requires RowOffset(SliceCount(v), v.rows, z) <= a.Length
    requires a[RowOffset(SliceCount(v), v.rows, z) ..] == SagittalRows(v, x, z)
    modifies a
    ensures RowOffset(SliceCount(v), v.rows, z + 1) <= a.Length
    ensures a[RowOffset(SliceCount(v), v.rows, z + 1) ..] == SagittalRows(v, x, z + 1)
  {
    var n, w := SliceCount(v), v.rows;
    var outZ := n - 1 - z;
    RowStart(n, w, z);
    CopySagittalRow(v, x, z, a, outZ * w);
    SplitAt(a[..], outZ * w, RowOffset(n, w, z));
  }

  /** The inner loop of `GetSagittalSlice`: column x of slice z into `a` from `start`. */
  method CopySagittalRow(v: CtVolume, x: nat, z: nat, a: array<Int16>, start: nat)
    requires Filled(v) && x < v.columns && z < SliceCount(v) && start + v.rows <= a.Length
    modifies a
    ensures a[start .. start + v.rows] == SagittalRow(v, x, z)
    ensures a[..start] == old(a[..start]) && a[start + v.rows ..] == old(a[start + v.rows ..])
  {
    for y := 0 to v.rows
      invariant a[start .. start + y] == SagittalRow(v, x, z)[..y]
      invariant a[..start] == old(a[..start]) && a[start + v.rows ..] == old(a[start + v.rows ..])
    {
      RowMajor(v.rows, v.columns, y, x);
      a[start + y] := v.axialSlices[z][y * v.columns + x];
    }
  }

  /** `GetCoronalSlice(y)`: fills a fresh array slice by slice, row outZ from slice z. */
  method GetCoronalSlice(v: CtVolume, y: nat) returns (slice: seq<Int16>)
    requires Filled(v) && y < v.rows
    ensures slice == Coronal(v, y)
  {
    var n, w := SliceCount(v), v.columns;
    var a := new Int16[w * n];
    // the rows of the slices already copied fill the end of the array
    for z := 0 to n
      invariant RowOffset(n, w, z) <= a.Length && a[RowOffset(n, w, z) ..] == CoronalRows(v, y, z)
    {
      PlaceCoronalRow(v, y, z, a);
    }
    slice := a[..];
  }

  /** One pass of the outer loop of `GetCoronalSlice`: slice z's row goes to row `outZ = n - 1 - z`. */
  method PlaceCoronalRow(v: CtVolume, y: nat, z: nat, a: array<Int16>)
    requires Filled(v) && y < v.rows && z < SliceCount(v) && a.Length == v.columns * SliceCount(v)
    requires RowOffset(SliceCount(v), v.columns, z) <= a.Length
    requires a[RowOffset(SliceCount(v), v.columns, z) ..] == CoronalRows(v, y, z)
    modifies a
    ensures RowOffset(SliceCount(v), v.columns, z + 1) <= a.Length
    ensures a[RowOffset(SliceCount(v), v.columns, z + 1) ..] == CoronalRows(v, y, z + 1)
  {
    var n, w := SliceCount(v), v.columns;
    var outZ := n - 1 - z;
    RowStart(n, w, z);
    CopyCoronalRow(v, y, z, a, outZ * w);
    SplitAt(a[..], outZ * w, RowOffset(n, w, z));
  }

  /** The inner loop of `GetCoronalSlice`: row y of slice z into `a` from `start`. */
  method CopyCoronalRow(v: CtVolume, y: nat, z: nat, a: array<Int16>, start: nat)
    requires Filled(v) && y < v.rows && z < SliceCount(v) && start + v.columns <= a.Length
    modifies a
    ensures a[start .. start + v.columns] == CoronalRow(v, y, z)
    ensures a[..start] == old(a[..start]) && a[start + v.columns ..] == old(a[start + v.columns ..])
  {
    for x := 0 to v.columns
      invariant a[start .. start + x] == CoronalRow(v, y, z)[..x]
      invariant a[..start] == old(a[..start]) && a[start + v.columns ..] == old(a[start + v.columns ..])
    {
      RowMajor(v.rows, v.columns, y, x);
      a[start + x] := v.axialSlices[z][y * v.columns + x];
    }
  }
}
