/**
  The command-line batch rotation script (`Program.cs`).

  It reads every slice file of one folder like the viewer's loader, sorts the
  slices by Z, then rotates each slice in its own plane by a fixed angle,
  replaces the slice's pixel data with the rotated samples and writes the
  result next to the input files.
*/
module Script {
  import opened Wrappers
  import opened Samples
  import opened Dicom
  import opened SliceWriter
  import opened VolumeLoader

  /** The 2D voxel grid of one slice: its size and its spacing in mm. */
  datatype Grid2D = Grid2D(sizeX: nat, sizeY: nat, spacingX: real, spacingY: real)

  /** An Euler 2D rotation: its centre and its angle in degrees. */
  datatype Euler2D = Euler2D(centerX: real, centerY: real, angle: real)

  /** The 2D image resampler: buffer in, buffer of the same grid out. */
  type Resampler2D = (seq<Byte>, Grid2D, Euler2D) -> seq<Byte>

  datatype ScriptError =
    | ReadFailed(cause: LoadError) // a slice file could not be read
    | PixelSpacingTooShort         // the last file's Pixel Spacing has fewer than two values
    | ShortSlice(i: nat)           // sorted slice i has fewer than Rows * Columns samples
    | NoPixelElement(i: nat)       // sorted slice i's DICOM object has no Pixel Data element

  /**
    What a run leaves behind: the slice entries in Z order (the before
    viewer's slices, the DICOM objects and the sorted file paths are their
    projections), the rotated slices shown by the after viewer, the files
    written, and the exception that ended the run early, if any.
  */
  datatype ScriptRun = ScriptRun(
    sliceEntries: seq<Entry>,
    afterSlices: seq<seq<Int16>>,
    files: seq<WrittenFile>,
    error: Option<ScriptError>)

  /**
    The 2D grid and rotation of every slice. Unlike the viewer, the script
    passes Pixel Spacing to the resampler in stored order, the first value
    along X; the rotation is clockwise by `deg`, so the resampler gets `-deg`.
  */
  function SliceGrid(cols: nat, rows: nat, spacing: seq<real>): (g: Grid2D)
    requires |spacing| >= 2
  {
    Grid2D(cols, rows, spacing[0], spacing[1])
  }

  function SliceRotation(g: Grid2D, deg: real): (t: Euler2D) {
    Euler2D(g.sizeX as real * g.spacingX / 2.0, g.sizeY as real * g.spacingY / 2.0, -deg)
  }

  /**
    The rotation every slice gets: about the centre of the last file's grid,
    Columns along X with the first Pixel Spacing value, by the negated angle.
  */
  lemma SliceRotationOfLast(last: SliceRecord, deg: real)
    requires |last.pixelSpacing| >= 2
    ensures var t := SliceRotation(SliceGrid(last.cols, last.rows, last.pixelSpacing), deg);
            t.angle == -deg &&
            t.centerX == last.cols as real * last.pixelSpacing[0] / 2.0 &&
            t.centerY == last.rows as real * last.pixelSpacing[1] / 2.0
  {
  }

  /** The in-plane rotation every slice goes through, with the grid of the last file read. */
  function SliceRotate(resample: Resampler2D, last: SliceRecord, deg: real): (rotate: seq<Byte> -> seq<Byte>)
    requires |last.pixelSpacing| >= 2
    requires forall b, g, t :: |resample(b, g, t)| == |b|
    ensures forall b :: |rotate(b)| == |b|
  {
    var grid := SliceGrid(last.cols, last.rows, last.pixelSpacing);
    var transform := SliceRotation(grid, deg);
    assert forall b :: |resample(b, grid, transform)| == |b|;
    b => resample(b, grid, transform)
  }

  /** The rotated bytes of one slice: its first `sc` samples as bytes, resampled. */
  function RotatedBytes(slice: seq<Int16>, sc: nat, rotate: seq<Byte> -> seq<Byte>): (bytes: seq<Byte>)
    requires |slice| >= sc
    requires forall b :: |rotate(b)| == |b|
    ensures |bytes| == 2 * sc
  {
    rotate(EncodeSlice(slice[..sc]))[..2 * sc]
  }

  /**
    The rotated slice kept for the second viewer and the pixel data written to
    the file hold the same samples: decoding the rotated bytes and encoding
    them again gives the bytes back.
  */
  lemma AfterSliceMatchesWritten(slice: seq<Int16>, sc: nat, rotate: seq<Byte> -> seq<Byte>, es: seq<Element>)
    requires |slice| >= sc
    requires forall b :: |rotate(b)| == |b|
    requires HasPixelData(es)
    ensures EncodeSlice(DecodeSlice(RotatedBytes(slice, sc, rotate), sc)) == RotatedBytes(slice, sc, rotate)
    ensures PixelData(ReplacePixelData(es, RotatedBytes(slice, sc, rotate))) ==
              Some(EncodeSlice(DecodeSlice(RotatedBytes(slice, sc, rotate), sc)))
  {
    var bytes := RotatedBytes(slice, sc, rotate);
    EncodeDecode(bytes, sc);
    assert bytes[..2 * sc] == bytes;
    ReplacePixelDataOnly(es, bytes);
  }

  /** With a resampler that leaves the image as it is, every slice comes out as it went in. */
  lemma UnrotatedSliceUnchanged(slice: seq<Int16>, sc: nat, rotate: seq<Byte> -> seq<Byte>)
    requires |slice| >= sc
    requires forall b :: rotate(b) == b
    ensures DecodeSlice(RotatedBytes(slice, sc, rotate), sc) == slice[..sc]
  {
    var src := EncodeSlice(slice[..sc]);
    assert src[..2 * sc] == src;
    DecodeEncode(slice[..sc]);
  }

  /** The first `|afterSlices|` slices were long enough, and `afterSlices` holds them rotated. */
  predicate RotatedAll(slices: seq<seq<Int16>>, sc: nat, rotate: seq<Byte> -> seq<Byte>, afterSlices: seq<seq<Int16>>)
    requires forall b :: |rotate(b)| == |b|
  {
    |afterSlices| <= |slices| &&
    forall k :: 0 <= k < |afterSlices| ==>
      |slices[k]| >= sc && afterSlices[k] == DecodeSlice(RotatedBytes(slices[k], sc, rotate), sc)
  }

  /**
    The first `|files|` objects had a Pixel Data element, and `files` holds
    them written with their rotated bytes.
  */
  predicate WrittenAll(before: seq<seq<Element>>, slices: seq<seq<Int16>>, outPaths: seq<string>, sc: nat,
                       rotate: seq<Byte> -> seq<Byte>, files: seq<WrittenFile>)
    requires forall b :: |rotate(b)| == |b|
  {
    |files| <= |before| && |files| <= |slices| && |files| <= |outPaths| &&
    forall k :: 0 <= k < |files| ==>
      |slices[k]| >= sc && HasPixelData(before[k]) &&
      files[k] == WrittenFile(outPaths[k], ReplacePixelData(before[k], RotatedBytes(slices[k], sc, rotate)))
  }

  lemma RotatedAllExtend(slices: seq<seq<Int16>>, sc: nat, rotate: seq<Byte> -> seq<Byte>, afterSlices: seq<seq<Int16>>)
    requires forall b :: |rotate(b)| == |b|
    requires RotatedAll(slices, sc, rotate, afterSlices)
    requires |afterSlices| < |slices| && |slices[|afterSlices|]| >= sc
    ensures RotatedAll(slices, sc, rotate,
                       afterSlices + [DecodeSlice(RotatedBytes(slices[|afterSlices|], sc, rotate), sc)])
  {
  }

  lemma WrittenAllExtend(before: seq<seq<Element>>, slices: seq<seq<Int16>>, outPaths: seq<string>, sc: nat,
                         rotate: seq<Byte> -> seq<Byte>, files: seq<WrittenFile>)
    requires forall b :: |rotate(b)| == |b|
    requires WrittenAll(before, slices, outPaths, sc, rotate, files)
    requires |files| < |before| && |files| < |slices| && |files| < |outPaths|
    requires |slices[|files|]| >= sc && HasPixelData(before[|files|])
    ensures WrittenAll(before, slices, outPaths, sc, rotate, files +
                       [WrittenFile(outPaths[|files|], ReplacePixelData(before[|files|], RotatedBytes(slices[|files|], sc, rotate)))])
  {
  }

  /**
    The rotation loop over the sorted slices. Per slice: the block copy of its
    first `sc` samples (fails on a shorter slice), the rotation, the rotated
    slice appended for the viewer, the pixel data replaced (fails without a
    Pixel Data element), and the file written to `outPaths[i]`.
  */
  method RotateSlices(dcms: seq<DicomObject>, ghost before: seq<seq<Element>>, slices: seq<seq<Int16>>,
                      outPaths: seq<string>, sc: nat, rotate: seq<Byte> -> seq<Byte>)
    returns (afterSlices: seq<seq<Int16>>, files: seq<WrittenFile>, error: Option<ScriptError>)
    requires |slices| == |dcms| && |outPaths| == |dcms| && DistinctObjects(dcms)
    requires |before| == |dcms| && forall k :: 0 <= k < |dcms| ==> dcms[k].elements == before[k]
    requires forall b :: |rotate(b)| == |b|
    modifies set k | 0 <= k < |dcms| :: dcms[k]
    ensures |files| <= |afterSlices| <= |dcms|
    ensures error.None? ==> |files| == |afterSlices| == |dcms|
    ensures error.Some? ==>
              (error.value.ShortSlice? || error.value.NoPixelElement?) && error.value.i == |files| < |dcms|
    ensures error.Some? && error.value.ShortSlice? ==> |afterSlices| == |files| && |slices[|files|]| < sc
    ensures error.Some? && error.value.NoPixelElement? ==>
              |afterSlices| == |files| + 1 && !HasPixelData(before[|files|])
    ensures RotatedAll(slices, sc, rotate, afterSlices)
    ensures WrittenAll(before, slices, outPaths, sc, rotate, files)
    ensures forall k :: 0 <= k < |dcms| ==>
              dcms[k].elements == if k < |files| then files[k].elements else before[k]
  {
    afterSlices, files := [], [];
    for i := 0 to |dcms|
      invariant |files| == i && |afterSlices| == i
      invariant RotatedAll(slices, sc, rotate, afterSlices)
      invariant WrittenAll(before, slices, outPaths, sc, rotate, files)
      invariant forall k :: 0 <= k < |dcms| ==>
                  dcms[k].elements == if k < i then files[k].elements else before[k]
    {
      if |slices[i]| < sc {
        return afterSlices, files, Some(ShortSlice(i));
      }
      var rotatedBytes := RotatedBytes(slices[i], sc, rotate);
      RotatedAllExtend(slices, sc, rotate, afterSlices);
      afterSlices := afterSlices + [DecodeSlice(rotatedBytes, sc)];
      var file := WriteSliceAt(dcms, i, rotatedBytes, outPaths[i]);
      if file.None? {
        return afterSlices, files, Some(NoPixelElement(i));
      }
      WrittenAllExtend(before, slices, outPaths, sc, rotate, files);
      files := files + [file.value];
    }
    error := None;
  }

  /** Where each sorted slice is written: its derived name in the input folder. */
  function OutputPaths(folder: string, paths: seq<string>): (r: seq<string>)
    ensures |r| == |paths| && forall k :: 0 <= k < |paths| ==> r[k] == OutputPath(folder, paths[k])
  {
    seq(|paths|, k requires 0 <= k < |paths| => OutputPath(folder, paths[k]))
  }

  /**
    What the second pass leaves on the sorted entries `es`, whose objects held
    `before` when it started: the slices rotated and the files written, in
    order, up to the first failure. A short slice stops it before anything is
    appended for that slice; an object without Pixel Data stops it after the
    slice's rotated samples were appended but before its file is written.
  */
  predicate RotatedAndWritten(es: seq<Entry>, before: seq<seq<Element>>, dcmPath: string, sc: nat,
                              rotate: seq<Byte> -> seq<Byte>, afterSlices: seq<seq<Int16>>,
                              files: seq<WrittenFile>, error: Option<ScriptError>)
    requires forall b :: |rotate(b)| == |b|
  {
    |before| == |es| &&
    (error.None? ==> |files| == |afterSlices| == |es|) &&
    (error.Some? ==>
       (error.value.ShortSlice? || error.value.NoPixelElement?) && error.value.i == |files| < |es|) &&
    (error.Some? && error.value.ShortSlice? ==> |afterSlices| == |files| && |es[|files|].pixels| < sc) &&
    (error.Some? && error.value.NoPixelElement? ==>
       |afterSlices| == |files| + 1 && !HasPixelData(before[|files|])) &&
    RotatedAll(PixelsOf(es), sc, rotate, afterSlices) &&
    WrittenAll(before, PixelsOf(es), OutputPaths(dcmPath, PathsOf(es)), sc, rotate, files)
  }

  /**
    When every slice holds at least `sc` samples and every object a Pixel Data
    element, the second pass ends without an error: one rotated slice and one
    file per entry.
  */
  lemma {:induction false} FullSlicesNoError(es: seq<Entry>, before: seq<seq<Element>>, dcmPath: string, sc: nat,
                                             rotate: seq<Byte> -> seq<Byte>, afterSlices: seq<seq<Int16>>,
                                             files: seq<WrittenFile>, error: Option<ScriptError>)
    requires forall b :: |rotate(b)| == |b|
    requires RotatedAndWritten(es, before, dcmPath, sc, rotate, afterSlices, files, error)
    requires forall k :: 0 <= k < |es| ==> |es[k].pixels| >= sc && HasPixelData(before[k])
    ensures error.None? && |files| == |afterSlices| == |es|
  {
  }

  /**
    When every object had Pixel Data, only a short slice can stop the second
    pass; with no slice shorter than `sc` it ends without an error.
  */
  lemma {:induction false} OnlyShortSliceStops(es: seq<Entry>, before: seq<seq<Element>>, dcmPath: string, sc: nat,
                                               rotate: seq<Byte> -> seq<Byte>, afterSlices: seq<seq<Int16>>,
                                               files: seq<WrittenFile>, error: Option<ScriptError>)
    requires forall b :: |rotate(b)| == |b|
    requires RotatedAndWritten(es, before, dcmPath, sc, rotate, afterSlices, files, error)
    requires forall k :: 0 <= k < |before| ==> HasPixelData(before[k])
    ensures error.Some? ==> error.value.ShortSlice?
    ensures (forall k :: 0 <= k < |es| ==> |es[k].pixels| >= sc) ==> error.None?
  {
    if forall k :: 0 <= k < |es| ==> |es[k].pixels| >= sc {
      FullSlicesNoError(es, before, dcmPath, sc, rotate, afterSlices, files, error);
    }
  }

  /**
    The first pass: every file read in name order, then the entries sorted by
    Z. Nothing is changed; the first file that cannot be read ends the run.
  */
  method ReadAndSort(records: seq<SliceRecord>) returns (r: Result<seq<Entry>, LoadError>, ghost before: seq<seq<Element>>)
    ensures r.Err? <==> ReadAll(records).Err?
    ensures r.Err? ==> r.error == ReadAll(records).error
    ensures r.Ok? ==> SortedOrder(r.value, ReadAll(records).value) && |r.value| == |records|
    ensures r.Ok? ==> forall k :: 0 <= k < |r.value| ==> r.value[k].dcm in Dcms(records)
    ensures r.Ok? ==>
              |before| == |r.value| &&
              forall k :: 0 <= k < |r.value| ==> before[k] == r.value[k].dcm.elements && HasPixelData(before[k])
    ensures r.Ok? && DistinctFiles(records) ==> DistinctObjects(ObjectsOf(r.value))
    ensures ReadAll(records) == old(ReadAll(records))
    ensures forall d :: d in Dcms(records) ==> d.elements == old(d.elements)
  {
    assert forall d :: d in Dcms(records) ==> allocated(d);
    var read := ReadEntries(records);
    if read.Err? {
      return Err(read.error), [];
    }
    assert ReadAll(records) == read;
    assert forall d :: d in Dcms(records) ==> allocated(d);
    var sorted := SortEntries(read.value);
    assert ReadAll(records) == read;
    assert |multiset(sorted)| == |multiset(read.value)|;
    forall k | 0 <= k < |sorted| ensures sorted[k].dcm in Dcms(records) && HasPixelData(sorted[k].dcm.elements) {
      SortedEntryFromRecord(records, sorted, k);
      var j :| 0 <= j < |records| && ReadEntry(records[j]) == Ok(sorted[k]);
      assert records[j].dcm in Dcms(records);
    }
    if DistinctFiles(records) {
      LoadedDistinct(records, sorted);
    }
    r, before := Ok(sorted), ElementsOf(ObjectsOf(sorted));
  }

  /**
    The second pass over the sorted entries: each slice is rotated, its
    object gets the rotated bytes, and the object is written under its
    derived name in `dcmPath`.
  */
  method RotateEntries(sliceEntries: seq<Entry>, ghost before: seq<seq<Element>>, dcmPath: string, sc: nat,
                       rotate: seq<Byte> -> seq<Byte>)
    returns (afterSlices: seq<seq<Int16>>, files: seq<WrittenFile>, error: Option<ScriptError>)
    requires DistinctObjects(ObjectsOf(sliceEntries))
    requires |before| == |sliceEntries| && forall k :: 0 <= k < |sliceEntries| ==> sliceEntries[k].dcm.elements == before[k]
    requires forall b :: |rotate(b)| == |b|
    modifies set k | 0 <= k < |sliceEntries| :: sliceEntries[k].dcm
    ensures RotatedAndWritten(sliceEntries, before, dcmPath, sc, rotate, afterSlices, files, error)
    ensures forall k :: 0 <= k < |sliceEntries| ==>
              sliceEntries[k].dcm.elements == if k < |files| then files[k].elements else before[k]
  {
    var dcmObjects := ObjectsOf(sliceEntries);
    afterSlices, files, error := RotateSlices(dcmObjects, before, PixelsOf(sliceEntries),
      OutputPaths(dcmPath, PathsOf(sliceEntries)), sc, rotate);
  }

  /** The DICOM objects of the first `n` entries, those a run has written files for. */
  function WrittenObjects(entries: seq<Entry>, n: nat): set<DicomObject> {
    set k | 0 <= k < n && k < |entries| :: entries[k].dcm
  }

  /** The number of samples per slice the script uses: the last file's `Rows * Columns`. */
  function LastSliceSize(records: seq<SliceRecord>): nat
    requires records != []
  {
    records[|records| - 1].rows * records[|records| - 1].cols
  }

  /**
    Everything after the first pass, on the Z-sorted entries: the grid and
    spacing come from the last file read, and every output goes to the input
    folder under its derived name. An empty folder is not an error.
  */
  method RotateSorted(records: seq<SliceRecord>, sliceEntries: seq<Entry>, ghost before: seq<seq<Element>>,
                      dcmPath: string, rotationAngleDeg: real, resample: Resampler2D)
    returns (afterSlices: seq<seq<Int16>>, files: seq<WrittenFile>, error: Option<ScriptError>)
    requires |sliceEntries| == |records| && DistinctObjects(ObjectsOf(sliceEntries))
    requires |before| == |sliceEntries| && forall k :: 0 <= k < |sliceEntries| ==> sliceEntries[k].dcm.elements == before[k]
    requires forall k :: 0 <= k < |sliceEntries| ==> sliceEntries[k].dcm in Dcms(records)
    requires forall b, g, t :: |resample(b, g, t)| == |b|
    modifies Dcms(records)
    ensures error.None? ==> |files| == |afterSlices| == |records|
    ensures |files| <= |sliceEntries|
    ensures records == [] ==> afterSlices == [] && files == [] && error == None
    ensures records != [] && |records[|records| - 1].pixelSpacing| < 2 ==>
              afterSlices == [] && files == [] && error == Some(PixelSpacingTooShort) &&
              forall d :: d in Dcms(records) ==> d.elements == old(d.elements)
    ensures records != [] && |records[|records| - 1].pixelSpacing| >= 2 ==>
              RotatedAndWritten(sliceEntries, before, dcmPath, LastSliceSize(records),
                                SliceRotate(resample, records[|records| - 1], rotationAngleDeg), afterSlices, files, error)
    ensures forall k :: 0 <= k < |sliceEntries| ==>
              sliceEntries[k].dcm.elements == if k < |files| then files[k].elements else before[k]
    ensures forall d :: d in Dcms(records) && d !in WrittenObjects(sliceEntries, |files|) ==> d.elements == old(d.elements)
  {
    if records == [] {
      return [], [], None;
    }
    var last := records[|records| - 1];
    if |last.pixelSpacing| < 2 {
      return [], [], Some(PixelSpacingTooShort);
    }
    assert (set k | 0 <= k < |sliceEntries| :: sliceEntries[k].dcm) <= Dcms(records);
    afterSlices, files, error := RotateEntries(sliceEntries, before, dcmPath, LastSliceSize(records),
      SliceRotate(resample, last, rotationAngleDeg));
    forall d | d in Dcms(records) && d !in WrittenObjects(sliceEntries, |files|)
      ensures d.elements == old(d.elements)
    {
      if k :| 0 <= k < |sliceEntries| && sliceEntries[k].dcm == d {
        assert k >= |files|;
        assert d.elements == before[k];
      } else {
        assert d !in set k | 0 <= k < |sliceEntries| :: sliceEntries[k].dcm;
      }
    }
  }

  /**
    The whole script on the name-sorted list of slice files: the first file
    that cannot be read ends it before anything is changed.
  */
  method RunScript(records: seq<SliceRecord>, dcmPath: string, rotationAngleDeg: real, resample: Resampler2D)
    returns (run: ScriptRun, ghost before: seq<seq<Element>>)
    requires DistinctFiles(records)
    requires forall b, g, t :: |resample(b, g, t)| == |b|
    modifies Dcms(records)
    ensures old(ReadAll(records)).Err? ==>
              run == ScriptRun([], [], [], Some(ReadFailed(old(ReadAll(records)).error))) &&
              forall d :: d in Dcms(records) ==> d.elements == old(d.elements)
    ensures records == [] ==> run == ScriptRun([], [], [], None)
    ensures old(ReadAll(records)).Ok? ==> SortedOrder(run.sliceEntries, old(ReadAll(records)).value)
    ensures forall d :: d in Dcms(records) ==> old(allocated(d))
    ensures forall k :: 0 <= k < |run.sliceEntries| ==> run.sliceEntries[k].dcm in Dcms(records)
    ensures |before| == |run.sliceEntries| &&
            forall k :: 0 <= k < |run.sliceEntries| ==> var e := run.sliceEntries[k]; before[k] == old(e.dcm.elements)
    ensures old(ReadAll(records)).Ok? && records != [] && |records[|records| - 1].pixelSpacing| < 2 ==>
              run.afterSlices == [] && run.files == [] && run.error == Some(PixelSpacingTooShort) &&
              forall d :: d in Dcms(records) ==> d.elements == old(d.elements)
    ensures old(ReadAll(records)).Ok? && records != [] && |records[|records| - 1].pixelSpacing| >= 2 ==>
              var sc := LastSliceSize(records);
              RotatedAndWritten(run.sliceEntries, before, dcmPath, sc,
                                SliceRotate(resample, records[|records| - 1], rotationAngleDeg),
                                run.afterSlices, run.files, run.error) &&
              (run.error.Some? ==> run.error.value.ShortSlice?) &&
              ((forall k :: 0 <= k < |run.sliceEntries| ==> |run.sliceEntries[k].pixels| >= sc) ==> run.error.None?)
    ensures |run.files| <= |run.sliceEntries|
    ensures forall k :: 0 <= k < |run.files| ==> run.sliceEntries[k].dcm.elements == run.files[k].elements
    ensures forall d :: d in Dcms(records) && d !in WrittenObjects(run.sliceEntries, |run.files|) ==> d.elements == old(d.elements)
    ensures run.error.None? ==> |run.files| == |run.afterSlices| == |records|
  {
    assert forall d :: d in Dcms(records) ==> allocated(d);
    var read;
    read, before := ReadAndSort(records);
    if read.Err? {
      return ScriptRun([], [], [], Some(ReadFailed(read.error))), [];
    }
    var afterSlices, files, error := RotateSorted(records, read.value, before, dcmPath, rotationAngleDeg, resample);
    if records != [] && |records[|records| - 1].pixelSpacing| >= 2 {
      OnlyShortSliceStops(read.value, before, dcmPath, LastSliceSize(records),
        SliceRotate(resample, records[|records| - 1], rotationAngleDeg), afterSlices, files, error);
    }
    run := ScriptRun(read.value, afterSlices, files, error);
  }
}
