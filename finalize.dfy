/**
  Applying the three view rotations to the whole volume and saving one
  rotated DICOM file per slice (`MainWindow.OnFinalizeClick`).

  The slices are packed into one 16-bit 3D image buffer, the buffer is
  resampled by an Euler rotation about the volume's centre, and the rotated
  buffer is cut back into slices, each of which replaces the pixel content
  of its slice's DICOM object before that object is written out.
*/
module Finalize {
  import opened Wrappers
  import opened Samples
  import opened Dicom
  import opened SliceWriter
  import opened Volume

  datatype Vector3 = Vector3(x: real, y: real, z: real)

  /** The voxel grid of a 3D image: its size and its spacing in mm. */
  datatype Grid = Grid(sizeX: nat, sizeY: nat, sizeZ: nat, spacing: Vector3)

  /** An Euler 3D rotation: its centre and its angles about X, Y and Z, in degrees. */
  datatype Euler3D = Euler3D(center: Vector3, angles: Vector3)

  /** The image resampler: buffer in, buffer of the same grid out. */
  type Resampler = (seq<Byte>, Grid, Euler3D) -> seq<Byte>

  datatype FinalizeError =
    | ShortSlice(z: nat)     // a slice has fewer than Columns * Rows samples
    | NoPixelElement(z: nat) // a slice's DICOM object has no Pixel Data element

  /** What a click on Finalize does: nothing, all files saved, or an error after some files were saved. */
  datatype Outcome =
    | Skipped
    | Saved(files: seq<WrittenFile>)
    | Failed(error: FinalizeError, files: seq<WrittenFile>)

  /**
    The rotation about each image axis for the angles shown by the three views.
    The sagittal view turns about X, the coronal view about Y and the axial
    view about Z; each angle is negated because a clockwise drag is positive
    in the views and counter-clockwise in the resampler.
  */
  function AnglesToAxes(axial: real, sagittal: real, coronal: real): (r: Vector3) {
    Vector3(-sagittal, -coronal, -axial)
  }

  /** Which view angle a rotation about each axis came from: (axial, sagittal, coronal). */
  function AxesToAngles(r: Vector3): (real, real, real) {
    (-r.z, -r.x, -r.y)
  }

  /** Each view's angle reaches exactly one axis and can be read back from it. */
  lemma AnglesToAxesInverse(axial: real, sagittal: real, coronal: real, r: Vector3)
    ensures AxesToAngles(AnglesToAxes(axial, sagittal, coronal)) == (axial, sagittal, coronal)
    ensures AnglesToAxes(AxesToAngles(r).0, AxesToAngles(r).1, AxesToAngles(r).2) == r
  {
  }

  /** The 3D image grid of a volume: Columns x Rows x SliceCount with the volume's spacings. */
  function VolumeGrid(v: CtVolume): Grid {
    Grid(v.columns, v.rows, SliceCount(v), Vector3(v.pixelSpacingX, v.pixelSpacingY, v.sliceSpacing))
  }

  /** Half the physical extent along each axis. */
  function Center(g: Grid): Vector3 {
    Vector3(g.sizeX as real * g.spacing.x / 2.0, g.sizeY as real * g.spacing.y / 2.0,
            g.sizeZ as real * g.spacing.z / 2.0)
  }

  /** Every slice holds at least `sp` samples, so its first `2 * sp` bytes can be copied. */
  predicate AllLong(slices: seq<seq<Int16>>, sp: nat) {
    forall z :: 0 <= z < |slices| ==> |slices[z]| >= sp
  }

  /** The first `sp` samples of each slice, as bytes, one slice after another. */
  function Packed(slices: seq<seq<Int16>>, sp: nat): (buf: seq<Byte>)
    requires AllLong(slices, sp)
    ensures |buf| == |slices| * (2 * sp)
  {
    if slices == [] then []
    else Packed(slices[..|slices| - 1], sp) + EncodeSlice(slices[|slices| - 1][..sp])
  }

  /** The first `sp` samples of each slice, one slice after another: the 3D image in sample order. */
  function Stacked(slices: seq<seq<Int16>>, sp: nat): (samples: seq<Int16>)
    requires AllLong(slices, sp)
    ensures |samples| == |slices| * sp
  {
    if slices == [] then []
    else Stacked(slices[..|slices| - 1], sp) + slices[|slices| - 1][..sp]
  }

  /** Sample `z * sp + i` of the 3D image is sample `i` of slice `z`. */
  lemma {:induction false} StackedAt(slices: seq<seq<Int16>>, sp: nat, z: nat, i: nat)
    requires AllLong(slices, sp) && z < |slices| && i < sp
    ensures z * sp + i < |Stacked(slices, sp)|
    ensures Stacked(slices, sp)[z * sp + i] == slices[z][i]
  {
    var n := |slices|;
    var init := slices[..n - 1];
    MulMono(z + 1, n, sp);
    if z < n - 1 {
      MulMono(z + 1, n - 1, sp);
      assert init[z] == slices[z];
      StackedAt(init, sp, z, i);
    }
  }

  /** The packed buffer is the 3D image in sample order, each sample as its two bytes. */
  lemma {:induction false} PackedIsStacked(slices: seq<seq<Int16>>, sp: nat)
    requires AllLong(slices, sp)
    ensures Packed(slices, sp) == EncodeSlice(Stacked(slices, sp))
  {
    if slices != [] {
      var init := slices[..|slices| - 1];
      PackedIsStacked(init, sp);
      EncodeAppend(Stacked(init, sp), slices[|slices| - 1][..sp]);
    }
  }

  /** The `z`-th run of `sbc` bytes of a buffer. */
  function Plane(buf: seq<Byte>, z: nat, sbc: nat): (bytes: seq<Byte>)
    requires z * sbc + sbc <= |buf|
    ensures |bytes| == sbc
  {
    buf[z * sbc .. z * sbc + sbc]
  }

  lemma PlaneBounds(n: nat, sbc: nat, z: nat)
    requires z < n
    ensures z * sbc + sbc <= n * sbc
  {
    MulMono(z + 1, n, sbc);
  }

  lemma PlaneStep(n: nat, sbc: nat, z: nat)
    requires z < n
    ensures z * sbc + sbc == (z + 1) * sbc <= n * sbc
  {
    MulMono(z + 1, n, sbc);
  }

  /** A buffer of `n` slices of `sbc` bytes each, cut into its slices. */
  function Planes(buf: seq<Byte>, n: nat, sbc: nat): (planes: seq<seq<Byte>>)
    requires |buf| == n * sbc
    ensures |planes| == n
  {
    seq(n, k requires 0 <= k < n => PlaneBounds(n, sbc, k); Plane(buf, k, sbc))
  }

  /**
    Unpacking plane `z` of the packed buffer gives back the bytes of slice `z`:
    the copy into the 3D buffer and the copy out of it use the same offset.
  */
  lemma {:induction false} PlaneOfPacked(slices: seq<seq<Int16>>, sp: nat, z: nat)
    requires AllLong(slices, sp) && z < |slices|
    ensures z * (2 * sp) + 2 * sp <= |Packed(slices, sp)|
    ensures Plane(Packed(slices, sp), z, 2 * sp) == EncodeSlice(slices[z][..sp])
  {
    var n, sbc := |slices|, 2 * sp;
    var init := slices[..n - 1];
    var front, back := Packed(init, sp), EncodeSlice(slices[n - 1][..sp]);
    assert Packed(slices, sp) == front + back;
    PlaneBounds(n, sbc, z);
    if z < n - 1 {
      PlaneOfPacked(init, sp, z);
      PlaneOfFront(front, back, z, sbc);
    } else {
      PlaneOfBack(front, back, z, sbc);
    }
  }

  lemma PlaneOfFront(front: seq<Byte>, back: seq<Byte>, z: nat, sbc: nat)
    requires z * sbc + sbc <= |front|
    ensures Plane(front + back, z, sbc) == Plane(front, z, sbc)
  {
    assert (front + back)[..|front|] == front;
  }

  lemma PlaneOfBack(front: seq<Byte>, back: seq<Byte>, z: nat, sbc: nat)
    requires |front| == z * sbc && |back| == sbc
    ensures Plane(front + back, z, sbc) == back
  {
    assert (front + back)[|front|..] == back;
  }

  /** The samples of slice `z` survive packing and unpacking unchanged. */
  lemma PackUnpack(slices: seq<seq<Int16>>, sp: nat, z: nat)
    requires AllLong(slices, sp) && z < |slices|
    ensures z * (2 * sp) + 2 * sp <= |Packed(slices, sp)|
    ensures DecodeSlice(Plane(Packed(slices, sp), z, 2 * sp), sp) == slices[z][..sp]
  {
    PlaneOfPacked(slices, sp, z);
    DecodeEncode(slices[z][..sp]);
  }

  /**
    `Marshal.Copy(bytes, 0, buffer + offset, bytes.Length)`: overwrites
    `|bytes|` bytes of the buffer at `offset` and nothing else.
  */
  method CopyInto(buffer: array<Byte>, offset: nat, bytes: seq<Byte>)
    requires offset + |bytes| <= buffer.Length
    modifies buffer
    ensures buffer[offset .. offset + |bytes|] == bytes
    ensures buffer[..offset] == old(buffer[..offset])
    ensures buffer[offset + |bytes| ..] == old(buffer[offset + |bytes| ..])
  {
    for i := 0 to |bytes|
      invariant buffer[offset .. offset + i] == bytes[..i]
      invariant buffer[..offset] == old(buffer[..offset])
      invariant buffer[offset + |bytes| ..] == old(buffer[offset + |bytes| ..])
    {
      buffer[offset + i] := bytes[i];
    }
  }

  /**
    The first loop: each slice's first `sp` samples are block-copied into a
    byte array and that array into the image buffer at `z * 2 * sp`. A slice
    shorter than `sp` samples makes the block copy throw.
  */
  method PackVolume(slices: seq<seq<Int16>>, sp: nat) returns (r: Result<seq<Byte>, FinalizeError>)
    ensures r.Ok? <==> AllLong(slices, sp)
    ensures r.Ok? ==> r.value == Packed(slices, sp)
    ensures r.Err? ==>
              r.error.ShortSlice? && r.error.z < |slices| && |slices[r.error.z]| < sp &&
              AllLong(slices[..r.error.z], sp)
  {
    var buffer := new Byte[|slices| * (2 * sp)];
    assert PackedUpTo(buffer[..], slices, sp, 0);
    for z := 0 to |slices|
      invariant PackedUpTo(buffer[..], slices, sp, z)
    {
      if |slices[z]| < sp {
        return Err(ShortSlice(z));
      }
      PackSlice(slices, sp, z, buffer);
    }
    PackedAll(buffer[..], slices, sp);
    r := Ok(buffer[..]);
  }

  /** The first `z` slices are long enough and `buf` begins with them packed. */
  predicate PackedUpTo(buf: seq<Byte>, slices: seq<seq<Int16>>, sp: nat, z: nat) {
    z <= |slices| && AllLong(slices[..z], sp) &&
    |buf| == |slices| * (2 * sp) && z * (2 * sp) <= |buf| && buf[..z * (2 * sp)] == Packed(slices[..z], sp)
  }

  lemma PackedAll(buf: seq<Byte>, slices: seq<seq<Int16>>, sp: nat)
    requires PackedUpTo(buf, slices, sp, |slices|)
    ensures AllLong(slices, sp) && buf == Packed(slices, sp)
  {
    assert slices[..|slices|] == slices;
    assert buf[..|buf|] == buf;
  }

  /** One iteration of the first loop: slice `z` is appended to the packed prefix. */
  method PackSlice(slices: seq<seq<Int16>>, sp: nat, z: nat, buffer: array<Byte>)
    requires z < |slices| && |slices[z]| >= sp
    requires PackedUpTo(buffer[..], slices, sp, z)
    modifies buffer
    ensures PackedUpTo(buffer[..], slices, sp, z + 1)
  {
    var sbc, offset := 2 * sp, z * (2 * sp);
    PlaneStep(|slices|, sbc, z);
    assert slices[..z + 1][..z] == slices[..z];
    assert slices[..z + 1][z] == slices[z];
    var bytes := EncodeSlice(slices[z][..sp]);
    CopyInto(buffer, offset, bytes);
    assert buffer[..offset + sbc] == buffer[..offset] + buffer[offset .. offset + sbc];
  }

  /** The DICOM objects of a volume, which finalizing may update. */
  function Objects(volume: Option<CtVolume>): set<DicomObject> {
    if volume.None? then {} else set z | 0 <= z < |volume.value.dicomObjects| :: volume.value.dicomObjects[z]
  }

  /** The resampled image buffer, when every slice could be packed. */
  function RotatedBuffer(v: CtVolume, axial: real, sagittal: real, coronal: real, resample: Resampler): seq<Byte>
    requires AllLong(v.axialSlices, v.columns * v.rows)
  {
    var grid := VolumeGrid(v);
    resample(Packed(v.axialSlices, v.columns * v.rows),
             grid, Euler3D(Center(grid), AnglesToAxes(axial, sagittal, coronal)))
  }

  /**
    Finalize. Nothing happens without a loaded volume or when the folder
    dialog is cancelled. Otherwise slice `z` of the rotated buffer replaces the
    pixel content of slice `z`'s DICOM object, which is written to the output
    folder under the derived name, slice by slice; the first exception stops
    the loop, leaving the files already written and the objects already
    updated.
  */
  method OnFinalizeClick(volume: Option<CtVolume>, outputFolder: Option<string>,
                         axial: real, sagittal: real, coronal: real, resample: Resampler)
    returns (outcome: Outcome)
    requires volume.Some? ==> Aligned(volume.value) && DistinctObjects(volume.value.dicomObjects)
    requires forall b, g, t :: |resample(b, g, t)| == |b|
    modifies Objects(volume)
    ensures outcome.Skipped? <==> volume.None? || outputFolder.None?
    ensures outcome.Skipped? || (outcome.Failed? && outcome.error.ShortSlice?) ==>
              forall d :: d in Objects(volume) ==>
                d.elements == old(d.elements)
    ensures outcome.Failed? && outcome.error.ShortSlice? ==>
              var v := volume.value;
              outcome.files == [] && outcome.error.z < SliceCount(v) &&
              |v.axialSlices[outcome.error.z]| < v.columns * v.rows &&
              AllLong(v.axialSlices[..outcome.error.z], v.columns * v.rows)
    ensures outcome.Saved? || (outcome.Failed? && outcome.error.NoPixelElement?) ==>
              var v, folder := volume.value, outputFolder.value;
              var n, sbc := SliceCount(v), 2 * (v.columns * v.rows);
              AllLong(v.axialSlices, v.columns * v.rows) &&
              var rotated := RotatedBuffer(v, axial, sagittal, coronal, resample);
              var m := |outcome.files|;
              |rotated| == n * sbc && m <= n &&
              var planes := Planes(rotated, n, sbc);
              (outcome.Saved? ==> m == n) &&
              (outcome.Failed? ==> outcome.error.z == m < n && !HasPixelData(old(v.dicomObjects[m].elements))) &&
              (forall k :: 0 <= k < m ==>
                 HasPixelData(old(v.dicomObjects[k].elements)) &&
                 outcome.files[k] == WrittenFile(OutputPath(folder, v.filePaths[k]),
                   ReplacePixelData(old(v.dicomObjects[k].elements), planes[k])) &&
                 v.dicomObjects[k].elements == outcome.files[k].elements) &&
              (forall k :: m <= k < n ==> v.dicomObjects[k].elements == old(v.dicomObjects[k].elements))
  {
    if volume.None? || outputFolder.None? {
      return Skipped;
    }
    var v, folder := volume.value, outputFolder.value;
    var n, sp := SliceCount(v), v.columns * v.rows;
    var sbc := 2 * sp;
    var packed := PackVolume(v.axialSlices, sp);
    if packed.Err? {
      return Failed(packed.error, []);
    }
    var rotated := RotatedBuffer(v, axial, sagittal, coronal, resample);
    assert |rotated| == n * sbc;
    var planes := Planes(rotated, n, sbc);
    var outPaths := seq(n, k requires 0 <= k < n => OutputPath(folder, v.filePaths[k]));
    var files, failed := WriteSlices(v.dicomObjects, planes, outPaths);
    if failed.Some? {
      return Failed(NoPixelElement(failed.value), files);
    }
    outcome := Saved(files);
  }

  /**
    The second loop: plane `z` replaces the pixel content of DICOM object `z`,
    which is then written to `outPaths[z]`. An object without a Pixel Data
    element stops the loop at its index.
  */
  method WriteSlices(dcms: seq<DicomObject>, planes: seq<seq<Byte>>, outPaths: seq<string>)
    returns (files: seq<WrittenFile>, failed: Option<nat>)
    requires |planes| == |dcms| && |outPaths| == |dcms|
    requires DistinctObjects(dcms)
    modifies set k | 0 <= k < |dcms| :: dcms[k]
    ensures |files| <= |dcms|
    ensures failed.None? ==> |files| == |dcms|
    ensures failed.Some? ==> failed.value == |files| < |dcms| && !HasPixelData(old(dcms[|files|].elements))
    ensures forall k :: 0 <= k < |files| ==>
              HasPixelData(old(dcms[k].elements)) &&
              files[k] == WrittenFile(outPaths[k], ReplacePixelData(old(dcms[k].elements), planes[k]))
    ensures forall k :: 0 <= k < |dcms| ==>
              dcms[k].elements == if k < |files| then files[k].elements else old(dcms[k].elements)
  {
    files := [];
    for z := 0 to |dcms|
      invariant |files| == z
      invariant forall k :: 0 <= k < z ==>
                  HasPixelData(old(dcms[k].elements)) &&
                  files[k] == WrittenFile(outPaths[k], ReplacePixelData(old(dcms[k].elements), planes[k]))
      invariant forall k :: 0 <= k < |dcms| ==>
                  dcms[k].elements == if k < z then files[k].elements else old(dcms[k].elements)
    {
      var file := WriteSliceAt(dcms, z, planes[z], outPaths[z]);
      if file.None? {
        return files, Some(z);
      }
      files := files + [file.value];
    }
    failed := None;
  }
}
