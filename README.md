# ImageRotater core, modelled in Dafny

ImageRotater loads a stack of axial CT slices, stored one DICOM file per
slice, into a `CtVolume`. It shows the volume in three orthogonal views:
axial, sagittal and coronal. The user can rotate each view. "Finalize" then
applies the three rotations to the whole volume in one 3D resampling step and
writes one rotated DICOM file per slice. A separate batch script
(`Program.cs`) reads the same kind of folder and rotates every slice in its
own plane by a fixed angle. It writes the rotated files back into the input
folder.

The model covers the data flow of these operations:

- `samples.dfy` (module `Samples`): 16-bit samples and their little-endian
  byte form, as `Buffer.BlockCopy` and `Marshal.Copy` move them. Both round
  trips are proved.
- `dicom.dfy` (module `Dicom`): a DICOM object's element list and how the
  first Pixel Data element is looked up and replaced. `DicomObject` is a class
  because finalizing changes its elements in place.
- `slice_writer.dfy` (module `SliceWriter`): the output naming rule.
  - `GetFileName`, then the case-insensitive "CT." prefix becoming "CT.ROT.",
    then `Path.Combine`.
  - The pixel replacement and write of one slice.
- `volume.dfy` (module `Volume`): the `CtVolume` value and its three slicers.
  - The sagittal and coronal slicers are loops that fill an array.
  - Each is proved equal to a reference definition, and element-wise equal to
    the source voxel `AxialSlices[z][y * Columns + x]` at the flipped output
    row `SliceCount - 1 - z`.
- `volume_loader.dfy` (module `VolumeLoader`): `LoadFromDirectory` after the
  files are listed and parsed.
  - The read loop, with the ways a file that carries all the tags it reads
    can make it throw: no Z position, no Pixel Data element, or too few pixel
    bytes.
  - The sort by Z position, proved sorted and a permutation.
  - The spacing rule and the assembly of the aligned lists.
- `finalize.dfy` (module `Finalize`): `OnFinalizeClick`.
  - Packing the slices into one 3D buffer, the rotation angles per axis,
    cutting the rotated buffer back into slices, and writing each slice.
- `script.dfy` (module `Script`): the batch script.
  - First pass: read and sort.
  - Second pass: per-slice rotation, replacement and write.
- `views.dfy` (module `Views`): the per-view state of `OrthogonalViewControl`.
  - Slider range, initial index and angle reset in `SetVolume`.
  - The geometry switch of `ShowSlice`.

The parsing of files, the directory listing and the SimpleITK resampler are
inputs of the model:

- A `SliceRecord` is one parsed file, holding the path, the DICOM object and
  the values read through the tag selector.
- The resampler is a function parameter that keeps the buffer length. It is
  the only property of SimpleITK the model relies on.

## Behaviour the model follows

- `LoadFromDirectory` takes Rows, Columns and Pixel Spacing from the last
  file it read in name order, not from every file. It checks no other file
  against them. `VolumeLoader.LoadedUniform` states when the slices of the
  result all have exactly `Columns * Rows` samples. `VolumeLoader.LoadedFilled`
  states when they all have at least that many, which is what the sagittal
  and coronal slicers need.
- The batch script does not check for an empty folder. With no files it
  writes nothing and ends without an error.
- The batch script passes Pixel Spacing to the resampler in stored order:
  X gets the row spacing. The viewer's loader swaps the two values.
- The batch script writes its output into the input folder. A later run then
  lists the rotated files as input again, because "CT.ROT.*" still matches
  `CT*.dcm`.
- Two different input names can map to the same output name, so one output
  file can overwrite another (`SliceWriter.OutputFileNameNotInjective`).

## Model

| member | source | states |
|---|---|---|
| Samples.Unsigned | Program.cs:76-77 | the bit pattern a sample is copied as is a number in [0, 65536) |
| Samples.DecodeSample | Program.cs:106-107 | the sample decoded from a little-endian byte pair has exactly that low and that high byte |
| Samples.SampleRoundTrip | Program.cs:103-107 | splitting a sample into its two bytes and decoding them gives the sample back |
| Samples.EncodeSlice | Program.cs:76-77 | copying samples into bytes gives two bytes per sample |
| Samples.DecodeSlice | CtVolume.cs:90-92 | copying `2n` bytes into a `short[n]` gives exactly `n` samples |
| Samples.EncodeSliceAt | Program.cs:76-77 | sample `i` lands in bytes `2i` (low) and `2i+1` (high) |
| Samples.DecodeSliceAt | CtVolume.cs:90-92 | sample `j` is decoded from bytes `2j` and `2j+1` |
| Samples.EncodeAppend | MainWindow.xaml.cs:103-109 | the bytes of two runs of samples are the bytes of the first followed by those of the second |
| Samples.DecodeEncode | Program.cs:103-107 | samples to bytes and back is the identity |
| Samples.EncodeDecode | CtVolume.cs:89-92 | bytes to samples and back gives the first `2n` bytes that were read |
| Dicom.FindFirst | CtVolume.cs:89 | the result is the first element with the tag; it is None exactly when no element has the tag |
| Dicom.PixelData | CtVolume.cs:89 | pixel bytes are found exactly when a Pixel Data element exists |
| Dicom.ReplacePixelData | MainWindow.xaml.cs:145 | replacing the pixel data keeps the number of elements |
| Dicom.ReplacePixelDataOnly | MainWindow.xaml.cs:145 | after the replacement the pixel data read back is the new bytes, and every other element is unchanged |
| Dicom.DicomObject.SetPixelData | Program.cs:111 | succeeds exactly when the object has a Pixel Data element; then its elements become the replacement, otherwise they stay as they were |
| SliceWriter.FileName | MainWindow.xaml.cs:147 | the file name is the longest suffix of the path without a directory separator |
| SliceWriter.OutputFileName | MainWindow.xaml.cs:148-150 | the output name starts with "CT.ROT."; the rest is the name without a case-insensitive "CT." prefix, or the whole name when there is no such prefix |
| SliceWriter.OutputFileNameExamples | Program.cs:114-116 | "CT.1.2.3.dcm", "ct.1.dcm" and "scan.dcm" become "CT.ROT.1.2.3.dcm", "CT.ROT.1.dcm" and "CT.ROT.scan.dcm" |
| SliceWriter.OutputFileNameNotInjective | Program.cs:114-116 | "CT.CTa.dcm" and "CTa.dcm" get the same output name |
| SliceWriter.OutputFileNameIsCtName | CtVolume.cs:69 | every output name starts with "CT.", so it matches the loader's `CT*` pattern again |
| SliceWriter.FileNameAfterSeparator | MainWindow.xaml.cs:147 | a separator-free name after a directory separator, or with nothing before it, is its path's file name |
| SliceWriter.OutputFileNameNoSeparator | MainWindow.xaml.cs:148-150 | the derived name has no separator when the source name has none |
| SliceWriter.OutputPathName | MainWindow.xaml.cs:147-152 | the file name of the path written is the name derived from the source file's name, whatever the output folder |
| SliceWriter.WriteSliceAt | MainWindow.xaml.cs:144-152 | a file is written exactly when object `i` has a Pixel Data element; the file holds the replaced elements, and no other object changes |
| Volume.GetAxialSlice | CtVolume.cs:37 | an axial slice has `Columns * Rows` samples when the slices are uniform, and at least that many when every slice covers the grid |
| Volume.RowMajor | CtVolume.cs:48 | `y * Columns + x` is inside the slice, and `y` and `x` can be read back from it |
| Volume.RowMajorCover | CtVolume.cs:48 | every index of a slice is `y * Columns + x` for one row `y` and column `x` |
| Volume.OutIndexInverse | CtVolume.cs:46-48 | the flipped output index `(n-1-z) * w + c` is inside the plane, and `z` and `c` can be read back from it |
| Volume.OutIndexCovers | CtVolume.cs:46-48 | every index of the plane is the output index of one slice `z` and one position `c` |
| Volume.Sagittal | CtVolume.cs:39-51 | the sagittal plane has `Rows * SliceCount` samples |
| Volume.Coronal | CtVolume.cs:53-65 | the coronal plane has `Columns * SliceCount` samples |
| Volume.SagittalRowsAt | CtVolume.cs:43-48 | in the first `m` rows of the sagittal plane, output row `m-1-z` is slice `z`'s column `x` |
| Volume.CoronalRowsAt | CtVolume.cs:57-62 | in the first `m` rows of the coronal plane, output row `m-1-z` is slice `z`'s row `y` |
| Volume.SagittalAt | CtVolume.cs:39-51 | sample `(SliceCount-1-z) * Rows + y` of sagittal slice `x` is `AxialSlices[z][y * Columns + x]` |
| Volume.CoronalAt | CtVolume.cs:53-65 | sample `(SliceCount-1-z) * Columns + x` of coronal slice `y` is `AxialSlices[z][y * Columns + x]` |
| Volume.GetSagittalSlice | CtVolume.cs:39-51 | the array filled by the two loops is the sagittal plane at `x` |
| Volume.PlaceSagittalRow | CtVolume.cs:43-49 | one outer iteration adds slice `z`'s row above the rows already filled |
| Volume.CopySagittalRow | CtVolume.cs:47-48 | the inner loop writes column `x` of slice `z` into its output row and nothing else |
| Volume.GetCoronalSlice | CtVolume.cs:53-65 | the array filled by the two loops is the coronal plane at `y` |
| Volume.PlaceCoronalRow | CtVolume.cs:57-63 | one outer iteration adds slice `z`'s row above the rows already filled |
| Volume.CopyCoronalRow | CtVolume.cs:61-62 | the inner loop writes row `y` of slice `z` into its output row and nothing else |
| VolumeLoader.ReadEntry | CtVolume.cs:81-94 | reading a file fails exactly when it has no Z position, no Pixel Data element or too few pixel bytes, with the error of the first of these checks that fails, in that order; otherwise the entry has the Z position and `Rows * Columns` samples whose bytes are the first pixel bytes |
| VolumeLoader.ReadAll | CtVolume.cs:79-95 | a successful read gives one entry per file, each what reading that file gives |
| VolumeLoader.ReadEntries | CtVolume.cs:79-95 | the read loop stops at the first failure and otherwise collects every entry in file order |
| VolumeLoader.ReadAllFirstError | CtVolume.cs:79-95 | loading fails with the error of the first file that cannot be read |
| VolumeLoader.ReadAllSucceeds | CtVolume.cs:79-95 | loading reads every file when each file can be read |
| VolumeLoader.ReadAllOk | CtVolume.cs:79-95 | the entries read one by one are the result of loading |
| VolumeLoader.SortEntries | CtVolume.cs:97 | the entries come out in non-decreasing Z order and are a permutation of the entries read |
| VolumeLoader.InsertEntry | CtVolume.cs:97 | one sorting step extends the sorted prefix by one entry and only reorders |
| VolumeLoader.Inserted | CtVolume.cs:97 | moving entry `i` to `pos` shifts the entries in between up by one and leaves the rest in place |
| VolumeLoader.InsertedPermutation | CtVolume.cs:97 | moving one entry keeps the multiset of entries |
| VolumeLoader.InsertedSorted | CtVolume.cs:97 | inserting after the last entry not above it in Z keeps the prefix sorted |
| VolumeLoader.Assemble | CtVolume.cs:99-110 | the three lists are aligned with the sorted entries; Columns and Rows come from the last file; X spacing is its second Pixel Spacing value and Y the first; the slice spacing is not negative |
| VolumeLoader.Abs | CtVolume.cs:100 | the slice spacing is the gap between the two lowest slices, without its sign |
| VolumeLoader.LoadFromDirectory | CtVolume.cs:67-111 | it fails with NotFound on no files, with the first read error, or on a short Pixel Spacing; otherwise it succeeds with the volume assembled from some Z-sorted order of the entries read |
| VolumeLoader.SortedEntryFromRecord | CtVolume.cs:94-97 | every sorted entry is what one of the files gives |
| VolumeLoader.LoadedSliceFromRecord | CtVolume.cs:79-110 | every slice of a loaded volume carries one file's path and DICOM object, and its samples are that file's pixel bytes |
| VolumeLoader.LoadedUniform | CtVolume.cs:83-92 | when every file has the last file's Rows and Columns, every slice has `Columns * Rows` samples |
| VolumeLoader.LoadedFilled | CtVolume.cs:83-92 | when no file has fewer samples than the last one, every slice covers the last file's `Columns x Rows` grid, so the sagittal and coronal views can read it |
| VolumeLoader.SortedSpacing | CtVolume.cs:97-101 | the slice spacing of a sorted stack is the first gap (1 for fewer than two slices), and the first slice is the lowest |
| VolumeLoader.CountOnce | CtVolume.cs:105 | when all objects differ, no entry occurs twice |
| VolumeLoader.SortedObjectsDistinct | CtVolume.cs:97-105 | sorting neither duplicates nor merges DICOM objects |
| VolumeLoader.LoadedDistinct | CtVolume.cs:79-105 | when every file is parsed into its own object, no two slices of the volume share an object |
| Finalize.AnglesToAxesInverse | MainWindow.xaml.cs:121-125 | each view angle drives exactly one axis (sagittal X, coronal Y, axial Z), negated, and can be read back from it |
| Finalize.Packed | MainWindow.xaml.cs:103-109 | the packed buffer holds `SliceCount * 2 * Columns * Rows` bytes |
| Finalize.Plane | MainWindow.xaml.cs:141-142 | each plane cut out of the rotated buffer has `sliceByteCount` bytes |
| Finalize.Planes | MainWindow.xaml.cs:139-142 | the rotated buffer is cut into one plane per slice |
| Finalize.PlaneOfPacked | MainWindow.xaml.cs:103-142 | plane `z` of the packed buffer is the bytes of slice `z`, so packing and cutting use the same offsets |
| Finalize.PackUnpack | MainWindow.xaml.cs:103-142 | decoding plane `z` of the packed buffer gives slice `z`'s samples back |
| Finalize.Stacked | MainWindow.xaml.cs:103-109 | the 3D image in sample order holds `Columns * Rows` samples per slice |
| Finalize.StackedAt | MainWindow.xaml.cs:103-109 | sample `z * Columns * Rows + i` of the 3D image is sample `i` of slice `z` |
| Finalize.PackedIsStacked | MainWindow.xaml.cs:103-109 | the packed buffer is the 3D image in sample order, each sample as its two little-endian bytes |
| Finalize.CopyInto | MainWindow.xaml.cs:108 | copying into the buffer at an offset overwrites those bytes only |
| Finalize.PackVolume | MainWindow.xaml.cs:103-109 | the loop fills the buffer with the packed slices exactly when every slice is long enough; otherwise it fails at the first short slice |
| Finalize.PackSlice | MainWindow.xaml.cs:105-108 | one iteration appends slice `z`'s bytes to the packed prefix |
| Finalize.OnFinalizeClick | MainWindow.xaml.cs:65-153 | It does nothing without a volume or an output folder, and a short slice stops it before any object changes. Otherwise each file written holds its object's elements with the pixel data replaced by that slice's plane of the rotated buffer, under the derived name in the output folder. The first object without Pixel Data stops the loop; the objects after it stay unchanged. |
| Finalize.WriteSlices | MainWindow.xaml.cs:139-153 | files are written in slice order until the first object without Pixel Data; each file holds its object with its plane, and later objects are unchanged |
| Script.SliceRotationOfLast | Program.cs:71-89 | every slice is rotated about the centre of the last file's grid, Columns along X with the first Pixel Spacing value, by the negated angle |
| Script.SliceRotate | Program.cs:71-99 | the per-slice rotation, built from the last file's grid and the negated angle, keeps the buffer length |
| Script.RotatedBytes | Program.cs:76-104 | the rotated bytes of a slice are two bytes per sample |
| Script.AfterSliceMatchesWritten | Program.cs:103-111 | the rotated slice shown after the run and the pixel data written hold the same samples |
| Script.UnrotatedSliceUnchanged | Program.cs:74-107 | with a resampler that leaves the image as it is, every slice comes out as it went in |
| Script.RotateSlices | Program.cs:65-124 | It stops at the first short slice or the first object without Pixel Data, with that index. Each rotated slice is the decoded rotation of its input. Each file written holds its object with the rotated bytes, under its output path. Objects not yet reached are unchanged. |
| Script.ReadAndSort | Program.cs:23-53 | the first pass fails exactly when `ReadAll` does, with the same error, and an empty folder is no failure; otherwise the entries are a Z-sorted permutation of those read, one per file, each with an object of the input that has a Pixel Data element. The elements of those objects are returned alongside. Reading changes no object. |
| Script.RotateEntries | Program.cs:65-124 | The second pass ends in the state `RotatedAndWritten` describes. Without an error there is one rotated slice and one file per entry. A `ShortSlice` error names the first slice with fewer than `sc` samples, and nothing is appended for it. A `NoPixelElement` error names the first object without Pixel Data; its rotated slice is already appended. Each file written holds its entry's object with the rotated bytes, under its derived name in the input folder. Each written object now holds the file's elements; the others keep theirs. |
| Script.OnlyShortSliceStops | Program.cs:23-124 | when every object read had Pixel Data, only a short slice can stop the second pass, and with no slice shorter than `sc` it ends without an error |
| Script.FullSlicesNoError | Program.cs:65-124 | when every slice holds at least `sc` samples and every object has Pixel Data, the second pass ends without an error, with one rotated slice and one file per entry |
| Script.RotateSorted | Program.cs:63-124 | An empty folder ends with no error and no file. A short Pixel Spacing in the last file fails before anything changes. Otherwise the second pass runs with the last file's grid and sample count, ending as `RotatedAndWritten` states: the error names the slice that stopped it and says why. Written objects hold the files' elements, and every other object of the input is unchanged. |
| Script.RunScript | Program.cs:12-124 | A read failure ends the run and leaves every object unchanged. An empty folder ends with no error and no file. Otherwise the slices are Z-sorted, rotated and written as `RotatedAndWritten` states. The ghost result `before` holds the elements each sorted object had before the run, and the pass is stated against it. Every object read has Pixel Data, so the only error is a short slice: the first sorted slice with fewer samples than the last file's `Rows * Columns`. When no slice is that short, the run ends without an error and rotates and writes every file. Written objects hold the files' elements; every other object is unchanged. |
| Views.Half | OrthogonalViewControl.xaml.cs:53 | `maxSlice / 2` truncates toward zero, for positive and negative maxima |
| Views.InitialIndexInRange | OrthogonalViewControl.xaml.cs:44-53 | on a non-empty axis the initial slider value is a valid index, in the middle of the range |
| Views.GeometryFollowsAxes | OrthogonalViewControl.xaml.cs:65-90 | Each view shows the plane of the two axes other than its slider axis. The slider spans that axis. Width, height and their spacings come from the same axis. |
| Views.SliceFor | OrthogonalViewControl.xaml.cs:65-87 | every slider position gives a slice; a sagittal or coronal slice has exactly `width * height` samples, and the axial one is the stored slice |
| Views.OrthogonalView.constructor | OrthogonalViewControl.xaml.cs:28-31 | a new view has no volume, angle 0 and nothing shown |
| Views.OrthogonalView.Initialize | OrthogonalViewControl.xaml.cs:33-37 | sets the view type and title and nothing else; a view without a volume stays consistent |
| Views.OrthogonalView.SetVolume | OrthogonalViewControl.xaml.cs:39-55 | A new volume resets the angle to 0. The slider spans the view's axis and sits on its middle slice, which is shown with the view's geometry. |
| Views.OrthogonalView.ShowSlice | OrthogonalViewControl.xaml.cs:57-100 | Without a volume nothing changes. Otherwise the view shows the slice of its type at `index`, with the width, height and spacings of that type. |
| Views.OrthogonalView.OnSliderChanged | OrthogonalViewControl.xaml.cs:323-327 | the slider holds the new value. With a volume, the slice at the truncated value is shown. Without one, the image and its geometry are kept. The title, the slider maximum and the volume are kept either way, and the view stays consistent. |
| Views.FloorInRange | OrthogonalViewControl.xaml.cs:326 | truncating a slider value in `[0, Maximum]` gives a valid slice index |

## Left out

- Resampling: the SimpleITK resampler is a function parameter. It has no
  interpolation, no default value of -1000 and no geometry. The model relies
  only on it keeping the buffer length.
- Floating point: angles, spacings and positions are reals. The conversion
  of degrees to radians is left out, and so are NaN and rounding.
- Integer widths: `int` and `uint` overflow of `Rows * Columns` and of
  buffer offsets is not modelled; sizes are unbounded naturals.
- Missing tags: a `SliceRecord` always carries Rows, Columns, Pixel Spacing
  and Image Position (Patient). A file without one of these makes the tag
  selector return null, and the loader and the script then throw. A Pixel
  Data value that is not a byte list makes them throw too. Neither case is
  modelled. For example, an earlier file without Pixel Spacing throws in the
  code, while the model checks the Pixel Spacing of the last file only.
- I/O is left out.
  - Listing and name-sorting the directory: the records arrive already
    listed and sorted.
  - Parsing a file with `DICOMObject.Read`: the record carries the parsed
    object and the tag selector's values. A parse failure is not modelled.
  - `dcm.Write`: a write is recorded as a `WrittenFile`. A failing write is
    not modelled.
  - The folder dialog: it is an optional folder argument.
- User interface: `SliceViewer`, the console output, bitmaps and window
  level, the overlay, mouse dragging, the status text and `UpdateInfo` are
  left out. `RotationAngle` is a field that only `SetVolume` resets.
- Paths: `Path.GetFileName` is modelled with both separators. A drive
  colon is not a separator in the model. `Path.Combine` is modelled for a
  relative name only.
- Buffers in unmanaged memory: the model copies bytes between sequences and
  never aliases them.
- `List.Sort` is not stable. The model promises a sorted permutation of the
  entries read. It does not fix the order among slices with equal Z.
- The `default` arms of the view-type switches cannot be reached with the
  three-valued view type, so they are not modelled.
- Views.OrthogonalView.SetVolume: requires a non-empty axis for the view, and for the sagittal and coronal views that every slice covers the `Columns x Rows` grid. With an empty axis the code sets a slider maximum of -1 and shows slice 0; the model does not cover what that reads. The slice-size condition is the one of Volume.GetSagittalSlice below.
- Views.OrthogonalView.ShowSlice: requires a slice index inside the view's slider range, as every caller passes, and the slice-size condition of SetVolume.
- Views.OrthogonalView.OnSliderChanged: requires the slider value within `[0, Maximum]`, as the WPF slider keeps it.
- Volume.GetSagittalSlice: requires every slice to hold at least `Columns * Rows` samples, and `x < Columns` as the slider keeps it. The code reads each slice only up to index `(Rows - 1) * Columns + x`. A slice shorter than `Columns * Rows` that still reaches that index is read without error, but the model does not cover it. A slice that does not reach it makes the code throw.
- Volume.GetCoronalSlice: requires every slice to hold at least `Columns * Rows` samples, and `y < Rows` as the slider keeps it. The code reads each slice only up to index `y * Columns + Columns - 1`. A shorter slice that still reaches that index is read without error, but the model does not cover it. A slice that does not reach it makes the code throw.
- Finalize.OnFinalizeClick: requires the volume's lists to be aligned and its DICOM objects to be pairwise different. Every loaded volume meets both, as `VolumeLoader.Assemble` and `VolumeLoader.LoadedDistinct` show.
- Script.RunScript: requires every file to be parsed into its own DICOM object, as `DICOMObject.Read` does.
