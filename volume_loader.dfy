/**
  Building a `CtVolume` from a directory of CT slice files
  (`CtVolume.LoadFromDirectory`).

  Each file has already been listed, name-sorted and parsed; what remains is
  the pure part of loading: read each slice's position and pixel data, sort
  the slices by their Z position, and assemble the aligned lists.
*/
module VolumeLoader {
  import opened Wrappers
  import opened Samples
  import opened Dicom
  import opened Volume

  /**
    One parsed `CT*.dcm` file: its path, its DICOM object, and the values the
    tag selector reads from it (Rows, Columns, Pixel Spacing and Image
    Position (Patient), multi-valued ones as lists that may be short).
  */
  datatype SliceRecord = SliceRecord(
    path: string,
    dcm: DicomObject,
    rows: nat,
    cols: nat,
    pixelSpacing: seq<real>,
    imagePosition: seq<real>)

  /** The per-file tuple `(filePath, dcm, zPos, pixels)`. */
  datatype Entry = Entry(filePath: string, dcm: DicomObject, zPos: real, pixels: seq<Int16>)

  /** Why loading throws. */
  datatype LoadError =
    | NotFound                        // no CT*.dcm file in the directory
    | MalformedPosition(path: string) // Image Position (Patient) has no Z value
    | MissingPixelData(path: string)  // no Pixel Data element
    | PixelDataTooShort(path: string) // fewer than 2 * Rows * Columns pixel bytes
    | MalformedPixelSpacing           // the last file's Pixel Spacing has fewer than two values

  /** Reads one file: its Z position and its `Rows * Columns` samples. */
  function ReadEntry(rec: SliceRecord): (r: Result<Entry, LoadError>)
    reads rec.dcm
    ensures r.Err? <==>
              |rec.imagePosition| < 3 || PixelData(rec.dcm.elements).None? ||
              |PixelData(rec.dcm.elements).value| < 2 * (rec.rows * rec.cols)
    ensures r.Err? && |rec.imagePosition| < 3 ==> r.error == MalformedPosition(rec.path)
    ensures r.Err? && |rec.imagePosition| >= 3 && PixelData(rec.dcm.elements).None? ==>
              r.error == MissingPixelData(rec.path)
    ensures r.Err? && |rec.imagePosition| >= 3 && PixelData(rec.dcm.elements).Some? ==>
              r.error == PixelDataTooShort(rec.path)
    ensures r.Ok? ==>
              r.value.filePath == rec.path && r.value.dcm == rec.dcm &&
              r.value.zPos == rec.imagePosition[2] &&
              |r.value.pixels| == rec.rows * rec.cols &&
              EncodeSlice(r.value.pixels) == PixelData(rec.dcm.elements).value[..2 * (rec.rows * rec.cols)]
  {
    if |rec.imagePosition| < 3 then
      Err(MalformedPosition(rec.path))
    else match PixelData(rec.dcm.elements)
      case None => Err(MissingPixelData(rec.path))
      case Some(bytes) =>
        var n := rec.rows * rec.cols;
        if |bytes| < 2 * n then
          Err(PixelDataTooShort(rec.path))
        else
          EncodeDecode(bytes, n);
          Ok(Entry(rec.path, rec.dcm, rec.imagePosition[2], DecodeSlice(bytes, n)))
  }

  function Dcms(records: seq<SliceRecord>): set<DicomObject> {
    set i | 0 <= i < |records| :: records[i].dcm
  }

  /**
    Reads the files in order; the first file that cannot be read aborts the
    whole load with its error.
  */
  function ReadAll(records: seq<SliceRecord>): (r: Result<seq<Entry>, LoadError>)
    reads Dcms(records)
    ensures r.Ok? ==> |r.value| == |records|
    ensures r.Ok? ==> forall i :: 0 <= i < |records| ==> ReadEntry(records[i]) == Ok(r.value[i])
  {
    if records == [] then Ok([])
    else
      var init := records[..|records| - 1];
      DcmsOfPrefix(records);
      match ReadAll(init)
      case Err(e) => Err(e)
      case Ok(es) =>
        match ReadEntry(records[|records| - 1])
        case Err(e) => Err(e)
        case Ok(entry) =>
          assert forall i :: 0 <= i < |init| ==> records[i] == init[i] && (es + [entry])[i] == es[i];
          Ok(es + [entry])
  }

  lemma DcmsOfPrefix(records: seq<SliceRecord>)
    requires records != []
    ensures Dcms(records[..|records| - 1]) <= Dcms(records)
  {
    var init := records[..|records| - 1];
    forall d | d in Dcms(init) ensures d in Dcms(records) {
      var i :| 0 <= i < |init| && init[i].dcm == d;
      assert records[i].dcm == d;
    }
  }

  /** The read loop (`foreach (string file in ctFiles)`), shared with the batch script. */
  method ReadEntries(records: seq<SliceRecord>) returns (r: Result<seq<Entry>, LoadError>)
    ensures r == ReadAll(records)
  {
    var entries: seq<Entry> := [];
    for i := 0 to |records|
      invariant |entries| == i
      invariant forall k :: 0 <= k < i ==> ReadEntry(records[k]) == Ok(entries[k])
    {
      var e := ReadEntry(records[i]);
      if e.Err? {
        ReadAllFirstError(records, i);
        return Err(e.error);
      }
      entries := entries + [e.value];
    }
    ReadAllOk(records, entries);
    r := Ok(entries);
  }

  /** Loading fails with the error of the first file that cannot be read. */
  lemma {:induction false} ReadAllFirstError(records: seq<SliceRecord>, i: nat)
    requires i < |records| && ReadEntry(records[i]).Err?
    requires forall k :: 0 <= k < i ==> ReadEntry(records[k]).Ok?
    ensures ReadAll(records) == Err(ReadEntry(records[i]).error)
  {
    var init := records[..|records| - 1];
    if i < |records| - 1 {
      assert init[i] == records[i];
      assert forall k :: 0 <= k < i ==> init[k] == records[k];
      ReadAllFirstError(init, i);
    } else {
      assert forall k :: 0 <= k < |init| ==> init[k] == records[k];
      ReadAllSucceeds(init);
    }
  }

  /** Loading reads every file when every file can be read. */
  lemma {:induction false} ReadAllSucceeds(records: seq<SliceRecord>)
    requires forall k :: 0 <= k < |records| ==> ReadEntry(records[k]).Ok?
    ensures ReadAll(records).Ok?
  {
    if records != [] {
      var init := records[..|records| - 1];
      assert forall k :: 0 <= k < |init| ==> init[k] == records[k];
      ReadAllSucceeds(init);
    }
  }

  lemma ReadAllOk(records: seq<SliceRecord>, entries: seq<Entry>)
    requires |entries| == |records|
    requires forall k :: 0 <= k < |records| ==> ReadEntry(records[k]) == Ok(entries[k])
    ensures ReadAll(records) == Ok(entries)
  {
    ReadAllSucceeds(records);
    assert ReadAll(records).value == entries;
  }

  /** Entries in non-decreasing Z order (`zPos.CompareTo` as the comparison). */
  predicate SortedByZ(es: seq<Entry>) {
    forall p, q :: 0 <= p < q < |es| ==> es[p].zPos <= es[q].zPos
  }

  /**
    `entries.Sort(...)`: the list sort is not stable, so entries with equal Z
    may come out in any order; the model promises only a sorted permutation.
  */
  method SortEntries(entries: seq<Entry>) returns (sorted: seq<Entry>)
    ensures SortedByZ(sorted) && multiset(sorted) == multiset(entries)
  {
    sorted := entries;
    for i := 0 to |sorted|
      invariant |sorted| == |entries| && multiset(sorted) == multiset(entries)
      invariant forall p, q :: 0 <= p < q < i ==> sorted[p].zPos <= sorted[q].zPos
    {
      sorted := InsertEntry(sorted, i);
    }
  }

  /** Moves entry `i` into the sorted prefix before it, after every entry not above it in Z. */
  method InsertEntry(s: seq<Entry>, i: nat) returns (sorted: seq<Entry>)
    requires i < |s|
    requires forall p, q :: 0 <= p < q < i ==> s[p].zPos <= s[q].zPos
    ensures |sorted| == |s| && multiset(sorted) == multiset(s)
    ensures forall p, q :: 0 <= p < q <= i ==> sorted[p].zPos <= sorted[q].zPos
  {
    var pos := i;
    while pos > 0 && s[pos - 1].zPos > s[i].zPos
      invariant 0 <= pos <= i
      invariant forall p :: pos <= p < i ==> s[p].zPos > s[i].zPos
    {
      pos := pos - 1;
    }
    sorted := Inserted(s, i, pos);
    InsertedPermutation(s, i, pos);
    InsertedSorted(s, i, pos);
  }

  /** `s` with entry `i` moved to position `pos <= i`. */
  function Inserted(s: seq<Entry>, i: nat, pos: nat): (t: seq<Entry>)
    requires pos <= i < |s|
    ensures |t| == |s|
    ensures forall k :: 0 <= k < pos ==> t[k] == s[k]
    ensures t[pos] == s[i]
    ensures forall k :: pos < k <= i ==> t[k] == s[k - 1]
    ensures forall k :: i < k < |s| ==> t[k] == s[k]
  {
    s[..pos] + [s[i]] + s[pos..i] + s[i + 1..]
  }

  /** Moving one entry changes the order only. */
  lemma InsertedPermutation(s: seq<Entry>, i: nat, pos: nat)
    requires pos <= i < |s|
    ensures multiset(Inserted(s, i, pos)) == multiset(s)
  {
    var front, middle, back := s[..pos], s[pos..i], s[i + 1..];
    assert s == front + middle + [s[i]] + back;
    assert Inserted(s, i, pos) == front + [s[i]] + middle + back;
  }

  /** Moving entry `i` below every larger entry of a sorted prefix keeps the prefix sorted. */
  lemma InsertedSorted(s: seq<Entry>, i: nat, pos: nat)
    requires pos <= i < |s|
    requires forall p, q :: 0 <= p < q < i ==> s[p].zPos <= s[q].zPos
    requires pos > 0 ==> s[pos - 1].zPos <= s[i].zPos
    requires forall p :: pos <= p < i ==> s[p].zPos > s[i].zPos
    ensures forall p, q :: 0 <= p < q <= i ==> Inserted(s, i, pos)[p].zPos <= Inserted(s, i, pos)[q].zPos
  {
    var t := Inserted(s, i, pos);
    forall p, q | 0 <= p < q <= i
      ensures t[p].zPos <= t[q].zPos
    {
      if q == pos {
        assert s[p].zPos <= s[pos - 1].zPos;
      }
    }
  }

  /** `entries` in Z order: a sorted permutation of what was read. */
  predicate SortedOrder(es: seq<Entry>, entries: seq<Entry>) {
    SortedByZ(es) && multiset(es) == multiset(entries)
  }

  /** `entries.Select(e => e.pixels)`. */
  function PixelsOf(es: seq<Entry>): (r: seq<seq<Int16>>)
    ensures |r| == |es| && forall i :: 0 <= i < |es| ==> r[i] == es[i].pixels
  {
    seq(|es|, i requires 0 <= i < |es| => es[i].pixels)
  }

  /** `entries.Select(e => e.dcm)`. */
  function ObjectsOf(es: seq<Entry>): (r: seq<DicomObject>)
    ensures |r| == |es| && forall i :: 0 <= i < |es| ==> r[i] == es[i].dcm
  {
    seq(|es|, i requires 0 <= i < |es| => es[i].dcm)
  }

  /** `entries.Select(e => e.filePath)`. */
  function PathsOf(es: seq<Entry>): (r: seq<string>)
    ensures |r| == |es| && forall i :: 0 <= i < |es| ==> r[i] == es[i].filePath
  {
    seq(|es|, i requires 0 <= i < |es| => es[i].filePath)
  }

  /**
    The volume built from the sorted entries. Rows, Columns and Pixel Spacing
    come from the last file read; Pixel Spacing is (row spacing, column
    spacing), so X takes the second value and Y the first.
  */
  function Assemble(es: seq<Entry>, last: SliceRecord): (v: CtVolume)
    requires |last.pixelSpacing| >= 2
    ensures SliceCount(v) == |es| && Aligned(v)
    ensures forall i :: 0 <= i < |es| ==>
              v.axialSlices[i] == es[i].pixels && v.dicomObjects[i] == es[i].dcm &&
              v.filePaths[i] == es[i].filePath
    ensures v.columns == last.cols && v.rows == last.rows
    ensures v.pixelSpacingX == last.pixelSpacing[1] && v.pixelSpacingY == last.pixelSpacing[0]
    ensures v.sliceSpacing >= 0.0
  {
    var spacing := if |es| > 1 then Abs(es[1].zPos - es[0].zPos) else 1.0;
    CtVolume(
      PixelsOf(es), ObjectsOf(es), PathsOf(es),
      last.cols, last.rows,
      last.pixelSpacing[1], last.pixelSpacing[0],
      spacing)
  }

  function Abs(x: real): (r: real)
    ensures r >= 0.0 && (r == x || r == -x)
  {
    if x < 0.0 then -x else x
  }

  /** `v` is what loading produces from the entries read when sorting puts them in the order `es`. */
  predicate LoadedAs(v: CtVolume, es: seq<Entry>, entries: seq<Entry>, last: SliceRecord) {
    |last.pixelSpacing| >= 2 && SortedOrder(es, entries) && v == Assemble(es, last)
  }

  /** Loading, with every way it can throw. */
  method LoadFromDirectory(records: seq<SliceRecord>) returns (r: Result<CtVolume, LoadError>)
    ensures records == [] ==> r == Err(NotFound)
    ensures records != [] && ReadAll(records).Err? ==> r == Err(ReadAll(records).error)
    ensures records != [] && ReadAll(records).Ok? && |records[|records| - 1].pixelSpacing| < 2 ==>
              r == Err(MalformedPixelSpacing)
    ensures r.Ok? <==>
              records != [] && ReadAll(records).Ok? && |records[|records| - 1].pixelSpacing| >= 2
    ensures r.Ok? ==> var entries, last := ReadAll(records).value, records[|records| - 1];
              exists es :: LoadedAs(r.value, es, entries, last)
  {
    if records == [] {
      return Err(NotFound);
    }
    var read := ReadEntries(records);
    if read.Err? {
      return Err(read.error);
    }
    assert ReadAll(records) == read;
    assert forall d :: d in Dcms(records) ==> allocated(d);
    var sorted := SortEntries(read.value);
    assert ReadAll(records) == read;
    var last := records[|records| - 1];
    if |last.pixelSpacing| < 2 {
      return Err(MalformedPixelSpacing);
    }
    r := Ok(Assemble(sorted, last));
    assert LoadedAs(r.value, sorted, read.value, last);
  }

  /** Every entry of the sorted list is what one of the files read gives. */
  lemma SortedEntryFromRecord(records: seq<SliceRecord>, es: seq<Entry>, k: nat)
    requires ReadAll(records).Ok? && SortedOrder(es, ReadAll(records).value)
    requires k < |es|
    ensures |es| == |records|
    ensures exists j :: 0 <= j < |records| && ReadEntry(records[j]) == Ok(es[k])
  {
    var entries := ReadAll(records).value;
    assert |es| == |entries| by {
      assert |multiset(es)| == |multiset(entries)|;
    }
    assert es[k] in multiset(entries) by {
      assert es[k] in multiset(es);
    }
    var j :| 0 <= j < |entries| && entries[j] == es[k];
  }

  /**
    Every slice of a loaded volume comes, with its path and its DICOM object,
    from one file, and its samples are that file's pixel bytes.
  */
  lemma LoadedSliceFromRecord(records: seq<SliceRecord>, v: CtVolume, i: nat)
    requires records != [] && ReadAll(records).Ok?
    requires |records[|records| - 1].pixelSpacing| >= 2
    requires var entries, last := ReadAll(records).value, records[|records| - 1];
             exists es :: LoadedAs(v, es, entries, last)
    requires i < SliceCount(v)
    ensures SliceCount(v) == |records| && Aligned(v)
    ensures exists j :: 0 <= j < |records| &&
              v.filePaths[i] == records[j].path && v.dicomObjects[i] == records[j].dcm &&
              PixelData(records[j].dcm.elements).Some? &&
              EncodeSlice(v.axialSlices[i]) ==
                PixelData(records[j].dcm.elements).value[..2 * (records[j].rows * records[j].cols)]
  {
    var entries := ReadAll(records).value;
    var es :| LoadedAs(v, es, entries, records[|records| - 1]);
    SortedEntryFromRecord(records, es, i);
  }

  /** When every file has the last file's dimensions, every slice has `Columns * Rows` samples. */
  lemma LoadedUniform(records: seq<SliceRecord>, v: CtVolume)
    requires records != [] && ReadAll(records).Ok?
    requires |records[|records| - 1].pixelSpacing| >= 2
    requires var entries, last := ReadAll(records).value, records[|records| - 1];
             exists es :: LoadedAs(v, es, entries, last)
    requires forall j :: 0 <= j < |records| ==>
               records[j].rows == records[|records| - 1].rows && records[j].cols == records[|records| - 1].cols
    ensures Uniform(v)
  {
    forall i | 0 <= i < SliceCount(v)
      ensures |v.axialSlices[i]| == v.columns * v.rows
    {
      LoadedSliceFromRecord(records, v, i);
      var j :| 0 <= j < |records| && v.filePaths[i] == records[j].path && v.dicomObjects[i] == records[j].dcm &&
               PixelData(records[j].dcm.elements).Some? &&
               EncodeSlice(v.axialSlices[i]) ==
                 PixelData(records[j].dcm.elements).value[..2 * (records[j].rows * records[j].cols)];
      assert 2 * |v.axialSlices[i]| == 2 * (records[j].rows * records[j].cols);
    }
  }

  /**
    When no file has fewer samples than the last one, every slice can be read
    on the last file's `Columns x Rows` grid.
  */
  lemma LoadedFilled(records: seq<SliceRecord>, v: CtVolume)
    requires records != [] && ReadAll(records).Ok?
    requires |records[|records| - 1].pixelSpacing| >= 2
    requires var entries, last := ReadAll(records).value, records[|records| - 1];
             exists es :: LoadedAs(v, es, entries, last)
    requires forall j :: 0 <= j < |records| ==>
               records[j].rows * records[j].cols >= records[|records| - 1].rows * records[|records| - 1].cols
    ensures Filled(v)
  {
    forall i | 0 <= i < SliceCount(v)
      ensures |v.axialSlices[i]| >= v.columns * v.rows
    {
      LoadedSliceFromRecord(records, v, i);
      var j :| 0 <= j < |records| && v.filePaths[i] == records[j].path && v.dicomObjects[i] == records[j].dcm &&
               PixelData(records[j].dcm.elements).Some? &&
               EncodeSlice(v.axialSlices[i]) ==
                 PixelData(records[j].dcm.elements).value[..2 * (records[j].rows * records[j].cols)];
      assert 2 * |v.axialSlices[i]| == 2 * (records[j].rows * records[j].cols);
    }
  }

  /**
    In a sorted stack the slice spacing is the gap between the two lowest
    slices, and the first slice is the lowest of all.
  */
  lemma SortedSpacing(es: seq<Entry>, entries: seq<Entry>, last: SliceRecord)
    requires SortedOrder(es, entries) && |last.pixelSpacing| >= 2
    ensures |es| > 1 ==> Assemble(es, last).sliceSpacing == es[1].zPos - es[0].zPos
    ensures |es| <= 1 ==> Assemble(es, last).sliceSpacing == 1.0
    ensures forall j :: 0 <= j < |entries| ==> es[0].zPos <= entries[j].zPos
  {
    forall j | 0 <= j < |entries|
      ensures es[0].zPos <= entries[j].zPos
    {
      assert entries[j] in multiset(es) by {
        assert entries[j] in multiset(entries);
      }
      var k :| 0 <= k < |es| && es[k] == entries[j];
    }
  }

  /** An element at two positions is counted twice. */
  lemma CountTwice(s: seq<Entry>, i: nat, j: nat)
    requires i < j < |s| && s[i] == s[j]
    ensures multiset(s)[s[i]] >= 2
  {
    assert s == s[..j] + [s[j]] + s[j + 1..];
    assert s[i] in multiset(s[..j]) by {
      assert s[..j][i] == s[i];
    }
  }

  /** In a sequence of pairwise different objects' entries, every entry is counted at most once. */
  lemma {:induction false} CountOnce(s: seq<Entry>, x: Entry)
    requires DistinctObjects(ObjectsOf(s))
    ensures multiset(s)[x] <= 1
  {
    if s != [] {
      var rest := s[1..];
      assert s == [s[0]] + rest;
      assert DistinctObjects(ObjectsOf(rest)) by {
        forall i, j | 0 <= i < j < |rest| ensures ObjectsOf(rest)[i] != ObjectsOf(rest)[j] {
          assert ObjectsOf(s)[i + 1] != ObjectsOf(s)[j + 1];
        }
      }
      CountOnce(rest, x);
      if x == s[0] {
        assert x !in multiset(rest) by {
          forall k | 0 <= k < |rest| ensures rest[k] != x {
            assert ObjectsOf(s)[0] != ObjectsOf(s)[k + 1];
          }
        }
      }
    }
  }

  /** Sorting neither duplicates nor merges DICOM objects. */
  lemma SortedObjectsDistinct(es: seq<Entry>, entries: seq<Entry>)
    requires multiset(es) == multiset(entries) && DistinctObjects(ObjectsOf(entries))
    ensures DistinctObjects(ObjectsOf(es))
  {
    forall p, q | 0 <= p < q < |es|
      ensures ObjectsOf(es)[p] != ObjectsOf(es)[q]
    {
      if es[p].dcm == es[q].dcm {
        assert es[p] in multiset(entries) && es[q] in multiset(entries) by {
          assert es[p] in multiset(es) && es[q] in multiset(es);
        }
        var a :| 0 <= a < |entries| && entries[a] == es[p];
        var b :| 0 <= b < |entries| && entries[b] == es[q];
        if a != b {
          assert false;
        }
        CountTwice(es, p, q);
        CountOnce(entries, es[p]);
      }
    }
  }

  /** Each file is parsed into its own DICOM object. */
  predicate DistinctFiles(records: seq<SliceRecord>) {
    forall i, j :: 0 <= i < j < |records| ==> records[i].dcm != records[j].dcm
  }

  /** A loaded volume has one DICOM object per slice, never shared between slices. */
  lemma LoadedDistinct(records: seq<SliceRecord>, es: seq<Entry>)
    requires DistinctFiles(records) && ReadAll(records).Ok?
    requires SortedOrder(es, ReadAll(records).value)
    ensures DistinctObjects(ObjectsOf(es))
  {
    var entries := ReadAll(records).value;
    forall i, j | 0 <= i < j < |entries|
      ensures ObjectsOf(entries)[i] != ObjectsOf(entries)[j]
    {
      assert ReadEntry(records[i]) == Ok(entries[i]) && ReadEntry(records[j]) == Ok(entries[j]);
    }
    SortedObjectsDistinct(es, entries);
  }
}
