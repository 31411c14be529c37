/**
  Output naming and the record of one written slice file, shared by the
  interactive finalize step and the command-line script.
*/
module SliceWriter {
  import opened Wrappers
  import opened Samples
  import opened Dicom

  /** Directory separators on the Windows target ('\\' and the alternate '/'). */
  predicate IsSeparator(c: char) {
    c == '\\' || c == '/'
  }

  predicate NoSeparator(s: string) {
    forall i :: 0 <= i < |s| ==> !IsSeparator(s[i])
  }

  /** `Path.GetFileName`: the longest suffix of `path` without a directory separator. */
  function FileName(path: string): (name: string)
    ensures |name| <= |path| && name == path[|path| - |name|..]
    ensures NoSeparator(name)
    ensures |name| < |path| ==> IsSeparator(path[|path| - |name| - 1])
  {
    if path == [] then []
    else if IsSeparator(path[|path| - 1]) then []
    else FileName(path[..|path| - 1]) + [path[|path| - 1]]
  }

  /** `StartsWith("CT.", StringComparison.OrdinalIgnoreCase)`. */
  predicate HasCtPrefix(name: string) {
    |name| >= 3 && name[0] in "Cc" && name[1] in "Tt" && name[2] == '.'
  }

  const RotatedPrefix: string := "CT.ROT."

  /** The output file name of a slice: its "CT." prefix becomes "CT.ROT.", or "CT.ROT." is prepended. */
  function OutputFileName(name: string): (out: string)
    ensures |out| >= |RotatedPrefix| && out[..|RotatedPrefix|] == RotatedPrefix
    ensures HasCtPrefix(name) ==> out[|RotatedPrefix|..] == name[3..]
    ensures !HasCtPrefix(name) ==> out[|RotatedPrefix|..] == name
  {
    if HasCtPrefix(name) then RotatedPrefix + name[3..] else RotatedPrefix + name
  }

  lemma OutputFileNameExamples()
    ensures OutputFileName("CT.1.2.3.dcm") == "CT.ROT.1.2.3.dcm"
    ensures OutputFileName("ct.1.dcm") == "CT.ROT.1.dcm"
    ensures OutputFileName("scan.dcm") == "CT.ROT.scan.dcm"
  {
  }

  /** Two different inputs can be given the same output name. */
  lemma OutputFileNameNotInjective()
    ensures OutputFileName("CT.CTa.dcm") == OutputFileName("CTa.dcm")
  {
  }

  /** Output names keep the "CT." prefix, so they match the loader's "CT*.dcm" pattern again. */
  lemma OutputFileNameIsCtName(name: string)
    ensures HasCtPrefix(OutputFileName(name))
  {
  }

  /** `Path.Combine(folder, name)` for a relative `name`. */
  function Combine(folder: string, name: string): string {
    if folder == [] then name
    else if IsSeparator(folder[|folder| - 1]) then folder + name
    else folder + "\\" + name
  }

  lemma FileNameAfterSeparator(prefix: string, name: string)
    requires prefix == [] || IsSeparator(prefix[|prefix| - 1])
    requires NoSeparator(name)
    ensures FileName(prefix + name) == name
  {
    var path := prefix + name;
    var r := FileName(path);
    // no separator after `prefix`, so the name does not stop inside `name` ...
    forall k | |prefix| <= k < |path|
      ensures !IsSeparator(path[k])
    {
      assert path[k] == name[k - |prefix|];
    }
    // ... and none inside the name, so it does not reach back into `prefix`
    var start := |path| - |r|;
    assert r == path[start..];
    forall k | start <= k < |path|
      ensures !IsSeparator(path[k])
    {
      assert path[k] == path[start..][k - start];
    }
    assert prefix != [] ==> path[|prefix| - 1] == prefix[|prefix| - 1];
    assert |r| == |name|;
    assert r == path[|prefix|..];
  }

  /** The file written for a source path: `Path.Combine(folder, outFileName)`. */
  function OutputPath(folder: string, sourcePath: string): string {
    Combine(folder, OutputFileName(FileName(sourcePath)))
  }

  lemma NoSeparatorConcat(s: string, t: string)
    requires NoSeparator(s) && NoSeparator(t)
    ensures NoSeparator(s + t)
  {
    forall i | 0 <= i < |s + t|
      ensures !IsSeparator((s + t)[i])
    {
      if i >= |s| {
        assert (s + t)[i] == t[i - |s|];
      }
    }
  }

  lemma OutputFileNameNoSeparator(name: string)
    requires NoSeparator(name)
    ensures NoSeparator(OutputFileName(name))
  {
    assert NoSeparator(RotatedPrefix);
    if HasCtPrefix(name) {
      NoSeparatorConcat(RotatedPrefix, name[3..]);
    } else {
      NoSeparatorConcat(RotatedPrefix, name);
    }
  }

  /** The written file's own name is the name derived from the source file's name. */
  lemma OutputPathName(folder: string, sourcePath: string)
    ensures FileName(OutputPath(folder, sourcePath)) == OutputFileName(FileName(sourcePath))
  {
    var name := OutputFileName(FileName(sourcePath));
    OutputFileNameNoSeparator(FileName(sourcePath));
    if folder == [] {
      FileNameAfterSeparator([], name);
      assert [] + name == name;
    } else if IsSeparator(folder[|folder| - 1]) {
      FileNameAfterSeparator(folder, name);
    } else {
      var prefix := folder + "\\";
      assert IsSeparator(prefix[|prefix| - 1]);
      FileNameAfterSeparator(prefix, name);
    }
  }

  /** `dcm.Write(path)`: the file written and the element list it was written with. */
  datatype WrittenFile = WrittenFile(path: string, elements: seq<Element>)

  /**
    Replaces the pixel data of object `i` of `dcms` and writes it to
    `outPath`; an object without a Pixel Data element makes the replacement
    throw before anything is written. The other objects are left alone.
  */
  method WriteSliceAt(dcms: seq<DicomObject>, i: nat, bytes: seq<Byte>, outPath: string)
    returns (file: Option<WrittenFile>)
    requires i < |dcms| && DistinctObjects(dcms)
    modifies dcms[i]
    ensures file.Some? <==> HasPixelData(old(dcms[i].elements))
    ensures file.Some? ==>
              file.value == WrittenFile(outPath, ReplacePixelData(old(dcms[i].elements), bytes)) &&
              dcms[i].elements == file.value.elements
    ensures file.None? ==> dcms[i].elements == old(dcms[i].elements)
    ensures forall k :: 0 <= k < |dcms| && k != i ==> dcms[k].elements == old(dcms[k].elements)
  {
    var ok := dcms[i].SetPixelData(bytes);
    if !ok {
      return None;
    }
    file := Some(WrittenFile(outPath, dcms[i].elements));
  }
}
