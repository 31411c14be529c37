/**
  The per-slice DICOM object, reduced to what the core touches: an ordered
  list of elements, of which only the first Pixel Data element is ever read
  or replaced. Every other element is carried along untouched.
*/
module Dicom {
  import opened Wrappers
  import opened Samples

  /** A DICOM tag as its 32-bit (group, element) number. */
  type Tag = nat

  /** Pixel Data, (7FE0,0010). */
  const PixelDataTag: Tag := 0x7FE0_0010

  /** One element with its raw value bytes. */
  datatype Element = Element(tag: Tag, data: seq<Byte>)

  /** `Elements.First(e => e.Tag == tag)`: the position of the first element with `tag`, if any. */
  function FindFirst(es: seq<Element>, tag: Tag): (r: Option<nat>)
    ensures r.Some? ==> r.value < |es| && es[r.value].tag == tag
    ensures r.Some? ==> forall i :: 0 <= i < r.value ==> es[i].tag != tag
    ensures r.None? ==> forall i :: 0 <= i < |es| ==> es[i].tag != tag
  {
    if es == [] then None
    else if es[0].tag == tag then Some(0)
    else match FindFirst(es[1..], tag)
      case None => None
      case Some(i) => Some(i + 1)
  }

  predicate HasPixelData(es: seq<Element>) {
    FindFirst(es, PixelDataTag).Some?
  }

  /** The bytes of the first Pixel Data element. */
  function PixelData(es: seq<Element>): (r: Option<seq<Byte>>)
    ensures r.Some? <==> HasPixelData(es)
  {
    match FindFirst(es, PixelDataTag)
    case None => None
    case Some(i) => Some(es[i].data)
  }

  /** The element list after `First(el => el.Tag == PixelData).DData_ = bytes`. */
  function ReplacePixelData(es: seq<Element>, bytes: seq<Byte>): (r: seq<Element>)
    requires HasPixelData(es)
    ensures |r| == |es|
  {
    es[FindFirst(es, PixelDataTag).value := Element(PixelDataTag, bytes)]
  }

  /**
    Replacing the pixel content is seen by the next read of it, and every
    other element keeps its position and value.
  */
  lemma ReplacePixelDataOnly(es: seq<Element>, bytes: seq<Byte>)
    requires HasPixelData(es)
    ensures PixelData(ReplacePixelData(es, bytes)) == Some(bytes)
    ensures forall i :: 0 <= i < |es| && i != FindFirst(es, PixelDataTag).value ==>
              ReplacePixelData(es, bytes)[i] == es[i]
  {
    var r := ReplacePixelData(es, bytes);
    var k := FindFirst(es, PixelDataTag).value;
    var j := FindFirst(r, PixelDataTag);
    assert r[k].tag == PixelDataTag;
    assert j.Some?;
    assert j.value == k;
  }

  /** No DICOM object appears twice (every file is read into a fresh one). */
  predicate DistinctObjects(objs: seq<DicomObject>) {
    forall i, j :: 0 <= i < j < |objs| ==> objs[i] != objs[j]
  }

  /** The element lists of a sequence of objects, as they are in the current state. */
  function ElementsOf(objs: seq<DicomObject>): (r: seq<seq<Element>>)
    reads set k | 0 <= k < |objs| :: objs[k]
    ensures |r| == |objs| && forall k :: 0 <= k < |objs| ==> r[k] == objs[k].elements
  {
    seq(|objs|, k requires 0 <= k < |objs| reads objs => objs[k].elements)
  }

  /** A parsed DICOM file (EvilDICOM's `DICOMObject`); its element list is updated in place. */
  class DicomObject {
    var elements: seq<Element>

    /**
      `Elements.First(el => el.Tag == TagHelper.PixelData).DData_ = bytes`.
      Without a Pixel Data element the call throws and changes nothing, which
      is reported as `ok == false`.
    */
    method SetPixelData(bytes: seq<Byte>) returns (ok: bool)
      modifies this
      ensures ok == HasPixelData(old(elements))
      ensures elements == if ok then ReplacePixelData(old(elements), bytes) else old(elements)
    {
      var i := FindFirst(elements, PixelDataTag);
      if i.Some? {
        elements := elements[i.value := Element(PixelDataTag, bytes)];
        ok := true;
      } else {
        ok := false;
      }
    }
  }
}
