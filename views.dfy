/**
  One of the three orthogonal views of the main window (`OrthogonalViewControl`):
  a slider over the slices along the view's axis, the slice image currently
  shown with its pixel size and spacing, and the rotation angle chosen for
  this view.
*/
module Views {
  import opened Wrappers
  import opened Samples
  import opened Volume

  datatype ViewType = Axial | Sagittal | Coronal

  /** The volume's axes: X along a row (columns), Y down the rows, Z across the slices. */
  datatype Axis = X | Y | Z

  function AxisLength(v: CtVolume, a: Axis): nat {
    match a
    case X => v.columns
    case Y => v.rows
    case Z => SliceCount(v)
  }

  function AxisSpacing(v: CtVolume, a: Axis): real {
    match a
    case X => v.pixelSpacingX
    case Y => v.pixelSpacingY
    case Z => v.sliceSpacing
  }

  /** The axis a view slices across, and the axes of its image's width and height. */
  function NormalAxis(t: ViewType): Axis {
    match t
    case Axial => Z
    case Sagittal => X
    case Coronal => Y
  }

  function WidthAxis(t: ViewType): Axis {
    match t
    case Axial => X
    case Sagittal => Y
    case Coronal => X
  }

  function HeightAxis(t: ViewType): Axis {
    match t
    case Axial => Y
    case Sagittal => Z
    case Coronal => Z
  }

  /** The slider maximum chosen when a volume is set: the last index along the view's axis. */
  function MaxSlice(v: CtVolume, t: ViewType): int {
    match t
    case Axial => SliceCount(v) - 1
    case Sagittal => v.columns - 1
    case Coronal => v.rows - 1
  }

  /** C# integer division by two, which truncates toward zero. */
  function Half(m: int): (q: int)
    ensures m >= 0 ==> 0 <= q && 2 * q <= m < 2 * q + 2
    ensures m < 0 ==> q <= 0 && 2 * q - 2 < m <= 2 * q
  {
    if m >= 0 then m / 2 else -((-m) / 2)
  }

  /** The slider position chosen when a volume is set: the middle slice. */
  function InitialIndex(v: CtVolume, t: ViewType): int {
    Half(MaxSlice(v, t))
  }

  /** The middle slice is a valid slider position whenever the view's axis is not empty. */
  lemma InitialIndexInRange(v: CtVolume, t: ViewType)
    requires AxisLength(v, NormalAxis(t)) > 0
    ensures 0 <= InitialIndex(v, t) <= MaxSlice(v, t)
    ensures MaxSlice(v, t) - InitialIndex(v, t) - InitialIndex(v, t) <= 1
  {
  }

  /**
    The image shown for one slice: its samples, its width and height in
    pixels and the spacing in millimetres along each.
  */
  datatype SliceGeometry = SliceGeometry(width: nat, height: nat, widthSpacing: real, heightSpacing: real)

  /** The per-view choice of width, height and spacing pair. */
  function Geometry(v: CtVolume, t: ViewType): SliceGeometry {
    match t
    case Axial => SliceGeometry(v.columns, v.rows, v.pixelSpacingX, v.pixelSpacingY)
    case Sagittal => SliceGeometry(v.rows, SliceCount(v), v.pixelSpacingY, v.sliceSpacing)
    case Coronal => SliceGeometry(v.columns, SliceCount(v), v.pixelSpacingX, v.sliceSpacing)
  }

  /**
    Each view shows the plane of the two axes other than the one its slider
    moves along, with the pixel count and the spacing of each image side
    taken from the same axis.
  */
  lemma GeometryFollowsAxes(v: CtVolume, t: ViewType)
    ensures NormalAxis(t) != WidthAxis(t) && NormalAxis(t) != HeightAxis(t) && WidthAxis(t) != HeightAxis(t)
    ensures MaxSlice(v, t) == AxisLength(v, NormalAxis(t)) - 1
    ensures Geometry(v, t).width == AxisLength(v, WidthAxis(t))
    ensures Geometry(v, t).height == AxisLength(v, HeightAxis(t))
    ensures Geometry(v, t).widthSpacing == AxisSpacing(v, WidthAxis(t))
    ensures Geometry(v, t).heightSpacing == AxisSpacing(v, HeightAxis(t))
  {
  }

  /**
    The volumes a view can slice: the axial view returns a stored slice as
    it is, the other two read `(x, y)` of the `Columns x Rows` grid from every
    slice.
  */
  predicate Sliceable(v: CtVolume, t: ViewType) {
    t == Axial || Filled(v)
  }

  /**
    The samples of slice `index` of a view. Any slider position of the view
    is a valid index for its slicer. A sagittal or coronal slice has exactly
    `width * height` samples, and so does an axial one when the slices are
    uniform.
  */
  function SliceFor(v: CtVolume, t: ViewType, index: int): (pixels: seq<Int16>)
    requires Sliceable(v, t) && 0 <= index <= MaxSlice(v, t)
    ensures t != Axial || Uniform(v) ==> |pixels| == Geometry(v, t).width * Geometry(v, t).height
    ensures t == Axial ==> pixels == v.axialSlices[index]
  {
    match t
    case Axial => GetAxialSlice(v, index)
    case Sagittal => Volume.Sagittal(v, index)
    case Coronal => Volume.Coronal(v, index)
  }

  class OrthogonalView {
    var viewType: ViewType
    var title: string
    var volume: Option<CtVolume>
    var rotationAngle: real
    var sliderMaximum: int
    var sliderValue: real
    /** The samples of the slice image on display. */
    var shown: seq<Int16>
    var sliceWidthPixels: int
    var sliceHeightPixels: int
    var sliceWidthSpacingMm: real
    var sliceHeightSpacingMm: real

    /** The slider state and the image on display agree with the volume. */
    predicate Valid()
      reads this
    {
      volume.Some? ==>
        var v := volume.value;
        Sliceable(v, viewType) && sliderMaximum == MaxSlice(v, viewType) &&
        0.0 <= sliderValue <= sliderMaximum as real &&
        sliderValue.Floor <= sliderMaximum &&
        shown == SliceFor(v, viewType, sliderValue.Floor) &&
        Shows(Geometry(v, viewType))
    }

    predicate Shows(g: SliceGeometry)
      reads this
    {
      sliceWidthPixels == g.width && sliceHeightPixels == g.height &&
      sliceWidthSpacingMm == g.widthSpacing && sliceHeightSpacingMm == g.heightSpacing
    }

    constructor()
      ensures volume.None? && rotationAngle == 0.0 && shown == []
      ensures Valid()
    {
      viewType := Axial;
      title := "";
      volume := None;
      rotationAngle := 0.0;
      sliderMaximum := 10;
      sliderValue := 0.0;
      shown := [];
      sliceWidthPixels, sliceHeightPixels := 0, 0;
      sliceWidthSpacingMm, sliceHeightSpacingMm := 0.0, 0.0;
    }

    /** Chooses which plane this view shows. */
    method Initialize(t: ViewType, name: string)
      modifies this
      ensures viewType == t && title == name
      ensures volume == old(volume) && rotationAngle == old(rotationAngle) && shown == old(shown)
      ensures sliderMaximum == old(sliderMaximum) && sliderValue == old(sliderValue)
      ensures sliceWidthPixels == old(sliceWidthPixels) && sliceHeightPixels == old(sliceHeightPixels)
      ensures sliceWidthSpacingMm == old(sliceWidthSpacingMm) && sliceHeightSpacingMm == old(sliceHeightSpacingMm)
      ensures old(volume).None? ==> Valid()
    {
      viewType := t;
      title := name;
    }

    /**
      Shows a new volume: the angle is reset, the slider spans the view's
      axis and sits on the middle slice, and that slice is shown.
    */
    method SetVolume(v: CtVolume)
      requires Sliceable(v, viewType) && AxisLength(v, NormalAxis(viewType)) > 0
      modifies this
      ensures volume == Some(v) && rotationAngle == 0.0
      ensures viewType == old(viewType) && title == old(title)
      ensures sliderMaximum == MaxSlice(v, viewType) && sliderValue == InitialIndex(v, viewType) as real
      ensures shown == SliceFor(v, viewType, InitialIndex(v, viewType))
      ensures Shows(Geometry(v, viewType))
      ensures Valid()
    {
      volume := Some(v);
      rotationAngle := 0.0;
      var maxSlice := match viewType
        case Axial => SliceCount(v) - 1
        case Sagittal => v.columns - 1
        case Coronal => v.rows - 1;
      sliderMaximum := maxSlice;
      InitialIndexInRange(v, viewType);
      sliderValue := Half(maxSlice) as real;
      ShowSlice(sliderValue.Floor);
    }

    /** Draws slice `index` of the current volume; without a volume nothing happens. */
    method ShowSlice(index: int)
      requires volume.Some? ==> Sliceable(volume.value, viewType) && 0 <= index <= MaxSlice(volume.value, viewType)
      modifies this
      ensures volume == old(volume) && viewType == old(viewType) && title == old(title)
      ensures rotationAngle == old(rotationAngle)
      ensures sliderMaximum == old(sliderMaximum) && sliderValue == old(sliderValue)
      ensures volume.None? ==> unchanged(this)
      ensures volume.Some? ==>
                shown == SliceFor(volume.value, viewType, index) &&
                Shows(Geometry(volume.value, viewType))
    {
      if volume.None? {
        return;
      }
      var v := volume.value;
      var pixels: seq<Int16>;
      var width: nat, height: nat;
      var widthSpacing: real, heightSpacing: real;
      match viewType {
        case Axial =>
          pixels := GetAxialSlice(v, index);
          assert pixels == SliceFor(v, viewType, index);
          width, height := v.columns, v.rows;
          widthSpacing, heightSpacing := v.pixelSpacingX, v.pixelSpacingY;
        case Sagittal =>
          pixels := GetSagittalSlice(v, index);
          assert pixels == SliceFor(v, viewType, index);
          width, height := v.rows, SliceCount(v);
          widthSpacing, heightSpacing := v.pixelSpacingY, v.sliceSpacing;
        case Coronal =>
          pixels := GetCoronalSlice(v, index);
          assert pixels == SliceFor(v, viewType, index);
          width, height := v.columns, SliceCount(v);
          widthSpacing, heightSpacing := v.pixelSpacingX, v.sliceSpacing;
      }
      shown := pixels;
      sliceWidthPixels, sliceHeightPixels := width, height;
      sliceWidthSpacingMm, sliceHeightSpacingMm := widthSpacing, heightSpacing;
    }

    /**
      The slider moved to `value` (kept within `[0, Maximum]` by the slider);
      the slider holds the new value whether or not a volume is loaded, and
      with a volume the slice at its truncated position is shown.
    */
    method OnSliderChanged(value: real)
      requires Valid()
      requires volume.Some? ==> 0.0 <= value <= sliderMaximum as real
      modifies this
      ensures volume == old(volume) && viewType == old(viewType) && title == old(title)
      ensures rotationAngle == old(rotationAngle) && sliderMaximum == old(sliderMaximum) && sliderValue == value
      ensures volume.Some? ==> shown == SliceFor(volume.value, viewType, value.Floor)
      ensures volume.None? ==>
                shown == old(shown) &&
                sliceWidthPixels == old(sliceWidthPixels) && sliceHeightPixels == old(sliceHeightPixels) &&
                sliceWidthSpacingMm == old(sliceWidthSpacingMm) && sliceHeightSpacingMm == old(sliceHeightSpacingMm)
      ensures Valid()
    {
      sliderValue := value;
      if volume.None? {
        return;
      }
      FloorInRange(value, sliderMaximum);
      ShowSlice(sliderValue.Floor);
    }
  }

  /** Truncating a slider position in `[0, m]` gives an index in `[0, m]`. */
  lemma FloorInRange(value: real, m: int)
    requires 0.0 <= value <= m as real
    ensures 0 <= value.Floor <= m
  {
  }
}
