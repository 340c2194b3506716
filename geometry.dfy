/** `initialize_output`: the size, spacing and origin of the output volume,
    its mask and the 2D reference canvas, and the zero-filled images. */
module Geometry {
  import opened Wrappers
  import opened Errors
  import opened Rounding
  import opened Sorting
  import opened Records
  import opened SectionInfo
  import opened ReadJson

  /** An unsigned 8-bit voxel. */
  type Byte = b: int | 0 <= b < 256

  datatype Triple = Triple(x: real, y: real, z: real)

  /** Size, spacing and origin shared by the volume and the mask. */
  datatype Volume = Volume(xsize: nat, ysize: nat, zsize: nat, spacing: Triple, origin: Triple)

  /** The 2D reference image the sections are resampled onto. */
  datatype Canvas = Canvas(xsize: nat, ysize: nat, spacingX: real, spacingY: real, originX: real, originY: real)

  datatype Layout = Layout(volume: Volume, canvas: Canvas)

  /** `standard_size` of the atlas for the dataset's age and plane, as stored
      in the atlas metadata. */
  datatype StandardSize = StandardSize(width: real, height: real)

  /** `pow(2, d)` for a non-negative downsample factor. */
  function Pow2(d: nat): (r: nat)
    ensures r >= 1
  {
    if d == 0 then 1 else 2 * Pow2(d - 1)
  }

  /** `min_resolution * pow(2, d)`: the in-plane voxel size. */
  function InPlaneSpacing(d: Dataset, factor: nat): real {
    d.minResolution * Pow2(factor) as real
  }

  /** `int(round(extent / spacing, 0))` */
  function Extent(length: real, spacing: real): int
    requires spacing != 0.0
  {
    RoundHalfEven(length / spacing)
  }

  /** `int(round(span / gap + 1, 0))`: the number of slices. */
  function SliceCount(span: int, gap: int): int
    requires gap != 0
  {
    RoundHalfEven(span as real / gap as real + 1.0)
  }

  /** All three sizes can be given to the image constructor. */
  predicate SizesFit(d: Dataset, size: StandardSize, factor: nat)
    requires InPlaneSpacing(d, factor) != 0.0 && d.minSectionGap != 0
  {
    var xyres := InPlaneSpacing(d, factor);
    Extent(size.width, xyres) >= 0 && Extent(size.height, xyres) >= 0 && SliceCount(d.sectionSpan, d.minSectionGap) >= 0
  }

  /** The geometry `initialize_output` computes, failing where the source
      raises, in the order it raises: a zero in-plane spacing (division at the
      width), a zero gap (division in the slice count), a negative size (the
      image constructor) and a zero slice spacing (the image library refuses a
      singular index-to-physical matrix). */
  function OutputLayout(d: Dataset, size: StandardSize, factor: nat): (r: Result<Layout, Error>)
    ensures InPlaneSpacing(d, factor) == 0.0 ==> r == Failure(ZeroResolution)
    ensures InPlaneSpacing(d, factor) != 0.0 && d.minSectionGap == 0 ==> r == Failure(ZeroGap)
    ensures InPlaneSpacing(d, factor) != 0.0 && d.minSectionGap != 0 ==>
      && (!SizesFit(d, size, factor) ==> r == Failure(NegativeSize))
      && (SizesFit(d, size, factor) && d.sectionSpacing == 0.0 ==> r == Failure(ZeroSpacing))
      && (SizesFit(d, size, factor) && d.sectionSpacing != 0.0 ==> r.Success?)
    ensures r.Success? ==>
      var v, c, xyres := r.value.volume, r.value.canvas, InPlaneSpacing(d, factor);
      && v.xsize == Extent(size.width, xyres) && v.ysize == Extent(size.height, xyres)
      && v.zsize == SliceCount(d.sectionSpan, d.minSectionGap)
      && v.spacing == Triple(xyres, xyres, d.sectionSpacing)
      && v.origin == Triple(0.0, 0.0, d.sectionOrigin)
      && c.xsize == v.xsize && c.ysize == v.ysize
      && c.spacingX == v.spacing.x && c.spacingY == v.spacing.y
      && c.originX == c.spacingX && c.originY == c.spacingY
  {
    var xyres := InPlaneSpacing(d, factor);
    var zres := d.sectionSpacing;
    if xyres == 0.0 then Failure(ZeroResolution)
    else
      var xsize := Extent(size.width, xyres);
      var ysize := Extent(size.height, xyres);
      if d.minSectionGap == 0 then Failure(ZeroGap)
      else
        var zsize := SliceCount(d.sectionSpan, d.minSectionGap);
        if xsize < 0 || ysize < 0 || zsize < 0 then Failure(NegativeSize)
        else if zres == 0.0 then Failure(ZeroSpacing)
        else
          Success(Layout(
            Volume(xsize, ysize, zsize, Triple(xyres, xyres, zres), Triple(0.0, 0.0, d.sectionOrigin)),
            Canvas(xsize, ysize, xyres, xyres, xyres, xyres)))
  }

  /** The number of slices when the span is a whole number of gaps: one
      slice per gap step plus the first. */
  lemma SliceCountOnGrid(span: int, gap: int)
    requires gap > 0 && span >= 0 && span % gap == 0
    ensures SliceCount(span, gap) == span / gap + 1
  {
    ExactQuotient(span, gap);
    RoundIntegral(span / gap + 1);
  }

  /** Division by a divisor is exact over the reals. */
  lemma ExactQuotient(a: int, gap: int)
    requires gap > 0 && a % gap == 0
    ensures a as real / gap as real == (a / gap) as real
  {
    var q := a / gap;
    assert a == q * gap;
    assert a as real == q as real * gap as real;
  }

  /** The in-plane spacing is zero exactly when the resolution is, and has its sign. */
  lemma InPlaneSpacingSign(d: Dataset, factor: nat)
    ensures InPlaneSpacing(d, factor) == 0.0 <==> d.minResolution == 0.0
    ensures InPlaneSpacing(d, factor) > 0.0 <==> d.minResolution > 0.0
  {
    var p := Pow2(factor) as real;
    assert p >= 1.0;
    if d.minResolution > 0.0 {
      assert d.minResolution * p >= d.minResolution;
    } else if d.minResolution < 0.0 {
      assert d.minResolution * p <= d.minResolution;
    }
  }

  /** A dataset whose sections repeat a number has a zero gap, so no output
      can be allocated for it. */
  lemma RepeatedSectionRejected(d: Dataset, size: StandardSize, factor: nat)
    requires WellFormed(d)
    requires HasRepeat(SectionNumbers(d.sectionImages))
    requires d.minResolution != 0.0
    ensures OutputLayout(d, size, factor) == Failure(ZeroGap)
  {
    WellFormedFacts(d);
    InPlaneSpacingSign(d, factor);
  }

  /** With distinct section numbers, a positive resolution, a nonzero
      thickness and a non-negative standard size, the output is allocated and
      has at least one slice. */
  lemma DistinctSectionsAllocate(d: Dataset, size: StandardSize, factor: nat)
    requires WellFormed(d)
    requires !HasRepeat(SectionNumbers(d.sectionImages))
    requires d.minResolution > 0.0 && d.sectionThickness != 0.0
    requires size.width >= 0.0 && size.height >= 0.0
    ensures OutputLayout(d, size, factor).Success?
    ensures OutputLayout(d, size, factor).value.volume.zsize >= 1
  {
    WellFormedFacts(d);
    PositiveGapAllocates(d, size, factor);
  }

  lemma PositiveGapAllocates(d: Dataset, size: StandardSize, factor: nat)
    requires d.minSectionGap > 0 && d.sectionSpan >= 0
    requires d.sectionSpacing == Scaled(d.minSectionGap, d.sectionThickness)
    requires d.minResolution > 0.0 && d.sectionThickness != 0.0
    requires size.width >= 0.0 && size.height >= 0.0
    ensures OutputLayout(d, size, factor).Success?
    ensures OutputLayout(d, size, factor).value.volume.zsize >= 1
  {
    assert d.sectionSpacing != 0.0 by {
      assert d.minSectionGap as real != 0.0;
    }
    var xyres := InPlaneSpacing(d, factor);
    InPlaneSpacingSign(d, factor);
    assert size.width / xyres >= 0.0 && size.height / xyres >= 0.0;
    assert d.sectionSpan as real / d.minSectionGap as real >= 0.0;
  }

  /** Sections 10, 13 and 17 (span 7, gap 3) give `round(7/3 + 1) == 3` slices. */
  lemma ExampleSliceCount(d: Dataset, size: StandardSize, factor: nat)
    requires WellFormed(d)
    requires |d.sectionImages| == 3
    requires d.sectionImages[0].sectionNumber == 10
    requires d.sectionImages[1].sectionNumber == 13
    requires d.sectionImages[2].sectionNumber == 17
    requires OutputLayout(d, size, factor).Success?
    ensures OutputLayout(d, size, factor).value.volume.zsize == 3
  {
    assert d.sectionSpan == 7 && d.minSectionGap == 3 by {
      ExampleSections(d.sectionImages);
    }
    SevenOverThree();
  }

  lemma SevenOverThree()
    ensures SliceCount(7, 3) == 3
  {
    assert 7.0 / 3.0 + 1.0 == 10.0 / 3.0;
  }

  /** The image library's physical-point-to-index conversion along z:
      the offset from the origin in units of the spacing, rounded half up. */
  function PhysicalToIndex(v: Volume, z: real): int
    requires v.spacing.z != 0.0
  {
    RoundHalfUp((z - v.origin.z) / v.spacing.z)
  }

  /** The physical z of the centre of slice `k`. */
  function IndexToPhysical(v: Volume, k: int): real {
    v.origin.z + k as real * v.spacing.z
  }

  /** Every slice centre converts back to its own index. */
  lemma IndexRoundTrip(v: Volume, k: int)
    requires v.spacing.z != 0.0
    ensures PhysicalToIndex(v, IndexToPhysical(v, k)) == k
  {
    assert (IndexToPhysical(v, k) - v.origin.z) / v.spacing.z == k as real;
    RoundIntegral(k);
  }

  /** All voxels are zero. */
  ghost predicate Zero(a: array3<Byte>)
    reads a
  {
    forall i, j, k | 0 <= i < a.Length0 && 0 <= j < a.Length1 && 0 <= k < a.Length2 :: a[i, j, k] == 0
  }

  /** `output`: the volume and the mask, allocated with the volume geometry,
      and the geometry of the reference canvas. */
  class Output {
    const layout: Layout
    const volume: array3<Byte>
    const mask: array3<Byte>

    ghost predicate Valid()
      reads this
    {
      && volume != mask
      && volume.Length0 == layout.volume.xsize && mask.Length0 == layout.volume.xsize
      && volume.Length1 == layout.volume.ysize && mask.Length1 == layout.volume.ysize
      && volume.Length2 == layout.volume.zsize && mask.Length2 == layout.volume.zsize
      && layout.volume.spacing.z != 0.0
    }

    /** Two zero-filled 8-bit images of the volume size. */
    constructor (l: Layout)
      requires l.volume.spacing.z != 0.0
      ensures layout == l && Valid()
      ensures fresh(volume) && fresh(mask)
      ensures Zero(volume) && Zero(mask)
    {
      layout := l;
      volume := new Byte[l.volume.xsize, l.volume.ysize, l.volume.zsize]((i, j, k) => 0);
      mask := new Byte[l.volume.xsize, l.volume.ysize, l.volume.zsize]((i, j, k) => 0);
    }
  }

  /** `initialize_output`, with the atlas metadata lookup already done. */
  method InitializeOutput(d: Dataset, size: StandardSize, factor: nat) returns (r: Result<Output, Error>)
    ensures r.Failure? ==> OutputLayout(d, size, factor) == Failure(r.error)
    ensures r.Success? ==>
      && OutputLayout(d, size, factor) == Success(r.value.layout)
      && r.value.Valid()
      && fresh(r.value.volume) && fresh(r.value.mask)
      && Zero(r.value.volume) && Zero(r.value.mask)
  {
    var layout := OutputLayout(d, size, factor);
    if layout.Failure? {
      return Failure(layout.error);
    }
    var output := new Output(layout.value);
    return Success(output);
  }
}
