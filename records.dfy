/** The normalised records `read_json` produces: one dataset with its
    3D alignment, its derived stack geometry and its section images. */
module Records {
  import opened Payload

  /** `alignment3d`: the canonical-to-volume (`trv`) and volume-to-canonical
      (`tvr`) affine parameter lists, 12 values each, kept as read. */
  datatype Alignment3d = Alignment3d(trv: seq<Value>, tvr: seq<Value>)

  /** `alignment2d`: the section-to-volume-slice (`tsv`) and
      volume-slice-to-section (`tvs`) parameter lists, 6 values each. */
  datatype Alignment2d = Alignment2d(tsv: seq<Value>, tvs: seq<Value>)

  /** One entry of `data['section_images']`. `width` and `height` are copied
      and never interpreted, so they stay payload values. */
  datatype SectionImage = SectionImage(
    sectionNumber: int,
    width: Value,
    height: Value,
    resolution: real,
    alignment2d: Alignment2d)

  /** The `data` dictionary built by `read_json`. */
  datatype Dataset = Dataset(
    id: int,
    treatment: Value,
    planeOfSection: Value,
    age: Value,
    sectionThickness: real,
    alignment3d: Alignment3d,
    sectionImages: seq<SectionImage>,
    sectionSpan: int,
    minSectionNumber: int,
    minSectionGap: int,
    minResolution: real,
    sectionSpacing: real,
    sectionOrigin: real)

  /** `[x['section_number'] for x in images]` */
  function SectionNumbers(images: seq<SectionImage>): (ns: seq<int>)
    ensures |ns| == |images|
    ensures forall i :: 0 <= i < |images| ==> ns[i] == images[i].sectionNumber
  {
    seq(|images|, i requires 0 <= i < |images| => images[i].sectionNumber)
  }

  /** `[x['resolution'] for x in images]` */
  function Resolutions(images: seq<SectionImage>): (rs: seq<real>)
    ensures |rs| == |images|
    ensures forall i :: 0 <= i < |images| ==> rs[i] == images[i].resolution
  {
    seq(|images|, i requires 0 <= i < |images| => images[i].resolution)
  }
}
