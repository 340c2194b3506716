/** `read_json` without the file read: normalise the parsed metadata payload
    into a `Dataset`, copying fields one by one and deriving the stack geometry. */
module ReadJson {
  import opened Wrappers
  import opened Errors
  import opened Payload
  import opened Sorting
  import opened Records
  import opened Alignment
  import opened SectionInfo

  /** The dataset-level fields, read before the section list. */
  datatype Header = Header(
    id: int,
    treatment: Value,
    planeOfSection: Value,
    age: Value,
    sectionThickness: real,
    alignment3d: Alignment3d)

  predicate IsNumber(v: Value) {
    v.Int? || v.Real?
  }

  function NumberValue(v: Value): real
    requires IsNumber(v)
  {
    if v.Int? then v.i as real else v.r
  }

  /** The derived fields agree with the section list: the statistics are those
      of `compute_section_info`, and spacing and origin are the gap and the
      smallest section number scaled by the section thickness. */
  ghost predicate WellFormed(d: Dataset) {
    && ComputeSectionInfo(d.sectionImages).Success?
    && ComputeSectionInfo(d.sectionImages).value.sectionSpan == d.sectionSpan
    && ComputeSectionInfo(d.sectionImages).value.minSectionNumber == d.minSectionNumber
    && ComputeSectionInfo(d.sectionImages).value.minSectionGap == d.minSectionGap
    && ComputeSectionInfo(d.sectionImages).value.minResolution == d.minResolution
    && d.sectionSpacing == Scaled(d.minSectionGap, d.sectionThickness)
    && d.sectionOrigin == Scaled(d.minSectionNumber, d.sectionThickness)
  }

  /** `n * thickness` for an integer count of sections. */
  function Scaled(n: int, thickness: real): real {
    n as real * thickness
  }

  /** One section record: `section_number`, `width`, `height` and `resolution`
      copied in that order, then the parsed `alignment2d`; nothing else is kept. */
  function ReadSectionImage(s: Value): (r: Result<SectionImage, Error>)
    ensures r.Success? <==>
      && s.Obj?
      && "section_number" in s.fields && s.fields["section_number"].Int?
      && "width" in s.fields && "height" in s.fields
      && "resolution" in s.fields && IsNumber(s.fields["resolution"])
      && "alignment2d" in s.fields && ReadAlignment2d(s.fields["alignment2d"]).Success?
    ensures r.Success? ==>
      && r.value.sectionNumber == s.fields["section_number"].i
      && r.value.width == s.fields["width"]
      && r.value.height == s.fields["height"]
      && r.value.resolution == NumberValue(s.fields["resolution"])
      && r.value.alignment2d == ReadAlignment2d(s.fields["alignment2d"]).value
  {
    var number :- Field(s, "section_number");
    var width :- Field(s, "width");
    var height :- Field(s, "height");
    var resolution :- Field(s, "resolution");
    var n :- Integer(number, "section_number");
    var res :- Number(resolution, "resolution");
    var a2 :- Field(s, "alignment2d");
    var alignment :- ReadAlignment2d(a2);
    Success(SectionImage(n, width, height, res, alignment))
  }

  /** The records of a list read one by one in input order with `read`; the
      first bad record aborts with its error. */
  function ReadEach<T>(read: Value -> Result<T, Error>, items: seq<Value>): (r: Result<seq<T>, Error>)
    ensures r.Success? <==> forall i :: 0 <= i < |items| ==> read(items[i]).Success?
    ensures r.Success? ==> |r.value| == |items|
    ensures r.Success? ==> forall i :: 0 <= i < |items| ==> read(items[i]) == Success(r.value[i])
    ensures r.Failure? ==> exists i :: 0 <= i < |items| && read(items[i]) == Failure(r.error)
                                       && forall j :: 0 <= j < i ==> read(items[j]).Success?
  {
    if items == [] then Success([])
    else
      var front := items[..|items| - 1];
      assert forall i :: 0 <= i < |front| ==> front[i] == items[i];
      var init := ReadEach(read, front);
      if init.Failure? then Failure(init.error)
      else
        var last := read(items[|items| - 1]);
        if last.Failure? then
          assert forall j :: 0 <= j < |items| - 1 ==> read(items[j]).Success?;
          Failure(last.error)
        else Success(init.value + [last.value])
  }

  /** Every path the header read follows exists and has the shape it needs:
      `payload[0]` is an object with an integer `id`, a non-empty `treatments`
      list whose first entry has a `name`, `plane_of_section.name`,
      `specimen.donor.age.name`, a numeric `section_thickness`, a readable
      `alignment3d` and a `section_images` list. */
  predicate HeaderPresent(payload: Value) {
    && payload.List? && |payload.items| > 0
    && var p := payload.items[0];
    && p.Obj?
    && "id" in p.fields && p.fields["id"].Int?
    && NamesPresent(p)
    && "section_thickness" in p.fields && IsNumber(p.fields["section_thickness"])
    && "alignment3d" in p.fields && ReadAlignment3d(p.fields["alignment3d"]).Success?
    && "section_images" in p.fields && p.fields["section_images"].List?
  }

  /** The three descriptive paths of a dataset object exist: a non-empty
      `treatments` list whose first entry has a `name`, `plane_of_section.name`
      and `specimen.donor.age.name`. */
  predicate NamesPresent(p: Value) {
    && p.Obj?
    && "treatments" in p.fields && p.fields["treatments"].List?
    && |p.fields["treatments"].items| > 0
    && p.fields["treatments"].items[0].Obj? && "name" in p.fields["treatments"].items[0].fields
    && "plane_of_section" in p.fields && p.fields["plane_of_section"].Obj?
    && "name" in p.fields["plane_of_section"].fields
    && "specimen" in p.fields && p.fields["specimen"].Obj?
    && "donor" in p.fields["specimen"].fields && p.fields["specimen"].fields["donor"].Obj?
    && "age" in p.fields["specimen"].fields["donor"].fields
    && p.fields["specimen"].fields["donor"].fields["age"].Obj?
    && "name" in p.fields["specimen"].fields["donor"].fields["age"].fields
  }

  /** `treatments[0]['name']`, `plane_of_section['name']` and
      `specimen['donor']['age']['name']`, copied without interpretation. */
  function ReadNames(p: Value): (r: Result<(Value, Value, Value), Error>)
    ensures r.Success? <==> NamesPresent(p)
    ensures r.Success? ==>
      && r.value.0 == p.fields["treatments"].items[0].fields["name"]
      && r.value.1 == p.fields["plane_of_section"].fields["name"]
      && r.value.2 == p.fields["specimen"].fields["donor"].fields["age"].fields["name"]
  {
    var treatments :- Field(p, "treatments");
    var firstTreatment :- Item(treatments, 0, "treatments");
    var treatment :- Field(firstTreatment, "name");
    var planeObj :- Field(p, "plane_of_section");
    var plane :- Field(planeObj, "name");
    var specimen :- Field(p, "specimen");
    var donor :- Field(specimen, "donor");
    var ageObj :- Field(donor, "age");
    var age :- Field(ageObj, "name");
    Success((treatment, plane, age))
  }

  /** `payload[0]` and the dataset-level fields, in the order the source reads
      them, together with the raw `section_images` list. */
  function ReadHeader(payload: Value): (r: Result<(Header, seq<Value>), Error>)
    ensures r.Success? <==> HeaderPresent(payload)
    ensures r.Success? ==>
      var p, h := payload.items[0], r.value.0;
      && h.id == p.fields["id"].i
      && h.treatment == p.fields["treatments"].items[0].fields["name"]
      && h.planeOfSection == p.fields["plane_of_section"].fields["name"]
      && h.age == p.fields["specimen"].fields["donor"].fields["age"].fields["name"]
      && h.sectionThickness == NumberValue(p.fields["section_thickness"])
      && h.alignment3d == ReadAlignment3d(p.fields["alignment3d"]).value
      && r.value.1 == p.fields["section_images"].items
  {
    var p :- Item(payload, 0, "payload");
    var id :- Field(p, "id");
    var idNumber :- Integer(id, "id");
    var names :- ReadNames(p);
    var (treatment, plane, age) := names;
    var thicknessValue :- Field(p, "section_thickness");
    var thickness :- Number(thicknessValue, "section_thickness");
    var a3 :- Field(p, "alignment3d");
    var alignment :- ReadAlignment3d(a3);
    var sections :- Field(p, "section_images");
    if !sections.List? then Failure(WrongType("section_images"))
    else Success((Header(idNumber, treatment, plane, age, thickness, alignment), sections.items))
  }

  /** The facts about the derived fields that the output geometry relies on:
      every section number lies between the smallest and the smallest plus
      the span, both ends occur, the gap is not negative, and spacing and
      origin are the gap and the smallest number in thickness units. */
  ghost predicate StackGeometry(d: Dataset) {
    && IsLeast(SectionNumbers(d.sectionImages), d.minSectionNumber)
    && IsGreatest(SectionNumbers(d.sectionImages), d.minSectionNumber + d.sectionSpan)
    && d.sectionSpan >= 0 && d.minSectionGap >= 0
    && d.sectionSpacing == Scaled(d.minSectionGap, d.sectionThickness)
    && d.sectionOrigin == Scaled(d.minSectionNumber, d.sectionThickness)
  }

  /** What a well-formed dataset's derived fields are: at least two sections,
      the smallest number, a non-negative span and gap (zero exactly when a
      number repeats), and the spacing and origin in thickness units. */
  lemma WellFormedFacts(d: Dataset)
    requires WellFormed(d)
    ensures |d.sectionImages| >= 2
    ensures IsLeast(SectionNumbers(d.sectionImages), d.minSectionNumber)
    ensures IsGreatest(SectionNumbers(d.sectionImages), d.minSectionNumber + d.sectionSpan)
    ensures d.sectionSpan >= 0 && d.minSectionGap >= 0
    ensures d.minSectionGap == 0 <==> HasRepeat(SectionNumbers(d.sectionImages))
    ensures d.sectionSpacing == Scaled(d.minSectionGap, d.sectionThickness)
    ensures d.sectionOrigin == Scaled(d.minSectionNumber, d.sectionThickness)
    ensures StackGeometry(d)
  {
    WellFormedStack(d);
    WellFormedGap(d);
  }

  lemma WellFormedStack(d: Dataset)
    requires WellFormed(d)
    ensures |d.sectionImages| >= 2 && StackGeometry(d)
  {
    WellFormedLeast(d);
    WellFormedGreatest(d);
  }

  lemma WellFormedLeast(d: Dataset)
    requires WellFormed(d)
    ensures |d.sectionImages| >= 2
    ensures IsLeast(SectionNumbers(d.sectionImages), d.minSectionNumber)
    ensures d.sectionSpan >= 0 && d.minSectionGap >= 0
  {
    SectionInfoMeaning(d.sectionImages);
  }

  lemma WellFormedGreatest(d: Dataset)
    requires WellFormed(d)
    ensures IsGreatest(SectionNumbers(d.sectionImages), d.minSectionNumber + d.sectionSpan)
  {
    StackEnds(d.sectionImages, d.minSectionNumber, d.sectionSpan);
  }

  lemma WellFormedGap(d: Dataset)
    requires WellFormed(d)
    ensures d.minSectionGap == 0 <==> HasRepeat(SectionNumbers(d.sectionImages))
  {
    GapZeroIffRepeat(d.sectionImages);
  }

  /** The dataset with the statistics of its sections and the derived spacing and origin. */
  function Assemble(h: Header, images: seq<SectionImage>): (r: Result<Dataset, Error>)
    ensures r.Success? <==> |images| >= 2
    ensures r.Success? ==> WellFormed(r.value) && r.value.sectionImages == images
    ensures r.Success? ==>
      && r.value.id == h.id && r.value.treatment == h.treatment
      && r.value.planeOfSection == h.planeOfSection && r.value.age == h.age
      && r.value.sectionThickness == h.sectionThickness && r.value.alignment3d == h.alignment3d
  {
    var stats := ComputeSectionInfo(images);
    if stats.Failure? then Failure(stats.error)
    else
      var info := stats.value;
      Success(Dataset(
      h.id, h.treatment, h.planeOfSection, h.age, h.sectionThickness, h.alignment3d, images,
      info.sectionSpan, info.minSectionNumber, info.minSectionGap, info.minResolution,
      Scaled(info.minSectionGap, h.sectionThickness),
      Scaled(info.minSectionNumber, h.sectionThickness)))
  }

  /** The whole normalisation as one function of the payload. */
  function Normalize(payload: Value): (r: Result<Dataset, Error>)
    ensures ReadHeader(payload).Failure? ==> r == Failure(ReadHeader(payload).error)
    ensures ReadHeader(payload).Success? ==>
      var items := ReadHeader(payload).value.1;
      && (r.Success? <==>
            (forall i :: 0 <= i < |items| ==> ReadSectionImage(items[i]).Success?) && |items| >= 2)
      && ((forall i :: 0 <= i < |items| ==> ReadSectionImage(items[i]).Success?) && |items| < 2 ==>
            r == Failure(TooFewSections(|items|)))
    ensures r.Success? ==> WellFormed(r.value)
    ensures r.Success? ==>
      && ReadHeader(payload).Success?
      && var (h, items) := ReadHeader(payload).value;
         && r.value.id == h.id && r.value.treatment == h.treatment
         && r.value.planeOfSection == h.planeOfSection && r.value.age == h.age
         && r.value.sectionThickness == h.sectionThickness && r.value.alignment3d == h.alignment3d
         && |r.value.sectionImages| == |items|
         && forall i :: 0 <= i < |items| ==> ReadSectionImage(items[i]) == Success(r.value.sectionImages[i])
  {
    var header :- ReadHeader(payload);
    var images :- ReadEach(ReadSectionImage, header.1);
    Assemble(header.0, images)
  }

  /** A normalised dataset carries the payload's own dataset-level values:
      the id that names the image files, the three descriptive names, the
      thickness that scales spacing and origin, and the 3D alignment. */
  lemma NormalizeCopiesPayload(payload: Value)
    requires Normalize(payload).Success?
    ensures HeaderPresent(payload)
    ensures var p, d := payload.items[0], Normalize(payload).value;
      && d.id == p.fields["id"].i
      && d.treatment == p.fields["treatments"].items[0].fields["name"]
      && d.planeOfSection == p.fields["plane_of_section"].fields["name"]
      && d.age == p.fields["specimen"].fields["donor"].fields["age"].fields["name"]
      && d.sectionThickness == NumberValue(p.fields["section_thickness"])
      && d.alignment3d == ReadAlignment3d(p.fields["alignment3d"]).value
      && d.sectionSpacing == Scaled(d.minSectionGap, NumberValue(p.fields["section_thickness"]))
      && d.sectionOrigin == Scaled(d.minSectionNumber, NumberValue(p.fields["section_thickness"]))
  {
  }

  /** Once a prefix of the list fails, the whole list fails with the same error. */
  lemma {:induction false} FailurePersists<T>(read: Value -> Result<T, Error>, items: seq<Value>, k: nat)
    requires k <= |items|
    requires ReadEach(read, items[..k]).Failure?
    ensures ReadEach(read, items) == ReadEach(read, items[..k])
    decreases |items| - k
  {
    if k < |items| {
      var longer := items[..k + 1];
      assert longer[..k] == items[..k];
      FailurePersists(read, items, k + 1);
    } else {
      assert items[..k] == items;
    }
  }

  /** Reading one more record either appends it or fails with its error. */
  lemma ReadOneMore<T>(read: Value -> Result<T, Error>, items: seq<Value>, k: nat)
    requires k < |items|
    requires ReadEach(read, items[..k]).Success?
    ensures var rec := read(items[k]);
      ReadEach(read, items[..k + 1])
      == if rec.Failure? then Failure(rec.error)
         else Success(ReadEach(read, items[..k]).value + [rec.value])
  {
    var longer := items[..k + 1];
    assert longer[..k] == items[..k];
    assert longer[k] == items[k];
  }

  /** `read_json`: reads the header, appends the section records one by one,
      then derives the statistics. */
  method ReadJsonPayload(payload: Value) returns (r: Result<Dataset, Error>)
    ensures r == Normalize(payload)
  {
    var header := ReadHeader(payload);
    if header.Failure? {
      return Failure(header.error);
    }
    var items := header.value.1;
    var images: seq<SectionImage> := [];
    var k := 0;
    while k < |items|
      invariant 0 <= k <= |items|
      invariant ReadEach(ReadSectionImage, items[..k]) == Success(images)
    {
      var rec := ReadSectionImage(items[k]);
      ReadOneMore(ReadSectionImage, items, k);
      if rec.Failure? {
        FailurePersists(ReadSectionImage, items, k + 1);
        return Failure(rec.error);
      }
      images := images + [rec.value];
      k := k + 1;
    }
    assert items[..k] == items;
    r := Assemble(header.value.0, images);
  }

  /** The stack of sections numbered 10, 13 and 17, cut 25 units thick: the
      smallest number is 10, the span 7, the gap 3, the spacing 75 and the origin 250. */
  lemma ExampleStack(h: Header, images: seq<SectionImage>)
    requires h.sectionThickness == 25.0
    requires |images| == 3
    requires images[0].sectionNumber == 10 && images[1].sectionNumber == 13 && images[2].sectionNumber == 17
    ensures Assemble(h, images).Success?
    ensures var d := Assemble(h, images).value;
      && d.minSectionNumber == 10 && d.sectionSpan == 7 && d.minSectionGap == 3
      && d.sectionSpacing == 75.0 && d.sectionOrigin == 250.0
  {
    ExampleSections(images);
    assert Scaled(3, 25.0) == 75.0 && Scaled(10, 25.0) == 250.0;
  }
}
