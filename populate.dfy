/** `populate_output`: for each section in list order, load its resampled
    slice, find the slice index of its physical z and overwrite that slice of
    the volume with the image and of the mask with ones. */
module Populate {
  import opened Wrappers
  import opened Errors
  import opened Payload
  import opened Format
  import opened Rounding
  import opened Sorting
  import opened Records
  import opened SectionInfo
  import opened ReadJson
  import opened Geometry

  /** `'%04d_%d.jpg' % (section_number, id)` */
  function FileName(sectionNumber: int, id: int): string {
    ZeroPadded(sectionNumber, 4) + "_" + ZeroPadded(id, 0) + ".jpg"
  }

  /** Position of the first `c` in `s`, or `|s|` when there is none. */
  function Find(s: string, c: char): (k: nat)
    ensures k <= |s|
    ensures k < |s| ==> s[k] == c
    ensures forall i :: 0 <= i < k ==> s[i] != c
  {
    if s == [] then 0
    else if s[0] == c then 0
    else 1 + Find(s[1..], c)
  }

  /** Reads a section number and a dataset id back out of a file name. */
  function ParseFileName(name: string): Option<(int, int)> {
    if |name| < 4 || name[|name| - 4..] != ".jpg" then None
    else
      var stem := name[..|name| - 4];
      var k := Find(stem, '_');
      if k == |stem| then None
      else match (ParseInt(stem[..k]), ParseInt(stem[k + 1..]))
        case (Some(n), Some(id)) => Some((n, id))
        case _ => None
  }

  /** The file name determines the section number and the dataset id. */
  lemma FileNameRoundTrip(sectionNumber: int, id: int)
    ensures ParseFileName(FileName(sectionNumber, id)) == Some((sectionNumber, id))
  {
    var a, b := ZeroPadded(sectionNumber, 4), ZeroPadded(id, 0);
    var name := FileName(sectionNumber, id);
    var stem := a + "_" + b;
    assert name == stem + ".jpg";
    assert name[|name| - 4..] == ".jpg";
    assert name[..|name| - 4] == stem;
    PaddedCharacters(sectionNumber, 4);
    assert forall i :: 0 <= i < |a| ==> stem[i] == a[i] && a[i] != '_';
    assert stem[|a|] == '_';
    assert Find(stem, '_') == |a|;
    assert stem[..|a|] == a && stem[|a| + 1..] == b;
    ParseZeroPadded(sectionNumber, 4);
    ParseZeroPadded(id, 0);
  }

  /** A section number in 0..9999 takes exactly the first four characters. */
  lemma FourDigitPrefix(sectionNumber: int, id: int)
    requires 0 <= sectionNumber < 10000
    ensures var name := FileName(sectionNumber, id);
      && |name| > 4
      && AllDigits(name[..4]) && DecimalValue(name[..4]) == sectionNumber
      && name[4] == '_'
  {
    assert Pow10(4) == 10000;
    PaddedWidth(sectionNumber, 4);
    PadLeftValue(sectionNumber, 4);
    var name := FileName(sectionNumber, id);
    assert name[..4] == ZeroPadded(sectionNumber, 4);
  }

  /** The decoded, channel-selected, inverted slice resampled onto the
      reference canvas: a byte for every canvas pixel. */
  type Slice = (int, int) -> Byte

  /** Reading and resampling one section image: given the file name and the
      `tvs` parameters, the resampled slice, or `None` when the file cannot be read. */
  type Loader = (string, seq<Value>) -> Option<Slice>

  /** One slice overwrite: slice index `z` of the volume receives `slice`
      and the same slice of the mask is set to one. */
  datatype Write = Write(z: int, slice: Slice)

  /** The slice index of a section: its physical z, `section_number *
      section_thickness`, converted to a volume index. */
  function SliceIndex(d: Dataset, v: Volume, sectionNumber: int): int
    requires v.spacing.z != 0.0
  {
    PhysicalToIndex(v, Scaled(sectionNumber, d.sectionThickness))
  }

  /** One section: the image is read first, then its slice index is taken;
      an index outside the volume cannot be assigned. */
  function Step(d: Dataset, v: Volume, load: Loader, x: SectionImage): Result<Write, Error>
    requires v.spacing.z != 0.0
  {
    var name := FileName(x.sectionNumber, d.id);
    match load(name, x.alignment2d.tvs)
    case None => Failure(ImageNotFound(name))
    case Some(slice) =>
      var z := SliceIndex(d, v, x.sectionNumber);
      if 0 <= z < v.zsize then Success(Write(z, slice))
      else Failure(ZIndexOutOfRange(x.sectionNumber, z))
  }

  /** The step of every section, in list order. */
  function Steps(d: Dataset, v: Volume, load: Loader, images: seq<SectionImage>): (steps: seq<Result<Write, Error>>)
    requires v.spacing.z != 0.0
    ensures |steps| == |images|
    ensures forall i :: 0 <= i < |images| ==> steps[i] == Step(d, v, load, images[i])
  {
    seq(|images|, i requires 0 <= i < |images| => Step(d, v, load, images[i]))
  }

  /** The writes made by a sequence of steps taken in order, and the error
      that stopped them, if any; the writes before an error have already happened. */
  function Run(steps: seq<Result<Write, Error>>): (r: (seq<Write>, Option<Error>))
    ensures |r.0| <= |steps|
    ensures r.1.None? ==> |r.0| == |steps|
  {
    if steps == [] then ([], None)
    else
      var (writes, err) := Run(steps[..|steps| - 1]);
      if err.Some? then (writes, err)
      else match steps[|steps| - 1]
        case Failure(e) => (writes, Some(e))
        case Success(w) => (writes + [w], None)
  }

  /** The slice the most recent write to slice index `z` put there. */
  function LastWrite(writes: seq<Write>, z: int): Option<Slice> {
    if writes == [] then None
    else if writes[|writes| - 1].z == z then Some(writes[|writes| - 1].slice)
    else LastWrite(writes[..|writes| - 1], z)
  }

  /** A volume voxel after the writes, given its value before them. */
  function Painted(writes: seq<Write>, i: int, j: int, z: int, prior: Byte): Byte {
    match LastWrite(writes, z)
    case None => prior
    case Some(slice) => slice(i, j)
  }

  /** A mask voxel after the writes, given its value before them. */
  function Marked(writes: seq<Write>, z: int, prior: Byte): Byte {
    if LastWrite(writes, z).Some? then 1 else prior
  }

  /** `output['volume'][:,:,z] = slice` and `output['mask'][:,:,z] = 1`. */
  method WriteSlice(out: Output, z: int, slice: Slice)
    requires out.Valid() && 0 <= z < out.layout.volume.zsize
    modifies out.volume, out.mask
    ensures forall i, j, k | 0 <= i < out.volume.Length0 && 0 <= j < out.volume.Length1 && 0 <= k < out.volume.Length2 ::
      out.volume[i, j, k] == if k == z then slice(i, j) else old(out.volume[i, j, k])
    ensures forall i, j, k | 0 <= i < out.mask.Length0 && 0 <= j < out.mask.Length1 && 0 <= k < out.mask.Length2 ::
      out.mask[i, j, k] == if k == z then 1 else old(out.mask[i, j, k])
  {
    forall i, j | 0 <= i < out.volume.Length0 && 0 <= j < out.volume.Length1 {
      out.volume[i, j, z] := slice(i, j);
    }
    forall i, j | 0 <= i < out.mask.Length0 && 0 <= j < out.mask.Length1 {
      out.mask[i, j, z] := 1;
    }
  }

  /** Taking one more step either appends its write or records its error. */
  lemma RunOneMore(steps: seq<Result<Write, Error>>, k: nat)
    requires k < |steps|
    requires Run(steps[..k]).1.None?
    ensures Run(steps[..k + 1])
      == match steps[k]
         case Failure(e) => (Run(steps[..k]).0, Some(e))
         case Success(w) => (Run(steps[..k]).0 + [w], None)
  {
    var longer := steps[..k + 1];
    assert longer[..k] == steps[..k];
  }

  /** After an error no further step is taken. */
  lemma {:induction false} ErrorIsFinal(steps: seq<Result<Write, Error>>, k: nat)
    requires k <= |steps|
    requires Run(steps[..k]).1.Some?
    ensures Run(steps) == Run(steps[..k])
    decreases |steps| - k
  {
    if k < |steps| {
      var longer := steps[..k + 1];
      assert longer[..k] == steps[..k];
      ErrorIsFinal(steps, k + 1);
    } else {
      assert steps[..k] == steps;
    }
  }

  /** One iteration of `populate_output`: read the section's image, find its
      slice index and overwrite that slice, or stop with the error. */
  method PopulateSection(d: Dataset, load: Loader, out: Output, x: SectionImage) returns (err: Option<Error>)
    requires out.Valid()
    modifies out.volume, out.mask
    ensures var step := Step(d, out.layout.volume, load, x);
      && (step.Failure? ==> err == Some(step.error) && unchanged(out.volume, out.mask))
      && (step.Success? ==>
          && err.None?
          && (forall i, j, k | 0 <= i < out.volume.Length0 && 0 <= j < out.volume.Length1 && 0 <= k < out.volume.Length2 ::
                out.volume[i, j, k] == if k == step.value.z then step.value.slice(i, j) else old(out.volume[i, j, k]))
          && (forall i, j, k | 0 <= i < out.mask.Length0 && 0 <= j < out.mask.Length1 && 0 <= k < out.mask.Length2 ::
                out.mask[i, j, k] == if k == step.value.z then 1 else old(out.mask[i, j, k])))
  {
    var v := out.layout.volume;
    var name := FileName(x.sectionNumber, d.id);
    var loaded := load(name, x.alignment2d.tvs);
    if loaded.None? {
      return Some(ImageNotFound(name));
    }
    var z := SliceIndex(d, v, x.sectionNumber);
    if !(0 <= z < v.zsize) {
      return Some(ZIndexOutOfRange(x.sectionNumber, z));
    }
    WriteSlice(out, z, loaded.value);
    return None;
  }

  /** `populate_output`: the sections in list order; each loads its image,
      finds its slice and overwrites it in the volume and the mask. The
      first error stops the loop, leaving the slices already written. */
  method PopulateOutput(d: Dataset, load: Loader, out: Output) returns (err: Option<Error>)
    requires out.Valid()
    modifies out.volume, out.mask
    ensures var run := Run(Steps(d, out.layout.volume, load, d.sectionImages));
      && err == run.1
      && (forall i, j, z | 0 <= i < out.volume.Length0 && 0 <= j < out.volume.Length1 && 0 <= z < out.volume.Length2 ::
            out.volume[i, j, z] == Painted(run.0, i, j, z, old(out.volume[i, j, z])))
      && (forall i, j, z | 0 <= i < out.mask.Length0 && 0 <= j < out.mask.Length1 && 0 <= z < out.mask.Length2 ::
            out.mask[i, j, z] == Marked(run.0, z, old(out.mask[i, j, z])))
  {
    var images := d.sectionImages;
    ghost var steps := Steps(d, out.layout.volume, load, images);
    ghost var writes: seq<Write> := [];
    var k := 0;
    while k < |images|
      invariant 0 <= k <= |images|
      invariant Run(steps[..k]) == (writes, None)
      invariant forall i, j, z | 0 <= i < out.volume.Length0 && 0 <= j < out.volume.Length1 && 0 <= z < out.volume.Length2 ::
        out.volume[i, j, z] == Painted(writes, i, j, z, old(out.volume[i, j, z]))
      invariant forall i, j, z | 0 <= i < out.mask.Length0 && 0 <= j < out.mask.Length1 && 0 <= z < out.mask.Length2 ::
        out.mask[i, j, z] == Marked(writes, z, old(out.mask[i, j, z]))
    {
      err := PopulateSection(d, load, out, images[k]);
      RunOneMore(steps, k);
      if err.Some? {
        ErrorIsFinal(steps, k + 1);
        return;
      }
      writes := writes + [steps[k].value];
      k := k + 1;
    }
    assert steps[..k] == steps;
    return None;
  }

  /** Some section the loop processed maps to slice index `z`. */
  ghost predicate Hit(d: Dataset, v: Volume, load: Loader, z: int)
    requires v.spacing.z != 0.0
  {
    var writes := Run(Steps(d, v, load, d.sectionImages)).0;
    exists k :: 0 <= k < |writes| && SliceIndex(d, v, d.sectionImages[k].sectionNumber) == z
  }

  /** `initialize_output` then `populate_output`: the mask ends up binary,
      1 exactly on the slices some processed section maps to, and a volume
      slice that no processed section maps to stays all zero. */
  method InitializeAndPopulate(d: Dataset, size: StandardSize, factor: nat, load: Loader)
    returns (r: Result<Output, Error>, err: Option<Error>)
    ensures r.Failure? ==> OutputLayout(d, size, factor) == Failure(r.error) && err.None?
    ensures r.Success? ==>
      && r.value.Valid()
      && OutputLayout(d, size, factor) == Success(r.value.layout)
      && err == Run(Steps(d, r.value.layout.volume, load, d.sectionImages)).1
    ensures r.Success? ==>
      forall i, j, z | 0 <= i < r.value.mask.Length0 && 0 <= j < r.value.mask.Length1 && 0 <= z < r.value.mask.Length2 ::
        && (r.value.mask[i, j, z] == 0 || r.value.mask[i, j, z] == 1)
        && (r.value.mask[i, j, z] == 1 <==> Hit(d, r.value.layout.volume, load, z))
    ensures r.Success? ==>
      forall i, j, z | 0 <= i < r.value.volume.Length0 && 0 <= j < r.value.volume.Length1 && 0 <= z < r.value.volume.Length2
                       && !Hit(d, r.value.layout.volume, load, z) ::
        r.value.volume[i, j, z] == 0
  {
    r := InitializeOutput(d, size, factor);
    if r.Failure? {
      return r, None;
    }
    var out := r.value;
    ghost var v := out.layout.volume;
    err := PopulateOutput(d, load, out);
    ghost var writes := Run(Steps(d, v, load, d.sectionImages)).0;
    forall i, j, z | 0 <= i < out.mask.Length0 && 0 <= j < out.mask.Length1 && 0 <= z < out.mask.Length2
      ensures out.mask[i, j, z] == (if Hit(d, v, load, z) then 1 else 0)
    {
      assert out.mask[i, j, z] == Marked(writes, z, 0);
      FilledFromZero(d, v, load, z);
    }
    forall i, j, z | 0 <= i < out.volume.Length0 && 0 <= j < out.volume.Length1 && 0 <= z < out.volume.Length2
                     && !Hit(d, v, load, z)
      ensures out.volume[i, j, z] == 0
    {
      assert out.volume[i, j, z] == Painted(writes, i, j, z, 0);
      FilledFromZero(d, v, load, z);
    }
  }

  /** The thickness cancels out of the index arithmetic. */
  lemma ThicknessCancels(n: int, m: int, gap: int, t: real)
    requires gap != 0 && t != 0.0
    ensures Scaled(gap, t) != 0.0
    ensures (Scaled(n, t) - Scaled(m, t)) / Scaled(gap, t) == (n - m) as real / gap as real
  {
    var q := (n - m) as real / gap as real;
    assert q * gap as real == (n - m) as real;
    assert Scaled(n, t) - Scaled(m, t) == (n - m) as real * t;
    assert q * Scaled(gap, t) == (q * gap as real) * t;
  }

  /** A section's slice index is its offset from the smallest section number
      in units of the gap, rounded half up: the thickness plays no part. */
  lemma SectionSliceIndex(d: Dataset, size: StandardSize, factor: nat, l: Layout, n: int)
    requires StackGeometry(d)
    requires OutputLayout(d, size, factor) == Success(l)
    ensures l.volume.spacing.z != 0.0
    ensures SliceIndex(d, l.volume, n) == RoundHalfUp((n - d.minSectionNumber) as real / d.minSectionGap as real)
  {
    StackIndex(d, l.volume, n);
  }

  lemma StackIndex(d: Dataset, v: Volume, n: int)
    requires v.origin.z == d.sectionOrigin && v.spacing.z == d.sectionSpacing && v.spacing.z != 0.0
    requires d.sectionSpacing == Scaled(d.minSectionGap, d.sectionThickness)
    requires d.sectionOrigin == Scaled(d.minSectionNumber, d.sectionThickness)
    ensures d.minSectionGap != 0
    ensures SliceIndex(d, v, n) == RoundHalfUp((n - d.minSectionNumber) as real / d.minSectionGap as real)
  {
    var t := d.sectionThickness;
    assert t != 0.0 && d.minSectionGap != 0 by {
      assert Scaled(d.minSectionGap, t) != 0.0;
    }
    ThicknessCancels(n, d.minSectionNumber, d.minSectionGap, t);
  }

  /** Every section of a dataset lands at an index from 0 to `zsize`: never
      below the volume, at most one past its end. */
  lemma SliceIndexBounds(d: Dataset, size: StandardSize, factor: nat, l: Layout, n: int)
    requires StackGeometry(d)
    requires OutputLayout(d, size, factor) == Success(l)
    requires n in SectionNumbers(d.sectionImages)
    ensures l.volume.spacing.z != 0.0
    ensures 0 <= SliceIndex(d, l.volume, n) <= l.volume.zsize
  {
    SectionSliceIndex(d, size, factor, l, n);
    OffsetBounds(n - d.minSectionNumber, d.sectionSpan, d.minSectionGap);
  }

  lemma OffsetBounds(offset: int, span: int, gap: int)
    requires 0 <= offset <= span && gap > 0
    ensures 0 <= RoundHalfUp(offset as real / gap as real) <= SliceCount(span, gap)
  {
    var q, r := offset as real / gap as real, span as real / gap as real;
    assert 0.0 <= q <= r by {
      assert q * gap as real == offset as real;
      assert r * gap as real == span as real;
    }
    RoundHalfUpBelowNext(q, r);
  }

  /** When every section's offset from the smallest number is a whole number
      of gaps, a section's slice index is exactly that number of gaps, and it
      lies inside the volume. */
  lemma OnGridSliceIndex(d: Dataset, size: StandardSize, factor: nat, l: Layout, n: int)
    requires StackGeometry(d)
    requires OutputLayout(d, size, factor) == Success(l)
    requires OnGrid(d)
    requires n in SectionNumbers(d.sectionImages)
    ensures l.volume.spacing.z != 0.0
    ensures SliceIndex(d, l.volume, n) == (n - d.minSectionNumber) / d.minSectionGap
    ensures SliceIndex(d, l.volume, n) < l.volume.zsize
  {
    SectionSliceIndex(d, size, factor, l, n);
    var gap := d.minSectionGap;
    assert gap > 0;
    var top := d.minSectionNumber + d.sectionSpan;
    assert top in SectionNumbers(d.sectionImages);
    OnGridOffset(n - d.minSectionNumber, d.sectionSpan, gap);
  }

  lemma OnGridOffset(offset: int, span: int, gap: int)
    requires 0 <= offset <= span && gap > 0
    requires offset % gap == 0 && span % gap == 0
    ensures RoundHalfUp(offset as real / gap as real) == offset / gap
    ensures offset / gap < SliceCount(span, gap)
  {
    ExactQuotient(offset, gap);
    RoundIntegral(offset / gap);
    SliceCountOnGrid(span, gap);
    QuotientMonotone(offset, span, gap);
  }

  lemma QuotientMonotone(a: int, b: int, gap: int)
    requires 0 <= a <= b && gap > 0
    ensures a / gap <= b / gap
  {
    var p, q := a / gap, b / gap;
    assert a == p * gap + a % gap && b == q * gap + b % gap;
    assert (p - q) * gap < gap;
    ProductBelowDivisor(p - q, gap);
  }

  lemma ProductBelowDivisor(k: int, gap: int)
    requires gap > 0 && k * gap < gap
    ensures k < 1
  {
  }

  /** Every section number is the smallest plus a whole number of gaps. */
  ghost predicate OnGrid(d: Dataset) {
    d.minSectionGap != 0
    && forall i :: 0 <= i < |d.sectionImages| ==>
         (d.sectionImages[i].sectionNumber - d.minSectionNumber) % d.minSectionGap == 0
  }

  /** What the loop does: it completes exactly when every step succeeds,
      making one write per step in order; otherwise it stops at the first
      failing step with that step's error, after the writes of the steps
      before it. */
  lemma {:induction false} RunMeaning(steps: seq<Result<Write, Error>>)
    ensures var (writes, err) := Run(steps);
      && (err.None? <==> forall i :: 0 <= i < |steps| ==> steps[i].Success?)
      && (err.None? ==> |writes| == |steps|)
      && (err.Some? ==> |writes| < |steps| && steps[|writes|] == Failure(err.value))
      && (forall i :: 0 <= i < |writes| ==> steps[i] == Success(writes[i]))
  {
    if steps != [] {
      var front := steps[..|steps| - 1];
      RunMeaning(front);
      assert forall i :: 0 <= i < |front| ==> front[i] == steps[i];
    }
  }

  /** The last write to a slice index is the latest one in the list, and
      there is none exactly when no write targets that index. */
  lemma {:induction false} LastWriteMeaning(writes: seq<Write>, z: int)
    ensures LastWrite(writes, z).None? <==> forall i :: 0 <= i < |writes| ==> writes[i].z != z
    ensures LastWrite(writes, z).Some? ==>
      exists i :: 0 <= i < |writes| && writes[i].z == z && LastWrite(writes, z) == Some(writes[i].slice)
                  && forall j :: i < j < |writes| ==> writes[j].z != z
  {
    if writes != [] {
      var front := writes[..|writes| - 1];
      LastWriteMeaning(front, z);
      assert forall i :: 0 <= i < |front| ==> front[i] == writes[i];
    }
  }

  /** The writes made so far belong, in order, to the first sections of the
      list: each went to its section's slice index, inside the volume, and
      carries the slice loaded from its section's file. */
  lemma SectionWrites(d: Dataset, v: Volume, load: Loader)
    requires v.spacing.z != 0.0
    ensures var writes, images := Run(Steps(d, v, load, d.sectionImages)).0, d.sectionImages;
      && |writes| <= |images|
      && forall i :: 0 <= i < |writes| ==>
           && writes[i].z == SliceIndex(d, v, images[i].sectionNumber)
           && 0 <= writes[i].z < v.zsize
           && load(FileName(images[i].sectionNumber, d.id), images[i].alignment2d.tvs) == Some(writes[i].slice)
  {
    var steps, images := Steps(d, v, load, d.sectionImages), d.sectionImages;
    RunMeaning(steps);
    var writes := Run(steps).0;
    forall i | 0 <= i < |writes|
      ensures writes[i].z == SliceIndex(d, v, images[i].sectionNumber)
      ensures 0 <= writes[i].z < v.zsize
      ensures load(FileName(images[i].sectionNumber, d.id), images[i].alignment2d.tvs) == Some(writes[i].slice)
    {
      StepWrite(d, v, load, images[i], writes[i]);
    }
  }

  /** A step that succeeds wrote its section's loaded slice at its index. */
  lemma StepWrite(d: Dataset, v: Volume, load: Loader, x: SectionImage, w: Write)
    requires v.spacing.z != 0.0
    requires Step(d, v, load, x) == Success(w)
    ensures w.z == SliceIndex(d, v, x.sectionNumber) && 0 <= w.z < v.zsize
    ensures load(FileName(x.sectionNumber, d.id), x.alignment2d.tvs) == Some(w.slice)
  {
  }

  /** A slice is written, and so marked in the mask, exactly when one of the
      sections processed maps to it; any other slice keeps its contents. */
  lemma MaskMarksSectionSlices(d: Dataset, v: Volume, load: Loader, z: int)
    requires v.spacing.z != 0.0
    ensures var writes, images := Run(Steps(d, v, load, d.sectionImages)).0, d.sectionImages;
      LastWrite(writes, z).Some? <==>
        exists i :: 0 <= i < |writes| && SliceIndex(d, v, images[i].sectionNumber) == z
  {
    SectionWrites(d, v, load);
    LastWriteMeaning(Run(Steps(d, v, load, d.sectionImages)).0, z);
  }

  /** A slice holds the image of the last processed section that maps to it. */
  lemma LastSectionWins(d: Dataset, v: Volume, load: Loader, i: nat)
    requires v.spacing.z != 0.0
    requires i < |Run(Steps(d, v, load, d.sectionImages)).0|
    requires forall j :: i < j < |Run(Steps(d, v, load, d.sectionImages)).0| ==>
      SliceIndex(d, v, d.sectionImages[j].sectionNumber) != SliceIndex(d, v, d.sectionImages[i].sectionNumber)
    ensures var x := d.sectionImages[i];
      LastWrite(Run(Steps(d, v, load, d.sectionImages)).0, SliceIndex(d, v, x.sectionNumber))
      == load(FileName(x.sectionNumber, d.id), x.alignment2d.tvs)
  {
    var writes := Run(Steps(d, v, load, d.sectionImages)).0;
    var z := SliceIndex(d, v, d.sectionImages[i].sectionNumber);
    SectionWrites(d, v, load);
    LastWriteMeaning(writes, z);
    var k :| 0 <= k < |writes| && writes[k].z == z && LastWrite(writes, z) == Some(writes[k].slice)
             && forall j :: k < j < |writes| ==> writes[j].z != z;
    assert k == i;
  }

  /** Starting from the zero-filled images `initialize_output` allocates, a
      mask voxel is 1 exactly when a processed section maps to its slice and 0
      otherwise, so the mask stays binary; a volume slice no section maps to
      stays all zero. */
  lemma FilledFromZero(d: Dataset, v: Volume, load: Loader, z: int)
    requires v.spacing.z != 0.0
    ensures var writes, images := Run(Steps(d, v, load, d.sectionImages)).0, d.sectionImages;
      var hit := exists i :: 0 <= i < |writes| && SliceIndex(d, v, images[i].sectionNumber) == z;
      && Marked(writes, z, 0) == (if hit then 1 else 0)
      && (!hit ==> forall i, j :: Painted(writes, i, j, z, 0) == 0)
  {
    MaskMarksSectionSlices(d, v, load, z);
  }

  /** On the grid, every section whose image loads is written: the loop
      completes, each section at its number of gaps from the smallest. */
  lemma OnGridRunCompletes(d: Dataset, size: StandardSize, factor: nat, l: Layout, load: Loader)
    requires StackGeometry(d)
    requires OutputLayout(d, size, factor) == Success(l)
    requires OnGrid(d)
    requires forall i :: 0 <= i < |d.sectionImages| ==>
      load(FileName(d.sectionImages[i].sectionNumber, d.id), d.sectionImages[i].alignment2d.tvs).Some?
    ensures l.volume.spacing.z != 0.0
    ensures Run(Steps(d, l.volume, load, d.sectionImages)).1.None?
    ensures forall i :: 0 <= i < |d.sectionImages| ==>
      SliceIndex(d, l.volume, d.sectionImages[i].sectionNumber)
      == (d.sectionImages[i].sectionNumber - d.minSectionNumber) / d.minSectionGap
  {
    LayoutFacts(d, size, factor, l);
    OnGridAllInside(d, l.volume);
    LoadedAndInsideCompletes(d, l.volume, load);
  }

  /** The z geometry of an allocated volume. */
  lemma LayoutFacts(d: Dataset, size: StandardSize, factor: nat, l: Layout)
    requires OutputLayout(d, size, factor) == Success(l)
    ensures d.minSectionGap != 0
    ensures l.volume.origin.z == d.sectionOrigin && l.volume.spacing.z == d.sectionSpacing
    ensures l.volume.spacing.z != 0.0
    ensures l.volume.zsize == SliceCount(d.sectionSpan, d.minSectionGap)
  {
  }

  lemma OnGridAllInside(d: Dataset, v: Volume)
    requires StackGeometry(d) && OnGrid(d)
    requires v.origin.z == d.sectionOrigin && v.spacing.z == d.sectionSpacing && v.spacing.z != 0.0
    requires v.zsize == SliceCount(d.sectionSpan, d.minSectionGap)
    ensures forall i :: 0 <= i < |d.sectionImages| ==>
      && 0 <= SliceIndex(d, v, d.sectionImages[i].sectionNumber) < v.zsize
      && SliceIndex(d, v, d.sectionImages[i].sectionNumber)
         == (d.sectionImages[i].sectionNumber - d.minSectionNumber) / d.minSectionGap
  {
    forall i | 0 <= i < |d.sectionImages|
      ensures 0 <= SliceIndex(d, v, d.sectionImages[i].sectionNumber) < v.zsize
      ensures SliceIndex(d, v, d.sectionImages[i].sectionNumber)
              == (d.sectionImages[i].sectionNumber - d.minSectionNumber) / d.minSectionGap
    {
      OnGridSection(d, v, i);
    }
  }

  lemma OnGridSection(d: Dataset, v: Volume, i: nat)
    requires StackGeometry(d) && OnGrid(d)
    requires v.origin.z == d.sectionOrigin && v.spacing.z == d.sectionSpacing && v.spacing.z != 0.0
    requires v.zsize == SliceCount(d.sectionSpan, d.minSectionGap)
    requires i < |d.sectionImages|
    ensures 0 <= SliceIndex(d, v, d.sectionImages[i].sectionNumber) < v.zsize
    ensures SliceIndex(d, v, d.sectionImages[i].sectionNumber)
            == (d.sectionImages[i].sectionNumber - d.minSectionNumber) / d.minSectionGap
  {
    var ns := SectionNumbers(d.sectionImages);
    var n := d.sectionImages[i].sectionNumber;
    assert ns[i] == n && n in ns;
    assert d.minSectionNumber <= n <= d.minSectionNumber + d.sectionSpan;
    var top := d.minSectionNumber + d.sectionSpan;
    var j :| 0 <= j < |ns| && ns[j] == top;
    assert (top - d.minSectionNumber) % d.minSectionGap == 0 by {
      assert d.sectionImages[j].sectionNumber == top;
    }
    StackIndex(d, v, n);
    OnGridOffset(n - d.minSectionNumber, d.sectionSpan, d.minSectionGap);
  }

  /** The loop completes when every image loads and every slice index lies
      inside the volume. */
  lemma LoadedAndInsideCompletes(d: Dataset, v: Volume, load: Loader)
    requires v.spacing.z != 0.0
    requires forall i :: 0 <= i < |d.sectionImages| ==>
      load(FileName(d.sectionImages[i].sectionNumber, d.id), d.sectionImages[i].alignment2d.tvs).Some?
    requires forall i :: 0 <= i < |d.sectionImages| ==>
      0 <= SliceIndex(d, v, d.sectionImages[i].sectionNumber) < v.zsize
    ensures Run(Steps(d, v, load, d.sectionImages)).1.None?
  {
    RunMeaning(Steps(d, v, load, d.sectionImages));
  }

  /** On the grid, distinct section numbers go to distinct slices. */
  lemma OnGridDistinctSlices(d: Dataset, size: StandardSize, factor: nat, l: Layout, m: int, n: int)
    requires StackGeometry(d)
    requires OutputLayout(d, size, factor) == Success(l)
    requires OnGrid(d)
    requires m in SectionNumbers(d.sectionImages) && n in SectionNumbers(d.sectionImages)
    requires m != n
    ensures l.volume.spacing.z != 0.0
    ensures SliceIndex(d, l.volume, m) != SliceIndex(d, l.volume, n)
  {
    OnGridSliceIndex(d, size, factor, l, m);
    OnGridSliceIndex(d, size, factor, l, n);
    var gap := d.minSectionGap;
    var i :| 0 <= i < |d.sectionImages| && d.sectionImages[i].sectionNumber == m;
    var j :| 0 <= j < |d.sectionImages| && d.sectionImages[j].sectionNumber == n;
    DivisionInjective(m - d.minSectionNumber, n - d.minSectionNumber, gap);
  }

  lemma DivisionInjective(a: int, b: int, gap: int)
    requires gap > 0 && a % gap == 0 && b % gap == 0 && a != b
    ensures a / gap != b / gap
  {
    assert a == (a / gap) * gap;
    assert b == (b / gap) * gap;
  }

  /** On the grid, with no repeated section number and every image loading,
      each section's image ends up in its own slice. */
  lemma OnGridEachSectionOwnsSlice(d: Dataset, size: StandardSize, factor: nat, l: Layout, load: Loader, i: nat)
    requires StackGeometry(d)
    requires OutputLayout(d, size, factor) == Success(l)
    requires OnGrid(d)
    requires !HasRepeat(SectionNumbers(d.sectionImages))
    requires forall k :: 0 <= k < |d.sectionImages| ==>
      load(FileName(d.sectionImages[k].sectionNumber, d.id), d.sectionImages[k].alignment2d.tvs).Some?
    requires i < |d.sectionImages|
    ensures l.volume.spacing.z != 0.0
    ensures var x := d.sectionImages[i];
      LastWrite(Run(Steps(d, l.volume, load, d.sectionImages)).0, SliceIndex(d, l.volume, x.sectionNumber))
      == load(FileName(x.sectionNumber, d.id), x.alignment2d.tvs)
  {
    var images := d.sectionImages;
    var ns := SectionNumbers(images);
    OnGridRunCompletes(d, size, factor, l, load);
    forall j | i < j < |images|
      ensures SliceIndex(d, l.volume, images[j].sectionNumber) != SliceIndex(d, l.volume, images[i].sectionNumber)
    {
      assert ns[i] == images[i].sectionNumber && ns[j] == images[j].sectionNumber;
      OnGridDistinctSlices(d, size, factor, l, images[j].sectionNumber, images[i].sectionNumber);
    }
    LastSectionWins(d, l.volume, load, i);
  }

  /** Off the grid the slice count can fall one short: sections 10, 12, 14
      and 17 have gap 2 and span 7, so `round(7/2 + 1)` rounds 4.5 to the even
      4 slices, while section 17 sits 3.5 gaps up and its index rounds half
      up to 4. Even when every image loads, the loop stops there. */
  lemma OffGridSectionOverflows(d: Dataset, size: StandardSize, factor: nat, l: Layout, load: Loader)
    requires WellFormed(d)
    requires OutputLayout(d, size, factor) == Success(l)
    requires |d.sectionImages| == 4
    requires d.sectionImages[0].sectionNumber == 10 && d.sectionImages[1].sectionNumber == 12
    requires d.sectionImages[2].sectionNumber == 14 && d.sectionImages[3].sectionNumber == 17
    requires forall k :: 0 <= k < |d.sectionImages| ==>
      load(FileName(d.sectionImages[k].sectionNumber, d.id), d.sectionImages[k].alignment2d.tvs).Some?
    ensures l.volume.spacing.z != 0.0
    ensures l.volume.zsize == 4
    ensures Run(Steps(d, l.volume, load, d.sectionImages)).1 == Some(ZIndexOutOfRange(17, 4))
  {
    assert d.minSectionNumber == 10 && d.sectionSpan == 7 && d.minSectionGap == 2 by {
      ExampleOffGridSections(d.sectionImages);
    }
    WellFormedFacts(d);
    OffGridRun(d, l.volume, load);
  }

  lemma OffGridRun(d: Dataset, v: Volume, load: Loader)
    requires d.minSectionNumber == 10 && d.sectionSpan == 7 && d.minSectionGap == 2
    requires v.origin.z == d.sectionOrigin && v.spacing.z == d.sectionSpacing && v.spacing.z != 0.0
    requires d.sectionSpacing == Scaled(d.minSectionGap, d.sectionThickness)
    requires d.sectionOrigin == Scaled(d.minSectionNumber, d.sectionThickness)
    requires v.zsize == SliceCount(d.sectionSpan, d.minSectionGap)
    requires |d.sectionImages| == 4
    requires d.sectionImages[0].sectionNumber == 10 && d.sectionImages[1].sectionNumber == 12
    requires d.sectionImages[2].sectionNumber == 14 && d.sectionImages[3].sectionNumber == 17
    requires forall k :: 0 <= k < |d.sectionImages| ==>
      load(FileName(d.sectionImages[k].sectionNumber, d.id), d.sectionImages[k].alignment2d.tvs).Some?
    ensures v.zsize == 4
    ensures Run(Steps(d, v, load, d.sectionImages)).1 == Some(ZIndexOutOfRange(17, 4))
  {
    SevenOverTwo();
    OffGridIndices(d, v);
    var steps := Steps(d, v, load, d.sectionImages);
    assert steps[0].Success? && steps[1].Success? && steps[2].Success?;
    assert steps[3] == Failure(ZIndexOutOfRange(17, 4));
    FirstFailureStops(steps, 3);
  }

  /** A run stops with the error of the first failing step. */
  lemma FirstFailureStops(steps: seq<Result<Write, Error>>, k: nat)
    requires k < |steps| && steps[k].Failure?
    requires forall i :: 0 <= i < k ==> steps[i].Success?
    ensures Run(steps).1 == Some(steps[k].error)
  {
    RunMeaning(steps);
    var (writes, err) := Run(steps);
    assert !steps[k].Success?;
    assert |writes| == k;
  }

  lemma SevenOverTwo()
    ensures SliceCount(7, 2) == 4
  {
    assert 7.0 / 2.0 + 1.0 == 4.5;
  }

  /** Sections 10, 12, 14 and 17 over smallest number 10 and gap 2 land at
      0, 1, 2 and 4: 3.5 gaps round half up. */
  lemma OffGridIndices(d: Dataset, v: Volume)
    requires d.minSectionNumber == 10 && d.minSectionGap == 2
    requires v.origin.z == d.sectionOrigin && v.spacing.z == d.sectionSpacing && v.spacing.z != 0.0
    requires d.sectionSpacing == Scaled(d.minSectionGap, d.sectionThickness)
    requires d.sectionOrigin == Scaled(d.minSectionNumber, d.sectionThickness)
    ensures SliceIndex(d, v, 10) == 0 && SliceIndex(d, v, 12) == 1
    ensures SliceIndex(d, v, 14) == 2 && SliceIndex(d, v, 17) == 4
  {
    StackIndex(d, v, 10);
    StackIndex(d, v, 12);
    StackIndex(d, v, 14);
    StackIndex(d, v, 17);
    assert (17 - 10) as real / 2 as real == 3.5;
  }
}
