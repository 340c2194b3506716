/** `compute_section_info`: the stack statistics derived from the section list. */
module SectionInfo {
  import opened Wrappers
  import opened Errors
  import opened Sorting
  import opened Records

  datatype Info = Info(sectionSpan: int, minSectionNumber: int, minSectionGap: int, minResolution: real)

  /** Sort the section numbers, take the first, the span and the smallest
      neighbouring difference; take the smallest resolution. Both `indices[0]`
      and `diff[0]` need the list, so fewer than two sections fail. Differing
      resolutions do not fail: the warning in the source is a bare string. */
  function ComputeSectionInfo(images: seq<SectionImage>): (r: Result<Info, Error>)
    ensures r.Success? <==> |images| >= 2
    ensures r.Failure? ==> r.error == TooFewSections(|images|)
  {
    if |images| < 2 then Failure(TooFewSections(|images|))
    else
      var indices := Sort(SectionNumbers(images));
      var diff := Sort(Diff(indices));
      Success(Info(indices[|indices| - 1] - indices[0], indices[0], diff[0], MinReal(Resolutions(images))))
  }

  /** What the statistics are, whatever the order of the list: the smallest
      section number, the distance from it to the largest, the smallest
      difference of numerically neighbouring section numbers (never negative),
      and the smallest resolution. */
  lemma SectionInfoMeaning(images: seq<SectionImage>)
    requires |images| >= 2
    ensures var info := ComputeSectionInfo(images).value;
      var ns := SectionNumbers(images);
      && IsLeast(ns, info.minSectionNumber)
      && IsGreatest(ns, info.minSectionNumber + info.sectionSpan)
      && info.sectionSpan >= 0
      && IsLeast(Diff(Sort(ns)), info.minSectionGap)
      && info.minSectionGap >= 0
      && IsLeastReal(Resolutions(images), info.minResolution)
  {
    var ns := SectionNumbers(images);
    StatisticsOfSorted(images);
    NumberStatistics(ns);
    var info := ComputeSectionInfo(images).value;
    assert info.minSectionNumber + info.sectionSpan == Sort(ns)[|ns| - 1];
  }

  /** The two ends of the stack, for a caller that already knows the
      smallest number and the span that the statistics hold. */
  lemma StackEnds(images: seq<SectionImage>, lo: int, span: int)
    requires ComputeSectionInfo(images).Success?
    requires ComputeSectionInfo(images).value.minSectionNumber == lo
    requires ComputeSectionInfo(images).value.sectionSpan == span
    ensures IsLeast(SectionNumbers(images), lo)
    ensures IsGreatest(SectionNumbers(images), lo + span)
  {
    SectionInfoMeaning(images);
  }

  /** The number statistics of a list of at least two section numbers, read
      off its sorted copy. */
  lemma NumberStatistics(ns: seq<int>)
    requires |ns| >= 2
    ensures var indices := Sort(ns);
      var lo, hi, gap := indices[0], indices[|ns| - 1], Sort(Diff(indices))[0];
      && IsLeast(ns, lo) && IsGreatest(ns, hi) && hi - lo >= 0
      && IsLeast(Diff(indices), gap) && gap >= 0
  {
    var indices := Sort(ns);
    var diffs := Diff(indices);
    SortExtremes(ns);
    SortExtremes(diffs);
    DiffOfSortedNonNegative(indices);
    var lo, hi := indices[0], indices[|ns| - 1];
    assert lo <= hi by { assert hi in ns; }
    assert Sort(diffs)[0] >= 0 by { assert Sort(diffs)[0] in diffs; }
  }

  /** The statistics read off the sorted numbers and the sorted differences. */
  lemma StatisticsOfSorted(images: seq<SectionImage>)
    requires |images| >= 2
    ensures var indices := Sort(SectionNumbers(images));
      && |indices| == |images| && |Sort(Diff(indices))| == |images| - 1
      && ComputeSectionInfo(images).Success?
      && ComputeSectionInfo(images).value.minSectionNumber == indices[0]
      && ComputeSectionInfo(images).value.sectionSpan == indices[|images| - 1] - indices[0]
      && ComputeSectionInfo(images).value.minSectionGap == Sort(Diff(indices))[0]
      && ComputeSectionInfo(images).value.minResolution == MinReal(Resolutions(images))
  {
  }

  lemma DiffOfSortedNonNegative(s: seq<int>)
    requires Sorted(s)
    ensures forall x :: x in Diff(s) ==> x >= 0
  {
  }

  /** Reordering the sections changes nothing: the statistics depend only on
      the multisets of section numbers and of resolutions. */
  lemma OrderIndependent(a: seq<SectionImage>, b: seq<SectionImage>)
    requires multiset(SectionNumbers(a)) == multiset(SectionNumbers(b))
    requires multiset(Resolutions(a)) == multiset(Resolutions(b))
    ensures ComputeSectionInfo(a) == ComputeSectionInfo(b)
  {
    NumbersOrderIndependent(a, b);
    if |a| >= 2 {
      ResolutionOrderIndependent(a, b);
    }
  }

  /** Sorting forgets the order of the list, and the number statistics are
      read off the sorted list alone. */
  lemma NumbersOrderIndependent(a: seq<SectionImage>, b: seq<SectionImage>)
    requires multiset(SectionNumbers(a)) == multiset(SectionNumbers(b))
    ensures |a| == |b|
    ensures |a| >= 2 ==>
      var x, y := ComputeSectionInfo(a).value, ComputeSectionInfo(b).value;
      x.minSectionNumber == y.minSectionNumber && x.sectionSpan == y.sectionSpan && x.minSectionGap == y.minSectionGap
  {
    var na, nb := SectionNumbers(a), SectionNumbers(b);
    assert |a| == |b| by {
      assert |multiset(na)| == |multiset(nb)|;
    }
    if |a| >= 2 {
      assert Sort(na) == Sort(nb) by {
        SortedUnique(Sort(na), Sort(nb));
      }
      SameSortedNumbers(a, b);
    }
  }

  lemma SameSortedNumbers(a: seq<SectionImage>, b: seq<SectionImage>)
    requires |a| >= 2 && |b| >= 2
    requires Sort(SectionNumbers(a)) == Sort(SectionNumbers(b))
    ensures var x, y := ComputeSectionInfo(a).value, ComputeSectionInfo(b).value;
      x.minSectionNumber == y.minSectionNumber && x.sectionSpan == y.sectionSpan && x.minSectionGap == y.minSectionGap
  {
  }

  lemma ResolutionOrderIndependent(a: seq<SectionImage>, b: seq<SectionImage>)
    requires |a| >= 2 && |b| >= 2
    requires multiset(Resolutions(a)) == multiset(Resolutions(b))
    ensures ComputeSectionInfo(a).value.minResolution == ComputeSectionInfo(b).value.minResolution
  {
    var x, y := ComputeSectionInfo(a).value, ComputeSectionInfo(b).value;
    SectionInfoMeaning(a);
    SectionInfoMeaning(b);
    LeastRealUnique(Resolutions(a), Resolutions(b), x.minResolution, y.minResolution);
  }

  /** The smallest gap is zero exactly when two sections share a number: the
      gap is not restricted to positive differences. */
  lemma GapZeroIffRepeat(images: seq<SectionImage>)
    requires |images| >= 2
    ensures ComputeSectionInfo(images).value.minSectionGap == 0 <==> HasRepeat(SectionNumbers(images))
  {
    var ns := SectionNumbers(images);
    SectionInfoMeaning(images);
    if HasRepeat(ns) {
      RepeatGivesZeroDiff(ns);
    }
    if ComputeSectionInfo(images).value.minSectionGap == 0 {
      ZeroDiffGivesRepeat(ns);
    }
  }

  /** When the section numbers and their differences already ascend, the
      statistics are the first number, last minus first, and the first difference. */
  lemma AscendingStack(images: seq<SectionImage>)
    requires |images| >= 2
    requires Sorted(SectionNumbers(images)) && Sorted(Diff(SectionNumbers(images)))
    ensures var ns, info := SectionNumbers(images), ComputeSectionInfo(images).value;
      && info.minSectionNumber == ns[0]
      && info.sectionSpan == ns[|ns| - 1] - ns[0]
      && info.minSectionGap == Diff(ns)[0]
  {
    var ns := SectionNumbers(images);
    SortOfSorted(ns);
    SortOfSorted(Diff(ns));
  }

  /** Sections numbered 10, 13 and 17: the smallest number is 10, the span 7
      and the gap 3 (the differences are 3 and 4). */
  lemma ExampleSections(images: seq<SectionImage>)
    requires |images| == 3
    requires images[0].sectionNumber == 10 && images[1].sectionNumber == 13 && images[2].sectionNumber == 17
    ensures ComputeSectionInfo(images).Success?
    ensures var info := ComputeSectionInfo(images).value;
      info.minSectionNumber == 10 && info.sectionSpan == 7 && info.minSectionGap == 3
  {
    var ns := SectionNumbers(images);
    assert ns == [10, 13, 17];
    assert Diff(ns) == [3, 4];
    AscendingStack(images);
  }

  /** Sections numbered 10, 12, 14 and 17: the smallest number is 10, the
      span 7 and the gap 2, which 17 is not a whole multiple of away from 10. */
  lemma ExampleOffGridSections(images: seq<SectionImage>)
    requires |images| == 4
    requires images[0].sectionNumber == 10 && images[1].sectionNumber == 12
    requires images[2].sectionNumber == 14 && images[3].sectionNumber == 17
    ensures ComputeSectionInfo(images).Success?
    ensures var info := ComputeSectionInfo(images).value;
      info.minSectionNumber == 10 && info.sectionSpan == 7 && info.minSectionGap == 2
  {
    var ns := SectionNumbers(images);
    assert ns == [10, 12, 14, 17];
    assert Diff(ns) == [2, 2, 3];
    AscendingStack(images);
  }
}
