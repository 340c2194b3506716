/** The list primitives `compute_section_info` is built from: numpy's `sort`
    and `diff`, and the smallest element of a list. */
module Sorting {

  ghost predicate Sorted(s: seq<int>) {
    forall i, j :: 0 <= i < j < |s| ==> s[i] <= s[j]
  }

  /** `m` is an element of `s` and no element is smaller. */
  ghost predicate IsLeast(s: seq<int>, m: int) {
    m in s && forall x :: x in s ==> m <= x
  }

  /** `m` is an element of `s` and no element is larger. */
  ghost predicate IsGreatest(s: seq<int>, m: int) {
    m in s && forall x :: x in s ==> x <= m
  }

  ghost predicate IsLeastReal(s: seq<real>, m: real) {
    m in s && forall x :: x in s ==> m <= x
  }

  function Insert(x: int, s: seq<int>): (r: seq<int>)
    requires Sorted(s)
    ensures |r| == |s| + 1
    ensures Sorted(r)
    ensures multiset(r) == multiset(s) + multiset{x}
  {
    if s == [] || x <= s[0] then
      PrependSorted(x, s);
      [x] + s
    else
      var tail := Insert(x, s[1..]);
      assert s == [s[0]] + s[1..];
      InsertedAbove(s[0], x, s[1..], tail);
      PrependSorted(s[0], tail);
      [s[0]] + tail
  }

  /** An element no larger than the head of an ascending list extends it. */
  lemma PrependSorted(lo: int, t: seq<int>)
    requires Sorted(t) && (t == [] || lo <= t[0])
    ensures Sorted([lo] + t)
  {
    var r := [lo] + t;
    forall i, j | 0 <= i < j < |r| ensures r[i] <= r[j] {
      if i == 0 { assert r[j] == t[j - 1] && t[0] <= t[j - 1]; }
      else { assert r[i] == t[i - 1] && r[j] == t[j - 1]; }
    }
  }

  lemma InsertedAbove(lo: int, x: int, s: seq<int>, t: seq<int>)
    requires lo <= x && forall e :: e in s ==> lo <= e
    requires multiset(t) == multiset(s) + multiset{x}
    ensures t == [] || lo <= t[0]
  {
    if t != [] {
      assert t[0] in multiset(t);
      if t[0] != x {
        assert t[0] in multiset(s);
        assert t[0] in s;
      }
    }
  }

  /** `np.sort`: an ascending permutation of `s`. */
  function Sort(s: seq<int>): (r: seq<int>)
    ensures |r| == |s|
    ensures Sorted(r)
    ensures multiset(r) == multiset(s)
  {
    if s == [] then []
    else
      assert s == [s[0]] + s[1..];
      Insert(s[0], Sort(s[1..]))
  }

  /** `np.diff`: the differences of neighbouring elements. */
  function Diff(s: seq<int>): (r: seq<int>)
    ensures |r| == if s == [] then 0 else |s| - 1
    ensures forall i :: 0 <= i < |r| ==> r[i] == s[i + 1] - s[i]
  {
    if |s| < 2 then [] else [s[1] - s[0]] + Diff(s[1..])
  }

  /** The smallest value of a non-empty list of reals. */
  function MinReal(s: seq<real>): (m: real)
    requires |s| > 0
    ensures IsLeastReal(s, m)
  {
    if |s| == 1 then s[0]
    else
      var rest := MinReal(s[1..]);
      assert s == [s[0]] + s[1..];
      if s[0] <= rest then s[0] else rest
  }

  /** The first element of an ascending list is its least element. */
  lemma SortedFirstIsLeast(s: seq<int>)
    requires Sorted(s) && |s| > 0
    ensures IsLeast(s, s[0])
  {
  }

  /** The last element of an ascending list is its greatest element. */
  lemma SortedLastIsGreatest(s: seq<int>)
    requires Sorted(s) && |s| > 0
    ensures IsGreatest(s, s[|s| - 1])
  {
  }

  lemma MembersOfPermutation(a: seq<int>, b: seq<int>)
    requires multiset(a) == multiset(b)
    ensures forall x :: x in a <==> x in b
  {
    forall x ensures x in a <==> x in b {
      assert x in a <==> x in multiset(a);
      assert x in b <==> x in multiset(b);
    }
  }

  /** The first and last elements of the sorted list are the least and the
      greatest of the original list. */
  lemma SortExtremes(s: seq<int>)
    requires |s| > 0
    ensures |Sort(s)| == |s|
    ensures IsLeast(s, Sort(s)[0])
    ensures IsGreatest(s, Sort(s)[|s| - 1])
  {
    var t := Sort(s);
    SortedFirstIsLeast(t);
    SortedLastIsGreatest(t);
    MembersOfPermutation(t, s);
    ExtremesOfSameMembers(t, s, t[0], t[|t| - 1]);
  }

  lemma ExtremesOfSameMembers(t: seq<int>, s: seq<int>, lo: int, hi: int)
    requires forall x :: x in t <==> x in s
    requires IsLeast(t, lo) && IsGreatest(t, hi)
    ensures IsLeast(s, lo) && IsGreatest(s, hi)
  {
  }

  /** Sorting an ascending list leaves it as it is. */
  lemma SortOfSorted(s: seq<int>)
    requires Sorted(s)
    ensures Sort(s) == s
  {
    SortedUnique(Sort(s), s);
  }

  /** There is only one ascending arrangement of a multiset. */
  lemma {:induction false} SortedUnique(a: seq<int>, b: seq<int>)
    requires Sorted(a) && Sorted(b)
    requires multiset(a) == multiset(b)
    ensures a == b
  {
    assert |a| == |b| by { assert |multiset(a)| == |multiset(b)|; }
    if a != [] {
      SortedHeadIsLeast(a, b[0]);
      SortedHeadIsLeast(b, a[0]);
      TailMultiset(a, b);
      SortedUnique(a[1..], b[1..]);
      assert a == [a[0]] + a[1..] && b == [b[0]] + b[1..];
    }
  }

  lemma SortedHeadIsLeast(s: seq<int>, v: int)
    requires Sorted(s) && v in multiset(s)
    ensures s[0] <= v
  {
    var i :| 0 <= i < |s| && s[i] == v;
  }

  lemma TailMultiset(a: seq<int>, b: seq<int>)
    requires a != [] && b != [] && a[0] == b[0]
    requires multiset(a) == multiset(b)
    ensures multiset(a[1..]) == multiset(b[1..])
  {
    assert a == [a[0]] + a[1..] && b == [b[0]] + b[1..];
    var ma, mb := multiset(a[1..]), multiset(b[1..]);
    assert multiset(a) == multiset{a[0]} + ma;
    assert multiset(b) == multiset{a[0]} + mb;
    forall v ensures ma[v] == mb[v] {
      assert multiset(a)[v] == multiset(b)[v];
    }
  }

  /** The least element is determined by the elements alone. */
  lemma LeastRealUnique(a: seq<real>, b: seq<real>, m: real, n: real)
    requires multiset(a) == multiset(b)
    requires IsLeastReal(a, m) && IsLeastReal(b, n)
    ensures m == n
  {
    assert m in multiset(a) && n in multiset(b);
    assert m in b && n in a;
  }

  /** Some value occurs twice. */
  ghost predicate HasRepeat(ns: seq<int>) {
    exists i, j :: 0 <= i < j < |ns| && ns[i] == ns[j]
  }

  /** A repeated value shows up as a zero difference of neighbours once sorted. */
  lemma RepeatGivesZeroDiff(ns: seq<int>)
    requires HasRepeat(ns)
    ensures 0 in Diff(Sort(ns))
  {
    var i, j :| 0 <= i < j < |ns| && ns[i] == ns[j];
    MultiplicityFromTwice(ns, i, j);
    SortedTwiceGivesZeroDiff(Sort(ns), ns[i]);
  }

  lemma SortedTwiceGivesZeroDiff(s: seq<int>, v: int)
    requires Sorted(s) && multiset(s)[v] >= 2
    ensures 0 in Diff(s)
  {
    TwiceFromMultiplicity(s, v);
    var p, q :| 0 <= p < q < |s| && s[p] == v && s[q] == v;
    SortedRepeatIsAdjacent(s, p, q);
  }

  /** In an ascending list, two equal elements have an equal right neighbour. */
  lemma SortedRepeatIsAdjacent(s: seq<int>, p: nat, q: nat)
    requires Sorted(s) && p < q < |s| && s[p] == s[q]
    ensures Diff(s)[p] == 0
  {
    assert s[p] <= s[p + 1] <= s[q];
  }

  /** A zero difference of sorted neighbours comes from a repeated value. */
  lemma ZeroDiffGivesRepeat(ns: seq<int>)
    requires 0 in Diff(Sort(ns))
    ensures HasRepeat(ns)
  {
    var s := Sort(ns);
    var d := Diff(s);
    var p :| 0 <= p < |d| && d[p] == 0;
    MultiplicityFromTwice(s, p, p + 1);
    TwiceFromMultiplicity(ns, s[p]);
  }

  /** A value occurs twice in a list exactly when its multiplicity is at least two. */
  lemma {:induction false} TwiceFromMultiplicity(s: seq<int>, v: int)
    requires multiset(s)[v] >= 2
    ensures exists i, j :: 0 <= i < j < |s| && s[i] == v && s[j] == v
  {
    assert s == [s[0]] + s[1..];
    if s[0] == v {
      assert v in multiset(s[1..]);
      var j :| 0 <= j < |s[1..]| && s[1..][j] == v;
      assert s[0] == v && s[j + 1] == v;
    } else {
      TwiceFromMultiplicity(s[1..], v);
      var i, j :| 0 <= i < j < |s[1..]| && s[1..][i] == v && s[1..][j] == v;
      assert s[i + 1] == v && s[j + 1] == v;
    }
  }

  lemma MultiplicityFromTwice(s: seq<int>, i: nat, j: nat)
    requires i < j < |s| && s[i] == s[j]
    ensures multiset(s)[s[i]] >= 2
  {
    assert s == s[..j] + s[j..];
    assert s[..j][i] == s[i];
    assert s[j..][0] == s[j];
    assert multiset(s[..j])[s[i]] >= 1 && multiset(s[j..])[s[i]] >= 1;
  }
}
