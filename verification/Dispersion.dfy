/** Outliers of a group of readings: those more than three median absolute deviations above the
    median of the group. Floating-point readings are exact reals here. */
module Dispersion {
  import opened Wrappers
  import opened Scenarios
  import opened Sorting

  function Ascending(): (real, real) -> bool {
    (x: real, y: real) => x <= y
  }

  lemma AscendingIsPreorder()
    ensures TotalPreorder(Ascending())
  {}

  function MedianOf(s: seq<real>): Option<real> {
    if s == [] then None
    else
      SortKeepsElements(Ascending(), s);
      var t, m := Sort(Ascending(), s), |s| / 2;
      Some(if |s| % 2 == 0 then (t[m - 1] + t[m]) / 2.0 else t[m])
  }

  /** Leaves the slice sorted, as the source's in-place sort does. */
  method Median(values: array<real>) returns (r: Option<real>)
    modifies values
    ensures r == MedianOf(old(values[..]))
    ensures values[..] == Sort(Ascending(), old(values[..]))
  {
    ghost var was := values[..];
    SortKeepsElements(Ascending(), was);
    if values.Length == 0 {
      return None;
    }
    var sorted := Sort(Ascending(), values[..]);
    forall i | 0 <= i < values.Length {
      values[i] := sorted[i];
    }
    assert values[..] == sorted;
    var middle := values.Length / 2;
    r := Some(if values.Length % 2 == 0 then (values[middle - 1] + values[middle]) / 2.0 else values[middle]);
  }

  // ----- order statistics by counting -----

  function CountBelow(s: seq<real>, v: real): (n: nat)
    ensures n <= |s|
  {
    if s == [] then 0 else (if s[0] < v then 1 else 0) + CountBelow(s[1..], v)
  }

  function CountUpTo(s: seq<real>, v: real): (n: nat)
    ensures n <= |s|
  {
    if s == [] then 0 else (if s[0] <= v then 1 else 0) + CountUpTo(s[1..], v)
  }

  lemma {:induction false} InsertCounts(x: real, s: seq<real>, v: real)
    ensures CountBelow(Insert(Ascending(), x, s), v) == CountBelow(s, v) + if x < v then 1 else 0
    ensures CountUpTo(Insert(Ascending(), x, s), v) == CountUpTo(s, v) + if x <= v then 1 else 0
  {
    var r := Insert(Ascending(), x, s);
    if s == [] || x <= s[0] {
      assert r[1..] == s;
    } else {
      InsertCounts(x, s[1..], v);
      assert r[1..] == Insert(Ascending(), x, s[1..]);
    }
  }

  lemma {:induction false} SortCounts(s: seq<real>, v: real)
    ensures CountBelow(Sort(Ascending(), s), v) == CountBelow(s, v)
    ensures CountUpTo(Sort(Ascending(), s), v) == CountUpTo(s, v)
  {
    if s == [] {
    } else {
      SortCounts(s[1..], v);
      InsertCounts(s[0], Sort(Ascending(), s[1..]), v);
    }
  }

  /** In a sorted list the elements below `v` are the first ones. */
  lemma {:induction false} CountsAreBoundaries(t: seq<real>, v: real)
    requires SortedBy(Ascending(), t)
    ensures forall i :: 0 <= i < |t| ==> (t[i] < v <==> i < CountBelow(t, v))
    ensures forall i :: 0 <= i < |t| ==> (t[i] <= v <==> i < CountUpTo(t, v))
  {
    if t == [] {
    } else {
      CountsAreBoundaries(t[1..], v);
      var rest := t[1..];
      forall i | 0 <= i < |t|
        ensures (t[i] < v <==> i < CountBelow(t, v)) && (t[i] <= v <==> i < CountUpTo(t, v))
      {
        assert i > 0 ==> t[i] == rest[i - 1] && Ascending()(t[0], t[i]);
        assert t[0] > v ==> CountUpTo(rest, v) == 0 by {
          if t[0] > v && rest != [] { assert Ascending()(t[0], rest[0]); assert rest[0] > v; }
        }
        assert t[0] >= v ==> CountBelow(rest, v) == 0 by {
          if t[0] >= v && rest != [] { assert Ascending()(t[0], rest[0]); assert rest[0] >= v; }
        }
      }
    }
  }

  lemma SortedReals(s: seq<real>)
    ensures SortedBy(Ascending(), Sort(Ascending(), s)) && |Sort(Ascending(), s)| == |s|
    ensures forall x :: x in Sort(Ascending(), s) <==> x in s
  {
    AscendingIsPreorder();
    SortSorts(Ascending(), s);
    SortKeepsMembers(Ascending(), s);
  }

  /** The element of rank `j` is read off the counts alone, in whatever order the list is. */
  lemma RankByCounts(s: seq<real>, j: nat, v: real)
    requires j < |s|
    ensures |Sort(Ascending(), s)| == |s|
    ensures Sort(Ascending(), s)[j] == v <==> CountBelow(s, v) <= j < CountUpTo(s, v)
  {
    SortedReals(s);
    SortCounts(s, v);
    CountsAreBoundaries(Sort(Ascending(), s), v);
  }

  /** `v` stands at place `j` of the list in ascending order, told by counting alone. */
  predicate HasRank(s: seq<real>, j: nat, v: real) {
    CountBelow(s, v) <= j < CountUpTo(s, v)
  }

  ghost predicate Halfway(s: seq<real>, l: nat, h: nat, v: real) {
    exists a, b :: HasRank(s, l, a) && HasRank(s, h, b) && v == (a + b) / 2.0
  }

  /** The median is halfway between the two values in the middle, which for an odd number are one. */
  lemma MedianIffHalfway(s: seq<real>, v: real)
    ensures MedianOf(s) == Some(v) <==> s != [] && Halfway(s, (|s| - 1) / 2, |s| / 2, v)
  {
    if s == [] {
    } else {
      hide CountBelow, CountUpTo, Sort;
      SortedReals(s);
      var t, l, h := Sort(Ascending(), s), (|s| - 1) / 2, |s| / 2;
      RankByCounts(s, l, t[l]);
      RankByCounts(s, h, t[h]);
      forall a, b | HasRank(s, l, a) && HasRank(s, h, b) ensures a == t[l] && b == t[h] {
        RankByCounts(s, l, a);
        RankByCounts(s, h, b);
      }
      assert HasRank(s, l, t[l]) && HasRank(s, h, t[h]);
      hide MedianOf, HasRank;
      MiddleOfSorted(s);
      assert Halfway(s, l, h, (t[l] + t[h]) / 2.0);
    }
  }

  lemma MiddleOfSorted(s: seq<real>)
    requires s != []
    ensures
      var t := Sort(Ascending(), s);
      |t| == |s| && MedianOf(s) == Some((t[(|s| - 1) / 2] + t[|s| / 2]) / 2.0)
  {
    hide Sort;
    SortKeepsElements(Ascending(), s);
    var t, m := Sort(Ascending(), s), |s| / 2;
    MiddleOf(|s|);
    HalfOfTwice(t[m]);
  }

  lemma MiddleOf(n: nat)
    requires n > 0
    ensures (n - 1) / 2 == if n % 2 == 0 then n / 2 - 1 else n / 2
  {}

  lemma HalfOfTwice(x: real)
    ensures (x + x) / 2.0 == x
  {}

  function Reflected(s: seq<real>, c: real): (r: seq<real>)
    ensures |r| == |s| && forall i :: 0 <= i < |r| ==> r[i] == c - s[i]
  {
    seq(|s|, i requires 0 <= i < |s| => c - s[i])
  }

  lemma {:induction false} ReflectedCounts(s: seq<real>, c: real, v: real)
    ensures CountBelow(Reflected(s, c), c - v) == |s| - CountUpTo(s, v)
    ensures CountUpTo(Reflected(s, c), c - v) == |s| - CountBelow(s, v)
  {
    if s == [] {
    } else {
      ReflectedCounts(s[1..], c, v);
      assert Reflected(s, c)[1..] == Reflected(s[1..], c);
    }
  }

  /** Reflecting every reading reflects the median: neither side of the middle is preferred. */
  lemma MedianReflects(s: seq<real>, c: real, v: real)
    requires MedianOf(s) == Some(v)
    ensures MedianOf(Reflected(s, c)) == Some(c - v)
  {
    hide MedianOf, CountBelow, CountUpTo;
    MedianIffHalfway(s, v);
    var r := Reflected(s, c);
    var l, h := (|s| - 1) / 2, |s| / 2;
    var a, b :| HasRank(s, l, a) && HasRank(s, h, b) && v == (a + b) / 2.0;
    ReflectedCounts(s, c, a);
    ReflectedCounts(s, c, b);
    assert |r| - 1 - h == l && |r| - 1 - l == h;
    assert HasRank(r, l, c - b) && HasRank(r, h, c - a);
    assert c - v == ((c - b) + (c - a)) / 2.0;
    MedianIffHalfway(r, c - v);
  }

  lemma {:induction false} RaisingKeepsLowerCounts(s: seq<real>, i: nat, y: real, v: real)
    requires i < |s| && v < s[i] <= y
    ensures CountBelow(s[i := y], v) == CountBelow(s, v)
    ensures CountUpTo(s[i := y], v) == CountUpTo(s, v)
  {
    if i == 0 {
      assert s[i := y][1..] == s[1..];
    } else {
      RaisingKeepsLowerCounts(s[1..], i - 1, y, v);
      assert s[i := y][1..] == s[1..][i - 1 := y];
    }
  }

  /** Raising an element above the middle does not move the median. */
  lemma MedianUnmoved(s: seq<real>, i: nat, y: real)
    requires i < |s| && |Sort(Ascending(), s)| == |s|
    requires Sort(Ascending(), s)[|s| / 2] < s[i] <= y
    ensures MedianOf(s[i := y]) == MedianOf(s)
    ensures |Sort(Ascending(), s[i := y])| == |s|
  {
    var t, m := Sort(Ascending(), s), |s| / 2;
    SortedReals(s);
    SortedReals(s[i := y]);
    forall j | 0 <= j <= m ensures Sort(Ascending(), s[i := y])[j] == t[j] {
      assert j < m ==> Ascending()(t[j], t[m]);
      RankByCounts(s, j, t[j]);
      RaisingKeepsLowerCounts(s, i, y, t[j]);
      RankByCounts(s[i := y], j, t[j]);
    }
  }

  // ----- the dispersion of a group -----

  datatype Dispersion = Dispersion(centre: real, spread: real) {
    function Cutoff(): real {
      centre + 3.0 * spread
    }

    predicate Admits(value: nat) {
      value as real <= Cutoff()
    }
  }

  /** Refuses a spread of zero, which leaves no room around the centre. */
  function Parse(centre: real, spread: real): Option<Dispersion> {
    if spread <= 0.0 then None else Some(Dispersion(centre, spread))
  }

  function Abs(x: real): real {
    if x < 0.0 then -x else x
  }

  function Readings(values: seq<nat>): (r: seq<real>)
    ensures |r| == |values| && forall i :: 0 <= i < |r| ==> r[i] == values[i] as real
  {
    seq(|values|, i requires 0 <= i < |values| => values[i] as real)
  }

  function Deviations(readings: seq<real>, centre: real): (r: seq<real>)
    ensures |r| == |readings| && forall i :: 0 <= i < |r| ==> r[i] == Abs(readings[i] - centre)
  {
    seq(|readings|, i requires 0 <= i < |readings| => Abs(readings[i] - centre))
  }

  function MeasureOf(values: seq<nat>): Option<Dispersion> {
    match MedianOf(Readings(values))
    case None => None
    case Some(centre) =>
      match MedianOf(Deviations(Readings(values), centre))
      case None => None
      case Some(spread) => Parse(centre, spread)
  }

  function CountWithin(s: seq<real>, centre: real, v: real, strictly: bool): nat {
    if s == [] then 0
    else
      var x := Abs(s[0] - centre);
      (if x < v || (x == v && !strictly) then 1 else 0) + CountWithin(s[1..], centre, v, strictly)
  }

  lemma {:induction false} DeviationCounts(s: seq<real>, centre: real, v: real)
    ensures CountBelow(Deviations(s, centre), v) == CountWithin(s, centre, v, true)
    ensures CountUpTo(Deviations(s, centre), v) == CountWithin(s, centre, v, false)
  {
    if s == [] {
    } else {
      DeviationCounts(s[1..], centre, v);
      assert Deviations(s, centre)[1..] == Deviations(s[1..], centre);
    }
  }

  lemma {:induction false} InsertCountsWithin(x: real, s: seq<real>, centre: real, v: real, strictly: bool)
    ensures CountWithin(Insert(Ascending(), x, s), centre, v, strictly) == CountWithin([x] + s, centre, v, strictly)
  {
    assert ([x] + s)[1..] == s;
    if s != [] && s[0] < x {
      InsertCountsWithin(x, s[1..], centre, v, strictly);
      assert ([x] + s[1..])[1..] == s[1..];
      assert Insert(Ascending(), x, s)[1..] == Insert(Ascending(), x, s[1..]);
    }
  }

  lemma {:induction false} SortCountsWithin(s: seq<real>, centre: real, v: real, strictly: bool)
    ensures CountWithin(Sort(Ascending(), s), centre, v, strictly) == CountWithin(s, centre, v, strictly)
  {
    if s == [] {
    } else {
      SortCountsWithin(s[1..], centre, v, strictly);
      var rest := Sort(Ascending(), s[1..]);
      InsertCountsWithin(s[0], rest, centre, v, strictly);
      assert ([s[0]] + rest)[1..] == rest;
    }
  }

  lemma SameCountsSameSort(a: seq<real>, b: seq<real>)
    requires |a| == |b|
    requires forall v :: CountBelow(a, v) == CountBelow(b, v) && CountUpTo(a, v) == CountUpTo(b, v)
    ensures Sort(Ascending(), a) == Sort(Ascending(), b)
  {
    SortedReals(a);
    SortedReals(b);
    forall j | 0 <= j < |a| ensures Sort(Ascending(), a)[j] == Sort(Ascending(), b)[j] {
      var v := Sort(Ascending(), b)[j];
      RankByCounts(b, j, v);
      RankByCounts(a, j, v);
    }
  }

  lemma SortedDeviationCounts(s: seq<real>, centre: real, v: real)
    ensures var a, b := Deviations(Sort(Ascending(), s), centre), Deviations(s, centre);
      CountBelow(a, v) == CountBelow(b, v) && CountUpTo(a, v) == CountUpTo(b, v)
  {
    hide Sort, Deviations, CountBelow, CountUpTo, CountWithin;
    SortCountsWithin(s, centre, v, true);
    SortCountsWithin(s, centre, v, false);
    DeviationCounts(Sort(Ascending(), s), centre, v);
    DeviationCounts(s, centre, v);
  }

  /** Measuring deviations over the sorted readings changes nothing. */
  lemma MedianOfSortedDeviations(s: seq<real>, centre: real)
    ensures MedianOf(Deviations(Sort(Ascending(), s), centre)) == MedianOf(Deviations(s, centre))
  {
    hide Sort, Deviations, CountBelow, CountUpTo, CountWithin, MedianOf;
    SortedReals(s);
    var a, b := Deviations(Sort(Ascending(), s), centre), Deviations(s, centre);
    forall v ensures CountBelow(a, v) == CountBelow(b, v) && CountUpTo(a, v) == CountUpTo(b, v) {
      SortedDeviationCounts(s, centre, v);
    }
    SameCountsSameSort(a, b);
    SameSortSameMedian(a, b);
  }

  lemma SameSortSameMedian(a: seq<real>, b: seq<real>)
    requires |a| == |b| && Sort(Ascending(), a) == Sort(Ascending(), b)
    ensures MedianOf(a) == MedianOf(b)
  {
    hide Sort;
  }

  /** Measures a group in place, and gives nothing for one that has no usable spread. */
  method Measure(values: seq<nat>) returns (r: Option<Dispersion>)
    ensures r == MeasureOf(values)
  {
    hide MedianOf, Sort, Readings, Deviations;
    var readings := new real[|values|](i requires 0 <= i < |values| => values[i] as real);
    assert readings[..] == Readings(values);
    var centre := Median(readings);
    if centre.None? {
      return None;
    }
    ghost var sorted := Sort(Ascending(), Readings(values));
    MedianOfSortedDeviations(Readings(values), centre.value);
    var deviations := new real[readings.Length](
      i requires 0 <= i < readings.Length reads readings => Abs(readings[i] - centre.value));
    assert deviations[..] == Deviations(sorted, centre.value);
    var spread := Median(deviations);
    if spread.None? {
      return None;
    }
    r := Parse(centre.value, spread.value);
  }

  // ----- which groups are refused -----

  function CountOf(s: seq<real>, v: real): (n: nat)
    ensures n <= |s|
  {
    if s == [] then 0 else (if s[0] == v then 1 else 0) + CountOf(s[1..], v)
  }

  lemma {:induction false} CountOfSplits(s: seq<real>, v: real)
    ensures CountUpTo(s, v) == CountBelow(s, v) + CountOf(s, v)
  {
    if s == [] {
    } else {
      CountOfSplits(s[1..], v);
    }
  }

  lemma {:induction false} NoneBelowZero(s: seq<real>)
    requires forall i :: 0 <= i < |s| ==> s[i] >= 0.0
    ensures CountBelow(s, 0.0) == 0
  {
    if s == [] {
    } else {
      NoneBelowZero(s[1..]);
    }
  }

  lemma {:induction false} ZeroDeviations(s: seq<real>, centre: real)
    ensures CountOf(Deviations(s, centre), 0.0) == CountOf(s, centre)
  {
    if s == [] {
    } else {
      ZeroDeviations(s[1..], centre);
      assert Deviations(s, centre)[1..] == Deviations(s[1..], centre);
    }
  }

  /** The median of amounts of at least zero is zero exactly when more than half of them are. */
  lemma MedianZero(s: seq<real>)
    requires s != [] && forall i :: 0 <= i < |s| ==> s[i] >= 0.0
    ensures MedianOf(s).Some? && (MedianOf(s).value <= 0.0 <==> 2 * CountOf(s, 0.0) > |s|)
  {
    SortedReals(s);
    var t, m := Sort(Ascending(), s), |s| / 2;
    forall i | 0 <= i < |t| ensures t[i] >= 0.0 { assert t[i] in s; }
    NoneBelowZero(s);
    CountOfSplits(s, 0.0);
    RankByCounts(s, m, 0.0);
    if |s| % 2 == 0 {
      assert Ascending()(t[m - 1], t[m]);
    }
  }

  /** A value that more than half of a group holds is its median. */
  lemma MajorityIsTheMedian(s: seq<real>, v: real)
    requires 2 * CountOf(s, v) > |s|
    ensures MedianOf(s) == Some(v)
  {
    SortedReals(s);
    CountOfSplits(s, v);
    OutsideCounts(s, v);
    var m := |s| / 2;
    RankByCounts(s, m, v);
    if |s| % 2 == 0 { RankByCounts(s, m - 1, v); }
  }

  lemma {:induction false} OutsideCounts(s: seq<real>, v: real)
    ensures CountBelow(s, v) + CountOf(s, v) <= |s|
  {
    if s == [] {
    } else {
      OutsideCounts(s[1..], v);
    }
  }

  /** A group has no usable spread exactly when it is empty or one value makes up more than half of it. */
  lemma RefusedIffOneValueDominates(values: seq<nat>)
    ensures MeasureOf(values).None? <==> values == [] || exists v :: 2 * CountOf(Readings(values), v) > |values|
  {
    hide MedianOf, CountOf, Deviations;
    var s := Readings(values);
    if values == [] {
      NoMedian(s);
    } else {
      SomeMedian(s);
      var centre := MedianOf(s).value;
      MedianZero(Deviations(s, centre));
      ZeroDeviations(s, centre);
      if v :| 2 * CountOf(s, v) > |values| {
        MajorityIsTheMedian(s, v);
      }
    }
  }

  lemma NoMedian(s: seq<real>)
    requires s == []
    ensures MedianOf(s) == None
  {}

  lemma SomeMedian(s: seq<real>)
    requires s != []
    ensures MedianOf(s).Some?
  {}

  // ----- an outlier cannot hide by being larger -----

  lemma MedianAtLeast(s: seq<real>, h: real)
    requires s != [] && forall x :: x in s ==> x >= h
    ensures MedianOf(s).Some? && MedianOf(s).value >= h
  {
    SortedReals(s);
    var t, m := Sort(Ascending(), s), |s| / 2;
    assert t[m] in s;
    assert |s| % 2 == 0 ==> t[m - 1] in s;
  }

  /** The upper of the two middle readings is within one spread of the centre. */
  lemma UpperMiddleIsClose(values: seq<nat>)
    requires MeasureOf(values).Some?
    ensures |Sort(Ascending(), Readings(values))| == |values| > 0
    ensures var d := MeasureOf(values).value; Sort(Ascending(), Readings(values))[|values| / 2] <= d.centre + d.spread
  {
    var s := Readings(values);
    SortedReals(s);
    var t, m, d := Sort(Ascending(), s), |s| / 2, MeasureOf(values).value;
    if |s| % 2 == 0 {
      var h := t[m] - d.centre;
      var devs := Deviations(s, d.centre);
      forall x | x in devs ensures x >= h {
        var i :| 0 <= i < |devs| && devs[i] == x;
        assert s[i] in t;
        var j :| 0 <= j < |t| && t[j] == s[i];
        assert j > m ==> Ascending()(t[m], t[j]);
        assert j < m - 1 ==> Ascending()(t[j], t[m - 1]);
      }
      MedianAtLeast(devs, h);
    }
  }

  lemma UpperMiddleDeviation(values: seq<nat>)
    requires MeasureOf(values).Some?
    ensures var d := MeasureOf(values).value;
      var u := Sort(Ascending(), Deviations(Readings(values), d.centre));
      |u| == |values| > 0 && u[|values| / 2] <= 2.0 * d.spread
  {
    var d := MeasureOf(values).value;
    var devs := Deviations(Readings(values), d.centre);
    SortedReals(devs);
    var u, m := Sort(Ascending(), devs), |devs| / 2;
    if |devs| % 2 == 0 {
      assert u[m - 1] in devs;
      var i :| 0 <= i < |devs| && devs[i] == u[m - 1];
    }
  }

  lemma CentreUnmoved(values: seq<nat>, i: nat, y: nat)
    requires i < |values| && values[i] <= y
    requires MeasureOf(values).Some? && !MeasureOf(values).value.Admits(values[i])
    ensures MedianOf(Readings(values[i := y])) == MedianOf(Readings(values))
  {
    UpperMiddleIsClose(values);
    hide MedianOf, Sort;
    MedianUnmoved(Readings(values), i, y as real);
    assert Readings(values[i := y]) == Readings(values)[i := y as real];
  }

  lemma SpreadUnmoved(values: seq<nat>, i: nat, y: nat)
    requires i < |values| && values[i] <= y
    requires MeasureOf(values).Some? && !MeasureOf(values).value.Admits(values[i])
    ensures var c := MeasureOf(values).value.centre;
      MedianOf(Deviations(Readings(values[i := y]), c)) == MedianOf(Deviations(Readings(values), c))
  {
    var d := MeasureOf(values).value;
    UpperMiddleDeviation(values);
    hide MedianOf, Sort;
    var devs := Deviations(Readings(values), d.centre);
    MedianUnmoved(devs, i, y as real - d.centre);
    assert Deviations(Readings(values[i := y]), d.centre) == devs[i := y as real - d.centre];
  }

  /** Raising an outlier to any larger value leaves its group's centre and spread where they
      were and leaves it an outlier, in a group of odd or of even size. */
  lemma RaisingAnOutlierKeepsItOne(values: seq<nat>, i: nat, y: nat)
    requires i < |values| && values[i] <= y
    requires MeasureOf(values).Some? && !MeasureOf(values).value.Admits(values[i])
    ensures MeasureOf(values[i := y]) == MeasureOf(values)
    ensures !MeasureOf(values[i := y]).value.Admits(y)
  {
    CentreUnmoved(values, i, y);
    SpreadUnmoved(values, i, y);
  }

  function CountAdmitted(d: Dispersion, values: seq<nat>): nat {
    if values == [] then 0 else (if d.Admits(values[0]) then 1 else 0) + CountAdmitted(d, values[1..])
  }

  lemma {:induction false} AdmittedByCounts(d: Dispersion, values: seq<nat>)
    ensures CountAdmitted(d, values) == CountUpTo(Readings(values), d.Cutoff())
  {
    if values == [] {
    } else {
      AdmittedByCounts(d, values[1..]);
      assert Readings(values)[1..] == Readings(values[1..]);
    }
  }

  /** Strictly more than half of any group that can describe itself is admitted. */
  lemma MajorityIsAdmitted(values: seq<nat>)
    requires MeasureOf(values).Some?
    ensures 2 * CountAdmitted(MeasureOf(values).value, values) > |values|
  {
    var d, s := MeasureOf(values).value, Readings(values);
    var t := Sort(Ascending(), s);
    UpperMiddleIsClose(values);
    AdmittedByCounts(d, values);
    SortedReals(s);
    SortCounts(s, d.Cutoff());
    CountsAreBoundaries(t, d.Cutoff());
    assert t[|values| / 2] <= d.Cutoff();
  }

  // ----- four readings -----

  lemma CountsOfFour(p: real, q: real, r: real, t: real, v: real)
    ensures CountBelow([p, q, r, t], v) ==
      (if p < v then 1 else 0) + (if q < v then 1 else 0) + (if r < v then 1 else 0) + (if t < v then 1 else 0)
    ensures CountUpTo([p, q, r, t], v) ==
      (if p <= v then 1 else 0) + (if q <= v then 1 else 0) + (if r <= v then 1 else 0) + (if t <= v then 1 else 0)
  {
    var s := [p, q, r, t];
    assert s[1..] == [q, r, t] && [q, r, t][1..] == [r, t] && [r, t][1..] == [t];
    OneCount(t, v);
    assert CountBelow([r, t], v) == (if r < v then 1 else 0) + CountBelow([t], v);
    assert CountUpTo([r, t], v) == (if r <= v then 1 else 0) + CountUpTo([t], v);
  }

  lemma OneCount(t: real, v: real)
    ensures CountBelow([t], v) == (if t < v then 1 else 0) && CountUpTo([t], v) == (if t <= v then 1 else 0)
  {
    assert [t][1..] == [];
  }

  /** Three readings a step apart and a fourth at least as far off again: the centre is halfway
      between the middle two, the spread is one step, and the fourth is an outlier exactly when it is
      more than three steps above the centre. */
  lemma FourReadings(a: nat, k: nat, x: nat)
    requires k > 0 && x >= a + 3 * k
    ensures
      var d := MeasureOf([a, a + k, a + 2 * k, x]);
      && d == Some(Dispersion((2 * a + 3 * k) as real / 2.0, k as real))
      && (d.value.Admits(x) <==> 2 * x <= 2 * a + 9 * k)
  {
    hide MedianOf, CountBelow, CountUpTo;
    var values := [a, a + k, a + 2 * k, x];
    var p, q, r, t := a as real, (a + k) as real, (a + 2 * k) as real, x as real;
    assert Readings(values) == [p, q, r, t];
    CountsOfFour(p, q, r, t, q);
    CountsOfFour(p, q, r, t, r);
    var centre, step := (q + r) / 2.0, k as real;
    MedianIffHalfway(Readings(values), centre);
    assert HasRank(Readings(values), 1, q) && HasRank(Readings(values), 2, r);
    var near, far := step / 2.0, 3.0 * step / 2.0;
    var devs := Deviations(Readings(values), centre);
    assert devs == [far, near, near, t - centre];
    CountsOfFour(far, near, near, t - centre, near);
    CountsOfFour(far, near, near, t - centre, far);
    assert HasRank(devs, 1, near) && HasRank(devs, 2, far);
    MedianIffHalfway(devs, step);
  }

  // ----- outliers of a list of samples, judged per scenario -----

  datatype MetricSample<Origin> = MetricSample(scenario: ScenarioKind, origin: Origin, value: nat)
  datatype Outlier<Origin> = Outlier(sample: MetricSample<Origin>, dispersion: Dispersion)

  /** A group smaller than this says nothing about its spread. */
  const SAMPLE_FLOOR: nat := 4

  function Group<O>(samples: seq<MetricSample<O>>, kind: ScenarioKind): seq<MetricSample<O>> {
    if samples == [] then []
    else
      var before := Group(samples[..|samples| - 1], kind);
      if samples[|samples| - 1].scenario == kind then before + [samples[|samples| - 1]] else before
  }

  function Values<O>(group: seq<MetricSample<O>>): (r: seq<nat>)
    ensures |r| == |group| && forall i :: 0 <= i < |r| ==> r[i] == group[i].value
  {
    seq(|group|, i requires 0 <= i < |group| => group[i].value)
  }

  function Refused<O>(group: seq<MetricSample<O>>, d: Dispersion): seq<Outlier<O>> {
    if group == [] then []
    else
      var before, last := Refused(group[..|group| - 1], d), group[|group| - 1];
      if d.Admits(last.value) then before else before + [Outlier(last, d)]
  }

  function OutliersIn<O>(group: seq<MetricSample<O>>): seq<Outlier<O>> {
    if |group| < SAMPLE_FLOOR then []
    else
      match MeasureOf(Values(group))
      case None => []
      case Some(d) => Refused(group, d)
  }

  const KINDS: seq<ScenarioKind> := [WithSkill, WithoutSkill, OldSkill]

  function Judged<O>(samples: seq<MetricSample<O>>, k: nat): seq<Outlier<O>>
    requires k <= 3
  {
    if k == 0 then [] else Judged(samples, k - 1) + OutliersIn(Group(samples, KINDS[k - 1]))
  }

  /** Groups are judged in the order of their scenario kinds. */
  function OutliersOf<O>(samples: seq<MetricSample<O>>): seq<Outlier<O>> {
    Judged(samples, 3)
  }

  method GroupByScenario<O>(samples: seq<MetricSample<O>>) returns (groups: map<ScenarioKind, seq<MetricSample<O>>>)
    ensures forall k :: k in groups <==> Group(samples, k) != []
    ensures forall k :: k in groups ==> groups[k] == Group(samples, k)
  {
    groups := map[];
    for i := 0 to |samples|
      invariant forall k :: k in groups <==> Group(samples[..i], k) != []
      invariant forall k :: k in groups ==> groups[k] == Group(samples[..i], k)
    {
      assert samples[..i + 1][..i] == samples[..i];
      var kind := samples[i].scenario;
      var sofar := if kind in groups then groups[kind] else [];
      groups := groups[kind := sofar + [samples[i]]];
    }
    assert samples[..|samples|] == samples;
  }

  method Outliers<O>(samples: seq<MetricSample<O>>) returns (found: seq<Outlier<O>>)
    ensures found == OutliersOf(samples)
  {
    var groups := GroupByScenario(samples);
    hide Group, OutliersIn;
    found := [];
    for k := 0 to 3
      invariant found == Judged(samples, k)
    {
      NothingInNothing<O>();
      var more := [];
      if KINDS[k] in groups {
        more := GroupOutliers(groups[KINDS[k]]);
      }
      found := found + more;
    }
  }

  method GroupOutliers<O>(group: seq<MetricSample<O>>) returns (found: seq<Outlier<O>>)
    ensures found == OutliersIn(group)
  {
    if |group| < SAMPLE_FLOOR {
      return [];
    }
    var dispersion := Measure(Values(group));
    if dispersion.None? {
      return [];
    }
    found := [];
    for i := 0 to |group|
      invariant found == Refused(group[..i], dispersion.value)
    {
      assert group[..i + 1][..i] == group[..i];
      if !dispersion.value.Admits(group[i].value) {
        found := found + [Outlier(group[i], dispersion.value)];
      }
    }
    assert group[..|group|] == group;
  }

  // ----- one arm never judges another -----

  function OfScenario<O>(found: seq<Outlier<O>>, kind: ScenarioKind): seq<Outlier<O>> {
    if found == [] then []
    else
      var before := OfScenario(found[..|found| - 1], kind);
      if found[|found| - 1].sample.scenario == kind then before + [found[|found| - 1]] else before
  }

  lemma {:induction false} OfScenarioConcat<O>(a: seq<Outlier<O>>, b: seq<Outlier<O>>, kind: ScenarioKind)
    ensures OfScenario(a + b, kind) == OfScenario(a, kind) + OfScenario(b, kind)
  {
    if b == [] {
      assert a + b == a;
    } else {
      OfScenarioConcat(a, b[..|b| - 1], kind);
      assert (a + b)[..|a + b| - 1] == a + b[..|b| - 1];
    }
  }

  lemma {:induction false} GroupIsPure<O>(samples: seq<MetricSample<O>>, kind: ScenarioKind)
    ensures forall x :: x in Group(samples, kind) ==> x.scenario == kind
    ensures Group(Group(samples, kind), kind) == Group(samples, kind)
    ensures forall other :: other != kind ==> Group(Group(samples, kind), other) == []
  {
    if samples == [] {
    } else {
      var rest, last := samples[..|samples| - 1], samples[|samples| - 1];
      GroupIsPure(rest, kind);
      if last.scenario == kind {
        var g := Group(samples, kind);
        assert g[..|g| - 1] == Group(rest, kind);
      }
    }
  }

  lemma {:induction false} RefusedOfScenario<O>(group: seq<MetricSample<O>>, d: Dispersion, own: ScenarioKind, kind: ScenarioKind)
    requires forall x :: x in group ==> x.scenario == own
    ensures OfScenario(Refused(group, d), kind) == if kind == own then Refused(group, d) else []
  {
    if group == [] {
    } else {
      var rest := group[..|group| - 1];
      RefusedOfScenario(rest, d, own, kind);
      var r := Refused(group, d);
      if !d.Admits(group[|group| - 1].value) {
        assert r[..|r| - 1] == Refused(rest, d);
      }
    }
  }

  lemma OutliersInOfScenario<O>(samples: seq<MetricSample<O>>, own: ScenarioKind, kind: ScenarioKind)
    ensures OfScenario(OutliersIn(Group(samples, own)), kind) == if kind == own then OutliersIn(Group(samples, own)) else []
  {
    GroupIsPure(samples, own);
    var g := Group(samples, own);
    if |g| >= SAMPLE_FLOOR && MeasureOf(Values(g)).Some? {
      RefusedOfScenario(g, MeasureOf(Values(g)).value, own, kind);
    }
  }

  /** The outliers of a mixed list that belong to one scenario are the outliers of that
      scenario's samples alone. */
  lemma ScenariosAreJudgedApart<O>(samples: seq<MetricSample<O>>, kind: ScenarioKind)
    ensures OfScenario(OutliersOf(samples), kind) == OutliersOf(Group(samples, kind))
  {
    hide OutliersIn, OfScenario, Group;
    InThreeParts(samples);
    InThreeParts(Group(samples, kind));
    var a := OutliersIn(Group(samples, WithSkill));
    var b := OutliersIn(Group(samples, WithoutSkill));
    var c := OutliersIn(Group(samples, OldSkill));
    OfScenarioConcat(a + b, c, kind);
    OfScenarioConcat(a, b, kind);
    OutliersInOfScenario(samples, WithSkill, kind);
    OutliersInOfScenario(samples, WithoutSkill, kind);
    OutliersInOfScenario(samples, OldSkill, kind);
    GroupIsPure(samples, kind);
    NothingInNothing<O>();
  }

  lemma NothingInNothing<O>()
    ensures OutliersIn<O>([]) == []
  {}

  lemma InThreeParts<O>(samples: seq<MetricSample<O>>)
    ensures OutliersOf(samples) == OutliersIn(Group(samples, WithSkill)) + OutliersIn(Group(samples, WithoutSkill))
                                   + OutliersIn(Group(samples, OldSkill))
  {
    hide OutliersIn, Group;
    assert Judged(samples, 0) == [];
    assert Judged(samples, 1) == OutliersIn(Group(samples, WithSkill));
    assert Judged(samples, 2) == OutliersIn(Group(samples, WithSkill)) + OutliersIn(Group(samples, WithoutSkill));
  }

  // ----- raising a reported sample leaves the report as it was -----

  /** What a report says apart from the readings themselves. */
  function Verdicts<O>(found: seq<Outlier<O>>): (r: seq<(ScenarioKind, O, Dispersion)>)
    ensures |r| == |found|
  {
    seq(|found|, i requires 0 <= i < |found| =>
      (found[i].sample.scenario, found[i].sample.origin, found[i].dispersion))
  }

  lemma VerdictsConcat<O>(a: seq<Outlier<O>>, b: seq<Outlier<O>>)
    ensures Verdicts(a + b) == Verdicts(a) + Verdicts(b)
  {}

  /** Where the sample at `j` lands in its group. */
  function Place<O>(samples: seq<MetricSample<O>>, j: nat): nat
    requires j < |samples|
  {
    |Group(samples[..j], samples[j].scenario)|
  }

  lemma {:induction false} RaisedGroup<O>(samples: seq<MetricSample<O>>, j: nat, y: nat, kind: ScenarioKind)
    requires j < |samples|
    ensures var s := samples[j]; var g := Group(samples, kind);
      && (kind != s.scenario ==> Group(samples[j := s.(value := y)], kind) == g)
      && (kind == s.scenario ==>
            && Place(samples, j) < |g| && g[Place(samples, j)] == s
            && Group(samples[j := s.(value := y)], kind) == g[Place(samples, j) := s.(value := y)])
  {
    var raised := samples[j := samples[j].(value := y)];
    var n := |samples|;
    if j < n - 1 {
      RaisedGroup(samples[..n - 1], j, y, kind);
      assert raised[..n - 1] == samples[..n - 1][j := samples[j].(value := y)];
      assert samples[..n - 1][..j] == samples[..j];
    } else {
      assert raised[..n - 1] == samples[..n - 1];
    }
  }

  lemma {:induction false} RefusedRaised<O>(group: seq<MetricSample<O>>, d: Dispersion, at: nat, y: nat)
    requires at < |group| && !d.Admits(group[at].value) && group[at].value <= y
    ensures Verdicts(Refused(group[at := group[at].(value := y)], d)) == Verdicts(Refused(group, d))
  {
    var n, raised := |group|, group[at := group[at].(value := y)];
    if at < n - 1 {
      RefusedRaised(group[..n - 1], d, at, y);
      assert raised[..n - 1] == group[..n - 1][at := group[at].(value := y)];
    } else {
      assert raised[..n - 1] == group[..n - 1];
    }
    VerdictsConcat(Refused(raised[..n - 1], d), [Outlier(raised[n - 1], d)]);
    VerdictsConcat(Refused(group[..n - 1], d), [Outlier(group[n - 1], d)]);
  }

  lemma GroupRaised<O>(group: seq<MetricSample<O>>, at: nat, y: nat)
    requires at < |group| && group[at].value <= y && |group| >= SAMPLE_FLOOR
    requires MeasureOf(Values(group)).Some? && !MeasureOf(Values(group)).value.Admits(group[at].value)
    ensures Verdicts(OutliersIn(group[at := group[at].(value := y)])) == Verdicts(OutliersIn(group))
  {
    var raised := group[at := group[at].(value := y)];
    assert Values(raised) == Values(group)[at := y];
    RaisingAnOutlierKeepsItOne(Values(group), at, y);
    RefusedRaised(group, MeasureOf(Values(group)).value, at, y);
  }

  /** The sample at `j` is one of the outliers of its list. */
  ghost predicate StandsOut<O>(samples: seq<MetricSample<O>>, j: nat)
    requires j < |samples|
  {
    var g := Group(samples, samples[j].scenario);
    |g| >= SAMPLE_FLOOR && MeasureOf(Values(g)).Some? && !MeasureOf(Values(g)).value.Admits(samples[j].value)
  }

  /** However far an outlier is raised, the same samples are reported, against the same
      dispersions, in every arm of the comparison. */
  lemma RaisedReportIsTheSame<O>(samples: seq<MetricSample<O>>, j: nat, y: nat)
    requires j < |samples| && StandsOut(samples, j) && samples[j].value <= y
    ensures Verdicts(OutliersOf(samples[j := samples[j].(value := y)])) == Verdicts(OutliersOf(samples))
  {
    var raised := samples[j := samples[j].(value := y)];
    InThreeParts(samples);
    InThreeParts(raised);
    forall kind ensures Verdicts(OutliersIn(Group(raised, kind))) == Verdicts(OutliersIn(Group(samples, kind))) {
      RaisedGroup(samples, j, y, kind);
      if kind == samples[j].scenario {
        GroupRaised(Group(samples, kind), Place(samples, j), y);
      }
    }
    hide OutliersIn, Group, Verdicts, StandsOut, Judged;
    VerdictsInThree(raised);
    VerdictsInThree(samples);
  }

  lemma VerdictsInThree<O>(samples: seq<MetricSample<O>>)
    ensures Verdicts(OutliersOf(samples)) == Verdicts(OutliersIn(Group(samples, WithSkill)))
      + Verdicts(OutliersIn(Group(samples, WithoutSkill))) + Verdicts(OutliersIn(Group(samples, OldSkill)))
  {
    InThreeParts(samples);
    hide OutliersIn, Group, Verdicts;
    var a, b := OutliersIn(Group(samples, WithSkill)), OutliersIn(Group(samples, WithoutSkill));
    VerdictsConcat(a + b, OutliersIn(Group(samples, OldSkill)));
    VerdictsConcat(a, b);
  }

  lemma {:induction false} RefusedIff<O>(group: seq<MetricSample<O>>, d: Dispersion, o: Outlier<O>)
    ensures o in Refused(group, d) <==> o.dispersion == d && o.sample in group && !d.Admits(o.sample.value)
  {
    if group == [] {
    } else {
      var rest := group[..|group| - 1];
      RefusedIff(rest, d, o);
      assert group == rest + [group[|group| - 1]];
    }
  }

  lemma {:induction false} GroupIff<O>(samples: seq<MetricSample<O>>, kind: ScenarioKind, x: MetricSample<O>)
    ensures x in Group(samples, kind) <==> x in samples && x.scenario == kind
  {
    if samples == [] {
    } else {
      var rest := samples[..|samples| - 1];
      GroupIff(rest, kind, x);
      assert samples == rest + [samples[|samples| - 1]];
    }
  }

  lemma ReportedInGroup<O>(samples: seq<MetricSample<O>>, kind: ScenarioKind, j: nat, d: Dispersion)
    requires j < |samples|
    ensures Outlier(samples[j], d) in OutliersIn(Group(samples, kind)) <==>
              samples[j].scenario == kind && StandsOut(samples, j) && MeasureOf(Values(Group(samples, kind))) == Some(d)
  {
    var g := Group(samples, kind);
    GroupIff(samples, kind, samples[j]);
    if |g| >= SAMPLE_FLOOR && MeasureOf(Values(g)).Some? {
      RefusedIff(g, MeasureOf(Values(g)).value, Outlier(samples[j], d));
    }
  }

  /** A sample is reported exactly when its own scenario's group is large enough, can describe
      itself, and does not admit it; and it is reported against that group's dispersion. */
  lemma ReportedIffStandsOut<O>(samples: seq<MetricSample<O>>, j: nat, d: Dispersion)
    requires j < |samples|
    ensures Outlier(samples[j], d) in OutliersOf(samples) <==>
              StandsOut(samples, j) && MeasureOf(Values(Group(samples, samples[j].scenario))) == Some(d)
  {
    InThreeParts(samples);
    ReportedInGroup(samples, WithSkill, j, d);
    ReportedInGroup(samples, WithoutSkill, j, d);
    ReportedInGroup(samples, OldSkill, j, d);
    hide OutliersIn, Group, StandsOut, MeasureOf;
  }

  /** Fewer than four samples are never judged. Of four, a step apart but for the last, the last is
      reported exactly when it is more than three steps above the centre. */
  lemma FloorOfFour<O>(group: seq<MetricSample<O>>, a: nat, k: nat, x: nat)
    ensures |group| <= 3 ==> OutliersIn(group) == []
    ensures k > 0 && x >= a + 3 * k && Values(group) == [a, a + k, a + 2 * k, x] ==>
      OutliersIn(group) ==
        if 2 * x > 2 * a + 9 * k then [Outlier(group[3], Dispersion((2 * a + 3 * k) as real / 2.0, k as real))] else []
  {
    if k > 0 && x >= a + 3 * k && Values(group) == [a, a + k, a + 2 * k, x] {
      FourReadings(a, k, x);
      hide MeasureOf;
      var d := Dispersion((2 * a + 3 * k) as real / 2.0, k as real);
      assert forall i :: 0 <= i < 4 ==> group[i].value == Values(group)[i];
      RefusedOfFour(group, d);
    }
  }

  lemma RefusedOfFour<O>(group: seq<MetricSample<O>>, d: Dispersion)
    requires |group| == 4 && forall i :: 0 <= i < 3 ==> d.Admits(group[i].value)
    ensures Refused(group, d) == if d.Admits(group[3].value) then [] else [Outlier(group[3], d)]
  {
    hide Dispersion.Admits;
    NoneRefused(group[..3], d);
  }

  lemma {:induction false} NoneRefused<O>(group: seq<MetricSample<O>>, d: Dispersion)
    requires forall i :: 0 <= i < |group| ==> d.Admits(group[i].value)
    ensures Refused(group, d) == []
  {
    hide Dispersion.Admits;
    if group == [] {
    } else {
      NoneRefused(group[..|group| - 1], d);
    }
  }
}
