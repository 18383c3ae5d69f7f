/** Cutting a time axis at its outlying gaps: data points, marks, threshold, breaks and groups. */
module AxisBuilder {
  import opened Text
  import opened Sorting
  import opened Allocation
  import opened TimeScale
  import opened Numbers

  datatype Options = Options(minGapRatio: real, breakFactor: real, minGapWidth: real,
                             minSpanWidth: real, minSeparation: real, spanMargin: real)

  const DEFAULTS := Options(0.12, 3.0, 34.0, 48.0, 45.0, 12.0)

  function Itself(x: real): real {
    x
  }

  lemma ProductAtMost(q: real, n: real)
    requires 0.0 <= q <= 1.0 && n >= 0.0
    ensures 0.0 <= q * n <= n
  {
  }

  /** The point a fraction `f` of the way from `x` to `y`. */
  function Between(x: real, y: real, f: real): (r: real)
    requires x <= y && 0.0 <= f <= 1.0
    ensures x <= r <= y
  {
    var d := y - x;
    ProductAtMost(f, d);
    x + f * d
  }

  lemma FloorAtMost(pos: real, n: nat)
    requires 0.0 <= pos <= n as real
    ensures 0 <= pos.Floor <= n
  { }

  /** The fractional index of a quantile among `n + 1` values. */
  function QuantileIndex(q: real, n: nat): (pos: real)
    requires 0.0 <= q <= 1.0
    ensures 0 <= pos.Floor <= n
  {
    var pos := q * n as real;
    ProductAtMost(q, n as real);
    FloorAtMost(pos, n);
    pos
  }

  /** The value at a fractional index of a sorted sample. */
  function AtIndex(s: seq<real>, pos: real): (r: real)
    requires SortedBy(s, Itself) && 0 <= pos.Floor < |s|
    ensures exists x, y | x in s && y in s :: x <= r <= y
  {
    var base := pos.Floor;
    assert s[base] in s;
    if base + 1 < |s| then
      assert s[base + 1] in s && Itself(s[base]) <= Itself(s[base + 1]);
      Between(s[base], s[base + 1], pos - base as real)
    else s[base]
  }

  /** Linearly interpolated quantile of an unsorted sample: it lies within the sample. */
  function Quantile(values: seq<real>, q: real): (r: real)
    requires 0.0 <= q <= 1.0
    ensures values != [] ==> exists x, y | x in values && y in values :: x <= r <= y
  {
    if values == [] then 0.0
    else
      SortBySorts(values, Itself);
      var s := SortBy(values, Itself);
      assert s[0] in values;
      if |s| == 1 then s[0] else AtIndex(s, QuantileIndex(q, |s| - 1))
  }

  lemma AtWholeIndex(s: seq<real>, k: nat)
    requires SortedBy(s, Itself) && k < |s|
    ensures AtIndex(s, k as real) == s[k]
  {
    if k + 1 < |s| {
      assert Itself(s[k]) <= Itself(s[k + 1]);
      BetweenStart(s[k], s[k + 1]);
    }
  }

  lemma BetweenStart(x: real, y: real)
    requires x <= y
    ensures Between(x, y, 0.0) == x
  { }

  /** At a whole rank the quantile is the value of that rank. */
  lemma {:induction false} QuantileAtRank(values: seq<real>, q: real, k: nat)
    requires 0.0 <= q <= 1.0 && k < |values|
    requires |values| > 1 ==> QuantileIndex(q, |values| - 1) == k as real
    ensures |SortBy(values, Itself)| == |values|
    ensures Quantile(values, q) == SortBy(values, Itself)[k]
  {
    SortBySorts(values, Itself);
    AtWholeIndex(SortBy(values, Itself), k);
  }

  // ------------------------------------------------------------------ marks and breaks

  function Finite(times: seq<Option<real>>): seq<real> {
    if times == [] then []
    else (if times[0].Some? then [times[0].value] else []) + Finite(times[1..])
  }

  function ClampAll(times: seq<real>, lo: real, hi: real): seq<real> {
    seq(|times|, i requires 0 <= i < |times| => Clamp(times[i], lo, hi))
  }

  /** The data points that count for crowding: finite, clamped, distinct, ascending. */
  function DataPoints(times: seq<Option<real>>, lo: real, hi: real): seq<real> {
    SortDistinct(ClampAll(Finite(times), lo, hi))
  }

  /** The significant times: the data points and the edges of the domain. */
  function Marks(times: seq<Option<real>>, lo: real, hi: real): seq<real> {
    SortDistinct(ClampAll([lo, hi] + Finite(times), lo, hi))
  }

  lemma {:induction false} MarksSpanDomain(times: seq<Option<real>>, lo: real, hi: real)
    requires lo < hi
    ensures var m := Marks(times, lo, hi);
            |m| >= 2 && m[0] == lo && m[|m| - 1] == hi
    ensures forall t | t in Finite(times) :: Clamp(t, lo, hi) in Marks(times, lo, hi)
  {
    var all := [lo, hi] + Finite(times);
    var c := ClampAll(all, lo, hi);
    assert c[0] == lo && c[1] == hi;
    assert lo in c && hi in c;
    var m := Marks(times, lo, hi);
    assert forall t | t in m :: t in c && lo <= t <= hi;
    assert lo in m && hi in m;
    EndsOfAscending(m, lo, hi);
    forall t | t in Finite(times) ensures Clamp(t, lo, hi) in m {
      var i :| 0 <= i < |Finite(times)| && Finite(times)[i] == t;
      assert c[i + 2] == Clamp(t, lo, hi);
    }
  }

  lemma EndsOfAscending(m: seq<real>, lo: real, hi: real)
    requires Ascending(m) && lo in m && hi in m && lo < hi
    requires forall t | t in m :: lo <= t <= hi
    ensures |m| >= 2 && m[0] == lo && m[|m| - 1] == hi
  {
    var i :| 0 <= i < |m| && m[i] == lo;
    var j :| 0 <= j < |m| && m[j] == hi;
    assert m[0] in m && m[|m| - 1] in m;
    assert m[0] <= m[i] && m[j] <= m[|m| - 1];
  }

  ghost predicate Crowded(points: seq<real>, lo: real, hi: real, r0: real, r1: real, minSeparation: real)
    requires lo < hi
  {
    exists i | 0 < i < |points| ::
      Interpolate(points[i], lo, hi, r0, r1) - Interpolate(points[i - 1], lo, hi, r0, r1) < minSeparation
  }

  method FindCrowding(points: seq<real>, lo: real, hi: real, r0: real, r1: real, minSeparation: real)
    returns (crowded: bool)
    requires lo < hi
    ensures crowded <==> Crowded(points, lo, hi, r0, r1, minSeparation)
  {
    var i := 1;
    while i < |points|
      invariant i >= 1
      invariant forall k | 0 < k < i && k < |points| ::
                  Interpolate(points[k], lo, hi, r0, r1) - Interpolate(points[k - 1], lo, hi, r0, r1) >= minSeparation
    {
      if Interpolate(points[i], lo, hi, r0, r1) - Interpolate(points[i - 1], lo, hi, r0, r1) < minSeparation {
        return true;
      }
      i := i + 1;
    }
    return false;
  }

  /** The time between each mark and the next. */
  function GapsBetween(marks: seq<real>): (gaps: seq<real>)
    requires |marks| >= 1
    ensures |gaps| == |marks| - 1
  {
    seq(|marks| - 1, i requires 0 <= i < |marks| - 1 => marks[i + 1] - marks[i])
  }

  /** A gap must be large in itself, and an outlier among the gaps. */
  function Threshold(marks: seq<real>, lo: real, hi: real, opt: Options): real
    requires |marks| >= 1
  {
    Max(opt.minGapRatio * (hi - lo), opt.breakFactor * Quantile(GapsBetween(marks), 0.25))
  }

  /** The axis is cut before mark `i`. */
  predicate IsBreak(marks: seq<real>, threshold: real, i: nat)
    requires 0 < i < |marks|
  {
    |marks| >= 3 && marks[i] - marks[i - 1] >= threshold
  }

  function BreakCount(marks: seq<real>, threshold: real, n: nat): nat
    requires n <= |marks|
  {
    if n <= 1 then 0 else BreakCount(marks, threshold, n - 1) + if IsBreak(marks, threshold, n - 1) then 1 else 0
  }

  // ------------------------------------------------------------------------- groups

  predicate NonEmpty(groups: seq<seq<real>>) {
    forall g | 0 <= g < |groups| :: |groups[g]| > 0
  }

  function Last(group: seq<real>): real
    requires |group| > 0
  {
    group[|group| - 1]
  }

  function Concat(groups: seq<seq<real>>): seq<real> {
    if groups == [] then [] else Concat(groups[..|groups| - 1]) + groups[|groups| - 1]
  }

  /** Neighbours in one group are closer than the threshold, when there is one to be under. */
  ghost predicate RunUnbroken(group: seq<real>, threshold: real, markCount: nat) {
    forall k | 0 < k < |group| :: markCount < 3 || group[k] - group[k - 1] < threshold
  }

  /** Group `g` starts a whole break after the group before it. */
  ghost predicate StartsAfterBreak(groups: seq<seq<real>>, g: nat, threshold: real, markCount: nat)
    requires NonEmpty(groups) && 0 < g < |groups|
  {
    markCount >= 3 && groups[g][0] - Last(groups[g - 1]) >= threshold
  }

  /** The groups are the runs of the first `n` marks that no break separates. */
  ghost predicate IsGrouping(groups: seq<seq<real>>, marks: seq<real>, threshold: real, n: nat)
    requires n <= |marks|
  {
    && NonEmpty(groups)
    && Concat(groups) == marks[..n]
    && |groups| == 1 + BreakCount(marks, threshold, n)
    && (forall g | 0 <= g < |groups| :: RunUnbroken(groups[g], threshold, |marks|))
    && (forall g | 0 < g < |groups| :: StartsAfterBreak(groups, g, threshold, |marks|))
  }

  lemma NewGroup(groups: seq<seq<real>>, marks: seq<real>, threshold: real, i: nat)
    requires 0 < i < |marks| && |groups| > 0 && IsGrouping(groups, marks, threshold, i)
    requires Last(groups[|groups| - 1]) == marks[i - 1] && IsBreak(marks, threshold, i)
    ensures IsGrouping(groups + [[marks[i]]], marks, threshold, i + 1)
  {
    var groups' := groups + [[marks[i]]];
    assert groups'[..|groups|] == groups;
    assert marks[..i + 1] == marks[..i] + [marks[i]];
    forall g | 0 < g < |groups'| ensures StartsAfterBreak(groups', g, threshold, |marks|) {
      if g < |groups| { assert StartsAfterBreak(groups, g, threshold, |marks|); }
    }
  }

  lemma SameGroup(groups: seq<seq<real>>, marks: seq<real>, threshold: real, i: nat)
    requires 0 < i < |marks| && |groups| > 0 && IsGrouping(groups, marks, threshold, i)
    requires Last(groups[|groups| - 1]) == marks[i - 1] && !IsBreak(marks, threshold, i)
    ensures IsGrouping(groups[..|groups| - 1] + [groups[|groups| - 1] + [marks[i]]], marks, threshold, i + 1)
  {
    var n := |groups|;
    var groups' := groups[..n - 1] + [groups[n - 1] + [marks[i]]];
    assert groups'[..n - 1] == groups[..n - 1];
    assert marks[..i + 1] == marks[..i] + [marks[i]];
    forall g | 0 < g < n ensures StartsAfterBreak(groups', g, threshold, |marks|) {
      assert StartsAfterBreak(groups, g, threshold, |marks|);
    }
    forall g | 0 <= g < n ensures RunUnbroken(groups'[g], threshold, |marks|) {
      assert RunUnbroken(groups[g], threshold, |marks|);
    }
  }

  method GroupMarks(marks: seq<real>, threshold: real) returns (groups: seq<seq<real>>)
    requires |marks| >= 1
    ensures IsGrouping(groups, marks, threshold, |marks|)
  {
    groups := [[marks[0]]];
    assert Concat(groups[..0]) == [];
    var i := 1;
    while i < |marks|
      invariant 1 <= i <= |marks| && |groups| > 0
      invariant IsGrouping(groups, marks, threshold, i)
      invariant Last(groups[|groups| - 1]) == marks[i - 1]
    {
      if IsBreak(marks, threshold, i) {
        NewGroup(groups, marks, threshold, i);
        groups := groups + [[marks[i]]];
      } else {
        SameGroup(groups, marks, threshold, i);
        groups := groups[..|groups| - 1] + [groups[|groups| - 1] + [marks[i]]];
      }
      i := i + 1;
    }
  }

  /** Consecutive runs of ascending marks follow one another in time. */
  lemma {:induction false} GroupsInOrder(groups: seq<seq<real>>, marks: seq<real>)
    requires NonEmpty(groups) && |groups| > 0 && Concat(groups) == marks && Ascending(marks)
    ensures groups[0][0] == marks[0] && Last(groups[|groups| - 1]) == marks[|marks| - 1]
    ensures forall g | 0 <= g < |groups| :: groups[g][0] <= Last(groups[g])
    ensures forall g | 0 < g < |groups| :: Last(groups[g - 1]) < groups[g][0]
  {
    var n := |groups|;
    var init, last := groups[..n - 1], groups[n - 1];
    var before := Concat(init);
    assert forall k | 0 <= k < |last| :: last[k] == marks[|before| + k];
    if n > 1 {
      assert before == marks[..|before|];
      GroupsInOrder(init, before);
    }
  }

  /** The mark lies within the bounds of some group. */
  ghost predicate Covered(t: real, groups: seq<seq<real>>)
    requires NonEmpty(groups)
  {
    exists g | 0 <= g < |groups| :: groups[g][0] <= t <= Last(groups[g])
  }

  lemma {:induction false} GroupsCoverMarks(groups: seq<seq<real>>, marks: seq<real>)
    requires NonEmpty(groups) && Concat(groups) == marks && Ascending(marks)
    ensures forall t | t in marks :: Covered(t, groups)
  {
    if groups != [] {
      var init, last := groups[..|groups| - 1], groups[|groups| - 1];
      SplitAscending(marks, Concat(init), last);
      GroupsCoverMarks(init, Concat(init));
      forall t | t in marks ensures Covered(t, groups) {
        if t in Concat(init) {
          CoveredByMore(t, init, last, groups);
        } else {
          assert groups[|groups| - 1][0] <= t <= Last(groups[|groups| - 1]);
        }
      }
    }
  }

  lemma CoveredByMore(t: real, init: seq<seq<real>>, last: seq<real>, groups: seq<seq<real>>)
    requires NonEmpty(groups) && groups == init + [last] && NonEmpty(init) && Covered(t, init)
    ensures Covered(t, groups)
  {
    var g :| 0 <= g < |init| && init[g][0] <= t <= Last(init[g]);
    assert groups[g] == init[g];
  }

  lemma SplitAscending(marks: seq<real>, before: seq<real>, last: seq<real>)
    requires Ascending(marks) && marks == before + last && |last| > 0
    ensures Ascending(before)
    ensures forall t | t in marks :: t in before || last[0] <= t <= Last(last)
  {
    assert before == marks[..|before|];
    forall k | 0 <= k < |last| ensures last[0] <= last[k] <= Last(last) {
      var n := |before|;
      assert last[0] == marks[n] && last[k] == marks[n + k] && Last(last) == marks[|marks| - 1];
    }
  }
}
