/** A sampled series on an even grid, its holes kept. */
module Series {
  import opened Text

  // Times are whole milliseconds.
  const MINUTE := 60_000
  const HOUR := 60 * MINUTE
  const DAY := 24 * HOUR
  const BUCKET_STEPS: seq<int> :=
    [MINUTE, 5 * MINUTE, 15 * MINUTE, 30 * MINUTE, HOUR, 3 * HOUR, 6 * HOUR, 12 * HOUR, DAY]
  const MAX_BUCKETS := 5_000

  // ---------------------------------------------------------------- choosing the width

  /** Few enough buckets for the span, and each wider than the typical gap. */
  predicate Suits(step: int, spanMs: int, targetPoints: int, typicalGap: real) {
    spanMs <= targetPoints * step && step as real > typicalGap
  }

  /** The narrowest width that suits; the widest when none does. */
  method ChooseBucketMs(spanMs: int, targetPoints: int, typicalGap: real) returns (step: int)
    ensures step in BUCKET_STEPS && step > 0
    ensures spanMs <= 0 || targetPoints <= 0 ==> step == MINUTE
    ensures spanMs > 0 && targetPoints > 0 ==>
              && (Suits(step, spanMs, targetPoints, typicalGap)
                  || (step == DAY && forall s | s in BUCKET_STEPS :: !Suits(s, spanMs, targetPoints, typicalGap)))
              && forall s | s in BUCKET_STEPS && s < step :: !Suits(s, spanMs, targetPoints, typicalGap)
  {
    if !(spanMs > 0) || !(targetPoints > 0) { return MINUTE; }
    for i := 0 to |BUCKET_STEPS|
      invariant forall j | 0 <= j < i :: !Suits(BUCKET_STEPS[j], spanMs, targetPoints, typicalGap)
    {
      if Suits(BUCKET_STEPS[i], spanMs, targetPoints, typicalGap) {
        assert forall j | i <= j < |BUCKET_STEPS| :: BUCKET_STEPS[i] <= BUCKET_STEPS[j];
        return BUCKET_STEPS[i];
      }
    }
    step := BUCKET_STEPS[|BUCKET_STEPS| - 1];
  }

  // ------------------------------------------------------------------------ the grid

  datatype Bucketed<T> = Bucketed(x: seq<int>, samples: seq<Option<T>>, bucketMs: int)

  /** An item observed at a time in `[from, to)`; None stands for a time that is not finite. */
  predicate Within<T>(item: T, timeOf: T -> Option<int>, from: int, to: int) {
    timeOf(item).Some? && from <= timeOf(item).value < to
  }

  /** The cell holds the last item observed in its interval, and nothing when there is none. */
  ghost predicate HoldsLast<T>(cell: Option<T>, items: seq<T>, timeOf: T -> Option<int>, from: int, to: int) {
    match cell
    case None => forall j | 0 <= j < |items| :: !Within(items[j], timeOf, from, to)
    case Some(v) =>
      exists j :: 0 <= j < |items| && items[j] == v && Within(items[j], timeOf, from, to)
                  && forall l | j < l < |items| :: !Within(items[l], timeOf, from, to)
  }

  ghost predicate Timed<T>(items: seq<T>, timeOf: T -> Option<int>) {
    exists i :: 0 <= i < |items| && timeOf(items[i]).Some?
  }

  ghost predicate IsLeast<T>(lo: int, items: seq<T>, timeOf: T -> Option<int>) {
    && (exists i :: 0 <= i < |items| && timeOf(items[i]) == Some(lo))
    && forall i | 0 <= i < |items| && timeOf(items[i]).Some? :: lo <= timeOf(items[i]).value
  }

  ghost predicate IsGreatest<T>(hi: int, items: seq<T>, timeOf: T -> Option<int>) {
    && (exists i :: 0 <= i < |items| && timeOf(items[i]) == Some(hi))
    && forall i | 0 <= i < |items| && timeOf(items[i]).Some? :: timeOf(items[i]).value <= hi
  }

  method Extremes<T>(items: seq<T>, timeOf: T -> Option<int>) returns (any: bool, lo: int, hi: int)
    ensures any == Timed(items, timeOf)
    ensures any ==> IsLeast(lo, items, timeOf) && IsGreatest(hi, items, timeOf) && lo <= hi
  {
    any, lo, hi := false, 0, 0;
    for i := 0 to |items|
      invariant any <==> exists j :: 0 <= j < i && timeOf(items[j]).Some?
      invariant any ==> exists j :: 0 <= j < i && timeOf(items[j]) == Some(lo)
      invariant any ==> exists j :: 0 <= j < i && timeOf(items[j]) == Some(hi)
      invariant any ==> forall j | 0 <= j < i && timeOf(items[j]).Some? :: lo <= timeOf(items[j]).value <= hi
    {
      var t := timeOf(items[i]);
      if t.Some? {
        if !any || t.value < lo { lo := t.value; }
        if !any || t.value > hi { hi := t.value; }
        any := true;
      }
    }
  }

  function StepOf(bucketMs: int): (step: int)
    ensures step > 0
  {
    if bucketMs > 0 then bucketMs else MINUTE
  }

  /** `Math.floor(t / step)`: the number of the bucket a time falls in, counted from the epoch. */
  function BucketOf(t: int, step: int): int
    requires step > 0
  {
    t / step
  }

  lemma BucketHolds(t: int, step: int, q: int)
    requires step > 0
    ensures BucketOf(t, step) == q <==> q * step <= t < q * step + step
  {
    var b := t / step;
    assert b * step <= t < b * step + step;
    if q < b {
      assert q * step + step <= b * step by { Multiples(q + 1, b, step); }
    } else if q > b {
      assert b * step + step <= q * step by { Multiples(b + 1, q, step); }
    }
  }

  lemma Multiples(a: int, b: int, step: int)
    requires a <= b && step > 0
    ensures a * step <= b * step
    ensures (a - 1) * step + step == a * step
  { }

  /** `Math.floor((Math.floor(t / step) * step - lo) / step)` on an aligned `lo`. */
  lemma IndexIs(q: int, first: int, step: int)
    requires step > 0
    ensures (q * step - first * step) / step == q - first
  {
    assert q * step - first * step == (q - first) * step;
    BucketHolds((q - first) * step, step, q - first);
  }

  /** The grid starts at the bucket of the earliest time, is even, and reaches the latest unless capped. */
  ghost predicate IsGrid<T>(b: Bucketed<T>, items: seq<T>, timeOf: T -> Option<int>, lo: int, hi: int) {
    && b.bucketMs > 0
    && |b.x| == |b.samples| == CellCount(BucketOf(lo, b.bucketMs), BucketOf(hi, b.bucketMs))
    && forall k | 0 <= k < |b.x| :: b.x[k] == (BucketOf(lo, b.bucketMs) + k) * b.bucketMs
  }

  function CellCount(first: int, last: int): int {
    if last - first + 1 < MAX_BUCKETS then last - first + 1 else MAX_BUCKETS
  }

  method BucketByTime<T>(items: seq<T>, timeOf: T -> Option<int>, bucketMs: int) returns (b: Bucketed<T>)
    ensures b.bucketMs == StepOf(bucketMs) && |b.x| == |b.samples|
    ensures !Timed(items, timeOf) <==> b.x == []
    ensures b.x != [] ==> exists lo, hi :: IsLeast(lo, items, timeOf) && IsGreatest(hi, items, timeOf)
                                           && IsGrid(b, items, timeOf, lo, hi)
    ensures forall k | 0 <= k < |b.x| :: HoldsLast(b.samples[k], items, timeOf, b.x[k], b.x[k] + b.bucketMs)
  {
    var step := StepOf(bucketMs);
    var any, least, greatest := Extremes(items, timeOf);
    if !any { return Bucketed([], [], step); }
    var first, last := BucketOf(least, step), BucketOf(greatest, step);
    assert first <= last by {
      BucketHolds(least, step, first);
      BucketHolds(greatest, step, last);
      if last < first { Multiples(last + 1, first, step); }
    }
    var count := CellCount(first, last);
    var x := [];
    for i := 0 to count
      invariant |x| == i && forall k | 0 <= k < i :: x[k] == (first + k) * step
    {
      x := x + [first * step + i * step];
      assert first * step + i * step == (first + i) * step;
    }
    var samples := FillCells(items, timeOf, step, first, count);
    b := Bucketed(x, samples, step);
    assert IsGrid(b, items, timeOf, least, greatest);
  }

  method FillCells<T>(items: seq<T>, timeOf: T -> Option<int>, step: int, first: int, count: nat)
    returns (samples: seq<Option<T>>)
    requires step > 0
    ensures |samples| == count
    ensures forall k | 0 <= k < count ::
              HoldsLast(samples[k], items, timeOf, (first + k) * step, (first + k) * step + step)
  {
    var cells := new Option<T>[count](_ => None);
    for j := 0 to |items|
      invariant forall k | 0 <= k < count ::
                  HoldsLast(cells[k], items[..j], timeOf, (first + k) * step, (first + k) * step + step)
    {
      ghost var before := cells[..];
      var t := timeOf(items[j]);
      if t.Some? {
        var index := (BucketOf(t.value, step) * step - first * step) / step;
        IndexIs(BucketOf(t.value, step), first, step);
        if 0 <= index < count { cells[index] := Some(items[j]); }
      }
      forall k | 0 <= k < count
        ensures HoldsLast(cells[k], items[..j + 1], timeOf, (first + k) * step, (first + k) * step + step)
      {
        if t.Some? { BucketHolds(t.value, step, first + k); }
        OneMoreItem(before[k], cells[k], items, j, timeOf, (first + k) * step, (first + k) * step + step);
      }
    }
    assert items[..|items|] == items;
    samples := cells[..];
  }

  /** A cell after one more item: the item if it falls inside, else as it was. */
  lemma OneMoreItem<T>(before: Option<T>, after: Option<T>, items: seq<T>, j: nat,
                                          timeOf: T -> Option<int>, from: int, to: int)
    requires j < |items| && HoldsLast(before, items[..j], timeOf, from, to)
    requires after == if Within(items[j], timeOf, from, to) then Some(items[j]) else before
    ensures HoldsLast(after, items[..j + 1], timeOf, from, to)
  {
    var more := items[..j + 1];
    assert forall i | 0 <= i < j :: more[i] == items[..j][i];
    if Within(items[j], timeOf, from, to) {
      assert more[j] == items[j];
    } else if before.Some? {
      var i :| 0 <= i < j && items[..j][i] == before.value && Within(items[..j][i], timeOf, from, to)
               && forall l | i < l < j :: !Within(items[..j][l], timeOf, from, to);
      assert more[i] == before.value;
    }
  }

  // ------------------------------------------------------------- what the grid promises

  lemma Cancel(m: int, n: int, step: int)
    requires step > 0 && m * step < n * step
    ensures m < n
  { }

  /** A width that suited the span needs at most one cell more than the target, so the cap is not met. */
  lemma GridFitsTarget(lo: int, hi: int, step: int, targetPoints: int)
    requires step > 0 && lo <= hi && hi - lo <= targetPoints * step
    ensures BucketOf(hi, step) - BucketOf(lo, step) + 1 <= targetPoints + 1
    ensures targetPoints + 1 <= MAX_BUCKETS ==>
              CellCount(BucketOf(lo, step), BucketOf(hi, step)) == BucketOf(hi, step) - BucketOf(lo, step) + 1
  {
    var a, b := BucketOf(lo, step), BucketOf(hi, step);
    BucketHolds(lo, step, a);
    BucketHolds(hi, step, b);
    assert (b - a) * step == b * step - a * step;
    assert (targetPoints + 1) * step == targetPoints * step + step;
    Cancel(b - a, targetPoints + 1, step);
  }

  /** The points drawn stay within the target exactly when the span, measured from the start of its
      first bucket, is shorter than that many widths, or the target is no less than the cap. */
  lemma PointsWithinTarget(lo: int, hi: int, step: int, targetPoints: int)
    requires step > 0 && lo <= hi
    ensures BucketOf(hi, step) - BucketOf(lo, step) + 1 <= targetPoints
            <==> lo % step + (hi - lo) < targetPoints * step
    ensures CellCount(BucketOf(lo, step), BucketOf(hi, step)) <= targetPoints
            <==> lo % step + (hi - lo) < targetPoints * step || targetPoints >= MAX_BUCKETS
  {
    var a, b := BucketOf(lo, step), BucketOf(hi, step);
    BucketHolds(hi, step, b);
    assert a * step + lo % step == lo;
    assert (a + targetPoints) * step == a * step + targetPoints * step;
    if b < a + targetPoints {
      Multiples(b + 1, a + targetPoints, step);
    } else {
      Multiples(a + targetPoints, b, step);
    }
  }

  /** Even a width that suits the span can need a cell too many: one minute that straddles two. */
  lemma OnePointTooMany()
    ensures Suits(MINUTE, 90_000 - 30_000, 1, 0.0)
    ensures CellCount(BucketOf(30_000, MINUTE), BucketOf(90_000, MINUTE)) == 2 > 1
  { }

  /** When a day is too narrow for the span the widest width is used all the same, and the
      target is missed by as many points as the span has days too many, up to the cap. */
  lemma FallbackMissesTarget(targetPoints: int, excess: nat)
    requires targetPoints > 0
    ensures var hi := (targetPoints + excess) * DAY;
            CellCount(BucketOf(0, DAY), BucketOf(hi, DAY))
            == if targetPoints + excess + 1 < MAX_BUCKETS then targetPoints + excess + 1 else MAX_BUCKETS
    ensures excess > 0 ==>
              forall s | s in BUCKET_STEPS :: !Suits(s, (targetPoints + excess) * DAY, targetPoints, 0.0)
  {
    BucketHolds((targetPoints + excess) * DAY, DAY, targetPoints + excess);
    BucketHolds(0, DAY, 0);
    forall s | s in BUCKET_STEPS && excess > 0 ensures !Suits(s, (targetPoints + excess) * DAY, targetPoints, 0.0) {
      assert targetPoints * s <= targetPoints * DAY by { ProductGrows(targetPoints, s, DAY); }
    }
  }

  lemma ProductGrows(n: int, x: int, y: int)
    requires n > 0 && x <= y
    ensures n * x <= n * y
  { }

  /** A span of as many widths as the target, or more, misses a target below the cap. */
  lemma LongSpanMissesTarget(lo: int, hi: int, step: int, targetPoints: int)
    requires step > 0 && lo <= hi && hi - lo >= targetPoints * step && targetPoints < MAX_BUCKETS
    ensures CellCount(BucketOf(lo, step), BucketOf(hi, step)) > targetPoints
  {
    PointsWithinTarget(lo, hi, step, targetPoints);
  }

  /** Unless the cap is met every timed item falls in a cell of the grid. */
  lemma EveryItemHasCell<T>(b: Bucketed<T>, items: seq<T>, timeOf: T -> Option<int>, lo: int, hi: int, i: nat)
    requires IsLeast(lo, items, timeOf) && IsGreatest(hi, items, timeOf) && IsGrid(b, items, timeOf, lo, hi)
    requires BucketOf(hi, b.bucketMs) - BucketOf(lo, b.bucketMs) + 1 <= MAX_BUCKETS
    requires i < |items| && timeOf(items[i]).Some?
    ensures exists k :: 0 <= k < |b.x| && Within(items[i], timeOf, b.x[k], b.x[k] + b.bucketMs)
  {
    var t, step := timeOf(items[i]).value, b.bucketMs;
    var first, q, last := BucketOf(lo, step), BucketOf(t, step), BucketOf(hi, step);
    BucketOrder(lo, t, step);
    BucketOrder(t, hi, step);
    BucketHolds(t, step, q);
    assert b.x[q - first] == (first + (q - first)) * step;
    assert Within(items[i], timeOf, b.x[q - first], b.x[q - first] + step);
  }

  lemma BucketOrder(t: int, u: int, step: int)
    requires step > 0 && t <= u
    ensures BucketOf(t, step) <= BucketOf(u, step)
  {
    BucketHolds(t, step, BucketOf(t, step));
    BucketHolds(u, step, BucketOf(u, step));
    if BucketOf(u, step) < BucketOf(t, step) { Multiples(BucketOf(u, step) + 1, BucketOf(t, step), step); }
  }

  /** Every observation is followed by another within one width, up to the last. */
  ghost predicate Steady<T>(items: seq<T>, timeOf: T -> Option<int>, hi: int, step: int) {
    forall i {:trigger Followed(items, timeOf, i, step)} |
      0 <= i < |items| && timeOf(items[i]).Some? && timeOf(items[i]).value < hi :: Followed(items, timeOf, i, step)
  }

  /** Some item is observed at most one width later. */
  ghost predicate Followed<T>(items: seq<T>, timeOf: T -> Option<int>, i: nat, step: int)
    requires i < |items| && timeOf(items[i]).Some?
  {
    var t := timeOf(items[i]).value;
    exists j :: 0 <= j < |items| && Within(items[j], timeOf, t + 1, t + step + 1)
  }

  /** The latest item before a time. */
  lemma {:induction false} LatestBefore<T>(items: seq<T>, timeOf: T -> Option<int>, lo: int, t: int) returns (i: nat)
    requires exists j :: 0 <= j < |items| && Within(items[j], timeOf, lo, t)
    ensures i < |items| && Within(items[i], timeOf, lo, t)
    ensures forall j | 0 <= j < |items| && Within(items[j], timeOf, lo, t) ::
              timeOf(items[j]).value <= timeOf(items[i]).value
    decreases t - lo
  {
    var j :| 0 <= j < |items| && Within(items[j], timeOf, lo, t);
    var later := timeOf(items[j]).value + 1;
    if exists l :: 0 <= l < |items| && Within(items[l], timeOf, later, t) {
      i := LatestBefore(items, timeOf, later, t);
    } else {
      i := j;
    }
  }

  lemma SteadyReaches<T>(items: seq<T>, timeOf: T -> Option<int>, lo: int, hi: int, step: int, x: int)
    requires IsLeast(lo, items, timeOf) && IsGreatest(hi, items, timeOf) && Steady(items, timeOf, hi, step)
    requires lo < x + step && x <= hi
    ensures exists j :: 0 <= j < |items| && Within(items[j], timeOf, x, x + step)
  {
    var l :| 0 <= l < |items| && timeOf(items[l]) == Some(lo);
    if x <= lo {
      assert Within(items[l], timeOf, x, x + step);
    } else {
      assert Within(items[l], timeOf, lo, x);
      var i := LatestBefore(items, timeOf, lo, x);
      var t := timeOf(items[i]).value;
      assert Followed(items, timeOf, i, step);
      var j :| 0 <= j < |items| && Within(items[j], timeOf, t + 1, t + step + 1);
      assert !Within(items[j], timeOf, lo, x);
      assert Within(items[j], timeOf, x, x + step);
    }
  }

  lemma CellPlace(lo: int, hi: int, step: int, k: nat)
    requires step > 0 && k <= BucketOf(hi, step) - BucketOf(lo, step)
    ensures var x := (BucketOf(lo, step) + k) * step;
            lo < x + step && x <= hi
  {
    var first, last := BucketOf(lo, step), BucketOf(hi, step);
    BucketHolds(lo, step, first);
    BucketHolds(hi, step, last);
    Multiples(first, first + k, step);
    Multiples(first + k, last, step);
  }

  /** A hole means that sampling lapsed: a steady series leaves no cell empty. */
  lemma SteadySeriesHasNoHole<T>(b: Bucketed<T>, items: seq<T>, timeOf: T -> Option<int>,
                                                    lo: int, hi: int, k: nat)
    requires IsLeast(lo, items, timeOf) && IsGreatest(hi, items, timeOf) && IsGrid(b, items, timeOf, lo, hi)
    requires Steady(items, timeOf, hi, b.bucketMs)
    requires k < |b.x| && HoldsLast(b.samples[k], items, timeOf, b.x[k], b.x[k] + b.bucketMs)
    ensures b.samples[k].Some?
  {
    CellPlace(lo, hi, b.bucketMs, k);
    SteadyReaches(items, timeOf, lo, hi, b.bucketMs, b.x[k]);
  }

  // --------------------------------------------------------------- runs of observations

  datatype Range = Range(from: int, to: int)

  predicate Present<T>(values: seq<Option<T>>, i: int) {
    0 <= i < |values| && values[i].Some?
  }

  /** A run: present throughout, and not extendable on either side. */
  ghost predicate IsRun<T>(values: seq<Option<T>>, r: Range) {
    && 0 <= r.from <= r.to < |values|
    && (forall i | r.from <= i <= r.to :: Present(values, i))
    && !Present(values, r.from - 1) && !Present(values, r.to + 1)
  }

  /** In order, with a hole between each and the next. */
  ghost predicate Ordered(runs: seq<Range>) {
    forall i, j | 0 <= i < j < |runs| :: runs[i].to + 1 < runs[j].from
  }

  /** The runs before a position, all closed. */
  ghost predicate RunsBefore<T>(values: seq<Option<T>>, runs: seq<Range>, end: int) {
    && Ordered(runs)
    && (forall r | r in runs :: IsRun(values, r) && r.to < end)
    && forall i | 0 <= i < end && Present(values, i) :: exists k :: 0 <= k < |runs| && runs[k].from <= i <= runs[k].to
  }

  /** Between two steps of the loop: closed runs, and perhaps one that is open. */
  ghost predicate Progress<T>(values: seq<Option<T>>, runs: seq<Range>, start: Option<int>, i: int) {
    match start
    case None => RunsBefore(values, runs, i) && !Present(values, i - 1)
    case Some(from) =>
      && 0 <= from < i && RunsBefore(values, runs, from) && !Present(values, from - 1)
      && forall j | from <= j < i :: Present(values, j)
  }

  lemma RunsComplete<T>(values: seq<Option<T>>, runs: seq<Range>)
    requires RunsBefore(values, runs, |values|)
    ensures forall r :: r in runs <==> IsRun(values, r)
  {
    forall r | IsRun(values, r) ensures r in runs {
      assert Present(values, r.from);
      var k :| 0 <= k < |runs| && runs[k].from <= r.from <= runs[k].to;
      assert runs[k] in runs;
      SameRun(values, r, runs[k]);
    }
  }

  method RunsOfPresent<T>(values: seq<Option<T>>) returns (runs: seq<Range>)
    ensures Ordered(runs)
    ensures forall r :: r in runs <==> IsRun(values, r)
  {
    runs := [];
    var start: Option<int> := None;
    for i := 0 to |values|
      invariant Progress(values, runs, start, i)
    {
      runs, start := OneValue(values, runs, start, i);
    }
    runs := LastRun(values, runs, start);
    RunsComplete(values, runs);
  }

  method LastRun<T>(values: seq<Option<T>>, before: seq<Range>, start: Option<int>) returns (runs: seq<Range>)
    requires Progress(values, before, start, |values|)
    ensures RunsBefore(values, runs, |values|)
  {
    runs := before;
    if start.Some? {
      CloseRun(values, runs, start.value, |values| - 1);
      runs := runs + [Range(start.value, |values| - 1)];
    }
  }

  method OneValue<T>(values: seq<Option<T>>, runs: seq<Range>, start: Option<int>, i: nat)
    returns (runs': seq<Range>, start': Option<int>)
    requires i < |values| && Progress(values, runs, start, i)
    ensures Progress(values, runs', start', i + 1)
  {
    var present := values[i].Some?;
    runs', start' := runs, start;
    if present && start.None? {
      start' := Some(i);
    }
    if !present && start.Some? {
      runs' := runs + [Range(start.value, i - 1)];
      start' := None;
    }
    if present { ValuePresent(values, runs, start, i); } else { ValueMissing(values, runs, start, i); }
  }

  lemma ValuePresent<T>(values: seq<Option<T>>, runs: seq<Range>, start: Option<int>, i: nat)
    requires Present(values, i) && Progress(values, runs, start, i)
    ensures Progress(values, runs, if start.None? then Some(i) else start, i + 1)
  { }

  lemma ValueMissing<T>(values: seq<Option<T>>, runs: seq<Range>, start: Option<int>, i: nat)
    requires i < |values| && !Present(values, i) && Progress(values, runs, start, i)
    ensures Progress(values, if start.None? then runs else runs + [Range(start.value, i - 1)], None, i + 1)
  {
    if start.Some? {
      CloseRun(values, runs, start.value, i - 1);
      ClosedBeforeHole(values, runs + [Range(start.value, i - 1)], i);
    } else {
      ClosedBeforeHole(values, runs, i);
    }
  }

  lemma ClosedBeforeHole<T>(values: seq<Option<T>>, runs: seq<Range>, i: nat)
    requires i < |values| && !Present(values, i) && RunsBefore(values, runs, i)
    ensures RunsBefore(values, runs, i + 1)
  { }

  lemma CloseRun<T>(values: seq<Option<T>>, runs: seq<Range>, from: int, to: int)
    requires 0 <= from <= to < |values| && RunsBefore(values, runs, from) && IsRun(values, Range(from, to))
    ensures RunsBefore(values, runs + [Range(from, to)], to + 1)
  {
    var more := runs + [Range(from, to)];
    forall i | 0 <= i < |runs| ensures runs[i].to + 1 < from {
      assert runs[i] in runs && Present(values, from);
    }
    forall i | 0 <= i < to + 1 && Present(values, i) ensures exists k :: 0 <= k < |more| && more[k].from <= i <= more[k].to {
      if i < from {
        var k :| 0 <= k < |runs| && runs[k].from <= i <= runs[k].to;
        assert more[k] == runs[k];
      } else {
        assert more[|runs|] == Range(from, to);
      }
    }
  }

  lemma SameRun<T>(values: seq<Option<T>>, r: Range, s: Range)
    requires IsRun(values, r) && IsRun(values, s) && s.from <= r.from <= s.to
    ensures r == s
  {
    assert s.from < r.from ==> Present(values, r.from - 1);
    assert r.to < s.to ==> Present(values, r.to + 1);
    assert s.to < r.to ==> Present(values, s.to + 1);
  }
}
