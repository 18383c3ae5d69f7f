/** Giving the pieces of a cut axis their widths, and the axis its segments. */
module AxisLayout {
  import opened Text
  import opened Sorting
  import opened Allocation
  import opened TimeScale
  import opened Numbers
  import opened AxisBuilder

  datatype Piece = Piece(kind: SegmentKind, from: real, to: real)

  // -------------------------------------------------------------------------- draft

  /** A span for every group, and a gap between each group and the next. */
  ghost predicate IsDraft(draft: seq<Piece>, groups: seq<seq<real>>)
    requires NonEmpty(groups)
  {
    && |groups| > 0
    && |draft| == 2 * |groups| - 1
    && forall p | 0 <= p < |draft| :: draft[p] == PieceOf(groups, p)
  }

  function PieceOf(groups: seq<seq<real>>, p: nat): Piece
    requires NonEmpty(groups) && p < 2 * |groups| - 1
  {
    if p % 2 == 0 then Piece(Span, groups[p / 2][0], Last(groups[p / 2]))
    else Piece(Gap, Last(groups[p / 2]), groups[p / 2 + 1][0])
  }

  method DraftPieces(groups: seq<seq<real>>) returns (draft: seq<Piece>)
    requires NonEmpty(groups) && |groups| > 0
    ensures IsDraft(draft, groups)
  {
    draft := [];
    for i := 0 to |groups|
      invariant |draft| == if i == 0 then 0 else 2 * i - 1
      invariant forall p | 0 <= p < |draft| :: draft[p] == PieceOf(groups, p)
    {
      if i > 0 {
        assert PieceOf(groups, 2 * i - 1) == Piece(Gap, Last(groups[i - 1]), groups[i][0]);
        draft := draft + [Piece(Gap, Last(groups[i - 1]), groups[i][0])];
      }
      assert PieceOf(groups, 2 * i) == Piece(Span, groups[i][0], Last(groups[i]));
      draft := draft + [Piece(Span, groups[i][0], Last(groups[i]))];
    }
  }

  function OfKind(draft: seq<Piece>, kind: SegmentKind): seq<Piece> {
    if draft == [] then []
    else (if draft[0].kind == kind then [draft[0]] else []) + OfKind(draft[1..], kind)
  }

  ghost predicate Alternates(draft: seq<Piece>) {
    && |draft| % 2 == 1
    && forall p | 0 <= p < |draft| :: draft[p].kind == if p % 2 == 0 then Span else Gap
  }

  lemma {:induction false} PickAlternate(draft: seq<Piece>)
    requires Alternates(draft)
    ensures |OfKind(draft, Span)| == |draft| / 2 + 1 && |OfKind(draft, Gap)| == |draft| / 2
    ensures forall i | 0 <= i <= |draft| / 2 :: OfKind(draft, Span)[i] == draft[2 * i]
    ensures forall i | 0 <= i < |draft| / 2 :: OfKind(draft, Gap)[i] == draft[2 * i + 1]
  {
    PickAt(draft, 0);
    forall i | 0 <= i <= |draft| / 2
      ensures OfKind(draft, Span)[i] == draft[2 * i]
      ensures i < |draft| / 2 ==> OfKind(draft, Gap)[i] == draft[2 * i + 1]
    {
      PickAt(draft, i);
    }
  }

  lemma {:induction false} PickAt(draft: seq<Piece>, i: nat)
    requires Alternates(draft) && i <= |draft| / 2
    ensures |OfKind(draft, Span)| == |draft| / 2 + 1 && |OfKind(draft, Gap)| == |draft| / 2
    ensures OfKind(draft, Span)[i] == draft[2 * i]
    ensures i < |draft| / 2 ==> OfKind(draft, Gap)[i] == draft[2 * i + 1]
  {
    if |draft| == 1 {
      assert draft[1..] == [];
    } else {
      PickTwo(draft);
      TwoFewer(draft);
      PickAt(draft[2..], if i == 0 then 0 else i - 1);
    }
  }

  lemma TwoFewer(draft: seq<Piece>)
    requires Alternates(draft) && |draft| > 1
    ensures Alternates(draft[2..]) && |draft[2..]| / 2 == |draft| / 2 - 1
  { }

  lemma {:induction false} PickTwo(draft: seq<Piece>)
    requires |draft| > 1 && draft[0].kind == Span && draft[1].kind == Gap
    ensures OfKind(draft, Span) == [draft[0]] + OfKind(draft[2..], Span)
    ensures OfKind(draft, Gap) == [draft[1]] + OfKind(draft[2..], Gap)
  {
    assert draft[1..][1..] == draft[2..] && draft[1..][0] == draft[1];
  }

  // ------------------------------------------------------------------------- widths

  lemma {:induction false} SumScaled(xs: seq<real>, c: real)
    ensures Sum(Scale(xs, c)) == c * Sum(xs)
  {
    if xs != [] {
      SumScaled(xs[1..], c);
      Distribute(c, xs[0], Sum(xs[1..]));
    }
  }

  lemma {:induction false} SumPositive(xs: seq<real>)
    requires |xs| > 0 && forall i | 0 <= i < |xs| :: xs[i] > 0.0
    ensures Sum(xs) > 0.0
  {
    if |xs| > 1 { SumPositive(xs[1..]); }
  }

  /** The shares of the spare width, in proportion to duration, on top of the floor. */
  lemma {:induction false} SpreadSum(widths: seq<real>, durations: seq<real>, floor: real, c: real)
    requires |widths| == |durations|
    requires forall i | 0 <= i < |widths| :: widths[i] == floor + Scale(durations, c)[i]
    ensures Sum(widths) == Floors(floor, |widths|) + Sum(Scale(durations, c))
  {
    if widths != [] {
      assert Scale(durations, c)[1..] == Scale(durations[1..], c);
      SpreadSum(widths[1..], durations[1..], floor, c);
    }
  }

  /** `leftover * d / total`, as a multiple of the spare width per unit of time. */
  lemma SpareShare(leftover: real, d: real, total: real, c: real)
    requires total != 0.0 && c * total == leftover
    ensures leftover * d / total == c * d
  {
    var q := Factor(leftover * d, total);
    assert (c * d) * total == leftover * d;
    SameFactor(q, c * d, total);
  }

  /** Breaks share the spare width by how much time each one skips. */
  method SpreadGaps(durations: seq<real>, minGapWidth: real, leftover: real) returns (widths: seq<real>)
    requires |durations| > 0 && forall i | 0 <= i < |durations| :: durations[i] > 0.0
    requires leftover >= 0.0
    ensures |widths| == |durations|
    ensures Sum(widths) == Floors(minGapWidth, |durations|) + leftover
    ensures Proportional(widths, minGapWidth, durations)
    ensures forall i | 0 <= i < |widths| :: widths[i] >= minGapWidth
    ensures forall i, j | 0 <= i < |widths| && 0 <= j < |widths| && durations[i] <= durations[j] ::
              widths[i] <= widths[j]
  {
    SumPositive(durations);
    var total := if Sum(durations) == 0.0 then 1.0 else Sum(durations);
    ghost var c := Factor(leftover, total);
    NonNegativeFactor(c, total);
    widths := SpreadAt(durations, minGapWidth, leftover, total, c);
    SpreadSum(widths, durations, minGapWidth, c);
    SumScaled(durations, c);
    SpreadKeepsOrder(widths, durations, minGapWidth, c);
  }

  method SpreadAt(durations: seq<real>, minGapWidth: real, leftover: real, total: real, ghost c: real)
    returns (widths: seq<real>)
    requires total != 0.0 && c * total == leftover
    ensures |widths| == |durations|
    ensures forall i | 0 <= i < |widths| :: widths[i] == minGapWidth + Scale(durations, c)[i]
  {
    widths := [];
    for i := 0 to |durations|
      invariant |widths| == i
      invariant forall k | 0 <= k < i :: widths[k] == minGapWidth + Scale(durations, c)[k]
    {
      SpareShare(leftover, durations[i], total, c);
      ScaleAt(durations, c, i);
      widths := widths + [minGapWidth + leftover * durations[i] / total];
    }
  }

  lemma {:induction false} SpreadKeepsOrder(widths: seq<real>, durations: seq<real>, floor: real, c: real)
    requires |widths| == |durations| && c >= 0.0 && forall i | 0 <= i < |durations| :: durations[i] > 0.0
    requires forall i | 0 <= i < |widths| :: widths[i] == floor + Scale(durations, c)[i]
    ensures forall i | 0 <= i < |widths| :: widths[i] >= floor
    ensures forall i, j | 0 <= i < |widths| && 0 <= j < |widths| && durations[i] <= durations[j] ::
              widths[i] <= widths[j]
  {
    forall i | 0 <= i < |widths| ensures widths[i] >= floor {
      ScaleAt(durations, c, i);
      ProductNonNegative(c, durations[i]);
    }
    forall i, j | 0 <= i < |widths| && 0 <= j < |widths| && durations[i] <= durations[j]
      ensures widths[i] <= widths[j]
    {
      ScaleAt(durations, c, i);
      ScaleAt(durations, c, j);
      ProductGrows(c, durations[i], durations[j]);
    }
  }

  lemma ProductGrows(c: real, x: real, y: real)
    requires c >= 0.0 && x <= y
    ensures c * x <= c * y
  {
    ProductNonNegative(c, y - x);
  }

  // ------------------------------------------------------------------------- layout

  /** Span and gap widths in the order of the pieces. */
  function Interleave(spans: seq<real>, gaps: seq<real>): (widths: seq<real>)
    requires |spans| == |gaps| + 1
    ensures |widths| == |spans| + |gaps|
  {
    seq(|spans| + |gaps|, p requires 0 <= p < |spans| + |gaps| => if p % 2 == 0 then spans[p / 2] else gaps[p / 2])
  }

  lemma {:induction false} InterleaveSum(spans: seq<real>, gaps: seq<real>)
    requires |spans| == |gaps| + 1
    ensures Sum(Interleave(spans, gaps)) == Sum(spans) + Sum(gaps)
  {
    var w := Interleave(spans, gaps);
    if gaps == [] {
      assert w == [spans[0]] && w[1..] == [] && spans[1..] == [];
    } else {
      InterleaveSum(spans[1..], gaps[1..]);
      assert w[1..][1..] == Interleave(spans[1..], gaps[1..]);
    }
  }

  lemma {:induction false} SumAppend(xs: seq<real>, x: real)
    ensures Sum(xs + [x]) == Sum(xs) + x
  {
    if xs == [] {
      assert xs + [x] == [x] && [x][1..] == [];
    } else {
      SumAppend(xs[1..], x);
      assert (xs + [x])[1..] == xs[1..] + [x];
    }
  }

  /** The pieces side by side from `r0` on, each as wide as its width says. */
  ghost predicate LaidOut(segments: seq<Segment>, draft: seq<Piece>, widths: seq<real>, r0: real, n: nat)
    requires n <= |draft| == |widths|
  {
    && |segments| == n
    && (forall p | 0 <= p < n ::
          && segments[p].kind == draft[p].kind && segments[p].from == draft[p].from && segments[p].to == draft[p].to
          && segments[p].x1 == segments[p].x0 + widths[p])
    && (n > 0 ==> segments[0].x0 == r0 && segments[n - 1].x1 == r0 + Sum(widths[..n]))
    && (forall p | 0 < p < n :: segments[p - 1].x1 == segments[p].x0)
  }

  lemma LayOne(segments: seq<Segment>, draft: seq<Piece>, widths: seq<real>, r0: real, p: nat, x: real)
    requires p < |draft| == |widths| && LaidOut(segments, draft, widths, r0, p) && x == r0 + Sum(widths[..p])
    ensures var next := Segment(draft[p].kind, draft[p].from, draft[p].to, x, x + widths[p]);
            LaidOut(segments + [next], draft, widths, r0, p + 1)
    ensures x + widths[p] == r0 + Sum(widths[..p + 1])
  {
    assert widths[..p + 1] == widths[..p] + [widths[p]];
    SumAppend(widths[..p], widths[p]);
  }

  method LayOut(draft: seq<Piece>, spanWidths: seq<real>, gapWidths: seq<real>, r0: real)
    returns (segments: seq<Segment>)
    requires Alternates(draft) && |spanWidths| == |gapWidths| + 1 && |draft| == |spanWidths| + |gapWidths|
    ensures LaidOut(segments, draft, Interleave(spanWidths, gapWidths), r0, |draft|)
  {
    ghost var widths := Interleave(spanWidths, gapWidths);
    segments := [];
    var x := r0;
    var spanIndex, gapIndex := 0, 0;
    for p := 0 to |draft|
      invariant spanIndex == (p + 1) / 2 && gapIndex == p / 2
      invariant x == r0 + Sum(widths[..p])
      invariant LaidOut(segments, draft, widths, r0, p)
    {
      LayOne(segments, draft, widths, r0, p, x);
      var w;
      if draft[p].kind == Gap {
        w := gapWidths[gapIndex];
        gapIndex := gapIndex + 1;
      } else {
        w := spanWidths[spanIndex];
        spanIndex := spanIndex + 1;
      }
      segments := segments + [Segment(draft[p].kind, draft[p].from, draft[p].to, x, x + w)];
      x := x + w;
    }
  }

  // ---------------------------------------------------------------------- the scale

  /** Widths that cannot vanish: what a caller passes for the widths and the margin. */
  predicate Sensible(opt: Options) {
    opt.minGapWidth > 0.0 && opt.minSpanWidth > 0.0 && opt.spanMargin >= 0.0
  }

  lemma DefaultsAreSensible()
    ensures Sensible(DEFAULTS)
  { }

  /** The width a span needs for its content. */
  function Need(weigh: (real, real) -> real, opt: Options, from: real, to: real): real {
    Max(opt.minSpanWidth, Max(0.0, weigh(from, to)) + 2.0 * opt.spanMargin)
  }

  function Needs(weigh: (real, real) -> real, opt: Options, spans: seq<Piece>): (needs: seq<real>)
    ensures |needs| == |spans|
    ensures forall i | 0 <= i < |needs| :: needs[i] == Need(weigh, opt, spans[i].from, spans[i].to)
  {
    seq(|spans|, i requires 0 <= i < |spans| => Need(weigh, opt, spans[i].from, spans[i].to))
  }

  function Durations(gaps: seq<Piece>): (durations: seq<real>)
    ensures |durations| == |gaps|
    ensures forall i | 0 <= i < |durations| :: durations[i] == gaps[i].to - gaps[i].from
  {
    seq(|gaps|, i requires 0 <= i < |gaps| => gaps[i].to - gaps[i].from)
  }

  /** Real width is left for the data once `gapCount` breaks have their minimum. */
  predicate RoomForData(gapCount: nat, totalWidth: real, opt: Options) {
    totalWidth - gapCount as real * opt.minGapWidth >= Max(opt.minSpanWidth, totalWidth * 0.3)
  }

  /** Above the floor every width is the duration times one common factor. */
  ghost predicate Proportional(widths: seq<real>, floor: real, durations: seq<real>) {
    && |widths| == |durations|
    && exists c: real :: forall i | 0 <= i < |widths| :: widths[i] == floor + Scale(durations, c)[i]
  }

  /** Shares of a total in proportion to need, but none below the floor unless there is too little for all. */
  ghost predicate FairlyShared(widths: seq<real>, needs: seq<real>, total: real, floor: real) {
    && |widths| == |needs|
    && if total < floor * |needs| as real
       then forall i | 0 <= i < |widths| :: widths[i] == total / |widths| as real
       else && (forall i | 0 <= i < |widths| :: widths[i] >= floor)
            && (Pourable(needs, floor) ==> exists level :: WaterFilled(needs, floor, widths, level))
  }

  /** With room to spare, spans take exactly what their content needs and breaks share the rest by how
      much time each skips; otherwise breaks shrink to their minimum and spans share what is left. */
  ghost predicate Elastic(spanWidths: seq<real>, gapWidths: seq<real>, needs: seq<real>, durations: seq<real>,
                          totalWidth: real, opt: Options)
  {
    var floors := |durations| as real * opt.minGapWidth;
    if Sum(needs) + floors <= totalWidth then
      spanWidths == needs && Proportional(gapWidths, opt.minGapWidth, durations)
    else
      && (forall i | 0 <= i < |gapWidths| :: gapWidths[i] == opt.minGapWidth)
      && FairlyShared(spanWidths, needs, totalWidth - floors, opt.minSpanWidth)
  }

  lemma RoomIsPositive(gapCount: nat, totalWidth: real, opt: Options)
    requires totalWidth > 0.0 && RoomForData(gapCount, totalWidth, opt)
    ensures totalWidth - gapCount as real * opt.minGapWidth > 0.0
  { }

  /** Both width branches: the widths fill the axis exactly, and none vanishes. */
  method ShareWidth(needs: seq<real>, durations: seq<real>, totalWidth: real, opt: Options)
    returns (spanWidths: seq<real>, gapWidths: seq<real>)
    requires |needs| == |durations| + 1 && |durations| > 0 && totalWidth > 0.0
    requires forall i | 0 <= i < |durations| :: durations[i] > 0.0
    requires forall i | 0 <= i < |needs| :: needs[i] >= opt.minSpanWidth
    requires RoomForData(|durations|, totalWidth, opt)
    ensures |spanWidths| == |needs| && |gapWidths| == |durations|
    ensures Sum(spanWidths) + Sum(gapWidths) == totalWidth
    ensures Sensible(opt) ==> forall i | 0 <= i < |spanWidths| :: spanWidths[i] > 0.0
    ensures Sensible(opt) ==> forall i | 0 <= i < |gapWidths| :: gapWidths[i] > 0.0
    ensures Elastic(spanWidths, gapWidths, needs, durations, totalWidth, opt)
  {
    var floors := |durations| as real * opt.minGapWidth;
    GapFloors(opt.minGapWidth, |durations|, floors);
    var needTotal := Sum(needs);
    if needTotal + floors <= totalWidth {
      spanWidths := needs;
      gapWidths := SpreadGaps(durations, opt.minGapWidth, totalWidth - needTotal - floors);
      RoomyIsElastic(gapWidths, needs, durations, floors, totalWidth, opt);
    } else {
      RoomIsPositive(|durations|, totalWidth, opt);
      gapWidths := seq(|durations|, _ => opt.minGapWidth);
      EqualShares(gapWidths, opt.minGapWidth);
      spanWidths := AllocateSpans(needs, totalWidth - floors, opt.minSpanWidth);
      TightIsElastic(spanWidths, gapWidths, needs, durations, floors, totalWidth, opt);
    }
  }

  lemma {:induction false} RoomyIsElastic(gapWidths: seq<real>, needs: seq<real>, durations: seq<real>,
                                          floors: real, totalWidth: real, opt: Options)
    requires floors == |durations| as real * opt.minGapWidth && Sum(needs) + floors <= totalWidth
    requires Proportional(gapWidths, opt.minGapWidth, durations)
    ensures Elastic(needs, gapWidths, needs, durations, totalWidth, opt)
  { }

  lemma {:induction false} TightIsElastic(spanWidths: seq<real>, gapWidths: seq<real>, needs: seq<real>,
                                          durations: seq<real>, floors: real, totalWidth: real, opt: Options)
    requires floors == |durations| as real * opt.minGapWidth && Sum(needs) + floors > totalWidth
    requires forall i | 0 <= i < |gapWidths| :: gapWidths[i] == opt.minGapWidth
    requires FairlyShared(spanWidths, needs, totalWidth - floors, opt.minSpanWidth)
    ensures Elastic(spanWidths, gapWidths, needs, durations, totalWidth, opt)
  { }

  lemma {:induction false} GapFloors(minGapWidth: real, gapCount: nat, floors: real)
    requires floors == gapCount as real * minGapWidth
    ensures floors == Floors(minGapWidth, gapCount)
  {
    FloorsAreProduct(minGapWidth, gapCount);
  }

  method AllocateSpans(needs: seq<real>, total: real, minSpanWidth: real) returns (widths: seq<real>)
    requires |needs| > 0 && total > 0.0
    ensures |widths| == |needs| && Sum(widths) == total && FairlyShared(widths, needs, total, minSpanWidth)
    ensures minSpanWidth > 0.0 ==> forall i | 0 <= i < |widths| :: widths[i] > 0.0
  {
    var out := Allocate(needs, total, minSpanWidth);
    ghost var q := Factor(total, |needs| as real);
    ProductSign(q, |needs| as real);
    widths := out[..];
  }

  /** Every significant time lies in a span. */
  ghost predicate TimesInSpans(times: seq<Option<real>>, axis: Axis)
    requires axis.Broken?
  {
    forall t | t in Finite(times) :: InSpan(Clamp(t, axis.lo, axis.hi), axis.segments)
  }

  ghost predicate InSpan(t: real, segments: seq<Segment>) {
    exists p | 0 <= p < |segments| :: segments[p].kind == Span && Contains(segments[p], t)
  }

  /** The axis is crowded, has outlying gaps, and has room to break at them. */
  ghost predicate WorthBreaking(times: seq<Option<real>>, lo: real, hi: real, r0: real, r1: real, opt: Options)
    requires lo < hi
  {
    var marks := Marks(times, lo, hi);
    MarksSpanDomain(times, lo, hi);
    var count := BreakCount(marks, Threshold(marks, lo, hi, opt), |marks|);
    && Crowded(DataPoints(times, lo, hi), lo, hi, r0, r1, opt.minSeparation)
    && count > 0
    && RoomForData(count, r1 - r0, opt)
  }

  /** Every gap is an outlier, and there is one for every break among the marks. */
  ghost predicate GapsAreBreaks(times: seq<Option<real>>, axis: Axis, opt: Options)
    requires axis.Broken? && axis.lo < axis.hi
  {
    var marks := Marks(times, axis.lo, axis.hi);
    MarksSpanDomain(times, axis.lo, axis.hi);
    var threshold := Threshold(marks, axis.lo, axis.hi, opt);
    && |axis.segments| == 2 * BreakCount(marks, threshold, |marks|) + 1
    && forall p | 0 <= p < |axis.segments| && axis.segments[p].kind == Gap ::
         axis.segments[p].to - axis.segments[p].from >= threshold
  }

  lemma DraftAlternates(draft: seq<Piece>, groups: seq<seq<real>>)
    requires NonEmpty(groups) && IsDraft(draft, groups)
    ensures Alternates(draft)
  {
  }

  lemma {:induction false} SpanPieces(draft: seq<Piece>, groups: seq<seq<real>>)
    requires NonEmpty(groups) && IsDraft(draft, groups)
    ensures |OfKind(draft, Span)| == |groups|
  {
    DraftAlternates(draft, groups);
    PickAlternate(draft);
  }

  lemma {:induction false} GapPieces(draft: seq<Piece>, groups: seq<seq<real>>)
    requires NonEmpty(groups) && IsDraft(draft, groups)
    ensures |OfKind(draft, Gap)| == |groups| - 1
    ensures forall i | 0 <= i < |groups| - 1 ::
              OfKind(draft, Gap)[i] == Piece(Gap, Last(groups[i]), groups[i + 1][0])
  {
    DraftAlternates(draft, groups);
    PickAlternate(draft);
    forall i | 0 <= i < |groups| - 1
      ensures OfKind(draft, Gap)[i] == Piece(Gap, Last(groups[i]), groups[i + 1][0])
    {
      OddPiece(draft, groups, i);
    }
  }

  lemma OddPiece(draft: seq<Piece>, groups: seq<seq<real>>, i: nat)
    requires NonEmpty(groups) && IsDraft(draft, groups) && i + 1 < |groups|
    ensures draft[2 * i + 1] == Piece(Gap, Last(groups[i]), groups[i + 1][0])
  {
    assert draft[2 * i + 1] == PieceOf(groups, 2 * i + 1);
  }

  lemma EvenPiece(draft: seq<Piece>, groups: seq<seq<real>>, i: nat)
    requires NonEmpty(groups) && IsDraft(draft, groups) && i < |groups|
    ensures draft[2 * i] == Piece(Span, groups[i][0], Last(groups[i]))
  {
    assert draft[2 * i] == PieceOf(groups, 2 * i);
  }

  /** The pieces cover the time from `lo` to `hi`, seam to seam. */
  ghost predicate Contiguous(draft: seq<Piece>, lo: real, hi: real) {
    && Alternates(draft)
    && draft[0].from == lo && draft[|draft| - 1].to == hi
    && (forall p | 0 <= p < |draft| :: draft[p].from <= draft[p].to)
    && (forall p | 0 <= p < |draft| && draft[p].kind == Gap :: draft[p].from < draft[p].to)
    && (forall p | 0 < p < |draft| :: draft[p - 1].to == draft[p].from)
  }

  lemma {:induction false} DraftContiguous(draft: seq<Piece>, groups: seq<seq<real>>, marks: seq<real>)
    requires NonEmpty(groups) && IsDraft(draft, groups) && Concat(groups) == marks && Ascending(marks)
    ensures |marks| > 0 && Contiguous(draft, marks[0], marks[|marks| - 1])
  {
    GroupsInOrder(groups, marks);
    DraftAlternates(draft, groups);
    EvenPiece(draft, groups, 0);
    EvenPiece(draft, groups, |groups| - 1);
    forall p | 0 <= p < |draft|
      ensures draft[p].from <= draft[p].to
      ensures draft[p].kind == Gap ==> draft[p].from < draft[p].to
      ensures p > 0 ==> draft[p - 1].to == draft[p].from
    {
      var g := p / 2;
      EvenPiece(draft, groups, g);
      if p % 2 == 0 {
        if g > 0 { OddPiece(draft, groups, g - 1); }
      } else {
        OddPiece(draft, groups, g);
      }
    }
  }

  /** Pieces cut at the breaks and laid out with widths that fill the axis tile it. */
  lemma {:induction false} LayoutTiles(segments: seq<Segment>, draft: seq<Piece>, widths: seq<real>,
                    lo: real, hi: real, r0: real, r1: real)
    requires Contiguous(draft, lo, hi)
    requires |widths| == |draft| && LaidOut(segments, draft, widths, r0, |draft|) && r0 + Sum(widths) == r1
    ensures Tiles(segments, lo, hi, r0, r1)
  {
    assert widths[..|draft|] == widths;
  }

  lemma {:induction false} LayoutCovers(segments: seq<Segment>, draft: seq<Piece>, groups: seq<seq<real>>, marks: seq<real>,
                     widths: seq<real>, r0: real)
    requires NonEmpty(groups) && IsDraft(draft, groups) && Concat(groups) == marks && Ascending(marks)
    requires |widths| == |draft| && LaidOut(segments, draft, widths, r0, |draft|)
    ensures forall t | t in marks :: InSpan(t, segments)
  {
    GroupsCoverMarks(groups, marks);
    forall t | t in marks ensures InSpan(t, segments) {
      assert Covered(t, groups);
      var g :| 0 <= g < |groups| && groups[g][0] <= t <= Last(groups[g]);
      EvenPiece(draft, groups, g);
      assert Contains(segments[2 * g], t);
    }
  }

  /** The axis of an ordered set of marks that is worth breaking. */
  method BreakAxis(marks: seq<real>, threshold: real, r0: real, r1: real, opt: Options,
                   weigh: (real, real) -> real)
    returns (axis: Option<Axis>)
    requires |marks| >= 2 && Ascending(marks) && r0 < r1
    ensures axis.Some? <==>
              BreakCount(marks, threshold, |marks|) > 0 && RoomForData(BreakCount(marks, threshold, |marks|), r1 - r0, opt)
    ensures axis.Some? ==> IsBrokenAxis(axis.value, marks, threshold, r0, r1, opt)
    ensures axis.Some? ==> Elastically(axis.value.segments, weigh, r1 - r0, opt)
  {
    var groups := GroupMarks(marks, threshold);
    assert marks[..|marks|] == marks;
    var draft := DraftPieces(groups);
    DraftContiguous(draft, groups, marks);
    var spans, gaps := OfKind(draft, Span), OfKind(draft, Gap);
    SpanPieces(draft, groups);
    GapPieces(draft, groups);
    var gapCount := |gaps|;
    if gapCount == 0 || !RoomForData(gapCount, r1 - r0, opt) { return None; }

    var segments := FillAxis(marks, groups, draft, threshold, r0, r1, opt, weigh);
    axis := Some(Broken(marks[0], marks[|marks| - 1], r0, r1, segments, opt.spanMargin));
  }

  lemma {:induction false} FilledAxis(segments: seq<Segment>, draft: seq<Piece>, groups: seq<seq<real>>,
                                      marks: seq<real>, threshold: real, spanWidths: seq<real>, gapWidths: seq<real>,
                                      r0: real, r1: real)
    requires |marks| >= 2 && Ascending(marks) && IsGrouping(groups, marks, threshold, |marks|)
    requires Concat(groups) == marks && NonEmpty(groups) && IsDraft(draft, groups)
    requires |spanWidths| == |gapWidths| + 1 && |draft| == |spanWidths| + |gapWidths|
    requires LaidOut(segments, draft, Interleave(spanWidths, gapWidths), r0, |draft|)
    requires r0 + Sum(spanWidths) + Sum(gapWidths) == r1
    ensures Tiles(segments, marks[0], marks[|marks| - 1], r0, r1)
    ensures forall t | t in marks :: InSpan(t, segments)
    ensures forall p | 0 <= p < |segments| && segments[p].kind == Gap ::
              segments[p].to - segments[p].from >= threshold
  {
    var widths := Interleave(spanWidths, gapWidths);
    DraftContiguous(draft, groups, marks);
    InterleaveSum(spanWidths, gapWidths);
    LayoutTiles(segments, draft, widths, marks[0], marks[|marks| - 1], r0, r1);
    LayoutCovers(segments, draft, groups, marks, widths, r0);
    LayoutGaps(segments, draft, groups, marks, threshold, widths, r0);
  }

  /** Widths for the pieces, and the pieces side by side. */
  method FillAxis(marks: seq<real>, groups: seq<seq<real>>, draft: seq<Piece>, threshold: real, r0: real, r1: real,
                  opt: Options, weigh: (real, real) -> real)
    returns (segments: seq<Segment>)
    requires |marks| >= 2 && Ascending(marks) && r0 < r1
    requires IsGrouping(groups, marks, threshold, |marks|) && Concat(groups) == marks
    requires NonEmpty(groups) && IsDraft(draft, groups) && |groups| > 1
    requires RoomForData(|groups| - 1, r1 - r0, opt)
    ensures Tiles(segments, marks[0], marks[|marks| - 1], r0, r1) && |segments| == |draft|
    ensures Sensible(opt) ==> PositiveWidths(segments)
    ensures forall t | t in marks :: InSpan(t, segments)
    ensures forall p | 0 <= p < |segments| && segments[p].kind == Gap ::
              segments[p].to - segments[p].from >= threshold
    ensures Elastically(segments, weigh, r1 - r0, opt)
  {
    var spans, gaps := OfKind(draft, Span), OfKind(draft, Gap);
    SpanPieces(draft, groups);
    GapPieces(draft, groups);
    GapDurations(draft, groups, marks);
    DraftContiguous(draft, groups, marks);
    var spanWidths, gapWidths := ShareWidth(Needs(weigh, opt, spans), Durations(gaps), r1 - r0, opt);
    segments := LayOut(draft, spanWidths, gapWidths, r0);
    FilledAxis(segments, draft, groups, marks, threshold, spanWidths, gapWidths, r0, r1);
    if Sensible(opt) { LayoutPositive(segments, draft, spanWidths, gapWidths, r0); }
    LayoutElastic(segments, draft, groups, spanWidths, gapWidths, r0, weigh, r1 - r0, opt);
  }

  /** What a broken axis is: a tiling of domain and range, cut at the outlying gaps alone. */
  ghost predicate IsBrokenAxis(axis: Axis, marks: seq<real>, threshold: real, r0: real, r1: real, opt: Options)
    requires |marks| >= 2
  {
    && axis.Broken?
    && axis.lo == marks[0] && axis.hi == marks[|marks| - 1] && axis.r0 == r0 && axis.r1 == r1
    && axis.margin == opt.spanMargin
    && Tiles(axis.segments, axis.lo, axis.hi, r0, r1)
    && (Sensible(opt) ==> PositiveWidths(axis.segments))
    && (forall t | t in marks :: InSpan(t, axis.segments))
    && |axis.segments| == 2 * BreakCount(marks, threshold, |marks|) + 1
    && (forall p | 0 <= p < |axis.segments| && axis.segments[p].kind == Gap ::
          axis.segments[p].to - axis.segments[p].from >= threshold)
  }

  /** The widths of the spans, and of the breaks between them. */
  function SpanWidths(segments: seq<Segment>): seq<real>
    requires |segments| % 2 == 1
  {
    seq(|segments| / 2 + 1, i requires 0 <= i <= |segments| / 2 => segments[2 * i].x1 - segments[2 * i].x0)
  }

  function GapWidths(segments: seq<Segment>): seq<real>
    requires |segments| % 2 == 1
  {
    seq(|segments| / 2, i requires 0 <= i < |segments| / 2 => segments[2 * i + 1].x1 - segments[2 * i + 1].x0)
  }

  function SpanNeeds(segments: seq<Segment>, weigh: (real, real) -> real, opt: Options): seq<real>
    requires |segments| % 2 == 1
  {
    seq(|segments| / 2 + 1, i requires 0 <= i <= |segments| / 2 =>
      Need(weigh, opt, segments[2 * i].from, segments[2 * i].to))
  }

  function SkippedTimes(segments: seq<Segment>): seq<real>
    requires |segments| % 2 == 1
  {
    seq(|segments| / 2, i requires 0 <= i < |segments| / 2 => segments[2 * i + 1].to - segments[2 * i + 1].from)
  }

  /** The width of every segment: what its content needs, its share of the rest, or its floor. */
  ghost predicate Elastically(segments: seq<Segment>, weigh: (real, real) -> real, totalWidth: real, opt: Options) {
    && |segments| % 2 == 1
    && Elastic(SpanWidths(segments), GapWidths(segments), SpanNeeds(segments, weigh, opt), SkippedTimes(segments),
               totalWidth, opt)
  }

  lemma {:induction false} LayoutElastic(segments: seq<Segment>, draft: seq<Piece>, groups: seq<seq<real>>,
                      spanWidths: seq<real>, gapWidths: seq<real>, r0: real,
                      weigh: (real, real) -> real, totalWidth: real, opt: Options)
    requires NonEmpty(groups) && IsDraft(draft, groups) && |gapWidths| + 1 == |spanWidths| == |groups|
    requires LaidOut(segments, draft, Interleave(spanWidths, gapWidths), r0, |draft|)
    requires Elastic(spanWidths, gapWidths, Needs(weigh, opt, OfKind(draft, Span)), Durations(OfKind(draft, Gap)),
                     totalWidth, opt)
    ensures Elastically(segments, weigh, totalWidth, opt)
  {
    LayoutSpanWidths(segments, draft, groups, spanWidths, gapWidths, r0, weigh, opt);
    LayoutGapWidths(segments, draft, groups, spanWidths, gapWidths, r0);
  }

  lemma {:induction false} LayoutSpanWidths(segments: seq<Segment>, draft: seq<Piece>, groups: seq<seq<real>>,
                      spanWidths: seq<real>, gapWidths: seq<real>, r0: real,
                      weigh: (real, real) -> real, opt: Options)
    requires NonEmpty(groups) && IsDraft(draft, groups) && |gapWidths| + 1 == |spanWidths| == |groups|
    requires LaidOut(segments, draft, Interleave(spanWidths, gapWidths), r0, |draft|)
    ensures |segments| % 2 == 1 && SpanWidths(segments) == spanWidths
    ensures SpanNeeds(segments, weigh, opt) == Needs(weigh, opt, OfKind(draft, Span))
  {
    SpanPieces(draft, groups);
    forall i | 0 <= i <= |segments| / 2
      ensures SpanWidths(segments)[i] == spanWidths[i]
      ensures SpanNeeds(segments, weigh, opt)[i] == Needs(weigh, opt, OfKind(draft, Span))[i]
    {
      WidthOfPiece(segments, draft, groups, spanWidths, gapWidths, r0, 2 * i);
    }
  }

  lemma WidthOfGap(segments: seq<Segment>, draft: seq<Piece>, groups: seq<seq<real>>,
                      spanWidths: seq<real>, gapWidths: seq<real>, r0: real, i: nat)
    requires NonEmpty(groups) && IsDraft(draft, groups) && |gapWidths| + 1 == |spanWidths| == |groups|
    requires LaidOut(segments, draft, Interleave(spanWidths, gapWidths), r0, |draft|) && i + 1 < |groups|
    ensures |segments| == 2 * |groups| - 1
    ensures segments[2 * i + 1].x1 - segments[2 * i + 1].x0 == gapWidths[i]
    ensures segments[2 * i + 1].to - segments[2 * i + 1].from == groups[i + 1][0] - Last(groups[i])
  {
    WidthOfPiece(segments, draft, groups, spanWidths, gapWidths, r0, 2 * i + 1);
    OddPiece(draft, groups, i);
  }

  lemma {:induction false} LayoutGapWidths(segments: seq<Segment>, draft: seq<Piece>, groups: seq<seq<real>>,
                      spanWidths: seq<real>, gapWidths: seq<real>, r0: real)
    requires NonEmpty(groups) && IsDraft(draft, groups) && |gapWidths| + 1 == |spanWidths| == |groups|
    requires LaidOut(segments, draft, Interleave(spanWidths, gapWidths), r0, |draft|)
    ensures |segments| % 2 == 1 && GapWidths(segments) == gapWidths
    ensures SkippedTimes(segments) == Durations(OfKind(draft, Gap))
  {
    GapPieces(draft, groups);
    forall i | 0 <= i < |gapWidths|
      ensures GapWidths(segments)[i] == gapWidths[i]
      ensures SkippedTimes(segments)[i] == Durations(OfKind(draft, Gap))[i]
    {
      WidthOfGap(segments, draft, groups, spanWidths, gapWidths, r0, i);
    }
  }

  lemma {:induction false} WidthOfPiece(segments: seq<Segment>, draft: seq<Piece>, groups: seq<seq<real>>,
                                        spanWidths: seq<real>, gapWidths: seq<real>, r0: real, p: nat)
    requires NonEmpty(groups) && IsDraft(draft, groups) && |gapWidths| + 1 == |spanWidths| == |groups|
    requires LaidOut(segments, draft, Interleave(spanWidths, gapWidths), r0, |draft|) && p < |segments|
    ensures |OfKind(draft, Span)| == |groups| && p / 2 < |groups|
    ensures segments[p].kind == Span ==>
              && segments[p].x1 == segments[p].x0 + spanWidths[p / 2]
              && OfKind(draft, Span)[p / 2].from == segments[p].from
              && OfKind(draft, Span)[p / 2].to == segments[p].to
    ensures segments[p].kind == Gap ==>
              p / 2 < |gapWidths| && segments[p].x1 == segments[p].x0 + gapWidths[p / 2]
  {
    DraftAlternates(draft, groups);
    PickAlternate(draft);
    assert p % 2 == 0 ==> OfKind(draft, Span)[p / 2] == draft[2 * (p / 2)];
  }

  lemma {:induction false} GapDurations(draft: seq<Piece>, groups: seq<seq<real>>, marks: seq<real>)
    requires NonEmpty(groups) && IsDraft(draft, groups) && Concat(groups) == marks && Ascending(marks)
    ensures forall i | 0 <= i < |Durations(OfKind(draft, Gap))| :: Durations(OfKind(draft, Gap))[i] > 0.0
  {
    GapPieces(draft, groups);
    GroupsInOrder(groups, marks);
    var gaps := OfKind(draft, Gap);
    forall i | 0 <= i < |gaps| ensures Durations(gaps)[i] > 0.0 {
      assert gaps[i] == Piece(Gap, Last(groups[i]), groups[i + 1][0]);
      assert Last(groups[(i + 1) - 1]) < groups[i + 1][0];
    }
  }

  lemma LayoutPositive(segments: seq<Segment>, draft: seq<Piece>, spanWidths: seq<real>, gapWidths: seq<real>, r0: real)
    requires |spanWidths| == |gapWidths| + 1 && |draft| == |spanWidths| + |gapWidths|
    requires LaidOut(segments, draft, Interleave(spanWidths, gapWidths), r0, |draft|)
    requires forall i | 0 <= i < |spanWidths| :: spanWidths[i] > 0.0
    requires forall i | 0 <= i < |gapWidths| :: gapWidths[i] > 0.0
    ensures PositiveWidths(segments)
  {
  }

  lemma LayoutGaps(segments: seq<Segment>, draft: seq<Piece>, groups: seq<seq<real>>, marks: seq<real>,
                   threshold: real, widths: seq<real>, r0: real)
    requires |widths| == |draft| && LaidOut(segments, draft, widths, r0, |draft|)
    requires IsGrouping(groups, marks, threshold, |marks|) && IsDraft(draft, groups)
    ensures forall p | 0 <= p < |segments| && segments[p].kind == Gap ::
              segments[p].to - segments[p].from >= threshold
  {
    forall p | 0 <= p < |segments| && segments[p].kind == Gap
      ensures segments[p].to - segments[p].from >= threshold
    {
      DraftAlternates(draft, groups);
      OddPiece(draft, groups, p / 2);
      assert StartsAfterBreak(groups, p / 2 + 1, threshold, |marks|);
    }
  }

  /** The axis runs from `lo` to `hi` and from `r0` to `r1`. */
  ghost predicate Over(axis: Axis, lo: real, hi: real, r0: real, r1: real) {
    axis.lo == lo && axis.hi == hi && axis.r0 == r0 && axis.r1 == r1
  }

  /**
   * The scale. It is broken exactly when that is worth it; a broken axis has one gap for
   * every outlying stretch, tiles domain and range, and keeps every significant time in a
   * span. With sensible widths the axis is sound, so that later times are further along.
   */
  method SegmentedTimeScale(times: seq<Option<real>>, lo: real, hi: real, r0: real, r1: real, opt: Options,
                            weigh: (real, real) -> real)
    returns (axis: Axis)
    ensures Over(axis, lo, hi, r0, r1)
    ensures axis.Fixed? <==> !(lo < hi && r0 < r1)
    ensures axis.Broken? <==> lo < hi && r0 < r1 && WorthBreaking(times, lo, hi, r0, r1, opt)
    ensures axis.Broken? ==> Tiles(axis.segments, lo, hi, r0, r1)
    ensures axis.Broken? ==> TimesInSpans(times, axis) && GapsAreBreaks(times, axis, opt)
    ensures axis.Broken? ==> Elastically(axis.segments, weigh, r1 - r0, opt)
    ensures lo < hi && r0 < r1 && Sensible(opt) ==> Sound(axis)
  {
    if !(hi - lo > 0.0) || !(r1 - r0 > 0.0) { return Fixed(lo, hi, r0, r1); }
    var crowded := FindCrowding(DataPoints(times, lo, hi), lo, hi, r0, r1, opt.minSeparation);
    if !crowded { return Linear(lo, hi, r0, r1); }
    var marks := Marks(times, lo, hi);
    MarksSpanDomain(times, lo, hi);
    var broken := BreakAxis(marks, Threshold(marks, lo, hi, opt), r0, r1, opt, weigh);
    if broken.None? { return Linear(lo, hi, r0, r1); }
    axis := broken.value;
  }
}
