/** A broken time axis: spans, gaps and positions. */
module TimeScale {
  import opened Text
  import opened Numbers

  datatype SegmentKind = Span | Gap

  /** One piece of the axis: its time bounds and its coordinate bounds. */
  datatype Segment = Segment(kind: SegmentKind, from: real, to: real, x0: real, x1: real)

  // ------------------------------------------------------------ position of an instant

  predicate Contains(s: Segment, t: real) {
    s.from <= t <= s.to
  }

  function FirstOf(segments: seq<Segment>, kind: SegmentKind, t: real, i: nat): (r: Option<nat>)
    requires i <= |segments|
    ensures r.Some? ==> r.value < |segments| && segments[r.value].kind == kind && Contains(segments[r.value], t)
    ensures r.None? ==> forall p | i <= p < |segments| && segments[p].kind == kind :: !Contains(segments[p], t)
    decreases |segments| - i
  {
    if i == |segments| then None
    else if segments[i].kind == kind && Contains(segments[i], t) then Some(i)
    else FirstOf(segments, kind, t, i + 1)
  }

  /** Never more than a third of the block, or its ends would cross over. */
  function Inset(s: Segment, margin: real): real {
    Min(margin, (s.x1 - s.x0) / 3.0)
  }

  function Interpolate(t: real, from: real, to: real, a: real, b: real): real
    requires from < to
  {
    a + (t - from) / (to - from) * (b - a)
  }

  /** Linear inside the segment, inset by `margin`; a segment without duration is its centre. */
  function Locate(s: Segment, t: real, margin: real): real {
    var a, b := s.x0 + Inset(s, margin), s.x1 - Inset(s, margin);
    if s.to - s.from > 0.0 then Interpolate(t, s.from, s.to, a, b) else (a + b) / 2.0
  }

  /** Spans win ties: a gap is asked only when no span contains the instant. */
  function PositionIn(segments: seq<Segment>, t: real, margin: real): real {
    match FirstOf(segments, Span, t, 0)
    case Some(p) => Locate(segments[p], t, margin)
    case None =>
      match FirstOf(segments, Gap, t, 0)
      case Some(p) => Locate(segments[p], t, margin)
      case None => if segments == [] then 0.0 else segments[|segments| - 1].x1
  }

  lemma ProductSign(x: real, d: real)
    requires d > 0.0
    ensures x >= 0.0 <==> x * d >= 0.0
    ensures x > 0.0 <==> x * d > 0.0
  {
  }

  /** The fraction `x / d`, with what its size says about `x`. */
  lemma Fraction(x: real, d: real) returns (f: real)
    requires d > 0.0
    ensures f == x / d && f * d == x
    ensures 0.0 <= x <==> 0.0 <= f
    ensures 0.0 < x <==> 0.0 < f
  {
    f := x / d;
    ProductSign(f, d);
  }

  lemma FractionsDiffer(f: real, f': real, d: real)
    requires d > 0.0
    ensures (f' - f) * d == f' * d - f * d
    ensures f <= f' <==> f * d <= f' * d
    ensures f < f' <==> f * d < f' * d
  {
    ProductSign(f' - f, d);
  }

  /** Interpolation keeps to its bounds, touching them only at the ends. */
  lemma Interpolates(t: real, from: real, to: real, a: real, b: real)
    requires from < to && a < b && from <= t <= to
    ensures a <= Interpolate(t, from, to, a, b) <= b
    ensures from < t ==> a < Interpolate(t, from, to, a, b)
    ensures t < to ==> Interpolate(t, from, to, a, b) < b
  {
    InterpolatesEnds(from, to, a, b);
    if from < t { InterpolationIncreases(from, t, from, to, a, b); }
    if t < to { InterpolationIncreases(t, to, from, to, a, b); }
  }

  lemma InterpolatesEnds(from: real, to: real, a: real, b: real)
    requires from < to
    ensures Interpolate(from, from, to, a, b) == a && Interpolate(to, from, to, a, b) == b
  {
    var zero := Fraction(from - from, to - from);
    var one := Fraction(to - from, to - from);
    FractionsDiffer(one, 1.0, to - from);
  }

  lemma InterpolationIncreases(t: real, t': real, from: real, to: real, a: real, b: real)
    requires from < to && a < b && t < t'
    ensures Interpolate(t, from, to, a, b) < Interpolate(t', from, to, a, b)
  {
    var f := Fraction(t - from, to - from);
    var f' := Fraction(t' - from, to - from);
    FractionsDiffer(f, f', to - from);
    FractionsDiffer(f, f', b - a);
  }

  /** An instant lands inside its segment, and strictly inside it when strictly between its ends. */
  lemma LocateStaysInside(s: Segment, t: real, margin: real)
    requires s.x0 < s.x1 && margin >= 0.0 && Contains(s, t)
    ensures s.x0 <= Locate(s, t, margin) <= s.x1
    ensures s.from < t < s.to ==> s.x0 < Locate(s, t, margin) < s.x1
  {
    var a, b := s.x0 + Inset(s, margin), s.x1 - Inset(s, margin);
    if s.to - s.from > 0.0 {
      Interpolates(t, s.from, s.to, a, b);
    }
  }

  lemma LocateIncreases(s: Segment, t: real, t': real, margin: real)
    requires s.x0 < s.x1 && margin >= 0.0 && s.from <= t < t' <= s.to
    ensures Locate(s, t, margin) < Locate(s, t', margin)
  {
    InterpolationIncreases(t, t', s.from, s.to, s.x0 + Inset(s, margin), s.x1 - Inset(s, margin));
  }

  // -------------------------------------------------------------------- the tiling

  /** Spans and gaps alternate and tile both the domain and the range, seam to seam. */
  ghost predicate Tiles(segments: seq<Segment>, lo: real, hi: real, r0: real, r1: real) {
    && |segments| % 2 == 1
    && segments[0].from == lo && segments[0].x0 == r0
    && segments[|segments| - 1].to == hi && segments[|segments| - 1].x1 == r1
    && (forall p | 0 <= p < |segments| ::
          && segments[p].kind == (if p % 2 == 0 then Span else Gap)
          && segments[p].from <= segments[p].to
          && (segments[p].kind == Gap ==> segments[p].from < segments[p].to))
    && (forall p | 0 < p < |segments| ::
          segments[p - 1].to == segments[p].from && segments[p - 1].x1 == segments[p].x0)
  }

  ghost predicate PositiveWidths(segments: seq<Segment>) {
    forall p | 0 <= p < |segments| :: segments[p].x0 < segments[p].x1
  }

  /** Later segments lie later in time and further along the axis. */
  lemma {:induction false} InOrder(segments: seq<Segment>, lo: real, hi: real, r0: real, r1: real, p: nat, q: nat)
    requires Tiles(segments, lo, hi, r0, r1) && PositiveWidths(segments) && p < q < |segments|
    ensures segments[p].to <= segments[q].from && segments[p].x1 <= segments[q].x0
    ensures p + 1 < q ==> segments[p].x1 < segments[q].x0
    decreases q
  {
    if p + 1 < q { InOrder(segments, lo, hi, r0, r1, p, q - 1); }
  }

  /** Some segment contains every instant of the domain. */
  lemma {:induction false} SomeSegment(segments: seq<Segment>, lo: real, hi: real, r0: real, r1: real, t: real, i: nat)
    returns (p: nat)
    requires Tiles(segments, lo, hi, r0, r1) && i < |segments| && segments[i].from <= t <= hi
    ensures p < |segments| && Contains(segments[p], t)
    decreases |segments| - i
  {
    p := i;
    if segments[i].to < t {
      assert segments[i + 1].from == segments[i].to;
      p := SomeSegment(segments, lo, hi, r0, r1, t, i + 1);
    }
  }

  /** The segment an instant is positioned in; a gap only takes what lies strictly inside it. */
  lemma Chosen(segments: seq<Segment>, lo: real, hi: real, r0: real, r1: real, t: real, margin: real)
    returns (p: nat)
    requires Tiles(segments, lo, hi, r0, r1) && lo <= t <= hi
    ensures p < |segments| && Contains(segments[p], t)
    ensures PositionIn(segments, t, margin) == Locate(segments[p], t, margin)
    ensures segments[p].kind == Gap ==> segments[p].from < t < segments[p].to
  {
    var some := SomeSegment(segments, lo, hi, r0, r1, t, 0);
    var span := FirstOf(segments, Span, t, 0);
    if span.Some? {
      p := span.value;
    } else {
      p := FirstOf(segments, Gap, t, 0).value;
      assert segments[p - 1].kind == Span && !Contains(segments[p - 1], t);
      assert segments[p + 1].kind == Span && segments[p].to == segments[p + 1].from;
    }
  }

  /** On a tiled axis a later instant is placed strictly further along. */
  lemma PositionIncreases(segments: seq<Segment>, lo: real, hi: real, r0: real, r1: real,
                          margin: real, t: real, t': real)
    requires Tiles(segments, lo, hi, r0, r1) && PositiveWidths(segments) && margin >= 0.0
    requires lo <= t < t' <= hi
    ensures PositionIn(segments, t, margin) < PositionIn(segments, t', margin)
  {
    var p := Chosen(segments, lo, hi, r0, r1, t, margin);
    var p' := Chosen(segments, lo, hi, r0, r1, t', margin);
    if p == p' {
      LocateIncreases(segments[p], t, t', margin);
    } else if p' < p {
      InOrder(segments, lo, hi, r0, r1, p', p);
    } else {
      LaterSegment(segments, lo, hi, r0, r1, margin, p, p', t, t');
    }
  }

  lemma LaterSegment(segments: seq<Segment>, lo: real, hi: real, r0: real, r1: real, margin: real,
                     p: nat, p': nat, t: real, t': real)
    requires Tiles(segments, lo, hi, r0, r1) && PositiveWidths(segments) && margin >= 0.0
    requires p < p' < |segments| && Contains(segments[p], t) && Contains(segments[p'], t')
    requires segments[p].kind == Gap ==> segments[p].from < t < segments[p].to
    requires segments[p'].kind == Gap ==> segments[p'].from < t' < segments[p'].to
    ensures Locate(segments[p], t, margin) < Locate(segments[p'], t', margin)
  {
    LocateStaysInside(segments[p], t, margin);
    LocateStaysInside(segments[p'], t', margin);
    InOrder(segments, lo, hi, r0, r1, p, p');
    assert segments[p].kind == Span && segments[p'].kind == Span ==> p + 1 < p';
  }

  /** No instant is placed outside the range. */
  lemma PositionInRange(segments: seq<Segment>, lo: real, hi: real, r0: real, r1: real, margin: real, t: real)
    requires Tiles(segments, lo, hi, r0, r1) && PositiveWidths(segments) && margin >= 0.0
    requires lo <= t <= hi
    ensures r0 <= PositionIn(segments, t, margin) <= r1
  {
    var p := Chosen(segments, lo, hi, r0, r1, t, margin);
    LocateStaysInside(segments[p], t, margin);
    if p > 0 { InOrder(segments, lo, hi, r0, r1, 0, p); }
    if p < |segments| - 1 { InOrder(segments, lo, hi, r0, r1, p, |segments| - 1); }
  }

  // --------------------------------------------------------------------- the axis

  /** How an axis maps instants: to one point, linearly, or segment by segment. */
  datatype Axis =
    | Fixed(lo: real, hi: real, r0: real, r1: real)
    | Linear(lo: real, hi: real, r0: real, r1: real)
    | Broken(lo: real, hi: real, r0: real, r1: real, segments: seq<Segment>, margin: real)
  {
    function At(t: real): real {
      match this
      case Fixed(_, _, r0, _) => r0
      case Linear(lo, hi, r0, r1) =>
        if lo < hi then Interpolate(Clamp(t, lo, hi), lo, hi, r0, r1) else r0
      case Broken(lo, hi, _, _, segments, margin) => PositionIn(segments, Clamp(t, lo, hi), margin)
    }
  }

  /** What makes an axis usable: a proper domain and range, and a sound tiling when broken. */
  ghost predicate Sound(axis: Axis) {
    && !axis.Fixed? && axis.lo < axis.hi && axis.r0 < axis.r1
    && (axis.Broken? ==>
          && Tiles(axis.segments, axis.lo, axis.hi, axis.r0, axis.r1)
          && PositiveWidths(axis.segments) && axis.margin >= 0.0)
  }

  /**
   * Broken or not, a sound axis places later instants strictly further along, never
   * leaves its range, and treats instants outside the domain as its ends.
   */
  lemma AtIncreases(axis: Axis, t: real, t': real)
    requires Sound(axis)
    ensures axis.lo <= t < t' <= axis.hi ==> axis.At(t) < axis.At(t')
    ensures axis.r0 <= axis.At(t) <= axis.r1
    ensures axis.At(t) == axis.At(Clamp(t, axis.lo, axis.hi))
  {
    var c := Clamp(t, axis.lo, axis.hi);
    if axis.Linear? {
      Interpolates(c, axis.lo, axis.hi, axis.r0, axis.r1);
      if t < t' { InterpolationIncreases(t, t', axis.lo, axis.hi, axis.r0, axis.r1); }
    } else {
      PositionInRange(axis.segments, axis.lo, axis.hi, axis.r0, axis.r1, axis.margin, c);
      if axis.lo <= t < t' <= axis.hi {
        PositionIncreases(axis.segments, axis.lo, axis.hi, axis.r0, axis.r1, axis.margin, t, t');
      }
    }
  }
}
