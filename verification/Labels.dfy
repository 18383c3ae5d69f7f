/** Packing timeline labels into rows above and below the axis. */
module Labels {
  import opened Sorting
  import opened Numbers

  datatype Side = Above | Below

  datatype RowKey = RowKey(side: Side, row: nat)

  datatype Anchor = Start | Middle | End

  /** Where a label of a given width goes: anchored inwards at the edges of the frame. */
  datatype Span = Span(anchor: Anchor, textX: real, left: real, right: real)

  datatype Placement<+T> = Placement(item: T, x: real, row: nat, rowSpan: nat, side: Side, span: Span)

  function SpanOf(x: real, width: real, minX: real, maxX: real): Span {
    if x - width / 2.0 < minX then
      var textX := if x >= minX then x else minX;
      Span(Start, textX, textX, textX + width)
    else if x + width / 2.0 > maxX then
      var textX := if x <= maxX then x else maxX;
      Span(End, textX, textX - width, textX - width + width)
    else
      Span(Middle, x, x - width / 2.0, x - width / 2.0 + width)
  }

  /**
   * Anchoring inwards keeps every label of the axis inside the frame exactly when labels
   * are no wider than two thirds of it: a wider one spills out from some position.
   */
  lemma AnchoredLabelsStayInside(width: real, minX: real, maxX: real)
    requires width >= 0.0 && minX < maxX
    ensures (forall x | minX <= x <= maxX ::
               var s := SpanOf(x, width, minX, maxX); minX <= s.left && s.right <= maxX)
            <==> 3.0 * width <= 2.0 * (maxX - minX)
  {
    if 3.0 * width > 2.0 * (maxX - minX) {
      // The rightmost position still anchored at its start, or just short of it.
      var edge := if minX + width / 2.0 < maxX then minX + width / 2.0 else maxX;
      var spilling := if maxX - width < minX then minX else maxX - width;
      var x := (spilling + edge) / 2.0;
      assert minX <= x <= maxX && x - width / 2.0 < minX && x + width > maxX;
      assert SpanOf(x, width, minX, maxX).right > maxX;
    }
  }

  /** A label wider than that, out of its frame. */
  lemma WideLabelSpills()
    ensures SpanOf(20.0, 90.0, 0.0, 100.0).right > 100.0
  { }

  /** `Math.max(1, Math.round(rows))`. */
  function RowsOf(rows: real): (n: nat)
    ensures n >= 1
  {
    var rounded := (rows + 0.5).Floor;
    if rounded >= 1 then rounded else 1
  }

  function SlotSide(slot: nat): Side {
    if slot % 2 == 0 then Above else Below
  }

  function SlotOf(side: Side, row: nat): nat {
    2 * row + if side == Above then 0 else 1
  }

  predicate Occupies<T>(p: Placement<T>, side: Side, row: nat) {
    p.side == side && p.row <= row < p.row + p.rowSpan
  }

  /** Two blocks of rows on one side meet. */
  predicate SharesRow<T>(p: Placement<T>, side: Side, row: nat, rowSpan: nat) {
    p.side == side && p.row < row + rowSpan && row < p.row + p.rowSpan
  }

  /** The `k`-th label is the last one put into the row. */
  predicate IsLastIn<T>(placed: seq<Placement<T>>, k: nat, side: Side, row: nat) {
    && k < |placed| && Occupies(placed[k], side, row)
    && forall j | k < j < |placed| :: !Occupies(placed[j], side, row)
  }

  /** In each row from `row` on the last label is far enough to the left for one that starts at `left`. */
  predicate Fits<T>(placed: seq<Placement<T>>, side: Side, row: nat, rowSpan: nat, left: real, gap: real) {
    forall k, r | 0 <= k < |placed| && row <= r < row + rowSpan && IsLastIn(placed, k, side, r) ::
      placed[k].span.right + gap <= left
  }

  predicate SlotFits<T>(placed: seq<Placement<T>>, slot: nat, rowSpan: nat, left: real, gap: real) {
    Fits(placed, SlotSide(slot), slot / 2, rowSpan, left, gap)
  }

  /** The placement sits in the first slot that fits after those before it. */
  ghost predicate FirstFit<T>(before: seq<Placement<T>>, p: Placement<T>, gap: real) {
    && Fits(before, p.side, p.row, p.rowSpan, p.span.left, gap)
    && forall slot: nat | slot < SlotOf(p.side, p.row) :: !SlotFits(before, slot, p.rowSpan, p.span.left, gap)
  }

  /** No two labels share a row with less than `gap` between them. */
  ghost predicate Separated<T>(placed: seq<Placement<T>>, gap: real) {
    forall j, k | 0 <= j < k < |placed| && SharesRow(placed[j], placed[k].side, placed[k].row, placed[k].rowSpan) ::
      placed[j].span.right + gap <= placed[k].span.left
  }

  /** `rows` is the number of rows used on one side: enough for all, and no more. */
  ghost predicate RowsUsed<T>(placed: seq<Placement<T>>, side: Side, rows: nat) {
    && (forall k | 0 <= k < |placed| && placed[k].side == side :: placed[k].row + placed[k].rowSpan <= rows)
    && (rows > 0 ==> exists k | 0 <= k < |placed| :: placed[k].side == side && placed[k].row + placed[k].rowSpan == rows)
  }

  /** The map holds, for each row in use, the right end of the last label in it. */
  ghost predicate Records<T>(occupied: map<RowKey, real>, placed: seq<Placement<T>>) {
    && (forall k, r: nat | 0 <= k < |placed| && Occupies(placed[k], placed[k].side, r) ::
          RowKey(placed[k].side, r) in occupied)
    && (forall key | key in occupied ::
          exists k: nat :: IsLastIn(placed, k, key.side, key.row) && placed[k].span.right == occupied[key])
  }

  predicate RowFree(occupied: map<RowKey, real>, side: Side, row: nat, left: real, gap: real) {
    RowKey(side, row) in occupied ==> left >= occupied[RowKey(side, row)] + gap
  }

  /** Reading the map row by row decides whether a slot fits. */
  lemma RowsDecideFit<T>(occupied: map<RowKey, real>, placed: seq<Placement<T>>,
                         side: Side, row: nat, rowSpan: nat, left: real, gap: real)
    requires Records(occupied, placed)
    ensures Fits(placed, side, row, rowSpan, left, gap) <==>
            forall r | row <= r < row + rowSpan :: RowFree(occupied, side, r, left, gap)
  {
    if forall r | row <= r < row + rowSpan :: RowFree(occupied, side, r, left, gap) {
      forall k, r | 0 <= k < |placed| && row <= r < row + rowSpan && IsLastIn(placed, k, side, r)
        ensures placed[k].span.right + gap <= left
      {
        assert Occupies(placed[k], placed[k].side, r) && RowFree(occupied, side, r, left, gap);
        assert RowKey(side, r) in occupied;
      }
    }
    if Fits(placed, side, row, rowSpan, left, gap) {
      forall r | row <= r < row + rowSpan ensures RowFree(occupied, side, r, left, gap) {
        if RowKey(side, r) in occupied {
          var k: nat :| IsLastIn(placed, k, side, r) && placed[k].span.right == occupied[RowKey(side, r)];
        }
      }
    }
  }

  /** Look at the rows of one slot. */
  method SlotIsFree(occupied: map<RowKey, real>, side: Side, row: nat, rowSpan: nat, left: real, gap: real)
    returns (fits: bool)
    ensures fits <==> forall r | row <= r < row + rowSpan :: RowFree(occupied, side, r, left, gap)
  {
    for r := row to row + rowSpan
      invariant forall q | row <= q < r :: RowFree(occupied, side, q, left, gap)
    {
      if RowKey(side, r) in occupied && left < occupied[RowKey(side, r)] + gap {
        assert !RowFree(occupied, side, r, left, gap);
        return false;
      }
    }
    return true;
  }

  method TrySlot<T>(occupied: map<RowKey, real>, ghost placed: seq<Placement<T>>, slot: nat, rowSpan: nat,
                    left: real, gap: real)
    returns (fits: bool)
    requires Records(occupied, placed)
    ensures fits <==> SlotFits(placed, slot, rowSpan, left, gap)
  {
    fits := SlotIsFree(occupied, SlotSide(slot), slot / 2, rowSpan, left, gap);
    RowsDecideFit(occupied, placed, SlotSide(slot), slot / 2, rowSpan, left, gap);
  }

  /** Above the rows in use there is always room. */
  lemma TopSlotFits<T>(placed: seq<Placement<T>>, rowsAbove: nat, rowSpan: nat, left: real, gap: real)
    requires RowsUsed(placed, Above, rowsAbove)
    ensures SlotFits(placed, 2 * rowsAbove, rowSpan, left, gap)
  {
  }

  /** The unbounded slot search: it stops at the latest above everything placed. */
  method FindSlot<T>(occupied: map<RowKey, real>, ghost placed: seq<Placement<T>>, rowSpan: nat,
                     left: real, gap: real, ghost rowsAbove: nat)
    returns (slot: nat)
    requires Records(occupied, placed) && RowsUsed(placed, Above, rowsAbove)
    ensures slot <= 2 * rowsAbove
    ensures SlotFits(placed, slot, rowSpan, left, gap)
    ensures forall s: nat | s < slot :: !SlotFits(placed, s, rowSpan, left, gap)
  {
    TopSlotFits(placed, rowsAbove, rowSpan, left, gap);
    slot := 0;
    var fits := TrySlot(occupied, placed, slot, rowSpan, left, gap);
    while !fits
      invariant slot <= 2 * rowsAbove
      invariant fits <==> SlotFits(placed, slot, rowSpan, left, gap)
      invariant forall s: nat | s < slot :: !SlotFits(placed, s, rowSpan, left, gap)
      decreases 2 * rowsAbove - slot
    {
      slot := slot + 1;
      fits := TrySlot(occupied, placed, slot, rowSpan, left, gap);
    }
  }

  /** Mark the rows of a new label as taken up to its right end. */
  method Occupy(occupied: map<RowKey, real>, side: Side, row: nat, rowSpan: nat, right: real)
    returns (occupied': map<RowKey, real>)
    ensures forall key: RowKey :: key in occupied' <==> key in occupied || (key.side == side && row <= key.row < row + rowSpan)
    ensures forall key | key in occupied' ::
              occupied'[key] == if key.side == side && row <= key.row < row + rowSpan then right else occupied[key]
  {
    occupied' := occupied;
    for r := row to row + rowSpan
      invariant forall key: RowKey :: key in occupied' <==> key in occupied || (key.side == side && row <= key.row < r)
      invariant forall key | key in occupied' ::
                  occupied'[key] == if key.side == side && row <= key.row < r then right else occupied[key]
    {
      occupied' := occupied'[RowKey(side, r) := right];
    }
  }

  /** The rows of a new label now end with it. */
  lemma OccupyRecords<T>(occupied: map<RowKey, real>, placed: seq<Placement<T>>, p: Placement<T>,
                         occupied': map<RowKey, real>)
    requires Records(occupied, placed)
    requires forall key: RowKey :: key in occupied' <==> key in occupied || Occupies(p, key.side, key.row)
    requires forall key | key in occupied' ::
               occupied'[key] == if Occupies(p, key.side, key.row) then p.span.right else occupied[key]
    ensures Records(occupied', placed + [p])
  {
    var placed' := placed + [p];
    forall k, r: nat | 0 <= k < |placed'| && Occupies(placed'[k], placed'[k].side, r)
      ensures RowKey(placed'[k].side, r) in occupied'
    {
      if k < |placed| { assert placed'[k] == placed[k]; }
    }
    forall key | key in occupied'
      ensures exists k: nat :: IsLastIn(placed', k, key.side, key.row) && placed'[k].span.right == occupied'[key]
    {
      if Occupies(p, key.side, key.row) {
        assert IsLastIn(placed', |placed|, key.side, key.row);
      } else {
        var k: nat :| IsLastIn(placed, k, key.side, key.row) && placed[k].span.right == occupied[key];
        assert IsLastIn(placed', k, key.side, key.row);
      }
    }
  }

  lemma {:induction false} SomeLast<T>(placed: seq<Placement<T>>, k: nat, side: Side, row: nat) returns (last: nat)
    requires k < |placed| && Occupies(placed[k], side, row)
    ensures k <= last && IsLastIn(placed, last, side, row)
    decreases |placed| - k
  {
    last := k;
    if j :| k < j < |placed| && Occupies(placed[j], side, row) {
      last := SomeLast(placed, j, side, row);
    }
  }

  /** A label takes a row at least, and ends no further left than it starts. */
  predicate Extended<T>(placed: seq<Placement<T>>) {
    forall k | 0 <= k < |placed| :: placed[k].rowSpan >= 1 && placed[k].span.left <= placed[k].span.right
  }

  /** Apart from the last label of a row is apart from all before it. */
  lemma FitsAmongAll<T>(placed: seq<Placement<T>>, p: Placement<T>, gap: real)
    requires gap >= 0.0 && Extended(placed) && Separated(placed, gap) && p.rowSpan >= 1
    requires Fits(placed, p.side, p.row, p.rowSpan, p.span.left, gap)
    ensures forall k | 0 <= k < |placed| && SharesRow(placed[k], p.side, p.row, p.rowSpan) ::
              placed[k].span.right + gap <= p.span.left
  {
    forall k | 0 <= k < |placed| && SharesRow(placed[k], p.side, p.row, p.rowSpan)
      ensures placed[k].span.right + gap <= p.span.left
    {
      var r := if placed[k].row <= p.row then p.row else placed[k].row;
      var last := SomeLast(placed, k, p.side, r);
      assert SharesRow(placed[k], placed[last].side, placed[last].row, placed[last].rowSpan);
      assert placed[last].span.right + gap <= p.span.left;
    }
  }

  ghost predicate AllFirstFit<T>(placed: seq<Placement<T>>, gap: real) {
    forall k | 0 <= k < |placed| :: FirstFit(placed[..k], placed[k], gap)
  }

  lemma AppendExtended<T>(placed: seq<Placement<T>>, p: Placement<T>)
    requires Extended(placed) && p.rowSpan >= 1 && p.span.left <= p.span.right
    ensures Extended(placed + [p])
  { }

  lemma SpanExtends(x: real, width: real, minX: real, maxX: real)
    requires width >= 0.0
    ensures SpanOf(x, width, minX, maxX).left <= SpanOf(x, width, minX, maxX).right
  { }

  lemma AppendFits<T>(placed: seq<Placement<T>>, p: Placement<T>, gap: real)
    requires AllFirstFit(placed, gap) && FirstFit(placed, p, gap) && p.rowSpan >= 1
    ensures AllFirstFit(placed + [p], gap)
    ensures gap >= 0.0 && Extended(placed) && Separated(placed, gap) ==> Separated(placed + [p], gap)
  {
    var placed' := placed + [p];
    forall k | 0 <= k < |placed'| ensures FirstFit(placed'[..k], placed'[k], gap) {
      assert placed'[..k] == placed[..k];
    }
    if gap >= 0.0 && Extended(placed) && Separated(placed, gap) { FitsAmongAll(placed, p, gap); }
  }

  lemma AppendRows<T>(placed: seq<Placement<T>>, p: Placement<T>, side: Side, rows: nat)
    requires RowsUsed(placed, side, rows) && p.rowSpan >= 1
    ensures RowsUsed(placed + [p], side, if p.side == side then Larger(rows, p.row + p.rowSpan) else rows)
  {
    var placed' := placed + [p];
    assert placed'[|placed|] == p;
    if k :| 0 <= k < |placed| && placed[k].side == side && placed[k].row + placed[k].rowSpan == rows {
      assert placed'[k] == placed[k];
    }
  }

  lemma SlotRoundTrip(slot: nat)
    ensures SlotOf(SlotSide(slot), slot / 2) == slot
  {
  }

  /** One label: search its slot, take the rows, count them. */
  method PlaceOne<T>(occupied: map<RowKey, real>, placed: seq<Placement<T>>, item: T, x: real, span: Span,
                     rowSpan: nat, gap: real, rowsAbove: nat, rowsBelow: nat)
    returns (occupied': map<RowKey, real>, p: Placement<T>, rowsAbove': nat, rowsBelow': nat)
    requires Records(occupied, placed) && rowSpan >= 1
    requires RowsUsed(placed, Above, rowsAbove) && RowsUsed(placed, Below, rowsBelow)
    ensures p == Placement(item, x, p.row, rowSpan, p.side, span)
    ensures FirstFit(placed, p, gap) && SlotOf(p.side, p.row) <= 2 * rowsAbove
    ensures Records(occupied', placed + [p])
    ensures RowsUsed(placed + [p], Above, rowsAbove') && RowsUsed(placed + [p], Below, rowsBelow')
    ensures rowsAbove <= rowsAbove'
  {
    var slot := FindSlot(occupied, placed, rowSpan, span.left, gap, rowsAbove);
    SlotRoundTrip(slot);
    p := Placement(item, x, slot / 2, rowSpan, SlotSide(slot), span);
    occupied' := Occupy(occupied, p.side, p.row, p.rowSpan, span.right);
    OccupyRecords(occupied, placed, p, occupied');
    rowsAbove', rowsBelow' := rowsAbove, rowsBelow;
    if p.side == Above {
      rowsAbove' := Larger(rowsAbove, p.row + rowSpan);
    } else {
      rowsBelow' := Larger(rowsBelow, p.row + rowSpan);
    }
    AppendRows(placed, p, Above, rowsAbove);
    AppendRows(placed, p, Below, rowsBelow);
  }

  /** Each label is of the item in its place, boxed by that item's width and position. */
  ghost predicate PlacedInOrder<T>(placed: seq<Placement<T>>, ordered: seq<T>, xOf: T -> real, widthOf: T -> real,
                                   rowSpanOf: T -> real, minX: real, maxX: real)
    requires |placed| <= |ordered|
  {
    forall k | 0 <= k < |placed| ::
      placed[k] == Placement(ordered[k], xOf(ordered[k]), placed[k].row, RowsOf(rowSpanOf(ordered[k])),
                             placed[k].side, SpanOf(xOf(ordered[k]), widthOf(ordered[k]), minX, maxX))
  }

  ghost predicate SlotsWithin<T>(placed: seq<Placement<T>>, rowsAbove: nat) {
    forall k | 0 <= k < |placed| :: SlotOf(placed[k].side, placed[k].row) <= 2 * rowsAbove
  }

  /** No width and no gap is negative. */
  ghost predicate Regular<T>(items: seq<T>, widthOf: T -> real, gap: real) {
    gap >= 0.0 && forall k | 0 <= k < |items| :: widthOf(items[k]) >= 0.0
  }

  method PlaceLabels<T>(items: seq<T>, xOf: T -> real, widthOf: T -> real, rowSpanOf: T -> real,
                        minX: real, maxX: real, gap: real)
    returns (placed: seq<Placement<T>>, rowsAbove: nat, rowsBelow: nat)
    ensures |placed| == |items| == |SortBy(items, xOf)|
    ensures PlacedInOrder(placed, SortBy(items, xOf), xOf, widthOf, rowSpanOf, minX, maxX)
    ensures AllFirstFit(placed, gap)
    ensures Regular(items, widthOf, gap) ==> Separated(placed, gap)
    ensures RowsUsed(placed, Above, rowsAbove) && RowsUsed(placed, Below, rowsBelow)
    ensures SlotsWithin(placed, rowsAbove)
  {
    var ordered := SortBy(items, xOf);
    SortBySorts(items, xOf);
    var occupied: map<RowKey, real> := map[];
    placed, rowsAbove, rowsBelow := [], 0, 0;
    for n := 0 to |ordered|
      invariant |placed| == n && PlacedInOrder(placed, ordered, xOf, widthOf, rowSpanOf, minX, maxX)
      invariant Records(occupied, placed)
      invariant AllFirstFit(placed, gap)
      invariant Regular(items, widthOf, gap) ==> Extended(placed) && Separated(placed, gap)
      invariant RowsUsed(placed, Above, rowsAbove) && RowsUsed(placed, Below, rowsBelow)
      invariant SlotsWithin(placed, rowsAbove)
    {
      var item := ordered[n];
      var span := SpanOf(xOf(item), widthOf(item), minX, maxX);
      var p;
      occupied, p, rowsAbove, rowsBelow :=
        PlaceOne(occupied, placed, item, xOf(item), span, RowsOf(rowSpanOf(item)), gap, rowsAbove, rowsBelow);
      AppendFits(placed, p, gap);
      if Regular(items, widthOf, gap) {
        SpanExtends(xOf(item), widthOf(item), minX, maxX);
        AppendExtended(placed, p);
      }
      placed := placed + [p];
    }
  }
}
