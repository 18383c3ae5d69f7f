/** Thinning the axis ticks so that their captions cannot collide. */
module Ticks {
  import opened Sorting

  datatype Tick = Tick(gx: real, left: real, right: real, priority: int)

  function Position(t: Tick): real {
    t.gx
  }

  /** Sorting by this puts the highest priority first. */
  function Urgency(t: Tick): real {
    (0 - t.priority) as real
  }

  lemma EarlierMattersMore(ordered: seq<Tick>, i: nat)
    requires SortedBy(ordered, Urgency) && i < |ordered|
    ensures forall t | t in ordered[..i] :: t.priority >= ordered[i].priority
  {
    forall k | 0 <= k < i ensures ordered[k].priority >= ordered[i].priority {
      assert Urgency(ordered[k]) <= Urgency(ordered[i]);
    }
  }

  /** The captions come closer than three units. */
  predicate Clash(a: Tick, b: Tick) {
    a.left < b.right + 3.0 && b.left < a.right + 3.0
  }

  ghost predicate Apart(kept: seq<Tick>) {
    forall j, k | 0 <= j < k < |kept| :: !Clash(kept[j], kept[k])
  }

  /** The tick is kept, or gives way to a kept one that matters at least as much. */
  ghost predicate Settled(tick: Tick, kept: seq<Tick>) {
    tick in kept || exists k | k in kept :: Clash(tick, k) && k.priority >= tick.priority
  }

  /** What the loop has achieved for the ticks offered so far. */
  ghost predicate Thinned(kept: seq<Tick>, offered: seq<Tick>) {
    && Apart(kept)
    && multiset(kept) <= multiset(offered)
    && forall t | t in offered :: Settled(t, kept)
  }

  lemma KeepTick(kept: seq<Tick>, offered: seq<Tick>, tick: Tick)
    requires Thinned(kept, offered) && forall k | k in kept :: !Clash(tick, k)
    ensures Thinned(kept + [tick], offered + [tick])
  {
    forall j | 0 <= j < |kept| ensures !Clash(kept[j], tick) {
      assert !Clash(tick, kept[j]);
    }
    forall t | t in offered + [tick] ensures Settled(t, kept + [tick]) {
      assert t in offered ==> Settled(t, kept);
    }
  }

  lemma DropTick(kept: seq<Tick>, offered: seq<Tick>, tick: Tick)
    requires Thinned(kept, offered) && exists k | k in kept :: Clash(tick, k)
    requires forall t | t in offered :: t.priority >= tick.priority
    ensures Thinned(kept, offered + [tick])
  {
    var k :| k in kept && Clash(tick, k);
    assert k in multiset(offered);
  }

  lemma SortedApart(kept: seq<Tick>, sorted: seq<Tick>)
    requires Apart(kept) && multiset(sorted) == multiset(kept)
    ensures Apart(sorted)
  {
    forall j, k | 0 <= j < k < |sorted| ensures !Clash(sorted[j], sorted[k]) {
      var a, b := sorted[j], sorted[k];
      assert a in multiset(kept) && b in multiset(kept);
      var x :| 0 <= x < |kept| && kept[x] == a;
      var y :| 0 <= y < |kept| && kept[y] == b;
      if x == y {
        assert sorted == sorted[..k] + [sorted[k]] + sorted[k + 1..];
        assert a in sorted[..k] by { assert sorted[..k][j] == a; }
        assert multiset(sorted)[a] >= 2;
        TwiceMeansTwoPlaces(kept, x);
        var z :| 0 <= z < |kept| && z != x && kept[z] == a;
      }
    }
  }

  lemma TwiceMeansTwoPlaces(kept: seq<Tick>, x: nat)
    requires x < |kept| && multiset(kept)[kept[x]] >= 2
    ensures exists z | 0 <= z < |kept| :: z != x && kept[z] == kept[x]
  {
    assert kept == kept[..x] + [kept[x]] + kept[x + 1..];
    assert kept[x] in multiset(kept[..x]) + multiset(kept[x + 1..]);
    if kept[x] in kept[..x] {
      var z :| 0 <= z < x && kept[..x][z] == kept[x];
    } else {
      var z :| 0 <= z < |kept| - x - 1 && kept[x + 1..][z] == kept[x];
      assert kept[z + x + 1] == kept[x];
    }
  }

  /**
   * Offer the ticks in order of priority and keep what clashes with nothing kept. The
   * result is a maximal set of captions apart from one another, and none is dropped for
   * the sake of a less important one.
   */
  method ThinTicks(candidates: seq<Tick>) returns (ticks: seq<Tick>)
    ensures SortedBy(ticks, Position)
    ensures Apart(ticks)
    ensures multiset(ticks) <= multiset(candidates)
    ensures forall t | t in candidates :: Settled(t, ticks)
  {
    var ordered := SortBy(candidates, Urgency);
    SortBySorts(candidates, Urgency);
    var kept: seq<Tick> := [];
    for i := 0 to |ordered|
      invariant Thinned(kept, ordered[..i])
    {
      var candidate := ordered[i];
      assert ordered[..i + 1] == ordered[..i] + [candidate];
      var clashes := ClashesWithKept(candidate, kept);
      if !clashes {
        KeepTick(kept, ordered[..i], candidate);
        kept := kept + [candidate];
      } else {
        EarlierMattersMore(ordered, i);
        DropTick(kept, ordered[..i], candidate);
      }
    }
    assert ordered[..|ordered|] == ordered;
    ticks := SortBy(kept, Position);
    SortBySorts(kept, Position);
    SortedApart(kept, ticks);
    SameSettled(candidates, ordered, kept, ticks);
  }

  method ClashesWithKept(candidate: Tick, kept: seq<Tick>) returns (clashes: bool)
    ensures clashes <==> exists k | k in kept :: Clash(candidate, k)
  {
    for j := 0 to |kept|
      invariant forall k | 0 <= k < j :: !Clash(candidate, kept[k])
    {
      if Clash(candidate, kept[j]) { return true; }
    }
    return false;
  }

  lemma SameSettled(candidates: seq<Tick>, ordered: seq<Tick>, kept: seq<Tick>, ticks: seq<Tick>)
    requires multiset(ordered) == multiset(candidates) && multiset(ticks) == multiset(kept)
    requires forall t | t in ordered :: Settled(t, kept)
    ensures forall t | t in candidates :: Settled(t, ticks)
  {
    forall t | t in candidates ensures Settled(t, ticks) {
      assert t in multiset(ordered);
      assert t in ordered && Settled(t, kept);
      if t in kept {
        assert t in multiset(ticks);
      } else {
        var k :| k in kept && Clash(t, k) && k.priority >= t.priority;
        assert k in multiset(ticks);
      }
    }
  }
}
