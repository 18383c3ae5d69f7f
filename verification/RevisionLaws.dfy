/** What the revision history guarantees over every run. */
module RevisionLaws {
  import opened Text
  import opened Revisions
  import opened RevisionActions
  import opened RevisionRuns

  lemma {:induction false} RunKeepsInv(h: Digest, s: State, events: seq<Event>)
    requires Inv(h, s) && Injective(h)
    ensures Inv(h, Run(h, s, events))
    ensures Grows(s, Run(h, s, events), RunNames(h, s, events))
    decreases |events|
  {
    if events == [] {
      RowsKeptGrow(s, s);
    } else {
      var t := Step(h, s, events[0]);
      StepKeepsInv(h, s, events[0]);
      RunKeepsInv(h, t, events[1..]);
      GrowsOn(s, t, Run(h, s, events), Named(s, events[0]), RunNames(h, t, events[1..]));
    }
  }

  lemma InitialInv(h: Digest, n: nat, live: string)
    ensures Inv(h, Initial(n, live))
  { }

  function FromStart(h: Digest, n: nat, live: string, events: seq<Event>): State {
    Run(h, Initial(n, live), events)
  }

  /** In every run: unique ids and digests, digests that match, and stamps only on what was pushed. */
  lemma EveryRunIsSound(h: Digest, n: nat, live: string, events: seq<Event>)
    requires Injective(h)
    ensures var s := FromStart(h, n, live, events);
            && Sound(h, s.table)
            && (forall r | r in s.table.rows && r.lastDeployedAt.Some? :: r.document in s.pushed)
            && (forall d, r | d in s.deleted && r in s.table.rows :: d.id != r.id)
  {
    InitialInv(h, n, live);
    RunKeepsInv(h, Initial(n, live), events);
  }

  /** A run can be taken in two parts. */
  lemma {:induction false} RunInParts(h: Digest, s: State, events: seq<Event>, k: nat)
    requires k <= |events|
    ensures Run(h, s, events) == Run(h, Run(h, s, events[..k]), events[k..])
    decreases k
  {
    if k > 0 {
      RunInParts(h, Step(h, s, events[0]), events[1..], k - 1);
      assert events[..k][1..] == events[1..][..k - 1];
    }
  }

  /** A revision once stored keeps its document, author and date for good; its note until it is renamed. */
  lemma {:induction false} StoredForGood(h: Digest, n: nat, live: string, events: seq<Event>, more: seq<Event>, r: Row)
    requires Injective(h) && r in FromStart(h, n, live, events).table.rows
    ensures var s, t := FromStart(h, n, live, events), FromStart(h, n, live, events + more);
            exists r' :: (r' in t.table.rows || r' in t.deleted) && SameRevision(r, r')
                         && (r'.note == r.note || r.id in RunNames(h, s, more))
  {
    var s := FromStart(h, n, live, events);
    InitialInv(h, n, live);
    RunKeepsInv(h, Initial(n, live), events);
    RunKeepsInv(h, s, more);
    RunInParts(h, Initial(n, live), events + more, |events|);
    assert (events + more)[..|events|] == events && (events + more)[|events|..] == more;
    assert Remains(Run(h, s, more), r, RunNames(h, s, more));
  }

  /** Once all actions have ended, every document pushed from here is stored with its stamp, or since its
      latest push a row of it was deleted, or the insert of a push of it was refused. */
  lemma EveryPushAccounted(h: Digest, n: nat, live: string, events: seq<Event>, document: string)
    requires Injective(h)
    requires document in FromStart(h, n, live, events).pushed
    requires forall pc | pc in FromStart(h, n, live, events).procs :: pc.Idle?
    ensures var s := FromStart(h, n, live, events);
            Recorded(s.table.rows, document) || document in s.gone || document in s.clashed
  {
    var s := FromStart(h, n, live, events);
    InitialInv(h, n, live);
    RunKeepsInv(h, Initial(n, live), events);
    assert Traced(s, document);
    forall p | 0 <= p < |s.procs| ensures !Carries(s.table.rows, s.procs[p], document) { assert s.procs[p] in s.procs; }
  }

  // ------------------------------------------------------- is every push remembered?

  /** The last write of an action that pushed: an insert that carries a push, or a stamp. */
  predicate EndsPush(s: State, e: Event) {
    && e.Advance? && e.p < |s.procs|
    && ((s.procs[e.p].Inserting? && s.procs[e.p].deployedAt.Some?) || s.procs[e.p].Stamping?)
  }

  /** What must hold before that write. For an insert: whoever stored the document since the look-up has
      stamped it as well. For a stamp: the row looked up is still there, or another holds the stamp. */
  predicate CanRecord(s: State, e: Event)
    requires EndsPush(s, e)
  {
    var pc := s.procs[e.p];
    if pc.Inserting? then forall r | r in s.table.rows && r.document == pc.document :: r.lastDeployedAt.Some?
    else exists r | r in s.table.rows && r.document == pc.document :: r.id == pc.id || r.lastDeployedAt.Some?
  }

  ghost predicate Remembers(h: Digest, s: State, e: Event)
    requires EndsPush(s, e)
  {
    Recorded(Step(h, s, e).table.rows, s.procs[e.p].document)
  }

  lemma InsertRemembersExactly(h: Digest, s: State, e: Event)
    requires Inv(h, s) && Injective(h) && EndsPush(s, e) && s.procs[e.p].Inserting?
    ensures Remembers(h, s, e) <==> CanRecord(s, e)
  {
    var pc, rows := s.procs[e.p], s.table.rows;
    var t := TryInsert(h, s, e.p, e.now);
    SameDocumentSameRow(h, s.table);
    var existing := ByDigest(rows, h(pc.document));
    if existing.Some? {
      assert t.table.rows == rows && existing.value.document == pc.document;
    } else {
      var row := t.table.rows[|rows|];
      assert row in t.table.rows && row.document == pc.document && row.lastDeployedAt.Some?;
      forall r | r in rows ensures r.document != pc.document { assert r.digest == h(r.document); }
    }
  }

  lemma StampRemembersExactly(h: Digest, s: State, e: Event)
    requires Inv(h, s) && EndsPush(s, e) && s.procs[e.p].Stamping?
    ensures Remembers(h, s, e) <==> CanRecord(s, e)
  {
    var pc, rows := s.procs[e.p], s.table.rows;
    var stamped := Stamp(rows, pc.id, pc.at);
    assert Step(h, s, e).table.rows == stamped;
    StampRecords(rows, pc.id, pc.document, pc.at);
  }

  lemma StampRecords(rows: seq<Row>, id: nat, document: string, at: int)
    ensures Recorded(Stamp(rows, id, at), document)
            <==> exists r :: r in rows && r.document == document && (r.id == id || r.lastDeployedAt.Some?)
  {
    var stamped := Stamp(rows, id, at);
    if exists r :: r in rows && r.document == document && (r.id == id || r.lastDeployedAt.Some?) {
      var r :| r in rows && r.document == document && (r.id == id || r.lastDeployedAt.Some?);
      var i :| 0 <= i < |rows| && rows[i] == r;
      assert stamped[i] in stamped;
    }
    if Recorded(stamped, document) {
      var r :| r in stamped && r.document == document && r.lastDeployedAt.Some?;
      var i :| 0 <= i < |stamped| && stamped[i] == r;
      assert rows[i] in rows;
    }
  }

  /** A push is remembered, that is stored with its stamp, exactly when its last write can record it. */
  lemma RemembersExactly(h: Digest, s: State, e: Event)
    requires Inv(h, s) && Injective(h) && EndsPush(s, e)
    ensures Remembers(h, s, e) <==> CanRecord(s, e)
  {
    if s.procs[e.p].Inserting? { InsertRemembersExactly(h, s, e); } else { StampRemembersExactly(h, s, e); }
  }

  /** Every push of a run is remembered when its action ends. */
  ghost predicate AllRemembered(h: Digest, s: State, events: seq<Event>)
    decreases |events|
  {
    events != [] ==>
      && (EndsPush(s, events[0]) ==> Remembers(h, s, events[0]))
      && AllRemembered(h, Step(h, s, events[0]), events[1..])
  }

  /** No last write of a run finds its document stored unstamped by another, or its row deleted. */
  ghost predicate NeverForestalled(h: Digest, s: State, events: seq<Event>)
    decreases |events|
  {
    events != [] ==>
      && (EndsPush(s, events[0]) ==> CanRecord(s, events[0]))
      && NeverForestalled(h, Step(h, s, events[0]), events[1..])
  }

  /** Over any run: every successful push is remembered if and only if none is forestalled. */
  lemma {:induction false} EveryPushRememberedExactly(h: Digest, s: State, events: seq<Event>)
    requires Inv(h, s) && Injective(h)
    ensures AllRemembered(h, s, events) <==> NeverForestalled(h, s, events)
    decreases |events|
  {
    if events != [] {
      if EndsPush(s, events[0]) { RemembersExactly(h, s, events[0]); }
      StepKeepsInv(h, s, events[0]);
      EveryPushRememberedExactly(h, Step(h, s, events[0]), events[1..]);
    }
  }

  // --------------------------------------------------------------- right after a push

  lemma HolderIsOnlyLive(h: Digest, t: Table, live: string, r: Row)
    requires Injective(h) && Sound(h, t) && r in t.rows && r.document == live && !IsBlank(live)
    ensures OnlyLive(h, t, live, r.id)
  {
    SameDocumentSameRow(h, t);
    HeldIsOnlyLive(h, t, live, r);
  }

  /** The step that stamps a pushed revision leaves it alone live, unless that very row was deleted
      or something else was pushed in between. */
  lemma StampedIsOnlyLive(h: Digest, s: State, p: nat, now: int, accepted: bool)
    requires Inv(h, s) && Injective(h) && p < |s.procs| && s.procs[p].Stamping?
    requires s.live == s.procs[p].document && !IsBlank(s.live)
    ensures var t := Proceed(h, s, p, now, accepted);
            OnlyLive(h, t.table, t.live, s.procs[p].id)
            <==> forall r | r in s.deleted :: r.id != s.procs[p].id
  {
    var id, at := s.procs[p].id, s.procs[p].at;
    assert PcOk(s, s.procs[p]);
    var r :| (r in s.table.rows || r in s.deleted) && r.id == id && r.document == s.live;
    var rows := Stamp(s.table.rows, id, at);
    if r in s.table.rows {
      StampFinds(h, s.table.rows, r, at);
      StampSound(h, s.table, id, at);
      HolderIsOnlyLive(h, s.table.(rows := rows), s.live, r.(lastDeployedAt := Some(at)));
    } else {
      forall x | x in rows ensures x.id != id {
        var i :| 0 <= i < |rows| && rows[i] == x;
        assert s.table.rows[i] in s.table.rows;
      }
    }
  }

  /** The insert that records a pushed document leaves exactly one row live, even when it is refused,
      unless something else was pushed since. */
  lemma InsertedIsOnlyLive(h: Digest, s: State, p: nat, now: int)
    requires Inv(h, s) && Injective(h) && p < |s.procs| && s.procs[p].Inserting?
    requires s.live == s.procs[p].document && !IsBlank(s.live)
    ensures exists id :: OnlyLive(h, TryInsert(h, s, p, now).table, s.live, id)
  {
    var pc := s.procs[p];
    var t := TryInsert(h, s, p, now);
    var out := Insert(s.table, h, pc.document, pc.actor, pc.note, pc.deployedAt, now);
    var row := if out.Some? then t.table.rows[|s.table.rows|] else ByDigest(s.table.rows, h(pc.document)).value;
    if out.Some? { InsertSound(h, s.table, pc.document, pc.actor, pc.note, pc.deployedAt, now); }
    assert row in t.table.rows && row.document == s.live;
    HolderIsOnlyLive(h, t.table, s.live, row);
  }

  // --------------------------------------------------------------- two actions at once

  /** With one action at a time no insert is ever refused. */
  ghost predicate Alone(h: Digest, s: State) {
    && |s.procs| == 1
    && s.clashed == {}
    && (s.procs[0].Inserting? ==> ByDigest(s.table.rows, h(s.procs[0].document)).None?)
  }

  lemma AloneProceeds(h: Digest, s: State, now: int, accepted: bool)
    requires Alone(h, s)
    ensures Alone(h, Proceed(h, s, 0, now, accepted))
  {
    var pc := s.procs[0];
    if pc.Inserting? {
      assert Insert(s.table, h, pc.document, pc.actor, pc.note, pc.deployedAt, now).Some?;
    } else if pc.Looking? {
      assert LookUp(h, s, 0).table == s.table;
    } else {
      assert !Proceed(h, s, 0, now, accepted).procs[0].Inserting?;
    }
  }

  lemma AloneStays(h: Digest, s: State, e: Event)
    requires Alone(h, s)
    ensures Alone(h, Step(h, s, e))
  {
    match e {
      case Begin(p, action) =>
        assert !Start(action, s.live).Inserting?;
      case Advance(p, now, accepted) =>
        AloneProceeds(h, s, now, accepted);
      case ChangedOutside(_) =>
    }
  }

  lemma {:induction false} AloneNeverClashes(h: Digest, s: State, events: seq<Event>)
    requires Alone(h, s)
    ensures Alone(h, Run(h, s, events))
    decreases |events|
  {
    if events != [] {
      AloneStays(h, s, events[0]);
      AloneNeverClashes(h, Step(h, s, events[0]), events[1..]);
    }
  }

  predicate IsRemoval(pc: Pc) {
    pc.CheckingRow? || pc.Deleting?
  }

  ghost predicate NoRemovals(s: State) {
    s.deleted == [] && s.gone == {} && forall q | 0 <= q < |s.procs| :: !IsRemoval(s.procs[q])
  }

  lemma PushedRowIsThere(s: State, p: nat)
    requires s.deleted == [] && p < |s.procs| && PcOk(s, s.procs[p])
    ensures s.procs[p].Pushing? ==> ById(s.table.rows, s.procs[p].id).Some?
  { }

  lemma NoRemovalsStep(h: Digest, s: State, e: Event)
    requires Inv(h, s) && NoRemovals(s) && (e.Begin? ==> !e.action.Delete?)
    ensures NoRemovals(Step(h, s, e))
  {
    match e {
      case Begin(p, action) => assert !IsRemoval(Start(action, s.live));
      case Advance(p, now, accepted) =>
        if p < |s.procs| {
          assert !IsRemoval(s.procs[p]);
          PushedRowIsThere(s, p);
        }
      case ChangedOutside(_) =>
    }
  }

  lemma {:induction false} NothingDeleted(h: Digest, s: State, events: seq<Event>)
    requires Inv(h, s) && Injective(h) && NoRemovals(s)
    requires forall e | e in events && e.Begin? :: !e.action.Delete?
    ensures NoRemovals(Run(h, s, events))
    decreases |events|
  {
    if events != [] {
      assert events[0] in events && forall x | x in events[1..] :: x in events;
      NoRemovalsStep(h, s, events[0]);
      StepKeepsInv(h, s, events[0]);
      NothingDeleted(h, Step(h, s, events[0]), events[1..]);
    }
  }

  /** One action at a time and nothing deleted: the history is a true record of what was pushed. */
  lemma HistoryIsTruthful(h: Digest, live: string, events: seq<Event>)
    requires Injective(h)
    requires forall e | e in events && e.Begin? :: !e.action.Delete?
    requires FromStart(h, 1, live, events).procs == [Idle]
    ensures var s := FromStart(h, 1, live, events);
            forall d :: d in s.pushed <==> Recorded(s.table.rows, d)
  {
    var s := FromStart(h, 1, live, events);
    InitialInv(h, 1, live);
    AloneNeverClashes(h, Initial(1, live), events);
    NothingDeleted(h, Initial(1, live), events);
    EveryRunIsSound(h, 1, live, events);
    forall d | d in s.pushed ensures Recorded(s.table.rows, d) {
      EveryPushAccounted(h, 1, live, events, d);
    }
  }

  /** The insert of a remembered document is refused exactly when the document has been stored by then. */
  lemma ClashesExactly(h: Digest, s: State, p: nat, now: int)
    requires Inv(h, s) && Injective(h) && p < |s.procs| && s.procs[p].Inserting?
    ensures TryInsert(h, s, p, now).table == s.table <==> exists r :: r in s.table.rows && r.document == s.procs[p].document
  {
    var document := s.procs[p].document;
    if exists r :: r in s.table.rows && r.document == document {
      var r :| r in s.table.rows && r.document == document;
      assert r.digest == h(document);
    }
  }

  /** Two operators, one document: the push goes through and its revision is left unstamped. */
  function Race(document: string): seq<Event> {
    [Begin(0, Submit(document, "ann")), Advance(0, 1, true), Advance(0, 2, true),
     Begin(1, Save(document, "bob", None)), Advance(1, 3, true), Advance(1, 4, true), Advance(0, 5, true)]
  }

  /** The push goes through and its action is about to insert. */
  lemma RaceBegins(h: Digest, document: string)
    requires !IsBlank(document)
    ensures Run(h, Initial(2, ""), Race(document)[..3])
            == State(Table([], 1), document, [Inserting(document, "ann", None, Some(1)), Idle], {document}, [], {}, {})
  {
    var events := Race(document)[..3];
    var s0 := Initial(2, "");
    var s1 := Step(h, s0, events[0]);
    var s2 := Step(h, s1, events[1]);
    var s3 := Step(h, s2, events[2]);
    assert s1 == s0.(procs := [Submitting(document, "ann"), Idle]);
    assert s2 == State(Table([], 1), document, [Looking(document, "ann", None, Some(1)), Idle], {document}, [], {}, {});
    assert s3.procs == [Inserting(document, "ann", None, Some(1)), Idle];
    assert Run(h, s0, events) == Run(h, s1, events[1..]) == Run(h, s2, events[1..][1..])
           == Run(h, s3, events[1..][1..][1..]);
  }

  lemma {:induction false} RaceEnds(h: Digest, s: State, document: string)
    requires !IsBlank(document)
    requires s == State(Table([], 1), document, [Inserting(document, "ann", None, Some(1)), Idle], {document}, [], {}, {})
    ensures var row := Row(1, 4, "bob", document, h(document), None, None);
            Run(h, s, Race(document)[3..])
            == State(Table([row], 2), document, [Idle, Idle], {document}, [], {}, {document})
  {
    var events := Race(document)[3..];
    var row := Row(1, 4, "bob", document, h(document), None, None);
    var s4 := Step(h, s, events[0]);
    var s5 := Step(h, s4, events[1]);
    var s6 := Step(h, s5, events[2]);
    var s7 := Step(h, s6, events[3]);
    assert s4 == s.(procs := [s.procs[0], Looking(document, "bob", None, None)]);
    assert s5 == s.(procs := [s.procs[0], Inserting(document, "bob", None, None)]);
    assert s6 == s.(procs := [s.procs[0], Idle], table := Table([row], 2));
    assert s7.procs == [Idle, Idle] && s7.table == Table([row], 2) && s7.clashed == {document};
    assert Run(h, s, events) == Run(h, s4, events[1..]) == Run(h, s5, events[1..][1..])
           == Run(h, s6, events[1..][1..][1..]) == Run(h, s7, events[1..][1..][1..][1..]);
  }

  lemma RaceLeavesPushUnstamped(h: Digest, document: string)
    requires !IsBlank(document)
    ensures var s := FromStart(h, 2, "", Race(document));
            && s.procs == [Idle, Idle] && s.live == document && s.pushed == {document} && s.deleted == []
            && s.table.rows == [Row(1, 4, "bob", document, h(document), None, None)]
            && !Recorded(s.table.rows, document)
  {
    RaceBegins(h, document);
    RaceEnds(h, Run(h, Initial(2, ""), Race(document)[..3]), document);
    RunInParts(h, Initial(2, ""), Race(document), 3);
  }
}
