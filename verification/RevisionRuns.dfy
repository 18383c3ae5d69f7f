/** Every interleaving of the operator's actions. */
module RevisionRuns {
  import opened Text
  import opened Revisions
  import opened RevisionActions

  datatype Action =
    | Save(document: string, actor: string, note: Option<string>)
    | Submit(document: string, actor: string)
    | Deploy(id: nat)
    | Rename(id: nat, note: Option<string>)
    | Delete(id: nat)
    | Baseline

  /** Where an action stands. Each constructor is one statement or request about to happen. */
  datatype Pc =
    | Idle
    | Submitting(document: string, actor: string)
    | Looking(document: string, actor: string, note: Option<string>, deployedAt: Option<int>)
    | Inserting(document: string, actor: string, note: Option<string>, deployedAt: Option<int>)
    | Stamping(id: nat, document: string, at: int)
    | Fetching(id: nat)
    | Pushing(id: nat, document: string)
    | CheckingNote(id: nat, note: Option<string>)
    | WritingNote(id: nat, note: Option<string>)
    | CheckingRow(id: nat, checks: nat)
    | Deleting(id: nat)

  /** The system, with a record of what was pushed and which rows were deleted, and of the documents that,
      since their latest push, had a row deleted (`gone`; or the row was missing when it was pushed) or the
      insert of a push refused (`clashed`). */
  datatype State = State(table: Table, live: string, procs: seq<Pc>,
                         pushed: set<string>, deleted: seq<Row>, gone: set<string>, clashed: set<string>)

  datatype Event =
    | Begin(p: nat, action: Action)
    | Advance(p: nat, now: int, accepted: bool)
    | ChangedOutside(document: string)

  function Initial(n: nat, live: string): State {
    State(Table([], 1), live, seq(n, _ => Idle), {}, [], {}, {})
  }

  function Start(action: Action, live: string): Pc {
    match action
    case Save(document, actor, note) => if IsBlank(document) then Idle else Looking(document, actor, note, None)
    case Submit(document, actor) => if IsBlank(document) then Idle else Submitting(document, actor)
    case Deploy(id) => Fetching(id)
    case Rename(id, note) => CheckingNote(id, note)
    case Delete(id) => CheckingRow(id, 2)
    case Baseline =>
      if IsBlank(live) then Idle else Looking(live, "headscale", Some("as found on the control plane"), None)
  }

  function Goto(s: State, p: nat, pc: Pc): State
    requires p < |s.procs|
  {
    s.(procs := s.procs[p := pc])
  }

  /** The control plane takes a document. */
  function Accept(s: State, document: string): State {
    s.(live := document, pushed := s.pushed + {document}, gone := s.gone - {document}, clashed := s.clashed - {document})
  }

  /** The same for a stored revision, which may have been deleted since it was fetched. */
  function AcceptRow(s: State, id: nat, document: string): State {
    var t := Accept(s, document);
    if ById(s.table.rows, id).None? then t.(gone := t.gone + {document}) else t
  }

  function LookUp(h: Digest, s: State, p: nat): State
    requires p < |s.procs| && s.procs[p].Looking?
  {
    var pc := s.procs[p];
    var existing := ByDigest(s.table.rows, h(pc.document));
    if existing.None? then Goto(s, p, Inserting(pc.document, pc.actor, pc.note, pc.deployedAt))
    else if pc.deployedAt.Some? then Goto(s, p, Stamping(existing.value.id, pc.document, pc.deployedAt.value))
    else Goto(s, p, Idle)
  }

  function TryInsert(h: Digest, s: State, p: nat, now: int): State
    requires p < |s.procs| && s.procs[p].Inserting?
  {
    var pc := s.procs[p];
    var out := Insert(s.table, h, pc.document, pc.actor, pc.note, pc.deployedAt, now);
    if out.None? then Goto(s, p, Idle).(clashed := s.clashed + if pc.deployedAt.Some? then {pc.document} else {})
    else Goto(s, p, Idle).(table := out.value)
  }

  function DeleteRow(s: State, p: nat, id: nat): State
    requires p < |s.procs|
  {
    var row := ById(s.table.rows, id);
    if row.None? then Goto(s, p, Idle)
    else Goto(s, p, Idle).(table := s.table.(rows := Remove(s.table.rows, id)), deleted := s.deleted + [row.value],
                           gone := s.gone + {row.value.document})
  }

  /** One step of one action. */
  function Proceed(h: Digest, s: State, p: nat, now: int, accepted: bool): State
    requires p < |s.procs|
  {
    match s.procs[p]
    case Idle => s
    case Submitting(document, actor) =>
      if accepted then Goto(Accept(s, document), p, Looking(document, actor, None, Some(now))) else Goto(s, p, Idle)
    case Looking(_, _, _, _) => LookUp(h, s, p)
    case Inserting(_, _, _, _) => TryInsert(h, s, p, now)
    case Stamping(id, _, at) => Goto(s, p, Idle).(table := s.table.(rows := Stamp(s.table.rows, id, at)))
    case Fetching(id) =>
      var row := ById(s.table.rows, id);
      Goto(s, p, if row.None? then Idle else Pushing(id, row.value.document))
    case Pushing(id, document) =>
      if accepted then Goto(AcceptRow(s, id, document), p, Stamping(id, document, now)) else Goto(s, p, Idle)
    case CheckingNote(id, note) => Goto(s, p, if ById(s.table.rows, id).None? then Idle else WritingNote(id, note))
    case WritingNote(id, note) =>
      Goto(s, p, Idle).(table := s.table.(rows := SetNote(s.table.rows, id, NormalizeNote(note))))
    case CheckingRow(id, checks) =>
      Goto(s, p, if ById(s.table.rows, id).None? then Idle
                 else if checks > 1 then CheckingRow(id, checks - 1) else Deleting(id))
    case Deleting(id) => DeleteRow(s, p, id)
  }

  function Step(h: Digest, s: State, e: Event): State {
    match e
    case Begin(p, action) =>
      if p < |s.procs| && s.procs[p].Idle? then Goto(s, p, Start(action, s.live)) else s
    case Advance(p, now, accepted) => if p < |s.procs| then Proceed(h, s, p, now, accepted) else s
    case ChangedOutside(document) => s.(live := document)
  }

  function Run(h: Digest, s: State, events: seq<Event>): State
    decreases |events|
  {
    if events == [] then s else Run(h, Step(h, s, events[0]), events[1..])
  }

  // ------------------------------------------------------------------------ invariant

  /** The row an action has in hand: still stored, or deleted since, but never another document's. */
  ghost predicate Known(s: State, id: nat, document: string) {
    exists r :: (r in s.table.rows || r in s.deleted) && r.id == id && r.document == document
  }

  ghost predicate PcOk(s: State, pc: Pc) {
    match pc
    case Looking(document, _, _, deployedAt) => deployedAt.Some? ==> document in s.pushed
    case Inserting(document, _, _, deployedAt) => deployedAt.Some? ==> document in s.pushed
    case Stamping(id, document, _) => document in s.pushed && Known(s, id, document)
    case Pushing(id, document) => Known(s, id, document)
    case _ => true
  }

  /** A pushed document still to be recorded by the action that pushed it, which has its row in hand or
      has yet to look for it. */
  ghost predicate Carries(rows: seq<Row>, pc: Pc, document: string) {
    || ((pc.Looking? || pc.Inserting?) && pc.document == document && pc.deployedAt.Some?)
    || (pc.Stamping? && pc.document == document && exists r :: r in rows && r.id == pc.id)
  }

  ghost predicate Recorded(rows: seq<Row>, document: string) {
    exists r :: r in rows && r.document == document && r.lastDeployedAt.Some?
  }

  /** Why a pushed document need not be recorded. */
  ghost predicate Traced(s: State, document: string) {
    || Recorded(s.table.rows, document)
    || (exists p :: 0 <= p < |s.procs| && Carries(s.table.rows, s.procs[p], document))
    || document in s.gone
    || document in s.clashed
  }

  ghost predicate StampsTrue(s: State) {
    forall r | r in s.table.rows && r.lastDeployedAt.Some? :: r.document in s.pushed
  }

  /** No id of a deleted row comes back. */
  ghost predicate IdsRetired(s: State) {
    forall d | d in s.deleted :: d.id < s.table.nextId && forall r | r in s.table.rows :: r.id != d.id
  }

  ghost predicate Inv(h: Digest, s: State) {
    && Sound(h, s.table)
    && IdsRetired(s)
    && StampsTrue(s)
    && (forall p | 0 <= p < |s.procs| :: PcOk(s, s.procs[p]))
    && (forall d | d in s.pushed :: Traced(s, d))
  }

  /** Rows may be added, stamped and retired, and those in `named` relabelled; nothing known is forgotten. */
  ghost predicate Grows(s: State, t: State, named: set<nat>) {
    && s.pushed <= t.pushed
    && |s.procs| == |t.procs|
    && (forall r | r in s.table.rows || r in s.deleted :: Remains(t, r, named))
    && (forall d | d in s.deleted :: d in t.deleted)
  }

  ghost predicate Remains(t: State, r: Row, named: set<nat>) {
    exists r' :: (r' in t.table.rows || r' in t.deleted) && SameRevision(r, r') && (r.note == r'.note || r.id in named)
  }

  /** The same stored revision: everything but the note and the stamp is as it was. */
  predicate SameRevision(a: Row, b: Row) {
    a.id == b.id && a.createdAt == b.createdAt && a.actor == b.actor && a.document == b.document && a.digest == b.digest
  }

  lemma PcOkKept(s: State, t: State, named: set<nat>, pc: Pc)
    requires Grows(s, t, named) && PcOk(s, pc)
    ensures PcOk(t, pc)
  {
    if (pc.Stamping? || pc.Pushing?) && Known(s, pc.id, pc.document) {
      var r :| (r in s.table.rows || r in s.deleted) && r.id == pc.id && r.document == pc.document;
      var r' :| (r' in t.table.rows || r' in t.deleted) && SameRevision(r, r');
    }
  }

  /** What was lost stays on record until its document is pushed again. */
  ghost predicate LossesKept(s: State, t: State, pc: Pc) {
    && (forall d | d in s.gone :: d in t.gone || Carries(t.table.rows, pc, d))
    && (forall d | d in s.clashed :: d in t.clashed || d in t.gone || Carries(t.table.rows, pc, d))
  }

  /** No action loses the row it has in hand, unless that goes on record. */
  ghost predicate HandsKept(s: State, t: State) {
    forall q, d | 0 <= q < |s.procs| && Carries(s.table.rows, s.procs[q], d) ::
      Carries(t.table.rows, s.procs[q], d) || d in t.gone
  }

  lemma IdsKeptHands(s: State, t: State)
    requires forall r | r in s.table.rows :: exists r' :: r' in t.table.rows && r'.id == r.id
    ensures HandsKept(s, t)
  { }

  lemma Preserved(h: Digest, s: State, t: State, named: set<nat>, p: nat, pc: Pc)
    requires Inv(h, s) && p < |s.procs| && t.procs == s.procs[p := pc]
    requires Grows(s, t, named) && Sound(h, t.table) && IdsRetired(t) && StampsTrue(t) && PcOk(t, pc)
    requires forall d | d in t.pushed && d !in s.pushed :: Carries(t.table.rows, pc, d) || d in t.gone
    requires LossesKept(s, t, pc) && HandsKept(s, t)
    requires forall d | Recorded(s.table.rows, d) :: Recorded(t.table.rows, d) || d in t.gone
    requires forall d | d in s.pushed && Carries(s.table.rows, s.procs[p], d) :: Traced(t, d)
    ensures Inv(h, t)
  {
    forall q | 0 <= q < |t.procs| ensures PcOk(t, t.procs[q]) {
      if q != p { PcOkKept(s, t, named, s.procs[q]); }
    }
    forall d | d in t.pushed ensures Traced(t, d) {
      if Carries(t.table.rows, pc, d) {
        assert Carries(t.table.rows, t.procs[p], d);
      } else if exists q :: 0 <= q < |s.procs| && Carries(s.table.rows, s.procs[q], d) {
        var q :| 0 <= q < |s.procs| && Carries(s.table.rows, s.procs[q], d);
        if q != p && d !in t.gone { assert Carries(t.table.rows, t.procs[q], d); }
      } else if d in s.pushed {
        assert Traced(s, d);
      }
    }
  }

  lemma RemainsAsIs(t: State, r: Row, named: set<nat>)
    requires r in t.table.rows || r in t.deleted
    ensures Remains(t, r, named)
  {
    assert SameRevision(r, r);
  }

  lemma RowsKeptGrow(s: State, t: State)
    requires |s.procs| == |t.procs| && s.pushed <= t.pushed
    requires forall r | r in s.table.rows || r in s.deleted :: r in t.table.rows || r in t.deleted
    requires forall d | d in s.deleted :: d in t.deleted
    ensures Grows(s, t, {})
  {
    forall r | r in s.table.rows || r in s.deleted ensures Remains(t, r, {}) { RemainsAsIs(t, r, {}); }
  }

  lemma QuietTraced(s: State, t: State, p: nat, pc: Pc)
    requires p < |s.procs| && t.procs == s.procs[p := pc]
    requires forall d | Carries(s.table.rows, s.procs[p], d) :: Carries(t.table.rows, pc, d) || d in t.clashed
    ensures forall d | Carries(s.table.rows, s.procs[p], d) :: Traced(t, d)
  {
    forall d | Carries(s.table.rows, s.procs[p], d) ensures Traced(t, d) {
      assert t.procs[p] == pc;
    }
  }

  lemma QuietFrame(s: State, t: State)
    requires |s.procs| == |t.procs| && t.table == s.table && t.deleted == s.deleted && s.pushed <= t.pushed
    ensures Grows(s, t, {}) && HandsKept(s, t)
    ensures IdsRetired(s) ==> IdsRetired(t)
    ensures StampsTrue(s) ==> StampsTrue(t)
  {
    RowsKeptGrow(s, t);
    IdsKeptHands(s, t);
  }

  /** A step that leaves the stored rows alone. */
  lemma QuietStep(h: Digest, s: State, t: State, p: nat, pc: Pc)
    requires Inv(h, s) && p < |s.procs| && t.procs == s.procs[p := pc]
    requires t.table == s.table && t.deleted == s.deleted && s.pushed <= t.pushed && LossesKept(s, t, pc)
    requires PcOk(t, pc)
    requires forall d | d in t.pushed && d !in s.pushed :: Carries(t.table.rows, pc, d) || d in t.gone
    requires forall d | Carries(s.table.rows, s.procs[p], d) :: Carries(t.table.rows, pc, d) || d in t.clashed
    ensures Inv(h, t) && Grows(s, t, {})
  {
    QuietFrame(s, t);
    QuietTraced(s, t, p, pc);
    Preserved(h, s, t, {}, p, pc);
  }

  lemma LookUpStep(h: Digest, s: State, p: nat)
    requires Inv(h, s) && Injective(h) && p < |s.procs| && s.procs[p].Looking?
    ensures Inv(h, LookUp(h, s, p)) && Grows(s, LookUp(h, s, p), {})
  {
    var t := LookUp(h, s, p);
    var pc := s.procs[p];
    var existing := ByDigest(s.table.rows, h(pc.document));
    assert PcOk(s, pc);
    if existing.Some? {
      assert existing.value.document == pc.document;
      assert Known(s, existing.value.id, pc.document);
    }
    QuietStep(h, s, t, p, t.procs[p]);
  }

  /** An action takes its next step and the rows change one by one. */
  ghost predicate Rewritten(before: seq<Row>, after: seq<Row>, named: set<nat>) {
    && |after| == |before|
    && forall i | 0 <= i < |before| ::
         && SameRevision(before[i], after[i])
         && (before[i].note == after[i].note || before[i].id in named)
         && (before[i].lastDeployedAt.Some? ==> after[i].lastDeployedAt.Some?)
  }

  lemma RewriteStep(h: Digest, s: State, t: State, named: set<nat>, p: nat)
    requires Inv(h, s) && p < |s.procs| && t.procs == s.procs[p := Idle]
    requires t.deleted == s.deleted && t.pushed == s.pushed && t.gone == s.gone && t.clashed == s.clashed
    requires Rewritten(s.table.rows, t.table.rows, named) && t.table.nextId == s.table.nextId
    requires Sound(h, t.table) && StampsTrue(t)
    requires forall d | d in s.pushed && Carries(s.table.rows, s.procs[p], d) :: Traced(t, d)
    ensures Inv(h, t) && Grows(s, t, named)
  {
    RewriteGrows(s, t, named);
    RewriteRetires(s, t, named);
    forall r | r in s.table.rows ensures exists r' :: r' in t.table.rows && r'.id == r.id {
      var i :| 0 <= i < |s.table.rows| && s.table.rows[i] == r;
      assert t.table.rows[i] in t.table.rows && SameRevision(r, t.table.rows[i]);
    }
    IdsKeptHands(s, t);
    forall d | Recorded(s.table.rows, d) ensures Recorded(t.table.rows, d) {
      RewriteRecords(s.table.rows, t.table.rows, named, d);
    }
    Preserved(h, s, t, named, p, Idle);
  }

  lemma RewriteGrows(s: State, t: State, named: set<nat>)
    requires |s.procs| == |t.procs| && t.deleted == s.deleted && t.pushed == s.pushed
    requires Rewritten(s.table.rows, t.table.rows, named)
    ensures Grows(s, t, named)
  {
    forall r | r in s.table.rows || r in s.deleted ensures Remains(t, r, named) {
      if r in s.table.rows {
        var i :| 0 <= i < |s.table.rows| && s.table.rows[i] == r;
        assert t.table.rows[i] in t.table.rows && SameRevision(r, t.table.rows[i]);
      } else {
        RemainsAsIs(t, r, named);
      }
    }
  }

  lemma RewriteRetires(s: State, t: State, named: set<nat>)
    requires IdsRetired(s) && t.deleted == s.deleted && t.table.nextId == s.table.nextId
    requires Rewritten(s.table.rows, t.table.rows, named)
    ensures IdsRetired(t)
  {
    forall d, r | d in t.deleted && r in t.table.rows ensures r.id != d.id {
      var i :| 0 <= i < |t.table.rows| && t.table.rows[i] == r;
      assert s.table.rows[i] in s.table.rows && SameRevision(s.table.rows[i], r);
    }
  }

  lemma RewriteRecords(before: seq<Row>, after: seq<Row>, named: set<nat>, d: string)
    requires Rewritten(before, after, named) && Recorded(before, d)
    ensures Recorded(after, d)
  {
    var r :| r in before && r.document == d && r.lastDeployedAt.Some?;
    var i :| 0 <= i < |before| && before[i] == r;
    assert after[i] in after && SameRevision(r, after[i]);
  }

  lemma StampStep(h: Digest, s: State, p: nat, now: int, accepted: bool)
    requires Inv(h, s) && p < |s.procs| && s.procs[p].Stamping?
    ensures Inv(h, Proceed(h, s, p, now, accepted)) && Grows(s, Proceed(h, s, p, now, accepted), {})
  {
    var t := Proceed(h, s, p, now, accepted);
    var id, document, at := s.procs[p].id, s.procs[p].document, s.procs[p].at;
    var before, after := s.table.rows, t.table.rows;
    assert PcOk(s, s.procs[p]);
    StampSound(h, s.table, id, at);
    var known :| (known in before || known in s.deleted) && known.id == id && known.document == document;
    forall r | r in after && r.lastDeployedAt.Some? ensures r.document in t.pushed {
      var i :| 0 <= i < |after| && after[i] == r;
      assert before[i] in before;
      if before[i].id == id {
        // The row with this id is the one in hand: a deleted id is never given out again.
        assert known in before;
        SameDocumentSameRow(h, s.table);
      }
    }
    if known in before { StampFinds(h, before, known, at); }
    RewriteStep(h, s, t, {}, p);
  }

  lemma NoteStep(h: Digest, s: State, p: nat, now: int, accepted: bool)
    requires Inv(h, s) && p < |s.procs| && s.procs[p].WritingNote?
    ensures Inv(h, Proceed(h, s, p, now, accepted)) && Grows(s, Proceed(h, s, p, now, accepted), {s.procs[p].id})
  {
    var t := Proceed(h, s, p, now, accepted);
    var before, after := s.table.rows, t.table.rows;
    SetNoteSound(h, s.table, s.procs[p].id, NormalizeNote(s.procs[p].note));
    forall r | r in after && r.lastDeployedAt.Some? ensures r.document in t.pushed {
      var i :| 0 <= i < |after| && after[i] == r;
      assert before[i] in before;
    }
    RewriteStep(h, s, t, {s.procs[p].id}, p);
  }

  lemma InsertStep(h: Digest, s: State, p: nat, now: int)
    requires Inv(h, s) && p < |s.procs| && s.procs[p].Inserting?
    ensures Inv(h, TryInsert(h, s, p, now)) && Grows(s, TryInsert(h, s, p, now), {})
  {
    var t := TryInsert(h, s, p, now);
    var pc := s.procs[p];
    assert PcOk(s, pc);
    var out := Insert(s.table, h, pc.document, pc.actor, pc.note, pc.deployedAt, now);
    if out.None? {
      QuietStep(h, s, t, p, Idle);
    } else {
      InsertSound(h, s.table, pc.document, pc.actor, pc.note, pc.deployedAt, now);
      var before, after := s.table.rows, t.table.rows;
      var row := after[|before|];
      assert row in after && after == before + [row];
      forall r | r in before ensures r in after { }
      RowsKeptGrow(s, t);
      IdsKeptHands(s, t);
      forall d | Recorded(before, d) ensures Recorded(after, d) {
        var r :| r in before && r.document == d && r.lastDeployedAt.Some?;
        assert r in after;
      }
      Preserved(h, s, t, {}, p, Idle);
    }
  }

  lemma DeleteHands(s: State, t: State, row: Row)
    requires IdsRetired(s) && forall q | 0 <= q < |s.procs| :: PcOk(s, s.procs[q])
    requires row in s.table.rows && row.document in t.gone
    requires forall r | r in s.table.rows :: r in t.table.rows || r == row
    requires forall r, r' | r in s.table.rows && r' in s.table.rows && r.id == r'.id :: r == r'
    ensures HandsKept(s, t)
  {
    forall q, d | 0 <= q < |s.procs| && Carries(s.table.rows, s.procs[q], d)
      ensures Carries(t.table.rows, s.procs[q], d) || d in t.gone
    {
      var pc := s.procs[q];
      if pc.Stamping? {
        assert PcOk(s, pc) && Known(s, pc.id, d);
        var r :| r in s.table.rows && r.id == pc.id;
        assert r.document == d;
      }
    }
  }

  lemma DeleteStep(h: Digest, s: State, p: nat)
    requires Inv(h, s) && p < |s.procs| && s.procs[p].Deleting?
    ensures Inv(h, DeleteRow(s, p, s.procs[p].id)) && Grows(s, DeleteRow(s, p, s.procs[p].id), {})
  {
    var id := s.procs[p].id;
    var t := DeleteRow(s, p, id);
    var row := ById(s.table.rows, id);
    if row.None? {
      QuietStep(h, s, t, p, Idle);
    } else {
      var before, after := s.table.rows, t.table.rows;
      RemoveKeeps(before, id);
      RemoveSound(h, s.table, id);
      SameDocumentSameRow(h, s.table);
      assert row.value in t.deleted;
      forall r | r in before ensures r in after || r == row.value { }
      RowsKeptGrow(s, t);
      DeleteHands(s, t, row.value);
      forall d | Recorded(before, d) ensures Recorded(after, d) || d in t.gone {
        var r :| r in before && r.document == d && r.lastDeployedAt.Some?;
        assert r in after || r == row.value;
      }
      Preserved(h, s, t, {}, p, Idle);
    }
  }

  // ------------------------------------------------------------------------------ runs

  /** The row a step relabels, if it is the write of a rename. */
  function Named(s: State, e: Event): set<nat> {
    if e.Advance? && e.p < |s.procs| && s.procs[e.p].WritingNote? then {s.procs[e.p].id} else {}
  }

  lemma PushStep(h: Digest, s: State, p: nat, now: int, accepted: bool)
    requires Inv(h, s) && p < |s.procs| && s.procs[p].Pushing?
    ensures Inv(h, Proceed(h, s, p, now, accepted)) && Grows(s, Proceed(h, s, p, now, accepted), {})
  {
    var t := Proceed(h, s, p, now, accepted);
    var id, document := s.procs[p].id, s.procs[p].document;
    assert PcOk(s, s.procs[p]);
    assert Known(s, id, document) ==> Known(t, id, document);
    QuietStep(h, s, t, p, t.procs[p]);
  }

  lemma ProceedStep(h: Digest, s: State, p: nat, now: int, accepted: bool)
    requires Inv(h, s) && Injective(h) && p < |s.procs|
    ensures Inv(h, Proceed(h, s, p, now, accepted))
    ensures Grows(s, Proceed(h, s, p, now, accepted), Named(s, Advance(p, now, accepted)))
  {
    var t := Proceed(h, s, p, now, accepted);
    var pc := s.procs[p];
    assert PcOk(s, pc);
    match pc {
      case Looking(_, _, _, _) => LookUpStep(h, s, p);
      case Inserting(_, _, _, _) => InsertStep(h, s, p, now);
      case Stamping(_, _, _) => StampStep(h, s, p, now, accepted);
      case WritingNote(_, _) => NoteStep(h, s, p, now, accepted);
      case Deleting(_) => DeleteStep(h, s, p);
      case Fetching(id) =>
        var row := ById(s.table.rows, id);
        assert row.Some? ==> Known(s, id, row.value.document);
        QuietStep(h, s, t, p, t.procs[p]);
      case Idle =>
        RowsKeptGrow(s, s);
      case Submitting(_, _) => QuietStep(h, s, t, p, t.procs[p]);
      case Pushing(_, _) => PushStep(h, s, p, now, accepted);
      case CheckingNote(_, _) => QuietStep(h, s, t, p, t.procs[p]);
      case CheckingRow(_, _) => QuietStep(h, s, t, p, t.procs[p]);
    }
  }

  /** Every step of every action, and every change from outside, keeps the invariant. */
  lemma StepKeepsInv(h: Digest, s: State, e: Event)
    requires Inv(h, s) && Injective(h)
    ensures Inv(h, Step(h, s, e)) && Grows(s, Step(h, s, e), Named(s, e))
  {
    var t := Step(h, s, e);
    match e {
      case Begin(p, action) =>
        if p < |s.procs| && s.procs[p].Idle? {
          QuietStep(h, s, t, p, Start(action, s.live));
        } else {
          RowsKeptGrow(s, t);
        }
      case Advance(p, now, accepted) =>
        if p < |s.procs| { ProceedStep(h, s, p, now, accepted); } else { RowsKeptGrow(s, t); }
      case ChangedOutside(_) =>
        RowsKeptGrow(s, t);
        forall q | 0 <= q < |t.procs| ensures PcOk(t, t.procs[q]) { PcOkKept(s, t, {}, s.procs[q]); }
        forall d | d in t.pushed ensures Traced(t, d) {
          assert Traced(s, d);
        }
    }
  }

  /** The rows relabelled in a run. */
  function RunNames(h: Digest, s: State, events: seq<Event>): set<nat>
    decreases |events|
  {
    if events == [] then {} else Named(s, events[0]) + RunNames(h, Step(h, s, events[0]), events[1..])
  }

  lemma GrowsOn(s: State, t: State, u: State, first: set<nat>, second: set<nat>)
    requires Grows(s, t, first) && Grows(t, u, second)
    ensures Grows(s, u, first + second)
  {
    forall r | r in s.table.rows || r in s.deleted ensures Remains(u, r, first + second) {
      assert Remains(t, r, first);
      var r' :| (r' in t.table.rows || r' in t.deleted) && SameRevision(r, r') && (r.note == r'.note || r.id in first);
      assert Remains(u, r', second);
    }
  }
}
