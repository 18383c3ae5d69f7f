/** The operator's actions: each one run to its end over the store and the control plane. */
module RevisionActions {
  import opened Text
  import opened Revisions

  /** The control plane's one current document. A push may be refused. */
  class ControlPlane {
    var live: string

    constructor (live: string)
      ensures this.live == live
    {
      this.live := live;
    }

    method Push(document: string, accepted: bool) returns (ok: bool)
      modifies this
      ensures ok == accepted
      ensures live == if accepted then document else old(live)
    {
      if accepted { live := document; }
      ok := accepted;
    }
  }

  datatype Outcome =
    | Saved(id: nat, alreadyStored: bool)
    | Pushed(id: nat)
    | Renamed(id: nat)
    | Removed(id: nat)
    | EmptyDocument
    | NoSuchRevision
    | Refused

  /** The digest of the document being served; none when no policy is set. */
  function LiveDigest(h: Digest, live: string): Option<string> {
    if IsBlank(live) then None else Some(h(live))
  }

  /** Exactly one row is live: the one with this id. */
  ghost predicate OnlyLive(h: Digest, t: Table, live: string, id: nat) {
    && (exists r :: r in t.rows && r.id == id && r.document == live && StateOf(r, LiveDigest(h, live)) == Live)
    && (forall r | r in t.rows && StateOf(r, LiveDigest(h, live)) == Live :: r.id == id)
  }

  lemma HeldIsOnlyLive(h: Digest, t: Table, document: string, row: Row)
    requires Injective(h) && Sound(h, t) && HoldsOnce(t, document, row) && !IsBlank(document)
    ensures OnlyLive(h, t, document, row.id)
  { }

  method SaveRevision(store: RevisionStore, document: string, actor: string, note: Option<string>, now: int)
    returns (r: Outcome)
    requires store.Valid() && Injective(store.digestOf)
    modifies store
    ensures store.Valid()
    ensures IsBlank(document) ==> r == EmptyDocument && store.table == old(store.table)
    ensures !IsBlank(document) ==>
              && r.Saved?
              && store.table == Remembered(old(store.table), store.digestOf, document, actor, note, None, now)
              && r.alreadyStored == (store.table == old(store.table))
              && exists row :: HoldsOnce(store.table, document, row) && row.id == r.id
  {
    if IsBlank(document) { return EmptyDocument; }
    var row, created := store.RememberRevision(document, actor, note, None, now);
    r := Saved(row.id, !created);
  }

  lemma StampedIsHeld(h: Digest, t: Table, row: Row, now: int)
    requires Injective(h) && Sound(h, t) && row in t.rows && !IsBlank(row.document)
    ensures OnlyLive(h, t.(rows := Stamp(t.rows, row.id, now)), row.document, row.id)
  {
    var stamped := t.(rows := Stamp(t.rows, row.id, now));
    StampSound(h, t, row.id, now);
    StampFinds(h, t.rows, row, now);
    SameDocumentSameRow(h, stamped);
    HeldIsOnlyLive(h, stamped, row.document, row.(lastDeployedAt := Some(now)));
  }

  /** A refused push claims nothing; an accepted one leaves the revision stamped and alone live. */
  method DeployRevision(store: RevisionStore, plane: ControlPlane, id: nat, accepted: bool, now: int)
    returns (r: Outcome)
    requires store.Valid() && Injective(store.digestOf)
    modifies store, plane
    ensures store.Valid()
    ensures !r.Pushed? ==> store.table == old(store.table) && plane.live == old(plane.live)
    ensures r.Pushed? <==> accepted && exists row :: row in old(store.table).rows && row.id == id
    ensures r == NoSuchRevision <==> forall row | row in old(store.table).rows :: row.id != id
    ensures r.Pushed? ==>
              && r.id == id
              && store.table == old(store.table).(rows := Stamp(old(store.table).rows, id, now))
              && (exists row :: row in old(store.table).rows && row.id == id && plane.live == row.document)
              && (!IsBlank(plane.live) ==> OnlyLive(store.digestOf, store.table, plane.live, id))
  {
    var revision := ById(store.table.rows, id);
    if revision.None? { return NoSuchRevision; }
    var ok := plane.Push(revision.value.document, accepted);
    if !ok { return Refused; }
    if !IsBlank(plane.live) { StampedIsHeld(store.digestOf, store.table, revision.value, now); }
    store.MarkDeployed(id, now);
    r := Pushed(id);
  }

  method RenameRevision(store: RevisionStore, id: nat, note: Option<string>) returns (r: Outcome)
    requires store.Valid()
    modifies store
    ensures store.Valid()
    ensures store.table == old(store.table).(rows := SetNote(old(store.table).rows, id, NormalizeNote(note)))
    ensures r == if exists row :: row in old(store.table).rows && row.id == id then Renamed(id) else NoSuchRevision
  {
    var found := store.UpdateNote(id, note);
    r := if found then Renamed(id) else NoSuchRevision;
  }

  /** Deleting a revision leaves the control plane alone, even when it was the live one. */
  method RemoveRevision(store: RevisionStore, id: nat) returns (r: Outcome)
    requires store.Valid()
    modifies store
    ensures store.Valid()
    ensures forall row :: row in store.table.rows <==> row in old(store.table).rows && row.id != id
    ensures store.table == old(store.table).(rows := Remove(old(store.table).rows, id))
    ensures r == if exists row :: row in old(store.table).rows && row.id == id then Removed(id) else NoSuchRevision
  {
    var revision := ById(store.table.rows, id);
    var found := store.DeleteRevision(id);
    r := if revision.Some? && found then Removed(id) else NoSuchRevision;
  }

  /** Pushes the editor's document and then remembers it: afterwards it is stamped and alone live. */
  method SavePolicy(store: RevisionStore, plane: ControlPlane, document: string, actor: string,
                    accepted: bool, now: int)
    returns (r: Outcome)
    requires store.Valid() && Injective(store.digestOf)
    modifies store, plane
    ensures store.Valid()
    ensures r.Pushed? <==> accepted && !IsBlank(document)
    ensures r == EmptyDocument <==> IsBlank(document)
    ensures !r.Pushed? ==> store.table == old(store.table) && plane.live == old(plane.live)
    ensures r.Pushed? ==>
              && plane.live == document
              && store.table == Remembered(old(store.table), store.digestOf, document, actor, None, Some(now), now)
              && OnlyLive(store.digestOf, store.table, document, r.id)
              && exists row :: HoldsOnce(store.table, document, row) && row.lastDeployedAt == Some(now)
  {
    if IsBlank(document) { return EmptyDocument; }
    var ok := plane.Push(document, accepted);
    if !ok { return Refused; }
    var row, _ := store.RememberRevision(document, actor, None, Some(now), now);
    HeldIsOnlyLive(store.digestOf, store.table, document, row);
    r := Pushed(row.id);
  }

  /** The page that shows the history first keeps what it found on the control plane. */
  method CaptureBaseline(store: RevisionStore, plane: ControlPlane, now: int)
    requires store.Valid() && Injective(store.digestOf)
    modifies store
    ensures store.Valid()
    ensures IsBlank(plane.live) ==> store.table == old(store.table)
    ensures !IsBlank(plane.live) ==>
              && store.table == Remembered(old(store.table), store.digestOf, plane.live, "headscale",
                                           Some("as found on the control plane"), None, now)
              && exists id :: OnlyLive(store.digestOf, store.table, plane.live, id)
  {
    if IsBlank(plane.live) { return; }
    var row, _ := store.RememberRevision(plane.live, "headscale", Some("as found on the control plane"), None, now);
    HeldIsOnlyLive(store.digestOf, store.table, plane.live, row);
  }

  // ------------------------------------------------------------ what remembering leaves alone

  /** Remembering never changes a stored document, its author or its first note, and removes nothing. */
  lemma RememberingKeepsRows(t: Table, h: Digest, document: string, actor: string,
                                                note: Option<string>, deployedAt: Option<int>, now: int, r: Row)
    requires Sound(h, t) && r in t.rows
    ensures var after := Remembered(t, h, document, actor, note, deployedAt, now).rows;
            || r in after
            || (deployedAt.Some? && r.digest == h(document) && r.(lastDeployedAt := deployedAt) in after)
  {
    var existing := ByDigest(t.rows, h(document));
    var i :| 0 <= i < |t.rows| && t.rows[i] == r;
    SameDocumentSameRow(h, t);
    if existing.None? {
      assert (t.rows + [Row(t.nextId, now, actor, document, h(document), NormalizeNote(note), deployedAt)])[i] == r;
    } else if deployedAt.Some? {
      assert Stamp(t.rows, existing.value.id, deployedAt.value)[i]
             == if r.id == existing.value.id then r.(lastDeployedAt := deployedAt) else r;
    }
  }

  /** Remembering a document twice stores it once. */
  lemma RememberingTwice(t: Table, h: Digest, document: string, actor: string, note: Option<string>,
                                            other: string, second: Option<string>, deployedAt: Option<int>, now: int, later: int)
    ensures var once := Remembered(t, h, document, actor, note, deployedAt, now);
            Remembered(once, h, document, other, second, None, later) == once
  {
    var once := Remembered(t, h, document, actor, note, deployedAt, now);
    var existing := ByDigest(t.rows, h(document));
    if existing.None? {
      assert once.rows[|t.rows|].digest == h(document);
    } else if deployedAt.Some? {
      StampFinds(h, t.rows, existing.value, deployedAt.value);
    }
  }
}
