/** The stored policy revisions, keyed by the digest of the document. */
module Revisions {
  import opened Text

  datatype Row = Row(id: nat, createdAt: int, actor: string, document: string, digest: string,
                     note: Option<string>, lastDeployedAt: Option<int>)

  /** The rows in the order they were inserted, and the next id, which is never handed out twice. */
  datatype Table = Table(rows: seq<Row>, nextId: nat)

  /** A digest of documents; two documents are told apart by it when it is injective. */
  type Digest = string -> string

  ghost predicate Injective(h: Digest) {
    forall a, b | h(a) == h(b) :: a == b
  }

  /** Ids and digests are unique, and each digest is that of the row's document. */
  ghost predicate Sound(h: Digest, t: Table) {
    && (forall i, j | 0 <= i < j < |t.rows| :: t.rows[i].id != t.rows[j].id)
    && (forall i, j | 0 <= i < j < |t.rows| :: t.rows[i].digest != t.rows[j].digest)
    && (forall r | r in t.rows :: r.id < t.nextId && r.digest == h(r.document))
  }

  const NOTE_MAX_LENGTH := 120

  /** A note a row can show, or None when it is blank. */
  function NormalizeNote(raw: Option<string>): (note: Option<string>)
    ensures note.Some? <==> raw.Some? && !IsBlank(raw.value)
    ensures note.Some? ==> 0 < |note.value| <= NOTE_MAX_LENGTH && note.value <= Trim(raw.value)
  {
    if raw.None? || IsBlank(raw.value) then None
    else
      var trimmed := Trim(raw.value);
      Some(if |trimmed| <= NOTE_MAX_LENGTH then trimmed else trimmed[..NOTE_MAX_LENGTH])
  }

  datatype RevisionState = Live | Deployed | Draft

  function StateOf(r: Row, liveDigest: Option<string>): RevisionState {
    if liveDigest == Some(r.digest) then Live
    else if r.lastDeployedAt.Some? then Deployed
    else Draft
  }

  // ------------------------------------------------------------------- SQL statements

  function ById(rows: seq<Row>, id: nat): (r: Option<Row>)
    ensures r.Some? ==> r.value in rows && r.value.id == id
    ensures r.None? ==> forall x | x in rows :: x.id != id
  {
    if rows == [] then None
    else if rows[0].id == id then Some(rows[0])
    else ById(rows[1..], id)
  }

  function ByDigest(rows: seq<Row>, digest: string): (r: Option<Row>)
    ensures r.Some? ==> r.value in rows && r.value.digest == digest
    ensures r.None? ==> forall x | x in rows :: x.digest != digest
  {
    if rows == [] then None
    else if rows[0].digest == digest then Some(rows[0])
    else ByDigest(rows[1..], digest)
  }

  /** `UPDATE … SET last_deployed_at = at WHERE id = id`. */
  function Stamp(rows: seq<Row>, id: nat, at: int): (out: seq<Row>)
    ensures |out| == |rows|
    ensures forall i | 0 <= i < |rows| ::
              out[i] == if rows[i].id == id then rows[i].(lastDeployedAt := Some(at)) else rows[i]
  {
    seq(|rows|, i requires 0 <= i < |rows| =>
      if rows[i].id == id then rows[i].(lastDeployedAt := Some(at)) else rows[i])
  }

  /** `UPDATE … SET note = note WHERE id = id`. */
  function SetNote(rows: seq<Row>, id: nat, note: Option<string>): (out: seq<Row>)
    ensures |out| == |rows|
    ensures forall i | 0 <= i < |rows| ::
              out[i] == if rows[i].id == id then rows[i].(note := note) else rows[i]
  {
    seq(|rows|, i requires 0 <= i < |rows| => if rows[i].id == id then rows[i].(note := note) else rows[i])
  }

  /** `DELETE … WHERE id = id`. */
  function Remove(rows: seq<Row>, id: nat): seq<Row> {
    if rows == [] then []
    else (if rows[0].id == id then [] else [rows[0]]) + Remove(rows[1..], id)
  }

  /** `INSERT`, which the unique index on the digest may refuse. */
  function Insert(t: Table, h: Digest, document: string, actor: string, note: Option<string>,
                  deployedAt: Option<int>, now: int): Option<Table>
  {
    if ByDigest(t.rows, h(document)).Some? then None
    else Some(Table(t.rows + [Row(t.nextId, now, actor, document, h(document), NormalizeNote(note), deployedAt)],
                    t.nextId + 1))
  }

  // ------------------------------------------------------- every statement keeps the table sound

  lemma StampSound(h: Digest, t: Table, id: nat, at: int)
    requires Sound(h, t)
    ensures Sound(h, t.(rows := Stamp(t.rows, id, at)))
  {
    var out := Stamp(t.rows, id, at);
    forall r | r in out ensures r.id < t.nextId && r.digest == h(r.document) {
      var i :| 0 <= i < |out| && out[i] == r;
      assert t.rows[i] in t.rows;
    }
  }

  lemma SetNoteSound(h: Digest, t: Table, id: nat, note: Option<string>)
    requires Sound(h, t)
    ensures Sound(h, t.(rows := SetNote(t.rows, id, note)))
  {
    var out := SetNote(t.rows, id, note);
    forall r | r in out ensures r.id < t.nextId && r.digest == h(r.document) {
      var i :| 0 <= i < |out| && out[i] == r;
      assert t.rows[i] in t.rows;
    }
  }

  lemma {:induction false} RemoveKeeps(rows: seq<Row>, id: nat)
    ensures forall r :: r in Remove(rows, id) <==> r in rows && r.id != id
  {
    if rows != [] {
      RemoveKeeps(rows[1..], id);
      assert rows == [rows[0]] + rows[1..];
    }
  }

  lemma PrependSound(h: Digest, row: Row, t: Table)
    requires Sound(h, t) && row.id < t.nextId && row.digest == h(row.document)
    requires forall r | r in t.rows :: r.id != row.id && r.digest != row.digest
    ensures Sound(h, t.(rows := [row] + t.rows))
  {
    assert forall i | 0 <= i < |t.rows| :: t.rows[i] in t.rows;
  }

  lemma RestSound(h: Digest, t: Table)
    requires Sound(h, t) && t.rows != []
    ensures Sound(h, t.(rows := t.rows[1..]))
    ensures forall r | r in t.rows[1..] :: r.id != t.rows[0].id && r.digest != t.rows[0].digest
  {
    forall r | r in t.rows[1..] ensures r.id != t.rows[0].id && r.digest != t.rows[0].digest {
      var i :| 0 <= i < |t.rows[1..]| && t.rows[1..][i] == r;
      assert t.rows[i + 1] == r;
    }
  }

  lemma {:induction false} RemoveSound(h: Digest, t: Table, id: nat)
    requires Sound(h, t)
    ensures Sound(h, t.(rows := Remove(t.rows, id)))
    decreases |t.rows|
  {
    if t.rows != [] {
      var rest := t.(rows := t.rows[1..]);
      RestSound(h, t);
      RemoveSound(h, rest, id);
      RemoveKeeps(rest.rows, id);
      if t.rows[0].id != id {
        PrependSound(h, t.rows[0], t.(rows := Remove(rest.rows, id)));
      } else {
        assert Remove(t.rows, id) == Remove(rest.rows, id);
      }
    }
  }

  lemma InsertSound(h: Digest, t: Table, document: string, actor: string, note: Option<string>,
                                       deployedAt: Option<int>, now: int)
    requires Sound(h, t)
    ensures var out := Insert(t, h, document, actor, note, deployedAt, now);
            out.Some? ==> Sound(h, out.value)
  {
    var out := Insert(t, h, document, actor, note, deployedAt, now);
    if out.Some? {
      forall i | 0 <= i < |t.rows|
        ensures t.rows[i].id != t.nextId && t.rows[i].digest != h(document)
      {
        assert t.rows[i] in t.rows;
      }
    }
  }

  /** Whatever the control plane serves, at most one row is live. */
  lemma AtMostOneLive(h: Digest, t: Table, liveDigest: Option<string>, r: Row, s: Row)
    requires Sound(h, t) && r in t.rows && s in t.rows
    requires StateOf(r, liveDigest) == Live && StateOf(s, liveDigest) == Live
    ensures r == s
  {
    var i :| 0 <= i < |t.rows| && t.rows[i] == r;
    var j :| 0 <= j < |t.rows| && t.rows[j] == s;
    if i < j { assert false; }
    if j < i { assert false; }
  }

  // ----------------------------------------------------------------------- the store

  /** The table after a document is remembered: stamped if it is there already, else inserted. */
  function Remembered(t: Table, h: Digest, document: string, actor: string, note: Option<string>,
                      deployedAt: Option<int>, now: int): Table
  {
    var existing := ByDigest(t.rows, h(document));
    if existing.None? then
      Table(t.rows + [Row(t.nextId, now, actor, document, h(document), NormalizeNote(note), deployedAt)], t.nextId + 1)
    else if deployedAt.Some? then t.(rows := Stamp(t.rows, existing.value.id, deployedAt.value))
    else t
  }

  /** The one row that holds a document, if any. */
  ghost predicate HoldsOnce(t: Table, document: string, row: Row) {
    row in t.rows && row.document == document && forall r | r in t.rows && r.document == document :: r == row
  }

  class RevisionStore {
    const digestOf: Digest
    var table: Table

    ghost predicate Valid()
      reads this
    {
      Sound(digestOf, table)
    }

    constructor (digestOf: Digest)
      ensures Valid() && table == Table([], 1) && this.digestOf == digestOf
    {
      this.digestOf := digestOf;
      table := Table([], 1);
    }

    method MarkDeployed(id: nat, at: int)
      requires Valid()
      modifies this
      ensures Valid() && table == old(table).(rows := Stamp(old(table).rows, id, at))
    {
      StampSound(digestOf, table, id, at);
      table := table.(rows := Stamp(table.rows, id, at));
    }

    /** False when the row is gone. */
    method UpdateNote(id: nat, note: Option<string>) returns (found: bool)
      requires Valid()
      modifies this
      ensures Valid() && found == exists r :: r in old(table).rows && r.id == id
      ensures table == old(table).(rows := SetNote(old(table).rows, id, NormalizeNote(note)))
    {
      if ById(table.rows, id).None? {
        assert SetNote(table.rows, id, NormalizeNote(note)) == table.rows;
        return false;
      }
      SetNoteSound(digestOf, table, id, NormalizeNote(note));
      table := table.(rows := SetNote(table.rows, id, NormalizeNote(note)));
      found := true;
    }

    /** False when the row was already gone. */
    method DeleteRevision(id: nat) returns (found: bool)
      requires Valid()
      modifies this
      ensures Valid() && found == exists r :: r in old(table).rows && r.id == id
      ensures table == old(table).(rows := Remove(old(table).rows, id))
      ensures forall r :: r in table.rows <==> r in old(table).rows && r.id != id
    {
      RemoveKeeps(table.rows, id);
      RemoveSound(digestOf, table, id);
      if ById(table.rows, id).None? {
        NothingToRemove(table.rows, id);
        return false;
      }
      table := table.(rows := Remove(table.rows, id));
      found := true;
    }

    /** Stores a document unless its digest is known; a known one is stamped if it was deployed. */
    method RememberRevision(document: string, actor: string, note: Option<string>,
                            deployedAt: Option<int>, now: int)
      returns (row: Row, created: bool)
      requires Valid() && Injective(digestOf)
      modifies this
      ensures Valid() && table == Remembered(old(table), digestOf, document, actor, note, deployedAt, now)
      ensures HoldsOnce(table, document, row)
      ensures created == !exists r :: r in old(table).rows && r.document == document
      ensures deployedAt.Some? ==> row.lastDeployedAt == deployedAt
    {
      var digest := digestOf(document);
      var existing := ByDigest(table.rows, digest);
      if existing.Some? {
        assert existing.value.document == document;
        ghost var before := table.rows;
        if deployedAt.Some? {
          MarkDeployed(existing.value.id, deployedAt.value);
          StampFinds(digestOf, before, existing.value, deployedAt.value);
        }
        SameDocumentSameRow(digestOf, table);
        row, created := ById(table.rows, existing.value.id).value, false;
        return;
      }
      InsertSound(digestOf, table, document, actor, note, deployedAt, now);
      var inserted := Row(table.nextId, now, actor, document, digest, NormalizeNote(note), deployedAt);
      ghost var before := table.rows;
      table := Table(table.rows + [inserted], table.nextId + 1);
      assert table.rows[|before|] == inserted;
      SameDocumentSameRow(digestOf, table);
      row, created := ByDigest(table.rows, digest).value, true;
    }
  }

  lemma {:induction false} NothingToRemove(rows: seq<Row>, id: nat)
    requires forall r | r in rows :: r.id != id
    ensures Remove(rows, id) == rows
  {
    if rows != [] {
      assert rows[0] in rows;
      NothingToRemove(rows[1..], id);
    }
  }

  lemma SameDocumentSameRow(h: Digest, t: Table)
    requires Sound(h, t)
    ensures forall r, s | r in t.rows && s in t.rows && r.document == s.document :: r == s
    ensures forall r, s | r in t.rows && s in t.rows && r.id == s.id :: r == s
  {
    forall r, s | r in t.rows && s in t.rows && (r.document == s.document || r.id == s.id) ensures r == s {
      var i :| 0 <= i < |t.rows| && t.rows[i] == r;
      var j :| 0 <= j < |t.rows| && t.rows[j] == s;
    }
  }

  lemma StampFinds(h: Digest, rows: seq<Row>, row: Row, at: int)
    requires row in rows
    ensures row.(lastDeployedAt := Some(at)) in Stamp(rows, row.id, at)
  {
    var i :| 0 <= i < |rows| && rows[i] == row;
    assert Stamp(rows, row.id, at)[i] == row.(lastDeployedAt := Some(at));
  }
}
