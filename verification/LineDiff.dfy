/** The optimal line diff of two documents. */
module LineDiff {
  import opened Text
  import opened Numbers

  datatype DiffKind = Context | Added | Removed

  /** One row of the diff, with the 1-based line numbers it stands for. */
  datatype DiffRow = DiffRow(kind: DiffKind, beforeNo: Option<nat>, afterNo: Option<nat>, text: string)

  type Numbered = seq<(nat, string)>

  function LinesOf(document: string): seq<string> {
    if document == "" then [] else Split(document, '\n')
  }

  lemma LinesDetermine(x: string, y: string)
    ensures LinesOf(x) == LinesOf(y) <==> x == y
  {
    JoinSplit(x, '\n');
    JoinSplit(y, '\n');
  }

  // ----------------------------------------------------------------- edit scripts

  /** A row carries exactly the numbers of the documents it has a line in. */
  predicate WellShaped(row: DiffRow) {
    && (row.beforeNo.Some? <==> row.kind != Added)
    && (row.afterNo.Some? <==> row.kind != Removed)
  }

  /** The lines of the old document that the rows spell, with their numbers. */
  function OldSide(rows: seq<DiffRow>): Numbered {
    if rows == [] then []
    else (if rows[0].beforeNo.Some? then [(rows[0].beforeNo.value, rows[0].text)] else []) + OldSide(rows[1..])
  }

  function NewSide(rows: seq<DiffRow>): Numbered {
    if rows == [] then []
    else (if rows[0].afterNo.Some? then [(rows[0].afterNo.value, rows[0].text)] else []) + NewSide(rows[1..])
  }

  function CountOf(rows: seq<DiffRow>, kind: DiffKind): nat {
    if rows == [] then 0 else (if rows[0].kind == kind then 1 else 0) + CountOf(rows[1..], kind)
  }

  function Changes(rows: seq<DiffRow>): nat {
    CountOf(rows, Added) + CountOf(rows, Removed)
  }

  /** The lines from index `i` on, numbered from 1. */
  function NumberedFrom(lines: seq<string>, i: nat): Numbered
    requires i <= |lines|
    decreases |lines| - i
  {
    if i == |lines| then [] else [(i + 1, lines[i])] + NumberedFrom(lines, i + 1)
  }

  /**
   * The rows are an edit script from line `i` of `a` and line `j` of `b` on: read without
   * the additions they spell the old lines in order, without the removals the new ones.
   */
  predicate IsScriptFrom(rows: seq<DiffRow>, a: seq<string>, b: seq<string>, i: nat, j: nat)
    requires i <= |a| && j <= |b|
  {
    && (forall row | row in rows :: WellShaped(row))
    && OldSide(rows) == NumberedFrom(a, i)
    && NewSide(rows) == NumberedFrom(b, j)
  }

  predicate IsScript(rows: seq<DiffRow>, a: seq<string>, b: seq<string>) {
    IsScriptFrom(rows, a, b, 0, 0)
  }

  lemma {:induction false} AppendRow(rows: seq<DiffRow>, row: DiffRow)
    ensures OldSide(rows + [row]) == OldSide(rows) + OldSide([row])
    ensures NewSide(rows + [row]) == NewSide(rows) + NewSide([row])
    ensures forall kind :: CountOf(rows + [row], kind) == CountOf(rows, kind) + (if row.kind == kind then 1 else 0)
  {
    if rows == [] {
      assert rows + [row] == [row] && [row][1..] == [];
    } else {
      AppendRow(rows[1..], row);
      assert (rows + [row])[1..] == rows[1..] + [row];
    }
  }

  lemma {:induction false} SideLengths(rows: seq<DiffRow>)
    requires forall row | row in rows :: WellShaped(row)
    ensures |OldSide(rows)| == CountOf(rows, Context) + CountOf(rows, Removed)
    ensures |NewSide(rows)| == CountOf(rows, Context) + CountOf(rows, Added)
  {
    if rows != [] {
      assert WellShaped(rows[0]);
      SideLengths(rows[1..]);
    }
  }

  lemma {:induction false} NumberedAt(lines: seq<string>, i: nat)
    requires i <= |lines|
    ensures |NumberedFrom(lines, i)| == |lines| - i
    ensures forall k | i <= k < |lines| :: NumberedFrom(lines, i)[k - i] == (k + 1, lines[k])
    decreases |lines| - i
  {
    if i < |lines| { NumberedAt(lines, i + 1); }
  }

  // ------------------------------------------------ longest common subsequences

  /** What the table holds at `[i][j]`. */
  function Lcs(a: seq<string>, b: seq<string>, i: nat, j: nat): nat
    requires i <= |a| && j <= |b|
    decreases |a| - i + |b| - j
  {
    if i == |a| || j == |b| then 0
    else if a[i] == b[j] then Lcs(a, b, i + 1, j + 1) + 1
    else Larger(Lcs(a, b, i + 1, j), Lcs(a, b, i, j + 1))
  }

  /** The exchange lemma: one more line in front is worth at most one, and never a loss. */
  lemma {:induction false} LcsStep(a: seq<string>, b: seq<string>, i: nat, j: nat)
    requires i <= |a| && j <= |b|
    ensures i < |a| ==> Lcs(a, b, i + 1, j) <= Lcs(a, b, i, j) <= Lcs(a, b, i + 1, j) + 1
    ensures j < |b| ==> Lcs(a, b, i, j + 1) <= Lcs(a, b, i, j) <= Lcs(a, b, i, j + 1) + 1
    decreases |a| - i + |b| - j
  {
    if i < |a| && j < |b| {
      LcsStep(a, b, i + 1, j);
      LcsStep(a, b, i, j + 1);
    }
  }

  /** Peeling the first row off a script leaves a script of the lines after it. */
  lemma ScriptTail(rows: seq<DiffRow>, a: seq<string>, b: seq<string>, i: nat, j: nat) returns (i': nat, j': nat)
    requires i <= |a| && j <= |b| && IsScriptFrom(rows, a, b, i, j) && rows != []
    ensures i' == (if rows[0].kind == Added then i else i + 1) <= |a|
    ensures j' == (if rows[0].kind == Removed then j else j + 1) <= |b|
    ensures rows[0].kind != Added ==> rows[0].text == a[i]
    ensures rows[0].kind != Removed ==> rows[0].text == b[j]
    ensures IsScriptFrom(rows[1..], a, b, i', j')
  {
    assert WellShaped(rows[0]);
    i' := if rows[0].kind == Added then i else i + 1;
    j' := if rows[0].kind == Removed then j else j + 1;
    if i' > i {
      assert OldSide(rows)[1..] == OldSide(rows[1..]) && NumberedFrom(a, i)[1..] == NumberedFrom(a, i');
    }
    if j' > j {
      assert NewSide(rows)[1..] == NewSide(rows[1..]) && NumberedFrom(b, j)[1..] == NumberedFrom(b, j');
    }
  }

  /** No edit script keeps more lines than the table says. */
  lemma {:induction false} ScriptKeepsAtMost(rows: seq<DiffRow>, a: seq<string>, b: seq<string>, i: nat, j: nat)
    requires i <= |a| && j <= |b| && IsScriptFrom(rows, a, b, i, j)
    ensures CountOf(rows, Context) <= Lcs(a, b, i, j)
  {
    if rows != [] {
      LcsStep(a, b, i, j);
      var i', j' := ScriptTail(rows, a, b, i, j);
      ScriptKeepsAtMost(rows[1..], a, b, i', j');
    }
  }

  predicate IsSubsequence(c: seq<string>, s: seq<string>) {
    c == [] || (s != [] && ((c[0] == s[0] && IsSubsequence(c[1..], s[1..])) || IsSubsequence(c, s[1..])))
  }

  lemma {:induction false} TailIsSubsequence(c: seq<string>, s: seq<string>)
    requires c != [] && IsSubsequence(c, s)
    ensures IsSubsequence(c[1..], s)
  {
    if c[1..] != [] {
      if IsSubsequence(c, s[1..]) {
        TailIsSubsequence(c, s[1..]);
      }
    }
  }

  /** No common subsequence is longer than the table says. */
  lemma {:induction false} CommonIsAtMost(c: seq<string>, a: seq<string>, b: seq<string>, i: nat, j: nat)
    requires i <= |a| && j <= |b| && IsSubsequence(c, a[i..]) && IsSubsequence(c, b[j..])
    ensures |c| <= Lcs(a, b, i, j)
    decreases |a| - i + |b| - j
  {
    if c != [] {
      assert a[i..][1..] == a[i + 1..] && b[j..][1..] == b[j + 1..];
      if a[i] != b[j] {
        if c[0] != a[i] { CommonIsAtMost(c, a, b, i + 1, j); } else { CommonIsAtMost(c, a, b, i, j + 1); }
      } else if c[0] != a[i] {
        CommonIsAtMost(c, a, b, i + 1, j + 1);
      } else {
        if IsSubsequence(c, a[i + 1..]) { TailIsSubsequence(c, a[i + 1..]); }
        if IsSubsequence(c, b[j + 1..]) { TailIsSubsequence(c, b[j + 1..]); }
        CommonIsAtMost(c[1..], a, b, i + 1, j + 1);
      }
    }
  }

  /** The lines a script keeps. */
  function KeptText(rows: seq<DiffRow>): seq<string> {
    if rows == [] then []
    else (if rows[0].kind == Context then [rows[0].text] else []) + KeptText(rows[1..])
  }

  lemma {:induction false} KeptIsCommon(rows: seq<DiffRow>, a: seq<string>, b: seq<string>, i: nat, j: nat)
    requires i <= |a| && j <= |b| && IsScriptFrom(rows, a, b, i, j)
    ensures |KeptText(rows)| == CountOf(rows, Context)
    ensures IsSubsequence(KeptText(rows), a[i..]) && IsSubsequence(KeptText(rows), b[j..])
  {
    if rows != [] {
      var i', j' := ScriptTail(rows, a, b, i, j);
      KeptIsCommon(rows[1..], a, b, i', j');
      if i' > i { assert a[i..][1..] == a[i'..] && a[i..][0] == a[i]; }
      if j' > j { assert b[j..][1..] == b[j'..] && b[j..][0] == b[j]; }
      if rows[0].kind == Context {
        assert KeptText(rows)[1..] == KeptText(rows[1..]);
      } else {
        assert KeptText(rows) == KeptText(rows[1..]);
      }
    }
  }

  /**
   * A script that keeps as many lines as the table promises keeps a longest common
   * subsequence, and no script makes fewer changes.
   */
  lemma {:induction false} ScriptIsOptimal(rows: seq<DiffRow>, a: seq<string>, b: seq<string>)
    requires IsScript(rows, a, b) && CountOf(rows, Context) == Lcs(a, b, 0, 0)
    ensures IsSubsequence(KeptText(rows), a) && IsSubsequence(KeptText(rows), b)
    ensures forall c | IsSubsequence(c, a) && IsSubsequence(c, b) :: |c| <= |KeptText(rows)|
    ensures forall rows' | IsScript(rows', a, b) :: Changes(rows) <= Changes(rows')
  {
    assert a[0..] == a && b[0..] == b;
    KeptIsCommon(rows, a, b, 0, 0);
    forall c | IsSubsequence(c, a) && IsSubsequence(c, b) ensures |c| <= |KeptText(rows)| {
      CommonIsAtMost(c, a, b, 0, 0);
    }
    SideLengths(rows);
    forall rows' | IsScript(rows', a, b) ensures Changes(rows) <= Changes(rows') {
      ScriptKeepsAtMost(rows', a, b, 0, 0);
      SideLengths(rows');
    }
  }

  /** A script without changes spells the same lines twice; equal lines need no change. */
  lemma {:induction false} NoChangesMeansEqual(rows: seq<DiffRow>, a: seq<string>, b: seq<string>)
    requires IsScript(rows, a, b) && CountOf(rows, Context) == Lcs(a, b, 0, 0)
    ensures Changes(rows) == 0 <==> a == b
  {
    SideLengths(rows);
    NumberedAt(a, 0);
    NumberedAt(b, 0);
    if Changes(rows) == 0 {
      UnchangedSides(rows);
      forall k | 0 <= k < |a| ensures a[k] == b[k] {
        assert NumberedFrom(a, 0)[k] == (k + 1, a[k]) && NumberedFrom(b, 0)[k] == (k + 1, b[k]);
      }
    }
    if a == b { LcsOfItself(a, 0); }
  }

  lemma {:induction false} UnchangedSides(rows: seq<DiffRow>)
    requires forall row | row in rows :: WellShaped(row)
    requires Changes(rows) == 0
    ensures |OldSide(rows)| == |NewSide(rows)|
    ensures forall k | 0 <= k < |OldSide(rows)| :: OldSide(rows)[k].1 == NewSide(rows)[k].1
  {
    if rows != [] {
      assert WellShaped(rows[0]);
      UnchangedSides(rows[1..]);
    }
  }

  lemma {:induction false} LcsOfItself(a: seq<string>, i: nat)
    requires i <= |a|
    ensures Lcs(a, a, i, i) == |a| - i
    decreases |a| - i
  {
    if i < |a| { LcsOfItself(a, i + 1); }
  }

  // ------------------------------------------------------------------ the algorithm

  /** Row `i` and all rows below it hold what they should. */
  ghost predicate FilledFrom(lcs: array2<nat>, a: seq<string>, b: seq<string>, i: nat)
    requires lcs.Length0 == |a| + 1 && lcs.Length1 == |b| + 1 && i <= |a|
    reads lcs
  {
    forall x, y | i <= x <= |a| && 0 <= y <= |b| :: lcs[x, y] == Lcs(a, b, x, y)
  }

  /** The table, filled from the last lines backwards. */
  method FillTable(a: seq<string>, b: seq<string>) returns (lcs: array2<nat>)
    ensures fresh(lcs) && lcs.Length0 == |a| + 1 && lcs.Length1 == |b| + 1
    ensures FilledFrom(lcs, a, b, 0)
  {
    var n, m := |a|, |b|;
    lcs := new nat[n + 1, m + 1]((_, _) => 0);
    for i := n downto 0
      invariant FilledFrom(lcs, a, b, i)
      invariant forall x | 0 <= x <= n :: lcs[x, m] == 0
    {
      FillRow(a, b, lcs, i);
    }
  }

  method FillRow(a: seq<string>, b: seq<string>, lcs: array2<nat>, i: nat)
    requires lcs.Length0 == |a| + 1 && lcs.Length1 == |b| + 1 && i < |a|
    requires FilledFrom(lcs, a, b, i + 1)
    requires forall x | 0 <= x <= |a| :: lcs[x, |b|] == 0
    modifies lcs
    ensures FilledFrom(lcs, a, b, i)
    ensures forall x | 0 <= x <= |a| :: lcs[x, |b|] == 0
  {
    var m := |b|;
    for j := m downto 0
      invariant FilledFrom(lcs, a, b, i + 1)
      invariant forall y | j <= y <= m :: lcs[i, y] == Lcs(a, b, i, y)
      invariant forall x | 0 <= x <= |a| :: lcs[x, m] == 0
    {
      lcs[i, j] := if a[i] == b[j] then lcs[i + 1, j + 1] + 1 else Larger(lcs[i + 1, j], lcs[i, j + 1]);
    }
  }

  /** Which of the optimal scripts it is: on a tie the removal comes first. */
  function Greedy(a: seq<string>, b: seq<string>, i: nat, j: nat): seq<DiffRow>
    requires i <= |a| && j <= |b|
    decreases |a| - i + |b| - j
  {
    if i == |a| && j == |b| then []
    else if i < |a| && j < |b| && a[i] == b[j] then
      [DiffRow(Context, Some(i + 1), Some(j + 1), a[i])] + Greedy(a, b, i + 1, j + 1)
    else if j == |b| || (i < |a| && Lcs(a, b, i + 1, j) >= Lcs(a, b, i, j + 1)) then
      [DiffRow(Removed, Some(i + 1), None, a[i])] + Greedy(a, b, i + 1, j)
    else [DiffRow(Added, None, Some(j + 1), b[j])] + Greedy(a, b, i, j + 1)
  }

  /** The rows under construction, with the tallies kept beside them. */
  datatype Walk = Walk(rows: seq<DiffRow>, added: nat, removed: nat)
  {
    function Keep(i: nat, j: nat, text: string): Walk {
      this.(rows := rows + [DiffRow(Context, Some(i + 1), Some(j + 1), text)])
    }

    function Remove(i: nat, text: string): Walk {
      this.(rows := rows + [DiffRow(Removed, Some(i + 1), None, text)], removed := removed + 1)
    }

    function Add(j: nat, text: string): Walk {
      this.(rows := rows + [DiffRow(Added, None, Some(j + 1), text)], added := added + 1)
    }
  }

  /**
   * The rows so far spell the lines before `i` and `j`, the tallies count them, and they
   * have kept as many lines as an optimal script keeps there.
   */
  ghost predicate Walked(w: Walk, a: seq<string>, b: seq<string>, i: nat, j: nat)
    requires i <= |a| && j <= |b|
  {
    && (forall row | row in w.rows :: WellShaped(row))
    && OldSide(w.rows) + NumberedFrom(a, i) == NumberedFrom(a, 0)
    && NewSide(w.rows) + NumberedFrom(b, j) == NumberedFrom(b, 0)
    && CountOf(w.rows, Context) + Lcs(a, b, i, j) == Lcs(a, b, 0, 0)
    && w.added == CountOf(w.rows, Added)
    && w.removed == CountOf(w.rows, Removed)
  }

  /** The rows so far are the beginning of the greedy script. */
  ghost predicate Follows(w: Walk, a: seq<string>, b: seq<string>, i: nat, j: nat)
    requires i <= |a| && j <= |b|
  {
    w.rows + Greedy(a, b, i, j) == Greedy(a, b, 0, 0)
  }

  lemma FollowRow(rows: seq<DiffRow>, row: DiffRow, rest: seq<DiffRow>)
    ensures (rows + [row]) + rest == rows + ([row] + rest)
  {
  }

  lemma WalkKeep(w: Walk, a: seq<string>, b: seq<string>, i: nat, j: nat)
    requires i < |a| && j < |b| && Walked(w, a, b, i, j) && a[i] == b[j]
    ensures Walked(w.Keep(i, j, a[i]), a, b, i + 1, j + 1)
  {
    var row := DiffRow(Context, Some(i + 1), Some(j + 1), a[i]);
    AppendRow(w.rows, row);
    assert OldSide([row]) == [(i + 1, a[i])] && NewSide([row]) == [(j + 1, b[j])];
  }

  lemma WalkRemove(w: Walk, a: seq<string>, b: seq<string>, i: nat, j: nat)
    requires i < |a| && j <= |b| && Walked(w, a, b, i, j) && Lcs(a, b, i, j) == Lcs(a, b, i + 1, j)
    ensures Walked(w.Remove(i, a[i]), a, b, i + 1, j)
  {
    var row := DiffRow(Removed, Some(i + 1), None, a[i]);
    AppendRow(w.rows, row);
    assert OldSide([row]) == [(i + 1, a[i])] && NewSide([row]) == [];
  }

  lemma WalkAdd(w: Walk, a: seq<string>, b: seq<string>, i: nat, j: nat)
    requires i <= |a| && j < |b| && Walked(w, a, b, i, j) && Lcs(a, b, i, j) == Lcs(a, b, i, j + 1)
    ensures Walked(w.Add(j, b[j]), a, b, i, j + 1)
  {
    var row := DiffRow(Added, None, Some(j + 1), b[j]);
    AppendRow(w.rows, row);
    assert OldSide([row]) == [] && NewSide([row]) == [(j + 1, b[j])];
  }

  lemma FollowKeep(w: Walk, a: seq<string>, b: seq<string>, i: nat, j: nat)
    requires i < |a| && j < |b| && Follows(w, a, b, i, j) && a[i] == b[j]
    ensures Follows(w.Keep(i, j, a[i]), a, b, i + 1, j + 1)
  {
    FollowRow(w.rows, DiffRow(Context, Some(i + 1), Some(j + 1), a[i]), Greedy(a, b, i + 1, j + 1));
  }

  lemma {:induction false} FollowRemove(w: Walk, a: seq<string>, b: seq<string>, i: nat, j: nat)
    requires i < |a| && j <= |b| && Follows(w, a, b, i, j)
    requires j < |b| ==> a[i] != b[j] && Lcs(a, b, i + 1, j) >= Lcs(a, b, i, j + 1)
    ensures Follows(w.Remove(i, a[i]), a, b, i + 1, j)
  {
    FollowRow(w.rows, DiffRow(Removed, Some(i + 1), None, a[i]), Greedy(a, b, i + 1, j));
  }

  lemma {:induction false} FollowAdd(w: Walk, a: seq<string>, b: seq<string>, i: nat, j: nat)
    requires i <= |a| && j < |b| && Follows(w, a, b, i, j)
    requires i < |a| ==> a[i] != b[j] && Lcs(a, b, i + 1, j) < Lcs(a, b, i, j + 1)
    ensures Follows(w.Add(j, b[j]), a, b, i, j + 1)
  {
    FollowRow(w.rows, DiffRow(Added, None, Some(j + 1), b[j]), Greedy(a, b, i, j + 1));
  }

  /** The greedy walk, until one of the documents is used up. */
  method WalkTable(a: seq<string>, b: seq<string>, lcs: array2<nat>) returns (w: Walk, i: nat, j: nat)
    requires lcs.Length0 == |a| + 1 && lcs.Length1 == |b| + 1 && FilledFrom(lcs, a, b, 0)
    ensures i <= |a| && j <= |b| && (i == |a| || j == |b|)
    ensures Walked(w, a, b, i, j) && Follows(w, a, b, i, j)
  {
    w, i, j := Walk([], 0, 0), 0, 0;
    while i < |a| && j < |b|
      invariant i <= |a| && j <= |b| && Walked(w, a, b, i, j) && Follows(w, a, b, i, j)
      decreases |a| - i + |b| - j
    {
      if a[i] == b[j] {
        WalkKeep(w, a, b, i, j);
        FollowKeep(w, a, b, i, j);
        w, i, j := w.Keep(i, j, a[i]), i + 1, j + 1;
      } else if lcs[i + 1, j] >= lcs[i, j + 1] {
        WalkRemove(w, a, b, i, j);
        FollowRemove(w, a, b, i, j);
        w, i := w.Remove(i, a[i]), i + 1;
      } else {
        WalkAdd(w, a, b, i, j);
        FollowAdd(w, a, b, i, j);
        w, j := w.Add(j, b[j]), j + 1;
      }
    }
  }

  method DiffLines(before: string, after: string) returns (rows: seq<DiffRow>, added: nat, removed: nat)
    ensures rows == Greedy(LinesOf(before), LinesOf(after), 0, 0)
    ensures IsScript(rows, LinesOf(before), LinesOf(after))
    ensures CountOf(rows, Context) == Lcs(LinesOf(before), LinesOf(after), 0, 0)
    ensures added == CountOf(rows, Added) == |LinesOf(after)| - CountOf(rows, Context)
    ensures removed == CountOf(rows, Removed) == |LinesOf(before)| - CountOf(rows, Context)
    ensures forall rows' | IsScript(rows', LinesOf(before), LinesOf(after)) :: added + removed <= Changes(rows')
    ensures added + removed == 0 <==> before == after
  {
    var a, b := LinesOf(before), LinesOf(after);
    var lcs := FillTable(a, b);
    var w, i, j := WalkTable(a, b, lcs);
    while i < |a|
      invariant i <= |a| && j <= |b| && (i == |a| || j == |b|) && Walked(w, a, b, i, j) && Follows(w, a, b, i, j)
    {
      WalkRemove(w, a, b, i, j);
      FollowRemove(w, a, b, i, j);
      w, i := w.Remove(i, a[i]), i + 1;
    }
    while j < |b|
      invariant i == |a| && j <= |b| && Walked(w, a, b, i, j) && Follows(w, a, b, i, j)
    {
      WalkAdd(w, a, b, i, j);
      FollowAdd(w, a, b, i, j);
      w, j := w.Add(j, b[j]), j + 1;
    }
    WalkedThrough(w, a, b);
    LinesDetermine(before, after);
    rows, added, removed := w.rows, w.added, w.removed;
  }

  /** A walk to the end of both documents is an optimal script. */
  lemma {:induction false} WalkedThrough(w: Walk, a: seq<string>, b: seq<string>)
    requires Walked(w, a, b, |a|, |b|) && Follows(w, a, b, |a|, |b|)
    ensures w.rows == Greedy(a, b, 0, 0)
    ensures IsScript(w.rows, a, b) && CountOf(w.rows, Context) == Lcs(a, b, 0, 0)
    ensures w.added == |b| - CountOf(w.rows, Context)
    ensures w.removed == |a| - CountOf(w.rows, Context)
    ensures forall rows' | IsScript(rows', a, b) :: w.added + w.removed <= Changes(rows')
    ensures w.added + w.removed == 0 <==> a == b
  {
    SideLengths(w.rows);
    NumberedAt(a, 0);
    NumberedAt(b, 0);
    ScriptIsOptimal(w.rows, a, b);
    NoChangesMeansEqual(w.rows, a, b);
  }
}
