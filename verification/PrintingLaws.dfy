/** No two trees are printed alike, so reading what was printed is possible at all. */
module PrintingLaws {
  import opened Json
  import opened Hujson
  import opened Printing

  // ------------------------------------------------------------------------- strings

  /** An escape is told from what follows it. */
  lemma EscapeCharUnique(c: char, d: char, x: string, y: string)
    requires EscapeChar(c) + x == EscapeChar(d) + y
    ensures c == d && x == y
  {
    var e, f := EscapeChar(c), EscapeChar(d);
    var t := e + x;
    assert t[0] == e[0] == f[0];
    if e[0] == '\\' {
      assert t[1] == e[1] == f[1];
      if e[1] == 'u' && c != '\\' && d != '\\' {
        assert |e| == 6 && |f| == 6;
        assert e == t[..6] == f;
        SameControl(c, d);
      }
    }
    assert e == f && |e| == |f|;
    assert x == t[|e|..] == y;
  }

  lemma SameControl(c: char, d: char)
    requires c < ' ' && d < ' ' && EscapeChar(c) == EscapeChar(d)
    requires |EscapeChar(c)| == 6
    ensures c == d
  {
    var e, f := EscapeChar(c), EscapeChar(d);
    assert e[4] == HEX[c as int / 16] && f[4] == HEX[d as int / 16];
    assert e[5] == HEX[c as int % 16] && f[5] == HEX[d as int % 16];
    HexUnique(c as int / 16, d as int / 16);
    HexUnique(c as int % 16, d as int % 16);
  }

  lemma HexUnique(i: nat, j: nat)
    requires i < 16 && j < 16 && HEX[i] == HEX[j]
    ensures i == j
  { }

  lemma EscapeCharHead(c: char)
    ensures EscapeChar(c) != "" && EscapeChar(c)[0] != '"'
  { }

  lemma TailKept(w: string, x: string, y: string)
    requires w != ""
    ensures w + x + y == w + (x + y) && (w + x + y)[0] == w[0]
  { }

  lemma EscapeHead(s: string, rest: string)
    requires s != ""
    ensures (Escape(s) + "\"" + rest)[0] != '"'
    ensures Escape(s) + "\"" + rest == EscapeChar(s[0]) + (Escape(s[1..]) + "\"" + rest)
  {
    var first, others := EscapeChar(s[0]), Escape(s[1..]);
    EscapeCharHead(s[0]);
    TailKept(first, others, "\"");
    TailKept(first, others + "\"", rest);
  }

  /** A string ends at its closing quote. */
  lemma {:induction false} BodyUnique(s: string, t: string, a: string, b: string)
    requires Escape(s) + "\"" + a == Escape(t) + "\"" + b
    ensures s == t && a == b
  {
    if s == "" || t == "" {
      if s != "" { EscapeHead(s, a); }
      if t != "" { EscapeHead(t, b); }
      assert Escape(s) + "\"" + a == "\"" + a && Escape(t) + "\"" + b == "\"" + b;
      SameStart("\"", a, b);
    } else {
      EscapeHead(s, a);
      EscapeHead(t, b);
      EscapeCharUnique(s[0], t[0], Escape(s[1..]) + "\"" + a, Escape(t[1..]) + "\"" + b);
      BodyUnique(s[1..], t[1..], a, b);
      assert s == [s[0]] + s[1..] && t == [t[0]] + t[1..];
    }
  }

  lemma QuotedUnique(s: string, t: string, a: string, b: string)
    requires QuotedText(s) + a == QuotedText(t) + b
    ensures s == t && a == b
  {
    AfterQuote(Escape(s), a);
    AfterQuote(Escape(t), b);
    BodyUnique(s, t, a, b);
  }

  lemma AfterQuote(body: string, a: string)
    ensures ("\"" + body + "\"" + a)[1..] == body + "\"" + a
  { }

  // --------------------------------------------------------------------------- trees

  /** What can follow a printed value. */
  predicate Ended(a: string) {
    a == "" || a[0] == ',' || a[0] == '\n'
  }

  /** The length of the run of number characters that a text begins with. */
  function NumberRun(s: string): nat {
    if s == "" || !IsNumberText(s[..1]) then 0 else 1 + NumberRun(s[1..])
  }

  lemma {:induction false} NumberEnds(x: string, a: string)
    requires (x == "" || IsNumberText(x)) && Ended(a)
    ensures NumberRun(x + a) == |x|
  {
    if x == "" {
      assert x + a == a;
      assert a != "" ==> a[0] in a[..1];
    } else {
      assert x[0] in x && forall c | c in x[1..] :: c in x;
      assert (x + a)[1..] == x[1..] + a && (x + a)[..1] == [x[0]];
      NumberEnds(x[1..], a);
    }
  }

  lemma NumberUnique(x: NumberText, y: NumberText, a: string, b: string)
    requires x + a == y + b && Ended(a) && Ended(b)
    ensures x == y && a == b
  {
    NumberEnds(x, a);
    NumberEnds(y, b);
    assert x == (x + a)[..|x|] == (y + b)[..|y|] == y;
    SameStart(x, a, b);
  }

  /** The first character tells what kind of value it is. */
  lemma Head(v: Value, depth: nat)
    ensures PrintText(v, depth) != ""
    ensures var c := PrintText(v, depth)[0];
            && (v.Null? <==> c == 'n')
            && (v == Bool(true) <==> c == 't')
            && (v == Bool(false) <==> c == 'f')
            && (v.Str? <==> c == '"')
            && (v.Arr? <==> c == '[')
            && (v.Obj? <==> c == '{')
  {
    if v.Number? { assert v.text[0] in v.text; }
  }

  /** The print of a value, followed by something, spells that value and no other. */
  lemma {:induction false} TextUnique(v: Value, w: Value, depth: nat, a: string, b: string)
    requires PrintText(v, depth) + a == PrintText(w, depth) + b && Ended(a) && Ended(b)
    ensures v == w && a == b
    decreases v, 0
  {
    Head(v, depth);
    Head(w, depth);
    assert (PrintText(v, depth) + a)[0] == PrintText(v, depth)[0];
    assert (PrintText(w, depth) + b)[0] == PrintText(w, depth)[0];
    match v {
      case Null => SameStart("null", a, b);
      case Bool(x) => SameStart(PrintText(v, depth), a, b);
      case Number(text) => NumberUnique(text, w.text, a, b);
      case Str(s) => QuotedUnique(s, w.s, a, b);
      case Arr(items) => ArrUnique(items, w.items, depth, a, b);
      case Obj(ms) => ObjUnique(ms, w.members, depth, a, b);
    }
  }

  lemma {:induction false} ArrUnique(xs: seq<Value>, ys: seq<Value>, depth: nat, a: string, b: string)
    requires PrintText(Arr(xs), depth) + a == PrintText(Arr(ys), depth) + b
    ensures xs == ys && a == b
    decreases xs, 2
  {
    var close := NewLine(depth) + "]";
    if xs != [] {
      ItemsFirst(xs, depth + 1);
      PastOpen("[", PrintItems(xs, depth + 1), close, a);
    }
    if ys != [] {
      ItemsFirst(ys, depth + 1);
      PastOpen("[", PrintItems(ys, depth + 1), close, b);
    }
    if xs == [] || ys == [] {
      assert (PrintText(Arr(xs), depth) + a)[1] == if xs == [] then ']' else '\n';
      assert (PrintText(Arr(ys), depth) + b)[1] == if ys == [] then ']' else '\n';
      SameStart("[]", a, b);
    } else {
      ItemsUnique(xs, ys, depth + 1, close + a, close + b);
      SameStart(close, a, b);
    }
  }

  lemma {:induction false} ObjUnique(xs: Members, ys: Members, depth: nat, a: string, b: string)
    requires PrintText(Obj(xs), depth) + a == PrintText(Obj(ys), depth) + b
    ensures xs == ys && a == b
    decreases xs, 2
  {
    var close := NewLine(depth) + "}";
    if xs != [] {
      MembersFirst(xs, depth + 1);
      PastOpen("{", PrintMembers(xs, depth + 1), close, a);
    }
    if ys != [] {
      MembersFirst(ys, depth + 1);
      PastOpen("{", PrintMembers(ys, depth + 1), close, b);
    }
    if xs == [] || ys == [] {
      assert (PrintText(Obj(xs), depth) + a)[1] == if xs == [] then '}' else '\n';
      assert (PrintText(Obj(ys), depth) + b)[1] == if ys == [] then '}' else '\n';
      SameStart("{}", a, b);
    } else {
      MembersUnique(xs, ys, depth + 1, close + a, close + b);
      SameStart(close, a, b);
    }
  }

  lemma PastOpen(open: string, middle: string, close: string, a: string)
    requires |open| == 1
    ensures (open + middle + close + a)[1..] == middle + (close + a)
  { }

  lemma ItemsFirst(xs: seq<Value>, depth: nat)
    requires xs != []
    ensures PrintItems(xs, depth) != "" && PrintItems(xs, depth)[0] == '\n'
  { }

  lemma MembersFirst(ms: Members, depth: nat)
    requires ms != []
    ensures PrintMembers(ms, depth) != "" && PrintMembers(ms, depth)[0] == '\n'
  {
    assert PrintMember(ms[0], depth)[0] == '\n';
  }

  /** What follows the first of several items. */
  function ItemsRest(xs: seq<Value>, depth: nat, a: string): string
    requires xs != []
  {
    if |xs| == 1 then a else "," + (PrintItems(xs[1..], depth) + a)
  }

  lemma ItemsSplit(xs: seq<Value>, depth: nat, a: string)
    requires xs != []
    ensures PrintItems(xs, depth) + a == NewLine(depth) + (PrintText(xs[0], depth) + ItemsRest(xs, depth, a))
  { }

  lemma FollowerItems(xs: seq<Value>, depth: nat, a: string)
    requires xs != [] && a != "" && a[0] == '\n'
    ensures var rest := ItemsRest(xs, depth, a); rest != "" && Ended(rest) && (rest[0] == ',' <==> |xs| > 1)
  { }

  lemma {:induction false} ItemsUnique(xs: seq<Value>, ys: seq<Value>, depth: nat, a: string, b: string)
    requires xs != [] && ys != [] && PrintItems(xs, depth) + a == PrintItems(ys, depth) + b
    requires a != "" && b != "" && a[0] == b[0] == '\n'
    ensures xs == ys && a == b
    decreases xs, 1
  {
    var restX, restY := ItemsRest(xs, depth, a), ItemsRest(ys, depth, b);
    ItemsSplit(xs, depth, a);
    ItemsSplit(ys, depth, b);
    FollowerItems(xs, depth, a);
    FollowerItems(ys, depth, b);
    SameStart(NewLine(depth), PrintText(xs[0], depth) + restX, PrintText(ys[0], depth) + restY);
    TextUnique(xs[0], ys[0], depth, restX, restY);
    if |xs| > 1 {
      SameStart(",", PrintItems(xs[1..], depth) + a, PrintItems(ys[1..], depth) + b);
      ItemsUnique(xs[1..], ys[1..], depth, a, b);
    }
    assert xs == [xs[0]] + xs[1..] && ys == [ys[0]] + ys[1..];
  }

  function MembersRest(ms: Members, depth: nat, a: string): string
    requires ms != []
  {
    if |ms| == 1 then a else "," + (PrintMembers(ms[1..], depth) + a)
  }

  lemma MembersSplit(ms: Members, depth: nat, a: string)
    requires ms != []
    ensures PrintMembers(ms, depth) + a
            == NewLine(depth)
               + (QuotedText(ms[0].0) + (": " + (PrintText(ms[0].1, depth) + MembersRest(ms, depth, a))))
  {
    var member, rest := PrintMember(ms[0], depth), MembersRest(ms, depth, a);
    if |ms| > 1 { JoinedRight(member, ",", PrintMembers(ms[1..], depth), a); }
    MemberJoined(NewLine(depth), QuotedText(ms[0].0), PrintText(ms[0].1, depth), rest);
  }

  lemma JoinedRight(w: string, x: string, y: string, z: string)
    ensures w + (x + y) + z == w + (x + (y + z))
  { }

  lemma MemberJoined(line: string, key: string, value: string, rest: string)
    ensures line + key + ": " + value + rest == line + (key + (": " + (value + rest)))
  { }

  lemma FollowerMembers(xs: Members, depth: nat, a: string)
    requires xs != [] && a != "" && a[0] == '\n'
    ensures var rest := MembersRest(xs, depth, a); rest != "" && Ended(rest) && (rest[0] == ',' <==> |xs| > 1)
  { }

  lemma {:induction false} MembersUnique(xs: Members, ys: Members, depth: nat, a: string, b: string)
    requires xs != [] && ys != [] && PrintMembers(xs, depth) + a == PrintMembers(ys, depth) + b
    requires a != "" && b != "" && a[0] == b[0] == '\n'
    ensures xs == ys && a == b
    decreases xs, 1
  {
    var restX, restY := MembersRest(xs, depth, a), MembersRest(ys, depth, b);
    MembersSplit(xs, depth, a);
    MembersSplit(ys, depth, b);
    FollowerMembers(xs, depth, a);
    FollowerMembers(ys, depth, b);
    MemberUnique(xs[0], ys[0], depth, restX, restY);
    if |xs| > 1 {
      SameStart(",", PrintMembers(xs[1..], depth) + a, PrintMembers(ys[1..], depth) + b);
      MembersUnique(xs[1..], ys[1..], depth, a, b);
    }
    assert xs == [xs[0]] + xs[1..] && ys == [ys[0]] + ys[1..];
  }

  lemma {:induction false} MemberUnique(m: (string, Value), n: (string, Value), depth: nat, a: string, b: string)
    requires NewLine(depth) + (QuotedText(m.0) + (": " + (PrintText(m.1, depth) + a)))
             == NewLine(depth) + (QuotedText(n.0) + (": " + (PrintText(n.1, depth) + b)))
    requires Ended(a) && Ended(b)
    ensures m == n && a == b
    decreases m, 1
  {
    var x, y := ": " + (PrintText(m.1, depth) + a), ": " + (PrintText(n.1, depth) + b);
    SameStart(NewLine(depth), QuotedText(m.0) + x, QuotedText(n.0) + y);
    QuotedUnique(m.0, n.0, x, y);
    SameStart(": ", PrintText(m.1, depth) + a, PrintText(n.1, depth) + b);
    TextUnique(m.1, n.1, depth, a, b);
  }

  /** Printing loses nothing: no two trees are printed alike. */
  lemma PrintedUnique(v: Value, w: Value)
    ensures Printed(v) == Printed(w) <==> v == w
  {
    if Printed(v) == Printed(w) {
      assert Printed(v) + "" == Printed(w) + "";
      TextUnique(v, w, 0, "", "");
    }
  }
}
