/** A JSON tree as printed, and what stripping does to it. */
module Printing {
  import opened Text
  import opened Json
  import opened Hujson

  // ------------------------------------------------------------------------- strings

  const HEX := "0123456789abcdef"

  /** One character of a printed string: quotes, backslashes and control characters are escaped. */
  function EscapeChar(c: char): string {
    if c == '"' then "\\\""
    else if c == '\\' then "\\\\"
    else if c == '\U{08}' then "\\b"
    else if c == '\t' then "\\t"
    else if c == '\n' then "\\n"
    else if c == '\U{0C}' then "\\f"
    else if c == '\r' then "\\r"
    else if c < ' ' then "\\u00" + [HEX[c as int / 16], HEX[c as int % 16]]
    else [c]
  }

  function Escape(s: string): string {
    if s == "" then "" else EscapeChar(s[0]) + Escape(s[1..])
  }

  lemma {:induction false} PlainBody(a: string, rest: string)
    requires '"' !in a && '\\' !in a && IsBody(rest)
    ensures IsBody(a + rest)
  {
    if a == "" {
      assert a + rest == rest;
    } else {
      assert (a + rest)[1..] == a[1..] + rest;
      assert a[0] in a && forall c | c in a[1..] :: c in a;
      PlainBody(a[1..], rest);
    }
  }

  lemma {:induction false} EscapeCharShape(c: char, rest: string)
    ensures c != ',' ==> ',' !in EscapeChar(c)
    ensures |EscapeChar(c)| > 0 && (EscapeChar(c)[0] == c || EscapeChar(c)[0] == '\\')
    ensures IsSpace(EscapeChar(c)[0]) || EscapeChar(c)[0] == ']' || EscapeChar(c)[0] == '}' ==> EscapeChar(c) == [c]
    ensures IsBody(rest) ==> IsBody(EscapeChar(c) + rest)
  {
    var e := EscapeChar(c);
    if |e| == 2 {
      assert (e + rest)[2..] == rest;
    } else if |e| == 6 {
      assert (e + rest)[2..] == e[2..] + rest;
      if IsBody(rest) { PlainBody(e[2..], rest); }
    } else {
      assert (e + rest)[1..] == rest;
    }
  }

  lemma {:induction false} EscapeIsBody(s: string)
    ensures IsBody(Escape(s))
  {
    if s != "" {
      EscapeIsBody(s[1..]);
      EscapeCharShape(s[0], Escape(s[1..]));
    }
  }

  /** The string stands in a printed text without a comma, white space and a closer in a row. */
  predicate SparedText(s: string) {
    !HoldsTrailingComma(Escape(s))
  }

  /** The string that the comma pass leaves of it. */
  function Eat(s: string): (r: string)
    ensures |r| <= |s|
  {
    if s == "" then ""
    else if s[0] == ',' && CloserAhead(Escape(s[1..])) then Eat(s[1..])
    else [s[0]] + Eat(s[1..])
  }

  /** A text without commas passes through unchanged. */
  lemma {:induction false} DropThrough(a: string, rest: string)
    requires ',' !in a
    ensures DropCommas(a + rest) == a + DropCommas(rest)
  {
    if a == "" {
      assert a + rest == rest;
    } else {
      assert (a + rest)[1..] == a[1..] + rest;
      assert a[0] in a && forall c | c in a[1..] :: c in a;
      DropThrough(a[1..], rest);
      assert [a[0]] + (a[1..] + DropCommas(rest)) == a + DropCommas(rest);
    }
  }

  /** In print the comma pass does to a string what `Eat` does. */
  lemma {:induction false} EatInPrint(s: string)
    ensures DropCommas(Escape(s)) == Escape(Eat(s))
  {
    if s != "" {
      EatInPrint(s[1..]);
      if s[0] == ',' {
        assert EscapeChar(',') == ",";
        assert Escape(s)[1..] == Escape(s[1..]);
        assert ([','] + Eat(s[1..]))[1..] == Eat(s[1..]);
      } else {
        EscapeCharShape(s[0], "");
        DropThrough(EscapeChar(s[0]), Escape(s[1..]));
        assert ([s[0]] + Eat(s[1..]))[1..] == Eat(s[1..]);
      }
    }
  }

  lemma {:induction false} EatShortens(s: string)
    ensures |Escape(Eat(s))| <= |Escape(s)|
    ensures Eat(s) != s ==> |Escape(Eat(s))| < |Escape(s)|
  {
    if s != "" {
      EatShortens(s[1..]);
      EscapeCharShape(s[0], "");
      if !(s[0] == ',' && CloserAhead(Escape(s[1..]))) {
        assert ([s[0]] + Eat(s[1..]))[1..] == Eat(s[1..]);
        assert s == [s[0]] + s[1..];
      }
    }
  }

  lemma {:induction false} EatenUnlessSpared(s: string)
    ensures Eat(s) == s <==> SparedText(s)
  {
    EatInPrint(s);
    EatShortens(s);
    DropNothing(Escape(s));
  }

  predicate HasCloser(s: string) {
    '}' in s || ']' in s
  }

  lemma {:induction false} CloserInPrint(s: string)
    requires CloserAhead(Escape(s))
    ensures HasCloser(s)
  {
    if s != "" {
      EscapeCharShape(s[0], "");
      var first := Escape(s)[0];
      assert first == EscapeChar(s[0])[0];
      if IsSpace(first) {
        assert Escape(s)[1..] == Escape(s[1..]);
        CloserInPrint(s[1..]);
      }
    }
  }

  /** Only commas go, and only from strings with a closer, which stays. */
  lemma {:induction false} EatKeeps(s: string)
    ensures forall c | c in s && c != ',' :: c in Eat(s)
    ensures forall c | c in Eat(s) :: c in s
    ensures !HasCloser(s) ==> Eat(s) == s
  {
    if s != "" {
      EatKeeps(s[1..]);
      assert s == [s[0]] + s[1..];
      if s[0] == ',' && CloserAhead(Escape(s[1..])) { CloserInPrint(s[1..]); }
    }
  }

  /** A name without closers comes from itself alone. */
  lemma {:induction false} EatKeyword(s: string, key: string)
    requires !HasCloser(key)
    ensures Eat(s) == key <==> s == key
  {
    EatKeeps(s);
    EatKeeps(key);
  }

  // --------------------------------------------------------------------------- trees

  function Indent(depth: nat): string {
    seq(2 * depth, _ => ' ')
  }

  function NewLine(depth: nat): string {
    "\n" + Indent(depth)
  }

  function QuotedText(s: string): string {
    "\"" + Escape(s) + "\""
  }

  /** `JSON.stringify(v, null, 2)`, nested `depth` levels deep. */
  function PrintText(v: Value, depth: nat): string
    decreases v, 0
  {
    match v
    case Null => "null"
    case Bool(b) => if b then "true" else "false"
    case Number(text) => text
    case Str(s) => QuotedText(s)
    case Arr(items) => if items == [] then "[]" else "[" + PrintItems(items, depth + 1) + (NewLine(depth) + "]")
    case Obj(ms) => if ms == [] then "{}" else "{" + PrintMembers(ms, depth + 1) + (NewLine(depth) + "}")
  }

  function PrintItems(items: seq<Value>, depth: nat): string
    decreases items, 1
  {
    if items == [] then ""
    else
      var first := NewLine(depth) + PrintText(items[0], depth);
      if |items| == 1 then first else first + ("," + PrintItems(items[1..], depth))
  }

  function PrintMember(m: (string, Value), depth: nat): string
    decreases m, 1
  {
    NewLine(depth) + QuotedText(m.0) + ": " + PrintText(m.1, depth)
  }

  function PrintMembers(ms: Members, depth: nat): string
    decreases ms, 1
  {
    if ms == [] then ""
    else if |ms| == 1 then PrintMember(ms[0], depth)
    else PrintMember(ms[0], depth) + ("," + PrintMembers(ms[1..], depth))
  }

  function Printed(v: Value): string {
    PrintText(v, 0)
  }

  /** The tree with what the comma pass leaves of each key and string. */
  function Eaten(v: Value): Value
    decreases v, 0
  {
    match v
    case Str(s) => Str(Eat(s))
    case Arr(items) => Arr(EatenItems(items))
    case Obj(ms) => Obj(EatenMembers(ms))
    case _ => v
  }

  function EatenItems(items: seq<Value>): (r: seq<Value>)
    ensures |r| == |items|
    decreases items, 1
  {
    if items == [] then [] else [Eaten(items[0])] + EatenItems(items[1..])
  }

  function EatenMembers(ms: Members): (r: Members)
    ensures |r| == |ms|
    decreases ms, 1
  {
    if ms == [] then [] else [EatenMember(ms[0])] + EatenMembers(ms[1..])
  }

  function EatenMember(m: (string, Value)): (string, Value)
    decreases m, 1
  {
    (Eat(m.0), Eaten(m.1))
  }

  /** No key and no string of the tree, as printed, holds a trailing comma. */
  predicate Spared(v: Value)
    decreases v, 0
  {
    match v
    case Str(s) => SparedText(s)
    case Arr(items) => SparedItems(items)
    case Obj(ms) => SparedMembers(ms)
    case _ => true
  }

  predicate SparedItems(items: seq<Value>)
    decreases items, 1
  {
    items == [] || (Spared(items[0]) && SparedItems(items[1..]))
  }

  predicate SparedMembers(ms: Members)
    decreases ms, 1
  {
    ms == [] || (SparedMember(ms[0]) && SparedMembers(ms[1..]))
  }

  predicate SparedMember(m: (string, Value))
    decreases m, 1
  {
    SparedText(m.0) && Spared(m.1)
  }

  // ------------------------------------------------------------- stripping what is printed

  /** The comment scan copies this text, whatever follows. */
  ghost predicate Copied(a: string) {
    forall rest :: Scan(a + rest, false) == a + Scan(rest, false)
  }

  /** The comma pass turns this text into that, whatever follows. */
  ghost predicate DropsTo(a: string, b: string) {
    forall rest :: DropCommas(a + rest) == b + DropCommas(rest)
  }

  /** Both: stripping turns this text into that, wherever it stands outside a string. */
  ghost predicate Strips(a: string, b: string) {
    Copied(a) && DropsTo(a, b)
  }

  /** No closer comes first in this text, whatever follows. */
  ghost predicate Solid(a: string) {
    forall rest :: !CloserAhead(a + rest)
  }

  lemma CopiedBoth(a: string, b: string)
    requires Copied(a) && Copied(b)
    ensures Copied(a + b)
  {
    forall rest ensures Scan(a + b + rest, false) == a + b + Scan(rest, false) {
      assert a + b + rest == a + (b + rest);
      assert a + (b + Scan(rest, false)) == a + b + Scan(rest, false);
    }
  }

  lemma DropsBoth(a: string, b: string, c: string, d: string)
    requires DropsTo(a, b) && DropsTo(c, d)
    ensures DropsTo(a + c, b + d)
  {
    forall rest ensures DropCommas(a + c + rest) == b + d + DropCommas(rest) {
      assert a + c + rest == a + (c + rest);
      assert b + (d + DropCommas(rest)) == b + d + DropCommas(rest);
    }
  }

  lemma StripsBoth(a: string, b: string, c: string, d: string)
    requires Strips(a, b) && Strips(c, d)
    ensures Strips(a + c, b + d)
  {
    CopiedBoth(a, c);
    DropsBoth(a, b, c, d);
  }

  lemma PlainCopied(a: string)
    requires '"' !in a && '/' !in a
    ensures Copied(a)
  {
    forall rest ensures Scan(a + rest, false) == a + Scan(rest, false) { ScanThrough(a, rest); }
  }

  lemma {:induction false} ScanThrough(a: string, rest: string)
    requires '"' !in a && '/' !in a
    ensures Scan(a + rest, false) == a + Scan(rest, false)
  {
    if a == "" {
      assert a + rest == rest;
    } else {
      assert (a + rest)[1..] == a[1..] + rest;
      assert a[0] in a && forall c | c in a[1..] :: c in a;
      ScanThrough(a[1..], rest);
      assert [a[0]] + (a[1..] + Scan(rest, false)) == a + Scan(rest, false);
    }
  }

  lemma PlainDrops(a: string)
    requires ',' !in a
    ensures DropsTo(a, a)
  {
    forall rest ensures DropCommas(a + rest) == a + DropCommas(rest) { DropThrough(a, rest); }
  }

  lemma {:induction false} QuotedStrips(s: string)
    ensures Strips(QuotedText(s), QuotedText(Eat(s)))
  {
    forall rest
      ensures Scan(QuotedText(s) + rest, false) == QuotedText(s) + Scan(rest, false)
      ensures DropCommas(QuotedText(s) + rest) == QuotedText(Eat(s)) + DropCommas(rest)
    {
      EscapeIsBody(s);
      ScanQuoted(Escape(s), rest);
      DropQuoted(Escape(s), rest);
      EatInPrint(s);
    }
  }

  /** A comma before something other than a closer stays. */
  lemma CommaStays(a: string, b: string)
    requires DropsTo(a, b) && Solid(a)
    ensures DropsTo("," + a, "," + b)
  {
    forall rest ensures DropCommas("," + a + rest) == "," + b + DropCommas(rest) {
      assert ("," + a + rest)[1..] == a + rest;
      assert "," + (b + DropCommas(rest)) == "," + b + DropCommas(rest);
    }
  }

  lemma SolidAfterSpace(space: string, a: string)
    requires forall c | c in space :: IsSpace(c)
    requires a != "" && !IsSpace(a[0]) && a[0] != '}' && a[0] != ']'
    ensures Solid(space + a)
  {
    forall rest ensures !CloserAhead(space + a + rest) { NoCloserAfterSpace(space, a + rest); assert space + a + rest == space + (a + rest); }
  }

  lemma {:induction false} NoCloserAfterSpace(space: string, a: string)
    requires forall c | c in space :: IsSpace(c)
    requires a != "" && !IsSpace(a[0]) && a[0] != '}' && a[0] != ']'
    ensures !CloserAhead(space + a)
  {
    if space == "" {
      assert space + a == a;
    } else {
      assert (space + a)[1..] == space[1..] + a;
      assert space[0] in space;
      NoCloserAfterSpace(space[1..], a);
    }
  }

  // -------------------------------------------------------------------- by structure

  lemma NewLineStrips(depth: nat)
    ensures Strips(NewLine(depth), NewLine(depth))
    ensures forall c | c in NewLine(depth) :: IsSpace(c)
  {
    PlainStrips(NewLine(depth));
  }

  lemma {:induction false} PrintStarts(v: Value, depth: nat)
    ensures var t := PrintText(v, depth);
            t != "" && !IsSpace(t[0]) && t[0] != '}' && t[0] != ']'
  {
    if v.Number? { assert v.text[0] in v.text; }
  }

  lemma {:induction false} LeafStrips(v: Value, depth: nat)
    requires !v.Arr? && !v.Obj?
    ensures Strips(PrintText(v, depth), PrintText(Eaten(v), depth))
  {
    match v {
      case Str(s) => QuotedStrips(s);
      case Number(text) => PlainStrips(text);
      case Null => PlainStrips("null");
      case Bool(b) => PlainStrips(if b then "true" else "false");
    }
  }

  lemma BracketsStrip()
    ensures Strips("[", "[") && Strips("]", "]") && Strips("[]", "[]")
    ensures Strips("{", "{") && Strips("}", "}") && Strips("{}", "{}")
  {
    PlainStrips("[");
    PlainStrips("]");
    PlainStrips("[]");
    PlainStrips("{");
    PlainStrips("}");
    PlainStrips("{}");
  }

  lemma {:induction false} ValueStrips(v: Value, depth: nat)
    ensures Strips(PrintText(v, depth), PrintText(Eaten(v), depth))
    decreases v, 0
  {
    BracketsStrip();
    match v {
      case Arr(items) =>
        if items != [] {
          ItemsStrip(items, depth + 1);
          Enclosed("[", PrintItems(items, depth + 1), PrintItems(EatenItems(items), depth + 1), depth, "]");
        }
      case Obj(ms) =>
        if ms != [] {
          MembersStrip(ms, depth + 1);
          Enclosed("{", PrintMembers(ms, depth + 1), PrintMembers(EatenMembers(ms), depth + 1), depth, "}");
        }
      case _ => LeafStrips(v, depth);
    }
  }

  lemma PlainStrips(a: string)
    requires ',' !in a && '"' !in a && '/' !in a
    ensures Strips(a, a)
  {
    PlainCopied(a);
    PlainDrops(a);
  }

  lemma Enclosed(open: string, a: string, b: string, depth: nat, close: string)
    requires Strips(a, b) && Strips(open, open) && Strips(close, close)
    ensures Strips(open + a + (NewLine(depth) + close), open + b + (NewLine(depth) + close))
  {
    var line := NewLine(depth);
    NewLineStrips(depth);
    StripsBoth(line, line, close, close);
    StripsBoth(open, open, a, b);
    StripsBoth(open + a, open + b, line + close, line + close);
  }

  lemma {:induction false} ItemsStrip(items: seq<Value>, depth: nat)
    requires items != []
    ensures Strips(PrintItems(items, depth), PrintItems(EatenItems(items), depth))
    ensures Solid(PrintItems(items, depth))
    decreases items, 1
  {
    var first, eaten := PrintText(items[0], depth), PrintText(Eaten(items[0]), depth);
    ValueStrips(items[0], depth);
    PrintStarts(items[0], depth);
    NewLineStrips(depth);
    StripsBoth(NewLine(depth), NewLine(depth), first, eaten);
    SolidAfterSpace(NewLine(depth), first);
    if |items| > 1 {
      ItemsStrip(items[1..], depth);
      MoreStrips(NewLine(depth) + first, NewLine(depth) + eaten,
                 PrintItems(items[1..], depth), PrintItems(EatenItems(items[1..]), depth));
      assert EatenItems(items)[1..] == EatenItems(items[1..]);
    }
  }

  /** An element, a comma, and the elements after it. */
  lemma MoreStrips(first: string, eaten: string, rest: string, restEaten: string)
    requires Strips(first, eaten) && Solid(first)
    requires Strips(rest, restEaten) && Solid(rest)
    ensures Strips(first + ("," + rest), eaten + ("," + restEaten))
    ensures Solid(first + ("," + rest))
  {
    PlainCopied(",");
    CopiedBoth(",", rest);
    CommaStays(rest, restEaten);
    StripsBoth(first, eaten, "," + rest, "," + restEaten);
    SolidMore(first, "," + rest);
  }

  lemma SolidMore(a: string, b: string)
    requires Solid(a)
    ensures Solid(a + b)
  {
    forall rest ensures !CloserAhead(a + b + rest) { assert a + b + rest == a + (b + rest); }
  }

  lemma StripsBetween(a: string, b: string, eaten: string, c: string)
    requires Strips(a, a) && Strips(b, eaten) && Strips(c, c)
    ensures Strips(a + b + c, a + eaten + c)
  {
    StripsBoth(a, a, b, eaten);
    StripsBoth(a + b, a + eaten, c, c);
  }

  lemma {:induction false} KeyStrips(key: string, depth: nat)
    ensures Strips(NewLine(depth) + QuotedText(key) + ": ", NewLine(depth) + QuotedText(Eat(key)) + ": ")
  {
    NewLineStrips(depth);
    QuotedStrips(key);
    PlainStrips(": ");
    StripsBetween(NewLine(depth), QuotedText(key), QuotedText(Eat(key)), ": ");
  }

  lemma KeySolid(key: string, depth: nat)
    ensures Solid(NewLine(depth) + QuotedText(key) + ": ")
  {
    SolidAfterSpace(NewLine(depth), QuotedText(key));
    SolidMore(NewLine(depth) + QuotedText(key), ": ");
  }

  lemma {:induction false} MemberStrips(m: (string, Value), depth: nat)
    ensures Strips(PrintMember(m, depth), PrintMember(EatenMember(m), depth))
    ensures Solid(PrintMember(m, depth))
    decreases m, 1
  {
    var head, eaten := NewLine(depth) + QuotedText(m.0) + ": ", NewLine(depth) + QuotedText(Eat(m.0)) + ": ";
    KeyStrips(m.0, depth);
    KeySolid(m.0, depth);
    ValueStrips(m.1, depth);
    StripsBoth(head, eaten, PrintText(m.1, depth), PrintText(Eaten(m.1), depth));
    SolidMore(head, PrintText(m.1, depth));
  }

  lemma {:induction false} MembersStrip(ms: Members, depth: nat)
    requires ms != []
    ensures Strips(PrintMembers(ms, depth), PrintMembers(EatenMembers(ms), depth))
    ensures Solid(PrintMembers(ms, depth))
    decreases ms, 1
  {
    MemberStrips(ms[0], depth);
    if |ms| > 1 {
      MembersStrip(ms[1..], depth);
      MoreStrips(PrintMember(ms[0], depth), PrintMember(EatenMember(ms[0]), depth),
                 PrintMembers(ms[1..], depth), PrintMembers(EatenMembers(ms[1..]), depth));
      assert EatenMembers(ms)[1..] == EatenMembers(ms[1..]);
    }
  }

  /** Stripping a printed tree leaves the print of the tree with its strings eaten into, and nothing else changed. */
  lemma {:induction false} StripPrinted(v: Value)
    ensures Strip(Printed(v)) == Printed(Eaten(v))
  {
    ValueStrips(v, 0);
    assert Printed(v) + "" == Printed(v);
    assert Scan(Printed(v) + "", false) == Printed(v) + Scan("", false);
    assert DropCommas(Printed(v) + "") == Printed(Eaten(v)) + DropCommas("");
  }

  // ------------------------------------------------------------------ what is spared

  lemma {:induction false} EatenSame(v: Value)
    ensures Eaten(v) == v <==> Spared(v)
    decreases v, 0
  {
    match v {
      case Str(s) => EatenUnlessSpared(s);
      case Arr(items) => EatenItemsSame(items);
      case Obj(ms) => EatenMembersSame(ms);
      case _ =>
    }
  }

  lemma {:induction false} EatenItemsSame(items: seq<Value>)
    ensures EatenItems(items) == items <==> SparedItems(items)
    decreases items, 1
  {
    if items != [] {
      EatenSame(items[0]);
      EatenItemsSame(items[1..]);
      assert EatenItems(items)[1..] == EatenItems(items[1..]);
      assert items == [items[0]] + items[1..];
    }
  }

  lemma {:induction false} EatenMembersSame(ms: Members)
    ensures EatenMembers(ms) == ms <==> SparedMembers(ms)
    decreases ms, 1
  {
    if ms != [] {
      var eaten := EatenMembers(ms);
      EatenMemberSame(ms[0]);
      EatenMembersSame(ms[1..]);
      assert eaten[0] == EatenMember(ms[0]) && eaten[1..] == EatenMembers(ms[1..]);
      assert eaten == [eaten[0]] + eaten[1..] && ms == [ms[0]] + ms[1..];
    }
  }

  lemma {:induction false} EatenMemberSame(m: (string, Value))
    ensures EatenMember(m) == m <==> SparedMember(m)
    decreases m, 1
  {
    EatenUnlessSpared(m.0);
    EatenSame(m.1);
  }

  /** Stripping shortens the print exactly when some key or string is not spared. */
  lemma {:induction false} EatenIsShorter(v: Value, depth: nat)
    ensures |PrintText(Eaten(v), depth)| <= |PrintText(v, depth)|
    ensures |PrintText(Eaten(v), depth)| == |PrintText(v, depth)| <==> Spared(v)
    decreases v, 0
  {
    match v {
      case Str(s) =>
        EatShortens(s);
        EatenUnlessSpared(s);
      case Arr(items) => EatenItemsShorter(items, depth + 1);
      case Obj(ms) => EatenMembersShorter(ms, depth + 1);
      case _ =>
    }
  }

  lemma {:induction false} EatenItemsShorter(items: seq<Value>, depth: nat)
    ensures |PrintItems(EatenItems(items), depth)| <= |PrintItems(items, depth)|
    ensures |PrintItems(EatenItems(items), depth)| == |PrintItems(items, depth)| <==> SparedItems(items)
    decreases items, 1
  {
    if items != [] {
      EatenIsShorter(items[0], depth);
      EatenItemsShorter(items[1..], depth);
      assert EatenItems(items)[1..] == EatenItems(items[1..]);
    }
  }

  lemma {:induction false} EatenMembersShorter(ms: Members, depth: nat)
    ensures |PrintMembers(EatenMembers(ms), depth)| <= |PrintMembers(ms, depth)|
    ensures |PrintMembers(EatenMembers(ms), depth)| == |PrintMembers(ms, depth)| <==> SparedMembers(ms)
    decreases ms, 1
  {
    if ms != [] {
      EatenMemberShorter(ms[0], depth);
      EatenMembersShorter(ms[1..], depth);
      assert EatenMembers(ms)[1..] == EatenMembers(ms[1..]);
    }
  }

  lemma {:induction false} EatenMemberShorter(m: (string, Value), depth: nat)
    ensures |PrintMember(EatenMember(m), depth)| <= |PrintMember(m, depth)|
    ensures |PrintMember(EatenMember(m), depth)| == |PrintMember(m, depth)| <==> SparedMember(m)
    decreases m, 1
  {
    EatShortens(m.0);
    EatenUnlessSpared(m.0);
    EatenIsShorter(m.1, depth);
  }

  /** Stripping leaves a printed tree alone exactly when no key or string of it holds a trailing comma in print. */
  lemma {:induction false} PrintSurvivesStrip(v: Value)
    ensures Strip(Printed(v)) == Printed(v) <==> Spared(v)
  {
    StripPrinted(v);
    EatenSame(v);
    EatenIsShorter(v, 0);
  }
}
