/** Stripping HuJSON down to JSON. */
module Hujson {
  import opened Text

  // ---------------------------------------------------------------- the scanning loop

  /** The text after the first line feed. */
  function AfterLine(s: string): (r: string)
    ensures |r| <= |s|
    ensures s != "" ==> |r| < |s|
  {
    if s == "" then "" else if s[0] == '\n' then s[1..] else AfterLine(s[1..])
  }

  /** The text after the first block terminator. */
  function AfterBlock(s: string): (r: string)
    ensures |r| <= |s|
  {
    if s == "" then "" else if |s| > 1 && s[0] == '*' && s[1] == '/' then s[2..] else AfterBlock(s[1..])
  }

  /** What the scan makes of the rest of a text, inside or outside a string. */
  function Scan(s: string, inString: bool): string
    decreases |s|
  {
    if s == "" then ""
    else if inString then
      if s[0] == '\\' then
        if |s| == 1 then s else s[..2] + Scan(s[2..], true)
      else [s[0]] + Scan(s[1..], s[0] != '"')
    else if s[0] == '/' && |s| > 1 && s[1] == '/' then "\n" + Scan(AfterLine(s), false)
    else if s[0] == '/' && |s| > 1 && s[1] == '*' then Scan(AfterBlock(s[2..]), false)
    else [s[0]] + Scan(s[1..], s[0] == '"')
  }

  /** The rest of a text from a position that may lie past its end. */
  function From(s: string, i: nat): string {
    if i <= |s| then s[i..] else ""
  }

  /** The scan, one step from position `i`. */
  lemma {:induction false} ScanAt(s: string, i: nat, inString: bool)
    requires i < |s|
    ensures inString && s[i] == '\\' && i + 1 < |s| ==>
              Scan(s[i..], inString) == [s[i], s[i + 1]] + Scan(s[i + 2..], true)
    ensures inString && s[i] == '\\' && i + 1 == |s| ==> Scan(s[i..], inString) == [s[i]]
    ensures inString && s[i] != '\\' ==> Scan(s[i..], inString) == [s[i]] + Scan(s[i + 1..], s[i] != '"')
    ensures !inString && s[i] == '/' && i + 1 < |s| && s[i + 1] == '/' ==>
              Scan(s[i..], inString) == "\n" + Scan(AfterLine(s[i..]), false)
    ensures !inString && s[i] == '/' && i + 1 < |s| && s[i + 1] == '*' ==>
              Scan(s[i..], inString) == Scan(AfterBlock(s[i + 2..]), false)
    ensures !inString && (s[i] != '/' || i + 1 == |s| || (s[i + 1] != '/' && s[i + 1] != '*')) ==>
              Scan(s[i..], inString) == [s[i]] + Scan(s[i + 1..], s[i] == '"')
  {
    var rest := s[i..];
    assert rest[1..] == s[i + 1..];
    if i + 1 < |s| {
      assert rest[..2] == [s[i], s[i + 1]] && rest[2..] == s[i + 2..];
    } else {
      assert rest == [s[i]];
    }
  }

  /** What has been written, and what the scan will make of the rest, is the whole scan. */
  ghost predicate Scanned(source: string, out: string, i: nat, inString: bool) {
    out + Scan(From(source, i), inString) == Scan(source, false)
  }

  lemma LineScanned(source: string, out: string, i: nat, j: nat)
    requires i + 1 < |source| && source[i] == '/' && source[i + 1] == '/'
    requires Scanned(source, out, i, false) && From(source, j) == AfterLine(source[i..])
    ensures Scanned(source, out + "\n", j, false)
  {
    ScanAt(source, i, false);
  }

  lemma BlockScanned(source: string, out: string, i: nat, j: nat)
    requires i + 1 < |source| && source[i] == '/' && source[i + 1] == '*'
    requires Scanned(source, out, i, false) && From(source, j) == AfterBlock(source[i + 2..])
    ensures Scanned(source, out, j, false)
  {
    ScanAt(source, i, false);
  }

  lemma CharScanned(source: string, out: string, i: nat)
    requires i < |source|
    requires source[i] != '/' || i + 1 == |source| || (source[i + 1] != '/' && source[i + 1] != '*')
    requires Scanned(source, out, i, false)
    ensures Scanned(source, out + [source[i]], i + 1, source[i] == '"')
  {
    ScanAt(source, i, false);
  }

  method ScanComments(source: string) returns (out: string)
    ensures out == Scan(source, false)
  {
    out := "";
    var inString := false;
    var i := 0;
    while i < |source|
      invariant Scanned(source, out, i, inString)
    {
      if inString {
        out, i, inString := CopyInString(source, out, i);
      } else {
        out, i, inString := ScanOutside(source, out, i);
      }
      i := i + 1;
    }
  }

  /** Outside strings: skips a comment, or copies one character. */
  method ScanOutside(source: string, before: string, start: nat)
    returns (out: string, i: nat, inString: bool)
    requires start < |source| && Scanned(source, before, start, false)
    ensures start <= i && Scanned(source, out, i + 1, inString)
  {
    inString := false;
    if source[start] == '/' && start + 1 < |source| && source[start + 1] == '/' {
      out, i := EraseLine(source, before, start);
    } else if source[start] == '/' && start + 1 < |source| && source[start + 1] == '*' {
      out, i := EraseBlock(source, before, start);
    } else {
      CharScanned(source, before, start);
      out, i, inString := before + [source[start]], start, source[start] == '"';
    }
  }

  method EraseLine(source: string, before: string, start: nat) returns (out: string, i: nat)
    requires start + 1 < |source| && source[start] == '/' && source[start + 1] == '/'
    requires Scanned(source, before, start, false)
    ensures start <= i && Scanned(source, out, i + 1, false)
  {
    i := SkipLine(source, start);
    out := before + "\n";
    LineScanned(source, before, start, i + 1);
  }

  method EraseBlock(source: string, before: string, start: nat) returns (out: string, i: nat)
    requires start + 1 < |source| && source[start] == '/' && source[start + 1] == '*'
    requires Scanned(source, before, start, false)
    ensures start <= i && Scanned(source, out, i + 1, false)
  {
    i := SkipBlock(source, start);
    out := before;
    BlockScanned(source, before, start, i + 1);
  }

  lemma EscapeScanned(source: string, out: string, i: nat)
    requires i + 1 < |source| && source[i] == '\\'
    requires Scanned(source, out, i, true)
    ensures Scanned(source, out + [source[i]] + [source[i + 1]], i + 2, true)
  {
    ScanAt(source, i, true);
    var rest := Scan(source[i + 2..], true);
    assert out + ([source[i], source[i + 1]] + rest) == out + [source[i]] + [source[i + 1]] + rest;
  }

  lemma InsideScanned(source: string, out: string, i: nat)
    requires i < |source| && (source[i] == '\\' ==> i + 1 == |source|)
    requires Scanned(source, out, i, true)
    ensures source[i] != '\\' ==> Scanned(source, out + [source[i]], i + 1, source[i] != '"')
    ensures source[i] == '\\' ==> Scanned(source, out + [source[i]], i + 2, true)
  {
    ScanAt(source, i, true);
    var rest := Scan(source[i + 1..], source[i] != '"');
    assert out + ([source[i]] + rest) == out + [source[i]] + rest;
  }

  /** Copies one character of a string, or an escape with the character it escapes. */
  method CopyInString(source: string, before: string, start: nat)
    returns (out: string, i: nat, inString: bool)
    requires start < |source| && Scanned(source, before, start, true)
    ensures start <= i && Scanned(source, out, i + 1, inString)
  {
    out, i, inString := before + [source[start]], start, true;
    if source[start] == '\\' {
      if i + 1 < |source| {
        EscapeScanned(source, before, start);
        out := out + [source[i + 1]];
      } else {
        InsideScanned(source, before, start);
      }
      i := i + 1;
    } else {
      InsideScanned(source, before, start);
      if source[start] == '"' { inString := false; }
    }
  }

  /** Runs to the line feed that ends a comment, or to the end of the text. */
  method SkipLine(source: string, start: nat) returns (i: nat)
    requires start <= |source|
    ensures start <= i <= |source|
    ensures From(source, i + 1) == AfterLine(source[start..])
  {
    i := start;
    while i < |source| && source[i] != '\n'
      invariant start <= i <= |source|
      invariant AfterLine(source[i..]) == AfterLine(source[start..])
    {
      assert source[i..][1..] == source[i + 1..];
      i := i + 1;
    }
    assert i < |source| ==> source[i..][1..] == source[i + 1..];
  }

  /** Runs past a block comment: to the slash that ends it, or past the end of the text. */
  method SkipBlock(source: string, start: nat) returns (i: nat)
    requires start + 2 <= |source|
    ensures start < i
    ensures From(source, i + 1) == AfterBlock(source[start + 2..])
  {
    i := start + 2;
    while i < |source| && !(source[i] == '*' && i + 1 < |source| && source[i + 1] == '/')
      invariant start + 2 <= i <= |source|
      invariant AfterBlock(source[i..]) == AfterBlock(source[start + 2..])
    {
      assert source[i..][1..] == source[i + 1..];
      i := i + 1;
    }
    assert i < |source| ==> source[i..][2..] == source[i + 2..];
    i := i + 1;
  }

  /** A second scan of any text changes nothing. */
  lemma {:induction false} ScanTwice(s: string, inString: bool)
    ensures Scan(Scan(s, inString), inString) == Scan(s, inString)
    decreases |s|
  {
    if s == "" {
    } else if inString {
      if s[0] == '\\' {
        if |s| > 1 {
          ScanTwice(s[2..], true);
          var rest := Scan(s[2..], true);
          assert (s[..2] + rest)[..2] == s[..2] && (s[..2] + rest)[2..] == rest;
        }
      } else {
        ScanTwice(s[1..], s[0] != '"');
        assert ([s[0]] + Scan(s[1..], s[0] != '"'))[1..] == Scan(s[1..], s[0] != '"');
      }
    } else if s[0] == '/' && |s| > 1 && s[1] == '/' {
      ScanTwice(AfterLine(s), false);
      assert ("\n" + Scan(AfterLine(s), false))[1..] == Scan(AfterLine(s), false);
    } else if s[0] == '/' && |s| > 1 && s[1] == '*' {
      ScanTwice(AfterBlock(s[2..]), false);
    } else {
      var rest := Scan(s[1..], s[0] == '"');
      ScanTwice(s[1..], s[0] == '"');
      assert ([s[0]] + rest)[1..] == rest;
      // A lone slash stands before no comment, so what follows it is copied.
      assert s[0] == '/' && |s| > 1 ==> rest[0] == s[1];
    }
  }

  // ------------------------------------------------------------------ texts as pieces

  /** A text between comments: single characters, whole strings, and the comments themselves. */
  datatype Piece =
    | Plain(c: char)
    | Quoted(body: string)
    | Line(text: string)
    | Block(text: string)

  /** How a text ends: between pieces, or inside one that was never closed. */
  datatype Ending = Closed | OpenQuoted(body: string) | OpenLine(text: string) | OpenBlock(text: string)

  /** The inside of a string literal: escapes are pairs, and no bare quote occurs. */
  predicate IsBody(b: string)
    decreases |b|
  {
    || b == ""
    || (b[0] == '\\' && |b| > 1 && IsBody(b[2..]))
    || (b[0] != '\\' && b[0] != '"' && IsBody(b[1..]))
  }

  predicate IsOpenBody(b: string)
    decreases |b|
  {
    || b == ""
    || b == "\\"
    || (b[0] == '\\' && |b| > 1 && IsOpenBody(b[2..]))
    || (b[0] != '\\' && b[0] != '"' && IsOpenBody(b[1..]))
  }

  predicate NoTerminator(text: string) {
    forall k | 0 <= k < |text| - 1 :: !(text[k] == '*' && text[k + 1] == '/')
  }

  predicate OpensComment(s: string) {
    s != "" && (s[0] == '/' || s[0] == '*')
  }

  predicate PieceOk(p: Piece, rest: string) {
    match p
    case Plain(c) => c != '"' && (c == '/' ==> !OpensComment(rest))
    case Quoted(body) => IsBody(body)
    case Line(text) => '\n' !in text
    case Block(text) => NoTerminator(text)
  }

  predicate EndingOk(e: Ending) {
    match e
    case Closed => true
    case OpenQuoted(body) => IsOpenBody(body)
    case OpenLine(text) => '\n' !in text
    case OpenBlock(text) => NoTerminator(text)
  }

  predicate Valid(ps: seq<Piece>, e: Ending) {
    if ps == [] then EndingOk(e) else PieceOk(ps[0], Render(ps[1..], e)) && Valid(ps[1..], e)
  }

  function RenderPiece(p: Piece): string {
    match p
    case Plain(c) => [c]
    case Quoted(body) => "\"" + body + "\""
    case Line(text) => "//" + text + "\n"
    case Block(text) => "/*" + text + "*/"
  }

  function RenderEnding(e: Ending): string {
    match e
    case Closed => ""
    case OpenQuoted(body) => "\"" + body
    case OpenLine(text) => "//" + text
    case OpenBlock(text) => "/*" + text
  }

  /** The text the pieces spell. */
  function Render(ps: seq<Piece>, e: Ending): string {
    if ps == [] then RenderEnding(e) else RenderPiece(ps[0]) + Render(ps[1..], e)
  }

  function ErasePiece(p: Piece): string {
    match p
    case Plain(_) | Quoted(_) => RenderPiece(p)
    case Line(_) => "\n"
    case Block(_) => ""
  }

  function EraseEnding(e: Ending): string {
    match e
    case Closed | OpenQuoted(_) => RenderEnding(e)
    case OpenLine(_) => "\n"
    case OpenBlock(_) => ""
  }

  /** The same text without its comments; a line comment leaves its line feed. */
  function Erase(ps: seq<Piece>, e: Ending): string {
    if ps == [] then EraseEnding(e) else ErasePiece(ps[0]) + Erase(ps[1..], e)
  }

  /** A string is copied up to and including its closing quote. */
  lemma {:induction false} ScanBody(s: string, k: nat)
    requires k < |s| && s[k] == '"' && IsBody(s[..k])
    ensures Scan(s, true) == s[..k + 1] + Scan(s[k + 1..], false)
    decreases k
  {
    var body := s[..k];
    if k == 0 {
    } else if body[0] == '\\' {
      assert s[2..][..k - 2] == body[2..];
      ScanBody(s[2..], k - 2);
      CopiedThen(s, 2, k + 1, Scan(s[k + 1..], false));
    } else {
      assert s[1..][..k - 1] == body[1..];
      ScanBody(s[1..], k - 1);
      CopiedThen(s, 1, k + 1, Scan(s[k + 1..], false));
    }
  }

  lemma CopiedThen(s: string, m: nat, k: nat, rest: string)
    requires m <= k <= |s|
    ensures s[..m] + (s[m..][..k - m] + rest) == s[..k] + rest
    ensures s[m..][k - m..] == s[k..]
  { }

  lemma {:induction false} ScanOpenBody(body: string)
    requires IsOpenBody(body)
    ensures Scan(body, true) == body
    decreases |body|
  {
    if body == "" || body == "\\" {
    } else if body[0] == '\\' {
      ScanOpenBody(body[2..]);
      assert body == body[..2] + body[2..];
    } else {
      ScanOpenBody(body[1..]);
      assert body == [body[0]] + body[1..];
    }
  }

  lemma {:induction false} LineEnds(text: string, rest: string)
    requires '\n' !in text
    ensures AfterLine(text + "\n" + rest) == rest && AfterLine(text) == ""
  {
    var s := text + "\n" + rest;
    if text == "" {
      assert s[1..] == rest;
    } else {
      assert s[1..] == text[1..] + "\n" + rest;
      assert text[0] in text && forall c | c in text[1..] :: c in text;
      LineEnds(text[1..], rest);
    }
  }

  lemma {:induction false} BlockEnds(text: string, rest: string)
    requires NoTerminator(text)
    ensures AfterBlock(text + "*/" + rest) == rest && AfterBlock(text) == ""
  {
    var s := text + "*/" + rest;
    if text == "" {
      assert s[2..] == rest;
    } else {
      assert s[1..] == text[1..] + "*/" + rest;
      assert NoTerminator(text[1..]);
      assert |text| > 1 ==> s[1] == text[1];
      BlockEnds(text[1..], rest);
    }
  }

  lemma ScanEnding(e: Ending)
    requires EndingOk(e)
    ensures Scan(RenderEnding(e), false) == EraseEnding(e)
  {
    var s := RenderEnding(e);
    match e {
      case Closed =>
      case OpenQuoted(body) =>
        ScanOpenBody(body);
        assert s[1..] == body;
      case OpenLine(text) =>
        assert s[1..][1..] == text;
        LineEnds(text, "");
        assert AfterLine(s) == AfterLine(text);
      case OpenBlock(text) =>
        assert s[2..] == text;
        BlockEnds(text, "");
    }
  }

  lemma {:induction false} ScanQuoted(body: string, rest: string)
    requires IsBody(body)
    ensures Scan("\"" + body + "\"" + rest, false) == "\"" + body + "\"" + Scan(rest, false)
  {
    var s := body + "\"" + rest;
    assert s[..|body|] == body && s[..|body| + 1] == body + "\"" && s[|body| + 1..] == rest;
    ScanBody(s, |body|);
    assert ("\"" + body + "\"" + rest)[1..] == s;
  }

  lemma {:induction false} ScanLine(text: string, rest: string)
    requires '\n' !in text
    ensures Scan("//" + text + "\n" + rest, false) == "\n" + Scan(rest, false)
  {
    var s := "//" + text + "\n" + rest;
    assert s[1..][1..] == text + "\n" + rest;
    LineEnds(text, rest);
    assert AfterLine(s) == AfterLine(s[1..]) == AfterLine(s[1..][1..]);
  }

  lemma {:induction false} ScanBlock(text: string, rest: string)
    requires NoTerminator(text)
    ensures Scan("/*" + text + "*/" + rest, false) == Scan(rest, false)
  {
    var s := "/*" + text + "*/" + rest;
    assert s[2..] == text + "*/" + rest;
    BlockEnds(text, rest);
  }

  lemma {:induction false} ScanPiece(p: Piece, rest: string)
    requires PieceOk(p, rest)
    ensures Scan(RenderPiece(p) + rest, false) == ErasePiece(p) + Scan(rest, false)
  {
    var s := RenderPiece(p) + rest;
    match p {
      case Plain(c) =>
        assert s[1..] == rest;
      case Quoted(body) =>
        ScanQuoted(body, rest);
      case Line(text) => ScanLine(text, rest);
      case Block(text) => ScanBlock(text, rest);
    }
  }

  /** The scan erases the comments and nothing else: strings survive character for character. */
  lemma {:induction false} ScanErasesComments(ps: seq<Piece>, e: Ending)
    requires Valid(ps, e)
    ensures Scan(Render(ps, e), false) == Erase(ps, e)
  {
    if ps == [] {
      ScanEnding(e);
    } else {
      ScanErasesComments(ps[1..], e);
      ScanPiece(ps[0], Render(ps[1..], e));
    }
  }

  // ----------------------------------------------------------- every text is such pieces

  /** Position of the quote that closes a string, from just after its opening one. */
  function QuoteAt(s: string): (r: Option<nat>)
    ensures r.Some? ==> r.value < |s| && s[r.value] == '"' && IsBody(s[..r.value])
    ensures r.None? ==> IsOpenBody(s)
    decreases |s|
  {
    if s == "" || s == "\\" then None
    else if s[0] == '"' then Some(0)
    else
      var skip := if s[0] == '\\' then 2 else 1;
      match QuoteAt(s[skip..])
      case None => None
      case Some(k) => assert s[..skip + k][skip..] == s[skip..][..k]; Some(skip + k)
  }

  /** Position of the terminator of a block comment. */
  function TerminatorAt(s: string): (r: Option<nat>)
    ensures r.Some? ==> r.value + 1 < |s| && s[r.value] == '*' && s[r.value + 1] == '/' && NoTerminator(s[..r.value])
    ensures r.None? ==> NoTerminator(s)
  {
    if |s| < 2 then None
    else if s[0] == '*' && s[1] == '/' then Some(0)
    else match TerminatorAt(s[1..])
      case None => None
      case Some(k) => Some(k + 1)
  }

  datatype Lexed = Lexed(pieces: seq<Piece>, ending: Ending)

  function Prepend(p: Piece, rest: Lexed): Lexed {
    Lexed([p] + rest.pieces, rest.ending)
  }

  datatype Next = More(p: Piece, rest: string) | Last(e: Ending)

  /** The piece a text starts with, and the text after it. */
  function NextPiece(s: string): Next {
    if s == "" then Last(Closed)
    else if s[0] == '"' then
      var t, k := s[1..], QuoteAt(s[1..]);
      if k.None? then Last(OpenQuoted(t)) else More(Quoted(t[..k.value]), t[k.value + 1..])
    else if |s| > 1 && s[0] == '/' && s[1] == '/' then
      var t, k := s[2..], IndexOf(s[2..], '\n');
      if k.None? then Last(OpenLine(t)) else More(Line(t[..k.value]), t[k.value + 1..])
    else if |s| > 1 && s[0] == '/' && s[1] == '*' then
      var t, k := s[2..], TerminatorAt(s[2..]);
      if k.None? then Last(OpenBlock(t)) else More(Block(t[..k.value]), t[k.value + 2..])
    else More(Plain(s[0]), s[1..])
  }

  ghost predicate SplitsOff(s: string, next: Next) {
    match next
    case Last(e) => EndingOk(e) && RenderEnding(e) == s
    case More(p, rest) => PieceOk(p, rest) && RenderPiece(p) + rest == s && |rest| < |s|
  }

  lemma Rejoin(s: string, open: nat, k: nat, close: nat)
    requires open + k + close <= |s|
    ensures s[..open] + s[open..][..k] + s[open + k..open + k + close] + s[open..][k + close..] == s
  { }

  lemma NextQuoted(s: string)
    requires s != "" && s[0] == '"'
    ensures SplitsOff(s, NextPiece(s))
  {
    var t, k := s[1..], QuoteAt(s[1..]);
    assert s == "\"" + t;
    if k.Some? {
      Rejoin(s, 1, k.value, 1);
      assert s[..1] == "\"" == s[1 + k.value..2 + k.value];
    }
  }

  lemma NextLine(s: string)
    requires |s| > 1 && s[0] == '/' && s[1] == '/'
    ensures SplitsOff(s, NextPiece(s))
  {
    var t, k := s[2..], IndexOf(s[2..], '\n');
    assert s == "//" + t;
    if k.Some? {
      Rejoin(s, 2, k.value, 1);
      assert s[..2] == "//" && s[2 + k.value..3 + k.value] == "\n";
    }
  }

  lemma NextBlock(s: string)
    requires |s| > 1 && s[0] == '/' && s[1] == '*'
    ensures SplitsOff(s, NextPiece(s))
  {
    var t, k := s[2..], TerminatorAt(s[2..]);
    assert s == "/*" + t;
    if k.Some? {
      Rejoin(s, 2, k.value, 2);
      assert s[..2] == "/*" && s[2 + k.value..4 + k.value] == "*/";
    }
  }

  lemma NextPieceSplitsOff(s: string)
    ensures SplitsOff(s, NextPiece(s))
  {
    if s == "" {
    } else if s[0] == '"' {
      NextQuoted(s);
    } else if |s| > 1 && s[0] == '/' && s[1] == '/' {
      NextLine(s);
    } else if |s| > 1 && s[0] == '/' && s[1] == '*' {
      NextBlock(s);
    } else {
      assert [s[0]] + s[1..] == s;
    }
  }

  function Lex(s: string): Lexed
    decreases |s|
  {
    NextPieceSplitsOff(s);
    match NextPiece(s)
    case Last(e) => Lexed([], e)
    case More(p, rest) => Prepend(p, Lex(rest))
  }

  lemma Prepended(p: Piece, rest: Lexed, s: string)
    requires Valid(rest.pieces, rest.ending) && Render(rest.pieces, rest.ending) == s && PieceOk(p, s)
    ensures var r := Prepend(p, rest);
            Valid(r.pieces, r.ending) && Render(r.pieces, r.ending) == RenderPiece(p) + s
  {
    assert ([p] + rest.pieces)[1..] == rest.pieces;
  }

  /** Every text at all is spelled by valid pieces, so what holds of those holds of every text. */
  lemma {:induction false} EveryTextIsPieces(s: string)
    ensures Valid(Lex(s).pieces, Lex(s).ending)
    ensures Render(Lex(s).pieces, Lex(s).ending) == s
    decreases |s|
  {
    NextPieceSplitsOff(s);
    match NextPiece(s) {
      case Last(_) =>
      case More(p, rest) =>
        EveryTextIsPieces(rest);
        Prepended(p, Lex(rest), rest);
    }
  }

  // --------------------------------------------------------- the trailing-comma pass

  /** White space and then a closing brace or bracket. */
  predicate CloserAhead(s: string) {
    s != "" && (s[0] == '}' || s[0] == ']' || (IsSpace(s[0]) && CloserAhead(s[1..])))
  }

  /** Drops every comma with a closer ahead of it, wherever it stands. */
  function DropCommas(s: string): (r: string)
    ensures |r| <= |s|
  {
    if s == "" then ""
    else if s[0] == ',' && CloserAhead(s[1..]) then DropCommas(s[1..])
    else [s[0]] + DropCommas(s[1..])
  }

  function Strip(source: string): string {
    DropCommas(Scan(source, false))
  }

  /** What stripping is for: comments and the trailing commas between tokens go, strings stay. */
  function Tidy(ps: seq<Piece>, e: Ending): string {
    if ps == [] then EraseEnding(e)
    else
      var rest := Tidy(ps[1..], e);
      if ps[0] == Plain(',') && CloserAhead(Erase(ps[1..], e)) then rest else ErasePiece(ps[0]) + rest
  }

  /** A string that holds a comma, optional white space and a closer. */
  predicate HoldsTrailingComma(body: string) {
    exists k | 0 <= k < |body| :: body[k] == ',' && CloserAhead(body[k + 1..])
  }

  function Bodies(ps: seq<Piece>, e: Ending): seq<string> {
    if ps == [] then (if e.OpenQuoted? then [e.body] else [])
    else (if ps[0].Quoted? then [ps[0].body] else []) + Bodies(ps[1..], e)
  }

  /** A quote stops the look ahead. */
  lemma {:induction false} CloserBeforeQuote(s: string, rest: string)
    ensures CloserAhead(s + "\"" + rest) == CloserAhead(s)
  {
    var t := s + "\"" + rest;
    if s != "" {
      assert t[1..] == s[1..] + "\"" + rest;
      CloserBeforeQuote(s[1..], rest);
    }
  }

  lemma {:induction false} DropInside(s: string, rest: string)
    ensures DropCommas(s + "\"" + rest) == DropCommas(s) + "\"" + DropCommas(rest)
  {
    var t := s + "\"" + rest;
    if s == "" {
      assert t[1..] == rest;
    } else {
      assert t[1..] == s[1..] + "\"" + rest;
      CloserBeforeQuote(s[1..], rest);
      DropInside(s[1..], rest);
    }
  }

  lemma {:induction false} DropNothing(s: string)
    ensures DropCommas(s) == s <==> !HoldsTrailingComma(s)
    ensures DropCommas(s) != s ==> |DropCommas(s)| < |s|
  {
    if s != "" {
      DropNothing(s[1..]);
      assert s == [s[0]] + s[1..];
      if HoldsTrailingComma(s) {
        var k :| 0 <= k < |s| && s[k] == ',' && CloserAhead(s[k + 1..]);
        if k > 0 { assert s[1..][k - 1] == ',' && s[1..][k..] == s[k + 1..]; }
      }
      if HoldsTrailingComma(s[1..]) {
        var k :| 0 <= k < |s[1..]| && s[1..][k] == ',' && CloserAhead(s[1..][k + 1..]);
        assert s[k + 1] == ',' && s[k + 2..] == s[1..][k + 1..];
      }
      if s[0] == ',' && CloserAhead(s[1..]) {
        assert s[0] == ',' && CloserAhead(s[0 + 1..]);
      }
    }
  }

  lemma {:induction false} DropQuoted(body: string, rest: string)
    ensures DropCommas("\"" + body + "\"" + rest) == "\"" + DropCommas(body) + "\"" + DropCommas(rest)
  {
    assert ("\"" + body + "\"" + rest)[1..] == body + "\"" + rest;
    DropInside(body, rest);
  }

  lemma {:induction false} StringIntact(body: string, dropped: string, tidy: string)
    requires |dropped| <= |tidy|
    ensures "\"" + DropCommas(body) + "\"" + dropped == "\"" + body + "\"" + tidy
            <==> DropCommas(body) == body && dropped == tidy
  {
    DropNothing(body);
    var left, right := "\"" + DropCommas(body) + "\"" + dropped, "\"" + body + "\"" + tidy;
    if left == right {
      assert |left| == 2 + |DropCommas(body)| + |dropped| && |right| == 2 + |body| + |tidy|;
      assert dropped == left[|left| - |dropped|..] == right[|right| - |tidy|..] == tidy;
    }
  }

  lemma SameStart(start: string, a: string, b: string)
    ensures start + a == start + b <==> a == b
  {
    assert (start + a)[|start|..] == a && (start + b)[|start|..] == b;
  }

  lemma {:induction false} PlainPiece(c: char, rest: string, tidy: string)
    requires |DropCommas(rest)| <= |tidy|
    ensures var kept := if c == ',' && CloserAhead(rest) then tidy else [c] + tidy;
            && |DropCommas([c] + rest)| <= |kept|
            && (DropCommas([c] + rest) == kept <==> DropCommas(rest) == tidy)
  {
    assert ([c] + rest)[1..] == rest;
    SameStart([c], DropCommas(rest), tidy);
  }

  lemma {:induction false} QuotedPiece(body: string, rest: string, tidy: string)
    requires |DropCommas(rest)| <= |tidy|
    ensures var dropped, kept := DropCommas("\"" + body + "\"" + rest), "\"" + body + "\"" + tidy;
            && |dropped| <= |kept|
            && (dropped == kept <==> !HoldsTrailingComma(body) && DropCommas(rest) == tidy)
  {
    DropQuoted(body, rest);
    DropNothing(body);
    StringIntact(body, DropCommas(rest), tidy);
  }

  /** The pass spares the strings exactly when none of them holds a trailing comma of its own. */
  lemma {:induction false} CommasOutsideStrings(ps: seq<Piece>, e: Ending)
    ensures |DropCommas(Erase(ps, e))| <= |Tidy(ps, e)|
    ensures DropCommas(Erase(ps, e)) == Tidy(ps, e)
            <==> forall b | b in Bodies(ps, e) :: !HoldsTrailingComma(b)
  {
    if ps == [] {
      CommasOutsideEnding(e);
    } else {
      var rest, tidy := Erase(ps[1..], e), Tidy(ps[1..], e);
      CommasOutsideStrings(ps[1..], e);
      match ps[0] {
        case Plain(c) => PlainPiece(c, rest, tidy);
        case Quoted(body) => QuotedPiece(body, rest, tidy);
        case Line(_) => PlainPiece('\n', rest, tidy);
        case Block(_) => assert "" + rest == rest && "" + tidy == tidy;
      }
      assert Bodies(ps, e) == (if ps[0].Quoted? then [ps[0].body] else []) + Bodies(ps[1..], e);
    }
  }

  lemma {:induction false} CommasOutsideEnding(e: Ending)
    ensures |DropCommas(EraseEnding(e))| <= |EraseEnding(e)|
    ensures DropCommas(EraseEnding(e)) == EraseEnding(e)
            <==> forall b | b in Bodies([], e) :: !HoldsTrailingComma(b)
  {
    if e.OpenQuoted? {
      assert ("\"" + e.body)[1..] == e.body;
      DropNothing(e.body);
      assert Bodies([], e) == [e.body];
    }
  }

  /** Stripping does what it is for, on any text, exactly when no string holds a trailing comma. */
  lemma {:induction false} StripIsTidy(source: string)
    ensures var read := Lex(source);
            Strip(source) == Tidy(read.pieces, read.ending)
            <==> forall b | b in Bodies(read.pieces, read.ending) :: !HoldsTrailingComma(b)
  {
    var read := Lex(source);
    EveryTextIsPieces(source);
    ScanErasesComments(read.pieces, read.ending);
    CommasOutsideStrings(read.pieces, read.ending);
  }

  /** Stripping, which does what it is for if and only if no string holds a trailing comma. */
  method StripHujson(source: string) returns (out: string)
    ensures out == Strip(source)
    ensures var read := Lex(source);
            out == Tidy(read.pieces, read.ending)
            <==> forall b | b in Bodies(read.pieces, read.ending) :: !HoldsTrailingComma(b)
  {
    var scanned := ScanComments(source);
    out := DropCommas(scanned);
    StripIsTidy(source);
  }

  /** A string value that loses a character: the second pass does not know it is in a string. */
  lemma StripEatsIntoStrings()
    ensures Scan("\",]\"", false) == "\",]\"" && Strip("\",]\"") == "\"]\""
  {
    ScanQuoted(",]", "");
    var s := "\",]\"";
    assert "\"" + ",]" + "\"" + "" == s;
    assert s[1..] == ",]" + "\"" + "";
    DropInside(",]", "");
    assert ",]"[1..] == "]" && "]"[1..] == "";
    assert DropCommas(",]") == DropCommas("]") == "]";
  }
}
