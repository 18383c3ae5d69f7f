/** The policy document as text, written and read again. */
module PolicyText {
  import opened Text
  import opened Json
  import opened Hujson
  import opened Printing
  import opened PrintingLaws
  import opened Rereading
  import opened Edits
  import opened Policy
  import opened PolicyDocument
  import opened PolicyRoundTrip
  import opened PolicyLaws
  import opened PolicyProper

  // ---------------------------------------------- reading keeps a document well formed

  lemma BlankIsSpace(s: string)
    ensures IsBlank(s) <==> forall c | c in s :: IsSpace(c)
  {
    TrimStartBlank(s);
    var t := TrimStart(s);
    if t != "" { TrimEndSolid(t); }
  }

  lemma {:induction false} TrimStartBlank(s: string)
    ensures TrimStart(s) == "" <==> forall c | c in s :: IsSpace(c)
    ensures TrimStart(s) != "" ==> !IsSpace(TrimStart(s)[0])
  {
    if s != "" && IsSpace(s[0]) {
      TrimStartBlank(s[1..]);
      assert s == [s[0]] + s[1..];
    }
  }

  lemma {:induction false} TrimEndSolid(s: string)
    requires s != "" && !IsSpace(s[0])
    ensures TrimEnd(s) != ""
  {
    if IsSpace(s[|s| - 1]) { TrimEndSolid(s[..|s| - 1]); }
  }

  lemma {:induction false} EatKeepsBlank(s: string)
    ensures IsBlank(Eat(s)) == IsBlank(s)
    ensures Eat(s) == "" <==> s == ""
  {
    BlankIsSpace(s);
    BlankIsSpace(Eat(s));
    EatKeeps(s);
    if exists c :: c in s && !IsSpace(c) {
      var c :| c in s && !IsSpace(c);
      if HasCloser(s) {
        var d := if '}' in s then '}' else ']';
        assert d in s && d in Eat(s) && !IsSpace(d);
      }
    }
    if s != "" && !HasCloser(s) { assert Eat(s) == s; }
    if HasCloser(s) { assert '}' in Eat(s) || ']' in Eat(s); }
  }

  lemma RereadStrings(v: Value)
    requires AllStrings(v)
    ensures AllStrings(Reread(v)) && |Reread(v).items| == |v.items|
    ensures forall i | 0 <= i < |v.items| :: v.items[i].Str? && Reread(v).items[i] == Str(Eat(v.items[i].s))
  {
    forall i | 0 <= i < |v.items|
      ensures v.items[i].Str? && |Reread(v).items| == |v.items| && Reread(v).items[i] == Str(Eat(v.items[i].s))
    {
      assert v.items[i] in v.items;
      RereadItemAt(v.items, i);
    }
    assert v.items == [] ==> Reread(v).items == [];
  }

  lemma RereadNamed(v: Value)
    requires NamedOk(v)
    ensures NamedOk(Reread(v))
  {
    RereadFrom(v.members);
    forall r | r in RereadMembers(v.members) ensures !IsBlank(r.0) && AllStrings(r.1) {
      var m :| m in v.members && r == (Eat(m.0), Reread(m.1));
      EatKeepsBlank(m.0);
      RereadStrings(m.1);
    }
  }

  lemma RereadHosts(v: Value)
    requires HostsOk(v)
    ensures HostsOk(Reread(v))
  {
    RereadFrom(v.members);
    forall r | r in RereadMembers(v.members) ensures !IsBlank(r.0) && r.1.Str? {
      var m :| m in v.members && r == (Eat(m.0), Reread(m.1));
      EatKeepsBlank(m.0);
    }
  }

  lemma {:induction false} RereadList(o: Members, key: string)
    requires DistinctKeys(o) && !HasCloser(key) && IfThere(Get(o, key), AllStrings)
    ensures IfThere(Get(RereadMembers(o), key), AllStrings)
    ensures Get(RereadMembers(o), key).Some? == Get(o, key).Some?
  {
    RereadAt(o, key);
    if Get(o, key).Some? { RereadStrings(Get(o, key).value); }
  }

  lemma RereadActionThere(o: Members)
    requires DistinctKeys(o) && There(Get(o, "action"), IsAction)
    ensures There(Get(RereadMembers(o), "action"), IsAction)
  {
    RereadAt(o, "action");
    EatKeepsBlank(Get(o, "action").value.s);
  }

  lemma RereadAction(o: Members)
    requires DistinctKeys(o) && There(Get(o, "action"), IsAction)
    ensures ActionOf(RereadMembers(o)) == Eat(ActionOf(o))
  {
    RereadAt(o, "action");
  }

  lemma RereadApp(o: Members)
    requires DistinctKeys(o)
    ensures AppOk(o) ==> AppOk(RereadMembers(o))
    ensures AppOf(RereadMembers(o)) == if AppOf(o).Some? then Some(RereadMembers(AppOf(o).value)) else None
  {
    RereadAt(o, "app");
    if AppOf(o).Some? { RereadFrom(AppOf(o).value); }
  }

  lemma RereadAcl(o: Members)
    requires DistinctKeys(o) && AclOk(o)
    ensures AclOk(RereadMembers(o))
  {
    RereadActionThere(o);
    RereadList(o, "src");
    RereadList(o, "dst");
  }

  lemma RereadSsh(o: Members)
    requires DistinctKeys(o) && SshOk(o)
    ensures SshOk(RereadMembers(o))
  {
    RereadAcl(o);
    RereadList(o, "users");
  }

  lemma RereadNodeAttr(o: Members)
    requires DistinctKeys(o) && NodeAttrOk(o)
    ensures NodeAttrOk(RereadMembers(o))
  {
    RereadApp(o);
    RereadList(o, "target");
    RereadList(o, "attr");
  }

  lemma RereadGrant(o: Members)
    requires DistinctKeys(o) && GrantOk(o)
    ensures GrantOk(RereadMembers(o))
  {
    RereadApp(o);
    RereadList(o, "src");
    RereadList(o, "dst");
    RereadList(o, "ip");
    RereadList(o, "via");
  }

  lemma {:induction false} RereadRules(v: Value, ok: Members -> bool)
    requires ListOk(v, ok) && Proper(v)
    requires forall o | DistinctKeys(o) && ok(o) :: ok(RereadMembers(o))
    ensures ListOk(Reread(v), ok) && |Reread(v).items| == |v.items|
    ensures forall i | 0 <= i < |v.items| :: v.items[i].Obj? && Reread(v).items[i] == Obj(RereadMembers(v.items[i].members))
  {
    ProperItemsAll(v.items);
    forall i | 0 <= i < |v.items|
      ensures v.items[i].Obj? && |Reread(v).items| == |v.items|
      ensures Reread(v).items[i] == Obj(RereadMembers(v.items[i].members)) && ok(RereadMembers(v.items[i].members))
    {
      assert v.items[i] in v.items;
      RereadItemAt(v.items, i);
    }
    assert v.items == [] ==> Reread(v).items == [];
  }

  lemma {:induction false} RereadApprovers(v: Value)
    requires ApproversOk(v) && Proper(v)
    ensures ApproversOk(Reread(v))
  {
    RereadAt(v.members, "routes");
    RereadList(v.members, "exitNode");
    if Get(v.members, "routes").Some? { RereadNamed(Get(v.members, "routes").value); }
  }

  lemma RereadAclSections(root: Members)
    requires WellFormed(root) && ProperObject(root)
    ensures IfThere(Get(RereadMembers(root), "acls"), v => ListOk(v, AclOk))
    ensures IfThere(Get(RereadMembers(root), "ssh"), v => ListOk(v, SshOk))
  {
    RereadAt(root, "acls");
    RereadAt(root, "ssh");
    ValueProper(root, "acls");
    ValueProper(root, "ssh");
    forall o | DistinctKeys(o) && AclOk(o) ensures AclOk(RereadMembers(o)) { RereadAcl(o); }
    forall o | DistinctKeys(o) && SshOk(o) ensures SshOk(RereadMembers(o)) { RereadSsh(o); }
    if Get(root, "acls").Some? { RereadRules(Get(root, "acls").value, AclOk); }
    if Get(root, "ssh").Some? { RereadRules(Get(root, "ssh").value, SshOk); }
  }

  lemma RereadGrantSections(root: Members)
    requires WellFormed(root) && ProperObject(root)
    ensures IfThere(Get(RereadMembers(root), "nodeAttrs"), v => ListOk(v, NodeAttrOk))
    ensures IfThere(Get(RereadMembers(root), "grants"), v => ListOk(v, GrantOk))
  {
    RereadAt(root, "nodeAttrs");
    RereadAt(root, "grants");
    ValueProper(root, "nodeAttrs");
    ValueProper(root, "grants");
    forall o | DistinctKeys(o) && NodeAttrOk(o) ensures NodeAttrOk(RereadMembers(o)) { RereadNodeAttr(o); }
    forall o | DistinctKeys(o) && GrantOk(o) ensures GrantOk(RereadMembers(o)) { RereadGrant(o); }
    if Get(root, "nodeAttrs").Some? { RereadRules(Get(root, "nodeAttrs").value, NodeAttrOk); }
    if Get(root, "grants").Some? { RereadRules(Get(root, "grants").value, GrantOk); }
  }

  lemma RereadNamedSections(root: Members)
    requires WellFormed(root) && ProperObject(root)
    ensures IfThere(Get(RereadMembers(root), "groups"), NamedOk)
    ensures IfThere(Get(RereadMembers(root), "tagOwners"), NamedOk)
    ensures IfThere(Get(RereadMembers(root), "hosts"), HostsOk)
    ensures IfThere(Get(RereadMembers(root), "autoApprovers"), ApproversOk)
  {
    RereadAt(root, "groups");
    RereadAt(root, "tagOwners");
    RereadAt(root, "hosts");
    RereadAt(root, "autoApprovers");
    ValueProper(root, "autoApprovers");
    if Get(root, "groups").Some? { RereadNamed(Get(root, "groups").value); }
    if Get(root, "tagOwners").Some? { RereadNamed(Get(root, "tagOwners").value); }
    if Get(root, "hosts").Some? { RereadHosts(Get(root, "hosts").value); }
    if Get(root, "autoApprovers").Some? { RereadApprovers(Get(root, "autoApprovers").value); }
  }

  /** A well-formed document stays well formed when its print is stripped and read. */
  lemma RereadWellFormed(root: Members)
    requires WellFormed(root) && ProperObject(root)
    ensures WellFormed(RereadMembers(root))
  {
    RereadNamedSections(root);
    RereadAclSections(root);
    RereadGrantSections(root);
  }

  // -------------------------------------------------------------------- texts

  /** `JSON.parse`: the tree a text spells, or why it spells none. */
  type Reader = string -> Source

  /** All that is assumed of it: the print of a tree is read as that tree. */
  ghost predicate ReadsPrint(read: Reader, v: Value) {
    read(Printed(v)) == Document(Collapse(v))
  }

  /** The tree that a text is the print of, where it is one. */
  ghost function PrintedTree(text: string): Source {
    if v: Value :| Printed(v) == text then Document(Collapse(v)) else Unreadable("not a print")
  }

  /** The assumption can be met, for all trees at once: no two of them are printed alike. */
  lemma ReaderExists()
    ensures forall v :: ReadsPrint(PrintedTree, v)
  {
    forall v ensures ReadsPrint(PrintedTree, v) {
      var w: Value :| Printed(w) == Printed(v) && PrintedTree(Printed(v)) == Document(Collapse(w));
      PrintedUnique(v, w);
    }
  }

  /** Blank texts are not parsed, others are stripped first. */
  function ReadText(read: Reader, text: string): Source {
    if IsBlank(text) then Blank else read(Strip(text))
  }

  function RoundTripText(read: Reader, text: string): string {
    Printed(Obj(RoundTrip(ReadText(read, text))))
  }

  lemma PrintedNotBlank(v: Value)
    ensures !IsBlank(Printed(v))
  {
    PrintStarts(v, 0);
    BlankIsSpace(Printed(v));
    assert Printed(v)[0] in Printed(v);
  }

  /** A printed document is read as its tree after the comma pass has been at its strings. */
  lemma ReadPrinted(read: Reader, root: Members)
    requires ReadsPrint(read, Eaten(Obj(root)))
    ensures ReadText(read, Printed(Obj(root))) == Document(Obj(RereadMembers(root)))
  {
    PrintedNotBlank(Obj(root));
    StripPrinted(Obj(root));
  }

  lemma ParsedSource(source: Source)
    requires source.Document? ==> Proper(source.value)
    ensures ProperObject(RoundTrip(source)) && WellFormed(RoundTrip(source))
  {
    var parsed := ParsePolicy(source);
    assert ProperObject(parsed.root);
    if source.Document? && source.value.Obj? { ParsedProper(parsed.root); }
    SerializedProper(parsed.model, parsed.root);
    WrittenIsWellFormed(parsed.model, parsed.root);
  }

  /** A printed tree is printed alike once stripped and read exactly when it is spared. */
  lemma PrintedAlike(root: Members)
    requires ProperObject(root)
    ensures Printed(Obj(RereadMembers(root))) == Printed(Obj(root)) <==> Spared(Obj(root))
  {
    assert Reread(Obj(root)) == Obj(RereadMembers(root));
    if Spared(Obj(root)) { RereadSpared(Obj(root)); } else { RereadIsShorter(Obj(root)); }
  }

  lemma RewritingReads(read: Reader, root: Members)
    requires WellFormed(root) && ProperObject(root) && ReadsPrint(read, Eaten(Obj(root)))
    ensures RoundTrip(ReadText(read, Printed(Obj(root)))) == RereadMembers(root)
  {
    ReadPrinted(read, root);
    RereadWellFormed(root);
    RoundTripOf(RereadMembers(root));
    WriteBackIsIdentity(RereadMembers(root));
  }

  /** Reading a text that was written, and writing it again, gives the same text exactly when no key and
      no string in it holds a trailing comma in print. */
  lemma RewritingText(read: Reader, root: Members)
    requires WellFormed(root) && ProperObject(root) && ReadsPrint(read, Eaten(Obj(root)))
    ensures RoundTripText(read, Printed(Obj(root))) == Printed(Obj(RereadMembers(root)))
    ensures RoundTripText(read, Printed(Obj(root))) == Printed(Obj(root)) <==> Spared(Obj(root))
  {
    RewritingReads(read, root);
    PrintedAlike(root);
  }

  /** For every text: a second round trip changes nothing if and only if the first one wrote no key and
      no string that holds, in print, a comma, white space and a closer. */
  lemma SecondRoundTripExactly(read: Reader, text: string)
    requires ReadText(read, text).Document? ==> Proper(ReadText(read, text).value)
    requires ReadsPrint(read, Eaten(Obj(RoundTrip(ReadText(read, text)))))
    ensures var once := RoundTripText(read, text);
            RoundTripText(read, once) == once <==> Spared(Obj(RoundTrip(ReadText(read, text))))
  {
    ParsedSource(ReadText(read, text));
    RewritingText(read, RoundTrip(ReadText(read, text)));
  }

  /** A document with one unknown key. */
  function OneKey(s: string): Members {
    [("x", Str(s))]
  }

  lemma {:induction false} OneKeyRead(s: string)
    ensures ProperObject(OneKey(s)) && EatenMembers(OneKey(s)) == OneKey(Eat(s))
  {
    var root := OneKey(s);
    assert root[1..] == [];
    assert ProperMember(root[0]) && ProperMembers(root[1..]);
    EatKeeps("x");
    assert EatenMember(root[0]) == ("x", Str(Eat(s))) && EatenMembers(root[1..]) == [];
  }

  lemma {:induction false} OneKeyText(read: Reader, s: string)
    requires ReadsPrint(read, Obj(OneKey(Eat(s))))
    ensures RoundTripText(read, Printed(Obj(OneKey(s)))) == Printed(Obj(OneKey(Eat(s))))
  {
    OneKeyRead(s);
    OneKeyRead(Eat(s));
    CollapseProper(Obj(OneKey(Eat(s))));
    RewritingText(read, OneKey(s));
  }

  lemma {:induction false} PrintedApart(s: string, t: string)
    requires |Escape(s)| != |Escape(t)|
    ensures Printed(Obj(OneKey(s))) != Printed(Obj(OneKey(t)))
  {
    OneKeyPrint(s);
    OneKeyPrint(t);
  }

  lemma {:induction false} OneKeyPrint(s: string)
    ensures |Printed(Obj(OneKey(s)))| == |Printed(Obj(OneKey("")))| + |Escape(s)|
  {
    assert OneKey(s)[1..] == [] && OneKey("")[1..] == [];
    assert OneKey(s)[0] == ("x", Str(s)) && OneKey("")[0] == ("x", Str(""));
    assert PrintMembers(OneKey(s), 1) == PrintMember(("x", Str(s)), 1);
    assert PrintMembers(OneKey(""), 1) == PrintMember(("x", Str("")), 1);
    assert |PrintText(Str(s), 1)| == |PrintText(Str(""), 1)| + |Escape(s)|;
  }

  lemma EatCommas()
    ensures Eat(",,]") == ",]" && Eat(",]") == "]"
    ensures |Escape("]")| == 1 && |Escape(",]")| == 2 && |Escape(",,]")| == 3
  {
    assert ",,]"[1..] == ",]" && ",]"[1..] == "]" && "]"[1..] == "";
    assert Escape("]") == "]" && Escape(",]") == ",]";
  }

  /** A document that two round trips change twice: its string loses one comma to each. */
  lemma EachRoundTripEats(read: Reader)
    requires ReadsPrint(read, Obj(OneKey(",]"))) && ReadsPrint(read, Obj(OneKey("]")))
    ensures var text := Printed(Obj(OneKey(",,]")));
            var once := RoundTripText(read, text);
            && once == Printed(Obj(OneKey(",]"))) != text
            && RoundTripText(read, once) == Printed(Obj(OneKey("]"))) != once
  {
    EatCommas();
    OneKeyText(read, ",,]");
    OneKeyText(read, ",]");
    PrintedApart(",,]", ",]");
    PrintedApart(",]", "]");
  }
}
