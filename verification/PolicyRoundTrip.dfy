/** What survives a round trip of a policy document. */
module PolicyRoundTrip {
  import opened Text
  import opened Json
  import opened Edits
  import opened Policy
  import opened PolicyDocument

  // ---------------------------------------------------------------- well-formed documents

  predicate AllStrings(v: Value) {
    v.Arr? && forall x | x in v.items :: x.Str?
  }

  /** An object of string lists under distinct, non-blank names. */
  predicate NamedOk(v: Value) {
    && v.Obj?
    && DistinctKeys(v.members)
    && forall m | m in v.members :: !IsBlank(m.0) && AllStrings(m.1)
  }

  predicate HostsOk(v: Value) {
    && v.Obj?
    && DistinctKeys(v.members)
    && forall m | m in v.members :: !IsBlank(m.0) && m.1.Str?
  }

  predicate IfThere(v: Option<Value>, ok: Value -> bool) {
    v.Some? ==> ok(v.value)
  }

  predicate There(v: Option<Value>, ok: Value -> bool) {
    v.Some? && ok(v.value)
  }

  predicate IsAction(v: Value) {
    v.Str? && v.s != ""
  }

  predicate AclOk(o: Members) {
    && There(Get(o, "action"), IsAction)
    && There(Get(o, "src"), AllStrings)
    && There(Get(o, "dst"), AllStrings)
  }

  predicate SshOk(o: Members) {
    AclOk(o) && There(Get(o, "users"), AllStrings)
  }

  predicate AppOk(o: Members) {
    Get(o, "app") != Some(Obj([]))
  }

  predicate NodeAttrOk(o: Members) {
    && There(Get(o, "target"), AllStrings)
    && IfThere(Get(o, "attr"), AllStrings)
    && AppOk(o)
  }

  predicate GrantOk(o: Members) {
    && There(Get(o, "src"), AllStrings)
    && There(Get(o, "dst"), AllStrings)
    && IfThere(Get(o, "ip"), AllStrings)
    && IfThere(Get(o, "via"), AllStrings)
    && AppOk(o)
  }

  predicate ListOk(v: Value, ok: Members -> bool) {
    v.Arr? && forall x | x in v.items :: x.Obj? && ok(x.members)
  }

  predicate ApproversOk(v: Value) {
    && v.Obj?
    && IfThere(Get(v.members, "routes"), NamedOk)
    && IfThere(Get(v.members, "exitNode"), AllStrings)
  }

  /** Every modelled section that is there has the shape the editor writes. */
  predicate WellFormed(root: Members) {
    && IfThere(Get(root, "groups"), NamedOk)
    && IfThere(Get(root, "tagOwners"), NamedOk)
    && IfThere(Get(root, "hosts"), HostsOk)
    && IfThere(Get(root, "acls"), v => ListOk(v, AclOk))
    && IfThere(Get(root, "ssh"), v => ListOk(v, SshOk))
    && IfThere(Get(root, "nodeAttrs"), v => ListOk(v, NodeAttrOk))
    && IfThere(Get(root, "grants"), v => ListOk(v, GrantOk))
    && IfThere(Get(root, "autoApprovers"), ApproversOk)
  }

  // --------------------------------------------------------------------- string lists

  lemma {:induction false} StringsInAll(items: seq<Value>)
    requires forall x | x in items :: x.Str?
    ensures |StringsIn(items)| == |items|
    ensures forall i | 0 <= i < |items| :: StringsIn(items)[i] == items[i].s
  {
    if items != [] {
      assert items[0] in items;
      assert items == [items[0]] + items[1..];
      StringsInAll(items[1..]);
    }
  }

  lemma StringsReadBack(xs: seq<string>)
    ensures AllStrings(StringArr(xs)) && StringList(Some(StringArr(xs))) == xs
  {
    StringsInAll(Strings(xs));
  }

  /** A string list is written back as it was exactly when it held strings only. */
  lemma StringsWriteBack(v: Value)
    ensures StringArr(StringList(Some(v))) == v <==> AllStrings(v)
  {
    StringsReadBack(StringList(Some(v)));
    if AllStrings(v) {
      StringsInAll(v.items);
      forall i | 0 <= i < |v.items| ensures Strings(StringsIn(v.items))[i] == v.items[i] {
        assert v.items[i] in v.items;
      }
      assert Strings(StringsIn(v.items)) == v.items;
    }
  }

  // ------------------------------------------------------------------- named records

  predicate NamesOk(names: seq<string>) {
    && (forall i, j | 0 <= i < j < |names| :: names[i] != names[j])
    && (forall n | n in names :: !IsBlank(n))
  }

  function ListNames(lists: seq<NamedList>): (names: seq<string>)
    ensures |names| == |lists|
  {
    seq(|lists|, i requires 0 <= i < |lists| => lists[i].name)
  }

  function HostNames(hosts: seq<HostEntry>): (names: seq<string>)
    ensures |names| == |hosts|
  {
    seq(|hosts|, i requires 0 <= i < |hosts| => hosts[i].name)
  }

  /** Whatever the rows are, the record built from them is well formed. */
  lemma {:induction false} NamedRecordOk(lists: seq<NamedList>)
    ensures NamedOk(Obj(NamedRecord(lists)))
  {
    if lists != [] {
      var last := lists[|lists| - 1];
      NamedRecordOk(lists[..|lists| - 1]);
      PutDistinct(NamedRecord(lists[..|lists| - 1]), last.name, StringArr(last.values));
      StringsReadBack(last.values);
    }
  }

  lemma {:induction false} HostRecordOk(hosts: seq<HostEntry>)
    ensures HostsOk(Obj(HostRecord(hosts)))
  {
    if hosts != [] {
      var last := hosts[|hosts| - 1];
      HostRecordOk(hosts[..|hosts| - 1]);
      PutDistinct(HostRecord(hosts[..|hosts| - 1]), last.name, Str(last.cidr));
    }
  }

  lemma NamesOkBefore(names: seq<string>)
    requires NamesOk(names) && names != []
    ensures NamesOk(names[..|names| - 1]) && !IsBlank(names[|names| - 1])
    ensures forall i | 0 <= i < |names| - 1 :: names[i] != names[|names| - 1]
  {
    assert names[|names| - 1] in names;
  }

  lemma {:induction false} NotNamed(o: Members, name: string)
    requires forall i | 0 <= i < |o| :: o[i].0 != name
    ensures Get(o, name).None?
  { }

  /** Distinct non-blank names: the record is the rows, one member each, in their order. */
  lemma {:induction false} NamedRecordIsRows(lists: seq<NamedList>)
    requires NamesOk(ListNames(lists))
    ensures |NamedRecord(lists)| == |lists|
    ensures forall i | 0 <= i < |lists| :: NamedRecord(lists)[i] == (lists[i].name, StringArr(lists[i].values))
  {
    if lists != [] {
      var before, last, names := lists[..|lists| - 1], lists[|lists| - 1], ListNames(lists);
      NamesOkBefore(names);
      assert ListNames(before) == names[..|lists| - 1];
      NamedRecordIsRows(before);
      forall i | 0 <= i < |before| ensures NamedRecord(before)[i].0 != last.name {
        assert names[i] == lists[i].name;
      }
      NotNamed(NamedRecord(before), last.name);
      PutNew(NamedRecord(before), last.name, StringArr(last.values));
    }
  }

  lemma {:induction false} HostRecordIsRows(hosts: seq<HostEntry>)
    requires NamesOk(HostNames(hosts))
    ensures |HostRecord(hosts)| == |hosts|
    ensures forall i | 0 <= i < |hosts| :: HostRecord(hosts)[i] == (hosts[i].name, Str(hosts[i].cidr))
  {
    if hosts != [] {
      var before, last, names := hosts[..|hosts| - 1], hosts[|hosts| - 1], HostNames(hosts);
      NamesOkBefore(names);
      assert HostNames(before) == names[..|hosts| - 1];
      HostRecordIsRows(before);
      forall i | 0 <= i < |before| ensures HostRecord(before)[i].0 != last.name {
        assert names[i] == hosts[i].name;
      }
      NotNamed(HostRecord(before), last.name);
      PutNew(HostRecord(before), last.name, Str(last.cidr));
    }
  }

  /** Rows read back from their record exactly when their names are distinct and not blank. */
  lemma {:induction false} NamedReadBack(lists: seq<NamedList>)
    ensures ParseNamedLists(Some(Obj(NamedRecord(lists)))) == lists <==> NamesOk(ListNames(lists))
  {
    var record := NamedRecord(lists);
    var read := ParseNamedLists(Some(Obj(record)));
    NamedRecordOk(lists);
    if NamesOk(ListNames(lists)) {
      NamedRecordIsRows(lists);
      forall i | 0 <= i < |lists| ensures read[i] == lists[i] {
        StringsReadBack(lists[i].values);
      }
    }
    if read == lists {
      forall i | 0 <= i < |lists| ensures ListNames(lists)[i] == record[i].0 && record[i] in record {
        assert read[i].name == record[i].0;
      }
    }
  }

  lemma {:induction false} HostsReadBack(hosts: seq<HostEntry>)
    ensures ParseHosts(Some(Obj(HostRecord(hosts)))) == hosts <==> NamesOk(HostNames(hosts))
  {
    var record := HostRecord(hosts);
    var read := ParseHosts(Some(Obj(record)));
    HostRecordOk(hosts);
    if NamesOk(HostNames(hosts)) {
      HostRecordIsRows(hosts);
      assert read == hosts;
    }
    if read == hosts {
      forall i | 0 <= i < |hosts| ensures HostNames(hosts)[i] == record[i].0 && record[i] in record {
        assert read[i].name == record[i].0;
      }
    }
  }

  /** A name given twice keeps the values of its last row. */
  lemma {:induction false} LastRowWins(lists: seq<NamedList>, i: nat)
    requires i < |lists| && !IsBlank(lists[i].name)
    requires forall j | i < j < |lists| :: lists[j].name != lists[i].name
    ensures Get(NamedRecord(lists), lists[i].name) == Some(StringArr(lists[i].values))
  {
    var before, last := lists[..|lists| - 1], lists[|lists| - 1];
    GetPut(NamedRecord(before), last.name, StringArr(last.values), lists[i].name);
    if i < |lists| - 1 { LastRowWins(before, i); }
  }

  lemma NamedWriteBack(v: Value)
    ensures Obj(NamedRecord(ParseNamedLists(Some(v)))) == v <==> NamedOk(v)
  {
    var lists := ParseNamedLists(Some(v));
    NamedRecordOk(lists);
    if NamedOk(v) {
      forall i | 0 <= i < |v.members| ensures v.members[i] in v.members { }
      assert NamesOk(ListNames(lists));
      NamedRecordIsRows(lists);
      forall i | 0 <= i < |lists| ensures NamedRecord(lists)[i] == v.members[i] {
        StringsWriteBack(v.members[i].1);
      }
      assert NamedRecord(lists) == v.members;
    }
  }

  lemma HostsWriteBack(v: Value)
    ensures Obj(HostRecord(ParseHosts(Some(v)))) == v <==> HostsOk(v)
  {
    var hosts := ParseHosts(Some(v));
    HostRecordOk(hosts);
    if HostsOk(v) {
      forall i | 0 <= i < |v.members| ensures v.members[i] in v.members { }
      assert NamesOk(HostNames(hosts));
      HostRecordIsRows(hosts);
      assert HostRecord(hosts) == v.members;
    }
  }

  // ------------------------------------------------------------------------ rules

  function AclBack(o: Members): Value { AclJson(ParseAcl(o)) }

  function SshBack(o: Members): Value { SshJson(ParseSshRule(o)) }

  function NodeAttrBack(o: Members): Value { NodeAttrJson(ParseNodeAttr(o)) }

  function GrantBack(o: Members): Value { GrantJson(ParseGrant(o)) }

  /** A required string list: its write leaves it alone exactly when it is there and well formed. */
  lemma {:induction false} RequiredList(o: Members, key: string)
    ensures Kept(o, Always(key, StringArr(StringList(Get(o, key)))))
            <==> There(Get(o, key), AllStrings)
  {
    if Get(o, key).Some? { StringsWriteBack(Get(o, key).value); }
  }

  lemma {:induction false} OptionalList(o: Members, key: string)
    ensures Kept(o, WhenUsed(key, StringArr(StringList(Get(o, key)))))
            <==> IfThere(Get(o, key), AllStrings)
  {
    if Get(o, key).Some? { StringsWriteBack(Get(o, key).value); }
  }

  lemma {:induction false} ActionKept(o: Members)
    ensures Kept(o, Always("action", ActionText(ActionOf(o)))) <==> There(Get(o, "action"), IsAction)
  { }

  lemma AppKept(o: Members)
    ensures Kept(o, App(AppOf(o))) <==> AppOk(o)
  { }

  lemma AclDistinct(rule: AclRule)
    ensures DistinctSteps(AclSteps(rule))
  {
    assert |"action"| == 6 && "src"[0] != "dst"[0];
  }

  lemma SshDistinct(rule: SshRule)
    ensures DistinctSteps(SshSteps(rule))
  {
    assert |"action"| == 6 && |"users"| == 5 && "src"[0] != "dst"[0];
  }

  lemma NodeAttrDistinct(entry: NodeAttrEntry)
    ensures DistinctSteps(NodeAttrSteps(entry))
  {
    assert |"target"| == 6 && |"attr"| == 4 && |"app"| == 3;
  }

  lemma GrantDistinct(entry: GrantEntry)
    ensures DistinctSteps(GrantSteps(entry))
  {
    assert |"ip"| == 2 && "src"[0] != "dst"[0] && "src"[0] != "via"[0] && "src"[0] != "app"[0];
    assert "dst"[0] != "via"[0] && "dst"[0] != "app"[0] && "via"[0] != "app"[0];
  }

  /** A rule comes back as it was exactly when it is well formed. */
  lemma AclWriteBack(o: Members)
    ensures AclBack(o) == Obj(o) <==> AclOk(o)
  {
    var steps := AclSteps(ParseAcl(o));
    AclDistinct(ParseAcl(o));
    Unchanged(o, steps);
    ActionKept(o);
    RequiredList(o, "src");
    RequiredList(o, "dst");
    assert AllKept(o, steps) <==> Kept(o, steps[0]) && Kept(o, steps[1]) && Kept(o, steps[2]);
  }

  lemma SshWriteBack(o: Members)
    ensures SshBack(o) == Obj(o) <==> SshOk(o)
  {
    var steps := SshSteps(ParseSshRule(o));
    SshDistinct(ParseSshRule(o));
    Unchanged(o, steps);
    ActionKept(o);
    RequiredList(o, "src");
    RequiredList(o, "dst");
    RequiredList(o, "users");
    assert AllKept(o, steps)
           <==> Kept(o, steps[0]) && Kept(o, steps[1]) && Kept(o, steps[2]) && Kept(o, steps[3]);
  }

  lemma NodeAttrWriteBack(o: Members)
    ensures NodeAttrBack(o) == Obj(o) <==> NodeAttrOk(o)
  {
    var steps := NodeAttrSteps(ParseNodeAttr(o));
    NodeAttrDistinct(ParseNodeAttr(o));
    Unchanged(o, steps);
    RequiredList(o, "target");
    OptionalList(o, "attr");
    AppKept(o);
    assert AllKept(o, steps) <==> Kept(o, steps[0]) && Kept(o, steps[1]) && Kept(o, steps[2]);
  }

  lemma GrantWriteBack(o: Members)
    ensures GrantBack(o) == Obj(o) <==> GrantOk(o)
  {
    var steps := GrantSteps(ParseGrant(o));
    GrantDistinct(ParseGrant(o));
    Unchanged(o, steps);
    RequiredList(o, "src");
    RequiredList(o, "dst");
    OptionalList(o, "ip");
    OptionalList(o, "via");
    AppKept(o);
    assert AllKept(o, steps) <==> Kept(o, steps[0]) && Kept(o, steps[1]) && Kept(o, steps[2])
                                  && Kept(o, steps[3]) && Kept(o, steps[4]);
  }

  lemma {:induction false} ObjectsInAll(items: seq<Value>)
    requires forall x | x in items :: x.Obj?
    ensures |ObjectsIn(items)| == |items|
    ensures forall i | 0 <= i < |items| :: ObjectsIn(items)[i] == items[i].members
  {
    if items != [] {
      assert items[0] in items;
      assert items == [items[0]] + items[1..];
      ObjectsInAll(items[1..]);
    }
  }

  /** A section of rules comes back as it was exactly when every item is a well-formed rule. */
  lemma ListWriteBack(v: Value, back: Members -> Value, ok: Members -> bool)
    requires forall o :: back(o).Obj? && (back(o) == Obj(o) <==> ok(o))
    ensures Arr(MapSeq(back, ObjectList(Some(v)))) == v <==> ListOk(v, ok)
  {
    var outs := MapSeq(back, ObjectList(Some(v)));
    assert forall x | x in outs :: x.Obj?;
    if v.Arr? && forall x | x in v.items :: x.Obj? {
      ObjectsInAll(v.items);
      forall i | 0 <= i < |v.items| ensures outs[i] == v.items[i] <==> ok(v.items[i].members) {
        assert outs[i] == back(v.items[i].members);
      }
      if outs == v.items {
        forall x | x in v.items ensures ok(x.members) { }
      }
      if ListOk(v, ok) {
        forall i | 0 <= i < |v.items| ensures outs[i] == v.items[i] { assert v.items[i] in v.items; }
        assert outs == v.items;
      }
    }
  }

  lemma MapTwice<A, B, C>(f: A -> B, g: B -> C, h: A -> C, xs: seq<A>)
    requires forall x :: h(x) == g(f(x))
    ensures MapSeq(g, MapSeq(f, xs)) == MapSeq(h, xs)
  { }

  lemma ApproversWriteBack(v: Value)
    ensures ApproversJson(ParseAutoApprovers(Some(v)), Some(v)) == v <==> ApproversOk(v)
  {
    var o := MembersOf(Some(v));
    Unchanged(o, ApproverSteps(ParseAutoApprovers(Some(v))));
    if Get(o, "routes").Some? { NamedWriteBack(Get(o, "routes").value); }
    OptionalList(o, "exitNode");
  }

  // ------------------------------------------------------------- sections of the document

  lemma {:induction false} NamedKept(o: Members, key: string)
    ensures Kept(o, WhenUsed(key, Obj(NamedRecord(ParseNamedLists(Get(o, key))))))
            <==> IfThere(Get(o, key), NamedOk)
  {
    if Get(o, key).Some? { NamedWriteBack(Get(o, key).value); }
  }

  lemma {:induction false} HostsKept(o: Members, key: string)
    ensures Kept(o, WhenUsed(key, Obj(HostRecord(ParseHosts(Get(o, key))))))
            <==> IfThere(Get(o, key), HostsOk)
  {
    if Get(o, key).Some? { HostsWriteBack(Get(o, key).value); }
  }

  lemma {:induction false} RulesKept(o: Members, key: string, back: Members -> Value, ok: Members -> bool)
    requires forall x :: back(x).Obj? && (back(x) == Obj(x) <==> ok(x))
    ensures Kept(o, WhenUsed(key, Arr(MapSeq(back, ObjectList(Get(o, key))))))
            <==> IfThere(Get(o, key), v => ListOk(v, ok))
  {
    if Get(o, key).Some? { ListWriteBack(Get(o, key).value, back, ok); }
  }

  lemma {:induction false} AclsKept(root: Members)
    ensures Kept(root, WhenUsed("acls", Arr(MapSeq(AclJson, MapSeq(ParseAcl, ObjectList(Get(root, "acls")))))))
            <==> IfThere(Get(root, "acls"), v => ListOk(v, AclOk))
  {
    forall x ensures AclBack(x) == Obj(x) <==> AclOk(x) { AclWriteBack(x); }
    RulesKept(root, "acls", AclBack, AclOk);
    MapTwice(ParseAcl, AclJson, AclBack, ObjectList(Get(root, "acls")));
  }

  lemma {:induction false} SshKept(root: Members)
    ensures Kept(root, WhenUsed("ssh", Arr(MapSeq(SshJson, MapSeq(ParseSshRule, ObjectList(Get(root, "ssh")))))))
            <==> IfThere(Get(root, "ssh"), v => ListOk(v, SshOk))
  {
    forall x ensures SshBack(x) == Obj(x) <==> SshOk(x) { SshWriteBack(x); }
    RulesKept(root, "ssh", SshBack, SshOk);
    MapTwice(ParseSshRule, SshJson, SshBack, ObjectList(Get(root, "ssh")));
  }

  lemma {:induction false} NodeAttrsKept(root: Members)
    ensures Kept(root, WhenUsed("nodeAttrs",
                                Arr(MapSeq(NodeAttrJson, MapSeq(ParseNodeAttr, ObjectList(Get(root, "nodeAttrs")))))))
            <==> IfThere(Get(root, "nodeAttrs"), v => ListOk(v, NodeAttrOk))
  {
    forall x ensures NodeAttrBack(x) == Obj(x) <==> NodeAttrOk(x) { NodeAttrWriteBack(x); }
    RulesKept(root, "nodeAttrs", NodeAttrBack, NodeAttrOk);
    MapTwice(ParseNodeAttr, NodeAttrJson, NodeAttrBack, ObjectList(Get(root, "nodeAttrs")));
  }

  lemma {:induction false} GrantsKept(root: Members)
    ensures Kept(root, WhenUsed("grants",
                                Arr(MapSeq(GrantJson, MapSeq(ParseGrant, ObjectList(Get(root, "grants")))))))
            <==> IfThere(Get(root, "grants"), v => ListOk(v, GrantOk))
  {
    forall x ensures GrantBack(x) == Obj(x) <==> GrantOk(x) { GrantWriteBack(x); }
    RulesKept(root, "grants", GrantBack, GrantOk);
    MapTwice(ParseGrant, GrantJson, GrantBack, ObjectList(Get(root, "grants")));
  }

  lemma {:induction false} ApproversKept(root: Members)
    ensures Kept(root, WhenUsed("autoApprovers", ApproversJson(ParseAutoApprovers(Get(root, "autoApprovers")),
                                                               Get(root, "autoApprovers"))))
            <==> IfThere(Get(root, "autoApprovers"), ApproversOk)
  {
    if Get(root, "autoApprovers").Some? {
      ApproversWriteBack(Get(root, "autoApprovers").value);
    } else {
      assert ApproverSteps(ParseAutoApprovers(None))
             == [WhenUsed("routes", Obj([])), WhenUsed("exitNode", StringArr([]))];
      NothingWritten([], ApproverSteps(ParseAutoApprovers(None)));
    }
  }

  const SECTION_KEYS := ["groups", "tagOwners", "hosts", "acls", "ssh", "nodeAttrs", "grants", "autoApprovers"]

  lemma SectionKeysDistinct()
    ensures forall i, j | 0 <= i < j < 8 :: SECTION_KEYS[i] != SECTION_KEYS[j]
  {
    var sizes := [6, 9, 5, 4, 3, 9, 6, 13];
    assert forall i | 0 <= i < 8 :: |SECTION_KEYS[i]| == sizes[i];
    assert "groups"[2] != "grants"[2] && "tagOwners"[0] != "nodeAttrs"[0];
  }

  lemma DistinctByKeys(steps: seq<Step>, keys: seq<string>)
    requires |steps| == |keys| && forall i | 0 <= i < |steps| :: steps[i].Key() == keys[i]
    requires forall i, j | 0 <= i < j < |keys| :: keys[i] != keys[j]
    ensures DistinctSteps(steps)
  { }

  lemma RootStepsDistinct(m: PolicyModel, root: Members)
    ensures DistinctSteps(RootSteps(m, root))
  {
    SectionKeysDistinct();
    DistinctByKeys(RootSteps(m, root), SECTION_KEYS);
  }

  /** Any root comes back as the same tree, in the same key order, exactly when it is well formed. */
  lemma WriteBackIsIdentity(root: Members)
    ensures Serialized(ParseModel(root), root) == root <==> WellFormed(root)
  {
    var m := ParseModel(root);
    var steps := RootSteps(m, root);
    RootStepsDistinct(m, root);
    Unchanged(root, steps);
    NamedKept(root, "groups");
    NamedKept(root, "tagOwners");
    HostsKept(root, "hosts");
    AclsKept(root);
    SshKept(root);
    NodeAttrsKept(root);
    GrantsKept(root);
    ApproversKept(root);
    KeptEight(root, steps);
  }

  lemma KeptEight(root: Members, steps: seq<Step>)
    requires |steps| == 8
    ensures AllKept(root, steps)
            <==> && Kept(root, steps[0]) && Kept(root, steps[1]) && Kept(root, steps[2]) && Kept(root, steps[3])
                 && Kept(root, steps[4]) && Kept(root, steps[5]) && Kept(root, steps[6]) && Kept(root, steps[7])
  {
    AllEight(steps, step => Kept(root, step));
  }

  lemma AllEight<T>(xs: seq<T>, p: T -> bool)
    requires |xs| == 8
    ensures (forall i | 0 <= i < |xs| :: p(xs[i]))
            <==> && p(xs[0]) && p(xs[1]) && p(xs[2]) && p(xs[3])
                 && p(xs[4]) && p(xs[5]) && p(xs[6]) && p(xs[7])
  { }
}
