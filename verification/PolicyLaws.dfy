/** What edits do to a document, and what they do not. */
module PolicyLaws {
  import opened Text
  import opened Json
  import opened Edits
  import opened Policy
  import opened PolicyDocument
  import opened PolicyRoundTrip

  // ------------------------------------------------------------ one write, read back

  lemma {:induction false} ListWritten(source: Members, steps: seq<Step>, i: nat, key: string, xs: seq<string>)
    requires DistinctSteps(steps) && i < |steps| && steps[i] == Always(key, StringArr(xs))
    ensures There(Get(Written(source, steps), key), AllStrings)
    ensures StringList(Get(Written(source, steps), key)) == xs
  {
    WrittenAt(source, steps, i);
    StringsReadBack(xs);
  }

  lemma {:induction false} OptionalWritten(source: Members, steps: seq<Step>, i: nat, key: string, xs: seq<string>)
    requires DistinctSteps(steps) && i < |steps| && steps[i] == WhenUsed(key, StringArr(xs))
    ensures IfThere(Get(Written(source, steps), key), AllStrings)
    ensures StringList(Get(Written(source, steps), key)) == xs
  {
    WrittenAt(source, steps, i);
    StringsReadBack(xs);
  }

  function Shown(action: string): string {
    if action == "" then "accept" else action
  }

  lemma ActionWritten(source: Members, steps: seq<Step>, action: string)
    requires DistinctSteps(steps) && 0 < |steps| && steps[0] == Always("action", ActionText(action))
    ensures There(Get(Written(source, steps), "action"), IsAction)
    ensures ActionOf(Written(source, steps)) == Shown(action)
  {
    WrittenAt(source, steps, 0);
  }

  function Used(app: Option<Members>): Option<Members> {
    if app == Some([]) then None else app
  }

  lemma AppWritten(source: Members, steps: seq<Step>, i: nat, app: Option<Members>)
    requires DistinctSteps(steps) && i < |steps| && steps[i] == App(app)
    ensures AppOk(Written(source, steps))
    ensures AppOf(Written(source, steps)) == Used(app)
  {
    WrittenAt(source, steps, i);
  }

  // ------------------------------------------------------------ one rule, read back

  /** What a rule says, apart from the object it was read from. */
  function AclContent(rule: AclRule): AclRule { rule.(raw := None) }

  function SshContent(rule: SshRule): SshRule { rule.(raw := None) }

  function NodeAttrContent(entry: NodeAttrEntry): NodeAttrEntry { entry.(raw := None) }

  function GrantContent(entry: GrantEntry): GrantEntry { entry.(raw := None) }

  /** A written rule is well formed and reads back with the default action filled in. */
  lemma AclWritten(rule: AclRule)
    ensures AclOk(AclJson(rule).members)
    ensures AclContent(ParseAcl(AclJson(rule).members)) == AclContent(rule).(action := Shown(rule.action))
  {
    var raw, steps := RawOf(rule.raw), AclSteps(rule);
    AclDistinct(rule);
    ActionWritten(raw, steps, rule.action);
    ListWritten(raw, steps, 1, "src", rule.src);
    ListWritten(raw, steps, 2, "dst", rule.dst);
  }

  lemma SshWritten(rule: SshRule)
    ensures SshOk(SshJson(rule).members)
    ensures SshContent(ParseSshRule(SshJson(rule).members)) == SshContent(rule).(action := Shown(rule.action))
  {
    var raw, steps := RawOf(rule.raw), SshSteps(rule);
    SshDistinct(rule);
    ActionWritten(raw, steps, rule.action);
    ListWritten(raw, steps, 1, "src", rule.src);
    ListWritten(raw, steps, 2, "dst", rule.dst);
    ListWritten(raw, steps, 3, "users", rule.users);
  }

  lemma NodeAttrWritten(entry: NodeAttrEntry)
    ensures NodeAttrOk(NodeAttrJson(entry).members)
    ensures NodeAttrContent(ParseNodeAttr(NodeAttrJson(entry).members)) == NodeAttrContent(entry).(app := Used(entry.app))
  {
    var raw, steps := RawOf(entry.raw), NodeAttrSteps(entry);
    NodeAttrDistinct(entry);
    ListWritten(raw, steps, 0, "target", entry.target);
    OptionalWritten(raw, steps, 1, "attr", entry.attr);
    AppWritten(raw, steps, 2, entry.app);
  }

  lemma GrantWritten(entry: GrantEntry)
    ensures GrantOk(GrantJson(entry).members)
    ensures GrantContent(ParseGrant(GrantJson(entry).members)) == GrantContent(entry).(app := Used(entry.app))
  {
    var raw, steps := RawOf(entry.raw), GrantSteps(entry);
    GrantDistinct(entry);
    ListWritten(raw, steps, 0, "src", entry.src);
    ListWritten(raw, steps, 1, "dst", entry.dst);
    OptionalWritten(raw, steps, 2, "ip", entry.ip);
    OptionalWritten(raw, steps, 3, "via", entry.via);
    AppWritten(raw, steps, 4, entry.app);
  }

  lemma ApproversWritten(a: AutoApprovers, raw: Option<Value>)
    ensures ApproversOk(ApproversJson(a, raw))
    ensures var read := ParseAutoApprovers(Some(ApproversJson(a, raw)));
            && read.exitNode == a.exitNode
            && (read.routes == a.routes <==> NamesOk(ListNames(a.routes)))
  {
    var source, steps := MembersOf(raw), ApproverSteps(a);
    assert |"routes"| != |"exitNode"|;
    WrittenAt(source, steps, 0);
    OptionalWritten(source, steps, 1, "exitNode", a.exitNode);
    NamedRecordOk(a.routes);
    NamedSectionReads(source, Written(source, steps), "routes", a.routes);
  }

  /** A written section of named lists gives the rows back exactly when their names allow it. */
  lemma {:induction false} NamedSectionReads(source: Members, out: Members, key: string, lists: seq<NamedList>)
    requires Get(out, key) == Result(source, WhenUsed(key, Obj(NamedRecord(lists))))
    ensures IfThere(Get(out, key), NamedOk)
    ensures ParseNamedLists(Get(out, key)) == lists <==> NamesOk(ListNames(lists))
  {
    NamedRecordOk(lists);
    NamedReadBack(lists);
  }

  lemma {:induction false} HostsSectionReads(source: Members, out: Members, key: string, hosts: seq<HostEntry>)
    requires Get(out, key) == Result(source, WhenUsed(key, Obj(HostRecord(hosts))))
    ensures IfThere(Get(out, key), HostsOk)
    ensures ParseHosts(Get(out, key)) == hosts <==> NamesOk(HostNames(hosts))
  {
    HostRecordOk(hosts);
    HostsReadBack(hosts);
  }

  /** A written section of rules reads back rule by rule. */
  lemma {:induction false} RulesSectionReads<T>(source: Members, out: Members, key: string, rules: seq<T>,
                                                write: T -> Value, read: Members -> T, ok: Members -> bool)
    requires Get(out, key) == Result(source, WhenUsed(key, Arr(MapSeq(write, rules))))
    requires forall r :: write(r).Obj? && ok(write(r).members)
    ensures IfThere(Get(out, key), v => ListOk(v, ok))
    ensures MapSeq(read, ObjectList(Get(out, key))) == seq(|rules|, i requires 0 <= i < |rules| => read(write(rules[i]).members))
  {
    var items := MapSeq(write, rules);
    forall x | x in items ensures x.Obj? && ok(x.members) {
      var i :| 0 <= i < |rules| && items[i] == x;
      assert x == write(rules[i]);
    }
    ObjectsInAll(items);
  }

  // -------------------------------------------------------------- the whole document

  /** The section a model writes, as it stands in the written document. */
  lemma SectionWritten(m: PolicyModel, root: Members, i: nat)
    requires i < 8
    ensures Get(Serialized(m, root), RootSteps(m, root)[i].Key()) == Result(root, RootSteps(m, root)[i])
  {
    RootStepsDistinct(m, root);
    WrittenAt(root, RootSteps(m, root), i);
  }

  lemma AclSection(m: PolicyModel, root: Members)
    ensures IfThere(Get(Serialized(m, root), "acls"), v => ListOk(v, AclOk))
    ensures var read := ParseModel(Serialized(m, root)).acls;
            && |read| == |m.acls|
            && forall i | 0 <= i < |read| :: read[i] == ParseAcl(AclJson(m.acls[i]).members)
  {
    SectionWritten(m, root, 3);
    forall r ensures AclOk(AclJson(r).members) { AclWritten(r); }
    RulesSectionReads(root, Serialized(m, root), "acls", m.acls, AclJson, ParseAcl, AclOk);
  }

  lemma AclsRead(m: PolicyModel, root: Members)
    ensures SameAcls(ParseModel(Serialized(m, root)).acls, m.acls)
            <==> forall i | 0 <= i < |m.acls| :: m.acls[i].action != ""
  {
    AclSection(m, root);
    var read := MapSeq(AclContent, ParseModel(Serialized(m, root)).acls);
    var kept := MapSeq(AclContent, m.acls);
    forall i | 0 <= i < |m.acls| ensures read[i] == kept[i] <==> m.acls[i].action != "" {
      AclWritten(m.acls[i]);
    }
  }

  lemma SshSection(m: PolicyModel, root: Members)
    ensures IfThere(Get(Serialized(m, root), "ssh"), v => ListOk(v, SshOk))
    ensures var read := ParseModel(Serialized(m, root)).ssh;
            && |read| == |m.ssh|
            && forall i | 0 <= i < |read| :: read[i] == ParseSshRule(SshJson(m.ssh[i]).members)
  {
    SectionWritten(m, root, 4);
    forall r ensures SshOk(SshJson(r).members) { SshWritten(r); }
    RulesSectionReads(root, Serialized(m, root), "ssh", m.ssh, SshJson, ParseSshRule, SshOk);
  }

  lemma SshRead(m: PolicyModel, root: Members)
    ensures SameSshRules(ParseModel(Serialized(m, root)).ssh, m.ssh)
            <==> forall i | 0 <= i < |m.ssh| :: m.ssh[i].action != ""
  {
    SshSection(m, root);
    var read := MapSeq(SshContent, ParseModel(Serialized(m, root)).ssh);
    var kept := MapSeq(SshContent, m.ssh);
    forall i | 0 <= i < |m.ssh| ensures read[i] == kept[i] <==> m.ssh[i].action != "" {
      SshWritten(m.ssh[i]);
    }
  }

  lemma NodeAttrSection(m: PolicyModel, root: Members)
    ensures IfThere(Get(Serialized(m, root), "nodeAttrs"), v => ListOk(v, NodeAttrOk))
    ensures var read := ParseModel(Serialized(m, root)).nodeAttrs;
            && |read| == |m.nodeAttrs|
            && forall i | 0 <= i < |read| :: read[i] == ParseNodeAttr(NodeAttrJson(m.nodeAttrs[i]).members)
  {
    SectionWritten(m, root, 5);
    forall e ensures NodeAttrOk(NodeAttrJson(e).members) { NodeAttrWritten(e); }
    RulesSectionReads(root, Serialized(m, root), "nodeAttrs", m.nodeAttrs, NodeAttrJson, ParseNodeAttr, NodeAttrOk);
  }

  lemma NodeAttrsRead(m: PolicyModel, root: Members)
    ensures SameNodeAttrs(ParseModel(Serialized(m, root)).nodeAttrs, m.nodeAttrs)
            <==> forall i | 0 <= i < |m.nodeAttrs| :: m.nodeAttrs[i].app != Some([])
  {
    NodeAttrSection(m, root);
    var read := MapSeq(NodeAttrContent, ParseModel(Serialized(m, root)).nodeAttrs);
    var kept := MapSeq(NodeAttrContent, m.nodeAttrs);
    forall i | 0 <= i < |m.nodeAttrs| ensures read[i] == kept[i] <==> m.nodeAttrs[i].app != Some([]) {
      NodeAttrWritten(m.nodeAttrs[i]);
    }
  }

  lemma GrantSection(m: PolicyModel, root: Members)
    ensures IfThere(Get(Serialized(m, root), "grants"), v => ListOk(v, GrantOk))
    ensures var read := ParseModel(Serialized(m, root)).grants;
            && |read| == |m.grants|
            && forall i | 0 <= i < |read| :: read[i] == ParseGrant(GrantJson(m.grants[i]).members)
  {
    SectionWritten(m, root, 6);
    forall e ensures GrantOk(GrantJson(e).members) { GrantWritten(e); }
    RulesSectionReads(root, Serialized(m, root), "grants", m.grants, GrantJson, ParseGrant, GrantOk);
  }

  lemma GrantsRead(m: PolicyModel, root: Members)
    ensures SameGrants(ParseModel(Serialized(m, root)).grants, m.grants)
            <==> forall i | 0 <= i < |m.grants| :: m.grants[i].app != Some([])
  {
    GrantSection(m, root);
    var read := MapSeq(GrantContent, ParseModel(Serialized(m, root)).grants);
    var kept := MapSeq(GrantContent, m.grants);
    forall i | 0 <= i < |m.grants| ensures read[i] == kept[i] <==> m.grants[i].app != Some([]) {
      GrantWritten(m.grants[i]);
    }
  }

  lemma NamedSectionsRead(m: PolicyModel, root: Members)
    ensures var out := Serialized(m, root);
            && IfThere(Get(out, "groups"), NamedOk)
            && IfThere(Get(out, "tagOwners"), NamedOk)
            && IfThere(Get(out, "hosts"), HostsOk)
            && (ParseModel(out).groups == m.groups <==> NamesOk(ListNames(m.groups)))
            && (ParseModel(out).tagOwners == m.tagOwners <==> NamesOk(ListNames(m.tagOwners)))
            && (ParseModel(out).hosts == m.hosts <==> NamesOk(HostNames(m.hosts)))
  {
    var out := Serialized(m, root);
    SectionWritten(m, root, 0);
    SectionWritten(m, root, 1);
    SectionWritten(m, root, 2);
    NamedSectionReads(root, out, "groups", m.groups);
    NamedSectionReads(root, out, "tagOwners", m.tagOwners);
    HostsSectionReads(root, out, "hosts", m.hosts);
  }

  lemma ApproversRead(m: PolicyModel, root: Members)
    ensures var out := Serialized(m, root);
            && IfThere(Get(out, "autoApprovers"), ApproversOk)
            && (ParseModel(out).autoApprovers == m.autoApprovers <==> NamesOk(ListNames(m.autoApprovers.routes)))
  {
    var raw := Get(root, "autoApprovers");
    SectionWritten(m, root, 7);
    ApproversWritten(m.autoApprovers, raw);
    if Get(Serialized(m, root), "autoApprovers").None? {
      assert ApproversJson(m.autoApprovers, raw) == Obj([]);
      assert ParseAutoApprovers(Some(Obj([]))) == ParseAutoApprovers(None);
    }
  }

  /** Whatever the model and the root, what is written is well formed. */
  lemma WrittenIsWellFormed(m: PolicyModel, root: Members)
    ensures WellFormed(Serialized(m, root))
  {
    NamedSectionsRead(m, root);
    AclSection(m, root);
    SshSection(m, root);
    NodeAttrSection(m, root);
    GrantSection(m, root);
    ApproversRead(m, root);
  }

  /** So a document the editor wrote is never changed by reading it and writing it again. */
  lemma RewritingChangesNothing(m: PolicyModel, root: Members)
    ensures var out := Serialized(m, root);
            Serialized(ParseModel(out), out) == out
  {
    WrittenIsWellFormed(m, root);
    WriteBackIsIdentity(Serialized(m, root));
  }

  lemma RoundTripOf(root: Members)
    ensures RoundTrip(Document(Obj(root))) == Serialized(ParseModel(root), root)
  {
    ParsedDocument(root);
    var parsed := ParsePolicy(Document(Obj(root)));
    assert parsed.model == ParseModel(root) && parsed.root == root;
  }

  lemma ParsedDocument(root: Members)
    ensures ParsePolicy(Document(Obj(root))) == ParsedPolicy(true, ParseModel(root), root, None)
  { }

  /** For any source, even a blank or an unreadable one, a second round trip changes nothing. */
  lemma SecondRoundTripChangesNothing(source: Source)
    ensures RoundTrip(Document(Obj(RoundTrip(source)))) == RoundTrip(source)
  {
    var parsed := ParsePolicy(source);
    RoundTripOf(RoundTrip(source));
    RewritingChangesNothing(parsed.model, parsed.root);
  }

  lemma OneRowRecord(name: string, values: seq<string>)
    requires !IsBlank(name)
    ensures NamedRecord([NamedList(name, values)]) == [(name, StringArr(values))]
  {
    assert [NamedList(name, values)][..0] == [] && NamedRecord([]) == [];
  }

  lemma {:induction false} BareRow(root: Members)
    requires Get(root, "groups") == Some(Obj([("group:a", Str("b"))]))
    ensures ParseModel(root).groups == [NamedList("group:a", ["b"])]
  { }

  lemma GroupsWritten(root: Members, name: string, values: seq<string>)
    requires ParseModel(root).groups == [NamedList(name, values)] && !IsBlank(name)
    ensures Get(RoundTrip(Document(Obj(root))), "groups") == Some(Obj([(name, StringArr(values))]))
  {
    RoundTripOf(root);
    OneRowRecord(name, values);
    SectionWritten(ParseModel(root), root, 0);
  }

  /** A bare string where a list is expected comes back as a list. */
  lemma {:induction false} BareStringBecomesList(root: Members)
    requires Get(root, "groups") == Some(Obj([("group:a", Str("b"))]))
    ensures Get(RoundTrip(Document(Obj(root))), "groups") == Some(Obj([("group:a", StringArr(["b"]))]))
    ensures RoundTrip(Document(Obj(root))) != root
  {
    BareRow(root);
    assert TrimStart("group:a") == "group:a";
    GroupsWritten(root, "group:a", ["b"]);
    assert StringArr(["b"]) != Str("b");
  }

  /** What a model says, apart from the objects it was read from. */
  function Content(m: PolicyModel): PolicyModel {
    m.(acls := MapSeq(AclContent, m.acls), ssh := MapSeq(SshContent, m.ssh),
       nodeAttrs := MapSeq(NodeAttrContent, m.nodeAttrs), grants := MapSeq(GrantContent, m.grants))
  }

  // What two models say alike, section by section.

  predicate SameAcls(a: seq<AclRule>, b: seq<AclRule>) {
    MapSeq(AclContent, a) == MapSeq(AclContent, b)
  }

  predicate SameSshRules(a: seq<SshRule>, b: seq<SshRule>) {
    MapSeq(SshContent, a) == MapSeq(SshContent, b)
  }

  predicate SameNodeAttrs(a: seq<NodeAttrEntry>, b: seq<NodeAttrEntry>) {
    MapSeq(NodeAttrContent, a) == MapSeq(NodeAttrContent, b)
  }

  predicate SameGrants(a: seq<GrantEntry>, b: seq<GrantEntry>) {
    MapSeq(GrantContent, a) == MapSeq(GrantContent, b)
  }

  predicate SameRules(a: PolicyModel, b: PolicyModel) {
    && SameAcls(a.acls, b.acls) && SameSshRules(a.ssh, b.ssh)
    && SameNodeAttrs(a.nodeAttrs, b.nodeAttrs) && SameGrants(a.grants, b.grants)
  }

  predicate SameRows(a: PolicyModel, b: PolicyModel) {
    a.groups == b.groups && a.tagOwners == b.tagOwners && a.hosts == b.hosts
  }

  lemma ContentParts(a: PolicyModel, b: PolicyModel)
    ensures Content(a) == Content(b) <==> SameRows(a, b) && SameRules(a, b) && a.autoApprovers == b.autoApprovers
  { }

  /** A model every part of which has a place in the document. */
  predicate Editable(m: PolicyModel) {
    && NamesOk(ListNames(m.groups))
    && NamesOk(ListNames(m.tagOwners))
    && NamesOk(HostNames(m.hosts))
    && NamesOk(ListNames(m.autoApprovers.routes))
    && (forall i | 0 <= i < |m.acls| :: m.acls[i].action != "")
    && (forall i | 0 <= i < |m.ssh| :: m.ssh[i].action != "")
    && (forall i | 0 <= i < |m.nodeAttrs| :: m.nodeAttrs[i].app != Some([]))
    && (forall i | 0 <= i < |m.grants| :: m.grants[i].app != Some([]))
  }

  /** Edits read back: the model written onto any root is the model read, exactly when it is editable. */
  lemma EditsReadBack(m: PolicyModel, root: Members)
    ensures Content(ParseModel(Serialized(m, root))) == Content(m) <==> Editable(m)
  {
    NamedSectionsRead(m, root);
    AclsRead(m, root);
    SshRead(m, root);
    NodeAttrsRead(m, root);
    GrantsRead(m, root);
    ApproversRead(m, root);
    ContentParts(ParseModel(Serialized(m, root)), m);
  }

  // ---------------------------------------------------------------- nothing else moves

  const SECTIONS: set<string> := {"groups", "tagOwners", "hosts", "acls", "ssh", "nodeAttrs", "grants", "autoApprovers"}

  /** Unknown keys of the document keep value and order; known ones keep their place, new ones go last. */
  lemma {:induction false} RestOfDocumentKept(m: PolicyModel, root: Members)
    ensures Others(Serialized(m, root), SECTIONS) == Others(root, SECTIONS)
    ensures Keys(root) <= Keys(Serialized(m, root))
  {
    OthersKept(root, root, RootSteps(m, root), SECTIONS);
    NamesKept(root, root, RootSteps(m, root));
  }

  /** The same inside `autoApprovers`. */
  lemma {:induction false} RestOfApproversKept(m: PolicyModel, root: Members)
    ensures var before, after := Get(root, "autoApprovers"), Get(Serialized(m, root), "autoApprovers");
            && Others(MembersOf(after), {"routes", "exitNode"}) == Others(MembersOf(before), {"routes", "exitNode"})
            && Keys(MembersOf(before)) <= Keys(MembersOf(after))
  {
    var before := Get(root, "autoApprovers");
    var source, steps := MembersOf(before), ApproverSteps(m.autoApprovers);
    SectionWritten(m, root, 7);
    OthersKept(source, source, steps, {"routes", "exitNode"});
    NamesKept(source, source, steps);
  }

  lemma RestOfAclKept(rule: AclRule)
    ensures var known := {"action", "src", "dst"};
            Others(AclJson(rule).members, known) == Others(RawOf(rule.raw), known)
  {
    OthersKept(RawOf(rule.raw), RawOf(rule.raw), AclSteps(rule), {"action", "src", "dst"});
  }

  lemma RestOfSshKept(rule: SshRule)
    ensures var known := {"action", "src", "dst", "users"};
            Others(SshJson(rule).members, known) == Others(RawOf(rule.raw), known)
  {
    OthersKept(RawOf(rule.raw), RawOf(rule.raw), SshSteps(rule), {"action", "src", "dst", "users"});
  }

  lemma RestOfNodeAttrKept(entry: NodeAttrEntry)
    ensures var known := {"target", "attr", "app"};
            Others(NodeAttrJson(entry).members, known) == Others(RawOf(entry.raw), known)
  {
    OthersKept(RawOf(entry.raw), RawOf(entry.raw), NodeAttrSteps(entry), {"target", "attr", "app"});
  }

  lemma RestOfGrantKept(entry: GrantEntry)
    ensures var known := {"src", "dst", "ip", "via", "app"};
            Others(GrantJson(entry).members, known) == Others(RawOf(entry.raw), known)
  {
    OthersKept(RawOf(entry.raw), RawOf(entry.raw), GrantSteps(entry), {"src", "dst", "ip", "via", "app"});
  }

  /** The same inside each rule that keeps its raw form. */
  lemma RestOfRulesKept(acl: AclRule, ssh: SshRule, attr: NodeAttrEntry, grant: GrantEntry)
    ensures var known := {"action", "src", "dst"};
            Others(AclJson(acl).members, known) == Others(RawOf(acl.raw), known)
    ensures var known := {"action", "src", "dst", "users"};
            Others(SshJson(ssh).members, known) == Others(RawOf(ssh.raw), known)
    ensures var known := {"target", "attr", "app"};
            Others(NodeAttrJson(attr).members, known) == Others(RawOf(attr.raw), known)
    ensures var known := {"src", "dst", "ip", "via", "app"};
            Others(GrantJson(grant).members, known) == Others(RawOf(grant.raw), known)
  {
    RestOfAclKept(acl);
    RestOfSshKept(ssh);
    RestOfNodeAttrKept(attr);
    RestOfGrantKept(grant);
  }

  /** A section of a well-formed document that was not edited comes back identical, whatever else was. */
  lemma {:induction false} UntouchedSectionsKept(m: PolicyModel, root: Members)
    requires WellFormed(root)
    ensures var out, was := Serialized(m, root), ParseModel(root);
            && (m.groups == was.groups ==> Get(out, "groups") == Get(root, "groups"))
            && (m.tagOwners == was.tagOwners ==> Get(out, "tagOwners") == Get(root, "tagOwners"))
            && (m.hosts == was.hosts ==> Get(out, "hosts") == Get(root, "hosts"))
            && (m.acls == was.acls ==> Get(out, "acls") == Get(root, "acls"))
            && (m.ssh == was.ssh ==> Get(out, "ssh") == Get(root, "ssh"))
            && (m.nodeAttrs == was.nodeAttrs ==> Get(out, "nodeAttrs") == Get(root, "nodeAttrs"))
            && (m.grants == was.grants ==> Get(out, "grants") == Get(root, "grants"))
            && (m.autoApprovers == was.autoApprovers ==> Get(out, "autoApprovers") == Get(root, "autoApprovers"))
  {
    forall i | 0 <= i < 8
      ensures Get(Serialized(m, root), RootSteps(m, root)[i].Key()) == Result(root, RootSteps(m, root)[i])
    {
      SectionWritten(m, root, i);
    }
    var steps := RootSteps(m, root);
    assert steps[0].Key() == "groups" && steps[1].Key() == "tagOwners" && steps[2].Key() == "hosts";
    assert steps[3].Key() == "acls" && steps[4].Key() == "ssh" && steps[5].Key() == "nodeAttrs";
    assert steps[6].Key() == "grants" && steps[7].Key() == "autoApprovers";
    NamedKept(root, "groups");
    NamedKept(root, "tagOwners");
    HostsKept(root, "hosts");
    AclsKept(root);
    SshKept(root);
    NodeAttrsKept(root);
    GrantsKept(root);
    ApproversKept(root);
  }
}
