/** The serializer as it runs: copies of objects, with members assigned and deleted in place. */
module PolicyWriter {
  import opened Text
  import opened Json
  import opened Edits
  import opened Policy
  import opened PolicyDocument

  method BuildNamedRecord(lists: seq<NamedList>) returns (record: Members)
    ensures record == NamedRecord(lists)
  {
    var draft := new Draft([]);
    for i := 0 to |lists|
      invariant draft.members == NamedRecord(lists[..i])
    {
      assert lists[..i + 1][..i] == lists[..i];
      if !IsBlank(lists[i].name) { draft.Assign(lists[i].name, StringArr(lists[i].values)); }
    }
    assert lists[..|lists|] == lists;
    record := draft.members;
  }

  method BuildHostRecord(hosts: seq<HostEntry>) returns (record: Members)
    ensures record == HostRecord(hosts)
  {
    var draft := new Draft([]);
    for i := 0 to |hosts|
      invariant draft.members == HostRecord(hosts[..i])
    {
      assert hosts[..i + 1][..i] == hosts[..i];
      if !IsBlank(hosts[i].name) { draft.Assign(hosts[i].name, Str(hosts[i].cidr)); }
    }
    assert hosts[..|hosts|] == hosts;
    record := draft.members;
  }

  /** The writes so far, and the next one. */
  lemma OneMore(source: Members, steps: seq<Step>, step: Step)
    ensures Written(source, steps + [step]) == Apply(Written(source, steps), source, step)
  {
    Appended(source, source, steps, step);
  }

  lemma {:induction false} Appended(out: Members, source: Members, steps: seq<Step>, step: Step)
    ensures ApplyAll(out, source, steps + [step]) == Apply(ApplyAll(out, source, steps), source, step)
    decreases |steps|
  {
    if steps == [] {
      assert steps + [step] == [step] && [step][1..] == [];
    } else {
      Appended(Apply(out, source, steps[0]), source, steps[1..], step);
      assert (steps + [step])[1..] == steps[1..] + [step];
    }
  }

  method SerializeAcl(rule: AclRule) returns (out: Value)
    ensures out == AclJson(rule)
  {
    var draft := new Draft(RawOf(rule.raw));
    draft.Assign("action", ActionText(rule.action));
    draft.Assign("src", StringArr(rule.src));
    draft.Assign("dst", StringArr(rule.dst));
    out := Obj(draft.members);
    Three(RawOf(rule.raw), AclSteps(rule));
  }

  method SerializeSsh(rule: SshRule) returns (out: Value)
    ensures out == SshJson(rule)
  {
    var draft := new Draft(RawOf(rule.raw));
    draft.Assign("action", ActionText(rule.action));
    draft.Assign("src", StringArr(rule.src));
    draft.Assign("dst", StringArr(rule.dst));
    draft.Assign("users", StringArr(rule.users));
    out := Obj(draft.members);
    Three(RawOf(rule.raw), SshSteps(rule)[..3]);
    OneMore(RawOf(rule.raw), SshSteps(rule)[..3], SshSteps(rule)[3]);
    assert SshSteps(rule)[..3] + [SshSteps(rule)[3]] == SshSteps(rule);
  }

  method SerializeNodeAttr(entry: NodeAttrEntry) returns (out: Value)
    ensures out == NodeAttrJson(entry)
  {
    var raw := RawOf(entry.raw);
    var draft := new Draft(raw);
    draft.Assign("target", StringArr(entry.target));
    draft.Emit(raw, "attr", StringArr(entry.attr));
    draft.EmitApp(raw, entry.app);
    out := Obj(draft.members);
    Three(raw, NodeAttrSteps(entry));
  }

  method SerializeGrant(entry: GrantEntry) returns (out: Value)
    ensures out == GrantJson(entry)
  {
    var raw := RawOf(entry.raw);
    var draft := new Draft(raw);
    draft.Assign("src", StringArr(entry.src));
    draft.Assign("dst", StringArr(entry.dst));
    draft.Emit(raw, "ip", StringArr(entry.ip));
    draft.Emit(raw, "via", StringArr(entry.via));
    draft.EmitApp(raw, entry.app);
    out := Obj(draft.members);
    var steps := GrantSteps(entry);
    Three(raw, steps[..3]);
    OneMore(raw, steps[..3], steps[3]);
    assert steps[..3] + [steps[3]] == steps[..4];
    OneMore(raw, steps[..4], steps[4]);
    assert steps[..4] + [steps[4]] == steps;
  }

  lemma Three(source: Members, steps: seq<Step>)
    requires |steps| == 3
    ensures Written(source, steps)
            == Apply(Apply(Apply(source, source, steps[0]), source, steps[1]), source, steps[2])
  {
    OneMore(source, steps[..2], steps[2]);
    OneMore(source, steps[..1], steps[1]);
    OneMore(source, steps[..0], steps[0]);
    assert steps[..2] + [steps[2]] == steps;
    assert steps[..1] + [steps[1]] == steps[..2];
    assert steps[..0] + [steps[0]] == steps[..1];
  }

  method SerializeAcls(entries: seq<AclRule>) returns (out: Value)
    ensures out == Arr(MapSeq(AclJson, entries))
  {
    var items: seq<Value> := [];
    for i := 0 to |entries|
      invariant items == MapSeq(AclJson, entries[..i])
    {
      var item := SerializeAcl(entries[i]);
      items := items + [item];
    }
    assert entries[..|entries|] == entries;
    out := Arr(items);
  }

  method SerializeSshRules(entries: seq<SshRule>) returns (out: Value)
    ensures out == Arr(MapSeq(SshJson, entries))
  {
    var items: seq<Value> := [];
    for i := 0 to |entries|
      invariant items == MapSeq(SshJson, entries[..i])
    {
      var item := SerializeSsh(entries[i]);
      items := items + [item];
    }
    assert entries[..|entries|] == entries;
    out := Arr(items);
  }

  method SerializeNodeAttrs(entries: seq<NodeAttrEntry>) returns (out: Value)
    ensures out == Arr(MapSeq(NodeAttrJson, entries))
  {
    var items: seq<Value> := [];
    for i := 0 to |entries|
      invariant items == MapSeq(NodeAttrJson, entries[..i])
    {
      var item := SerializeNodeAttr(entries[i]);
      items := items + [item];
    }
    assert entries[..|entries|] == entries;
    out := Arr(items);
  }

  method SerializeGrants(entries: seq<GrantEntry>) returns (out: Value)
    ensures out == Arr(MapSeq(GrantJson, entries))
  {
    var items: seq<Value> := [];
    for i := 0 to |entries|
      invariant items == MapSeq(GrantJson, entries[..i])
    {
      var item := SerializeGrant(entries[i]);
      items := items + [item];
    }
    assert entries[..|entries|] == entries;
    out := Arr(items);
  }

  lemma NextStep(source: Members, steps: seq<Step>, k: nat)
    requires k < |steps|
    ensures Written(source, steps[..k + 1]) == Apply(Written(source, steps[..k]), source, steps[k])
  {
    OneMore(source, steps[..k], steps[k]);
    assert steps[..k] + [steps[k]] == steps[..k + 1];
  }

  /** `autoApprovers` is overlaid on a copy of its raw form. */
  method SerializeApprovers(a: AutoApprovers, raw: Option<Value>) returns (out: Value)
    ensures out == ApproversJson(a, raw)
  {
    var source := MembersOf(raw);
    var draft := new Draft(source);
    var routes := BuildNamedRecord(a.routes);
    draft.Emit(source, "routes", Obj(routes));
    draft.Emit(source, "exitNode", StringArr(a.exitNode));
    out := Obj(draft.members);
    var steps := ApproverSteps(a);
    NextStep(source, steps, 0);
    NextStep(source, steps, 1);
    assert steps[..2] == steps && steps[..0] == [];
  }

  /** One section more: the draft holds the first `k` writes, and then the first `k + 1`. */
  method EmitSection(draft: Draft, root: Members, key: string, built: Value, ghost steps: seq<Step>, ghost k: nat)
    requires k < |steps| && steps[k] == WhenUsed(key, built)
    requires draft.members == Written(root, steps[..k])
    modifies draft
    ensures draft.members == Written(root, steps[..k + 1])
  {
    NextStep(root, steps, k);
    draft.Emit(root, key, built);
  }

  method SerializePolicy(m: PolicyModel, root: Members) returns (out: Members)
    ensures out == Serialized(m, root)
  {
    var groups := BuildNamedRecord(m.groups);
    var tagOwners := BuildNamedRecord(m.tagOwners);
    var hosts := BuildHostRecord(m.hosts);
    var acls := SerializeAcls(m.acls);
    var ssh := SerializeSshRules(m.ssh);
    var nodeAttrs := SerializeNodeAttrs(m.nodeAttrs);
    var grants := SerializeGrants(m.grants);
    var approvers := SerializeApprovers(m.autoApprovers, Get(root, "autoApprovers"));
    ghost var steps := RootSteps(m, root);
    out := EmitSections(root, Obj(groups), Obj(tagOwners), Obj(hosts), acls, ssh, nodeAttrs, grants, approvers, steps);
  }

  method EmitSections(root: Members, groups: Value, tagOwners: Value, hosts: Value, acls: Value, ssh: Value,
                      nodeAttrs: Value, grants: Value, approvers: Value, ghost steps: seq<Step>)
    returns (out: Members)
    requires steps == [WhenUsed("groups", groups), WhenUsed("tagOwners", tagOwners), WhenUsed("hosts", hosts),
                       WhenUsed("acls", acls), WhenUsed("ssh", ssh), WhenUsed("nodeAttrs", nodeAttrs),
                       WhenUsed("grants", grants), WhenUsed("autoApprovers", approvers)]
    ensures out == Written(root, steps)
  {
    var draft := new Draft(root);
    EmitSection(draft, root, "groups", groups, steps, 0);
    EmitSection(draft, root, "tagOwners", tagOwners, steps, 1);
    EmitSection(draft, root, "hosts", hosts, steps, 2);
    EmitSection(draft, root, "acls", acls, steps, 3);
    EmitSection(draft, root, "ssh", ssh, steps, 4);
    EmitSection(draft, root, "nodeAttrs", nodeAttrs, steps, 5);
    EmitSection(draft, root, "grants", grants, steps, 6);
    EmitSection(draft, root, "autoApprovers", approvers, steps, 7);
    assert steps[..8] == steps;
    out := draft.members;
  }
}
