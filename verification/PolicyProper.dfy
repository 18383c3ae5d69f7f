/** A document written from trees in which no object repeats a name is such a tree again. */
module PolicyProper {
  import opened Text
  import opened Json
  import opened Rereading
  import opened Edits
  import opened Policy
  import opened PolicyDocument
  import opened PolicyRoundTrip

  // ------------------------------------------------- writing repeats no name in an object

  lemma {:induction false} PutProper(o: Members, key: string, value: Value)
    requires ProperObject(o) && Proper(value)
    ensures ProperObject(Put(o, key, value))
  {
    PutDistinct(o, key, value);
    ProperMembersAll(o);
    ProperMembersAll(Put(o, key, value));
  }

  lemma {:induction false} WithoutProper(o: Members, key: string)
    requires ProperObject(o)
    ensures ProperObject(Without(o, key))
    ensures forall m | m in Without(o, key) :: m in o
  {
    if o != [] {
      var rest := o[1..];
      assert DistinctKeys(rest) && ProperMembers(rest);
      WithoutProper(rest, key);
      assert o == [o[0]] + rest;
      assert forall m | m in rest :: m.0 != o[0].0;
      if o[0].0 != key { assert Without(o, key)[1..] == Without(rest, key); }
    }
  }

  predicate StepProper(step: Step) {
    match step
    case Always(_, value) => Proper(value)
    case WhenUsed(_, value) => Proper(value)
    case App(app) => app.Some? ==> ProperObject(app.value)
  }

  lemma {:induction false} ApplyAllProper(out: Members, source: Members, steps: seq<Step>)
    requires ProperObject(out) && forall s | s in steps :: StepProper(s)
    ensures ProperObject(ApplyAll(out, source, steps))
    decreases |steps|
  {
    if steps != [] {
      var step := steps[0];
      assert step in steps && forall s | s in steps[1..] :: s in steps;
      ApplyProper(out, source, step);
      ApplyAllProper(Apply(out, source, step), source, steps[1..]);
    }
  }

  lemma ApplyProper(out: Members, source: Members, step: Step)
    requires ProperObject(out) && StepProper(step)
    ensures ProperObject(Apply(out, source, step))
  {
    match step {
      case Always(key, value) => PutProper(out, key, value);
      case WhenUsed(key, value) =>
        PutProper(out, key, value);
        WithoutProper(out, key);
      case App(app) =>
        if app.Some? { PutProper(out, "app", Obj(app.value)); }
        WithoutProper(out, "app");
    }
  }

  lemma StringArrProper(xs: seq<string>)
    ensures Proper(StringArr(xs))
  {
    StringsReadBack(xs);
    ProperItemsAll(Strings(xs));
  }

  lemma {:induction false} NamedProper(v: Value)
    requires NamedOk(v)
    ensures Proper(v)
  {
    forall m | m in v.members ensures Proper(m.1) { ProperItemsAll(m.1.items); }
    ProperMembersAll(v.members);
  }

  lemma {:induction false} HostsProper(v: Value)
    requires HostsOk(v)
    ensures Proper(v)
  {
    ProperMembersAll(v.members);
  }

  predicate RawProper(raw: Option<Members>) {
    raw.Some? ==> ProperObject(raw.value)
  }

  /** No object the model carries along repeats a name. */
  ghost predicate ModelProper(m: PolicyModel) {
    && (forall r | r in m.acls :: RawProper(r.raw))
    && (forall r | r in m.ssh :: RawProper(r.raw))
    && (forall e | e in m.nodeAttrs :: RawProper(e.raw) && RawProper(e.app))
    && (forall e | e in m.grants :: RawProper(e.raw) && RawProper(e.app))
  }

  lemma AclProper(r: AclRule)
    requires RawProper(r.raw)
    ensures Proper(AclJson(r))
  {
    StringArrProper(r.src);
    StringArrProper(r.dst);
    ApplyAllProper(RawOf(r.raw), RawOf(r.raw), AclSteps(r));
  }

  lemma SshProper(r: SshRule)
    requires RawProper(r.raw)
    ensures Proper(SshJson(r))
  {
    StringArrProper(r.src);
    StringArrProper(r.dst);
    StringArrProper(r.users);
    ApplyAllProper(RawOf(r.raw), RawOf(r.raw), SshSteps(r));
  }

  lemma NodeAttrProper(e: NodeAttrEntry)
    requires RawProper(e.raw) && RawProper(e.app)
    ensures Proper(NodeAttrJson(e))
  {
    StringArrProper(e.target);
    StringArrProper(e.attr);
    ApplyAllProper(RawOf(e.raw), RawOf(e.raw), NodeAttrSteps(e));
  }

  lemma GrantProper(e: GrantEntry)
    requires RawProper(e.raw) && RawProper(e.app)
    ensures Proper(GrantJson(e))
  {
    StringArrProper(e.src);
    StringArrProper(e.dst);
    StringArrProper(e.ip);
    StringArrProper(e.via);
    ApplyAllProper(RawOf(e.raw), RawOf(e.raw), GrantSteps(e));
  }

  lemma RulesProper<T>(rules: seq<T>, write: T -> Value)
    requires forall r | r in rules :: Proper(write(r))
    ensures Proper(Arr(MapSeq(write, rules)))
  {
    var items := MapSeq(write, rules);
    forall x | x in items ensures Proper(x) {
      var i :| 0 <= i < |rules| && items[i] == x;
      assert rules[i] in rules;
    }
    ProperItemsAll(items);
  }

  lemma {:induction false} ValueProper(o: Members, key: string)
    requires ProperObject(o)
    ensures Get(o, key).Some? ==> Proper(Get(o, key).value)
  {
    ProperMembersAll(o);
  }

  lemma ApproversProper(a: AutoApprovers, raw: Option<Value>)
    requires raw.Some? ==> Proper(raw.value)
    ensures Proper(ApproversJson(a, raw))
  {
    NamedRecordOk(a.routes);
    NamedProper(Obj(NamedRecord(a.routes)));
    StringArrProper(a.exitNode);
    ApplyAllProper(MembersOf(raw), MembersOf(raw), ApproverSteps(a));
  }

  lemma RuleSectionsProper(m: PolicyModel)
    requires ModelProper(m)
    ensures Proper(Arr(MapSeq(AclJson, m.acls))) && Proper(Arr(MapSeq(SshJson, m.ssh)))
    ensures Proper(Arr(MapSeq(NodeAttrJson, m.nodeAttrs))) && Proper(Arr(MapSeq(GrantJson, m.grants)))
  {
    forall r | r in m.acls ensures Proper(AclJson(r)) { AclProper(r); }
    forall r | r in m.ssh ensures Proper(SshJson(r)) { SshProper(r); }
    forall e | e in m.nodeAttrs ensures Proper(NodeAttrJson(e)) { NodeAttrProper(e); }
    forall e | e in m.grants ensures Proper(GrantJson(e)) { GrantProper(e); }
    RulesProper(m.acls, AclJson);
    RulesProper(m.ssh, SshJson);
    RulesProper(m.nodeAttrs, NodeAttrJson);
    RulesProper(m.grants, GrantJson);
  }

  lemma NamedSectionsProper(m: PolicyModel)
    ensures Proper(Obj(NamedRecord(m.groups))) && Proper(Obj(NamedRecord(m.tagOwners)))
    ensures Proper(Obj(HostRecord(m.hosts)))
  {
    NamedRecordOk(m.groups);
    NamedProper(Obj(NamedRecord(m.groups)));
    NamedRecordOk(m.tagOwners);
    NamedProper(Obj(NamedRecord(m.tagOwners)));
    HostRecordOk(m.hosts);
    HostsProper(Obj(HostRecord(m.hosts)));
  }

  lemma {:induction false} SectionsProper(root: Members, a: Value, b: Value, c: Value, d: Value,
                                          e: Value, f: Value, g: Value, h: Value)
    requires ProperObject(root) && Proper(a) && Proper(b) && Proper(c) && Proper(d)
    requires Proper(e) && Proper(f) && Proper(g) && Proper(h)
    ensures ProperObject(Written(root, [WhenUsed("groups", a), WhenUsed("tagOwners", b), WhenUsed("hosts", c),
                                        WhenUsed("acls", d), WhenUsed("ssh", e), WhenUsed("nodeAttrs", f),
                                        WhenUsed("grants", g), WhenUsed("autoApprovers", h)]))
  {
    var steps := [WhenUsed("groups", a), WhenUsed("tagOwners", b), WhenUsed("hosts", c), WhenUsed("acls", d),
                  WhenUsed("ssh", e), WhenUsed("nodeAttrs", f), WhenUsed("grants", g), WhenUsed("autoApprovers", h)];
    ApplyAllProper(root, root, steps);
  }

  /** A document written from trees that repeat no name repeats none. */
  lemma SerializedProper(m: PolicyModel, root: Members)
    requires ModelProper(m) && ProperObject(root)
    ensures ProperObject(Serialized(m, root))
  {
    NamedSectionsProper(m);
    RuleSectionsProper(m);
    ValueProper(root, "autoApprovers");
    ApproversProper(m.autoApprovers, Get(root, "autoApprovers"));
    SectionsProper(root, Obj(NamedRecord(m.groups)), Obj(NamedRecord(m.tagOwners)), Obj(HostRecord(m.hosts)),
                   Arr(MapSeq(AclJson, m.acls)), Arr(MapSeq(SshJson, m.ssh)), Arr(MapSeq(NodeAttrJson, m.nodeAttrs)),
                   Arr(MapSeq(GrantJson, m.grants)), ApproversJson(m.autoApprovers, Get(root, "autoApprovers")));
  }

  lemma ObjectsProper(v: Option<Value>)
    requires v.Some? ==> Proper(v.value)
    ensures forall o | o in ObjectList(v) :: ProperObject(o)
  {
    if v.Some? && v.value.Arr? {
      ProperItemsAll(v.value.items);
      ObjectsInFrom(v.value.items);
    }
  }

  lemma {:induction false} ObjectsInFrom(items: seq<Value>)
    ensures forall o | o in ObjectsIn(items) :: Obj(o) in items
  {
    if items != [] {
      ObjectsInFrom(items[1..]);
      assert items == [items[0]] + items[1..];
    }
  }

  lemma {:induction false} SectionObjectsProper(root: Members, key: string)
    requires ProperObject(root)
    ensures forall o | o in ObjectList(Get(root, key)) :: ProperObject(o) && RawProper(AppOf(o))
  {
    ValueProper(root, key);
    ObjectsProper(Get(root, key));
    forall o | o in ObjectList(Get(root, key)) ensures RawProper(AppOf(o)) { ValueProper(o, "app"); }
  }

  lemma ParsedProper(root: Members)
    requires ProperObject(root)
    ensures ModelProper(ParseModel(root))
  {
    var m := ParseModel(root);
    forall r | r in m.acls ensures RawProper(r.raw) { SectionObjectsProper(root, "acls"); }
    forall r | r in m.ssh ensures RawProper(r.raw) { SectionObjectsProper(root, "ssh"); }
    forall e | e in m.nodeAttrs ensures RawProper(e.raw) && RawProper(e.app) {
      SectionObjectsProper(root, "nodeAttrs");
    }
    forall e | e in m.grants ensures RawProper(e.raw) && RawProper(e.app) { SectionObjectsProper(root, "grants"); }
  }
}
