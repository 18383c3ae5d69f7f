/** Do edits survive being written as text and read again? */
module PolicyEdits {
  import opened Text
  import opened Json
  import opened Hujson
  import opened Printing
  import opened Rereading
  import opened Edits
  import opened Policy
  import opened PolicyDocument
  import opened PolicyRoundTrip
  import opened PolicyLaws
  import opened PolicyProper
  import opened PolicyText

  // ------------------------------------------------------------------- spared models

  predicate SparedList(xs: seq<string>) {
    forall x | x in xs :: SparedText(x)
  }

  predicate SparedLists(lists: seq<NamedList>) {
    forall l | l in lists :: SparedText(l.name) && SparedList(l.values)
  }

  predicate SparedHosts(hosts: seq<HostEntry>) {
    forall h | h in hosts :: SparedText(h.name) && SparedText(h.cidr)
  }

  predicate SparedAcl(r: AclRule) {
    SparedText(r.action) && SparedList(r.src) && SparedList(r.dst)
  }

  predicate SparedSsh(r: SshRule) {
    SparedText(r.action) && SparedList(r.src) && SparedList(r.dst) && SparedList(r.users)
  }

  predicate SparedApp(app: Option<Members>) {
    app.Some? ==> Spared(Obj(app.value))
  }

  predicate SparedNodeAttr(e: NodeAttrEntry) {
    SparedList(e.target) && SparedList(e.attr) && SparedApp(e.app)
  }

  predicate SparedGrant(e: GrantEntry) {
    SparedList(e.src) && SparedList(e.dst) && SparedList(e.ip) && SparedList(e.via) && SparedApp(e.app)
  }

  /** No string of the model holds, in print, a comma, white space and a closer. */
  predicate ModelSpared(m: PolicyModel) {
    && SparedLists(m.groups) && SparedLists(m.tagOwners) && SparedHosts(m.hosts)
    && (forall i | 0 <= i < |m.acls| :: SparedAcl(m.acls[i]))
    && (forall i | 0 <= i < |m.ssh| :: SparedSsh(m.ssh[i]))
    && (forall i | 0 <= i < |m.nodeAttrs| :: SparedNodeAttr(m.nodeAttrs[i]))
    && (forall i | 0 <= i < |m.grants| :: SparedGrant(m.grants[i]))
    && SparedLists(m.autoApprovers.routes) && SparedList(m.autoApprovers.exitNode)
  }

  // -------------------------------------------------------------------- string lists

  function EatAll(xs: seq<string>): (r: seq<string>)
    ensures |r| == |xs|
  {
    seq(|xs|, i requires 0 <= i < |xs| => Eat(xs[i]))
  }

  lemma EatAllSame(xs: seq<string>)
    ensures EatAll(xs) == xs <==> SparedList(xs)
  {
    forall i | 0 <= i < |xs| ensures EatAll(xs)[i] == xs[i] <==> SparedText(xs[i]) { EatenUnlessSpared(xs[i]); }
    if SparedList(xs) {
      forall i | 0 <= i < |xs| ensures EatAll(xs)[i] == xs[i] { assert xs[i] in xs; }
      assert EatAll(xs) == xs;
    }
  }

  lemma StringsAgain(v: Value)
    requires AllStrings(v)
    ensures StringList(Some(Reread(v))) == EatAll(StringList(Some(v)))
  {
    RereadStrings(v);
    StringsInAll(v.items);
    StringsInAll(Reread(v).items);
  }

  lemma {:induction false} ListAgain(o: Members, key: string)
    requires DistinctKeys(o) && !HasCloser(key) && IfThere(Get(o, key), AllStrings)
    ensures StringList(Get(RereadMembers(o), key)) == EatAll(StringList(Get(o, key)))
  {
    RereadAt(o, key);
    if Get(o, key).Some? { StringsAgain(Get(o, key).value); }
  }

  // -------------------------------------------------------------------- named rows

  lemma {:induction false} SparedRowsAgain(lists: seq<NamedList>)
    requires NamesOk(ListNames(lists)) && SparedLists(lists)
    ensures ParseNamedLists(Some(Reread(Obj(NamedRecord(lists))))) == lists
  {
    NamedRecordOk(lists);
    RecordSpared(lists);
    NamedProper(Obj(NamedRecord(lists)));
    RereadSpared(Obj(NamedRecord(lists)));
    NamedReadBack(lists);
  }

  lemma {:induction false} RowsAgainSpared(lists: seq<NamedList>)
    requires ParseNamedLists(Some(Reread(Obj(NamedRecord(lists))))) == lists
    ensures NamesOk(ListNames(lists)) && SparedLists(lists)
  {
    var record := NamedRecord(lists);
    var again := RereadMembers(record);
    NamedRecordOk(lists);
    RereadNamed(Obj(record));
    NamesOfRecord(again, lists);
    NamedRecordIsRows(lists);
    RereadOneForOne(record);
    forall l | l in lists ensures SparedText(l.name) && SparedList(l.values) {
      var i :| 0 <= i < |lists| && lists[i] == l;
      RowAgain(l, again[i]);
    }
  }

  /** Rows are read again as they were exactly when their names are distinct, not blank, and all is spared. */
  lemma {:induction false} NamedAgain(lists: seq<NamedList>)
    ensures ParseNamedLists(Some(Reread(Obj(NamedRecord(lists))))) == lists
            <==> NamesOk(ListNames(lists)) && SparedLists(lists)
  {
    if NamesOk(ListNames(lists)) && SparedLists(lists) { SparedRowsAgain(lists); }
    if ParseNamedLists(Some(Reread(Obj(NamedRecord(lists))))) == lists { RowsAgainSpared(lists); }
  }

  lemma NamesOfRecord(record: Members, lists: seq<NamedList>)
    requires NamedOk(Obj(record)) && ParseNamedLists(Some(Obj(record))) == lists
    ensures NamesOk(ListNames(lists)) && |record| == |lists|
    ensures forall i | 0 <= i < |lists| :: lists[i] == NamedList(record[i].0, StringList(Some(record[i].1)))
  {
    forall i | 0 <= i < |lists| ensures ListNames(lists)[i] == record[i].0 && record[i] in record { }
  }

  lemma RowAgain(l: NamedList, m: (string, Value))
    requires m == (Eat(l.name), Reread(StringArr(l.values)))
    requires l == NamedList(m.0, StringList(Some(m.1)))
    ensures SparedText(l.name) && SparedList(l.values)
  {
    StringsReadBack(l.values);
    StringsAgain(StringArr(l.values));
    EatenUnlessSpared(l.name);
    EatAllSame(l.values);
  }

  lemma {:induction false} SparedMembersAll(ms: Members)
    ensures SparedMembers(ms) <==> forall m | m in ms :: SparedMember(m)
  {
    if ms != [] {
      SparedMembersAll(ms[1..]);
      assert ms[0] in ms && ms == [ms[0]] + ms[1..];
    }
  }

  lemma {:induction false} SparedItemsAll(items: seq<Value>)
    ensures SparedItems(items) <==> forall x | x in items :: Spared(x)
  {
    if items != [] {
      SparedItemsAll(items[1..]);
      assert items[0] in items && items == [items[0]] + items[1..];
    }
  }

  lemma StringArrSpared(xs: seq<string>)
    requires SparedList(xs)
    ensures Spared(StringArr(xs))
  {
    forall x | x in Strings(xs) ensures Spared(x) {
      var i :| 0 <= i < |xs| && Strings(xs)[i] == x;
      assert xs[i] in xs;
    }
    SparedItemsAll(Strings(xs));
  }

  lemma {:induction false} RecordSpared(lists: seq<NamedList>)
    requires NamesOk(ListNames(lists)) && SparedLists(lists)
    ensures Spared(Obj(NamedRecord(lists)))
  {
    var record := NamedRecord(lists);
    NamedRecordIsRows(lists);
    forall m | m in record ensures SparedMember(m) {
      var i :| 0 <= i < |record| && record[i] == m;
      assert lists[i] in lists;
      StringArrSpared(lists[i].values);
    }
    SparedMembersAll(record);
  }

  lemma {:induction false} SparedHostsAgain(hosts: seq<HostEntry>)
    requires NamesOk(HostNames(hosts)) && SparedHosts(hosts)
    ensures ParseHosts(Some(Reread(Obj(HostRecord(hosts))))) == hosts
  {
    HostRecordOk(hosts);
    HostsSpared(hosts);
    HostsProper(Obj(HostRecord(hosts)));
    RereadSpared(Obj(HostRecord(hosts)));
    HostsReadBack(hosts);
  }

  lemma {:induction false} HostsAgainSpared(hosts: seq<HostEntry>)
    requires ParseHosts(Some(Reread(Obj(HostRecord(hosts))))) == hosts
    ensures NamesOk(HostNames(hosts)) && SparedHosts(hosts)
  {
    var record := HostRecord(hosts);
    var again := RereadMembers(record);
    HostRecordOk(hosts);
    RereadHosts(Obj(record));
    NamesOfHosts(again, hosts);
    HostRecordIsRows(hosts);
    RereadOneForOne(record);
    forall h | h in hosts ensures SparedText(h.name) && SparedText(h.cidr) {
      var i :| 0 <= i < |hosts| && hosts[i] == h;
      HostAgain(h, again[i]);
    }
  }

  lemma HostAgain(h: HostEntry, m: (string, Value))
    requires m == (Eat(h.name), Reread(Str(h.cidr))) && m == (h.name, Str(h.cidr))
    ensures SparedText(h.name) && SparedText(h.cidr)
  {
    EatenUnlessSpared(h.name);
    EatenUnlessSpared(h.cidr);
  }

  lemma {:induction false} HostsAgain(hosts: seq<HostEntry>)
    ensures ParseHosts(Some(Reread(Obj(HostRecord(hosts))))) == hosts
            <==> NamesOk(HostNames(hosts)) && SparedHosts(hosts)
  {
    if NamesOk(HostNames(hosts)) && SparedHosts(hosts) { SparedHostsAgain(hosts); }
    if ParseHosts(Some(Reread(Obj(HostRecord(hosts))))) == hosts { HostsAgainSpared(hosts); }
  }

  lemma NamesOfHosts(record: Members, hosts: seq<HostEntry>)
    requires HostsOk(Obj(record)) && ParseHosts(Some(Obj(record))) == hosts
    ensures NamesOk(HostNames(hosts)) && |record| == |hosts|
    ensures forall i | 0 <= i < |hosts| :: record[i] == (hosts[i].name, Str(hosts[i].cidr))
  {
    forall i | 0 <= i < |hosts|
      ensures HostNames(hosts)[i] == record[i].0 && record[i] in record && record[i].1.Str?
    {
      assert record[i] in record;
    }
  }

  lemma {:induction false} HostsSpared(hosts: seq<HostEntry>)
    requires NamesOk(HostNames(hosts)) && SparedHosts(hosts)
    ensures Spared(Obj(HostRecord(hosts)))
  {
    var record := HostRecord(hosts);
    HostRecordIsRows(hosts);
    forall m | m in record ensures SparedMember(m) {
      var i :| 0 <= i < |record| && record[i] == m;
      assert hosts[i] in hosts;
    }
    SparedMembersAll(record);
  }

  // ----------------------------------------------------------------------- rules

  /** The content of a rule with what the comma pass leaves of its strings. */
  function EatenAcl(r: AclRule): AclRule {
    AclRule(Eat(r.action), EatAll(r.src), EatAll(r.dst), None)
  }

  function EatenSsh(r: SshRule): SshRule {
    SshRule(Eat(r.action), EatAll(r.src), EatAll(r.dst), EatAll(r.users), None)
  }

  function EatenApp(app: Option<Members>): Option<Members> {
    if app.Some? then Some(RereadMembers(app.value)) else None
  }

  function EatenNodeAttr(e: NodeAttrEntry): NodeAttrEntry {
    NodeAttrEntry(EatAll(e.target), EatAll(e.attr), EatenApp(e.app), None)
  }

  function EatenGrant(e: GrantEntry): GrantEntry {
    GrantEntry(EatAll(e.src), EatAll(e.dst), EatAll(e.ip), EatAll(e.via), EatenApp(e.app), None)
  }

  lemma AclEaten(o: Members)
    requires DistinctKeys(o) && AclOk(o)
    ensures AclContent(ParseAcl(RereadMembers(o))) == EatenAcl(ParseAcl(o))
  {
    RereadAction(o);
    ListAgain(o, "src");
    ListAgain(o, "dst");
  }

  lemma SshEaten(o: Members)
    requires DistinctKeys(o) && SshOk(o)
    ensures SshContent(ParseSshRule(RereadMembers(o))) == EatenSsh(ParseSshRule(o))
  {
    AclEaten(o);
    var again := AclContent(ParseAcl(RereadMembers(o)));
    assert again == EatenAcl(ParseAcl(o));
    ListAgain(o, "users");
  }

  lemma NodeAttrEaten(o: Members)
    requires DistinctKeys(o) && NodeAttrOk(o)
    ensures NodeAttrContent(ParseNodeAttr(RereadMembers(o))) == EatenNodeAttr(ParseNodeAttr(o))
  {
    ListAgain(o, "target");
    ListAgain(o, "attr");
    RereadApp(o);
  }

  lemma GrantEaten(o: Members)
    requires DistinctKeys(o) && GrantOk(o)
    ensures GrantContent(ParseGrant(RereadMembers(o))) == EatenGrant(ParseGrant(o))
  {
    ListAgain(o, "src");
    ListAgain(o, "dst");
    ListAgain(o, "ip");
    ListAgain(o, "via");
    RereadApp(o);
  }

  lemma ActionAgain(action: string)
    ensures Eat(Shown(action)) == action <==> action != "" && SparedText(action)
  {
    EatKeepsBlank(Shown(action));
    EatenUnlessSpared(action);
  }

  lemma AppAgain(app: Option<Members>)
    requires RawProper(app)
    ensures EatenApp(Used(app)) == app <==> app != Some([]) && SparedApp(app)
  {
    if app.Some? && app.value != [] {
      if SparedApp(app) { RereadSpared(Obj(app.value)); } else { RereadIsShorter(Obj(app.value)); }
    }
  }

  lemma SameAcl(r: AclRule)
    ensures EatenAcl(r.(action := Shown(r.action))) == AclContent(r) <==> r.action != "" && SparedAcl(r)
  {
    ActionAgain(r.action);
    EatAllSame(r.src);
    EatAllSame(r.dst);
  }

  lemma SameSsh(r: SshRule)
    ensures EatenSsh(r.(action := Shown(r.action))) == SshContent(r) <==> r.action != "" && SparedSsh(r)
  {
    ActionAgain(r.action);
    EatAllSame(r.src);
    EatAllSame(r.dst);
    EatAllSame(r.users);
  }

  lemma SameNodeAttr(e: NodeAttrEntry)
    requires RawProper(e.app)
    ensures EatenNodeAttr(e.(app := Used(e.app))) == NodeAttrContent(e) <==> e.app != Some([]) && SparedNodeAttr(e)
  {
    AppAgain(e.app);
    EatAllSame(e.target);
    EatAllSame(e.attr);
  }

  lemma SameGrant(e: GrantEntry)
    requires RawProper(e.app)
    ensures EatenGrant(e.(app := Used(e.app))) == GrantContent(e) <==> e.app != Some([]) && SparedGrant(e)
  {
    AppAgain(e.app);
    EatAllSame(e.src);
    EatAllSame(e.dst);
    EatAllSame(e.ip);
    EatAllSame(e.via);
  }

  /** A written rule, read again, is the rule exactly when its action is given and its strings are spared. */
  lemma AclAgain(r: AclRule)
    requires RawProper(r.raw)
    ensures AclContent(ParseAcl(RereadMembers(AclJson(r).members))) == AclContent(r)
            <==> r.action != "" && SparedAcl(r)
  {
    AclProper(r);
    AclWritten(r);
    AclEaten(AclJson(r).members);
    SameAcl(r);
  }

  lemma SshAgain(r: SshRule)
    requires RawProper(r.raw)
    ensures SshContent(ParseSshRule(RereadMembers(SshJson(r).members))) == SshContent(r)
            <==> r.action != "" && SparedSsh(r)
  {
    SshProper(r);
    SshWritten(r);
    SshEaten(SshJson(r).members);
    SameSsh(r);
  }

  lemma NodeAttrAgain(e: NodeAttrEntry)
    requires RawProper(e.raw) && RawProper(e.app)
    ensures NodeAttrContent(ParseNodeAttr(RereadMembers(NodeAttrJson(e).members))) == NodeAttrContent(e)
            <==> e.app != Some([]) && SparedNodeAttr(e)
  {
    NodeAttrProper(e);
    NodeAttrWritten(e);
    NodeAttrEaten(NodeAttrJson(e).members);
    SameNodeAttr(e);
  }

  lemma GrantAgain(e: GrantEntry)
    requires RawProper(e.raw) && RawProper(e.app)
    ensures GrantContent(ParseGrant(RereadMembers(GrantJson(e).members))) == GrantContent(e)
            <==> e.app != Some([]) && SparedGrant(e)
  {
    GrantProper(e);
    GrantWritten(e);
    GrantEaten(GrantJson(e).members);
    SameGrant(e);
  }

  /** A section of rules is read again rule by rule. */
  lemma RulesAgain<T>(source: Members, key: string, rules: seq<T>, write: T -> Value, read: Members -> T)
    requires forall r :: write(r).Obj?
    ensures var again := RereadOption(Result(source, WhenUsed(key, Arr(MapSeq(write, rules)))));
            MapSeq(read, ObjectList(again))
            == seq(|rules|, i requires 0 <= i < |rules| => read(RereadMembers(write(rules[i]).members)))
  {
    var items := MapSeq(write, rules);
    forall i | 0 <= i < |items|
      ensures |Reread(Arr(items)).items| == |items|
      ensures Reread(Arr(items)).items[i] == Obj(RereadMembers(write(rules[i]).members))
    {
      RereadItemAt(items, i);
    }
    assert items == [] ==> Reread(Arr(items)).items == [];
    forall x | x in Reread(Arr(items)).items ensures x.Obj? { }
    ObjectsInAll(Reread(Arr(items)).items);
  }

  // ---------------------------------------------------------------------- sections

  /** A section written from a model, then stripped and read. */
  lemma SectionAgain(m: PolicyModel, root: Members, i: nat)
    requires ModelProper(m) && ProperObject(root) && i < 8
    requires !HasCloser(RootSteps(m, root)[i].Key())
    ensures Get(RereadMembers(Serialized(m, root)), RootSteps(m, root)[i].Key())
            == RereadOption(Result(root, RootSteps(m, root)[i]))
  {
    SerializedProper(m, root);
    SectionWritten(m, root, i);
    RereadAt(Serialized(m, root), RootSteps(m, root)[i].Key());
  }

  lemma SameWhere<T>(xs: seq<T>, ys: seq<T>, same: seq<bool>)
    requires |xs| == |ys| == |same| && forall i | 0 <= i < |xs| :: xs[i] == ys[i] <==> same[i]
    ensures xs == ys <==> forall i | 0 <= i < |same| :: same[i]
  { }

  // What is asked of the rules of a model for them to survive.

  predicate AclsEditable(rules: seq<AclRule>) {
    forall i | 0 <= i < |rules| :: rules[i].action != "" && SparedAcl(rules[i])
  }

  predicate SshEditable(rules: seq<SshRule>) {
    forall i | 0 <= i < |rules| :: rules[i].action != "" && SparedSsh(rules[i])
  }

  predicate NodeAttrsEditable(entries: seq<NodeAttrEntry>) {
    forall i | 0 <= i < |entries| :: entries[i].app != Some([]) && SparedNodeAttr(entries[i])
  }

  predicate GrantsEditable(entries: seq<GrantEntry>) {
    forall i | 0 <= i < |entries| :: entries[i].app != Some([]) && SparedGrant(entries[i])
  }

  /** A step left, in the document stripped and read, just what it wrote. */
  predicate Holds(again: Members, root: Members, step: Step) {
    Get(again, step.Key()) == RereadOption(Result(root, step))
  }

  lemma {:induction false} AclsAgain(rules: seq<AclRule>, root: Members, again: Members)
    requires forall r | r in rules :: RawProper(r.raw)
    requires Holds(again, root, WhenUsed("acls", Arr(MapSeq(AclJson, rules))))
    ensures SameAcls(MapSeq(ParseAcl, ObjectList(Get(again, "acls"))), rules) <==> AclsEditable(rules)
  {
    RulesAgain(root, "acls", rules, AclJson, ParseAcl);
    var same := seq(|rules|, i requires 0 <= i < |rules| => rules[i].action != "" && SparedAcl(rules[i]));
    var read := MapSeq(ParseAcl, ObjectList(Get(again, "acls")));
    forall i | 0 <= i < |rules| ensures AclContent(read[i]) == AclContent(rules[i]) <==> same[i] {
      assert rules[i] in rules;
      AclAgain(rules[i]);
    }
    SameWhere(MapSeq(AclContent, read), MapSeq(AclContent, rules), same);
  }

  lemma {:induction false} SshRulesAgain(rules: seq<SshRule>, root: Members, again: Members)
    requires forall r | r in rules :: RawProper(r.raw)
    requires Holds(again, root, WhenUsed("ssh", Arr(MapSeq(SshJson, rules))))
    ensures SameSshRules(MapSeq(ParseSshRule, ObjectList(Get(again, "ssh"))), rules) <==> SshEditable(rules)
  {
    RulesAgain(root, "ssh", rules, SshJson, ParseSshRule);
    var same := seq(|rules|, i requires 0 <= i < |rules| => rules[i].action != "" && SparedSsh(rules[i]));
    var read := MapSeq(ParseSshRule, ObjectList(Get(again, "ssh")));
    forall i | 0 <= i < |rules| ensures SshContent(read[i]) == SshContent(rules[i]) <==> same[i] {
      assert rules[i] in rules;
      SshAgain(rules[i]);
    }
    SameWhere(MapSeq(SshContent, read), MapSeq(SshContent, rules), same);
  }

  lemma {:induction false} NodeAttrsAgain(entries: seq<NodeAttrEntry>, root: Members, again: Members)
    requires forall e | e in entries :: RawProper(e.raw) && RawProper(e.app)
    requires Holds(again, root, WhenUsed("nodeAttrs", Arr(MapSeq(NodeAttrJson, entries))))
    ensures SameNodeAttrs(MapSeq(ParseNodeAttr, ObjectList(Get(again, "nodeAttrs"))), entries) <==> NodeAttrsEditable(entries)
  {
    RulesAgain(root, "nodeAttrs", entries, NodeAttrJson, ParseNodeAttr);
    var same := seq(|entries|, i requires 0 <= i < |entries| => entries[i].app != Some([]) && SparedNodeAttr(entries[i]));
    var read := MapSeq(ParseNodeAttr, ObjectList(Get(again, "nodeAttrs")));
    forall i | 0 <= i < |entries| ensures NodeAttrContent(read[i]) == NodeAttrContent(entries[i]) <==> same[i] {
      assert entries[i] in entries;
      NodeAttrAgain(entries[i]);
    }
    SameWhere(MapSeq(NodeAttrContent, read), MapSeq(NodeAttrContent, entries), same);
  }

  lemma {:induction false} GrantsAgain(entries: seq<GrantEntry>, root: Members, again: Members)
    requires forall e | e in entries :: RawProper(e.raw) && RawProper(e.app)
    requires Holds(again, root, WhenUsed("grants", Arr(MapSeq(GrantJson, entries))))
    ensures SameGrants(MapSeq(ParseGrant, ObjectList(Get(again, "grants"))), entries) <==> GrantsEditable(entries)
  {
    RulesAgain(root, "grants", entries, GrantJson, ParseGrant);
    var same := seq(|entries|, i requires 0 <= i < |entries| => entries[i].app != Some([]) && SparedGrant(entries[i]));
    var read := MapSeq(ParseGrant, ObjectList(Get(again, "grants")));
    forall i | 0 <= i < |entries| ensures GrantContent(read[i]) == GrantContent(entries[i]) <==> same[i] {
      assert entries[i] in entries;
      GrantAgain(entries[i]);
    }
    SameWhere(MapSeq(GrantContent, read), MapSeq(GrantContent, entries), same);
  }

  /** A written section of rows, or none where there were no rows to write. */
  lemma {:induction false} NamedSectionAgain(source: Members, key: string, lists: seq<NamedList>)
    ensures ParseNamedLists(RereadOption(Result(source, WhenUsed(key, Obj(NamedRecord(lists)))))) == lists
            <==> NamesOk(ListNames(lists)) && SparedLists(lists)
  {
    NamedAgain(lists);
    NamedReadBack(lists);
    if NamedRecord(lists) == [] { assert Reread(Obj([])) == Obj([]); }
  }

  lemma {:induction false} HostsSectionAgain(source: Members, key: string, hosts: seq<HostEntry>)
    ensures ParseHosts(RereadOption(Result(source, WhenUsed(key, Obj(HostRecord(hosts)))))) == hosts
            <==> NamesOk(HostNames(hosts)) && SparedHosts(hosts)
  {
    HostsAgain(hosts);
    HostsReadBack(hosts);
    if HostRecord(hosts) == [] { assert Reread(Obj([])) == Obj([]); }
  }

  lemma RoutesAgain(a: AutoApprovers, source: Members)
    requires ProperObject(source)
    ensures ParseNamedLists(Get(RereadMembers(Written(source, ApproverSteps(a))), "routes")) == a.routes
            <==> NamesOk(ListNames(a.routes)) && SparedLists(a.routes)
  {
    var steps := ApproverSteps(a);
    ApproverStepsDistinct(a);
    ApproversDistinctKeys(a, source);
    WrittenAt(source, steps, 0);
    RereadAt(Written(source, steps), "routes");
    NamedSectionAgain(source, "routes", a.routes);
  }

  lemma ExitNodeAgain(a: AutoApprovers, source: Members)
    requires ProperObject(source)
    ensures StringList(Get(RereadMembers(Written(source, ApproverSteps(a))), "exitNode")) == a.exitNode
            <==> SparedList(a.exitNode)
  {
    var steps := ApproverSteps(a);
    ApproverStepsDistinct(a);
    ApproversDistinctKeys(a, source);
    OptionalWritten(source, steps, 1, "exitNode", a.exitNode);
    ListAgain(Written(source, steps), "exitNode");
    EatAllSame(a.exitNode);
  }

  lemma ApproverStepsDistinct(a: AutoApprovers)
    ensures DistinctSteps(ApproverSteps(a))
  {
    assert |"routes"| != |"exitNode"|;
  }

  lemma ApproversDistinctKeys(a: AutoApprovers, source: Members)
    requires ProperObject(source)
    ensures DistinctKeys(Written(source, ApproverSteps(a)))
  {
    ApproversProper(a, Some(Obj(source)));
  }

  /** An object that lost both sections reads as one that was never written. */
  lemma ApproversOf(o: Members, again: Option<Value>)
    requires (again == None && o == []) || again == Some(Reread(Obj(o)))
    ensures ParseAutoApprovers(again)
            == AutoApprovers(ParseNamedLists(Get(RereadMembers(o), "routes")), StringList(Get(RereadMembers(o), "exitNode")))
  {
    if o == [] { assert RereadMembers(o) == []; }
  }

  lemma ApproversAgain(a: AutoApprovers, source: Members, again: Option<Value>)
    requires ProperObject(source)
    requires var o := Written(source, ApproverSteps(a));
             (again == None && o == []) || again == Some(Reread(Obj(o)))
    ensures ParseAutoApprovers(again) == a
            <==> NamesOk(ListNames(a.routes)) && SparedLists(a.routes) && SparedList(a.exitNode)
  {
    RoutesAgain(a, source);
    ExitNodeAgain(a, source);
    ApproversOf(Written(source, ApproverSteps(a)), again);
  }

  predicate HoldsSections(again: Members, m: PolicyModel, root: Members) {
    && Holds(again, root, WhenUsed("groups", Obj(NamedRecord(m.groups))))
    && Holds(again, root, WhenUsed("tagOwners", Obj(NamedRecord(m.tagOwners))))
    && Holds(again, root, WhenUsed("hosts", Obj(HostRecord(m.hosts))))
    && Holds(again, root, WhenUsed("acls", Arr(MapSeq(AclJson, m.acls))))
    && Holds(again, root, WhenUsed("ssh", Arr(MapSeq(SshJson, m.ssh))))
    && Holds(again, root, WhenUsed("nodeAttrs", Arr(MapSeq(NodeAttrJson, m.nodeAttrs))))
    && Holds(again, root, WhenUsed("grants", Arr(MapSeq(GrantJson, m.grants))))
    && Holds(again, root, WhenUsed("autoApprovers", ApproversJson(m.autoApprovers, Get(root, "autoApprovers"))))
  }

  lemma SectionsHeld(m: PolicyModel, root: Members)
    requires ModelProper(m) && ProperObject(root)
    ensures HoldsSections(RereadMembers(Serialized(m, root)), m, root)
  {
    var again, steps := RereadMembers(Serialized(m, root)), RootSteps(m, root);
    forall i | 0 <= i < 8 ensures Holds(again, root, steps[i]) {
      SectionKey(m, root, i);
      SectionAgain(m, root, i);
    }
    assert Holds(again, root, steps[0]) && Holds(again, root, steps[1]) && Holds(again, root, steps[2]);
    assert Holds(again, root, steps[3]) && Holds(again, root, steps[4]) && Holds(again, root, steps[5]);
    assert Holds(again, root, steps[6]) && Holds(again, root, steps[7]);
  }

  lemma SectionKey(m: PolicyModel, root: Members, i: nat)
    requires i < 8
    ensures !HasCloser(RootSteps(m, root)[i].Key())
  {
    assert RootSteps(m, root)[i].Key() == SECTION_KEYS[i];
    SectionKeyPlain(i);
  }

  lemma SectionKeyPlain(i: nat)
    requires i < 8
    ensures !HasCloser(SECTION_KEYS[i])
  { }

  /** What is asked of the rules of the model. */
  predicate RulesEditable(m: PolicyModel) {
    AclsEditable(m.acls) && SshEditable(m.ssh) && NodeAttrsEditable(m.nodeAttrs) && GrantsEditable(m.grants)
  }

  /** What is asked of the rows of the model. */
  predicate RowsEditable(m: PolicyModel) {
    && NamesOk(ListNames(m.groups)) && SparedLists(m.groups)
    && NamesOk(ListNames(m.tagOwners)) && SparedLists(m.tagOwners)
    && NamesOk(HostNames(m.hosts)) && SparedHosts(m.hosts)
  }

  /** The four sections of rules, each read as it was written. */
  lemma RulesReadAgain(m: PolicyModel, root: Members, again: Members)
    requires ModelProper(m)
    requires Holds(again, root, WhenUsed("acls", Arr(MapSeq(AclJson, m.acls))))
    requires Holds(again, root, WhenUsed("ssh", Arr(MapSeq(SshJson, m.ssh))))
    requires Holds(again, root, WhenUsed("nodeAttrs", Arr(MapSeq(NodeAttrJson, m.nodeAttrs))))
    requires Holds(again, root, WhenUsed("grants", Arr(MapSeq(GrantJson, m.grants))))
    ensures SameRules(ParseModel(again), m) <==> RulesEditable(m)
  {
    AclsAgain(m.acls, root, again);
    SshRulesAgain(m.ssh, root, again);
    NodeAttrsAgain(m.nodeAttrs, root, again);
    GrantsAgain(m.grants, root, again);
  }

  lemma RowsReadAgain(m: PolicyModel, root: Members, again: Members)
    requires HoldsSections(again, m, root)
    ensures SameRows(ParseModel(again), m) <==> RowsEditable(m)
  {
    NamedSectionAgain(root, "groups", m.groups);
    NamedSectionAgain(root, "tagOwners", m.tagOwners);
    HostsSectionAgain(root, "hosts", m.hosts);
  }

  lemma {:induction false} ApproversReadAgain(a: AutoApprovers, root: Members, again: Members)
    requires ProperObject(root)
    requires Holds(again, root, WhenUsed("autoApprovers", ApproversJson(a, Get(root, "autoApprovers"))))
    ensures ParseAutoApprovers(Get(again, "autoApprovers")) == a
            <==> NamesOk(ListNames(a.routes)) && SparedLists(a.routes) && SparedList(a.exitNode)
  {
    var raw := Get(root, "autoApprovers");
    ValueProper(root, "autoApprovers");
    ApproversHeld(Written(MembersOf(raw), ApproverSteps(a)), root, again);
    ApproversAgain(a, MembersOf(raw), Get(again, "autoApprovers"));
  }

  lemma {:induction false} ApproversHeld(o: Members, root: Members, again: Members)
    requires Holds(again, root, WhenUsed("autoApprovers", Obj(o)))
    ensures (Get(again, "autoApprovers") == None && o == []) || Get(again, "autoApprovers") == Some(Reread(Obj(o)))
  { }

  lemma EditableParts(m: PolicyModel)
    ensures Editable(m) && ModelSpared(m)
            <==> && RowsEditable(m) && RulesEditable(m)
                 && NamesOk(ListNames(m.autoApprovers.routes)) && SparedLists(m.autoApprovers.routes)
                 && SparedList(m.autoApprovers.exitNode)
  { }

  lemma ContentAgain(m: PolicyModel, root: Members)
    requires ModelProper(m) && ProperObject(root)
    ensures Content(ParseModel(RereadMembers(Serialized(m, root)))) == Content(m) <==> Editable(m) && ModelSpared(m)
  {
    var again := RereadMembers(Serialized(m, root));
    SectionsHeld(m, root);
    RowsReadAgain(m, root, again);
    RulesReadAgain(m, root, again);
    ApproversReadAgain(m.autoApprovers, root, again);
    EditableParts(m);
    ContentParts(ParseModel(again), m);
  }

  /** Edits read back, as text: the model written onto any root, printed, stripped and read, is the model
      if and only if it is editable and no string of it holds a trailing comma in print. */
  lemma EditsReadBackExactly(read: Reader, m: PolicyModel, root: Members)
    requires ModelProper(m) && ProperObject(root)
    requires ReadsPrint(read, Eaten(Obj(Serialized(m, root))))
    ensures var text := Printed(Obj(Serialized(m, root)));
            && ParsePolicy(ReadText(read, text)).ok
            && (Content(ParsePolicy(ReadText(read, text)).model) == Content(m) <==> Editable(m) && ModelSpared(m))
  {
    ReadPrinted(read, Serialized(m, root));
    ParsedDocument(RereadMembers(Serialized(m, root)));
    ContentAgain(m, root);
  }

  /** A model of one group with one odd member. */
  const ODD_GROUP := EMPTY_MODEL.(groups := [NamedList("g", ["a,]"])])

  lemma OddGroup()
    ensures Editable(ODD_GROUP) && !ModelSpared(ODD_GROUP) && ModelProper(ODD_GROUP)
  {
    var row := NamedList("g", ["a,]"]);
    assert ListNames([row]) == ["g"];
    assert TrimStart("g") == "g" && TrimEnd("g") == "g";
    assert "a,]"[1..] == ",]" && ",]"[1..] == "]" && "]"[1..] == "";
    assert Escape("]") == "]";
    assert Eat("a,]") == "a]";
    EatenUnlessSpared("a,]");
    assert row in ODD_GROUP.groups && "a,]" in row.values;
  }

  /** A group member that has its place in the document, and is not read back from its text. */
  lemma EditableYetEaten(read: Reader, root: Members)
    requires ProperObject(root) && ReadsPrint(read, Eaten(Obj(Serialized(ODD_GROUP, root))))
    ensures Editable(ODD_GROUP)
    ensures Content(ParsePolicy(ReadText(read, Printed(Obj(Serialized(ODD_GROUP, root))))).model) != Content(ODD_GROUP)
  {
    OddGroup();
    EditsReadBackExactly(read, ODD_GROUP, root);
  }
}
