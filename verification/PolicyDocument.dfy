/** Between a policy document and its editable model: parsing, and writing back. */
module PolicyDocument {
  import opened Text
  import opened Json
  import opened Edits
  import opened Policy

  // ------------------------------------------------------------------------- parsing

  function StringsIn(items: seq<Value>): seq<string> {
    if items == [] then []
    else (if items[0].Str? then [items[0].s] else []) + StringsIn(items[1..])
  }

  /** A list of strings, tolerating a bare string or junk. */
  function StringList(v: Option<Value>): seq<string> {
    match v
    case Some(Arr(items)) => StringsIn(items)
    case Some(Str(s)) => [s]
    case _ => []
  }

  function ObjectsIn(items: seq<Value>): seq<Members> {
    if items == [] then []
    else (if items[0].Obj? then [items[0].members] else []) + ObjectsIn(items[1..])
  }

  function ObjectList(v: Option<Value>): seq<Members> {
    match v
    case Some(Arr(items)) => ObjectsIn(items)
    case _ => []
  }

  function MembersOf(v: Option<Value>): Members {
    match v
    case Some(Obj(members)) => members
    case _ => []
  }

  function ParseNamedLists(v: Option<Value>): (lists: seq<NamedList>)
    ensures |lists| == |MembersOf(v)|
  {
    var ms := MembersOf(v);
    seq(|ms|, i requires 0 <= i < |ms| => NamedList(ms[i].0, StringList(Some(ms[i].1))))
  }

  function ParseHosts(v: Option<Value>): (hosts: seq<HostEntry>)
    ensures |hosts| == |MembersOf(v)|
  {
    var ms := MembersOf(v);
    seq(|ms|, i requires 0 <= i < |ms| => HostEntry(ms[i].0, if ms[i].1.Str? then ms[i].1.s else ""))
  }

  function ActionOf(o: Members): string {
    match Get(o, "action")
    case Some(Str(s)) => s
    case _ => "accept"
  }

  function AppOf(o: Members): Option<Members> {
    match Get(o, "app")
    case Some(Obj(members)) => Some(members)
    case _ => None
  }

  function ParseAcl(o: Members): AclRule {
    AclRule(ActionOf(o), StringList(Get(o, "src")), StringList(Get(o, "dst")), Some(o))
  }

  function ParseSshRule(o: Members): SshRule {
    SshRule(ActionOf(o), StringList(Get(o, "src")), StringList(Get(o, "dst")), StringList(Get(o, "users")), Some(o))
  }

  function ParseNodeAttr(o: Members): NodeAttrEntry {
    NodeAttrEntry(StringList(Get(o, "target")), StringList(Get(o, "attr")), AppOf(o), Some(o))
  }

  function ParseGrant(o: Members): GrantEntry {
    GrantEntry(StringList(Get(o, "src")), StringList(Get(o, "dst")), StringList(Get(o, "ip")),
               StringList(Get(o, "via")), AppOf(o), Some(o))
  }

  function MapSeq<A, B>(f: A -> B, xs: seq<A>): (ys: seq<B>)
    ensures |ys| == |xs|
    ensures forall i | 0 <= i < |xs| :: ys[i] == f(xs[i])
  {
    seq(|xs|, i requires 0 <= i < |xs| => f(xs[i]))
  }

  function ParseAutoApprovers(v: Option<Value>): AutoApprovers {
    var o := MembersOf(v);
    AutoApprovers(ParseNamedLists(Get(o, "routes")), StringList(Get(o, "exitNode")))
  }

  function ParseModel(root: Members): PolicyModel {
    PolicyModel(
      ParseNamedLists(Get(root, "groups")),
      ParseNamedLists(Get(root, "tagOwners")),
      ParseHosts(Get(root, "hosts")),
      MapSeq(ParseAcl, ObjectList(Get(root, "acls"))),
      MapSeq(ParseSshRule, ObjectList(Get(root, "ssh"))),
      MapSeq(ParseNodeAttr, ObjectList(Get(root, "nodeAttrs"))),
      MapSeq(ParseGrant, ObjectList(Get(root, "grants"))),
      ParseAutoApprovers(Get(root, "autoApprovers")))
  }

  const EMPTY_MODEL := PolicyModel([], [], [], [], [], [], [], AutoApprovers([], []))

  /** The source text, as far as JSON reading gets with it. */
  datatype Source = Blank | Unreadable(reason: string) | Document(value: Value)

  datatype ParsedPolicy = ParsedPolicy(ok: bool, model: PolicyModel, root: Members, error: Option<string>)

  function ParsePolicy(source: Source): ParsedPolicy {
    match source
    case Blank => ParsedPolicy(true, EMPTY_MODEL, [], None)
    case Unreadable(reason) => ParsedPolicy(false, EMPTY_MODEL, [], Some(reason))
    case Document(Obj(root)) => ParsedPolicy(true, ParseModel(root), root, None)
    case Document(_) => ParsedPolicy(false, EMPTY_MODEL, [], Some("The policy must be a JSON object."))
  }

  // --------------------------------------------------------------- what gets written

  function Strings(xs: seq<string>): (items: seq<Value>)
    ensures |items| == |xs|
  {
    seq(|xs|, i requires 0 <= i < |xs| => Str(xs[i]))
  }

  function StringArr(xs: seq<string>): Value {
    Arr(Strings(xs))
  }

  /** The record of the named rows: nameless ones are skipped, a repeated name overwrites. */
  function NamedRecord(lists: seq<NamedList>): Members {
    if lists == [] then []
    else
      var before, last := NamedRecord(lists[..|lists| - 1]), lists[|lists| - 1];
      if IsBlank(last.name) then before else Put(before, last.name, StringArr(last.values))
  }

  function HostRecord(hosts: seq<HostEntry>): Members {
    if hosts == [] then []
    else
      var before, last := HostRecord(hosts[..|hosts| - 1]), hosts[|hosts| - 1];
      if IsBlank(last.name) then before else Put(before, last.name, Str(last.cidr))
  }

  function RawOf(raw: Option<Members>): Members {
    if raw.Some? then raw.value else []
  }

  function ActionText(action: string): Value {
    Str(if action == "" then "accept" else action)
  }

  function AclSteps(rule: AclRule): seq<Step> {
    [Always("action", ActionText(rule.action)),
     Always("src", StringArr(rule.src)),
     Always("dst", StringArr(rule.dst))]
  }

  function SshSteps(rule: SshRule): seq<Step> {
    [Always("action", ActionText(rule.action)),
     Always("src", StringArr(rule.src)),
     Always("dst", StringArr(rule.dst)),
     Always("users", StringArr(rule.users))]
  }

  function NodeAttrSteps(entry: NodeAttrEntry): seq<Step> {
    [Always("target", StringArr(entry.target)),
     WhenUsed("attr", StringArr(entry.attr)),
     App(entry.app)]
  }

  function GrantSteps(entry: GrantEntry): seq<Step> {
    [Always("src", StringArr(entry.src)),
     Always("dst", StringArr(entry.dst)),
     WhenUsed("ip", StringArr(entry.ip)),
     WhenUsed("via", StringArr(entry.via)),
     App(entry.app)]
  }

  /** An object with its writes applied. */
  function Written(source: Members, steps: seq<Step>): Members {
    ApplyAll(source, source, steps)
  }

  function AclJson(rule: AclRule): Value {
    Obj(Written(RawOf(rule.raw), AclSteps(rule)))
  }

  function SshJson(rule: SshRule): Value {
    Obj(Written(RawOf(rule.raw), SshSteps(rule)))
  }

  function NodeAttrJson(entry: NodeAttrEntry): Value {
    Obj(Written(RawOf(entry.raw), NodeAttrSteps(entry)))
  }

  function GrantJson(entry: GrantEntry): Value {
    Obj(Written(RawOf(entry.raw), GrantSteps(entry)))
  }

  function ApproverSteps(a: AutoApprovers): seq<Step> {
    [WhenUsed("routes", Obj(NamedRecord(a.routes))),
     WhenUsed("exitNode", StringArr(a.exitNode))]
  }

  function ApproversJson(a: AutoApprovers, raw: Option<Value>): Value {
    Obj(Written(MembersOf(raw), ApproverSteps(a)))
  }

  function RootSteps(m: PolicyModel, root: Members): seq<Step> {
    [WhenUsed("groups", Obj(NamedRecord(m.groups))),
     WhenUsed("tagOwners", Obj(NamedRecord(m.tagOwners))),
     WhenUsed("hosts", Obj(HostRecord(m.hosts))),
     WhenUsed("acls", Arr(MapSeq(AclJson, m.acls))),
     WhenUsed("ssh", Arr(MapSeq(SshJson, m.ssh))),
     WhenUsed("nodeAttrs", Arr(MapSeq(NodeAttrJson, m.nodeAttrs))),
     WhenUsed("grants", Arr(MapSeq(GrantJson, m.grants))),
     WhenUsed("autoApprovers", ApproversJson(m.autoApprovers, Get(root, "autoApprovers")))]
  }

  /** The document a model writes onto a root. */
  function Serialized(m: PolicyModel, root: Members): Members {
    Written(root, RootSteps(m, root))
  }

  function RoundTrip(source: Source): Members {
    var parsed := ParsePolicy(source);
    Serialized(parsed.model, parsed.root)
  }
}
