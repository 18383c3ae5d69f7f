/** The reachability verdict: default deny, access rules first, then grants. */
module Reachability {
  import opened Text
  import opened Json
  import opened Tokens
  import opened Policy
  import opened Expansion
  import opened Search

  datatype EvalQuery = EvalQuery(src: string, dst: string, port: Option<int>, protocol: Option<string>)

  datatype Section = Acls | Grants

  /** The rule, and the entries of it, that produced an allow. */
  datatype EvalMatch = EvalMatch(section: Section, ruleIndex: nat, src: seq<string>, dst: seq<string>,
                                 matchedSrc: string, matchedDst: string, matchedIp: Option<string>)

  datatype EvalResult = Deny | Allow(match_: EvalMatch)

  // ------------------------------------------------------------------ protocols

  /** The protocol numbers behind the names. */
  function ProtoAlias(key: string): Option<string> {
    if key == "tcp" || key == "6" then Some("6")
    else if key == "udp" || key == "17" then Some("17")
    else if key == "icmp" || key == "1" then Some("1")
    else None
  }

  /**
   * Names every JavaScript object answers to, which the alias table therefore does not
   * report as missing.
   */
  predicate IsInheritedName(key: string) {
    key == "constructor" || key == "__proto__"
  }

  function NormalizeText(text: string): Option<string> {
    var key := ToLower(Trim(text));
    if key == "" || key == "any" || key == "*" then None
    else if ProtoAlias(key).Some? then ProtoAlias(key)
    else Some(key)
  }

  function NormalizeProto(value: Option<Value>): Option<string> {
    if value.None? || value.value.Null? then None else NormalizeText(TextOf(value.value))
  }

  function WantedProto(q: EvalQuery): Option<string> {
    if q.protocol.None? then None else NormalizeText(q.protocol.value)
  }

  function RuleProto(rule: AclRule): Option<string> {
    if rule.raw.None? then None else NormalizeProto(Get(rule.raw.value, "proto"))
  }

  predicate ProtoOk(rule: AclRule, wanted: Option<string>) {
    RuleProto(rule).None? || wanted.None? || RuleProto(rule) == wanted
  }

  datatype IpParts = IpParts(proto: Option<string>, ports: string)

  /** One `ip` entry of a grant: the protocol comes first, then the ports. */
  function SplitIpEntry(entry: string): IpParts {
    var trimmed := Trim(entry);
    match IndexOf(trimmed, ':')
    case None =>
      var startsAsPort := trimmed != "" && (IsDigit(trimmed[0]) || trimmed[0] == '*');
      var key := ToLower(trimmed);
      if !startsAsPort && (ProtoAlias(key).Some? || IsInheritedName(key))
      then IpParts(NormalizeText(trimmed), "*")
      else IpParts(None, trimmed)
    case Some(i) =>
      var ports := trimmed[i + 1..];
      IpParts(NormalizeText(trimmed[..i]), if ports == "" then "*" else ports)
  }

  /** A lone word is a protocol when it is a known one, or a name that every object inherits. */
  lemma LoneWord(word: string)
    requires word != "" && forall c | c in word :: 'a' <= c <= 'z'
    ensures SplitIpEntry(word)
            == if ProtoAlias(word).Some? || word == "constructor" then IpParts(NormalizeText(word), "*")
               else IpParts(None, word)
  {
    assert word[0] in word && word[|word| - 1] in word;
    assert Trim(word) == word;
    forall i | 0 <= i < |word| ensures ToLower(word)[i] == word[i] { assert word[i] in word; }
    assert ToLower(word) == word && ':' !in word;
    assert IndexOf(word, ':').None?;
    assert "__proto__"[0] == '_' && word != "__proto__";
  }

  predicate IpAdmits(entry: string, port: Option<int>, wanted: Option<string>) {
    var parts := SplitIpEntry(entry);
    && PortAdmitted(Some(parts.ports), port)
    && (parts.proto.None? || wanted.None? || parts.proto == wanted)
  }

  method IpEntryAllows(entry: string, port: Option<int>, wanted: Option<string>) returns (ok: bool)
    ensures ok <==> IpAdmits(entry, port, wanted)
  {
    var parts := SplitIpEntry(entry);
    var portOk := PortMatches(Some(parts.ports), port);
    if !portOk { return false; }
    if parts.proto.Some? && wanted.Some? && parts.proto != wanted { return false; }
    return true;
  }

  // --------------------------------------------------------------- when a rule fires

  // A selector whose search does not come to an end hits nothing.

  ghost predicate Meets(m: PolicyModel, a: string, b: string) {
    Ends(m, a) && Ends(m, b) && Covers(Denotes(m, a), Denotes(m, b))
  }

  ghost predicate SrcHit(m: PolicyModel, q: EvalQuery, entry: string) {
    Meets(m, q.src, entry)
  }

  ghost predicate AclDstHit(m: PolicyModel, q: EvalQuery, entry: string) {
    var parts := SplitDstPorts(entry);
    Meets(m, q.dst, parts.host) && PortAdmitted(parts.ports, q.port)
  }

  ghost predicate GrantDstHit(m: PolicyModel, q: EvalQuery, entry: string) {
    Meets(m, q.dst, entry)
  }

  predicate IpHit(q: EvalQuery, entry: string) {
    IpAdmits(entry, q.port, WantedProto(q))
  }

  ghost predicate AclFires(m: PolicyModel, q: EvalQuery, rule: AclRule) {
    && rule.action == "accept"
    && (exists s | s in rule.src :: SrcHit(m, q, s))
    && ProtoOk(rule, WantedProto(q))
    && (exists d | d in rule.dst :: AclDstHit(m, q, d))
  }

  ghost predicate GrantFires(m: PolicyModel, q: EvalQuery, grant: GrantEntry) {
    && (exists s | s in grant.src :: SrcHit(m, q, s))
    && (exists d | d in grant.dst :: GrantDstHit(m, q, d))
    && (exists ip | ip in grant.ip :: IpHit(q, ip))
  }

  ghost predicate Allowed(m: PolicyModel, q: EvalQuery) {
    && !IsBlank(q.src)
    && !IsBlank(q.dst)
    && ((exists rule | rule in m.acls :: AclFires(m, q, rule))
        || (exists grant | grant in m.grants :: GrantFires(m, q, grant)))
  }

  // ------------------------------------------------ when the evaluator has an answer

  // Entries and rules are tried in order, and none after the first that fits: only the
  // searches that are run need to come to an end.

  ghost predicate SrcEnds(m: PolicyModel, q: EvalQuery, entries: seq<string>) {
    forall k | 0 <= k < |entries| && (forall j | 0 <= j < k :: !SrcHit(m, q, entries[j])) :: Ends(m, entries[k])
  }

  ghost predicate AclDstEnds(m: PolicyModel, q: EvalQuery, entries: seq<string>) {
    forall k | 0 <= k < |entries| && (forall j | 0 <= j < k :: !AclDstHit(m, q, entries[j])) ::
      Ends(m, SplitDstPorts(entries[k]).host)
  }

  ghost predicate GrantDstEnds(m: PolicyModel, q: EvalQuery, entries: seq<string>) {
    forall k | 0 <= k < |entries| && (forall j | 0 <= j < k :: !GrantDstHit(m, q, entries[j])) :: Ends(m, entries[k])
  }

  ghost predicate AclEnds(m: PolicyModel, q: EvalQuery, rule: AclRule) {
    rule.action == "accept" ==>
      && SrcEnds(m, q, rule.src)
      && ((exists s | s in rule.src :: SrcHit(m, q, s)) && ProtoOk(rule, WantedProto(q)) ==>
            AclDstEnds(m, q, rule.dst))
  }

  ghost predicate GrantEnds(m: PolicyModel, q: EvalQuery, grant: GrantEntry) {
    && SrcEnds(m, q, grant.src)
    && ((exists s | s in grant.src :: SrcHit(m, q, s)) ==> GrantDstEnds(m, q, grant.dst))
  }

  ghost predicate NoAclBefore(m: PolicyModel, q: EvalQuery, i: nat)
    requires i <= |m.acls|
  {
    forall j | 0 <= j < i :: !AclFires(m, q, m.acls[j])
  }

  ghost predicate NoGrantBefore(m: PolicyModel, q: EvalQuery, i: nat)
    requires i <= |m.grants|
  {
    forall j | 0 <= j < i :: !GrantFires(m, q, m.grants[j])
  }

  ghost predicate AclsEnd(m: PolicyModel, q: EvalQuery) {
    forall i | 0 <= i < |m.acls| && NoAclBefore(m, q, i) :: AclEnds(m, q, m.acls[i])
  }

  ghost predicate GrantsEnd(m: PolicyModel, q: EvalQuery) {
    forall i | 0 <= i < |m.grants| && NoGrantBefore(m, q, i) :: GrantEnds(m, q, m.grants[i])
  }

  /** Every search that the evaluator comes to has an end. */
  ghost predicate Answers(m: PolicyModel, q: EvalQuery) {
    !IsBlank(q.src) && !IsBlank(q.dst) ==>
      && Ends(m, q.src) && Ends(m, q.dst)
      && AclsEnd(m, q)
      && (NoAclBefore(m, q, |m.acls|) ==> GrantsEnd(m, q))
  }

  // ---------------------------------------------------------- the least witness

  ghost predicate FirstSrc(m: PolicyModel, q: EvalQuery, entries: seq<string>, entry: string) {
    exists k | 0 <= k < |entries| ::
      entries[k] == entry && SrcHit(m, q, entry) && forall j | 0 <= j < k :: !SrcHit(m, q, entries[j])
  }

  ghost predicate FirstAclDst(m: PolicyModel, q: EvalQuery, entries: seq<string>, entry: string) {
    exists k | 0 <= k < |entries| ::
      entries[k] == entry && AclDstHit(m, q, entry) && forall j | 0 <= j < k :: !AclDstHit(m, q, entries[j])
  }

  ghost predicate FirstGrantDst(m: PolicyModel, q: EvalQuery, entries: seq<string>, entry: string) {
    exists k | 0 <= k < |entries| ::
      entries[k] == entry && GrantDstHit(m, q, entry) && forall j | 0 <= j < k :: !GrantDstHit(m, q, entries[j])
  }

  ghost predicate FirstIp(q: EvalQuery, entries: seq<string>, entry: string) {
    exists k | 0 <= k < |entries| ::
      entries[k] == entry && IpHit(q, entry) && forall j | 0 <= j < k :: !IpHit(q, entries[j])
  }

  /** The match an access rule gives by itself. */
  ghost predicate AclMatch(m: PolicyModel, q: EvalQuery, i: nat, w: EvalMatch)
    requires i < |m.acls|
  {
    && AclFires(m, q, m.acls[i])
    && w == EvalMatch(Acls, i, m.acls[i].src, m.acls[i].dst, w.matchedSrc, w.matchedDst, None)
    && FirstSrc(m, q, w.src, w.matchedSrc)
    && FirstAclDst(m, q, w.dst, w.matchedDst)
  }

  /** The match a grant gives by itself. */
  ghost predicate GrantMatch(m: PolicyModel, q: EvalQuery, i: nat, w: EvalMatch)
    requires i < |m.grants|
  {
    && GrantFires(m, q, m.grants[i])
    && w == EvalMatch(Grants, i, m.grants[i].src, m.grants[i].dst, w.matchedSrc, w.matchedDst, w.matchedIp)
    && FirstSrc(m, q, w.src, w.matchedSrc)
    && FirstGrantDst(m, q, w.dst, w.matchedDst)
    && w.matchedIp.Some?
    && FirstIp(q, m.grants[i].ip, w.matchedIp.value)
  }

  /** The first access rule that fires, and the first entry of each of its lists that matches. */
  ghost predicate FirstAcl(m: PolicyModel, q: EvalQuery, w: EvalMatch) {
    && w.section == Acls && w.ruleIndex < |m.acls|
    && AclMatch(m, q, w.ruleIndex, w)
    && NoAclBefore(m, q, w.ruleIndex)
  }

  ghost predicate FirstGrant(m: PolicyModel, q: EvalQuery, w: EvalMatch) {
    && w.section == Grants && w.ruleIndex < |m.grants|
    && GrantMatch(m, q, w.ruleIndex, w)
    && NoGrantBefore(m, q, w.ruleIndex)
  }

  /** Access rules come before grants: a grant is reported only when no access rule fires. */
  ghost predicate LeastMatch(m: PolicyModel, q: EvalQuery, w: EvalMatch) {
    FirstAcl(m, q, w) || (FirstGrant(m, q, w) && NoAclBefore(m, q, |m.acls|))
  }

  // --------------------------------------------------------------- the evaluator

  method ExpandSelector(m: PolicyModel, token: string) returns (out: Expanded)
    requires Ends(m, token)
    ensures fresh(out) && out.Value() == Denotes(m, token)
  {
    var seen := new Visited();
    out := ExpandToken(m, token, seen);
  }

  method TestSrc(m: PolicyModel, q: EvalQuery, query: Expanded, entry: string) returns (hit: bool)
    requires Ends(m, q.src) && query.Value() == Denotes(m, q.src)
    requires Ends(m, entry)
    ensures hit <==> SrcHit(m, q, entry)
  {
    var exp := ExpandSelector(m, entry);
    hit := CoversEntry(query, exp);
  }

  method TestGrantDst(m: PolicyModel, q: EvalQuery, query: Expanded, entry: string) returns (hit: bool)
    requires Ends(m, q.dst) && query.Value() == Denotes(m, q.dst)
    requires Ends(m, entry)
    ensures hit <==> GrantDstHit(m, q, entry)
  {
    var exp := ExpandSelector(m, entry);
    hit := CoversEntry(query, exp);
  }

  method TestAclDst(m: PolicyModel, q: EvalQuery, query: Expanded, entry: string) returns (hit: bool)
    requires Ends(m, q.dst) && query.Value() == Denotes(m, q.dst)
    requires Ends(m, SplitDstPorts(entry).host)
    ensures hit <==> AclDstHit(m, q, entry)
  {
    var parts := SplitDstPorts(entry);
    var exp := ExpandSelector(m, parts.host);
    hit := CoversEntry(query, exp);
    if hit { hit := PortMatches(parts.ports, q.port); }
  }

  /** The loop over source entries, the same for both sections. */
  method MatchSrc(m: PolicyModel, q: EvalQuery, query: Expanded, entries: seq<string>)
    returns (matched: Option<string>)
    requires Ends(m, q.src) && query.Value() == Denotes(m, q.src)
    requires SrcEnds(m, q, entries)
    ensures matched.Some? ==> FirstSrc(m, q, entries, matched.value)
    ensures matched.None? ==> forall e | e in entries :: !SrcHit(m, q, e)
  {
    for k := 0 to |entries|
      invariant forall j | 0 <= j < k :: !SrcHit(m, q, entries[j])
    {
      var hit := TestSrc(m, q, query, entries[k]);
      if hit { return Some(entries[k]); }
    }
    return None;
  }

  method MatchGrantDst(m: PolicyModel, q: EvalQuery, query: Expanded, entries: seq<string>)
    returns (matched: Option<string>)
    requires Ends(m, q.dst) && query.Value() == Denotes(m, q.dst)
    requires GrantDstEnds(m, q, entries)
    ensures matched.Some? ==> FirstGrantDst(m, q, entries, matched.value)
    ensures matched.None? ==> forall e | e in entries :: !GrantDstHit(m, q, e)
  {
    for k := 0 to |entries|
      invariant forall j | 0 <= j < k :: !GrantDstHit(m, q, entries[j])
    {
      var hit := TestGrantDst(m, q, query, entries[k]);
      if hit { return Some(entries[k]); }
    }
    return None;
  }

  method MatchAclDst(m: PolicyModel, q: EvalQuery, query: Expanded, entries: seq<string>)
    returns (matched: Option<string>)
    requires Ends(m, q.dst) && query.Value() == Denotes(m, q.dst)
    requires AclDstEnds(m, q, entries)
    ensures matched.Some? ==> FirstAclDst(m, q, entries, matched.value)
    ensures matched.None? ==> forall e | e in entries :: !AclDstHit(m, q, e)
  {
    for k := 0 to |entries|
      invariant forall j | 0 <= j < k :: !AclDstHit(m, q, entries[j])
    {
      var hit := TestAclDst(m, q, query, entries[k]);
      if hit { return Some(entries[k]); }
    }
    return None;
  }

  method TestIp(q: EvalQuery, entry: string) returns (hit: bool)
    ensures hit <==> IpHit(q, entry)
  {
    hit := IpEntryAllows(entry, q.port, WantedProto(q));
  }

  method MatchIp(q: EvalQuery, entries: seq<string>) returns (matched: Option<string>)
    ensures matched.Some? ==> FirstIp(q, entries, matched.value)
    ensures matched.None? ==> forall e | e in entries :: !IpHit(q, e)
  {
    for k := 0 to |entries|
      invariant forall j | 0 <= j < k :: !IpHit(q, entries[j])
    {
      var hit := TestIp(q, entries[k]);
      if hit { return Some(entries[k]); }
    }
    return None;
  }

  method TryAcl(m: PolicyModel, q: EvalQuery, srcQuery: Expanded, dstQuery: Expanded, i: nat)
    returns (w: Option<EvalMatch>)
    requires i < |m.acls| && AclEnds(m, q, m.acls[i])
    requires Ends(m, q.src) && Ends(m, q.dst)
    requires srcQuery.Value() == Denotes(m, q.src) && dstQuery.Value() == Denotes(m, q.dst)
    ensures w.None? ==> !AclFires(m, q, m.acls[i])
    ensures w.Some? ==> AclMatch(m, q, i, w.value)
  {
    var rule := m.acls[i];
    if rule.action != "accept" { return None; }
    var matchedSrc := MatchSrc(m, q, srcQuery, rule.src);
    if matchedSrc.None? { return None; }
    if !ProtoOk(rule, WantedProto(q)) { return None; }
    var matchedDst := MatchAclDst(m, q, dstQuery, rule.dst);
    if matchedDst.None? { return None; }
    return Some(EvalMatch(Acls, i, rule.src, rule.dst, matchedSrc.value, matchedDst.value, None));
  }

  method TryGrant(m: PolicyModel, q: EvalQuery, srcQuery: Expanded, dstQuery: Expanded, i: nat)
    returns (w: Option<EvalMatch>)
    requires i < |m.grants| && GrantEnds(m, q, m.grants[i])
    requires Ends(m, q.src) && Ends(m, q.dst)
    requires srcQuery.Value() == Denotes(m, q.src) && dstQuery.Value() == Denotes(m, q.dst)
    ensures w.None? ==> !GrantFires(m, q, m.grants[i])
    ensures w.Some? ==> GrantMatch(m, q, i, w.value)
  {
    var grant := m.grants[i];
    var matchedSrc := MatchSrc(m, q, srcQuery, grant.src);
    if matchedSrc.None? { return None; }
    var matchedDst := MatchGrantDst(m, q, dstQuery, grant.dst);
    if matchedDst.None? { return None; }
    if |grant.ip| == 0 { return None; }
    var matchedIp := MatchIp(q, grant.ip);
    if matchedIp.None? { return None; }
    return Some(EvalMatch(Grants, i, grant.src, grant.dst, matchedSrc.value, matchedDst.value, matchedIp));
  }

  lemma NotYetAcl(m: PolicyModel, q: EvalQuery, i: nat)
    requires i < |m.acls| && NoAclBefore(m, q, i) && !AclFires(m, q, m.acls[i])
    ensures NoAclBefore(m, q, i + 1)
  { }

  method EvaluateAcls(m: PolicyModel, q: EvalQuery, srcQuery: Expanded, dstQuery: Expanded)
    returns (w: Option<EvalMatch>)
    requires Ends(m, q.src) && Ends(m, q.dst) && AclsEnd(m, q)
    requires srcQuery.Value() == Denotes(m, q.src) && dstQuery.Value() == Denotes(m, q.dst)
    ensures w.None? ==> NoAclBefore(m, q, |m.acls|)
    ensures w.Some? ==> FirstAcl(m, q, w.value)
  {
    for i := 0 to |m.acls|
      invariant NoAclBefore(m, q, i)
    {
      w := TryAcl(m, q, srcQuery, dstQuery, i);
      if w.Some? { return; }
      NotYetAcl(m, q, i);
    }
    return None;
  }

  lemma NotYetGrant(m: PolicyModel, q: EvalQuery, i: nat)
    requires i < |m.grants| && NoGrantBefore(m, q, i) && !GrantFires(m, q, m.grants[i])
    ensures NoGrantBefore(m, q, i + 1)
  { }

  method EvaluateGrants(m: PolicyModel, q: EvalQuery, srcQuery: Expanded, dstQuery: Expanded)
    returns (w: Option<EvalMatch>)
    requires Ends(m, q.src) && Ends(m, q.dst) && GrantsEnd(m, q)
    requires srcQuery.Value() == Denotes(m, q.src) && dstQuery.Value() == Denotes(m, q.dst)
    ensures w.None? ==> NoGrantBefore(m, q, |m.grants|)
    ensures w.Some? ==> FirstGrant(m, q, w.value)
  {
    for i := 0 to |m.grants|
      invariant NoGrantBefore(m, q, i)
    {
      w := TryGrant(m, q, srcQuery, dstQuery, i);
      if w.Some? { return; }
      NotYetGrant(m, q, i);
    }
    return None;
  }

  /** Allow exactly when some rule fires, and then the least match is reported. */
  method EvaluateReachability(m: PolicyModel, q: EvalQuery) returns (r: EvalResult)
    requires Answers(m, q)
    ensures r.Allow? <==> Allowed(m, q)
    ensures r.Allow? ==> LeastMatch(m, q, r.match_)
  {
    if IsBlank(q.src) || IsBlank(q.dst) { return Deny; }
    var srcQuery := ExpandSelector(m, q.src);
    var dstQuery := ExpandSelector(m, q.dst);
    var acl := EvaluateAcls(m, q, srcQuery, dstQuery);
    if acl.Some? { return Allow(acl.value); }
    var grant := EvaluateGrants(m, q, srcQuery, dstQuery);
    if grant.Some? { return Allow(grant.value); }
    return Deny;
  }
}
