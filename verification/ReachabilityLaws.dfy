/** What every verdict means, and how it grows. */
module ReachabilityLaws {
  import opened Text
  import opened Tokens
  import opened Policy
  import opened Expansion
  import opened Search
  import opened Reachability

  /** Some address lies in a range reached from each of the two selectors. */
  ghost predicate ShareAddress(m: PolicyModel, a: string, b: string) {
    exists address, n, n' | ReachesNet(m, a, n) && ReachesNet(m, b, n') ::
      InRange(address, n) && InRange(address, n')
  }

  ghost predicate ShareAtom(m: PolicyModel, a: string, b: string) {
    exists atom :: ReachesAtom(m, a, atom) && ReachesAtom(m, b, atom)
  }

  /**
   * Two selectors cover one another exactly when one of them reaches the wildcard, or
   * both reach the same principal, or both reach ranges with an address in common.
   */
  lemma CoversMeaning(m: PolicyModel, a: string, b: string)
    requires Ends(m, a) && Ends(m, b)
    ensures Covers(Denotes(m, a), Denotes(m, b)) <==>
            || ReachesWildcard(m, a)
            || ReachesWildcard(m, b)
            || ShareAtom(m, a, b)
            || ShareAddress(m, a, b)
  {
    DenotesClosure(m, a);
    DenotesClosure(m, b);
    AtomsMeaning(m, a, b);
    NetsMeaning(m, a, b);
  }

  lemma AtomsMeaning(m: PolicyModel, a: string, b: string)
    requires Ends(m, a) && Ends(m, b)
    ensures (exists atom | atom in Denotes(m, a).atoms :: atom in Denotes(m, b).atoms) <==> ShareAtom(m, a, b)
  {
    DenotesClosure(m, a);
    DenotesClosure(m, b);
    if ShareAtom(m, a, b) {
      var atom :| ReachesAtom(m, a, atom) && ReachesAtom(m, b, atom);
      assert atom in Denotes(m, a).atoms && atom in Denotes(m, b).atoms;
    }
  }

  lemma NetsMeaning(m: PolicyModel, a: string, b: string)
    requires Ends(m, a) && Ends(m, b)
    ensures (exists n, n' | n in Denotes(m, a).nets && n' in Denotes(m, b).nets :: RangesOverlap(n, n'))
            <==> ShareAddress(m, a, b)
  {
    DenotesClosure(m, a);
    DenotesClosure(m, b);
    if n, n' :| n in Denotes(m, a).nets && n' in Denotes(m, b).nets && RangesOverlap(n, n') {
      OverlapExact(n, n');
      var address :| InRange(address, n) && InRange(address, n');
      assert ReachesNet(m, a, n) && ReachesNet(m, b, n');
    }
    if ShareAddress(m, a, b) {
      var address, n, n' :| ReachesNet(m, a, n) && ReachesNet(m, b, n') && InRange(address, n) && InRange(address, n');
      OverlapExact(n, n');
      assert n in Denotes(m, a).nets && n' in Denotes(m, b).nets;
    }
  }

  /** A wildcard covers even a selector that stands for nobody. */
  lemma WildcardMeetsNobody(m: PolicyModel)
    ensures Ends(m, "*") && Ends(m, "")
    ensures Denotes(m, "") == NOTHING && Covers(Denotes(m, "*"), Denotes(m, ""))
  {
    assert ExpandOnStack(m, "*", {}, 1).Some? && ExpandOnStack(m, "", {}, 1).Some?;
    FinishesExactly(m, "*", {});
    FinishesExactly(m, "", {});
  }

  // -------------------------------------------------------------- allow only grows

  /** Every reference of `m` is one of `m'`, over the same host aliases. */
  ghost predicate RefersMore(m: PolicyModel, m': PolicyModel) {
    && m.hosts == m'.hosts
    && forall t, u | u in Refers(m, t) :: u in Refers(m', t)
  }

  lemma SameHosts(m: PolicyModel, m': PolicyModel, token: string)
    requires m.hosts == m'.hosts
    ensures AliasOf(m, token) == AliasOf(m', token) && Direct(m, token) == Direct(m', token)
  {
    assert HostAliases(m) == HostAliases(m');
  }

  lemma ReachesMore(m: PolicyModel, m': PolicyModel, a: string, b: string)
    requires RefersMore(m, m') && Reaches(m, a, b)
    ensures Reaches(m', a, b)
  {
    var path :| IsPath(m, a, b, path, {});
    assert IsPath(m', a, b, path, {});
  }

  lemma DenotesMore(m: PolicyModel, m': PolicyModel, token: string)
    requires RefersMore(m, m') && Ends(m, token) && Ends(m', token)
    ensures Within(Denotes(m, token), Denotes(m', token))
  {
    DenotesClosure(m, token);
    DenotesClosure(m', token);
    forall t | Reaches(m, token, t)
      ensures Reaches(m', token, t) && Direct(m, t) == Direct(m', t)
    {
      ReachesMore(m, m', token, t);
      SameHosts(m, m', t);
    }
  }

  lemma CoversMore(q: Denotation, e: Denotation, q': Denotation, e': Denotation)
    requires Within(q, q') && Within(e, e') && Covers(q, e)
    ensures Covers(q', e')
  {
  }

  lemma MeetsMore(m: PolicyModel, m': PolicyModel, a: string, b: string)
    requires RefersMore(m, m') && Meets(m, a, b) && Ends(m', a) && Ends(m', b)
    ensures Meets(m', a, b)
  {
    DenotesMore(m, m', a);
    DenotesMore(m, m', b);
    CoversMore(Denotes(m, a), Denotes(m, b), Denotes(m', a), Denotes(m', b));
  }

  lemma SrcHitsMore(m: PolicyModel, m': PolicyModel, q: EvalQuery, entries: seq<string>)
    requires RefersMore(m, m') && Ends(m', q.src) && SrcEnds(m', q, entries)
    requires exists s | s in entries :: SrcHit(m, q, s)
    ensures exists s | s in entries :: SrcHit(m', q, s)
  {
    var s :| s in entries && SrcHit(m, q, s);
    if forall e | e in entries :: !SrcHit(m', q, e) {
      var k :| 0 <= k < |entries| && entries[k] == s;
      assert Ends(m', entries[k]);
      MeetsMore(m, m', q.src, s);
      assert SrcHit(m', q, s);
    }
  }

  lemma AclDstHitsMore(m: PolicyModel, m': PolicyModel, q: EvalQuery, entries: seq<string>)
    requires RefersMore(m, m') && Ends(m', q.dst) && AclDstEnds(m', q, entries)
    requires exists d | d in entries :: AclDstHit(m, q, d)
    ensures exists d | d in entries :: AclDstHit(m', q, d)
  {
    var d :| d in entries && AclDstHit(m, q, d);
    if forall e | e in entries :: !AclDstHit(m', q, e) {
      var k :| 0 <= k < |entries| && entries[k] == d;
      assert Ends(m', SplitDstPorts(entries[k]).host);
      MeetsMore(m, m', q.dst, SplitDstPorts(d).host);
      assert AclDstHit(m', q, d);
    }
  }

  lemma GrantDstHitsMore(m: PolicyModel, m': PolicyModel, q: EvalQuery, entries: seq<string>)
    requires RefersMore(m, m') && Ends(m', q.dst) && GrantDstEnds(m', q, entries)
    requires exists d | d in entries :: GrantDstHit(m, q, d)
    ensures exists d | d in entries :: GrantDstHit(m', q, d)
  {
    var d :| d in entries && GrantDstHit(m, q, d);
    if forall e | e in entries :: !GrantDstHit(m', q, e) {
      var k :| 0 <= k < |entries| && entries[k] == d;
      assert Ends(m', entries[k]);
      MeetsMore(m, m', q.dst, d);
      assert GrantDstHit(m', q, d);
    }
  }

  lemma AclFiresMore(m: PolicyModel, m': PolicyModel, q: EvalQuery, rule: AclRule)
    requires RefersMore(m, m') && AclFires(m, q, rule)
    requires Ends(m', q.src) && Ends(m', q.dst) && AclEnds(m', q, rule)
    ensures AclFires(m', q, rule)
  {
    SrcHitsMore(m, m', q, rule.src);
    AclDstHitsMore(m, m', q, rule.dst);
  }

  lemma GrantFiresMore(m: PolicyModel, m': PolicyModel, q: EvalQuery, grant: GrantEntry)
    requires RefersMore(m, m') && GrantFires(m, q, grant)
    requires Ends(m', q.src) && Ends(m', q.dst) && GrantEnds(m', q, grant)
    ensures GrantFires(m', q, grant)
  {
    SrcHitsMore(m, m', q, grant.src);
    GrantDstHitsMore(m, m', q, grant.dst);
  }

  /** With more references and more rules an allow stays an allow, wherever there is an answer. */
  lemma AllowGrows(m: PolicyModel, m': PolicyModel, q: EvalQuery)
    requires RefersMore(m, m') && Answers(m', q)
    requires forall rule | rule in m.acls :: rule in m'.acls
    requires forall grant | grant in m.grants :: grant in m'.grants
    ensures Allowed(m, q) ==> Allowed(m', q)
  {
    if Allowed(m, q) && !Allowed(m', q) {
      if rule :| rule in m.acls && AclFires(m, q, rule) {
        var i :| 0 <= i < |m'.acls| && m'.acls[i] == rule;
        assert AclEnds(m', q, m'.acls[i]);
        AclFiresMore(m, m', q, rule);
      } else {
        var grant :| grant in m.grants && GrantFires(m, q, grant);
        var i :| 0 <= i < |m'.grants| && m'.grants[i] == grant;
        assert GrantEnds(m', q, m'.grants[i]);
        GrantFiresMore(m, m', q, grant);
      }
    }
  }

  lemma SameGroupsRefer(m: PolicyModel, m': PolicyModel)
    requires m.hosts == m'.hosts && m.groups == m'.groups
    ensures RefersMore(m, m')
  {
    forall t, u | u in Refers(m, t) ensures u in Refers(m', t) { SameHosts(m, m', t); }
  }

  function InsertAt<T>(xs: seq<T>, k: nat, x: T): seq<T>
    requires k <= |xs|
  {
    xs[..k] + [x] + xs[k..]
  }

  lemma InsertedKeeps<T>(xs: seq<T>, k: nat, x: T)
    requires k <= |xs|
    ensures forall y | y in xs :: y in InsertAt(xs, k, x)
  {
    assert xs == xs[..k] + xs[k..];
  }

  lemma InsertAclKeepsAllow(m: PolicyModel, q: EvalQuery, k: nat, rule: AclRule)
    requires k <= |m.acls|
    ensures var m' := m.(acls := InsertAt(m.acls, k, rule));
            Answers(m', q) && Allowed(m, q) ==> Allowed(m', q)
  {
    var m' := m.(acls := InsertAt(m.acls, k, rule));
    SameGroupsRefer(m, m');
    InsertedKeeps(m.acls, k, rule);
    if Answers(m', q) { AllowGrows(m, m', q); }
  }

  lemma InsertGrantKeepsAllow(m: PolicyModel, q: EvalQuery, k: nat, grant: GrantEntry)
    requires k <= |m.grants|
    ensures var m' := m.(grants := InsertAt(m.grants, k, grant));
            Answers(m', q) && Allowed(m, q) ==> Allowed(m', q)
  {
    var m' := m.(grants := InsertAt(m.grants, k, grant));
    SameGroupsRefer(m, m');
    InsertedKeeps(m.grants, k, grant);
    if Answers(m', q) { AllowGrows(m, m', q); }
  }

  function AddMember(groups: seq<NamedList>, g: nat, k: nat, member: string): seq<NamedList>
    requires g < |groups| && k <= |groups[g].values|
  {
    groups[g := groups[g].(values := InsertAt(groups[g].values, k, member))]
  }

  lemma {:induction false} AddMemberFinds(groups: seq<NamedList>, g: nat, k: nat, member: string, name: string)
    requires g < |groups| && k <= |groups[g].values|
    ensures var was, now := FindGroup(groups, name), FindGroup(AddMember(groups, g, k, member), name);
            && was.Some? == now.Some?
            && (was.Some? ==> forall v | v in was.value.values :: v in now.value.values)
    decreases |groups|
  {
    InsertedKeeps(groups[g].values, k, member);
    if groups[0].name != name && g > 0 {
      AddMemberFinds(groups[1..], g - 1, k, member, name);
      assert AddMember(groups, g, k, member)[1..] == AddMember(groups[1..], g - 1, k, member);
    } else if groups[0].name != name {
      assert AddMember(groups, g, k, member)[1..] == groups[1..];
    }
  }

  lemma AddMemberKeepsAllow(m: PolicyModel, q: EvalQuery, g: nat, k: nat, member: string)
    requires g < |m.groups| && k <= |m.groups[g].values|
    ensures var m' := m.(groups := AddMember(m.groups, g, k, member));
            Answers(m', q) && Allowed(m, q) ==> Allowed(m', q)
  {
    var m' := m.(groups := AddMember(m.groups, g, k, member));
    forall t, u | u in Refers(m, t) ensures u in Refers(m', t) {
      SameHosts(m, m', t);
      AddMemberFinds(m.groups, g, k, member, t);
    }
    if Answers(m', q) { AllowGrows(m, m', q); }
  }

  /** The order of the rules within a section never changes the decision. */
  lemma OrderDoesNotDecide(m: PolicyModel, m': PolicyModel, q: EvalQuery)
    requires Answers(m, q) && Answers(m', q)
    requires m.hosts == m'.hosts && m.groups == m'.groups
    requires multiset(m.acls) == multiset(m'.acls) && multiset(m.grants) == multiset(m'.grants)
    ensures Allowed(m, q) == Allowed(m', q)
  {
    SameGroupsRefer(m, m');
    SameGroupsRefer(m', m);
    forall r ensures r in m.acls <==> r in m'.acls { assert r in multiset(m.acls) <==> r in multiset(m'.acls); }
    forall r ensures r in m.grants <==> r in m'.grants { assert r in multiset(m.grants) <==> r in multiset(m'.grants); }
    AllowGrows(m, m', q);
    AllowGrows(m', m, q);
  }
}
