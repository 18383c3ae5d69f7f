/** What a selector denotes, through groups and aliases. */
module Expansion {
  import opened Text
  import opened Tokens
  import opened Policy

  /** Wildcard flag, opaque keys, and IPv4 ranges in the order they were found. */
  datatype Denotation = Denotation(wildcard: bool, atoms: set<string>, nets: seq<Ipv4Range>)

  const NOTHING := Denotation(false, {}, [])

  function Atom(key: string): Denotation {
    Denotation(false, {key}, [])
  }

  function Merge(a: Denotation, b: Denotation): Denotation {
    Denotation(a.wildcard || b.wildcard, a.atoms + b.atoms, a.nets + b.nets)
  }

  /** Everything `a` denotes, `b` denotes as well. */
  predicate Within(a: Denotation, b: Denotation) {
    && (a.wildcard ==> b.wildcard)
    && a.atoms <= b.atoms
    && forall n | n in a.nets :: n in b.nets
  }

  // ------------------------------------------------------------------ one token

  function HostAliases(m: PolicyModel): set<string> {
    set h | h in m.hosts && h.name != "" :: h.name
  }

  function Kind(m: PolicyModel, token: string): TokenKind {
    ClassifyToken(token, HostAliases(m))
  }

  function FindGroup(groups: seq<NamedList>, name: string): Option<NamedList> {
    if groups == [] then None
    else if groups[0].name == name then Some(groups[0])
    else FindGroup(groups[1..], name)
  }

  function FindHost(hosts: seq<HostEntry>, name: string): Option<HostEntry> {
    if hosts == [] then None
    else if hosts[0].name == name then Some(hosts[0])
    else FindHost(hosts[1..], name)
  }

  /** The tokens a token refers to: the members of its group, the CIDR of its host alias. */
  function Refers(m: PolicyModel, token: string): seq<string> {
    if token == "" then []
    else match Kind(m, token)
      case Group =>
        var g := FindGroup(m.groups, token);
        if g.None? then [] else g.value.values
      case Host =>
        var next := AliasOf(m, token);
        if next.None? then [] else [next.value]
      case _ => []
  }

  /** The token a host alias stands for, when it stands for one. */
  function AliasOf(m: PolicyModel, token: string): Option<string> {
    if token == "" || Kind(m, token) != Host then None
    else
      var h := FindHost(m.hosts, token);
      if h.None? || h.value.cidr == "" then None else Some(h.value.cidr)
  }

  /** What a token contributes by itself, before any reference is followed. */
  function Direct(m: PolicyModel, token: string): Denotation {
    if token == "" then NOTHING
    else match Kind(m, token)
      case Wildcard => Denotation(true, {}, [])
      case Group => Atom(token)
      case Tag => Atom(token)
      case Host => NOTHING
      case Cidr =>
        var range := ParseIpv4Range(token);
        if range.Some? then Denotation(false, {}, [range.value]) else Atom("lit:" + token)
      case Autogroup => if token == "autogroup:internet" then Atom(token) else NOTHING
      case User => Atom("u:" + ToLower(token))
      case Literal => Atom("lit:" + token)
  }

  // ---------------------------------------------------------- host-alias chains

  /** Following aliases from `token` comes to an end within `k` steps. */
  predicate ChainEnds(m: PolicyModel, token: string, k: nat)
    decreases k
  {
    || AliasOf(m, token).None?
    || (k > 0 && ChainEnds(m, AliasOf(m, token).value, k - 1))
  }

  /** ... comes to an end at all: a chain without a cycle passes each alias at most once. */
  predicate Stops(m: PolicyModel, token: string) {
    ChainEnds(m, token, |m.hosts|)
  }

  /** No declared alias leads back to itself through aliases alone. */
  predicate AliasesEnd(m: PolicyModel) {
    forall h | h in m.hosts :: Stops(m, h.name)
  }

  lemma AliasIsDeclared(m: PolicyModel, token: string)
    requires AliasOf(m, token).Some?
    ensures exists h | h in m.hosts :: h.name == token
  {
    FoundHost(m.hosts, token);
  }

  lemma {:induction false} FoundHost(hosts: seq<HostEntry>, name: string)
    ensures FindHost(hosts, name).Some? ==>
              FindHost(hosts, name).value in hosts && FindHost(hosts, name).value.name == name
  {
    if hosts != [] { FoundHost(hosts[1..], name); }
  }

  lemma EveryChainEnds(m: PolicyModel, token: string)
    requires AliasesEnd(m)
    ensures Stops(m, token)
  {
    if AliasOf(m, token).Some? { AliasIsDeclared(m, token); }
  }

  function ChainLength(m: PolicyModel, token: string, k: nat): nat
    requires ChainEnds(m, token, k)
    decreases k
  {
    if AliasOf(m, token).None? then 0 else 1 + ChainLength(m, AliasOf(m, token).value, k - 1)
  }

  lemma {:induction false} ChainLengthStable(m: PolicyModel, token: string, k: nat, k': nat)
    requires ChainEnds(m, token, k) && ChainEnds(m, token, k')
    ensures ChainLength(m, token, k) == ChainLength(m, token, k') <= k
    decreases k
  {
    if AliasOf(m, token).Some? { ChainLengthStable(m, AliasOf(m, token).value, k - 1, k' - 1); }
  }

  lemma {:induction false} ChainEndsLater(m: PolicyModel, token: string, k: nat, k': nat)
    requires k <= k' && ChainEnds(m, token, k)
    ensures ChainEnds(m, token, k')
    decreases k
  {
    if AliasOf(m, token).Some? { ChainEndsLater(m, AliasOf(m, token).value, k - 1, k' - 1); }
  }

  /** How many aliases are followed from `token` before something else is reached. */
  function Rank(m: PolicyModel, token: string): nat
    requires Stops(m, token)
  {
    ChainLength(m, token, |m.hosts|)
  }

  lemma RankDrops(m: PolicyModel, token: string)
    requires Stops(m, token) && AliasOf(m, token).Some?
    ensures Stops(m, AliasOf(m, token).value)
    ensures Rank(m, AliasOf(m, token).value) < Rank(m, token)
  {
    var next := AliasOf(m, token).value;
    ChainEndsLater(m, next, |m.hosts| - 1, |m.hosts|);
    ChainLengthStable(m, next, |m.hosts|, |m.hosts| - 1);
  }

  // ------------------------------------------------------------- what is reachable

  /** The references the search follows from a token: none from a group already seen. */
  function Follows(m: PolicyModel, token: string, seen: set<string>): seq<string> {
    if Kind(m, token) == Group && token in seen then [] else Refers(m, token)
  }

  /** A path of references from `a` to `b` that leaves no group already seen. */
  ghost predicate IsPath(m: PolicyModel, a: string, b: string, path: seq<string>, seen: set<string>) {
    && |path| > 0 && path[0] == a && path[|path| - 1] == b
    && forall i | 0 <= i < |path| - 1 :: path[i + 1] in Follows(m, path[i], seen)
  }

  ghost predicate ReachesPast(m: PolicyModel, a: string, b: string, seen: set<string>) {
    exists path :: IsPath(m, a, b, path, seen)
  }

  ghost predicate Reaches(m: PolicyModel, a: string, b: string) {
    ReachesPast(m, a, b, {})
  }

  lemma ReachesSelf(m: PolicyModel, a: string, seen: set<string>)
    ensures ReachesPast(m, a, a, seen)
  {
    assert IsPath(m, a, a, [a], seen);
  }

  lemma ReachesStep(m: PolicyModel, a: string, b: string, c: string, seen: set<string>)
    requires b in Follows(m, a, seen) && ReachesPast(m, b, c, seen)
    ensures ReachesPast(m, a, c, seen)
  {
    var path :| IsPath(m, b, c, path, seen);
    assert IsPath(m, a, c, [a] + path, seen);
  }

  lemma ReachesFewer(m: PolicyModel, a: string, b: string, seen: set<string>, seen': set<string>)
    requires seen <= seen' && ReachesPast(m, a, b, seen')
    ensures ReachesPast(m, a, b, seen)
  {
    var path :| IsPath(m, a, b, path, seen');
    assert IsPath(m, a, b, path, seen);
  }

  /** Every alias chain that the search comes to from the token, past the groups seen, has an end. */
  ghost predicate EndsPast(m: PolicyModel, token: string, seen: set<string>) {
    Stops(m, token) && forall t | ReachesPast(m, token, t, seen) :: Stops(m, t)
  }

  ghost predicate Ends(m: PolicyModel, token: string) {
    EndsPast(m, token, {})
  }

  lemma EndsBelow(m: PolicyModel, token: string, seen: set<string>)
    requires EndsPast(m, token, seen)
    ensures forall t, seen' | t in Follows(m, token, seen) && seen <= seen' :: EndsPast(m, t, seen')
  {
    forall t, seen' | t in Follows(m, token, seen) && seen <= seen' ensures EndsPast(m, t, seen') {
      ReachesSelf(m, t, seen);
      ReachesStep(m, token, t, t, seen);
      forall u | ReachesPast(m, t, u, seen') ensures Stops(m, u) {
        ReachesFewer(m, t, u, seen, seen');
        ReachesStep(m, token, t, u, seen);
      }
    }
  }

  lemma EndsLater(m: PolicyModel, token: string, seen: set<string>, seen': set<string>)
    requires seen <= seen' && EndsPast(m, token, seen)
    ensures EndsPast(m, token, seen')
  {
    forall t | ReachesPast(m, token, t, seen') ensures Stops(m, t) { ReachesFewer(m, token, t, seen, seen'); }
  }

  lemma AllEndLater(m: PolicyModel, tokens: seq<string>, seen: set<string>, seen': set<string>)
    requires seen <= seen' && forall t | t in tokens :: EndsPast(m, t, seen)
    ensures forall t | t in tokens :: EndsPast(m, t, seen')
  {
    forall t | t in tokens ensures EndsPast(m, t, seen') { EndsLater(m, t, seen, seen'); }
  }

  // ------------------------------------------------- the search, as a function

  function GroupNames(m: PolicyModel): set<string> {
    set g | g in m.groups :: g.name
  }

  /**
   * The search from one token with the groups in `seen` already visited: what it
   * denotes, and the groups visited afterwards.
   */
  function Expand(m: PolicyModel, token: string, seen: set<string>): (r: (Denotation, set<string>))
    requires EndsPast(m, token, seen)
    ensures seen <= r.1
    decreases |GroupNames(m) - seen|, 0, Rank(m, token)
  {
    if token == "" then (NOTHING, seen)
    else match Kind(m, token)
      case Group =>
        if token in seen then (Atom(token), seen)
        else
          var g := FindGroup(m.groups, token);
          if g.None? then (Atom(token), seen + {token})
          else
            EndsBelow(m, token, seen);
            FoundGroup(m.groups, token);
            VisitShrinks(GroupNames(m), seen, token);
            var members := ExpandAll(m, g.value.values, seen + {token});
            (Merge(Atom(token), members.0), members.1)
      case Host =>
        var next := AliasOf(m, token);
        if next.None? then (NOTHING, seen)
        else EndsBelow(m, token, seen); RankDrops(m, token); Expand(m, next.value, seen)
      case _ => (Direct(m, token), seen)
  }

  /** The search from each token in turn, sharing one set of visited groups. */
  function ExpandAll(m: PolicyModel, tokens: seq<string>, seen: set<string>): (r: (Denotation, set<string>))
    requires forall t | t in tokens :: EndsPast(m, t, seen)
    ensures seen <= r.1
    decreases |GroupNames(m) - seen|, 1, |tokens|
  {
    if tokens == [] then (NOTHING, seen)
    else
      var first := Expand(m, tokens[0], seen);
      VisitedGrows(GroupNames(m), seen, first.1);
      AllEndLater(m, tokens[1..], seen, first.1);
      var rest := ExpandAll(m, tokens[1..], first.1);
      (Merge(first.0, rest.0), rest.1)
  }

  lemma {:induction false} FoundGroup(groups: seq<NamedList>, name: string)
    ensures FindGroup(groups, name).Some? ==>
              FindGroup(groups, name).value in groups && FindGroup(groups, name).value.name == name
  {
    if groups != [] { FoundGroup(groups[1..], name); }
  }

  lemma VisitedGrows(names: set<string>, seen: set<string>, seen': set<string>)
    requires seen <= seen'
    ensures |names - seen'| <= |names - seen|
  {
    assert names - seen == (names - seen') + (names * seen' - seen);
  }

  lemma VisitShrinks(names: set<string>, seen: set<string>, name: string)
    requires name in names && name !in seen
    ensures |names - (seen + {name})| < |names - seen|
  {
    assert names - seen == (names - (seen + {name})) + {name};
  }

  // ------------------------------------------------------- the closure theorem

  /** Some token reachable from `root` contributes the wildcard, the atom, the range. */
  ghost predicate ReachesWildcard(m: PolicyModel, root: string) {
    exists t :: Reaches(m, root, t) && Direct(m, t).wildcard
  }

  ghost predicate ReachesAtom(m: PolicyModel, root: string, atom: string) {
    exists t :: Reaches(m, root, t) && atom in Direct(m, t).atoms
  }

  ghost predicate ReachesNet(m: PolicyModel, root: string, net: Ipv4Range) {
    exists t :: Reaches(m, root, t) && net in Direct(m, t).nets
  }

  /** Everything in `d` is contributed by a token reachable from `root`. */
  ghost predicate Justified(m: PolicyModel, root: string, d: Denotation) {
    && (d.wildcard ==> ReachesWildcard(m, root))
    && (forall a | a in d.atoms :: ReachesAtom(m, root, a))
    && (forall n | n in d.nets :: ReachesNet(m, root, n))
  }

  lemma JustifiedByReference(m: PolicyModel, a: string, b: string, d: Denotation)
    requires b in Refers(m, a) && Justified(m, b, d)
    ensures Justified(m, a, d)
  {
    forall t | Reaches(m, b, t) ensures Reaches(m, a, t) { ReachesStep(m, a, b, t, {}); }
  }

  /**
   * `token` is accounted for by `out` once the groups in `seen` are looked after: its own
   * contribution is there, a group is among `seen`, and an alias leads to a token that
   * is accounted for.
   */
  ghost predicate Accounted(m: PolicyModel, token: string, out: Denotation, seen: set<string>)
    requires Stops(m, token)
    decreases Rank(m, token)
  {
    && Within(Direct(m, token), out)
    && (token != "" && Kind(m, token) == Group ==> token in seen)
    && (AliasOf(m, token).Some? ==>
          (RankDrops(m, token); Accounted(m, AliasOf(m, token).value, out, seen)))
  }

  lemma {:induction false} AccountedGrows(m: PolicyModel, token: string, out: Denotation, seen: set<string>,
                                          out': Denotation, seen': set<string>)
    requires Stops(m, token) && Accounted(m, token, out, seen)
    requires Within(out, out') && seen <= seen'
    ensures Accounted(m, token, out', seen')
    decreases Rank(m, token)
  {
    if AliasOf(m, token).Some? {
      RankDrops(m, token);
      AccountedGrows(m, AliasOf(m, token).value, out, seen, out', seen');
    }
  }

  /** Every reference of the groups newly visited is accounted for. */
  ghost predicate Explored(m: PolicyModel, out: Denotation, before: set<string>, after: set<string>) {
    forall g, t | g in after - before && t in Refers(m, g) :: Stops(m, t) && Accounted(m, t, out, after)
  }

  lemma {:induction false} ExploredGrows(m: PolicyModel, out: Denotation, before: set<string>, after: set<string>,
                      out': Denotation, after': set<string>)
    requires Explored(m, out, before, after)
    requires Within(out, out') && after <= after'
    ensures forall g, t | g in after - before && t in Refers(m, g) :: Stops(m, t) && Accounted(m, t, out', after')
  {
    forall g, t | g in after - before && t in Refers(m, g)
      ensures Stops(m, t) && Accounted(m, t, out', after')
    {
      AccountedGrows(m, t, out, after, out', after');
    }
  }

  /** What a call returns accounts for every path from its token that leaves no group seen before. */
  lemma {:induction false} PathAccounted(m: PolicyModel, a: string, b: string, path: seq<string>,
                                         out: Denotation, before: set<string>, after: set<string>)
    requires IsPath(m, a, b, path, before)
    requires Stops(m, a) && Accounted(m, a, out, after) && Explored(m, out, before, after)
    ensures Stops(m, b) && Within(Direct(m, b), out)
    decreases |path|
  {
    if |path| > 1 {
      var next := path[1];
      assert next in Follows(m, path[0], before);
      if AliasOf(m, a).Some? { RankDrops(m, a); } else { assert a in after - before; }
      assert Stops(m, next) && Accounted(m, next, out, after);
      assert IsPath(m, next, b, path[1..], before);
      PathAccounted(m, next, b, path[1..], out, before, after);
    }
  }

  // ------------------------------------------------------- the search on a stack

  /**
   * The same search on a stack of `depth` frames; None when they run out. It needs no
   * assumption on the aliases, so it also says what happens when their chains are cyclic.
   */
  function ExpandOnStack(m: PolicyModel, token: string, seen: set<string>, depth: nat)
    : (r: Option<(Denotation, set<string>)>)
    ensures r.Some? ==> seen <= r.value.1
    decreases depth, 0
  {
    if depth == 0 then None
    else if token == "" then Some((NOTHING, seen))
    else match Kind(m, token)
      case Group =>
        if token in seen then Some((Atom(token), seen))
        else
          var g := FindGroup(m.groups, token);
          if g.None? then Some((Atom(token), seen + {token}))
          else
            var members := ExpandAllOnStack(m, g.value.values, seen + {token}, depth - 1);
            if members.None? then None
            else Some((Merge(Atom(token), members.value.0), members.value.1))
      case Host =>
        var next := AliasOf(m, token);
        if next.None? then Some((NOTHING, seen)) else ExpandOnStack(m, next.value, seen, depth - 1)
      case _ => Some((Direct(m, token), seen))
  }

  function ExpandAllOnStack(m: PolicyModel, tokens: seq<string>, seen: set<string>, depth: nat)
    : (r: Option<(Denotation, set<string>)>)
    ensures r.Some? ==> seen <= r.value.1
    decreases depth, 1, |tokens|
  {
    if tokens == [] then Some((NOTHING, seen))
    else
      var first := ExpandOnStack(m, tokens[0], seen, depth);
      if first.None? then None
      else
        var rest := ExpandAllOnStack(m, tokens[1..], first.value.1, depth);
        if rest.None? then None
        else Some((Merge(first.value.0, rest.value.0), rest.value.1))
  }

  lemma {:induction false} DeeperStack(m: PolicyModel, token: string, seen: set<string>, d: nat, d': nat)
    requires d <= d' && ExpandOnStack(m, token, seen, d).Some?
    ensures ExpandOnStack(m, token, seen, d') == ExpandOnStack(m, token, seen, d)
    decreases d, 0
  {
    if token != "" && Kind(m, token) == Group && token !in seen {
      var g := FindGroup(m.groups, token);
      if g.Some? { DeeperStackAll(m, g.value.values, seen + {token}, d - 1, d' - 1); }
    } else if AliasOf(m, token).Some? {
      DeeperStack(m, AliasOf(m, token).value, seen, d - 1, d' - 1);
    }
  }

  lemma {:induction false} DeeperStackAll(m: PolicyModel, tokens: seq<string>, seen: set<string>, d: nat, d': nat)
    requires d <= d' && ExpandAllOnStack(m, tokens, seen, d).Some?
    ensures ExpandAllOnStack(m, tokens, seen, d') == ExpandAllOnStack(m, tokens, seen, d)
    decreases d, 1, |tokens|
  {
    if tokens != [] {
      DeeperStack(m, tokens[0], seen, d, d');
      DeeperStackAll(m, tokens[1..], ExpandOnStack(m, tokens[0], seen, d).value.1, d, d');
    }
  }

  /** Some stack is deep enough, and then the search returns what `Expand` says. */
  lemma {:induction false} SearchFinishes(m: PolicyModel, token: string, seen: set<string>) returns (depth: nat)
    requires EndsPast(m, token, seen)
    ensures ExpandOnStack(m, token, seen, depth) == Some(Expand(m, token, seen))
    decreases |GroupNames(m) - seen|, 0, Rank(m, token)
  {
    depth := 1;
    EndsBelow(m, token, seen);
    if token != "" && Kind(m, token) == Group && token !in seen {
      var g := FindGroup(m.groups, token);
      if g.Some? {
        FoundGroup(m.groups, token);
        VisitShrinks(GroupNames(m), seen, token);
        depth := SearchAllFinishes(m, g.value.values, seen + {token});
        depth := depth + 1;
      }
    } else if AliasOf(m, token).Some? {
      RankDrops(m, token);
      depth := SearchFinishes(m, AliasOf(m, token).value, seen);
      depth := depth + 1;
    }
  }

  lemma {:induction false} SearchAllFinishes(m: PolicyModel, tokens: seq<string>, seen: set<string>)
    returns (depth: nat)
    requires forall t | t in tokens :: EndsPast(m, t, seen)
    ensures ExpandAllOnStack(m, tokens, seen, depth) == Some(ExpandAll(m, tokens, seen))
    decreases |GroupNames(m) - seen|, 1, |tokens|
  {
    depth := 0;
    if tokens != [] {
      var first := Expand(m, tokens[0], seen);
      VisitedGrows(GroupNames(m), seen, first.1);
      AllEndLater(m, tokens[1..], seen, first.1);
      var d1 := SearchFinishes(m, tokens[0], seen);
      var d2 := SearchAllFinishes(m, tokens[1..], first.1);
      depth := if d1 <= d2 then d2 else d1;
      DeeperStack(m, tokens[0], seen, d1, depth);
      DeeperStackAll(m, tokens[1..], first.1, d2, depth);
    }
  }

  lemma {:induction false} FinishedChainEnds(m: PolicyModel, token: string, seen: set<string>, depth: nat)
    requires ExpandOnStack(m, token, seen, depth).Some?
    ensures ChainEnds(m, token, depth)
    decreases depth
  {
    if AliasOf(m, token).Some? {
      FinishedChainEnds(m, AliasOf(m, token).value, seen, depth - 1);
    }
  }

  lemma {:induction false} ChainEndsAtLength(m: PolicyModel, token: string, k: nat)
    requires ChainEnds(m, token, k)
    ensures ChainEnds(m, token, ChainLength(m, token, k))
    decreases k
  {
    if AliasOf(m, token).Some? { ChainEndsAtLength(m, AliasOf(m, token).value, k - 1); }
  }

  /** A chain that ends passes each alias once, so it is no longer than the aliases are many. */
  lemma {:induction false} ChainFits(m: PolicyModel, token: string, k: nat, names: set<string>)
    requires ChainEnds(m, token, k)
    requires forall t | AliasOf(m, t).Some? && ChainEnds(m, t, k)
                        && ChainLength(m, t, k) <= ChainLength(m, token, k) :: t in names
    ensures ChainLength(m, token, k) <= |names|
    decreases ChainLength(m, token, k)
  {
    if AliasOf(m, token).Some? {
      var next := AliasOf(m, token).value;
      ChainEndsLater(m, next, k - 1, k);
      ChainLengthStable(m, next, k - 1, k);
      ChainFits(m, next, k, names - {token});
    }
  }

  lemma {:induction false} NamesAreFew(hosts: seq<HostEntry>)
    ensures |set h | h in hosts && h.name != "" :: h.name| <= |hosts|
  {
    if hosts != [] {
      NamesAreFew(hosts[1..]);
      var rest := set h | h in hosts[1..] && h.name != "" :: h.name;
      assert (set h | h in hosts && h.name != "" :: h.name) <= rest + {hosts[0].name};
      SubsetIsSmaller(set h | h in hosts && h.name != "" :: h.name, rest + {hosts[0].name});
    }
  }

  lemma SubsetIsSmaller(a: set<string>, b: set<string>)
    requires a <= b
    ensures |a| <= |b|
  {
    assert b == a + (b - a);
  }

  lemma {:induction false} EndingChainIsShort(m: PolicyModel, token: string, k: nat)
    requires ChainEnds(m, token, k)
    ensures Stops(m, token)
  {
    ChainFits(m, token, k, HostAliases(m));
    NamesAreFew(m.hosts);
    ChainEndsAtLength(m, token, k);
    ChainEndsLater(m, token, ChainLength(m, token, k), |m.hosts|);
  }

  // ------------------------------------------------------- what a search delivers

  /**
   * What a call that returns does deliver, nested or not. It may leave out the members of
   * groups already seen, but its own token and everything referred to by the groups it
   * newly visited are accounted for.
   */
  lemma {:induction false} StackExplores(m: PolicyModel, token: string, seen: set<string>, depth: nat)
    requires ExpandOnStack(m, token, seen, depth).Some?
    ensures var r := ExpandOnStack(m, token, seen, depth).value;
            Stops(m, token) && Accounted(m, token, r.0, r.1) && Explored(m, r.0, seen, r.1)
    decreases depth, 0
  {
    var r := ExpandOnStack(m, token, seen, depth).value;
    FinishedChainEnds(m, token, seen, depth);
    EndingChainIsShort(m, token, depth);
    if token != "" && Kind(m, token) == Group && token !in seen {
      var g := FindGroup(m.groups, token);
      if g.Some? {
        StackAllExplores(m, g.value.values, seen + {token}, depth - 1);
        var members := ExpandAllOnStack(m, g.value.values, seen + {token}, depth - 1).value;
        ExploredGrows(m, members.0, seen + {token}, members.1, r.0, r.1);
        forall t | t in g.value.values ensures Stops(m, t) && Accounted(m, t, r.0, r.1) {
          AccountedGrows(m, t, members.0, members.1, r.0, r.1);
        }
      }
    } else if AliasOf(m, token).Some? {
      StackExplores(m, AliasOf(m, token).value, seen, depth - 1);
    }
  }

  lemma {:induction false} StackAllExplores(m: PolicyModel, tokens: seq<string>, seen: set<string>, depth: nat)
    requires ExpandAllOnStack(m, tokens, seen, depth).Some?
    ensures var r := ExpandAllOnStack(m, tokens, seen, depth).value;
            && (forall t | t in tokens :: Stops(m, t) && Accounted(m, t, r.0, r.1))
            && Explored(m, r.0, seen, r.1)
    decreases depth, 1, |tokens|
  {
    if tokens != [] {
      var r := ExpandAllOnStack(m, tokens, seen, depth).value;
      var first := ExpandOnStack(m, tokens[0], seen, depth).value;
      var rest := ExpandAllOnStack(m, tokens[1..], first.1, depth).value;
      StackExplores(m, tokens[0], seen, depth);
      StackAllExplores(m, tokens[1..], first.1, depth);
      AccountedGrows(m, tokens[0], first.0, first.1, r.0, r.1);
      ExploredGrows(m, first.0, seen, first.1, r.0, r.1);
      ExploredGrows(m, rest.0, first.1, rest.1, r.0, r.1);
      forall t | t in tokens[1..] ensures Stops(m, t) && Accounted(m, t, r.0, r.1) {
        AccountedGrows(m, t, rest.0, rest.1, r.0, r.1);
      }
    }
  }

  /** Soundness: a call that returns, nested or not, adds nothing that is not reachable. */
  lemma {:induction false} StackJustified(m: PolicyModel, token: string, seen: set<string>, depth: nat)
    requires ExpandOnStack(m, token, seen, depth).Some?
    ensures Justified(m, token, ExpandOnStack(m, token, seen, depth).value.0)
    decreases depth, 0
  {
    ReachesSelf(m, token, {});
    assert Reaches(m, token, token);
    if token != "" && Kind(m, token) == Group && token !in seen {
      var g := FindGroup(m.groups, token);
      if g.Some? { StackAllJustified(m, token, g.value.values, seen + {token}, depth - 1); }
    } else if AliasOf(m, token).Some? {
      var next := AliasOf(m, token).value;
      StackJustified(m, next, seen, depth - 1);
      JustifiedByReference(m, token, next, ExpandOnStack(m, next, seen, depth - 1).value.0);
    }
  }

  lemma {:induction false} StackAllJustified(m: PolicyModel, from: string, tokens: seq<string>, seen: set<string>,
                                             depth: nat)
    requires ExpandAllOnStack(m, tokens, seen, depth).Some? && forall t | t in tokens :: t in Refers(m, from)
    ensures Justified(m, from, ExpandAllOnStack(m, tokens, seen, depth).value.0)
    decreases depth, 1, |tokens|
  {
    if tokens != [] {
      var first := ExpandOnStack(m, tokens[0], seen, depth).value;
      StackJustified(m, tokens[0], seen, depth);
      JustifiedByReference(m, from, tokens[0], first.0);
      StackAllJustified(m, from, tokens[1..], first.1, depth);
    }
  }

  /** What a selector denotes: the search from it with no group visited. */
  function Denotes(m: PolicyModel, token: string): Denotation
    requires Ends(m, token)
  {
    Expand(m, token, {}).0
  }

  /**
   * The closure theorem: a search from the root returns exactly what the tokens
   * reachable over group members and host aliases contribute, cyclic groups included.
   */
  lemma DenotesClosure(m: PolicyModel, root: string)
    requires Ends(m, root)
    ensures Denotes(m, root).wildcard <==> ReachesWildcard(m, root)
    ensures forall a :: a in Denotes(m, root).atoms <==> ReachesAtom(m, root, a)
    ensures forall n :: n in Denotes(m, root).nets <==> ReachesNet(m, root, n)
  {
    var r := Expand(m, root, {});
    var depth := SearchFinishes(m, root, {});
    StackJustified(m, root, {}, depth);
    StackExplores(m, root, {}, depth);
    forall t | Reaches(m, root, t) ensures Within(Direct(m, t), r.0) {
      var path :| IsPath(m, root, t, path, {});
      PathAccounted(m, root, t, path, r.0, {}, r.1);
    }
  }

  // ------------------------------------------------------------------ termination

  ghost predicate Finishes(m: PolicyModel, token: string, seen: set<string>) {
    exists depth :: ExpandOnStack(m, token, seen, depth).Some?
  }

  /**
   * When a search terminates: on a deep enough stack, exactly when no alias chain that it
   * comes to is cyclic. Groups may be as cyclic as they like.
   */
  lemma FinishesExactly(m: PolicyModel, token: string, seen: set<string>)
    ensures Finishes(m, token, seen) <==> EndsPast(m, token, seen)
  {
    if EndsPast(m, token, seen) {
      var depth := SearchFinishes(m, token, seen);
    }
    if Finishes(m, token, seen) {
      var depth :| ExpandOnStack(m, token, seen, depth).Some?;
      var r := ExpandOnStack(m, token, seen, depth).value;
      StackExplores(m, token, seen, depth);
      forall t | ReachesPast(m, token, t, seen) ensures Stops(m, t) {
        var path :| IsPath(m, token, t, path, seen);
        PathAccounted(m, token, t, path, r.0, seen, r.1);
      }
    }
  }

  /** So every search terminates exactly when no chain of host aliases is cyclic. */
  lemma SearchTerminates(m: PolicyModel)
    ensures AliasesEnd(m) <==> forall token :: Finishes(m, token, {})
  {
    if AliasesEnd(m) {
      forall token ensures Finishes(m, token, {}) {
        forall t ensures Stops(m, t) { EveryChainEnds(m, t); }
        FinishesExactly(m, token, {});
      }
    }
    if forall token :: Finishes(m, token, {}) {
      forall h | h in m.hosts ensures Stops(m, h.name) {
        FinishesExactly(m, h.name, {});
      }
    }
  }
}
