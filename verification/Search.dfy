/** The search as the evaluator runs it: expansions filled in place, one shared visited set. */
module Search {
  import opened Text
  import opened Tokens
  import opened Policy
  import opened Expansion

  /** The expanded meaning of a selector, under construction. */
  class Expanded {
    var wildcard: bool
    var atoms: set<string>
    var nets: seq<Ipv4Range>

    function Value(): Denotation
      reads this
    {
      Denotation(wildcard, atoms, nets)
    }

    constructor ()
      ensures Value() == NOTHING
    {
      wildcard, atoms, nets := false, {}, [];
    }

    method Absorb(from: Expanded)
      requires from != this
      modifies this
      ensures Value() == Merge(old(Value()), from.Value())
    {
      if from.wildcard { wildcard := true; }
      var left := from.atoms;
      while left != {}
        invariant left <= from.atoms
        invariant atoms == old(atoms) + (from.atoms - left)
        invariant wildcard == (old(wildcard) || from.wildcard) && nets == old(nets)
        decreases left
      {
        var a :| a in left;
        atoms := atoms + {a};
        left := left - {a};
      }
      for i := 0 to |from.nets|
        invariant nets == old(nets) + from.nets[..i]
        invariant wildcard == (old(wildcard) || from.wildcard) && atoms == old(atoms) + from.atoms
      {
        nets := nets + [from.nets[i]];
      }
      assert from.nets[..|from.nets|] == from.nets;
    }
  }

  /** The groups one search has entered. */
  class Visited {
    var groups: set<string>

    constructor ()
      ensures groups == {}
    {
      groups := {};
    }
  }

  method ExpandToken(m: PolicyModel, token: string, seen: Visited) returns (out: Expanded)
    requires EndsPast(m, token, seen.groups)
    modifies seen
    ensures fresh(out)
    ensures out.Value() == Expand(m, token, old(seen.groups)).0
    ensures seen.groups == Expand(m, token, old(seen.groups)).1
    decreases |GroupNames(m) - seen.groups|, 0, Rank(m, token)
  {
    out := new Expanded();
    EndsBelow(m, token, seen.groups);
    if token == "" { return; }
    var kind := ClassifyToken(token, HostAliases(m));
    if kind == Group {
      out.atoms := {token};
      if token in seen.groups { return; }
      seen.groups := seen.groups + {token};
      var group := FindGroup(m.groups, token);
      if group.Some? {
        FoundGroup(m.groups, token);
        VisitShrinks(GroupNames(m), old(seen.groups), token);
        ExpandMembers(m, group.value.values, seen, out);
      }
    } else if kind == Host {
      var host := FindHost(m.hosts, token);
      if host.Some? && host.value.cidr != "" {
        RankDrops(m, token);
        var inner := ExpandToken(m, host.value.cidr, seen);
        out.Absorb(inner);
        NothingMerges(inner.Value());
      }
    } else {
      ExpandLeaf(m, token, out);
    }
  }

  /** The kinds that refer to nothing else. */
  method ExpandLeaf(m: PolicyModel, token: string, out: Expanded)
    requires token != "" && Kind(m, token) != Group && Kind(m, token) != Host
    requires out.Value() == NOTHING
    modifies out
    ensures out.Value() == Direct(m, token)
  {
    var kind := ClassifyToken(token, HostAliases(m));
    if kind == Wildcard {
      out.wildcard := true;
    } else if kind == Tag {
      out.atoms := out.atoms + {token};
    } else if kind == Cidr {
      var range := ParseIpv4Range(token);
      if range.Some? {
        out.nets := out.nets + [range.value];
      } else {
        out.atoms := out.atoms + {"lit:" + token};
      }
    } else if kind == Autogroup {
      if token == "autogroup:internet" { out.atoms := out.atoms + {token}; }
    } else if kind == User {
      out.atoms := out.atoms + {"u:" + ToLower(token)};
    } else {
      out.atoms := out.atoms + {"lit:" + token};
    }
  }

  /** The loop over the members of a group: each is searched and merged into `out`. */
  method ExpandMembers(m: PolicyModel, members: seq<string>, seen: Visited, out: Expanded)
    requires forall t | t in members :: EndsPast(m, t, seen.groups)
    modifies seen, out
    ensures out.Value() == Merge(old(out.Value()), ExpandAll(m, members, old(seen.groups)).0)
    ensures seen.groups == ExpandAll(m, members, old(seen.groups)).1
    decreases |GroupNames(m) - seen.groups|, 1
  {
    ghost var all := ExpandAll(m, members, seen.groups);
    assert members[0..] == members;
    for k := 0 to |members|
      invariant old(seen.groups) <= seen.groups
      invariant forall t | t in members :: EndsPast(m, t, seen.groups)
      invariant all.1 == ExpandAll(m, members[k..], seen.groups).1
      invariant Merge(old(out.Value()), all.0) == Merge(out.Value(), ExpandAll(m, members[k..], seen.groups).0)
    {
      VisitedGrows(GroupNames(m), old(seen.groups), seen.groups);
      ghost var before := out.Value();
      ghost var first := Expand(m, members[k], seen.groups);
      AllEndLater(m, members, seen.groups, first.1);
      ghost var rest := ExpandAll(m, members[k + 1..], first.1);
      assert members[k..][1..] == members[k + 1..];
      var inner := ExpandToken(m, members[k], seen);
      out.Absorb(inner);
      MergeAssociates(before, first.0, rest.0);
    }
    MergeNothing(out.Value());
  }

  lemma MergeNothing(a: Denotation)
    ensures Merge(a, NOTHING) == a
  {
  }

  lemma NothingMerges(a: Denotation)
    ensures Merge(NOTHING, a) == a
  {
  }

  lemma MergeAssociates(a: Denotation, b: Denotation, c: Denotation)
    ensures Merge(a, Merge(b, c)) == Merge(Merge(a, b), c)
  {
  }

  /** The denotations share the wildcard, an atom, or an address. */
  predicate Covers(query: Denotation, entry: Denotation) {
    || query.wildcard
    || entry.wildcard
    || (exists a | a in query.atoms :: a in entry.atoms)
    || (exists q, e | q in query.nets && e in entry.nets :: RangesOverlap(q, e))
  }

  method CoversEntry(query: Expanded, entry: Expanded) returns (ok: bool)
    ensures ok <==> Covers(query.Value(), entry.Value())
  {
    if query.wildcard || entry.wildcard { return true; }
    var left := query.atoms;
    while left != {}
      invariant left <= query.atoms
      invariant forall a | a in query.atoms - left :: a !in entry.atoms
      decreases left
    {
      var a :| a in left;
      if a in entry.atoms { return true; }
      left := left - {a};
    }
    ok := AnyOverlap(query.nets, entry.nets);
  }

  method AnyOverlap(queryNets: seq<Ipv4Range>, entryNets: seq<Ipv4Range>) returns (ok: bool)
    ensures ok <==> exists q, e | q in queryNets && e in entryNets :: RangesOverlap(q, e)
  {
    for i := 0 to |queryNets|
      invariant forall q, e | q in queryNets[..i] && e in entryNets :: !RangesOverlap(q, e)
    {
      var hit := OverlapsAny(queryNets[i], entryNets);
      if hit { return true; }
    }
    return false;
  }

  method OverlapsAny(n: Ipv4Range, entryNets: seq<Ipv4Range>) returns (ok: bool)
    ensures ok <==> exists e | e in entryNets :: RangesOverlap(n, e)
  {
    for j := 0 to |entryNets|
      invariant forall k | 0 <= k < j :: !RangesOverlap(n, entryNets[k])
    {
      if RangesOverlap(n, entryNets[j]) { return true; }
    }
    return false;
  }
}
