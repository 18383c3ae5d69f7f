/** A printed tree, stripped and read again: what becomes of each member and of each item, and when nothing does. */
module Rereading {
  import opened Text
  import opened Json
  import opened Hujson
  import opened Printing

  /** What `JSON.parse` makes of a tree as spelled: a repeated name keeps its first place and its last value. */
  function Collapse(v: Value): Value
    decreases v, 0
  {
    match v
    case Arr(items) => Arr(CollapseItems(items))
    case Obj(ms) => Obj(CollapseMembers(ms))
    case _ => v
  }

  function CollapseItems(items: seq<Value>): (r: seq<Value>)
    ensures |r| == |items|
    decreases items, 1
  {
    if items == [] then [] else [Collapse(items[0])] + CollapseItems(items[1..])
  }

  function CollapseMembers(ms: Members): Members
    decreases ms, 1
  {
    if ms == [] then []
    else Put(CollapseMembers(ms[..|ms| - 1]), ms[|ms| - 1].0, CollapseMember(ms[|ms| - 1]))
  }

  function CollapseMember(m: (string, Value)): Value
    decreases m, 1
  {
    Collapse(m.1)
  }

  /** No object in the tree repeats a name: every value JavaScript holds is such a tree. */
  predicate Proper(v: Value)
    decreases v, 0
  {
    match v
    case Arr(items) => ProperItems(items)
    case Obj(ms) => DistinctKeys(ms) && ProperMembers(ms)
    case _ => true
  }

  predicate ProperItems(items: seq<Value>)
    decreases items, 1
  {
    items == [] || (Proper(items[0]) && ProperItems(items[1..]))
  }

  predicate ProperMembers(ms: Members)
    decreases ms, 1
  {
    ms == [] || (ProperMember(ms[0]) && ProperMembers(ms[1..]))
  }

  predicate ProperMember(m: (string, Value))
    decreases m, 1
  {
    Proper(m.1)
  }

  predicate ProperObject(ms: Members) {
    DistinctKeys(ms) && ProperMembers(ms)
  }

  lemma {:induction false} ProperItemsAll(items: seq<Value>)
    ensures ProperItems(items) <==> forall x | x in items :: Proper(x)
  {
    if items != [] {
      ProperItemsAll(items[1..]);
      assert items[0] in items && items == [items[0]] + items[1..];
    }
  }

  lemma {:induction false} ProperMembersAll(ms: Members)
    ensures ProperMembers(ms) <==> forall m | m in ms :: Proper(m.1)
  {
    if ms != [] {
      ProperMembersAll(ms[1..]);
      assert ms[0] in ms && ms == [ms[0]] + ms[1..];
    }
  }

  // ----------------------------------------------------------------- reading properly

  /** A tree that repeats no name is read as it stands. */
  lemma {:induction false} CollapseProper(v: Value)
    requires Proper(v)
    ensures Collapse(v) == v
    decreases v, 0
  {
    match v {
      case Arr(items) => CollapseProperItems(items);
      case Obj(ms) =>
        ProperMembersAll(ms);
        CollapseProperMembers(ms);
      case _ =>
    }
  }

  lemma {:induction false} CollapseProperItems(items: seq<Value>)
    requires ProperItems(items)
    ensures CollapseItems(items) == items
    decreases items, 1
  {
    if items != [] {
      CollapseProper(items[0]);
      CollapseProperItems(items[1..]);
    }
  }

  lemma {:induction false} CollapseProperMembers(ms: Members)
    requires DistinctKeys(ms) && forall m | m in ms :: Proper(m.1)
    ensures CollapseMembers(ms) == ms
    decreases ms, 1
  {
    if ms != [] {
      var before, last := ms[..|ms| - 1], ms[|ms| - 1];
      assert ms == before + [last] && last in ms;
      CollapseProperMembers(before);
      CollapseProperMember(last);
      PutNew(before, last.0, last.1);
    }
  }

  lemma {:induction false} CollapseProperMember(m: (string, Value))
    requires Proper(m.1)
    ensures CollapseMember(m) == m.1
    decreases m, 1
  {
    CollapseProper(m.1);
  }

  // --------------------------------------------------------------- reading never lengthens

  function Weight(ms: Members, depth: nat): nat {
    if ms == [] then 0 else |PrintMember(ms[0], depth)| + 1 + Weight(ms[1..], depth)
  }

  lemma {:induction false} MembersLength(ms: Members, depth: nat)
    ensures |PrintMembers(ms, depth)| == if ms == [] then 0 else Weight(ms, depth) - 1
  {
    if |ms| > 1 { MembersLength(ms[1..], depth); }
  }

  lemma {:induction false} PutWeight(o: Members, key: string, value: Value, depth: nat)
    ensures Weight(Put(o, key, value), depth) <= Weight(o, depth) + |PrintMember((key, value), depth)| + 1
    ensures Put(o, key, value) != []
  {
    if o != [] && o[0].0 != key { PutWeight(o[1..], key, value, depth); }
  }

  lemma {:induction false} LastWeight(ms: Members, depth: nat)
    requires ms != []
    ensures Weight(ms, depth) == Weight(ms[..|ms| - 1], depth) + |PrintMember(ms[|ms| - 1], depth)| + 1
  {
    if |ms| > 1 {
      LastWeight(ms[1..], depth);
      assert ms[..|ms| - 1][1..] == ms[1..][..|ms| - 2];
    }
  }

  lemma {:induction false} CollapseShortens(v: Value, depth: nat)
    ensures |PrintText(Collapse(v), depth)| <= |PrintText(v, depth)|
    decreases v, 0
  {
    match v {
      case Arr(items) => CollapseItemsShorten(items, depth + 1);
      case Obj(ms) =>
        CollapseMembersShorten(ms, depth + 1);
        MembersLength(ms, depth + 1);
        MembersLength(CollapseMembers(ms), depth + 1);
      case _ =>
    }
  }

  lemma {:induction false} CollapseItemsShorten(items: seq<Value>, depth: nat)
    ensures |PrintItems(CollapseItems(items), depth)| <= |PrintItems(items, depth)|
    decreases items, 1
  {
    if items != [] {
      CollapseShortens(items[0], depth);
      CollapseItemsShorten(items[1..], depth);
      assert CollapseItems(items)[1..] == CollapseItems(items[1..]);
    }
  }

  lemma {:induction false} CollapseMembersShorten(ms: Members, depth: nat)
    ensures Weight(CollapseMembers(ms), depth) <= Weight(ms, depth)
    ensures CollapseMembers(ms) == [] <==> ms == []
    decreases ms, 1
  {
    if ms != [] {
      var before, last := ms[..|ms| - 1], ms[|ms| - 1];
      CollapseMembersShorten(before, depth);
      CollapseMemberShortens(last, depth);
      PutWeight(CollapseMembers(before), last.0, CollapseMember(last), depth);
      LastWeight(ms, depth);
    }
  }

  lemma {:induction false} CollapseMemberShortens(m: (string, Value), depth: nat)
    ensures |PrintMember((m.0, CollapseMember(m)), depth)| <= |PrintMember(m, depth)|
    decreases m, 1
  {
    CollapseShortens(m.1, depth);
  }

  // ------------------------------------------------------------------ stripped and read

  /** The tree that reading its stripped print yields. */
  function Reread(v: Value): Value {
    Collapse(Eaten(v))
  }

  function RereadMembers(ms: Members): Members {
    CollapseMembers(EatenMembers(ms))
  }

  lemma {:induction false} RereadSpared(v: Value)
    requires Proper(v) && Spared(v)
    ensures Reread(v) == v
  {
    EatenSame(v);
    CollapseProper(v);
  }

  /** A tree that is not spared comes back with a shorter print. */
  lemma {:induction false} RereadIsShorter(v: Value)
    requires !Spared(v)
    ensures |Printed(Reread(v))| < |Printed(v)|
  {
    EatenIsShorter(v, 0);
    CollapseShortens(Eaten(v), 0);
  }

  lemma {:induction false} EatenLast(ms: Members)
    requires ms != []
    ensures EatenMembers(ms)[..|ms| - 1] == EatenMembers(ms[..|ms| - 1])
    ensures EatenMembers(ms)[|ms| - 1] == EatenMember(ms[|ms| - 1])
  {
    if |ms| > 1 {
      EatenLast(ms[1..]);
      assert ms[..|ms| - 1][1..] == ms[1..][..|ms| - 2];
      assert EatenMembers(ms)[1..] == EatenMembers(ms[1..]);
      assert EatenMembers(ms)[..|ms| - 1] == [EatenMember(ms[0])] + EatenMembers(ms[1..])[..|ms| - 2];
    }
  }

  /** The members in turn, each eaten and put in its place. */
  lemma RereadLast(ms: Members)
    requires ms != []
    ensures RereadMembers(ms)
            == Put(RereadMembers(ms[..|ms| - 1]), Eat(ms[|ms| - 1].0), Reread(ms[|ms| - 1].1))
  {
    var eaten, last := EatenMembers(ms), ms[|ms| - 1];
    EatenLast(ms);
    assert eaten[|eaten| - 1] == (Eat(last.0), Eaten(last.1));
    assert CollapseMembers(eaten)
           == Put(CollapseMembers(eaten[..|eaten| - 1]), Eat(last.0), CollapseMember(eaten[|eaten| - 1]));
  }

  lemma {:induction false} GetLast(ms: Members, key: string)
    requires ms != [] && DistinctKeys(ms)
    ensures Get(ms, key)
            == if ms[|ms| - 1].0 == key then Some(ms[|ms| - 1].1) else Get(ms[..|ms| - 1], key)
  {
    if |ms| > 1 {
      assert ms[..|ms| - 1][1..] == ms[1..][..|ms| - 2];
      GetLast(ms[1..], key);
    }
  }

  function RereadOption(v: Option<Value>): Option<Value> {
    if v.None? then None else Some(Reread(v.value))
  }

  /** A member under a name without closers is read again under that name. */
  lemma {:induction false} RereadAt(ms: Members, key: string)
    requires DistinctKeys(ms) && !HasCloser(key)
    ensures Get(RereadMembers(ms), key) == RereadOption(Get(ms, key))
  {
    if ms != [] {
      var before, last := ms[..|ms| - 1], ms[|ms| - 1];
      RereadAt(before, key);
      RereadLast(ms);
      GetPut(RereadMembers(before), Eat(last.0), Reread(last.1), key);
      EatKeyword(last.0, key);
      GetLast(ms, key);
    }
  }

  /** Every member read comes from one written; names are distinct. */
  lemma {:induction false} RereadFrom(ms: Members)
    ensures DistinctKeys(RereadMembers(ms))
    ensures forall r | r in RereadMembers(ms) :: exists m :: m in ms && r == (Eat(m.0), Reread(m.1))
    ensures |RereadMembers(ms)| <= |ms|
    ensures RereadMembers(ms) == [] <==> ms == []
  {
    if ms != [] {
      var before, last := ms[..|ms| - 1], ms[|ms| - 1];
      RereadFrom(before);
      RereadLast(ms);
      PutDistinct(RereadMembers(before), Eat(last.0), Reread(last.1));
      PutSize(RereadMembers(before), Eat(last.0), Reread(last.1));
      forall r | r in RereadMembers(ms) ensures exists m :: m in ms && r == (Eat(m.0), Reread(m.1)) {
        if r in RereadMembers(before) {
          var m :| m in before && r == (Eat(m.0), Reread(m.1));
          assert m in ms;
        } else {
          assert last in ms && r == (Eat(last.0), Reread(last.1));
        }
      }
    }
  }

  lemma {:induction false} PutSize(o: Members, key: string, value: Value)
    ensures |o| <= |Put(o, key, value)| <= |o| + 1
    ensures |Put(o, key, value)| == |o| + 1 ==> Put(o, key, value) == o + [(key, value)]
    ensures Put(o, key, value) != []
  {
    if o != [] && o[0].0 != key { PutSize(o[1..], key, value); }
  }

  /** If no two names ran together, the members are read one for one. */
  lemma {:induction false} RereadOneForOne(ms: Members)
    requires |RereadMembers(ms)| == |ms|
    ensures forall i | 0 <= i < |ms| :: RereadMembers(ms)[i] == (Eat(ms[i].0), Reread(ms[i].1))
  {
    if ms != [] {
      var before, last := ms[..|ms| - 1], ms[|ms| - 1];
      RereadLast(ms);
      RereadFrom(before);
      PutSize(RereadMembers(before), Eat(last.0), Reread(last.1));
      RereadOneForOne(before);
    }
  }

  lemma {:induction false} RereadItemAt(items: seq<Value>, i: nat)
    requires i < |items|
    ensures Reread(Arr(items)).Arr? && |Reread(Arr(items)).items| == |items|
    ensures Reread(Arr(items)).items[i] == Reread(items[i])
  {
    var eaten := EatenItems(items);
    assert eaten[0] == Eaten(items[0]) && eaten[1..] == EatenItems(items[1..]);
    assert CollapseItems(eaten) == [Collapse(eaten[0])] + CollapseItems(eaten[1..]);
    if i > 0 { RereadItemAt(items[1..], i - 1); }
  }
}
