/** Writing modelled values back onto an object, one member at a time, in the order of the source. */
module Edits {
  import opened Text
  import opened Json

  /** One write of the serializer. */
  datatype Step =
    | Always(key: string, value: Value)
    | WhenUsed(key: string, value: Value)
    | App(app: Option<Members>)
  {
    function Key(): string {
      if App? then "app" else key
    }
  }

  predicate HasContent(v: Value) {
    match v
    case Arr(items) => |items| > 0
    case Obj(members) => |members| > 0
    case _ => true
  }

  predicate IsObject(v: Option<Value>) {
    v.Some? && v.value.Obj?
  }

  /** The write as it happens: assign, or delete, or leave alone. */
  function Apply(out: Members, source: Members, step: Step): Members {
    match step
    case Always(key, value) => Put(out, key, value)
    case WhenUsed(key, value) =>
      if HasContent(value) || Has(source, key) then Put(out, key, value) else Without(out, key)
    case App(app) =>
      if app.Some? && |app.value| > 0 then Put(out, "app", Obj(app.value))
      else if IsObject(Get(source, "app")) then Without(out, "app")
      else out
  }

  function ApplyAll(out: Members, source: Members, steps: seq<Step>): Members
    decreases |steps|
  {
    if steps == [] then out else ApplyAll(Apply(out, source, steps[0]), source, steps[1..])
  }

  /** What a write leaves at its key. */
  function Result(source: Members, step: Step): Option<Value> {
    match step
    case Always(_, value) => Some(value)
    case WhenUsed(key, value) => if HasContent(value) || Has(source, key) then Some(value) else None
    case App(app) =>
      if app.Some? && |app.value| > 0 then Some(Obj(app.value))
      else if IsObject(Get(source, "app")) then None
      else Get(source, "app")
  }

  predicate DistinctSteps(steps: seq<Step>) {
    forall i, j | 0 <= i < j < |steps| :: steps[i].Key() != steps[j].Key()
  }

  function StepKeys(steps: seq<Step>): set<string> {
    set s | s in steps :: s.Key()
  }

  /** The write leaves its key as it was. */
  predicate Kept(source: Members, step: Step) {
    Result(source, step) == Get(source, step.Key())
  }

  predicate AllKept(source: Members, steps: seq<Step>) {
    forall i | 0 <= i < |steps| :: Kept(source, steps[i])
  }

  /** One write concerns its own key alone. */
  lemma {:induction false} ApplyAt(out: Members, source: Members, step: Step, key: string)
    requires Get(out, step.Key()) == Get(source, step.Key())
    ensures Get(Apply(out, source, step), key)
            == if key == step.Key() then Result(source, step) else Get(out, key)
  {
    match step {
      case Always(k, value) => GetPut(out, k, value, key);
      case WhenUsed(k, value) =>
        GetPut(out, k, value, key);
        GetWithout(out, k, key);
      case App(app) =>
        if app.Some? { GetPut(out, "app", Obj(app.value), key); }
        GetWithout(out, "app", key);
    }
  }

  /** After all writes each key holds its result, and every other member its old value. */
  lemma {:induction false} ApplyAllAt(out: Members, source: Members, steps: seq<Step>, key: string)
    requires DistinctSteps(steps)
    requires forall s | s in steps :: Get(out, s.Key()) == Get(source, s.Key())
    ensures key !in StepKeys(steps) ==> Get(ApplyAll(out, source, steps), key) == Get(out, key)
    ensures forall s | s in steps && s.Key() == key ::
              Get(ApplyAll(out, source, steps), key) == Result(source, s)
    decreases |steps|
  {
    if steps != [] {
      var first, rest := steps[0], steps[1..];
      var next := Apply(out, source, first);
      forall s | s in rest ensures s.Key() != first.Key() && Get(next, s.Key()) == Get(source, s.Key()) {
        ApplyAt(out, source, first, s.Key());
      }
      ApplyAt(out, source, first, key);
      ApplyAllAt(next, source, rest, key);
      assert first in steps && steps == [first] + rest;
    }
  }

  lemma {:induction false} WrittenAt(source: Members, steps: seq<Step>, i: nat)
    requires DistinctSteps(steps) && i < |steps|
    ensures Get(ApplyAll(source, source, steps), steps[i].Key()) == Result(source, steps[i])
  {
    ApplyAllAt(source, source, steps, steps[i].Key());
    assert steps[i] in steps;
  }

  /** Writes leave an object exactly as it was when each leaves its own key as it was. */
  lemma {:induction false} Unchanged(source: Members, steps: seq<Step>)
    requires DistinctSteps(steps)
    ensures ApplyAll(source, source, steps) == source <==> AllKept(source, steps)
  {
    if ApplyAll(source, source, steps) == source {
      forall i | 0 <= i < |steps| ensures Kept(source, steps[i]) {
        WrittenAt(source, steps, i);
      }
    }
    if AllKept(source, steps) { NothingWritten(source, steps); }
  }

  lemma {:induction false} NothingWritten(source: Members, steps: seq<Step>)
    requires AllKept(source, steps)
    ensures ApplyAll(source, source, steps) == source
  {
    if steps != [] {
      var step := steps[0];
      assert Kept(source, step);
      if Result(source, step).Some? {
        PutSame(source, step.Key(), Result(source, step).value);
      } else {
        WithoutAbsent(source, step.Key());
      }
      assert Apply(source, source, step) == source;
      forall i | 0 <= i < |steps[1..]| ensures Kept(source, steps[1..][i]) {
        assert steps[1..][i] == steps[i + 1];
      }
      NothingWritten(source, steps[1..]);
    }
  }

  /** Members the writes do not know keep their values and their order. */
  lemma {:induction false} OthersKept(out: Members, source: Members, steps: seq<Step>, known: set<string>)
    requires forall s | s in steps :: s.Key() in known
    ensures Others(ApplyAll(out, source, steps), known) == Others(out, known)
    decreases |steps|
  {
    if steps != [] {
      var step := steps[0];
      assert step in steps;
      match step {
        case Always(k, value) => OthersPut(out, k, value, known);
        case WhenUsed(k, value) =>
          OthersPut(out, k, value, known);
          OthersWithout(out, k, known);
        case App(app) =>
          if app.Some? { OthersPut(out, "app", Obj(app.value), known); }
          OthersWithout(out, "app", known);
      }
      OthersKept(Apply(out, source, step), source, steps[1..], known);
    }
  }

  /** Writes that keep what is in use leave every name in its place; new names go last. */
  lemma {:induction false} NamesKept(out: Members, source: Members, steps: seq<Step>)
    requires forall s | s in steps :: s.WhenUsed?
    requires Keys(source) <= Keys(out)
    ensures Keys(source) <= Keys(ApplyAll(out, source, steps))
    decreases |steps|
  {
    if steps != [] {
      var step := steps[0];
      HasKey(source, step.key);
      KeysPut(out, step.key, step.value);
      if !Has(source, step.key) { KeysWithout(out, step.key, Keys(source)); }
      NamesKept(Apply(out, source, step), source, steps[1..]);
    }
  }

  // ----------------------------------------------------------- the writes, in place

  /** An object under construction. */
  class Draft {
    var members: Members

    /** A copy of an existing object. */
    constructor (source: Members)
      ensures members == source
    {
      members := source;
    }

    method Assign(key: string, value: Value)
      modifies this
      ensures members == Apply(old(members), [], Always(key, value))
    {
      members := Put(members, key, value);
    }

    method Delete(key: string)
      modifies this
      ensures members == Without(old(members), key)
    {
      members := Without(members, key);
    }

    method Emit(source: Members, key: string, built: Value)
      modifies this
      ensures members == Apply(old(members), source, WhenUsed(key, built))
    {
      if HasContent(built) || Has(source, key) {
        Assign(key, built);
      } else {
        Delete(key);
      }
    }

    method EmitApp(source: Members, app: Option<Members>)
      modifies this
      ensures members == Apply(old(members), source, App(app))
    {
      if app.Some? && |app.value| > 0 {
        Assign("app", Obj(app.value));
      } else if IsObject(Get(source, "app")) {
        Delete("app");
      }
    }
  }
}
