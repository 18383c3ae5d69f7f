/** JSON values with ordered object members, and the in-place object updates of JavaScript. */
module Json {
  import opened Text

  predicate IsNumberText(s: string) {
    s != "" && forall c | c in s :: '0' <= c <= '9' || c == '+' || c == '-' || c == '.' || c == 'e' || c == 'E'
  }

  /** A number is kept as the text JavaScript prints for it. */
  type NumberText = s: string | IsNumberText(s) witness "0"

  datatype Value =
    | Null
    | Bool(b: bool)
    | Number(text: NumberText)
    | Str(s: string)
    | Arr(items: seq<Value>)
    | Obj(members: Members)

  type Members = seq<(string, Value)>

  predicate DistinctKeys(o: Members) {
    forall i, j | 0 <= i < j < |o| :: o[i].0 != o[j].0
  }

  function Keys(o: Members): seq<string> {
    if o == [] then [] else [o[0].0] + Keys(o[1..])
  }

  predicate Has(o: Members, key: string) {
    exists m | m in o :: m.0 == key
  }

  /** The value of a member, or None where JavaScript reads `undefined`. */
  function Get(o: Members, key: string): (r: Option<Value>)
    ensures r.Some? <==> Has(o, key)
    ensures r.Some? ==> (key, r.value) in o
  {
    if o == [] then None
    else if o[0].0 == key then assert o[0] in o; Some(o[0].1)
    else
      assert o == [o[0]] + o[1..];
      Get(o[1..], key)
  }

  /** `o[key] = value`: an existing member keeps its place, a new one goes last. */
  function Put(o: Members, key: string, value: Value): Members {
    if o == [] then [(key, value)]
    else if o[0].0 == key then [(key, value)] + o[1..]
    else [o[0]] + Put(o[1..], key, value)
  }

  /** `delete o[key]`. */
  function Without(o: Members, key: string): Members {
    if o == [] then []
    else if o[0].0 == key then Without(o[1..], key)
    else [o[0]] + Without(o[1..], key)
  }

  /** The members whose name is not among `known`, in order. */
  function Others(o: Members, known: set<string>): Members {
    if o == [] then []
    else (if o[0].0 in known then [] else [o[0]]) + Others(o[1..], known)
  }

  /** `String(value)`. */
  function TextOf(v: Value): string {
    match v
    case Null => "null"
    case Bool(b) => if b then "true" else "false"
    case Number(text) => text
    case Str(s) => s
    case Arr(items) => ItemsText(items)
    case Obj(_) => "[object Object]"
  }

  /** Array items joined by commas; null prints as nothing. */
  function ItemsText(items: seq<Value>): string {
    if items == [] then ""
    else
      var first := if items[0].Null? then "" else TextOf(items[0]);
      if |items| == 1 then first else first + "," + ItemsText(items[1..])
  }

  // --------------------------------------------------------------- facts about updates

  lemma {:induction false} GetPut(o: Members, key: string, value: Value, other: string)
    ensures Get(Put(o, key, value), other) == if other == key then Some(value) else Get(o, other)
  {
    if o != [] && o[0].0 != key { GetPut(o[1..], key, value, other); }
  }

  lemma {:induction false} GetWithout(o: Members, key: string, other: string)
    ensures Get(Without(o, key), other) == if other == key then None else Get(o, other)
  {
    if o != [] { GetWithout(o[1..], key, other); }
  }

  /** Assigning what is there already, or deleting what is not, changes nothing. */
  lemma {:induction false} PutSame(o: Members, key: string, value: Value)
    requires Get(o, key) == Some(value)
    ensures Put(o, key, value) == o
  {
    if o[0].0 != key { PutSame(o[1..], key, value); }
  }

  lemma {:induction false} WithoutAbsent(o: Members, key: string)
    requires Get(o, key).None?
    ensures Without(o, key) == o
  {
    if o != [] { WithoutAbsent(o[1..], key); }
  }

  lemma {:induction false} PutNew(o: Members, key: string, value: Value)
    requires Get(o, key).None?
    ensures Put(o, key, value) == o + [(key, value)]
  {
    if o != [] { PutNew(o[1..], key, value); }
  }

  lemma {:induction false} OthersPut(o: Members, key: string, value: Value, known: set<string>)
    requires key in known
    ensures Others(Put(o, key, value), known) == Others(o, known)
  {
    if o != [] && o[0].0 != key { OthersPut(o[1..], key, value, known); }
  }

  lemma {:induction false} OthersWithout(o: Members, key: string, known: set<string>)
    requires key in known
    ensures Others(Without(o, key), known) == Others(o, known)
  {
    if o != [] { OthersWithout(o[1..], key, known); }
  }

  /** Assignment never moves a member: names keep their order, a new one goes last. */
  lemma {:induction false} KeysPut(o: Members, key: string, value: Value)
    ensures Keys(Put(o, key, value)) == if Has(o, key) then Keys(o) else Keys(o) + [key]
  {
    if o != [] {
      assert Has(o, key) <==> o[0].0 == key || Has(o[1..], key) by {
        assert o == [o[0]] + o[1..];
      }
      if o[0].0 != key { KeysPut(o[1..], key, value); }
    }
  }

  lemma {:induction false} HasKey(o: Members, key: string)
    ensures Has(o, key) <==> key in Keys(o)
  {
    if o != [] {
      HasKey(o[1..], key);
      assert o == [o[0]] + o[1..];
    }
  }

  /** Deleting a name that is not among the first ones leaves those in place. */
  lemma {:induction false} KeysWithout(o: Members, key: string, first: seq<string>)
    requires first <= Keys(o) && key !in first
    ensures first <= Keys(Without(o, key))
  {
    if first != [] {
      assert first[0] == Keys(o)[0] == o[0].0;
      assert Keys(o)[1..] == Keys(o[1..]);
      KeysWithout(o[1..], key, first[1..]);
    }
  }

  /** Assigning keeps names distinct, and every pair either new or old. */
  lemma {:induction false} PutDistinct(o: Members, key: string, value: Value)
    requires DistinctKeys(o)
    ensures DistinctKeys(Put(o, key, value))
    ensures forall m | m in Put(o, key, value) :: m == (key, value) || m in o
  {
    if o == [] {
    } else if o[0].0 == key {
      var put := Put(o, key, value);
      forall i, j | 0 <= i < j < |put| ensures put[i].0 != put[j].0 {
        assert put[i].0 == o[i].0 && put[j].0 == o[j].0;
      }
    } else {
      PutDistinct(o[1..], key, value);
      var rest := Put(o[1..], key, value);
      forall m | m in rest ensures m.0 != o[0].0 {
        assert m == (key, value) || m in o[1..];
      }
      forall i, j | 0 <= i < j < |Put(o, key, value)| ensures Put(o, key, value)[i].0 != Put(o, key, value)[j].0 {
        assert Put(o, key, value)[j] == rest[j - 1];
        if i == 0 { assert rest[j - 1] in rest; }
      }
    }
  }
}
