/** JSON documents. */
module Json {
  // As `serde_json::Value` holds them: objects keep the order their producer
  // wrote, keys are distinct, numbers come in three kinds.

  import opened Words
  import opened Decimals

  datatype Json =
    | Null
    | Bool(b: bool)
    | Num(n: Number)
    | Str(s: string)
    | Arr(items: seq<Json>)
    | Obj(members: seq<Entry<Json>>)

  /** What the type guarantees of every document: bounded integers, shortest
      decimals, no repeated key in an object. */
  ghost predicate WellFormed(v: Json) {
    match v
    case Num(n) => WellFormedNumber(n)
    case Arr(items) => forall i :: 0 <= i < |items| ==> WellFormed(items[i])
    case Obj(ms) => DistinctKeys(ms) && forall i :: 0 <= i < |ms| ==> WellFormed(ms[i].value)
    case _ => true
  }

  /** The same document up to the order of keys at every depth, with `same`
      deciding when two numbers are the same. */
  predicate Matches(a: Json, b: Json, same: (Number, Number) -> bool) {
    match (a, b)
    case (Null, Null) => true
    case (Bool(x), Bool(y)) => x == y
    case (Num(x), Num(y)) => same(x, y)
    case (Str(x), Str(y)) => x == y
    case (Arr(xs), Arr(ys)) => |xs| == |ys| && forall i :: 0 <= i < |xs| ==> Matches(xs[i], ys[i], same)
    case (Obj(ms), Obj(ns)) =>
      Keys(ms) == Keys(ns) &&
      forall i, j :: 0 <= i < |ms| && 0 <= j < |ns| && ms[i].key == ns[j].key ==>
        Matches(ms[i].value, ns[j].value, same)
    case _ => false
  }

  predicate SameValue(x: Number, y: Number) {
    IsFinite(x) && IsFinite(y) && Value(x) == Value(y)
  }

  predicate SameNumber(x: Number, y: Number) {
    x == y
  }

  /** Equal up to key order and to how a number is typed and spelled. */
  predicate Same(a: Json, b: Json) {
    Matches(a, b, SameValue)
  }

  /** Equal up to key order alone. */
  predicate Reordered(a: Json, b: Json) {
    Matches(a, b, SameNumber)
  }

  // ---- lookup and update of a top-level key -------------------------------

  /** `Value::get`: the value under a key, none when there is no such key or the
      value is not an object. An explicit null is present. */
  function Get(v: Json, key: string): (r: Option<Json>) {
    match v
    case Obj(ms) => Lookup(ms, key)
    case _ => None
  }

  function Lookup(ms: seq<Entry<Json>>, key: string): (r: Option<Json>)
    ensures r.Some? <==> key in Keys(ms)
    ensures r.Some? ==> exists i :: 0 <= i < |ms| && ms[i].key == key && ms[i].value == r.value
  {
    if ms == [] then None
    else if ms[0].key == key then Some(ms[0].value)
    else
      assert forall i :: 0 < i < |ms| ==> ms[i] == ms[1..][i - 1];
      assert Keys(ms) == {ms[0].key} + Keys(ms[1..]);
      Lookup(ms[1..], key)
  }

  lemma {:induction false} LookupAt(ms: seq<Entry<Json>>, i: nat)
    requires DistinctKeys(ms) && i < |ms|
    ensures Lookup(ms, ms[i].key) == Some(ms[i].value)
  {
    if i > 0 {
      assert ms[0].key != ms[i].key;
      LookupAt(ms[1..], i - 1);
    }
  }

  // ---- one step of a path -------------------------------------------------

  datatype Step = Index(i: nat) | Key(key: string)

  /** The value a path leads to, starting from `v`. */
  function Follow(v: Json, path: seq<Step>): (r: Option<Json>)
    decreases |path|
  {
    if path == [] then Some(v)
    else match (v, path[0])
      case (Arr(items), Index(i)) => if i < |items| then Follow(items[i], path[1..]) else None
      case (Obj(ms), Key(k)) =>
        var child := Lookup(ms, k);
        if child.Some? then Follow(child.value, path[1..]) else None
      case _ => None
  }
}
