/** JSON values as the stores keep them. Numbers are integers (the only
    numbers stored are `Date.now()` readings); `undefined` is not a value:
    a property set to it is absent once written as JSON. */
module JsonValue {
  import opened Wrappers

  datatype Json =
    | Null
    | Bool(b: bool)
    | Num(n: int)
    | Str(s: string)
    | Arr(items: seq<Json>)
    | Obj(props: map<string, Json>)

  /** JavaScript truthiness. */
  predicate Truthy(j: Json) {
    match j
    case Null => false
    case Bool(b) => b
    case Num(n) => n != 0
    case Str(s) => s != ""
    case _ => true
  }

  /** `o[key]` on an optional object: absent means `undefined`. */
  function Get(o: map<string, Json>, key: string): Option<Json> {
    if key in o then Some(o[key]) else None
  }

  /** Assigning an optional value, where `undefined` removes the property
      once the object is written as JSON. */
  function Put(o: map<string, Json>, key: string, v: Option<Json>): (r: map<string, Json>)
    ensures Get(r, key) == v
    ensures forall k :: k != key ==> Get(r, k) == Get(o, k)
  {
    if v.Some? then o[key := v.value] else o - {key}
  }
}
