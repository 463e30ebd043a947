/**
 * JavaScript values as the parsed JSON payloads and configs in the core see
 * them: `undefined`, `null`, booleans, integer numbers, strings, arrays and
 * objects (own properties in insertion order, keys distinct), with the
 * operators the core applies to them (`!`, `typeof`, `Array.isArray`,
 * member access, `??`).
 */
module JsValues {
  import Text

  datatype JsValue =
    | Undefined
    | Null
    | Bool(b: bool)
    | Num(n: int)
    | Str(s: string)
    | Arr(items: seq<JsValue>)
    | Obj(props: seq<(string, JsValue)>)

  /** JavaScript truthiness (`!!v`) for the values modelled. */
  predicate Truthy(v: JsValue) {
    match v
    case Undefined => false
    case Null => false
    case Bool(b) => b
    case Num(n) => n != 0
    case Str(s) => s != []
    case Arr(_) => true
    case Obj(_) => true
  }

  /** `typeof v === 'object'`: `null`, arrays and objects. */
  predicate IsObjectType(v: JsValue) {
    v.Null? || v.Arr? || v.Obj?
  }

  /** `v === null || v === undefined`. */
  predicate IsNullish(v: JsValue) {
    v.Null? || v.Undefined?
  }

  /** The value stored under `key` in a property list, `Undefined` when absent. */
  function Lookup(props: seq<(string, JsValue)>, key: string): (r: JsValue)
    ensures r != Undefined ==> exists k :: 0 <= k < |props| && props[k] == (key, r)
    ensures (forall k :: 0 <= k < |props| ==> props[k].0 != key) ==> r == Undefined
  {
    if props == [] then Undefined
    else if props[0].0 == key then props[0].1
    else
      var r := Lookup(props[1..], key);
      assert r != Undefined ==> exists k :: 0 <= k < |props[1..]| && props[1..][k] == (key, r);
      r
  }

  /** `v[key]` on a value that is not `null` or `undefined`: only objects have the properties the core reads. */
  function Get(v: JsValue, key: string): JsValue {
    if v.Obj? then Lookup(v.props, key) else Undefined
  }

  /** `a ?? b`. */
  function Coalesce(a: JsValue, b: JsValue): JsValue {
    if IsNullish(a) then b else a
  }

  lemma LookupFirst(props: seq<(string, JsValue)>, key: string, j: nat)
    requires j < |props| && props[j].0 == key
    requires forall k :: 0 <= k < j ==> props[k].0 != key
    ensures Lookup(props, key) == props[j].1
  {
    if j > 0 {
      LookupFirst(props[1..], key, j - 1);
    }
  }

  /**
   * `String(v)`, as a template literal or `join` applies it. Numbers are the
   * integers the model has, written in decimal.
   */
  function ToStr(v: JsValue): string
    decreases v, 1
  {
    match v
    case Undefined => "undefined"
    case Null => "null"
    case Bool(b) => if b then "true" else "false"
    case Num(n) => Text.IntToString(n)
    case Str(s) => s
    case Arr(items) => JoinItems(items)
    case Obj(_) => "[object Object]"
  }

  /** `items.join(',')`: each element as `String` gives it, `null` and `undefined` as the empty string. */
  function JoinItems(items: seq<JsValue>): string
    decreases items, 0
  {
    if items == [] then ""
    else
      var head := if IsNullish(items[0]) then "" else ToStr(items[0]);
      if |items| == 1 then head else head + "," + JoinItems(items[1..])
  }
}
