/** The JavaScript values the front-end pages handle: server response bodies,
    alert objects and local-storage entries, with JavaScript's truthiness and
    property access. */
module Js {
  import opened Base

  /** A JavaScript value. Objects are compared structurally here; the pages only
      compare primitive values (ids, roles, statuses) with `===`. */
  datatype JsValue =
    | Undefined
    | Null
    | Bool(b: bool)
    | Num(n: real)
    | Str(s: string)
    | Arr(items: seq<JsValue>)
    | Obj(props: map<string, JsValue>)

  /** JavaScript truthiness: `undefined`, `null`, `false`, `0` and `""` are falsy,
      every array and object is truthy (NaN is not modelled). */
  predicate Truthy(v: JsValue)
  {
    match v
    case Undefined => false
    case Null => false
    case Bool(b) => b
    case Num(n) => n != 0.0
    case Str(s) => s != ""
    case Arr(_) => true
    case Obj(_) => true
  }

  /** `v?.key` for a data property: only objects carry named properties;
      every other value (including `null` and `undefined`) yields `undefined`. */
  function Prop(v: JsValue, key: string): (r: JsValue)
    ensures r != Undefined ==> v.Obj? && key in v.props && r == v.props[key]
    ensures v.Obj? && key in v.props ==> r == v.props[key]
  {
    if v.Obj? && key in v.props then v.props[key] else Undefined
  }

  /** The own properties `{...v}` copies: an object's properties, nothing for
      `null`, `undefined`, booleans and numbers. */
  function Spread(v: JsValue): map<string, JsValue>
  {
    if v.Obj? then v.props else map[]
  }

  /** `{...a, ...b}`: the properties of both, `b` winning on a shared key. */
  function Merge(a: JsValue, b: JsValue): (r: JsValue)
    ensures r.Obj? && r.props.Keys == Spread(a).Keys + Spread(b).Keys
    ensures forall k :: k in Spread(b) ==> Prop(r, k) == Spread(b)[k]
    ensures forall k :: k in Spread(a) && k !in Spread(b) ==> Prop(r, k) == Spread(a)[k]
  {
    Obj(Spread(a) + Spread(b))
  }

  /** Browser local storage: string keys to string values. */
  type Storage = map<string, string>

  /** `localStorage.getItem(key)`: the stored string, or `null`. */
  function GetItem(store: Storage, key: string): (r: JsValue)
    ensures r == Null <==> key !in store
    ensures key in store ==> r == Str(store[key])
  {
    if key in store then Str(store[key]) else Null
  }

  /** Whether `localStorage.getItem(key)` is truthy: present and non-empty. */
  predicate HasToken(store: Storage, key: string)
  {
    Truthy(GetItem(store, key))
  }

  lemma HasTokenIff(store: Storage, key: string)
    ensures HasToken(store, key) <==> key in store && store[key] != ""
  {
  }

  /** The decimal digit character for `d`. */
  function DigitChar(d: nat): (c: char)
    requires d < 10
    ensures '0' <= c <= '9'
  {
    ['0', '1', '2', '3', '4', '5', '6', '7', '8', '9'][d]
  }

  /** The value of a decimal digit character. */
  function DigitValue(c: char): (d: nat)
    requires '0' <= c <= '9'
    ensures d < 10
  {
    (c as int - '0' as int) as nat
  }

  /** `String(n)` for a natural number: its decimal digits, most significant first. */
  function NatToString(n: nat): (s: string)
    ensures |s| >= 1
    ensures forall i :: 0 <= i < |s| ==> '0' <= s[i] <= '9'
    ensures ParseDecimal(s) == n
    decreases n
  {
    if n < 10 then [DigitChar(n)] else NatToString(n / 10) + [DigitChar(n % 10)]
  }

  /** The number a string of decimal digits denotes. */
  function ParseDecimal(s: string): nat
    requires forall i :: 0 <= i < |s| ==> '0' <= s[i] <= '9'
  {
    if s == [] then 0 else 10 * ParseDecimal(s[..|s| - 1]) + DigitValue(s[|s| - 1])
  }
}
