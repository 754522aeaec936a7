/** The dynamically typed values the JavaScript code inspects, and the few
    language operations it relies on: truthiness, `||`, property reads,
    `String(v)` and `typeof v === 'object'`. Numbers are integers here. */
module Js {
  import opened Strings

  datatype JsValue =
    | Undefined
    | Null
    | Bool(b: bool)
    | Num(n: int)
    | Str(s: string)
    | Arr(items: seq<JsValue>)
    | Obj(fields: map<string, JsValue>)

  /** JavaScript truthiness: `undefined`, `null`, `false`, `0` and `''` are falsy. */
  predicate Truthy(v: JsValue) {
    match v
    case Undefined => false
    case Null => false
    case Bool(b) => b
    case Num(n) => n != 0
    case Str(s) => s != ""
    case Arr(_) => true
    case Obj(_) => true
  }

  /** `a || b` */
  function Or(a: JsValue, b: JsValue): (r: JsValue)
    ensures Truthy(a) ==> r == a
    ensures !Truthy(a) ==> r == b
  {
    if Truthy(a) then a else b
  }

  predicate IsNullish(v: JsValue) {
    v.Undefined? || v.Null?
  }

  /** `v.key` on a value that is not `null` or `undefined` (callers check
      that first, since there the read throws). Only plain objects carry
      named properties in this model. */
  function Get(v: JsValue, key: string): (r: JsValue)
    ensures !v.Obj? ==> r == Undefined
    ensures v.Obj? && key !in v.fields ==> r == Undefined
  {
    if v.Obj? && key in v.fields then v.fields[key] else Undefined
  }

  /** `v && typeof v === 'object'`: arrays and plain objects. */
  predicate IsObjectLike(v: JsValue) {
    v.Arr? || v.Obj?
  }

  /** The own named properties `{ ...v }` copies. Arrays and strings would
      contribute index keys; the model gives them none. */
  function Spread(v: JsValue): map<string, JsValue> {
    if v.Obj? then v.fields else map[]
  }

  function BoolToString(b: bool): string {
    if b then "true" else "false"
  }

  /** `String(v)`. An array is joined with `,`, its `null` and `undefined`
      elements printing as empty text; an object prints as `[object Object]`. */
  function ToStr(v: JsValue): string
  {
    match v
    case Undefined => "undefined"
    case Null => "null"
    case Bool(b) => BoolToString(b)
    case Num(n) => IntToString(n)
    case Str(s) => s
    case Arr(items) =>
      Join(seq(|items|, i requires 0 <= i < |items| =>
             if IsNullish(items[i]) then "" else ToStr(items[i])), ",")
    case Obj(_) => "[object Object]"
  }

  lemma ToStrOfString(s: string)
    ensures ToStr(Str(s)) == s
  {
  }

  /** Strict equality against a string literal (`v === 'text'`). */
  predicate IsString(v: JsValue, text: string) {
    v == Str(text)
  }

  /** `a === b` (and `SameValueZero`, as `includes`, `Set` and `Map` use it)
      on values that come from parsed JSON: primitives compare by value, and
      every array or object is a distinct reference, equal to no other. */
  predicate SameValue(a: JsValue, b: JsValue) {
    a == b && !IsObjectLike(a)
  }

  /** `xs.includes(v)` */
  predicate Includes(xs: seq<JsValue>, v: JsValue) {
    exists i :: 0 <= i < |xs| && SameValue(xs[i], v)
  }

  /** `xs.filter((x) => x)` */
  function FilterTruthy(xs: seq<JsValue>): (r: seq<JsValue>)
    ensures |r| <= |xs|
    ensures forall i :: 0 <= i < |r| ==> Truthy(r[i])
    ensures forall v :: v in r <==> v in xs && Truthy(v)
    ensures (forall i :: 0 <= i < |xs| ==> Truthy(xs[i])) ==> r == xs
  {
    if xs == [] then []
    else if Truthy(xs[0]) then [xs[0]] + FilterTruthy(xs[1..])
    else FilterTruthy(xs[1..])
  }

  /** `xs.slice(0, n)` */
  function Take<T>(xs: seq<T>, n: nat): (r: seq<T>)
    ensures |r| == if |xs| <= n then |xs| else n
    ensures r == xs[..|r|]
  {
    if |xs| <= n then xs else xs[..n]
  }

  /** The names every plain object inherits from `Object.prototype`: reading
      one of them from `{}` gives a function (or, for `__proto__`, the
      prototype), never `undefined`. */
  const ObjectPrototypeNames: set<string> :=
    {"constructor", "__defineGetter__", "__defineSetter__", "hasOwnProperty",
     "__lookupGetter__", "__lookupSetter__", "isPrototypeOf", "propertyIsEnumerable",
     "toString", "valueOf", "__proto__", "toLocaleString"}
}
