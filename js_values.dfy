/**
 * The JavaScript values that the modelled functions receive, and the three
 * language operations they apply to them: truthiness (`!v`), conversion to a
 * string (`String(v)`, also used by template literals), and property reads.
 * Numbers are integer-valued; `NaN`, infinities and fractions are not modelled.
 */
module JsValues {
  import opened Text

  datatype JsValue =
    | Undefined
    | Null
    | Bool(b: bool)
    | Num(n: int)
    | Str(s: string)
    | Arr(items: seq<JsValue>)
    | Obj(props: map<string, JsValue>)

  /** The result of an evaluation that may stop with a thrown TypeError. */
  datatype Outcome<T> = Ok(value: T) | Throws

  /** `v` converts to `true` in a condition. */
  predicate Truthy(v: JsValue) {
    match v
    case Undefined => false
    case Null => false
    case Bool(b) => b
    case Num(n) => n != 0
    case Str(s) => s != ""
    case Arr(_) => true
    case Obj(_) => true
  }

  /** `v === null || v === undefined` */
  predicate Nullish(v: JsValue) {
    v.Undefined? || v.Null?
  }

  /** `typeof v === 'object'` (null and arrays included). */
  predicate IsObjectType(v: JsValue) {
    v.Null? || v.Arr? || v.Obj?
  }

  /** `String(v)`; the elements of an array are joined with commas, null and
      undefined elements giving the empty string. A number is written as its
      plain decimal numeral, which is what JavaScript writes for an integer
      below 10^21 in magnitude; larger ones, which it writes in exponent form
      (`1e+21`), are outside what this function models. */
  function ToJsString(v: JsValue): string
    decreases v
  {
    match v
    case Undefined => "undefined"
    case Null => "null"
    case Bool(b) => if b then "true" else "false"
    case Num(n) => IntToString(n)
    case Str(s) => s
    case Arr(items) => JoinElements(items)
    case Obj(_) => "[object Object]"
  }

  function JoinElements(items: seq<JsValue>): string
    decreases items
  {
    if items == [] then ""
    else
      var first := if Nullish(items[0]) then "" else ToJsString(items[0]);
      if |items| == 1 then first else first + "," + JoinElements(items[1..])
  }

  /** `v[key]` for the property names the core reads (none of them is a
      built-in property of strings, numbers, booleans or arrays): reading from
      null or undefined throws, an object gives its own property or undefined,
      any other value gives undefined. */
  function GetProperty(v: JsValue, key: string): Outcome<JsValue> {
    match v
    case Undefined => Throws
    case Null => Throws
    case Obj(props) => Ok(if key in props then props[key] else Undefined)
    case _ => Ok(Undefined)
  }

  /** `v?.[key]` */
  function GetOptional(v: JsValue, key: string): JsValue {
    if Nullish(v) then Undefined else GetProperty(v, key).value
  }
}

/** Sequence operations used by several modules. */
module Seqs {

  /** `s.map(f)` */
  function Map<A, B>(f: A -> B, s: seq<A>): (r: seq<B>)
    ensures |r| == |s|
    ensures forall i :: 0 <= i < |s| ==> r[i] == f(s[i])
    decreases |s|
  {
    if s == [] then [] else Map(f, s[..|s| - 1]) + [f(s[|s| - 1])]
  }

  /** Mapping a prefix one element longer appends one mapped element. */
  lemma MapSnoc<A, B>(f: A -> B, s: seq<A>, i: nat)
    requires i < |s|
    ensures Map(f, s[..i + 1]) == Map(f, s[..i]) + [f(s[i])]
  {
    assert s[..i + 1][..i] == s[..i];
  }
}
