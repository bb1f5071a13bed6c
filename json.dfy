/** JSON documents as `response.json()` yields them, together with the
    JavaScript operations the extension applies to them: truthiness,
    `typeof` and property reads. */
module JsValues {

  /** A parsed JSON document. Numbers are modelled as integers. */
  datatype Json =
    | Null
    | Bool(b: bool)
    | Num(n: int)
    | Str(s: string)
    | Arr(elems: seq<Json>)
    | Obj(members: map<string, Json>)

  /** The value of a property read `v.key`: `undefined` when the property is absent. */
  datatype Prop = Undefined | Value(v: Json)

  /** JavaScript truthiness: null, false, 0 and "" are falsy; every array
      and every object (even an empty one) is truthy. */
  predicate Truthy(v: Json) {
    match v
    case Null => false
    case Bool(b) => b
    case Num(n) => n != 0
    case Str(s) => s != ""
    case Arr(_) => true
    case Obj(_) => true
  }

  /** Truthiness of a property read; `undefined` is falsy. */
  predicate TruthyProp(p: Prop) {
    p.Value? && Truthy(p.v)
  }

  /** `typeof p === 'string'` */
  predicate IsString(p: Prop) {
    p.Value? && p.v.Str?
  }

  /** `typeof p === 'number'` */
  predicate IsNumber(p: Prop) {
    p.Value? && p.v.Num?
  }

  /** The property read `v.key`. Reading a property of `null` throws a
      TypeError, so callers rule that case out first; every value other
      than an object has none of the keys the extension reads. */
  function Get(v: Json, key: string): Prop
    requires !v.Null?
  {
    if v.Obj? && key in v.members then Value(v.members[key]) else Undefined
  }
}
