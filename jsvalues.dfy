/**
  The dynamically typed values stored in the document database and read back by the pages,
  with JavaScript's truthiness, `typeof` test, property access and `||` operator.
*/
module JsValues {

  datatype JsValue =
    | Undefined
    | Null
    | Bool(b: bool)
    | Num(n: real)
    | NaN
    | Str(s: string)
    | Obj(fields: map<string, JsValue>)
    | Arr(items: seq<JsValue>)

  /** A stored document: field name to value; a missing field reads as `undefined`. */
  type Doc = map<string, JsValue>

  /** JavaScript truthiness: `if (v)`. */
  predicate Truthy(v: JsValue) {
    match v
    case Undefined => false
    case Null => false
    case NaN => false
    case Bool(b) => b
    case Num(n) => n != 0.0
    case Str(s) => s != ""
    case Obj(_) => true
    case Arr(_) => true
  }

  /** `typeof v === "object"` (true of `null` and of arrays too). */
  predicate IsObjectType(v: JsValue) {
    v.Null? || v.Obj? || v.Arr?
  }

  /** `v.key` on a value that is neither `null` nor `undefined`. */
  function Field(v: JsValue, key: string): JsValue {
    if v.Obj? && key in v.fields then v.fields[key] else Undefined
  }

  /** `doc.key` */
  function Get(d: Doc, key: string): JsValue {
    if key in d then d[key] else Undefined
  }

  /** `a || b` */
  function Or(a: JsValue, b: JsValue): JsValue {
    if Truthy(a) then a else b
  }

  /** `shown` is what `stored || fallback` gives. */
  predicate DefaultsTo(stored: JsValue, shown: JsValue, fallback: JsValue) {
    if Truthy(stored) then shown == stored else shown == fallback
  }

  /** The text of a string value; any other value reads as the empty string. */
  function TextOf(v: JsValue): string {
    if v.Str? then v.s else ""
  }
}
