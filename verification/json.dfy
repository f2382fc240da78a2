/**
  JSON-like values as the storage layers see them: what `JSON.parse` produces,
  what the host stores, and what listeners receive. JavaScript's `undefined`
  is a value of its own, distinct from `null`.
 */
module Json {
  datatype Value =
    | Undefined
    | Null
    | Bool(b: bool)
    | Num(n: int)
    | Str(s: string)
    | Arr(items: seq<Value>)
    | Obj(fields: map<string, Value>)

  /** `typeof v === 'object' && v !== null`: arrays and plain objects. */
  predicate IsObject(v: Value) {
    v.Arr? || v.Obj?
  }

  /** `v === undefined || v === null`, the values the setters turn into a deletion. */
  predicate IsNullish(v: Value) {
    v.Undefined? || v.Null?
  }

  /**
    JavaScript's `a === b`. Scalars compare by value. Arrays and objects
    compare by reference; a value model has no references, so two compound
    values are never strictly identical here and every comparison of them
    goes through the structural path of deepEqual.
   */
  predicate StrictEquals(a: Value, b: Value) {
    match a
    case Undefined => b.Undefined?
    case Null => b.Null?
    case Bool(x) => b.Bool? && b.b == x
    case Num(x) => b.Num? && b.n == x
    case Str(x) => b.Str? && b.s == x
    case Arr(_) => false
    case Obj(_) => false
  }
}
