/** The JavaScript values a handler reads from a parsed JSON request body,
    and the truthiness and type tests the handlers apply to them. */
module Js {

  datatype Option<T> = None | Some(value: T)

  /** A JSON value as `express.json()` delivers it. `Absent` is a key the
      body does not carry (`undefined`). Array elements are kept as the
      strings the user schema casts them to. */
  datatype Json =
    | Absent
    | Null
    | Bool(b: bool)
    | Num(n: real)
    | Str(s: string)
    | Arr(items: seq<string>)
    | Obj

  /** `!!v`: JSON carries no NaN, so the falsy values are `undefined`,
      `null`, `false`, `0` and `""`. */
  predicate Truthy(v: Json) {
    match v
    case Absent => false
    case Null => false
    case Bool(b) => b
    case Num(n) => n != 0.0
    case Str(s) => s != ""
    case Arr(_) => true
    case Obj => true
  }

  /** `Array.isArray(v) && v.length`, the roles test of both user handlers. */
  predicate IsNonEmptyArray(v: Json) {
    v.Arr? && |v.items| > 0
  }

  /** A body field the handlers use as a string (ids, names, titles,
      passwords, the `jwt` cookie); `None` is a missing key. */
  type Field = Option<string>

  /** `!!f` for such a field: present and not the empty string. */
  predicate Present(f: Field) {
    f.Some? && f.value != ""
  }

  /** `!active || typeof active !== "boolean"` rejects everything except the
      literal `true`: a falsy boolean fails the first test. */
  lemma ActiveGuardAcceptsOnlyTrue(v: Json)
    ensures (Truthy(v) && v.Bool?) <==> v == Bool(true)
  {
  }
}
