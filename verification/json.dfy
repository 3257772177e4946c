/** JSON values in the sense of RFC 8259, as the application sees them after `JSON.parse`.
    Numbers are exact reals; an object maps each member name to its value (when a text repeats a
    name, `JSON.parse` keeps the last one, which is what a map records). */
module Json {
  import opened Wrappers

  datatype Value =
    | JNull
    | JBool(b: bool)
    | JNum(n: real)
    | JStr(s: string)
    | JArr(items: seq<Value>)
    | JObj(members: map<string, Value>)

  /** Property access `v.key`: `None` stands for JavaScript's `undefined`, which is what every
      non-object and every object without that member yields. */
  function Get(v: Value, key: string): (r: Option<Value>)
    ensures r.Some? <==> v.JObj? && key in v.members
    ensures r.Some? ==> r.value == v.members[key]
  {
    if v.JObj? && key in v.members then Some(v.members[key]) else None
  }

  /** `typeof v === 'object'` and `v` is not `null`: objects and arrays. */
  predicate IsObjectLike(v: Value) {
    v.JObj? || v.JArr?
  }

  /** Whether `x` is a string: `Some(s)` for `JStr(s)`, `None` otherwise. */
  function AsString(x: Option<Value>): (r: Option<string>)
    ensures r.Some? <==> x.Some? && x.value.JStr?
    ensures r.Some? ==> x.value == JStr(r.value)
  {
    if x.Some? && x.value.JStr? then Some(x.value.s) else None
  }
}
