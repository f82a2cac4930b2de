/** JSON documents as `serde_json::Value` holds them. Object keys are unordered: nothing in
    the modules that use this type may depend on the order in which a map is walked. */
module Json {

  datatype Option<+T> = None | Some(value: T)

  datatype Result<+T, +E> = Ok(value: T) | Err(error: E)

  /** The three representations a JSON number can have. `bits` is an IEEE bit pattern. */
  datatype Number = PosInt(n: nat) | NegInt(i: int) | Float(bits: nat)

  datatype Value =
    | Null
    | Bool(b: bool)
    | Num(number: Number)
    | Str(s: string)
    | Arr(items: seq<Value>)
    | Obj(fields: map<string, Value>)

  /** A dotted key, as the list of its (dot-free) segments. */
  type Path = seq<string>

  /** The value at `path`, when every segment names a member of an object. */
  function At(v: Value, path: Path): Option<Value> {
    if path == [] then Some(v)
    else if v.Obj? && path[0] in v.fields then At(v.fields[path[0]], path[1..])
    else None
  }

  function Member(v: Value, key: string): Option<Value> {
    if v.Obj? && key in v.fields then Some(v.fields[key]) else None
  }

  function Nested(v: Value, outer: string, inner: string): Option<Value> {
    var section := Member(v, outer);
    if section.Some? then Member(section.value, inner) else None
  }
}
