/** The JavaScript values that flow through a request: bodies, query strings, headers,
    validated properties and handler results. Numbers are integers here. */
module Json {
  import opened Text

  datatype Value =
    | Undefined
    | Null
    | Bool(b: bool)
    | Num(n: int)
    | Str(s: string)
    | Arr(items: seq<Value>)
    | Obj(props: map<string, Value>)

  /** The result of the `typeof` operator. */
  function Typeof(v: Value): string {
    match v
    case Undefined => "undefined"
    case Bool(_) => "boolean"
    case Num(_) => "number"
    case Str(_) => "string"
    case _ => "object"
  }

  /** JavaScript truthiness: `undefined`, `null`, `false`, `0` and `""` are falsy. */
  predicate Truthy(v: Value) {
    match v
    case Undefined => false
    case Null => false
    case Bool(b) => b
    case Num(n) => n != 0
    case Str(s) => s != ""
    case _ => true
  }

  /** `v.hasOwnProperty(name)`; values other than objects are taken to have no own properties. */
  predicate HasOwn(v: Value, name: string) {
    v.Obj? && name in v.props
  }

  /** `v[name]`, which is `undefined` where there is no such property. */
  function Prop(v: Value, name: string): Value {
    if HasOwn(v, name) then v.props[name] else Undefined
  }

  /** The text `${v}` produces; array elements that are `null` or `undefined` render empty. */
  function Display(v: Value): string {
    match v
    case Undefined => "undefined"
    case Null => "null"
    case Bool(b) => if b then "true" else "false"
    case Num(n) => IntText(n)
    case Str(s) => s
    case Obj(_) => "[object Object]"
    case Arr(items) =>
      Join(seq(|items|, i requires 0 <= i < |items| =>
        if items[i].Undefined? || items[i].Null? then "" else Display(items[i])), ",")
  }

  function Join(parts: seq<string>, sep: string): string
    decreases |parts|
  {
    if parts == [] then ""
    else if |parts| == 1 then parts[0]
    else parts[0] + sep + Join(parts[1..], sep)
  }
}
