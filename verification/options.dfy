/**
 * The Ruby option hashes the stylesheet classes receive: symbol keys (written
 * here as strings) mapped to nil, booleans or strings, and Ruby's notion of a
 * truthy value. A path object given as an option is represented by its string.
 */
module Options {

  datatype Value = Nil | Bool(b: bool) | Str(s: string)

  type Options = map<string, Value>

  /** Ruby truthiness: everything except `nil` and `false`. */
  function Truthy(v: Value): (r: bool)
    ensures r <==> v != Nil && v != Bool(false)
  {
    match v
    case Nil => false
    case Bool(b) => b
    case Str(_) => true
  }

  /** `!!options[key]`: a missing key reads as `nil`. */
  function Flag(options: Options, key: string): (r: bool)
    ensures r <==> key in options && options[key] != Nil && options[key] != Bool(false)
  {
    key in options && Truthy(options[key])
  }

  /** String interpolation `"#{v}"`: `nil` prints as the empty string. */
  function Interpolate(v: Value): (r: string)
    ensures r == "" <==> v == Nil || v == Str("")
    ensures v.Str? ==> r == v.s
    ensures v.Bool? ==> r == (if v.b then "true" else "false")
  {
    match v
    case Nil => ""
    case Bool(b) => if b then "true" else "false"
    case Str(s) => s
  }
}
