/**
 * The JavaScript values the front end reads out of fetched records, with the
 * truthiness, string conversion and strict equality the code relies on.
 * Numbers are integers: NaN and fractions do not occur in the fields read.
 */
module JsValues {
  import opened Text

  datatype Option<T> = None | Some(value: T)

  datatype Value = Undefined | Null | Bool(b: bool) | Num(n: int) | Str(s: string)

  /** `!!v`. */
  predicate Truthy(v: Value)
  {
    match v
    case Undefined => false
    case Null => false
    case Bool(b) => b
    case Num(n) => n != 0
    case Str(s) => s != []
  }

  /** `String(v)`, which is also what a template literal `${v}` and `v.toString()` write. */
  function ToText(v: Value): string
  {
    match v
    case Undefined => "undefined"
    case Null => "null"
    case Bool(b) => if b then "true" else "false"
    case Num(n) => IntToString(n)
    case Str(s) => s
  }

  /** A record read from the API: absent keys read as `undefined`. */
  type Item = map<string, Value>

  /** `item[name]`. */
  function Field(item: Item, name: string): Value
  {
    if name in item then item[name] else Undefined
  }

  /** Only the empty string among the strings is falsy, and only `0` among the numbers. */
  lemma FalsyValues(v: Value)
    ensures !Truthy(v) <==> v == Undefined || v == Null || v == Bool(false) || v == Num(0) || v == Str("")
  {
  }
}
