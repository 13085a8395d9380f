/** The JavaScript values a parsed JSON request body can hold in one field,
    and the parts of the language semantics the handlers depend on:
    `=== undefined`, `typeof … === "string"`, truthiness and the string
    conversion applied by `+`. Numbers are modelled as integers. */
module JsValues {
  import Text

  datatype JsValue =
    | Undefined
    | Null
    | Boolean(b: bool)
    | Number(n: int)
    | Str(s: string)
    | Object

  /** `!v`: the falsy values (NaN is not representable here). */
  predicate Falsy(v: JsValue)
  {
    v == Undefined || v == Null || v == Boolean(false) || v == Number(0) || v == Str("")
  }

  /** The string that `"…" + v` appends for `v` (a plain object renders
      as `[object Object]`). */
  function ToJsString(v: JsValue): string
  {
    match v
    case Undefined => "undefined"
    case Null => "null"
    case Boolean(b) => if b then "true" else "false"
    case Number(n) => Text.IntToDecimal(n)
    case Str(s) => s
    case Object => "[object Object]"
  }
}
