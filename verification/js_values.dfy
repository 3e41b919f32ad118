/** The JavaScript values the upload handler passes to String(), to its
    sanitiser and to `||`: request-body fields and spreadsheet cells. */
module JsValues {
  import opened JsStrings

  datatype Option<+T> = None | Some(value: T)

  /** `Prim` stands for a number or a boolean cell, given by what String()
      renders it as and whether it is truthy (0, NaN and false are not). */
  datatype JsValue =
    | Undefined
    | Null
    | Str(s: JsString)
    | Prim(rendered: JsString, truthy: bool)

  /** String(v). */
  function ToJsString(v: JsValue): JsString
  {
    match v
    case Undefined => Lit("undefined")
    case Null => Lit("null")
    case Str(s) => s
    case Prim(rendered, _) => rendered
  }

  /** The `== null` test: true of null and of undefined. */
  predicate IsNullish(v: JsValue)
  {
    v.Undefined? || v.Null?
  }

  /** Boolean(v): the empty string, null and undefined are falsy. */
  predicate Truthy(v: JsValue)
  {
    match v
    case Undefined => false
    case Null => false
    case Str(s) => s != []
    case Prim(_, truthy) => truthy
  }

  /** A spreadsheet row read with its header row as keys. */
  type Record = map<JsString, JsValue>

  /** `row[key]`: undefined when the column is absent. */
  function Get(row: Record, key: JsString): JsValue
  {
    if key in row then row[key] else Undefined
  }
}
