/** JSON values as Python's `json` module and Flask's `request.get_json()` hand them to
    the route handlers, with the Python operations the handlers apply to them. */
module Json {
  import opened Wrappers
  import Text

  /** A decoded JSON value: `None`, `bool`, `int`, `str`, `list` or `dict`. */
  datatype Json =
    | JNull
    | JBool(b: bool)
    | JInt(i: int)
    | JStr(s: string)
    | JArr(items: seq<Json>)
    | JObj(fields: map<string, Json>)

  /** A request body: the dictionary `get_json()` returns. */
  type Body = map<string, Json>

  /** Python truthiness (`if x:`). */
  predicate Truthy(j: Json) {
    match j
    case JNull => false
    case JBool(b) => b
    case JInt(i) => i != 0
    case JStr(s) => |s| > 0
    case JArr(a) => |a| > 0
    case JObj(f) => |f| > 0
  }

  /** `body.get(key, default)`. */
  function Get(body: Body, key: string, default: Json): Json {
    if key in body then body[key] else default
  }

  /** The text of a JSON string, `None` for any other value. */
  function AsText(j: Json): Option<string> {
    if j.JStr? then Some(j.s) else None
  }

  /** `len(x)`; `None` where Python raises `TypeError` (no length). */
  function Len(j: Json): Option<nat> {
    match j
    case JStr(s) => Some(|s|)
    case JArr(a) => Some(|a|)
    case JObj(f) => Some(|f|)
    case _ => None
  }

  /** `int(x)`; `None` where Python raises (`TypeError` or `ValueError`). */
  function IntOf(j: Json): Option<int> {
    match j
    case JInt(i) => Some(i)
    case JBool(b) => Some(if b then 1 else 0)
    case JStr(s) => Text.ParseInt(s)
    case _ => None
  }

  /** `isinstance(x, int)`: in Python a `bool` is an `int` too. */
  function IntInstance(j: Json): Option<int> {
    match j
    case JInt(i) => Some(i)
    case JBool(b) => Some(if b then 1 else 0)
    case _ => None
  }

  /** The integer MySQL compares an integer `id` column with, for a parameter the driver
      sends: an integer or a boolean (1 or 0) as itself, and a string of ASCII digits with
      an optional sign as the number it spells. Any other value names no id here. */
  function SqlId(j: Json): (r: Option<int>)
    ensures IntInstance(j).Some? ==> r == IntInstance(j)
    ensures r.Some? ==> IntOf(j) == r
    ensures j.JNull? || j.JArr? || j.JObj? ==> r.None?
  {
    match j
    case JStr(s) =>
      if Text.SignedDigits(s).Some? then Text.SignedDigitsParse(s); Text.SignedDigits(s) else None
    case _ => IntInstance(j)
  }

  /** An id sent as the text Python prints for it names that id. */
  lemma SqlIdRender(n: int)
    ensures SqlId(JStr(Text.Render(n))) == Some(n)
  {
    Text.SignedDigitsRender(n);
  }

  /** `int(x)` agrees with Python on the strings Python prints for integers, and every
      value that passes `isinstance(x, int)` converts to itself. */
  lemma IntOfAgrees(n: int, j: Json)
    ensures IntOf(JStr(Text.Render(n))) == Some(n)
    ensures IntInstance(j).Some? ==> IntOf(j) == IntInstance(j)
  {
    Text.ParseRender(n);
  }
}
