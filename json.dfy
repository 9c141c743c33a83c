/** Parsed JSON values as Python sees them after `json.loads`: `None`, `bool`, `int`, `str`,
    `list` and `dict`, with Python's truthiness, `dict.get` and `str()`. */
module Json {
  import opened Text

  /** A JSON value. Objects nested inside a value keep their key order, as Python dicts do. */
  datatype JsonValue =
    | JNull
    | JBool(b: bool)
    | JInt(i: int)
    | JString(s: string)
    | JArray(items: seq<JsonValue>)
    | JObject(fields: seq<(string, JsonValue)>)

  /** One parsed line of a JSON-lines file: a top-level JSON object. */
  type Row = map<string, JsonValue>

  /** Python's `bool(v)`: the falsy values are exactly `None`, `False`, `0`, `""`, `[]` and `{}`. */
  predicate Truthy(v: JsonValue)
    ensures !Truthy(v) <==> v in {JNull, JBool(false), JInt(0), JString(""), JArray([]), JObject([])}
  {
    match v
    case JNull => false
    case JBool(b) => b
    case JInt(i) => i != 0
    case JString(s) => s != ""
    case JArray(items) => items != []
    case JObject(fields) => fields != []
  }

  /** `row.get(key)`: a missing key reads as `None`, exactly like an explicit JSON `null`. */
  function Get(row: Row, key: string): (v: JsonValue)
    ensures key !in row ==> v == JNull
    ensures key in row ==> v == row[key]
  {
    if key in row then row[key] else JNull
  }

  /** `row.get(key, default)`. */
  function GetOr(row: Row, key: string, default: JsonValue): (v: JsonValue)
    ensures key !in row ==> v == default
    ensures key in row ==> v == row[key]
  {
    if key in row then row[key] else default
  }

  /** Python's `str(v)` (`quoted == false`) and `repr(v)` (`quoted == true`); the two differ
      only on strings, and containers show their elements with `repr`. */
  function Render(v: JsonValue, quoted: bool): string
    decreases v
  {
    match v
    case JNull => "None"
    case JBool(b) => if b then "True" else "False"
    case JInt(i) => IntToString(i)
    case JString(s) => if quoted then "'" + s + "'" else s
    case JArray(items) =>
      "[" + Join(seq(|items|, k requires 0 <= k < |items| => Render(items[k], true))) + "]"
    case JObject(fields) =>
      "{" + Join(seq(|fields|, k requires 0 <= k < |fields| =>
                   "'" + fields[k].0 + "': " + Render(fields[k].1, true))) + "}"
  }

  /** `", ".join(parts)`. */
  function Join(parts: seq<string>): string
  {
    if parts == [] then ""
    else if |parts| == 1 then parts[0]
    else Join(parts[..|parts| - 1]) + ", " + parts[|parts| - 1]
  }

  /** Python's `str(v)`. */
  function Str(v: JsonValue): string
  {
    Render(v, false)
  }

  /** `str(v)` returns a string value unchanged, and is empty only for the empty string:
      every other value, falsy ones included (`None`, `0`, `[]`, `{}`), renders to text. */
  lemma StrSpec(v: JsonValue)
    ensures v.JString? ==> Str(v) == v.s
    ensures Str(v) == "" <==> v == JString("")
  {
  }

  /** The values that pass a truthiness test have non-empty `str()`. */
  lemma TruthyStrNonEmpty(v: JsonValue)
    requires Truthy(v)
    ensures Str(v) != ""
  {
    StrSpec(v);
  }
}
