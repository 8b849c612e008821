/** JSON values as `serde_json` holds them: objects are maps iterated in key order. */
module Json {
  import opened Wrappers
  import Order
  import Text
  import Positional

  /** A number is its printed text and whether it compares equal to zero. */
  datatype Value =
    | Null
    | Bool(b: bool)
    | Num(text: string, isZero: bool)
    | Str(s: string)
    | Arr(items: seq<Value>)
    | Obj(fields: map<string, Value>)

  const EMPTY_OBJECT := Obj(map[])

  function FromNat(n: nat): Value {
    Num(Positional.Decimal(n), n == 0)
  }

  /** `Value::get` with a string index: only objects have members. */
  function Get(v: Value, key: string): Option<Value> {
    if v.Obj? && key in v.fields then Some(v.fields[key]) else None
  }

  function HexDigit(n: nat): char
    requires n < 16
  {
    "0123456789abcdef"[n]
  }

  function EscapeChar(c: char): string {
    if c == '"' then "\\\""
    else if c == '\\' then "\\\\"
    else if c == '\U{08}' then "\\b"
    else if c == '\U{09}' then "\\t"
    else if c == '\U{0A}' then "\\n"
    else if c == '\U{0C}' then "\\f"
    else if c == '\U{0D}' then "\\r"
    else if c < ' ' then
      "\\u00" + [HexDigit(c as int / 16), HexDigit(c as int % 16)]
    else [c]
  }

  function EscapeString(s: string): string {
    if s == "" then "" else EscapeChar(s[0]) + EscapeString(s[1..])
  }

  function QuoteString(s: string): string {
    "\"" + EscapeString(s) + "\""
  }

  /** The compact text of a value (`Value::to_string`). */
  function ToText(v: Value): string {
    match v
    case Null => "null"
    case Bool(b) => if b then "true" else "false"
    case Num(text, _) => text
    case Str(s) => QuoteString(s)
    case Arr(items) =>
      "[" + Text.Join(seq(|items|, i requires 0 <= i < |items| => ToText(items[i])), ",") + "]"
    case Obj(fields) =>
      var keys := Order.SortedKeys(fields.Keys);
      assert forall i | 0 <= i < |keys| :: keys[i] in fields;
      "{" + Text.Join(seq(|keys|, i requires 0 <= i < |keys| =>
        QuoteString(keys[i]) + ":" + ToText(fields[keys[i]])), ",") + "}"
  }
}
