/** JSON values, their canonical text, and a parser that undoes it. */
module Json {
  import opened Outcomes
  import opened Sorting
  import opened Decimal
  import S = Strings
  import Utf8

  /** The values of the v1 contract: no floats, and string keys. */
  datatype Value =
    | Null
    | Bool(b: bool)
    | Int(n: int)
    | Str(s: string)
    | Arr(items: seq<Value>)
    | Obj(fields: map<string, Value>)

  // ---------------------------------------------------------------- canonical text

  function HexDigit(d: nat): (c: char)
    requires d < 16
  {
    "0123456789abcdef"[d]
  }

  /** One character inside a JSON string: quote, backslash and control characters are escaped
      (section 7 of RFC 8259), everything else is itself. */
  function EscapeChar(c: char): (e: string)
    ensures 1 <= |e| <= 6
  {
    if c == '"' then "\\\""
    else if c == '\\' then "\\\\"
    else if c == '\n' then "\\n"
    else if c == '\r' then "\\r"
    else if c == '\t' then "\\t"
    else if c as int == 8 then "\\b"
    else if c as int == 12 then "\\f"
    else if c as int < 0x20 then "\\u00" + [HexDigit(c as int / 16), HexDigit(c as int % 16)]
    else [c]
  }

  function Escape(s: string): string {
    if s == "" then "" else EscapeChar(s[0]) + Escape(s[1..])
  }

  function Quote(s: string): string {
    "\"" + Escape(s) + "\""
  }

  function Keys(v: Value): (keys: seq<string>)
    requires v.Obj?
    ensures Elements(keys) == v.fields.Keys && Ascending(keys, S.Leq)
    ensures forall k | k in keys :: k in v.fields
  {
    var keys := S.SortedStrings(v.fields.Keys);
    assert forall k | k in keys :: k in Elements(keys);
    keys
  }

  /** `json.dumps(value, ensure_ascii=False, sort_keys=True, separators=(",", ":"))` */
  function Render(v: Value): string
    decreases v, 1, 0
  {
    match v
    case Null => "null"
    case Bool(b) => if b then "true" else "false"
    case Int(n) => Decimal.Text(n)
    case Str(s) => Quote(s)
    case Arr(items) => "[" + RenderItems(v, 0) + "]"
    case Obj(fields) => "{" + RenderFields(v, Keys(v)) + "}"
  }

  function RenderItems(v: Value, i: nat): string
    requires v.Arr? && i <= |v.items|
    decreases v, 0, |v.items| - i
  {
    if i == |v.items| then ""
    else (if i == 0 then "" else ",") + Render(v.items[i]) + RenderItems(v, i + 1)
  }

  function RenderFields(v: Value, keys: seq<string>): string
    requires v.Obj? && forall k | k in keys :: k in v.fields
    decreases v, 0, |keys|
  {
    if keys == [] then ""
    else
      assert keys[0] in keys;
      Quote(keys[0]) + ":" + Render(v.fields[keys[0]])
      + (if |keys| == 1 then "" else ",") + RenderFields(v, keys[1..])
  }

  /** `canonical_json_bytes` */
  function CanonicalBytes(v: Value): Utf8.Bytes {
    Utf8.Encode(Render(v))
  }

  /** `len(canonical_json_bytes(v))` */
  function Size(v: Value): nat {
    Utf8.Length(Render(v))
  }
}
