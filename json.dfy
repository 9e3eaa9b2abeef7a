/** `JSON.stringify` of the flat, string-valued objects the application stores. */
module Json {

  function HexDigit(n: nat): char
    requires n < 16
  {
    if n < 10 then '0' + n as char else 'a' + (n - 10) as char
  }

  /** How `JSON.stringify` writes one character inside a string literal. */
  function EscapeChar(c: char): string {
    if c == '"' then "\\\""
    else if c == '\\' then "\\\\"
    else if c == '\U{08}' then "\\b"
    else if c == '\U{0C}' then "\\f"
    else if c == '\n' then "\\n"
    else if c == '\r' then "\\r"
    else if c == '\t' then "\\t"
    else if c < ' ' then "\\u00" + [HexDigit(c as int / 16), HexDigit(c as int % 16)]
    else [c]
  }

  function EscapeAll(s: string): string {
    if s == [] then [] else EscapeChar(s[0]) + EscapeAll(s[1..])
  }

  /** A JSON string literal for `s`. */
  function Quote(s: string): string {
    "\"" + EscapeAll(s) + "\""
  }

  /** The members `"key":"value"` of an object, separated by commas. */
  function Members(fields: seq<(string, string)>): string {
    if fields == [] then []
    else
      var member := Quote(fields[0].0) + ":" + Quote(fields[0].1);
      if |fields| == 1 then member else member + "," + Members(fields[1..])
  }

  /** `JSON.stringify` of an object whose properties, in order, are `fields`. */
  function StringifyObject(fields: seq<(string, string)>): (r: string)
    ensures r != [] && r[0] == '{'
  {
    "{" + Members(fields) + "}"
  }
}
