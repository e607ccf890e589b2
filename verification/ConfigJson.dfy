/**
 Configuration trees, their printer and the recursive-descent parser, as functions on texts.
 A parse function takes the text and the cursor position and returns the position it leaves.
 */
module ConfigJson {
  import opened Text

  datatype Value =
    | Null
    | Bool(b: bool)
    | Int(n: int)
    | Double(text: string)      // the digits only; their floating-point value is not modelled
    | Str(s: string)
    | List(items: seq<Value>)
    | Map(entries: seq<Entry>)  // in key order, as std::map iterates

  datatype Entry = Entry(key: string, value: Value)

  datatype Parsed<T> = Ok(value: T, next: nat) | Err(message: string)

  const INT64_MAX: int := 0x7FFF_FFFF_FFFF_FFFF
  const INT64_MIN: int := -0x8000_0000_0000_0000

  // ---------- keys ----------

  /** `std::map::emplace`: an existing key keeps its value. */
  function Emplace(entries: seq<Entry>, e: Entry): seq<Entry> {
    if entries == [] then [e]
    else if entries[0].key == e.key then entries
    else if Less(e.key, entries[0].key) then [e] + entries
    else [entries[0]] + Emplace(entries[1..], e)
  }

  // ---------- printing ----------

  function Hex(d: int): char
    requires 0 <= d < 16
  {
    if d < 10 then '0' + (d as char) else 'a' + ((d - 10) as char)
  }

  function EscapeChar(c: char): string {
    if c == '"' then "\\\""
    else if c == '\\' then "\\\\"
    else if c as int == 8 then "\\b"
    else if c as int == 12 then "\\f"
    else if c == '\n' then "\\n"
    else if c == '\r' then "\\r"
    else if c == '\t' then "\\t"
    else if c as int < 32 then "\\u00" + [Hex(c as int / 16), Hex(c as int % 16)]
    else [c]
  }

  function Escape(s: string): string {
    if s == "" then "" else EscapeChar(s[0]) + Escape(s[1..])
  }

  function Digits(n: nat): (s: string)
    ensures s != "" && forall i :: 0 <= i < |s| ==> '0' <= s[i] <= '9'
  {
    (if n < 10 then "" else Digits(n / 10)) + ['0' + ((n % 10) as char)]
  }

  function IntText(n: int): string {
    if n < 0 then "-" + Digits(-n) else Digits(n)
  }

  function Spaces(indent: nat): (s: string)
    ensures forall i :: 0 <= i < |s| ==> IsSpace(s[i])
  {
    if indent == 0 then "" else "  " + Spaces(indent - 1)
  }

  function Dump(v: Value, indent: nat): string
    decreases v
  {
    match v
    case Null => "null"
    case Bool(b) => if b then "true" else "false"
    case Int(n) => IntText(n)
    case Double(text) => text
    case Str(s) => "\"" + Escape(s) + "\""
    case List(items) => if items == [] then "[]" else "[" + ("\n" + DumpItems(items, indent))
    case Map(entries) => if entries == [] then "{}" else "{" + ("\n" + DumpEntries(entries, indent))
  }

  /** The elements, each on its line, and the closing bracket. */
  function DumpItems(items: seq<Value>, indent: nat): string
    decreases items
  {
    if items == [] then Spaces(indent) + "]"
    else Spaces(indent) + "  " + (Dump(items[0], indent + 1) + ((if |items| > 1 then "," else "") + ("\n" + DumpItems(items[1..], indent))))
  }

  /** The entries, each on its line, and the closing brace. */
  function DumpEntries(entries: seq<Entry>, indent: nat): string
    requires entries != []
    decreases entries
  {
    Spaces(indent) + "  " + ("\"" + (entries[0].key + ("\"" + (": " + (Dump(entries[0].value, indent + 1) +
    if |entries| > 1 then "," + ("\n" + DumpEntries(entries[1..], indent)) else "\n" + (Spaces(indent) + "}"))))))
  }

  /** What follows the value of the first entry. */
  function AfterValue(entries: seq<Entry>, indent: nat): string
    requires entries != []
  {
    if |entries| > 1 then "," + ("\n" + DumpEntries(entries[1..], indent)) else "\n" + (Spaces(indent) + "}")
  }

  // ---------- parsing ----------

  predicate IsSpace(c: char) {
    c == ' ' || c == '\t' || c == '\n' || c == '\r'
  }

  function SkipWs(s: string, i: nat): (r: nat)
    requires i <= |s|
    ensures i <= r <= |s|
    decreases |s| - i
  {
    if i < |s| && IsSpace(s[i]) then SkipWs(s, i + 1) else i
  }

  function HexValue(c: char): int {
    if '0' <= c <= '9' then c as int - '0' as int
    else if 'a' <= c <= 'f' then c as int - 'a' as int + 10
    else if 'A' <= c <= 'F' then c as int - 'A' as int + 10
    else -1
  }

  /** The bytes of a code point up to 0xFFFF. */
  function Utf8(cp: int): (s: string)
    requires 0 <= cp < 0x1_0000
    ensures 1 <= |s| <= 3
  {
    if cp < 0x80 then [cp as char]
    else if cp < 0x800 then [(0xC0 + cp / 64) as char, (0x80 + cp % 64) as char]
    else [(0xE0 + cp / 4096) as char, (0x80 + (cp / 64) % 64) as char, (0x80 + cp % 64) as char]
  }

  /** What follows a backslash: the decoded bytes. */
  function Unescape(s: string, i: nat): (r: Parsed<string>)
    requires i < |s|
    ensures r.Ok? ==> i < r.next <= |s| && |r.value| <= r.next - i
  {
    match s[i]
    case 'b' => Ok([8 as char], i + 1)
    case 'f' => Ok([12 as char], i + 1)
    case 'n' => Ok("\n", i + 1)
    case 'r' => Ok("\r", i + 1)
    case 't' => Ok("\t", i + 1)
    case 'u' =>
      if |s| < i + 5 then Err("bad unicode")
      else
        var a, b, c, d := HexValue(s[i + 1]), HexValue(s[i + 2]), HexValue(s[i + 3]), HexValue(s[i + 4]);
        if a < 0 || b < 0 || c < 0 || d < 0 then Err("bad unicode")
        else Ok(Utf8(((a * 16 + b) * 16 + c) * 16 + d), i + 5)
    case _ => Ok([s[i]], i + 1)
  }

  function Prepend(piece: string, p: Parsed<string>): Parsed<string> {
    match p case Err(m) => Err(m) case Ok(x, next) => Ok(piece + x, next)
  }

  /** The inside of a string literal, up to and including the closing quote. */
  function Chars(s: string, i: nat): (r: Parsed<string>)
    requires i <= |s|
    ensures r.Ok? ==> i < r.next <= |s|
    decreases |s| - i
  {
    if i == |s| then Err("unterminated string")
    else if s[i] == '"' then Ok("", i + 1)
    else if s[i] == '\\' && i + 1 < |s| then
      match Unescape(s, i + 1)
      case Err(m) => Err(m)
      case Ok(piece, next) => Prepend(piece, Chars(s, next))
    else Prepend([s[i]], Chars(s, i + 1))
  }

  function ParseString(s: string, i: nat): (r: Parsed<string>)
    requires i <= |s|
    ensures r.Ok? ==> i < r.next <= |s|
  {
    var at := SkipWs(s, i);
    if at == |s| || s[at] != '"' then Err("expected string") else Chars(s, at + 1)
  }

  predicate IsNumberChar(c: char) {
    IsDigit(c) || c == '.' || c == 'e' || c == 'E' || c == '-' || c == '+'
  }

  function NumberEnd(s: string, i: nat): (n: nat)
    requires i <= |s|
    ensures i <= n <= |s|
    decreases |s| - i
  {
    if i < |s| && IsNumberChar(s[i]) then NumberEnd(s, i + 1) else i
  }

  /** The end of the digits that start at `i`. */
  function DigitEnd(s: string, i: nat): (n: nat)
    requires i <= |s|
    ensures i <= n <= |s| && forall k :: i <= k < n ==> IsDigit(s[k])
    decreases |s| - i
  {
    if i < |s| && IsDigit(s[i]) then DigitEnd(s, i + 1) else i
  }

  function DigitsValue(s: string): int
    requires forall i :: 0 <= i < |s| ==> IsDigit(s[i])
  {
    if s == "" then 0 else DigitsValue(s[..|s| - 1]) * 10 + (s[|s| - 1] as int - '0' as int)
  }

  datatype Option<T> = None | Some(value: T)

  /** `std::stoll`: a sign, the leading digits, 64 bits; None stands for its exceptions. */
  function Stoll(num: string): Option<int> {
    var start := if num != "" && (num[0] == '-' || num[0] == '+') then 1 else 0;
    var end := DigitEnd(num, start);
    if end == start then None
    else
      var magnitude := DigitsValue(num[start..end]);
      var v := if num[0] == '-' then -magnitude else magnitude;
      if INT64_MIN <= v <= INT64_MAX then Some(v) else None
  }

  /** `decimal` says which texts std::stod accepts. */
  function ParseNumber(decimal: string -> bool, s: string, i: nat): (r: Parsed<Value>)
    requires i <= |s|
    ensures r.Ok? ==> i < r.next <= |s|
  {
    var start := SkipWs(s, i);
    var end := NumberEnd(s, start);
    var num := s[start..end];
    if num == "" then Err("bad number")
    else if '.' in num || 'e' in num || 'E' in num then
      if decimal(num) then Ok(Double(num), end) else Err("bad number")
    else
      match Stoll(num)
      case Some(v) => Ok(Int(v), end)
      case None => Err("bad number")
  }

  function ParseLiteral(s: string, i: nat, lit: string, v: Value): (r: Parsed<Value>)
    requires i <= |s| && lit != ""
    ensures r.Ok? ==> i < r.next <= |s|
  {
    var at := SkipWs(s, i);
    if At(s, at, lit) then Ok(v, at + |lit|) else Err("bad literal")
  }

  predicate Opens(s: string, i: nat, c: char) {
    i < |s| && s[i] == c
  }

  function ParseValue(decimal: string -> bool, s: string, i: nat): (r: Parsed<Value>)
    requires i <= |s|
    ensures r.Ok? ==> i < r.next <= |s|
    decreases |s| - i, 2
  {
    var at := SkipWs(s, i);
    if at == |s| then Err("unexpected eof")
    else if s[at] == '"' then
      match ParseString(s, at) case Err(m) => Err(m) case Ok(x, next) => Ok(Str(x), next)
    else if s[at] == '{' then ParseObject(decimal, s, at)
    else if s[at] == '[' then ParseArray(decimal, s, at)
    else if s[at] == 't' then ParseLiteral(s, at, "true", Bool(true))
    else if s[at] == 'f' then ParseLiteral(s, at, "false", Bool(false))
    else if s[at] == 'n' then ParseLiteral(s, at, "null", Null)
    else ParseNumber(decimal, s, at)
  }

  function ParseArray(decimal: string -> bool, s: string, i: nat): (r: Parsed<Value>)
    requires i < |s|
    ensures r.Ok? ==> i < r.next <= |s|
    decreases |s| - i, 1
  {
    var inside := SkipWs(s, i + 1);
    if Opens(s, inside, ']') then Ok(List([]), inside + 1)
    else match ParseItems(decimal, s, inside) case Err(m) => Err(m) case Ok(items, next) => Ok(List(items), next)
  }

  /** What stands behind an element: a comma, the closing character, or neither. */
  datatype Separator = Comma(next: nat) | Close(next: nat) | Neither

  function SeparatorAt(s: string, end: nat, close: char): (r: Separator)
    requires end <= |s|
    ensures !r.Neither? ==> end < r.next <= |s|
  {
    var sep := SkipWs(s, end);
    if Opens(s, sep, ',') then Comma(sep + 1) else if Opens(s, sep, close) then Close(sep + 1) else Neither
  }

  function ParseItems(decimal: string -> bool, s: string, i: nat): (r: Parsed<seq<Value>>)
    requires i <= |s|
    ensures r.Ok? ==> i < r.next <= |s|
    decreases |s| - i, 3
  {
    match ParseValue(decimal, s, i)
    case Err(m) => Err(m)
    case Ok(v, end) =>
      match SeparatorAt(s, end, ']')
      case Comma(more) => (match ParseItems(decimal, s, more) case Err(m) => Err(m) case Ok(vs, next) => Ok([v] + vs, next))
      case Close(next) => Ok([v], next)
      case Neither => Err("expected ']'")
  }

  function ParseObject(decimal: string -> bool, s: string, i: nat): (r: Parsed<Value>)
    requires i < |s|
    ensures r.Ok? ==> i < r.next <= |s|
    decreases |s| - i, 1
  {
    var inside := SkipWs(s, i + 1);
    if Opens(s, inside, '}') then Ok(Map([]), inside + 1)
    else match ParseEntries(decimal, s, inside, []) case Err(m) => Err(m) case Ok(entries, next) => Ok(Map(entries), next)
  }

  /** A key and its colon. */
  function ParseKey(s: string, i: nat): (r: Parsed<string>)
    requires i <= |s|
    ensures r.Ok? ==> i < r.next <= |s|
  {
    match ParseString(s, i)
    case Err(_) => Err("expected key string")
    case Ok(k, end) =>
      var colon := SkipWs(s, end);
      if Opens(s, colon, ':') then Ok(k, colon + 1) else Err("expected ':'")
  }

  function ParseEntries(decimal: string -> bool, s: string, i: nat, obj: seq<Entry>): (r: Parsed<seq<Entry>>)
    requires i <= |s|
    ensures r.Ok? ==> i < r.next <= |s|
    decreases |s| - i, 3
  {
    match ParseKey(s, i)
    case Err(m) => Err(m)
    case Ok(k, value) =>
      match ParseValue(decimal, s, value)
      case Err(m) => Err(m)
      case Ok(v, end) =>
        match SeparatorAt(s, end, '}')
        case Comma(more) => ParseEntries(decimal, s, more, Emplace(obj, Entry(k, v)))
        case Close(next) => Ok(Emplace(obj, Entry(k, v)), next)
        case Neither => Err("expected '}'")
  }

  /** `parse_minimal_json`: one value from the start; what follows it is not looked at. */
  function ParseJson(decimal: string -> bool, s: string): Parsed<Value> {
    ParseValue(decimal, s, 0)
  }

  function DumpJson(v: Value): string {
    Dump(v, 0)
  }
}
