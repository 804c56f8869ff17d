/**
 JSON text as the desktop application writes and reads it: the canonical printers that feed every
 digest, and a parser for the grammar of RFC 8259, lone surrogates excepted, that stands for `JSON.parse`.

 A number is kept as its decimal text, because formatting a double is not part of this model.
 A string is a sequence of Unicode scalar values, so a lone surrogate cannot occur in it.
 */
module Json {

  datatype Option<+T> = None | Some(value: T)

  datatype Json =
    | Null
    | Bool(b: bool)
    | Num(lexeme: string)
    | Str(s: string)
    | Arr(items: seq<Json>)
    | Obj(fields: seq<Field>)

  /** Fields are kept in the insertion order of the JavaScript object. */
  datatype Field = Field(key: string, value: Json)

  function Keys(fields: seq<Field>): (ks: seq<string>)
    ensures |ks| == |fields|
    ensures forall i :: 0 <= i < |fields| ==> ks[i] == fields[i].key
  {
    seq(|fields|, i requires 0 <= i < |fields| => fields[i].key)
  }

  ghost predicate DistinctKeys(fields: seq<Field>) {
    forall i, j :: 0 <= i < j < |fields| ==> fields[i].key != fields[j].key
  }

  // ---------------------------------------------------------------- numbers

  predicate IsDigit(c: char) { '0' <= c <= '9' }

  predicate IsNumberChar(c: char) {
    IsDigit(c) || c == '-' || c == '+' || c == '.' || c == 'e' || c == 'E'
  }

  function SkipDigits(s: string): (r: string)
    ensures |r| <= |s|
  {
    if s != "" && IsDigit(s[0]) then SkipDigits(s[1..]) else s
  }

  predicate ExponentText(s: string) {
    var t := if s != "" && (s[0] == '+' || s[0] == '-') then s[1..] else s;
    t != "" && SkipDigits(t) == ""
  }

  predicate AfterFraction(s: string) {
    s == "" || ((s[0] == 'e' || s[0] == 'E') && ExponentText(s[1..]))
  }

  predicate AfterInteger(s: string) {
    if s != "" && s[0] == '.' then
      |s| > 1 && IsDigit(s[1]) && AfterFraction(SkipDigits(s[1..]))
    else
      AfterFraction(s)
  }

  /** The `number` production of RFC 8259, section 6. */
  predicate IsNumberText(s: string) {
    && (forall i :: 0 <= i < |s| ==> IsNumberChar(s[i]))
    && var t := if s != "" && s[0] == '-' then s[1..] else s;
    && t != ""
    && IsDigit(t[0])
    && AfterInteger(if t[0] == '0' then t[1..] else SkipDigits(t))
  }

  /** The longest prefix made of number characters. */
  function NumberSpan(s: string): (n: nat)
    ensures n <= |s|
  {
    if s != "" && IsNumberChar(s[0]) then 1 + NumberSpan(s[1..]) else 0
  }

  // ---------------------------------------------------------------- validity

  /** What a JavaScript value must satisfy to have a JSON text: finite numbers and distinct keys. */
  predicate WellFormed(v: Json) {
    match v
    case Num(lexeme) => IsNumberText(lexeme)
    case Arr(items) => forall i :: 0 <= i < |items| ==> WellFormed(items[i])
    case Obj(fields) =>
      && (forall i, j :: 0 <= i < j < |fields| ==> fields[i].key != fields[j].key)
      && (forall i :: 0 <= i < |fields| ==> WellFormed(fields[i].value))
    case _ => true
  }

  // ---------------------------------------------------------------- printing

  /** `Plain` is `JSON.stringify`; `Go` adds the five escapes of Go's encoding/json. */
  datatype Escapes = Plain | Go

  function HexDigit(d: nat): char
    requires d < 16
  {
    if d < 10 then ('0' as int + d) as char else ('a' as int + (d - 10)) as char
  }

  function UnicodeEscape(c: char): string
    requires (c as int) < 0x10000
  {
    var n := c as int;
    "\\u" + [HexDigit(n / 0x1000), HexDigit(n / 0x100 % 0x10), HexDigit(n / 0x10 % 0x10), HexDigit(n % 0x10)]
  }

  predicate GoEscaped(c: char) {
    c == '<' || c == '>' || c == '&' || c == '\U{2028}' || c == '\U{2029}'
  }

  function EscapeChar(c: char, e: Escapes): (r: string)
    ensures |r| > 0
  {
    if c == '"' then "\\\""
    else if c == '\\' then "\\\\"
    else if c == '\U{0008}' then "\\b"
    else if c == '\U{000c}' then "\\f"
    else if c == '\n' then "\\n"
    else if c == '\r' then "\\r"
    else if c == '\t' then "\\t"
    else if (c as int) < 0x20 then UnicodeEscape(c)
    else if e == Go && GoEscaped(c) then UnicodeEscape(c)
    else [c]
  }

  function EscapeChars(s: string, e: Escapes): string {
    if s == "" then "" else EscapeChar(s[0], e) + EscapeChars(s[1..], e)
  }

  function PrintString(s: string, e: Escapes): string {
    "\"" + EscapeChars(s, e) + "\""
  }

  function Print(v: Json, e: Escapes): (r: string)
    decreases v, 1
  {
    match v
    case Null => "null"
    case Bool(b) => if b then "true" else "false"
    case Num(lexeme) => lexeme
    case Str(s) => PrintString(s, e)
    case Arr(items) => "[" + PrintItems(items, e) + "]"
    case Obj(fields) => "{" + PrintFields(fields, e) + "}"
  }

  function PrintItems(items: seq<Json>, e: Escapes): string
    decreases items, 0
  {
    if items == [] then ""
    else if |items| == 1 then Print(items[0], e)
    else Print(items[0], e) + "," + PrintItems(items[1..], e)
  }

  function PrintField(f: Field, e: Escapes): string
    decreases f, 2
  {
    PrintString(f.key, e) + ":" + Print(f.value, e)
  }

  function PrintFields(fields: seq<Field>, e: Escapes): string
    decreases fields, 0
  {
    if fields == [] then ""
    else if |fields| == 1 then PrintField(fields[0], e)
    else PrintField(fields[0], e) + "," + PrintFields(fields[1..], e)
  }

  // ---------------------------------------------------------------- parsing

  predicate IsSpace(c: char) { c == ' ' || c == '\t' || c == '\n' || c == '\r' }

  function SkipSpace(s: string): (r: string)
    ensures |r| <= |s|
    ensures r == "" || !IsSpace(r[0])
  {
    if s != "" && IsSpace(s[0]) then SkipSpace(s[1..]) else s
  }

  function HexValue(c: char): (r: int)
    ensures -1 <= r < 16
  {
    if '0' <= c <= '9' then c as int - '0' as int
    else if 'a' <= c <= 'f' then c as int - 'a' as int + 10
    else if 'A' <= c <= 'F' then c as int - 'A' as int + 10
    else -1
  }

  /** The number that four hexadecimal digits stand for. */
  function HexUnit(h: string): (r: Option<int>)
    requires |h| == 4
    ensures r.Some? ==> 0 <= r.value < 0x10000
  {
    var a, b, c, d := HexValue(h[0]), HexValue(h[1]), HexValue(h[2]), HexValue(h[3]);
    if a < 0 || b < 0 || c < 0 || d < 0 then None else Some(a * 0x1000 + b * 0x100 + c * 0x10 + d)
  }

  /** A `u` escape, or two of them that are a surrogate pair; a surrogate alone is refused. */
  function ParseUnicode(s: string): (r: Option<(char, string)>)
    requires |s| >= 6
    ensures r.Some? ==> |r.value.1| < |s|
  {
    var high := HexUnit(s[2..6]);
    if high.None? then None
    else if !(0xD800 <= high.value < 0xE000) then Some((high.value as char, s[6..]))
    else if high.value >= 0xDC00 || |s| < 12 || s[6] != '\\' || s[7] != 'u' then None
    else
      var low := HexUnit(s[8..12]);
      if low.None? || !(0xDC00 <= low.value < 0xE000) then None
      else Some(((0x10000 + (high.value - 0xD800) * 0x400 + (low.value - 0xDC00)) as char, s[12..]))
  }

  function SimpleEscape(c: char): Option<char> {
    if c == '"' || c == '\\' || c == '/' then Some(c)
    else if c == 'b' then Some('\U{0008}')
    else if c == 'f' then Some('\U{000c}')
    else if c == 'n' then Some('\n')
    else if c == 'r' then Some('\r')
    else if c == 't' then Some('\t')
    else None
  }

  /** One character of a string literal, with what follows it. */
  function ParseChar(s: string): (r: Option<(char, string)>)
    requires s != ""
    ensures r.Some? ==> |r.value.1| < |s|
  {
    if s[0] != '\\' then
      if (s[0] as int) < 0x20 then None else Some((s[0], s[1..]))
    else if |s| == 1 then None
    else if s[1] == 'u' then
      if |s| < 6 then None else ParseUnicode(s)
    else
      match SimpleEscape(s[1]) { case None => None case Some(c) => Some((c, s[2..])) }
  }

  /** The rest of a string literal after its opening quote. */
  function ParseChars(s: string): (r: Option<(string, string)>)
    ensures r.Some? ==> |r.value.1| < |s|
    decreases |s|
  {
    if s == "" then None
    else if s[0] == '"' then Some(("", s[1..]))
    else
      match ParseChar(s)
      case None => None
      case Some((c, rest)) =>
        match ParseChars(rest)
        case None => None
        case Some((cs, tail)) => Some(([c] + cs, tail))
  }

  function ParseWord(s: string, word: string, v: Json): (r: Option<(Json, string)>)
    requires word != ""
    ensures r.Some? ==> |r.value.1| < |s|
  {
    if |s| >= |word| && s[..|word|] == word then Some((v, s[|word|..])) else None
  }

  function ParseNumber(s: string): (r: Option<(Json, string)>)
    ensures r.Some? ==> |r.value.1| < |s|
  {
    var n := NumberSpan(s);
    if IsNumberText(s[..n]) then Some((Num(s[..n]), s[n..])) else None
  }

  function IndexOfKey(fields: seq<Field>, key: string): (r: int)
    ensures -1 <= r < |fields|
    ensures r >= 0 ==> fields[r].key == key
    ensures r < 0 ==> forall i :: 0 <= i < |fields| ==> fields[i].key != key
  {
    if fields == [] then -1
    else if fields[0].key == key then 0
    else
      var r := IndexOfKey(fields[1..], key);
      if r < 0 then -1 else r + 1
  }

  /** A repeated key keeps its first position and its last value. */
  function PutFirst(key: string, value: Json, fields: seq<Field>): seq<Field> {
    var i := IndexOfKey(fields, key);
    if i < 0 then [Field(key, value)] + fields
    else [fields[i]] + fields[..i] + fields[i + 1..]
  }

  function ParseValue(s0: string): (r: Option<(Json, string)>)
    ensures r.Some? ==> |r.value.1| < |s0|
    decreases |s0|, 1
  {
    var s := SkipSpace(s0);
    if s == "" then None
    else if s[0] == '"' then
      match ParseChars(s[1..]) { case None => None case Some((cs, rest)) => Some((Str(cs), rest)) }
    else if s[0] == '[' then
      var t := SkipSpace(s[1..]);
      if t != "" && t[0] == ']' then Some((Arr([]), t[1..]))
      else match ParseItems(t) { case None => None case Some((vs, rest)) => Some((Arr(vs), rest)) }
    else if s[0] == '{' then
      var t := SkipSpace(s[1..]);
      if t != "" && t[0] == '}' then Some((Obj([]), t[1..]))
      else match ParseFields(t) { case None => None case Some((fs, rest)) => Some((Obj(fs), rest)) }
    else if s[0] == 't' then ParseWord(s, "true", Bool(true))
    else if s[0] == 'f' then ParseWord(s, "false", Bool(false))
    else if s[0] == 'n' then ParseWord(s, "null", Null)
    else ParseNumber(s)
  }

  /** One or more values separated by commas, up to and including the closing bracket. */
  function ParseItems(s: string): (r: Option<(seq<Json>, string)>)
    ensures r.Some? ==> |r.value.1| < |s|
    decreases |s|, 2
  {
    match ParseValue(s)
    case None => None
    case Some((v, rest)) =>
      var t := SkipSpace(rest);
      if t == "" then None
      else if t[0] == ']' then Some(([v], t[1..]))
      else if t[0] == ',' then
        match ParseItems(t[1..]) { case None => None case Some((vs, tail)) => Some(([v] + vs, tail)) }
      else None
  }

  /** A key and the text after its colon. */
  function ParseKey(s0: string): (r: Option<(string, string)>)
    ensures r.Some? ==> |r.value.1| < |s0|
  {
    var s := SkipSpace(s0);
    if s == "" || s[0] != '"' then None
    else
      match ParseChars(s[1..])
      case None => None
      case Some((key, rest)) =>
        var t := SkipSpace(rest);
        if t != "" && t[0] == ':' then Some((key, t[1..])) else None
  }

  /** One or more members separated by commas, up to and including the closing brace. */
  function ParseFields(s: string): (r: Option<(seq<Field>, string)>)
    ensures r.Some? ==> |r.value.1| < |s|
    decreases |s|, 2
  {
    match ParseKey(s)
    case None => None
    case Some((key, afterColon)) =>
      match ParseValue(afterColon)
      case None => None
      case Some((v, rest)) =>
        var t := SkipSpace(rest);
        if t == "" then None
        else if t[0] == '}' then Some(([Field(key, v)], t[1..]))
        else if t[0] == ',' then
          match ParseFields(t[1..]) {
            case None => None
            case Some((fs, tail)) => Some((PutFirst(key, v, fs), tail))
          }
        else None
  }

  /** `JSON.parse`: one value with nothing but white space around it. */
  function Parse(s: string): Option<Json> {
    match ParseValue(s)
    case Some((v, rest)) => if SkipSpace(rest) == "" then Some(v) else None
    case None => None
  }
}
