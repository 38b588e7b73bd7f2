/** JSON values and a reader of JSON texts without insignificant white space, written from
    sections 2 to 7 of RFC 8259 and knowing nothing of the printer. Values are what decoding a
    request body yields, plus one constructor for the Go values `json.Marshal` rejects (NaN,
    infinities, channels, functions). A number is identified by its token. Escaped surrogate
    pairs are not read: code points above U+FFFF stand for themselves in the texts read here. */
module JsonValues {
  import opened Results

  predicate IsNumberChar(c: char) {
    '0' <= c <= '9' || c == '-' || c == '+' || c == '.' || c == 'e' || c == 'E'
  }

  predicate IsNumberToken(t: string) {
    t != "" && forall i | 0 <= i < |t| :: IsNumberChar(t[i])
  }

  type NumberToken = t: string | IsNumberToken(t) witness "0"

  datatype Json =
    | Null
    | Bool(b: bool)
    | Num(token: NumberToken)
    | Str(s: string)
    | List(elems: seq<Json>)
    | Map(members: map<string, Json>)
    | Unsupported

  // ----- string literals (section 7) -----

  /** What the letter after a backslash stands for. */
  function Letter(c: char): Option<char> {
    match c
    case '"' => Some(34 as char)
    case '\\' => Some(92 as char)
    case '/' => Some(47 as char)
    case 'b' => Some(8 as char)
    case 'f' => Some(12 as char)
    case 'n' => Some(10 as char)
    case 'r' => Some(13 as char)
    case 't' => Some(9 as char)
    case _ => None
  }

  predicate IsHex(c: char) {
    '0' <= c <= '9' || 'a' <= c <= 'f' || 'A' <= c <= 'F'
  }

  function HexValue(c: char): nat
    requires IsHex(c)
  {
    if c <= '9' then c as int - 48 else if c <= 'F' then c as int - 55 else c as int - 87
  }

  /** The code point that four hex digits name, unless they are no digits or name a surrogate. */
  function CodePoint(h: string): Option<char>
    requires |h| == 4
  {
    if IsHex(h[0]) && IsHex(h[1]) && IsHex(h[2]) && IsHex(h[3]) then
      var n := 4096 * HexValue(h[0]) + 256 * HexValue(h[1]) + 16 * HexValue(h[2]) + HexValue(h[3]);
      if n < 0xD800 || 0xE000 <= n < 0x10000 then Some(n as char) else None
    else None
  }

  /** The first character of a literal's body: what it stands for and how much text it takes. */
  function ReadChar(s: string): Option<(char, nat)>
    requires s != "" && s[0] != '"'
  {
    if s[0] == '\\' then
      if |s| >= 6 && s[1] == 'u' then
        var c := CodePoint(s[2..6]);
        if c.Some? then Some((c.value, 6)) else None
      else if |s| >= 2 && Letter(s[1]).Some? then Some((Letter(s[1]).value, 2))
      else None
    else if s[0] as int < 32 then None
    else Some((s[0], 1))
  }

  /** Reads a literal after its opening quote: its value and the text behind its closing quote. */
  function ReadBody(s: string): (r: Option<(string, string)>)
    ensures r.Some? ==> |r.value.1| < |s|
    decreases |s|
  {
    if s == "" then None
    else if s[0] == '"' then Some(("", s[1..]))
    else
      var c := ReadChar(s);
      if c.None? then None
      else
        var rest := ReadBody(s[c.value.1..]);
        if rest.None? then None else Some(([c.value.0] + rest.value.0, rest.value.1))
  }

  // ----- values (sections 3 to 6) -----

  function NumberLength(s: string): (n: nat)
    ensures n <= |s| && (n > 0 ==> IsNumberToken(s[..n]))
  {
    if s != "" && IsNumberChar(s[0]) then 1 + NumberLength(s[1..]) else 0
  }

  predicate StartsWith(s: string, literal: string) {
    literal <= s
  }

  function ReadValue(s: string): (r: Option<(Json, string)>)
    ensures r.Some? ==> |r.value.1| < |s|
    decreases |s|, 0
  {
    if s == "" then None
    else if s[0] == '"' then
      var t := ReadBody(s[1..]);
      if t.None? then None else Some((Str(t.value.0), t.value.1))
    else if s[0] == '[' then
      if |s| > 1 && s[1] == ']' then Some((List([]), s[2..]))
      else
        var es := ReadElems(s[1..]);
        if es.None? then None else Some((List(es.value.0), es.value.1))
    else if s[0] == '{' then
      if |s| > 1 && s[1] == '}' then Some((Map(map[]), s[2..]))
      else
        var ms := ReadMembers(s[1..]);
        if ms.None? then None else Some((Map(ms.value.0), ms.value.1))
    else if StartsWith(s, "null") then Some((Null, s[4..]))
    else if StartsWith(s, "true") then Some((Bool(true), s[4..]))
    else if StartsWith(s, "false") then Some((Bool(false), s[5..]))
    else
      var n := NumberLength(s);
      if n == 0 then None else Some((Num(s[..n]), s[n..]))
  }

  /** One or more elements, up to and with the closing bracket. */
  function ReadElems(s: string): (r: Option<(seq<Json>, string)>)
    ensures r.Some? ==> |r.value.1| < |s|
    decreases |s|, 1
  {
    var e := ReadValue(s);
    if e.None? || e.value.1 == "" then None
    else if e.value.1[0] == ']' then Some(([e.value.0], e.value.1[1..]))
    else if e.value.1[0] == ',' then
      var es := ReadElems(e.value.1[1..]);
      if es.None? then None else Some(([e.value.0] + es.value.0, es.value.1))
    else None
  }

  /** One or more members, up to and with the closing brace; of equal names the last one counts. */
  function ReadMembers(s: string): (r: Option<(map<string, Json>, string)>)
    ensures r.Some? ==> |r.value.1| < |s|
    decreases |s|, 1
  {
    if s == "" || s[0] != '"' then None
    else
      var k := ReadBody(s[1..]);
      if k.None? || k.value.1 == "" || k.value.1[0] != ':' then None
      else
        var v := ReadValue(k.value.1[1..]);
        if v.None? || v.value.1 == "" then None
        else if v.value.1[0] == '}' then Some((map[k.value.0 := v.value.0], v.value.1[1..]))
        else if v.value.1[0] == ',' then
          var ms := ReadMembers(v.value.1[1..]);
          if ms.None? then None else Some((map[k.value.0 := v.value.0] + ms.value.0, ms.value.1))
        else None
  }

  /** The value a whole text stands for. */
  function Parse(s: string): Option<Json> {
    var v := ReadValue(s);
    if v.Some? && v.value.1 == "" then Some(v.value.0) else None
  }

  /** The string that the body of a literal stands for. */
  function Unescape(s: string): Option<string> {
    var t := ReadBody(s + "\"");
    if t.Some? && t.value.1 == "" then Some(t.value.0) else None
  }
}
