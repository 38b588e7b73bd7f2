/** The canonical JSON printer of internal/domain/hash.go, proved against the reader of
    JsonValues. A number is identified by the token `json.Marshal` prints for it. */
module CanonicalJson {
  import opened Results
  import opened Strings
  import opened JsonValues

  /** Every part of `v` is something `json.Marshal` can print. */
  ghost predicate Supported(v: Json) {
    match v
    case List(elems) => forall e <- elems :: Supported(e)
    case Map(m) => forall k <- m :: Supported(m[k])
    case Unsupported => false
    case _ => true
  }

  // ----- strings (section 7 of RFC 8259, with Go's HTML-safe escaping) -----

  function HexDigit(n: nat): char
    requires n < 16
  {
    "0123456789abcdef"[n]
  }

  function Hex4(n: nat): string
    requires n < 0x10000
  {
    [HexDigit(n / 16 / 16 / 16), HexDigit(n / 16 / 16 % 16), HexDigit(n / 16 % 16), HexDigit(n % 16)]
  }

  /** Characters printed as a backslash and one letter. */
  predicate HasShort(c: char) {
    c == '"' || c == '\\' || c == '\n' || c == '\r' || c == '\t' || c as int == 8 || c as int == 12
  }

  function Short(c: char): char {
    if c == '\n' then 'n'
    else if c == '\r' then 'r'
    else if c == '\t' then 't'
    else if c as int == 8 then 'b'
    else if c as int == 12 then 'f'
    else c
  }

  /** Characters printed as a backslash, `u` and four hex digits. */
  predicate HasHex(c: char) {
    c < ' ' || c == '<' || c == '>' || c == '&' || c as int == 0x2028 || c as int == 0x2029
  }

  function EscapeChar(c: char): string {
    if HasShort(c) then ['\\', Short(c)]
    else if HasHex(c) then "\\u" + Hex4(c as int)
    else [c]
  }

  function Escape(s: string): string {
    if s == "" then "" else EscapeChar(s[0]) + Escape(s[1..])
  }

  function Quote(s: string): string {
    "\"" + Escape(s) + "\""
  }

  // ----- the printed text of a value -----

  ghost function Text(v: Json): string
    decreases v, 1, 0
  {
    match v
    case Null => "null"
    case Bool(b) => if b then "true" else "false"
    case Num(t) => t
    case Str(s) => Quote(s)
    case List(elems) => "[" + Join(ElemTexts(elems), ",") + "]"
    case Map(m) => "{" + Join(MemberTexts(v, Ascending(m.Keys)), ",") + "}"
    case Unsupported => ""
  }

  ghost function ElemTexts(elems: seq<Json>): (ts: seq<string>)
    ensures |ts| == |elems|
    decreases elems, 0, 0
  {
    if elems == [] then [] else [Text(elems[0])] + ElemTexts(elems[1..])
  }

  ghost function MemberTexts(v: Json, ks: seq<string>): (ts: seq<string>)
    requires v.Map? && forall k <- ks :: k in v.members
    ensures |ts| == |ks|
    decreases v, 0, |ks|
  {
    if ks == [] then []
    else [Quote(ks[0]) + ":" + Text(v.members[ks[0]])] + MemberTexts(v, ks[1..])
  }

  // ----- string literals are read back -----

  lemma EscapeCharShape(c: char)
    ensures HasShort(c) ==> |EscapeChar(c)| == 2 && EscapeChar(c)[0] == '\\' && EscapeChar(c)[1] == Short(c)
    ensures HasShort(c) ==> Short(c) != 'u' && Short(c) >= ' '
    ensures !HasShort(c) && HasHex(c) ==> |EscapeChar(c)| == 6 && EscapeChar(c)[0] == '\\' && EscapeChar(c)[1] == 'u'
    ensures !HasShort(c) && HasHex(c) ==> EscapeChar(c)[2..] == Hex4(c as int)
    ensures !HasShort(c) && !HasHex(c) ==> EscapeChar(c) == [c] && c != '\\' && c != '"' && c >= ' '
  {
  }

  lemma HexDigitValue(n: nat)
    requires n < 16
    ensures IsHex(HexDigit(n)) && HexValue(HexDigit(n)) == n
  {
  }

  lemma HexDigitLower(n: nat)
    requires n < 16
    ensures !('A' <= HexDigit(n) <= 'F')
  {
  }

  lemma Hex4Lower(n: nat)
    requires n < 0x10000
    ensures forall i :: 0 <= i < 4 ==> !('A' <= Hex4(n)[i] <= 'F')
  {
    HexDigitLower(n / 16 / 16 / 16);
    HexDigitLower(n / 16 / 16 % 16);
    HexDigitLower(n / 16 % 16);
    HexDigitLower(n % 16);
  }

  lemma EscapeOne(c: char)
    ensures Escape([c]) == EscapeChar(c)
  {
    assert [c][1..] == "" && EscapeChar(c) + "" == EscapeChar(c);
  }

  lemma CodePointOfHex4(c: char)
    requires c as int < 0x10000
    ensures CodePoint(Hex4(c as int)) == Some(c)
  {
    var n := c as int;
    HexDigitValue(n / 16 / 16 / 16);
    HexDigitValue(n / 16 / 16 % 16);
    HexDigitValue(n / 16 % 16);
    HexDigitValue(n % 16);
    assert n == 4096 * (n / 16 / 16 / 16) + 256 * (n / 16 / 16 % 16) + 16 * (n / 16 % 16) + n % 16;
  }

  lemma ReadEscapedChar(c: char, t: string)
    ensures var x := EscapeChar(c); (x + t)[0] != '"' && ReadChar(x + t) == Some((c, |x|))
  {
    var x := EscapeChar(c);
    EscapeCharShape(c);
    assert (x + t)[0] == x[0];
    if |x| > 1 { assert (x + t)[1] == x[1]; }
    if !HasShort(c) && HasHex(c) {
      assert (x + t)[2..6] == x[2..];
      CodePointOfHex4(c);
    }
  }

  lemma Assoc(a: string, b: string, c: string)
    ensures a + b + c == a + (b + c)
  {
  }

  lemma {:induction false} ReadEscaped(s: string, r: string)
    ensures ReadBody(Escape(s) + ("\"" + r)) == Some((s, r))
  {
    if s == "" {
      assert Escape(s) + ("\"" + r) == "\"" + r;
    } else {
      var x, t := EscapeChar(s[0]), Escape(s[1..]) + ("\"" + r);
      Assoc(x, Escape(s[1..]), "\"" + r);
      ReadEscapedChar(s[0], t);
      ReadEscaped(s[1..], r);
      assert (x + t)[|x|..] == t && s == [s[0]] + s[1..];
    }
  }

  /** Every string is read back from its escaped form, by a reader with its own table of escapes. */
  lemma UnescapeOfEscape(s: string)
    ensures Unescape(Escape(s)) == Some(s)
  {
    ReadEscaped(s, "");
    assert Escape(s) + ("\"" + "") == Escape(s) + "\"";
  }

  lemma QuoteIsBody(s: string, r: string)
    ensures Quote(s) + r == "\"" + (Escape(s) + ("\"" + r))
  {
    Assoc("\"", Escape(s), "\"");
    Assoc("\"", Escape(s) + "\"", r);
    Assoc(Escape(s), "\"", r);
  }

  lemma ReadQuoted(s: string, r: string)
    ensures var x := Quote(s) + r; x != "" && x[0] == '"' && ReadBody(x[1..]) == Some((s, r))
  {
    QuoteIsBody(s, r);
    ReadEscaped(s, r);
    var y := Escape(s) + ("\"" + r);
    assert ("\"" + y)[1..] == y;
  }

  /** Exactly these characters are not printed as themselves: controls, the quote, the backslash,
      and the five that are escaped for the sake of HTML and JavaScript. */
  lemma PlainIff(c: char)
    ensures Escape([c]) == [c] <==>
      c >= ' ' && c !in {'"', '\\', '<', '>', '&', 0x2028 as char, 0x2029 as char}
  {
    EscapeCharShape(c);
    EscapeOne(c);
  }

  /** The escapes that Go prefers to the six-character form, and the lower case of that form. */
  lemma EscapeForms(c: char)
    ensures |Escape([c])| == 2 <==> c as int in {8, 9, 10, 12, 13, 34, 92}
    ensures Escape([c]) != [c] ==> |Escape([c])| == 2 || |Escape([c])| == 6
    ensures |Escape([c])| == 6 ==> forall i :: 2 <= i < 6 ==> !('A' <= Escape([c])[i] <= 'F')
  {
    EscapeOne(c);
    EscapeCharShape(c);
    if !HasShort(c) && HasHex(c) {
      Hex4Lower(c as int);
      var x := EscapeChar(c);
      forall i | 2 <= i < 6 ensures x[i] == Hex4(c as int)[i - 2] { assert x[i] == x[2..][i - 2]; }
    }
  }

  // ----- values are read back -----

  /** What may follow a value inside a longer text. */
  ghost predicate Follows(r: string) {
    r == "" || r[0] == ',' || r[0] == ']' || r[0] == '}'
  }

  lemma {:induction false} NumberEnds(t: string, r: string)
    requires (forall i :: 0 <= i < |t| ==> IsNumberChar(t[i])) && Follows(r)
    ensures NumberLength(t + r) == |t|
  {
    if t == "" {
      assert t + r == r;
    } else {
      assert (t + r)[1..] == t[1..] + r;
      NumberEnds(t[1..], r);
    }
  }

  lemma ReadNumber(t: NumberToken, r: string)
    requires Follows(r)
    ensures ReadValue(t + r) == Some((Num(t), r))
  {
    NumberEnds(t, r);
    assert (t + r)[0] == t[0] && (t + r)[..|t|] == t && (t + r)[|t|..] == r;
    assert !StartsWith(t + r, "null") && !StartsWith(t + r, "true") && !StartsWith(t + r, "false");
  }

  /** The first character of a printed value tells its constructor apart. */
  lemma TextFirst(v: Json)
    requires Supported(v)
    ensures Text(v) != ""
    ensures v.Null? <==> Text(v)[0] == 'n'
    ensures v == Bool(true) <==> Text(v)[0] == 't'
    ensures v == Bool(false) <==> Text(v)[0] == 'f'
    ensures v.Num? <==> IsNumberChar(Text(v)[0])
    ensures v.Str? <==> Text(v)[0] == '"'
    ensures v.List? <==> Text(v)[0] == '['
    ensures v.Map? <==> Text(v)[0] == '{'
  {
  }

  lemma ReadPlain(v: Json, r: string)
    requires v.Null? || v.Bool?
    ensures ReadValue(Text(v) + r) == Some((v, r))
  {
    var x := Text(v);
    assert (x + r)[0] == x[0] && (x + r)[|x|..] == r && x <= x + r;
    if v.Bool? {
      assert !StartsWith(x + r, "null");
      if !v.b { assert !StartsWith(x + r, "true"); }
    }
  }

  /** The text after the first part of a joined list that `r` ends. */
  ghost function AfterFirst(ts: seq<string>, r: string): string
    requires ts != []
  {
    if |ts| == 1 then r else "," + (Join(ts[1..], ",") + r)
  }

  lemma JoinSplit(ts: seq<string>, r: string)
    requires ts != []
    ensures Join(ts, ",") + r == ts[0] + AfterFirst(ts, r)
  {
  }

  lemma Bracketed(open: char, x: string, close: char, r: string)
    ensures var y := [open] + x + [close] + r; y[0] == open && y[1..] == x + ([close] + r) && |y| > 1
  {
    assert [open] + x + [close] + r == [open] + (x + ([close] + r));
  }

  ghost function Restrict(v: Json, ks: seq<string>): map<string, Json>
    requires v.Map? && forall k <- ks :: k in v.members
  {
    map k | k in ks :: v.members[k]
  }

  /** The text after the first name of a joined list of members that `r` ends. */
  ghost function AfterName(v: Json, ks: seq<string>, r: string): string
    requires v.Map? && ks != [] && forall k <- ks :: k in v.members
  {
    ":" + (Text(v.members[ks[0]]) + AfterFirst(MemberTexts(v, ks), r))
  }

  lemma MemberText(v: Json, ks: seq<string>, r: string)
    requires v.Map? && ks != [] && forall k <- ks :: k in v.members
    ensures Join(MemberTexts(v, ks), ",") + r == Quote(ks[0]) + AfterName(v, ks, r)
  {
    var ts := MemberTexts(v, ks);
    var a, q, x := AfterFirst(ts, r), Quote(ks[0]), Text(v.members[ks[0]]);
    JoinSplit(ts, r);
    Assoc(q + ":", x, a);
    Assoc(q, ":", x + a);
  }

  lemma ReadMembersLast(x: string, k: string, body: string, val: Json, r: string)
    requires x != "" && x[0] == '"' && ReadBody(x[1..]) == Some((k, ":" + body)) && ReadValue(body) == Some((val, "}" + r))
    ensures ReadMembers(x) == Some((map[k := val], r))
  {
    assert (":" + body)[1..] == body && ("}" + r)[1..] == r;
  }

  lemma ReadMembersMore(x: string, k: string, body: string, val: Json, more: string, m: map<string, Json>, r: string)
    requires x != "" && x[0] == '"' && ReadBody(x[1..]) == Some((k, ":" + body))
    requires ReadValue(body) == Some((val, "," + more)) && ReadMembers(more) == Some((m, r))
    ensures ReadMembers(x) == Some((map[k := val] + m, r))
  {
    assert (":" + body)[1..] == body && ("," + more)[1..] == more;
  }

  lemma RestrictCons(v: Json, ks: seq<string>)
    requires v.Map? && ks != [] && forall k <- ks :: k in v.members
    ensures Restrict(v, ks) == map[ks[0] := v.members[ks[0]]] + Restrict(v, ks[1..])
    ensures |ks| == 1 ==> Restrict(v, ks) == map[ks[0] := v.members[ks[0]]]
  {
    assert ks == [ks[0]] + ks[1..];
  }

  lemma AfterMember(v: Json, ks: seq<string>, r: string)
    requires v.Map? && ks != [] && forall k <- ks :: k in v.members
    ensures AfterFirst(MemberTexts(v, ks), r)
      == if |ks| == 1 then r else "," + (Join(MemberTexts(v, ks[1..]), ",") + r)
  {
    assert |ks| > 1 ==> MemberTexts(v, ks)[1..] == MemberTexts(v, ks[1..]);
  }

  /** A printed value is read back from the front of a longer text, and the rest is left over. */
  lemma {:induction false} ReadText(v: Json, r: string)
    requires Supported(v) && Follows(r)
    ensures ReadValue(Text(v) + r) == Some((v, r))
    decreases v, 1, 0
  {
    match v {
      case Num(t) => ReadNumber(t, r);
      case Str(s) => ReadQuoted(s, r);
      case List(elems) => ReadList(elems, r);
      case Map(m) => ReadMap(v, r);
      case _ => ReadPlain(v, r);
    }
  }

  lemma ReadList(es: seq<Json>, r: string)
    requires forall e <- es :: Supported(e)
    ensures ReadValue("[" + Join(ElemTexts(es), ",") + "]" + r) == Some((List(es), r))
    decreases es, 1, 0
  {
    var x := Join(ElemTexts(es), ",");
    Bracketed('[', x, ']', r);
    var y := "[" + x + "]" + r;
    if es == [] {
      assert x == "" && y[1..] == "]" + r && y[2..] == r;
    } else {
      TextFirst(es[0]);
      JoinSplit(ElemTexts(es), "]" + r);
      ReadElemTexts(es, r);
    }
  }

  lemma {:induction false} ReadElemTexts(es: seq<Json>, r: string)
    requires es != [] && forall e <- es :: Supported(e)
    ensures ReadElems(Join(ElemTexts(es), ",") + ("]" + r)) == Some((es, r))
    decreases es, 0, 0
  {
    var ts := ElemTexts(es);
    var rest := AfterFirst(ts, "]" + r);
    JoinSplit(ts, "]" + r);
    ReadText(es[0], rest);
    if |es| == 1 {
      assert rest == "]" + r && rest[1..] == r && es == [es[0]];
    } else {
      var more := Join(ElemTexts(es[1..]), ",") + ("]" + r);
      assert ts[1..] == ElemTexts(es[1..]) && rest == "," + more && rest[1..] == more;
      ReadElemTexts(es[1..], r);
      assert es == [es[0]] + es[1..];
    }
  }

  lemma ReadMap(v: Json, r: string)
    requires v.Map? && Supported(v)
    ensures ReadValue(Text(v) + r) == Some((v, r))
    decreases v, 0, |v.members| + 1
  {
    var ks := Ascending(v.members.Keys);
    EnumerationLength(ks, v.members.Keys);
    var x := Join(MemberTexts(v, ks), ",");
    Bracketed('{', x, '}', r);
    var y := "{" + x + "}" + r;
    if ks == [] {
      assert x == "" && y[1..] == "}" + r && y[2..] == r && v.members == map[];
    } else {
      MemberText(v, ks, "}" + r);
      ReadQuoted(ks[0], AfterName(v, ks, "}" + r));
      ReadMemberTexts(v, ks, r);
      assert Restrict(v, ks) == v.members;
    }
  }

  lemma {:induction false} ReadMemberTexts(v: Json, ks: seq<string>, r: string)
    requires v.Map? && Supported(v) && ks != [] && forall k <- ks :: k in v.members
    ensures ReadMembers(Join(MemberTexts(v, ks), ",") + ("}" + r)) == Some((Restrict(v, ks), r))
    decreases v, 0, |ks|
  {
    var k, val, rest := ks[0], v.members[ks[0]], AfterFirst(MemberTexts(v, ks), "}" + r);
    var x, body := Join(MemberTexts(v, ks), ",") + ("}" + r), Text(v.members[ks[0]]) + rest;
    MemberText(v, ks, "}" + r);
    ReadQuoted(k, ":" + body);
    AfterMember(v, ks, "}" + r);
    ReadText(val, rest);
    RestrictCons(v, ks);
    if |ks| == 1 {
      ReadMembersLast(x, k, body, val, r);
    } else {
      ReadMemberTexts(v, ks[1..], r);
      ReadMembersMore(x, k, body, val, Join(MemberTexts(v, ks[1..]), ",") + ("}" + r), Restrict(v, ks[1..]), r);
    }
  }

  /** Every value that can be printed is what its text stands for. */
  lemma ParseOfText(v: Json)
    requires Supported(v)
    ensures Parse(Text(v)) == Some(v)
  {
    ReadText(v, "");
    assert Text(v) + "" == Text(v);
  }

  // ----- unique reading -----

  lemma QuotePrefix(s: string, u: string, r: string, t: string)
    requires Quote(s) + r == Quote(u) + t
    ensures s == u && r == t
  {
    ReadQuoted(s, r);
    ReadQuoted(u, t);
  }

  lemma TextPrefix(v: Json, w: Json, r: string, t: string)
    requires Supported(v) && Supported(w) && Follows(r) && Follows(t)
    requires Text(v) + r == Text(w) + t
    ensures v == w && r == t
  {
    ReadText(v, r);
    ReadText(w, t);
  }

  /** Two values print alike exactly when they are the same value. */
  lemma TextEqualIffEqual(v: Json, w: Json)
    requires Supported(v) && Supported(w)
    ensures Text(v) == Text(w) <==> v == w
  {
    ParseOfText(v);
    ParseOfText(w);
  }

  // ----- printed text holds no control character -----

  predicate Printable(s: string) {
    forall i | 0 <= i < |s| :: s[i] >= ' '
  }

  lemma HexDigitPrintable(n: nat)
    requires n < 16
    ensures HexDigit(n) >= '0'
  {
  }

  lemma Hex4Printable(n: nat)
    requires n < 0x10000
    ensures Printable(Hex4(n))
  {
    HexDigitPrintable(n / 16 / 16 / 16);
    HexDigitPrintable(n / 16 / 16 % 16);
    HexDigitPrintable(n / 16 % 16);
    HexDigitPrintable(n % 16);
  }

  lemma PrintableConcat(s: string, t: string)
    ensures Printable(s + t) <==> Printable(s) && Printable(t)
  {
    assert s == (s + t)[..|s|] && t == (s + t)[|s|..];
  }

  lemma EscapeCharPrintable(c: char)
    ensures Printable(EscapeChar(c))
  {
    EscapeCharShape(c);
    if !HasShort(c) && HasHex(c) {
      Hex4Printable(c as int);
      PrintableConcat("\\u", Hex4(c as int));
    }
  }

  lemma {:induction false} QuotePrintable(s: string)
    ensures Printable(Quote(s)) && Printable(Escape(s))
  {
    if s == "" {
    } else {
      EscapeCharPrintable(s[0]);
      QuotePrintable(s[1..]);
      PrintableConcat(EscapeChar(s[0]), Escape(s[1..]));
    }
    PrintableConcat("\"", Escape(s));
    PrintableConcat("\"" + Escape(s), "\"");
  }

  lemma {:induction false} JoinPrintable(ts: seq<string>)
    requires forall t <- ts :: Printable(t)
    ensures Printable(Join(ts, ","))
  {
    if |ts| <= 1 {
    } else {
      JoinPrintable(ts[1..]);
      PrintableConcat(ts[0], ",");
      PrintableConcat(ts[0] + ",", Join(ts[1..], ","));
    }
  }

  /** A printed value contains no character below the space, so in particular no NUL. */
  lemma {:induction false} TextPrintable(v: Json)
    ensures Printable(Text(v))
    decreases v, 1, 0
  {
    match v {
      case Str(s) => QuotePrintable(s);
      case List(elems) =>
        ElemTextsPrintable(elems);
        JoinPrintable(ElemTexts(elems));
      case Map(m) =>
        MemberTextsPrintable(v, Ascending(m.Keys));
        JoinPrintable(MemberTexts(v, Ascending(m.Keys)));
      case _ =>
    }
  }

  lemma {:induction false} ElemTextsPrintable(es: seq<Json>)
    ensures forall t <- ElemTexts(es) :: Printable(t)
    decreases es, 0, 0
  {
    if es == [] {
    } else {
      TextPrintable(es[0]);
      ElemTextsPrintable(es[1..]);
    }
  }

  lemma {:induction false} MemberTextsPrintable(v: Json, ks: seq<string>)
    requires v.Map? && forall k <- ks :: k in v.members
    ensures forall t <- MemberTexts(v, ks) :: Printable(t)
    decreases v, 0, |ks|
  {
    if ks == [] {
    } else {
      QuotePrintable(ks[0]);
      TextPrintable(v.members[ks[0]]);
      MemberTextsPrintable(v, ks[1..]);
    }
  }

  // ----- the printer as the code runs it -----

  datatype MarshalError = UnsupportedValue

  /** Gathers the keys in whatever order the map hands them out, sorts them in place. */
  method SortedKeys(m: map<string, Json>) returns (keys: array<string>)
    ensures fresh(keys) && keys[..] == Ascending(m.Keys)
  {
    var gathered: seq<string> := [];
    var rest := m.Keys;
    while rest != {}
      invariant rest <= m.Keys
      invariant Enumerates(gathered, m.Keys - rest)
      decreases |rest|
    {
      var k :| k in rest;
      gathered := gathered + [k];
      rest := rest - {k};
    }
    assert m.Keys - rest == m.Keys;
    keys := new string[|gathered|](i requires 0 <= i < |gathered| => gathered[i]);
    assert keys[..] == gathered;
    SortStrings(keys);
    GatheringOrderIsIrrelevant(gathered, m.Keys);
  }

  lemma {:induction false} ElemTextsGrow(es: seq<Json>, i: nat)
    requires i < |es|
    ensures ElemTexts(es[..i + 1]) == ElemTexts(es[..i]) + [Text(es[i])]
  {
    if i == 0 {
    } else {
      ElemTextsGrow(es[1..], i - 1);
      assert es[..i + 1][1..] == es[1..][..i] && es[..i][1..] == es[1..][..i - 1];
    }
  }

  lemma {:induction false} MemberTextsGrow(v: Json, ks: seq<string>, i: nat)
    requires v.Map? && i < |ks| && forall k <- ks :: k in v.members
    ensures MemberTexts(v, ks[..i + 1]) == MemberTexts(v, ks[..i]) + [Quote(ks[i]) + ":" + Text(v.members[ks[i]])]
  {
    if i == 0 {
    } else {
      MemberTextsGrow(v, ks[1..], i - 1);
      assert ks[..i + 1][1..] == ks[1..][..i] && ks[..i][1..] == ks[1..][..i - 1];
    }
  }

  /** The keys in ascending order, each with its printed value. */
  method PrintMembers(v: Json) returns (r: Result<string, MarshalError>)
    requires v.Map?
    ensures r.Ok? <==> Supported(v)
    ensures r.Ok? ==> r.value == Text(v)
    decreases v, 0
  {
    var m := v.members;
    var keys := SortedKeys(m);
    ghost var ks := keys[..];
    var parts: seq<string> := [];
    for i := 0 to keys.Length
      invariant keys[..] == ks
      invariant forall k <- ks[..i] :: Supported(m[k])
      invariant parts == MemberTexts(v, ks[..i])
    {
      assert keys[i] in ks;
      var val := CanonicalJSON(m[keys[i]]);
      if val.Err? { return val; }
      MemberTextsGrow(v, ks, i);
      parts := parts + [Quote(keys[i]) + ":" + val.value];
    }
    assert ks[..keys.Length] == ks;
    return Ok("{" + Join(parts, ",") + "}");
  }

  method PrintElems(v: Json) returns (r: Result<string, MarshalError>)
    requires v.List?
    ensures r.Ok? <==> Supported(v)
    ensures r.Ok? ==> r.value == Text(v)
    decreases v, 0
  {
    var elems := v.elems;
    var texts: seq<string> := [];
    for i := 0 to |elems|
      invariant forall e <- elems[..i] :: Supported(e)
      invariant texts == ElemTexts(elems[..i])
    {
      var b := CanonicalJSON(elems[i]);
      if b.Err? { return b; }
      ElemTextsGrow(elems, i);
      texts := texts + [b.value];
    }
    assert elems[..|elems|] == elems;
    return Ok("[" + Join(texts, ",") + "]");
  }

  method CanonicalJSON(v: Json) returns (r: Result<string, MarshalError>)
    ensures r.Ok? <==> Supported(v)
    ensures r.Ok? ==> r.value == Text(v) && Parse(r.value) == Some(v)
    decreases v, 1
  {
    match v {
      case Null => r := Ok("null");
      case Map(m) => r := PrintMembers(v);
      case List(elems) => r := PrintElems(v);
      case Bool(b) => r := Ok(if b then "true" else "false");
      case Num(t) => r := Ok(t);
      case Str(s) => r := Ok(Quote(s));
      case Unsupported => r := Err(UnsupportedValue);
    }
    if r.Ok? { ParseOfText(v); }
  }
}
