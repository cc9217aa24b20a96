/** The JSON codec (src/json.c): values, the recursive-descent reader with its
    depth cap, and the writer. Texts hold one byte per character. RFC 8259. */
module Json {
  import opened Text
  import opened Utf8

  // ---- values ---------------------------------------------------------------------------

  /** A finite binary64 number; only zero may carry the sign flag. */
  datatype Double = Double(value: real, minusZero: bool)

  datatype Json =
    | Null
    | Bool(b: bool)
    | Whole(i: int)
    | Fraction(d: Double)
    | Str(s: string)
    | Arr(items: seq<Json>)
    | Obj(members: seq<Member>)

  datatype Member = Member(key: string, value: Json)

  const MAX_DEPTH := 64
  const INT64_MIN := -0x8000_0000_0000_0000
  const INT64_MAX := 0x7FFF_FFFF_FFFF_FFFF

  predicate InInt64(i: int) { INT64_MIN <= i <= INT64_MAX }

  /** jx_object_get */
  function Get(members: seq<Member>, key: string): Option<Json> {
    if members == [] then None
    else if members[0].key == key then Some(members[0].value)
    else Get(members[1..], key)
  }

  /** strtod and the shortest round-tripping printf form of finite numbers. */
  datatype Codec = Codec(isDouble: Double -> bool, read: string -> Option<Double>, show: Double -> string)

  // ---- blanks and literals ----------------------------------------------------------------

  predicate Blank(c: char) { c == ' ' || c == '\t' || c == '\n' || c == '\r' }

  function SkipBlanks(s: string): (r: string)
    ensures |r| <= |s|
    ensures r == "" || !Blank(r[0])
  {
    if s != "" && Blank(s[0]) then SkipBlanks(s[1..]) else s
  }

  predicate StartsWith(s: string, word: string) { |word| <= |s| && s[..|word|] == word }

  // ---- strings ------------------------------------------------------------------------------

  function HexDigit(c: char): (v: Option<nat>)
    ensures v.Some? ==> v.value < 16
  {
    if '0' <= c <= '9' then Some(c as int - '0' as int)
    else if 'a' <= c <= 'f' then Some(c as int - 'a' as int + 10)
    else if 'A' <= c <= 'F' then Some(c as int - 'A' as int + 10)
    else None
  }

  function Hex4(s: string): (v: Option<nat>)
    ensures v.Some? ==> v.value < 0x10000 && |s| >= 4
  {
    if |s| < 4 then None
    else match (HexDigit(s[0]), HexDigit(s[1]), HexDigit(s[2]), HexDigit(s[3]))
      case (Some(a), Some(b), Some(c), Some(d)) => Some(((a * 16 + b) * 16 + c) * 16 + d)
      case _ => None
  }

  /** The escape after a backslash: the bytes it stands for and what follows it. */
  function Escape(s: string): (r: Option<(string, string)>)
    ensures r.Some? ==> |r.value.1| < |s|
  {
    if s == "" then None
    else if s[0] == 'u' then UnicodeEscape(s[1..])
    else match SimpleEscape(s[0])
      case None => None
      case Some(c) => Some(([c], s[1..]))
  }

  function SimpleEscape(e: char): Option<char> {
    if e == '"' || e == '\\' || e == '/' then Some(e)
    else if e == 'b' then Some(8 as char)
    else if e == 'f' then Some(12 as char)
    else if e == 'n' then Some('\n')
    else if e == 'r' then Some('\r')
    else if e == 't' then Some('\t')
    else None
  }

  function UnicodeEscape(s: string): (r: Option<(string, string)>)
    ensures r.Some? ==> |r.value.1| <= |s|
  {
    match Hex4(s)
    case None => None
    case Some(cp) =>
      if Low(cp) then None
      else if High(cp) then LowHalf(cp, s[4..])
      else Some((Encode(cp), s[4..]))
  }

  function LowHalf(high: int, s: string): (r: Option<(string, string)>)
    requires High(high)
    ensures r.Some? ==> |r.value.1| <= |s|
  {
    if |s| < 2 || s[0] != '\\' || s[1] != 'u' then None
    else match Hex4(s[2..])
      case None => None
      case Some(low) =>
        if !Low(low) then None
        else CombineScalar(high, low); Some((Encode(Combine(high, low)), s[6..]))
  }

  /** The rest of a string literal after its opening quote, decoded after acc. */
  function ReadString(s: string, acc: string): (r: Option<(string, string)>)
    ensures r.Some? ==> |r.value.1| < |s|
    decreases |s|
  {
    if s == "" then None
    else if s[0] == '"' then Some((acc, s[1..]))
    else if s[0] == '\\' then
      match Escape(s[1..])
      case None => None
      case Some((bytes, rest)) => ReadString(rest, acc + bytes)
    else if s[0] as int < 0x20 then None
    else
      var n := SeqLen(s);
      if n == 0 then None else ReadString(s[n..], acc + s[..n])
  }

  // ---- numbers --------------------------------------------------------------------------------

  function SkipDigits(s: string): (r: string)
    ensures |r| <= |s|
    ensures r == "" || !IsDigit(r[0])
  {
    if s != "" && IsDigit(s[0]) then SkipDigits(s[1..]) else s
  }

  /** What follows the digits that must stand here. */
  function SomeDigits(s: string): (r: Option<string>)
    ensures r.Some? ==> |r.value| < |s|
  {
    if s != "" && IsDigit(s[0]) then Some(SkipDigits(s[1..])) else None
  }

  function IntegerPart(s: string): (r: Option<string>)
    ensures r.Some? ==> |r.value| < |s|
  {
    var t := if s != "" && s[0] == '-' then s[1..] else s;
    if t != "" && t[0] == '0' then Some(t[1..]) else SomeDigits(t)
  }

  function FractionPart(s: string): (r: Option<string>)
    ensures r.Some? ==> |r.value| <= |s|
  {
    if s != "" && s[0] == '.' then SomeDigits(s[1..]) else Some(s)
  }

  function ExponentPart(s: string): (r: Option<string>)
    ensures r.Some? ==> |r.value| <= |s|
  {
    if s != "" && (s[0] == 'e' || s[0] == 'E') then
      var t := s[1..];
      SomeDigits(if t != "" && (t[0] == '+' || t[0] == '-') then t[1..] else t)
    else Some(s)
  }

  /** What follows the number token at the start of s, and whether the token is an integer. */
  function NumberToken(s: string): (r: Option<(string, bool)>)
    ensures r.Some? ==> |r.value.0| < |s|
  {
    match IntegerPart(s)
    case None => None
    case Some(a) =>
      match FractionPart(a)
      case None => None
      case Some(b) =>
        match ExponentPart(b)
        case None => None
        case Some(c) => Some((c, c == a))
  }

  /** strtoll on an integer token */
  function IntegerValue(tok: string): int {
    var digits := if tok != "" && tok[0] == '-' then tok[1..] else tok;
    if !AllDigits(digits) then 0 else if digits != tok then 0 - Value(digits) else Value(digits)
  }

  /** The number a token denotes: exact if it is an integer in range other than -0. */
  function NumberOf(codec: Codec, tok: string, integral: bool): Option<Json> {
    var i := IntegerValue(tok);
    if integral && InInt64(i) && !(i == 0 && tok != "" && tok[0] == '-') then Some(Whole(i))
    else match codec.read(tok) case None => None case Some(d) => Some(Fraction(d))
  }

  function ReadNumber(codec: Codec, s: string): (r: Option<(Json, string)>)
    ensures r.Some? ==> |r.value.1| < |s|
  {
    match NumberToken(s)
    case None => None
    case Some((rest, integral)) =>
      match NumberOf(codec, s[..|s| - |rest|], integral)
      case None => None
      case Some(v) => Some((v, rest))
  }

  // ---- values -----------------------------------------------------------------------------------

  function ReadWord(s: string, word: string, v: Json): (r: Option<(Json, string)>)
    requires word != ""
    ensures r.Some? ==> |r.value.1| < |s|
  {
    if StartsWith(s, word) then Some((v, s[|word|..])) else None
  }

  function ReadText(s: string): (r: Option<(Json, string)>)
    requires s != ""
    ensures r.Some? ==> |r.value.1| < |s|
  {
    match ReadString(s[1..], "")
    case None => None
    case Some((text, rest)) => Some((Str(text), rest))
  }

  /** p_value: blanks, then one value. */
  function ReadValue(codec: Codec, text: string, depth: nat): (r: Option<(Json, string)>)
    ensures r.Some? ==> |r.value.1| < |text|
    decreases |text|, 1
  {
    var s := SkipBlanks(text);
    if s == "" then None
    else if s[0] == 'n' then ReadWord(s, "null", Null)
    else if s[0] == 't' then ReadWord(s, "true", Bool(true))
    else if s[0] == 'f' then ReadWord(s, "false", Bool(false))
    else if s[0] == '"' then ReadText(s)
    else if s[0] == '[' then if depth >= MAX_DEPTH then None else ReadArray(codec, s[1..], depth + 1)
    else if s[0] == '{' then if depth >= MAX_DEPTH then None else ReadObject(codec, s[1..], depth + 1)
    else if s[0] == '-' || IsDigit(s[0]) then ReadNumber(codec, s)
    else None
  }

  /** After '['. */
  function ReadArray(codec: Codec, text: string, depth: nat): (r: Option<(Json, string)>)
    ensures r.Some? ==> |r.value.1| <= |text|
    decreases |text|, 3
  {
    var s := SkipBlanks(text);
    if s != "" && s[0] == ']' then Some((Arr([]), s[1..])) else ReadItems(codec, s, depth, [])
  }

  function ReadItems(codec: Codec, s: string, depth: nat, items: seq<Json>): (r: Option<(Json, string)>)
    ensures r.Some? ==> |r.value.1| <= |s|
    decreases |s|, 2
  {
    match ReadValue(codec, s, depth)
    case None => None
    case Some((v, after)) =>
      var t := SkipBlanks(after);
      if t == "" then None
      else if t[0] == ',' then ReadItems(codec, t[1..], depth, items + [v])
      else if t[0] == ']' then Some((Arr(items + [v]), t[1..]))
      else None
  }

  /** After '{'. */
  function ReadObject(codec: Codec, text: string, depth: nat): (r: Option<(Json, string)>)
    ensures r.Some? ==> |r.value.1| <= |text|
    decreases |text|, 4
  {
    var s := SkipBlanks(text);
    if s != "" && s[0] == '}' then Some((Obj([]), s[1..])) else ReadMembers(codec, s, depth, [])
  }

  /** A member's name up to and including its colon: NUL-free and not seen before. */
  function ReadName(s: string, members: seq<Member>): (r: Option<(string, string)>)
    ensures r.Some? ==> |r.value.1| < |s|
  {
    var t := SkipBlanks(s);
    if t == "" || t[0] != '"' then None
    else match ReadString(t[1..], "")
      case None => None
      case Some((key, after)) =>
        if Contains(key, 0 as char) || Get(members, key).Some? then None
        else
          var u := SkipBlanks(after);
          if u == "" || u[0] != ':' then None else Some((key, u[1..]))
  }

  function ReadMembers(codec: Codec, s: string, depth: nat, members: seq<Member>): (r: Option<(Json, string)>)
    ensures r.Some? ==> |r.value.1| <= |s|
    decreases |s|, 3
  {
    match ReadName(s, members)
    case None => None
    case Some((key, colon)) =>
      match ReadValue(codec, colon, depth)
      case None => None
      case Some((v, after)) =>
        var t := SkipBlanks(after);
        var all := members + [Member(key, v)];
        if t == "" then None
        else if t[0] == ',' then ReadMembers(codec, t[1..], depth, all)
        else if t[0] == '}' then Some((Obj(all), t[1..]))
        else None
  }

  /** jx_parse: exactly one value and blanks. */
  function Parse(codec: Codec, text: string): Option<Json> {
    match ReadValue(codec, text, 0)
    case None => None
    case Some((v, rest)) => if SkipBlanks(rest) == "" then Some(v) else None
  }

  // ---- the writer ---------------------------------------------------------------------------------

  function HexChar(d: nat): char
    requires d < 16
  {
    if d < 10 then ('0' as int + d) as char else ('a' as int + d - 10) as char
  }

  function EscapeByte(c: char): string {
    if c == '"' then "\\\""
    else if c == '\\' then "\\\\"
    else if c == 8 as char then "\\b"
    else if c == 12 as char then "\\f"
    else if c == '\n' then "\\n"
    else if c == '\r' then "\\r"
    else if c == '\t' then "\\t"
    else if c as int < 0x20 then "\\u00" + [HexChar(c as int / 16), HexChar(c as int % 16)]
    else [c]
  }

  function EscapeAll(s: string): string {
    if s == "" then "" else EscapeByte(s[0]) + EscapeAll(s[1..])
  }

  function WriteString(s: string): string { "\"" + EscapeAll(s) + "\"" }

  function WriteInt(i: int): string { if i < 0 then "-" + Numeral(-i) else Numeral(i) }

  function Repeat(n: nat): string { if n == 0 then "" else "  " + Repeat(n - 1) }

  function Indent(pretty: bool, level: nat): string { if pretty then "\n" + Repeat(level) else "" }

  function Colon(pretty: bool): string { if pretty then ": " else ":" }

  function Write(codec: Codec, v: Json, pretty: bool, level: nat): string
    decreases v
  {
    match v
    case Null => "null"
    case Bool(b) => if b then "true" else "false"
    case Whole(i) => WriteInt(i)
    case Fraction(d) => codec.show(d)
    case Str(s) => WriteString(s)
    case Arr(items) => if items == [] then "[]" else "[" + WriteItems(codec, items, pretty, level)
    case Obj(members) => if members == [] then "{}" else "{" + WriteMembers(codec, members, pretty, level)
  }

  /** Items up to and including the closing bracket. */
  function WriteItems(codec: Codec, items: seq<Json>, pretty: bool, level: nat): string
    requires items != []
    decreases items
  {
    Indent(pretty, level + 1) + Write(codec, items[0], pretty, level + 1)
    + if |items| == 1 then Indent(pretty, level) + "]" else "," + WriteItems(codec, items[1..], pretty, level)
  }

  function WriteMembers(codec: Codec, members: seq<Member>, pretty: bool, level: nat): string
    requires members != []
    decreases members
  {
    Indent(pretty, level + 1) + WriteString(members[0].key) + Colon(pretty)
    + Write(codec, members[0].value, pretty, level + 1)
    + if |members| == 1 then Indent(pretty, level) + "}" else "," + WriteMembers(codec, members[1..], pretty, level)
  }
}
