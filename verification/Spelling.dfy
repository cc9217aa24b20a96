/** How the values of a parameter type, the arguments of a command and the calls of a registry
    are spelled, on characters alone (src/gbnf.c). */
module Spelling {
  import opened Text
  import opened Types
  import opened Gbnf

  // ---- numbers -----------------------------------------------------------------------------

  predicate IsHex(c: char) { IsDigit(c) || 'a' <= c <= 'f' || 'A' <= c <= 'F' }

  predicate Digits(s: string) { s != "" && AllDigits(s) }

  predicate IsInt(s: string) { Digits(if s != "" && s[0] == '-' then s[1..] else s) }

  /** Nothing, or a point and digits. */
  predicate IsFraction(s: string) { s == "" || (s[0] == '.' && Digits(s[1..])) }

  /** Nothing, or an exponent letter, an optional sign and digits. */
  predicate IsPower(s: string) {
    s == ""
    || ((s[0] == 'e' || s[0] == 'E') && Digits(if |s| > 1 && (s[1] == '+' || s[1] == '-') then s[2..] else s[1..]))
  }

  ghost predicate IsNum(s: string) {
    exists i: nat, j: nat :: i <= j <= |s| && IsInt(s[..i]) && IsFraction(s[i..j]) && IsPower(s[j..])
  }

  // ---- strings -------------------------------------------------------------------------------

  /** What may stand behind a single backslash. */
  const ESCAPABLE := "\"\\/bfnrt"

  /** One character of a string: itself, an escape pair, or a code of four hexadecimal digits. */
  predicate IsChar(s: string) {
    || (|s| == 1 && IsPlain(s[0]))
    || (|s| == 2 && s[0] == '\\' && s[1] in ESCAPABLE)
    || (|s| == 6 && s[0] == '\\' && s[1] == 'u' && forall i :: 2 <= i < 6 ==> IsHex(s[i]))
  }

  ghost predicate StringBody(s: string)
    decreases |s|
  {
    s == "" || exists cut: nat :: 0 < cut <= |s| && IsChar(s[..cut]) && StringBody(s[cut..])
  }

  ghost predicate IsString(s: string) {
    |s| >= 2 && s[0] == '"' && s[|s| - 1] == '"' && StringBody(s[1..|s| - 1])
  }

  predicate Prefixed(letter: char, s: string) { s != "" && s[0] == letter }

  // ---- objects in general ------------------------------------------------------------------------

  predicate IsOuter(c: char) { c != '{' && c != '}' && c != '"' && c != '\n' && c != '\r' }

  /** Balanced braces on one line; inside strings braces do not count. */
  ghost predicate IsObj(s: string)
    decreases |s|, 0
  {
    |s| >= 2 && s[0] == '{' && s[|s| - 1] == '}' && ObjBody(s[1..|s| - 1])
  }

  ghost predicate ObjBody(s: string)
    decreases |s|, 2
  {
    s == "" || exists cut: nat :: 0 < cut <= |s| && ObjPiece(s[..cut]) && ObjBody(s[cut..])
  }

  ghost predicate ObjPiece(s: string)
    decreases |s|, 1
  {
    (|s| == 1 && IsOuter(s[0])) || IsString(s) || IsObj(s)
  }

  // ---- enum values ----------------------------------------------------------------------------------

  /** b spells v in a string: a backslash and a letter or the character itself for a quote, a
      backslash, a newline, a carriage return and a tab, and every other character as it is. */
  predicate BodyOf(v: string, b: string)
    decreases |v|
  {
    if v == "" then b == ""
    else if v[0] == '"' || v[0] == '\\' then |b| >= 2 && b[0] == '\\' && b[1] == v[0] && BodyOf(v[1..], b[2..])
    else if v[0] == '\n' then |b| >= 2 && b[0] == '\\' && b[1] == 'n' && BodyOf(v[1..], b[2..])
    else if v[0] == '\r' then |b| >= 2 && b[0] == '\\' && b[1] == 'r' && BodyOf(v[1..], b[2..])
    else if v[0] == '\t' then |b| >= 2 && b[0] == '\\' && b[1] == 't' && BodyOf(v[1..], b[2..])
    else b != "" && b[0] == v[0] && BodyOf(v[1..], b[1..])
  }

  predicate IsQuoted(v: string, s: string) {
    |s| >= 2 && s[0] == '"' && s[|s| - 1] == '"' && BodyOf(v, s[1..|s| - 1])
  }

  // ---- values ------------------------------------------------------------------------------------------

  /** s spells a value of type ty that stands inside depth lists. Beyond 32 lists, and for a
      map or an object, any balanced object will do. */
  ghost predicate Spells(ty: Type, depth: nat, s: string)
    decreases ty, |s|, 1
  {
    if depth > 32 then IsObj(s) else
    match ty
    case StringT(_, _) => IsString(s)
    case PathT(_, _) => IsString(s)
    case IntegerT(_, _) => IsInt(s)
    case NumberT(_, _) => IsNum(s)
    case BooleanT => s == "true" || s == "false"
    case BytesT(_, _) => Prefixed('b', s) && IsString(s[1..])
    case DatetimeT => Prefixed('t', s) && IsString(s[1..])
    case DurationT => Prefixed('r', s) && IsString(s[1..])
    case UuidT => Prefixed('u', s) && IsString(s[1..])
    case EnumT(values) =>
      if values == [] then IsString(s) else exists i :: 0 <= i < |values| && IsQuoted(values[i], s)
    case ArrayT(item, _, _) =>
      |s| >= 2 && s[0] == '[' && s[|s| - 1] == ']' && (|s| == 2 || IsItems(item, depth + 1, s[1..|s| - 1]))
    case MapT(_, _) => IsObj(s)
    case ObjectT(_) => IsObj(s)
  }

  /** One item, or one item and more. */
  ghost predicate IsItems(item: Type, depth: nat, s: string)
    decreases item, |s|, 2
  {
    exists cut: nat :: cut <= |s| && Spells(item, depth, s[..cut]) && IsMore(item, depth, s[cut..])
  }

  /** Nothing, or a comma, any number of spaces, an item and more. */
  ghost predicate IsMore(item: Type, depth: nat, s: string)
    decreases item, |s|, 3
  {
    s == "" || exists next: nat, cut: nat ::
      && 1 <= next <= cut <= |s| && s[0] == ',' && (forall k :: 1 <= k < next ==> s[k] == ' ')
      && Spells(item, depth, s[next..cut]) && IsMore(item, depth, s[cut..])
  }

  // ---- arguments and calls -------------------------------------------------------------------------------

  function Joined(items: seq<string>): string {
    if items == [] then ""
    else if |items| == 1 then items[0]
    else items[0] + ", " + Joined(items[1..])
  }

  ghost predicate Named(p: Param, s: string) {
    var lead := p.name + ": ";
    lead <= s && Spells(p.ty, 0, s[|lead|..])
  }

  /** items are spellings of parameters of ps, in their order: of each required one, or of some
      of the optional ones. */
  ghost predicate Lists(ps: seq<Param>, required: bool, items: seq<string>) {
    if ps == [] then items == []
    else
      var p := ps[|ps| - 1];
      || (p.required == required && items != [] && Named(p, items[|items| - 1])
          && Lists(ps[..|ps| - 1], required, items[..|items| - 1]))
      || (!(p.required && required) && Lists(ps[..|ps| - 1], required, items))
  }

  /** The required arguments, then the optional ones that are present. */
  ghost predicate IsListing(ps: seq<Param>, s: string) {
    exists required, optional :: Lists(ps, true, required) && Lists(ps, false, optional) && s == Joined(required + optional)
  }

  ghost predicate IsArgs(ps: seq<Param>, s: string) {
    if ps == [] then s == "{}"
    else if forall i :: 0 <= i < |ps| ==> !ps[i].required then IsObj(s)
    else |s| >= 2 && s[0] == '{' && s[|s| - 1] == '}' && IsListing(ps, s[1..|s| - 1])
  }

  ghost predicate IsCall(v: View, s: string) {
    exists args :: IsArgs(v.command.params, args) && s == "CALL " + v.id + "." + v.command.name + " " + args + "\n"
  }
}
