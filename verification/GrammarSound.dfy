/** Every sentence of the exported grammar is one call line that the recognizer
    reads back as exactly the call it spells (src/gbnf.c against src/callline.c). */
module GrammarSound {
  import opened Text
  import opened Types
  import opened CallLine
  import opened Gbnf

  // ---- texts the automaton passes over ---------------------------------------

  predicate OneLine(s: string) { forall i :: 0 <= i < |s| ==> s[i] != '\n' && s[i] != '\r' }

  /** Inside an object, at any depth, s leaves the automaton where it was. */
  ghost predicate Quiet(s: string) {
    OneLine(s) && forall d: int :: d >= 1 ==> Advance(Scan(d, false, false), s) == Some(Scan(d, false, false))
  }

  /** The same inside a string literal. */
  ghost predicate QuietInString(s: string) {
    OneLine(s) && forall d: int :: d >= 1 ==> Advance(Scan(d, true, false), s) == Some(Scan(d, true, false))
  }

  predicate Inert(c: char) { c != '{' && c != '}' && c != '"' && c != '\n' && c != '\r' }

  lemma {:induction false} AdvanceConcat(st: Scan, s: string, t: string)
    ensures Advance(st, s + t) == match Advance(st, s) case None => None case Some(m) => Advance(m, t)
    decreases |s|
  {
    if s == "" {
      assert s + t == t;
    } else {
      assert (s + t)[0] == s[0] && (s + t)[1..] == s[1..] + t;
      if !Closes(st, s[0]) {
        AdvanceConcat(Step(st, s[0]), s[1..], t);
      }
    }
  }

  lemma {:induction false} CloseAfter(st: Scan, s: string, t: string)
    requires Advance(st, s).Some?
    ensures CloseLength(st, s + t) == match CloseLength(Advance(st, s).value, t)
                                      case None => None
                                      case Some(n) => Some(n + |s|)
    decreases |s|
  {
    if s == "" {
      assert s + t == t;
    } else {
      assert (s + t)[0] == s[0] && (s + t)[1..] == s[1..] + t;
      CloseAfter(Step(st, s[0]), s[1..], t);
    }
  }

  lemma {:induction false} QuietConcat(s: string, t: string)
    requires Quiet(s) && Quiet(t)
    ensures Quiet(s + t)
  {
    forall d: int | d >= 1
      ensures Advance(Scan(d, false, false), s + t) == Some(Scan(d, false, false))
    {
      AdvanceConcat(Scan(d, false, false), s, t);
    }
  }

  lemma {:induction false} QuietInStringConcat(s: string, t: string)
    requires QuietInString(s) && QuietInString(t)
    ensures QuietInString(s + t)
  {
    forall d: int | d >= 1
      ensures Advance(Scan(d, true, false), s + t) == Some(Scan(d, true, false))
    {
      AdvanceConcat(Scan(d, true, false), s, t);
    }
  }

  lemma {:induction false} QuietAll(ss: seq<string>)
    requires forall i :: 0 <= i < |ss| ==> Quiet(ss[i])
    ensures Quiet(Concat(ss))
  {
    if ss != [] {
      QuietAll(ss[1..]);
      QuietConcat(ss[0], Concat(ss[1..]));
    }
  }

  lemma {:induction false} QuietInStringAll(ss: seq<string>)
    requires forall i :: 0 <= i < |ss| ==> QuietInString(ss[i])
    ensures QuietInString(Concat(ss))
  {
    if ss != [] {
      QuietInStringAll(ss[1..]);
      QuietInStringConcat(ss[0], Concat(ss[1..]));
    }
  }

  lemma {:induction false} QuietInert(s: string)
    requires forall i :: 0 <= i < |s| ==> Inert(s[i])
    ensures Quiet(s)
  {
    if s != "" {
      QuietInert(s[1..]);
      assert Quiet([s[0]]) by {
        assert [s[0]][1..] == "";
      }
      QuietConcat([s[0]], s[1..]);
      assert s == [s[0]] + s[1..];
    }
  }

  /** Reading one character of a string literal that is not special there. */
  lemma {:induction false} InStringOne(c: char)
    requires c != '"' && c != '\\' && c != '\n' && c != '\r'
    ensures QuietInString([c])
  {
  }

  /** An escape pair inside a string literal. */
  lemma {:induction false} InStringEscape(c: char)
    requires c != '\n' && c != '\r'
    ensures QuietInString(['\\', c])
  {
    forall d: int | d >= 1
      ensures Advance(Scan(d, true, false), ['\\', c]) == Some(Scan(d, true, false))
    {
      assert ['\\'][1..] == "" && [c][1..] == "" && ['\\', c] == ['\\'] + [c];
      AdvanceConcat(Scan(d, true, false), ['\\'], [c]);
    }
  }

  /** A quoted string is quiet outside strings. */
  lemma {:induction false} QuietQuoted(body: string)
    requires QuietInString(body)
    ensures Quiet("\"" + body + "\"")
  {
    var s := "\"" + body + "\"";
    forall d: int | d >= 1
      ensures Advance(Scan(d, false, false), s) == Some(Scan(d, false, false))
    {
      var st, inside := Scan(d, false, false), Scan(d, true, false);
      assert "\""[1..] == "";
      assert Advance(st, "\"") == Some(inside) && Advance(inside, "\"") == Some(st);
      AdvanceConcat(st, "\"", body);
      AdvanceConcat(st, "\"" + body, "\"");
    }
  }

  lemma {:induction false} QuietBraced(body: string)
    requires Quiet(body)
    ensures Quiet("{" + body + "}")
  {
    var s := "{" + body + "}";
    forall d: int | d >= 1
      ensures Advance(Scan(d, false, false), s) == Some(Scan(d, false, false))
    {
      var st, inside := Scan(d, false, false), Scan(d + 1, false, false);
      assert "{"[1..] == "" && "}"[1..] == "";
      assert Advance(st, "{") == Some(inside) && Advance(inside, "}") == Some(st);
      AdvanceConcat(st, "{", body);
      AdvanceConcat(st, "{" + body, "}");
    }
  }

  /** The outermost object closes at its own brace. */
  lemma {:induction false} ClosedBraced(body: string)
    requires Quiet(body)
    ensures Closed("{" + body + "}") && OneLine("{" + body + "}")
  {
    var inside := Scan(1, false, false);
    assert "{"[1..] == "" && "}"[1..] == "";
    assert Advance(START, "{") == Some(inside);
    AdvanceConcat(START, "{", body);
    CloseAfter(START, "{" + body, "}");
  }

  // ---- quiet productions --------------------------------------------------------

  const QUIET_RULES := ["str", "int", "num", "ws", "obj"]

  /** The grammar's shared terminals are the exported ones. */
  predicate Standard(g: seq<Rule>) {
    && Lookup(g, "str") == Some(STR_RULE.body)
    && Lookup(g, "char") == Some(CHAR_RULE.body)
    && Lookup(g, "int") == Some(INT_RULE.body)
    && Lookup(g, "num") == Some(NUM_RULE.body)
    && Lookup(g, "ws") == Some(WS_RULE.body)
    && Lookup(g, "obj") == Some(OBJ_RULE.body)
  }

  /** Every sentence of e is quiet, judged from its leaves. */
  ghost predicate QuietExpr(e: Expr) {
    match e
    case Lit(t) => Quiet(t)
    case Ref(n) => n in QUIET_RULES
    case Class(_, negated, ranges) => forall c: char :: InRanges(c, ranges) != negated ==> Inert(c)
    case Cat(ps) => forall i :: 0 <= i < |ps| ==> QuietExpr(ps[i])
    case Alt(cs) => forall i :: 0 <= i < |cs| ==> QuietExpr(cs[i])
    case Paren(b, _) => QuietExpr(b)
    case Opt(b) => QuietExpr(b)
    case Star(b) => QuietExpr(b)
    case Plus(b) => QuietExpr(b)
  }

  lemma {:induction false} QuietYield(g: seq<Rule>, e: Expr, t: Tree)
    requires Standard(g) && QuietExpr(e) && Derives(g, e, t)
    ensures Quiet(Yield(g, e, t))
    decreases t, e
  {
    match e
    case Lit(_) =>
    case Class(_, _, _) => QuietInert([t.c]);
    case Ref(n) =>
      if n == "str" {
        StrQuiet(g, t.t);
      } else if n == "obj" {
        ObjQuiet(g, t.t);
      } else {
        NumericQuiet();
        QuietYield(g, Lookup(g, n).value, t.t);
      }
    case Cat(ps) =>
      forall i | 0 <= i < |ps| ensures Quiet(Yield(g, ps[i], t.ts[i])) {
        QuietYield(g, ps[i], t.ts[i]);
      }
      QuietAll(seq(|ps|, i requires 0 <= i < |ps| => Yield(g, ps[i], t.ts[i])));
    case Alt(cs) => QuietYield(g, cs[t.i], t.t);
    case Paren(b, _) => QuietYield(g, b, t);
    case Opt(b) => QuietRepeat(g, b, t.ts);
    case Star(b) => QuietRepeat(g, b, t.ts);
    case Plus(b) => QuietRepeat(g, b, t.ts);
  }

  lemma {:induction false} QuietRepeat(g: seq<Rule>, b: Expr, ts: seq<Tree>)
    requires Standard(g) && QuietExpr(b) && forall i :: 0 <= i < |ts| ==> Derives(g, b, ts[i])
    ensures Quiet(Concat(seq(|ts|, i requires 0 <= i < |ts| => Yield(g, b, ts[i]))))
    decreases ts, b
  {
    forall i | 0 <= i < |ts| ensures Quiet(Yield(g, b, ts[i])) {
      QuietYield(g, b, ts[i]);
    }
    QuietAll(seq(|ts|, i requires 0 <= i < |ts| => Yield(g, b, ts[i])));
  }

  lemma {:induction false} NumericQuiet()
    ensures QuietExpr(INT_RULE.body) && QuietExpr(NUM_RULE.body) && QuietExpr(WS_RULE.body)
  {
    hide Quiet;
    MarksQuiet();
    assert QuietExpr(DIGITS);
    assert QuietExpr(Opt(Lit("-")));
    var ps := NUM_RULE.body.parts;
    FractionQuiet(ps[2]);
    ExponentQuiet(ps[3]);
  }

  lemma {:induction false} MarksQuiet()
    ensures Quiet("-") && Quiet("+") && Quiet(".") && Quiet("e") && Quiet("E")
  {
  }

  lemma {:induction false} FractionQuiet(e: Expr)
    requires e == NUM_RULE.body.parts[2] && Quiet(".")
    ensures QuietExpr(e)
  {
    hide Quiet;
    assert QuietExpr(DIGITS);
    assert QuietExpr(e.body.body);
    assert QuietExpr(e.body);
  }

  lemma {:induction false} ExponentQuiet(e: Expr)
    requires e == NUM_RULE.body.parts[3] && Quiet("-") && Quiet("+") && Quiet("e") && Quiet("E")
    ensures QuietExpr(e)
  {
    hide Quiet;
    assert QuietExpr(DIGITS);
    var ps := e.body.body.parts;
    assert QuietExpr(ps[0].body) && QuietExpr(ps[1].body.body);
    assert QuietExpr(ps[0]) && QuietExpr(ps[1].body);
    assert QuietExpr(ps[1]);
    assert QuietExpr(e.body.body);
    assert QuietExpr(e.body);
  }

  lemma {:induction false} Concat2(a: string, b: string)
    ensures Concat([a, b]) == a + b
  {
    assert [a, b][1..] == [b] && [b][1..] == [];
    assert Concat([b]) == b + Concat([]);
  }

  lemma {:induction false} Concat3(a: string, b: string, c: string)
    ensures Concat([a, b, c]) == a + b + c
  {
    Concat2(b, c);
    assert [a, b, c][1..] == [b, c];
  }

  lemma {:induction false} StrQuiet(g: seq<Rule>, t: Tree)
    requires Standard(g) && Derives(g, STR_RULE.body, t)
    ensures Quiet(Yield(g, STR_RULE.body, t))
  {
    var chars := Star(Ref("char"));
    assert Derives(g, chars, t.ts[1]);
    var ts := t.ts[1].ts;
    forall i | 0 <= i < |ts| ensures QuietInString(Yield(g, Ref("char"), ts[i])) {
      CharQuiet(g, ts[i].t);
    }
    var body := Yield(g, chars, t.ts[1]);
    QuietInStringAll(seq(|ts|, i requires 0 <= i < |ts| => Yield(g, Ref("char"), ts[i])));
    QuietQuoted(body);
    ThreeParts(g, STR_RULE.body, t);
  }

  lemma {:induction false} ThreeParts(g: seq<Rule>, e: Expr, t: Tree)
    requires e.Cat? && |e.parts| == 3 && Derives(g, e, t)
    ensures Yield(g, e, t) == Yield(g, e.parts[0], t.ts[0]) + Yield(g, e.parts[1], t.ts[1]) + Yield(g, e.parts[2], t.ts[2])
  {
    var ps := e.parts;
    var a, b, c := Yield(g, ps[0], t.ts[0]), Yield(g, ps[1], t.ts[1]), Yield(g, ps[2], t.ts[2]);
    assert seq(|ps|, i requires 0 <= i < |ps| => Yield(g, ps[i], t.ts[i])) == [a, b, c];
    Concat3(a, b, c);
  }

  lemma {:induction false} TwoParts(g: seq<Rule>, e: Expr, t: Tree)
    requires e.Cat? && |e.parts| == 2 && Derives(g, e, t)
    ensures Yield(g, e, t) == Yield(g, e.parts[0], t.ts[0]) + Yield(g, e.parts[1], t.ts[1])
  {
    var ps := e.parts;
    var a, b := Yield(g, ps[0], t.ts[0]), Yield(g, ps[1], t.ts[1]);
    assert seq(|ps|, i requires 0 <= i < |ps| => Yield(g, ps[i], t.ts[i])) == [a, b];
    Concat2(a, b);
  }

  /** One character of a string literal, escaped or not. */
  lemma {:induction false} CharQuiet(g: seq<Rule>, t: Tree)
    requires Derives(g, CHAR_RULE.body, t)
    ensures QuietInString(Yield(g, CHAR_RULE.body, t))
  {
    hide QuietInString;
    if t.i == 0 {
      PlainQuiet(g, t.t);
    } else {
      EscapeQuiet(g, t.t);
    }
  }

  lemma {:induction false} PlainQuiet(g: seq<Rule>, t: Tree)
    requires Derives(g, CHAR_RULE.body.choices[0], t)
    ensures QuietInString(Yield(g, CHAR_RULE.body.choices[0], t))
  {
    var rs := CHAR_RULE.body.choices[0].ranges;
    assert InRanges('"', rs) && InRanges('\\', rs) by {
      assert rs[0] == ('"', '"') && rs[1] == ('\\', '\\');
    }
    assert InRanges('\n', rs) && InRanges('\r', rs) by {
      assert rs[2] == ('\n', '\n') && rs[3] == ('\r', '\r');
    }
    hide QuietInString;
    InStringOne(t.c);
  }

  lemma {:induction false} EscapeQuiet(g: seq<Rule>, t: Tree)
    requires Derives(g, CHAR_RULE.body.choices[1], t)
    ensures QuietInString(Yield(g, CHAR_RULE.body.choices[1], t))
  {
    hide QuietInString;
    var escape := CHAR_RULE.body.choices[1];
    var group := escape.parts[1];
    var u := t.ts[1];
    assert Derives(g, group, u);
    assert Derives(g, group.body, u);
    TwoParts(g, escape, t);
    if u.i == 0 {
      assert Derives(g, group.body.choices[0], u.t);
      assert Yield(g, group, u) == Yield(g, group.body, u) == [u.t.c];
      assert Yield(g, escape.parts[0], t.ts[0]) + [u.t.c] == ['\\', u.t.c];
      InStringEscape(u.t.c);
    } else {
      UnicodeQuiet(g, group.body.choices[1], u.t);
    }
  }
  lemma {:induction false} UnicodeQuiet(g: seq<Rule>, e: Expr, t: Tree)
    requires e == Cat([Lit("u"), HEX, HEX, HEX, HEX]) && Derives(g, e, t)
    ensures QuietInString("\\" + Yield(g, e, t))
  {
    var ps := e.parts;
    var h := [t.ts[1].c, t.ts[2].c, t.ts[3].c, t.ts[4].c];
    var parts := seq(|ps|, i requires 0 <= i < |ps| => Yield(g, ps[i], t.ts[i]));
    assert parts == ["u", [h[0]], [h[1]], [h[2]], [h[3]]];
    forall i | 0 <= i < 4 ensures QuietInString([h[i]]) {
      InStringOne(h[i]);
    }
    var digits := [[h[0]], [h[1]], [h[2]], [h[3]]];
    QuietInStringAll(digits);
    assert parts[0] == "u" && parts[1..] == digits;
    InStringEscape('u');
    QuietInStringConcat(['\\', 'u'], Concat(digits));
    assert "\\" + Concat(parts) == ['\\', 'u'] + Concat(digits);
  }

  lemma {:induction false} ObjQuiet(g: seq<Rule>, t: Tree)
    requires Standard(g) && Derives(g, OBJ_RULE.body, t)
    ensures Quiet(Yield(g, OBJ_RULE.body, t))
    decreases t, OBJ_RULE.body
  {
    ObjShape(g, t);
    QuietBraced(Yield(g, OBJ_RULE.body.parts[1], t.ts[1]));
  }

  /** An object is braces around a quiet body. */
  lemma {:induction false} ObjShape(g: seq<Rule>, t: Tree)
    requires Standard(g) && Derives(g, OBJ_RULE.body, t)
    ensures Yield(g, OBJ_RULE.body, t) == "{" + Yield(g, OBJ_RULE.body.parts[1], t.ts[1]) + "}"
    ensures Quiet(Yield(g, OBJ_RULE.body.parts[1], t.ts[1]))
    decreases t, OBJ_RULE.body.parts[1]
  {
    var inner := OBJ_RULE.body.parts[1];
    ObjInnerQuiet();
    QuietYield(g, inner, t.ts[1]);
    ThreeParts(g, OBJ_RULE.body, t);
  }

  lemma {:induction false} ObjInnerQuiet()
    ensures QuietExpr(OBJ_RULE.body.parts[1])
  {
    var cls := OBJ_RULE.body.parts[1].body.body.choices[0];
    forall c: char | InRanges(c, cls.ranges) != cls.negated
      ensures Inert(c)
    {
      assert cls.ranges[0] == ('{', '{') && cls.ranges[1] == ('}', '}') && cls.ranges[2] == ('"', '"');
      assert cls.ranges[3] == ('\n', '\n') && cls.ranges[4] == ('\r', '\r');
    }
    assert QUIET_RULES[0] == "str" && QUIET_RULES[4] == "obj";
  }

  // ---- productions of one command ---------------------------------------------

  predicate NameChar(c: char) { 'a' <= c <= 'z' || '0' <= c <= '9' || c == '_' }

  predicate NameText(s: string) { forall i :: 0 <= i < |s| ==> NameChar(s[i]) }

  /** What manifest loading guarantees of a listed command. */
  predicate Admitted(v: View) {
    && v.id != "" && SlugText(v.id)
    && v.command.name != "" && SlugText(v.command.name)
    && forall i :: 0 <= i < |v.command.params| ==> NameText(v.command.params[i].name)
  }

  lemma {:induction false} TokenBodyQuiet(v: string)
    ensures QuietInString(TokenBody(v))
  {
    if v != "" {
      TokenBodyQuiet(v[1..]);
      TokenOneQuiet(v[0]);
      QuietInStringConcat(TokenOne(v[0]), TokenBody(v[1..]));
    }
  }

  lemma {:induction false} TokenOneQuiet(c: char)
    ensures QuietInString(TokenOne(c))
  {
    match c
    case '"' => InStringEscape('"');
    case '\\' => InStringEscape('\\');
    case '\n' => InStringEscape('n');
    case '\r' => InStringEscape('r');
    case '\t' => InStringEscape('t');
    case _ => InStringOne(c);
  }

  lemma {:induction false} ValueQuiet(t: Type, depth: nat)
    ensures QuietExpr(ValueExpr(t, depth))
    decreases t
  {
    hide Quiet, Token, TokenBody;
    QuietNames();
    if depth <= MAX_DEPTH {
      match t
      case BooleanT => BooleanQuiet();
      case BytesT(_, _) => TypedQuiet("b");
      case DatetimeT => TypedQuiet("t");
      case DurationT => TypedQuiet("r");
      case UuidT => TypedQuiet("u");
      case EnumT(values) =>
        if values != [] {
          EnumQuiet(values, ValueExpr(t, depth).body.choices);
        }
      case ArrayT(item, _, _) =>
        ValueQuiet(item, depth + 1);
        ArrayQuiet(ValueExpr(item, depth + 1));
      case _ =>
    }
  }

  lemma {:induction false} QuietNames()
    ensures QuietExpr(Ref("str")) && QuietExpr(Ref("int")) && QuietExpr(Ref("num")) && QuietExpr(Ref("ws")) && QuietExpr(Ref("obj"))
  {
  }

  lemma {:induction false} BooleanQuiet()
    ensures QuietExpr(Paren(Alt([Lit("true"), Lit("false")]), false))
  {
    QuietInert("true");
    QuietInert("false");
    assert QuietExpr(Alt([Lit("true"), Lit("false")]));
  }

  lemma {:induction false} EnumQuiet(values: seq<string>, cs: seq<Expr>)
    requires |cs| == |values| && forall i :: 0 <= i < |values| ==> cs[i] == Lit(Token(values[i]))
    ensures QuietExpr(Alt(cs))
  {
    hide Quiet;
    forall i | 0 <= i < |values|
      ensures Quiet(Token(values[i]))
    {
      TokenBodyQuiet(values[i]);
      QuietQuoted(TokenBody(values[i]));
    }
  }

  lemma {:induction false} TypedQuiet(letter: string)
    requires letter in ["b", "t", "r", "u"]
    ensures QuietExpr(Cat([Lit(letter), Ref("str")]))
  {
  }

  lemma {:induction false} ArrayQuiet(v: Expr)
    requires QuietExpr(v)
    ensures QuietExpr(Cat([Lit("["), Opt(Paren(Cat([v, Star(Paren(Cat([Lit(","), Ref("ws"), v]), true))]), true)), Lit("]")]))
  {
    assert QUIET_RULES[3] == "ws";
    QuietInert("[");
    QuietInert(",");
    QuietInert("]");
    var more := Star(Paren(Cat([Lit(","), Ref("ws"), v]), true));
    assert QuietExpr(more.body.body);
    assert QuietExpr(more.body);
    assert QuietExpr(more);
    var list := Opt(Paren(Cat([v, more]), true));
    assert QuietExpr(list.body.body);
    assert QuietExpr(list.body);
    assert QuietExpr(list);
  }

  predicate Names(ps: seq<Param>) { forall i :: 0 <= i < |ps| ==> NameText(ps[i].name) }

  lemma {:induction false} LeadQuiet(p: Param, first: bool)
    requires NameText(p.name)
    ensures Quiet(LeadRequired(p, first))
  {
    QuietInert(p.name + ": ");
    QuietInert(", " + p.name + ": ");
  }

  lemma {:induction false} PartsQuiet(ps: seq<Param>)
    requires Names(ps)
    ensures forall i :: 0 <= i < |RequiredParts(ps)| ==> QuietExpr(RequiredParts(ps)[i])
    ensures forall i :: 0 <= i < |OptionalParts(ps)| ==> QuietExpr(OptionalParts(ps)[i])
  {
    if ps != [] {
      var n := |ps| - 1;
      var p := ps[n];
      PartsQuiet(ps[..n]);
      LeadQuiet(p, true);
      LeadQuiet(p, false);
      ValueQuiet(p.ty, 0);
      var part := Opt(Paren(Cat([Lit(LeadRequired(p, false)), ValueExpr(p.ty, 0)]), true));
      assert QuietExpr(part.body.body);
      assert QuietExpr(part.body);
      assert QuietExpr(part);
    }
  }

  lemma {:induction false} ConcatSnoc(ss: seq<string>, t: string)
    ensures Concat(ss + [t]) == Concat(ss) + t
  {
    if ss == [] {
      assert ss + [t] == [t] && [t][1..] == [];
      assert Concat([t]) == t + Concat([]);
    } else {
      assert (ss + [t])[1..] == ss[1..] + [t];
      ConcatSnoc(ss[1..], t);
    }
  }

  /** A command production spells the call, a space, and braces around quiet text. */
  lemma {:induction false} CommandShape(g: seq<Rule>, v: View, t: Tree) returns (body: string)
    requires Standard(g) && Admitted(v) && Derives(g, CommandExpr(v), t)
    ensures Quiet(body)
    ensures Yield(g, CommandExpr(v), t) == v.id + "." + v.command.name + " " + ("{" + body + "}")
  {
    var call := v.id + "." + v.command.name;
    var ps := v.command.params;
    var e := CommandExpr(v);
    if ps == [] {
      body := "";
      assert call + " {}" == call + " " + ("{" + "" + "}");
    } else if RequiredParts(ps) == [] {
      TwoParts(g, e, t);
      assert Derives(g, Ref("obj"), t.ts[1]);
      var u := t.ts[1].t;
      ObjShape(g, u);
      body := Yield(g, OBJ_RULE.body.parts[1], u.ts[1]);
      assert Yield(g, Ref("obj"), t.ts[1]) == Yield(g, OBJ_RULE.body, u);
      assert Yield(g, Lit(call + " "), t.ts[0]) == call + " ";
    } else {
      PartsQuiet(ps);
      var lead, last := [Lit(call + " {")], [Lit("}")];
      assert lead + RequiredParts(ps) + OptionalParts(ps) + last == lead + (RequiredParts(ps) + OptionalParts(ps)) + last;
      body := FullShape(g, call, RequiredParts(ps) + OptionalParts(ps), t);
    }
  }

  /** A list between a first and a last element, by position. */
  lemma {:induction false} Between<T>(a: T, middle: seq<T>, z: T)
    ensures var ps := [a] + middle + [z];
            |ps| == |middle| + 2 && ps[0] == a && ps[|middle| + 1] == z && forall i :: 0 <= i < |middle| ==> ps[i + 1] == middle[i]
  {
  }

  lemma {:induction false} FramedText(ys: seq<string>, a: string, inner: seq<string>, z: string)
    requires |ys| == |inner| + 2 && ys[0] == a && ys[|inner| + 1] == z && forall i :: 0 <= i < |inner| ==> ys[i + 1] == inner[i]
    ensures Concat(ys) == a + (Concat(inner) + z)
  {
    assert ys[1..] == inner + [z];
    ConcatSnoc(inner, z);
  }

  lemma {:induction false} FullShape(g: seq<Rule>, call: string, middle: seq<Expr>, t: Tree) returns (body: string)
    requires Standard(g) && forall i :: 0 <= i < |middle| ==> QuietExpr(middle[i])
    requires Derives(g, Cat([Lit(call + " {")] + middle + [Lit("}")]), t)
    ensures Quiet(body)
    ensures Yield(g, Cat([Lit(call + " {")] + middle + [Lit("}")]), t) == call + " " + ("{" + body + "}")
  {
    var ps := [Lit(call + " {")] + middle + [Lit("}")];
    Between(Lit(call + " {"), middle, Lit("}"));
    var ys := seq(|ps|, i requires 0 <= i < |ps| => Yield(g, ps[i], t.ts[i]));
    var inner := seq(|middle|, i requires 0 <= i < |middle| => ys[i + 1]);
    assert Yield(g, Cat(ps), t) == Concat(ys) && ys[0] == call + " {" && ys[|middle| + 1] == "}";
    hide Quiet, QuietExpr, Standard;
    forall i | 0 <= i < |middle|
      ensures Quiet(inner[i])
    {
      QuietYield(g, middle[i], t.ts[i + 1]);
    }
    QuietAll(inner);
    body := Concat(inner);
    FramedText(ys, call + " {", inner, "}");
    assert call + " {" + (body + "}") == call + " " + ("{" + body + "}");
  }
  // ---- rule names ------------------------------------------------------------------

  predicate Distinct(names: seq<string>) {
    forall i, j :: 0 <= i < j < |names| ==> names[i] != names[j]
  }

  lemma {:induction false} FreeNameFree(v: View, suffix: nat, taken: seq<string>)
    requires FreeName(v, suffix, taken).Some?
    ensures FreeName(v, suffix, taken).value !in taken
    ensures FreeName(v, suffix, taken).value != "" && FreeName(v, suffix, taken).value[0] == 't'
    decreases MAX_SUFFIX + 1 - suffix
  {
    if Candidate(v, suffix) in taken {
      FreeNameFree(v, suffix + 1, taken);
    }
  }

  /** No two commands share a rule, and no command takes a shared terminal's name. */
  lemma {:induction false} RuleNamesDistinct(views: seq<View>)
    requires RuleNames(views).Some?
    ensures Distinct(RuleNames(views).value)
    ensures forall i :: 0 <= i < |views| ==> RuleNames(views).value[i] != "" && RuleNames(views).value[i][0] == 't'
  {
    if views != [] {
      var n := |views| - 1;
      var names := RuleNames(views[..n]).value;
      RuleNamesDistinct(views[..n]);
      FreeNameFree(views[n], 1, names);
      assert RuleNames(views).value == names + [FreeName(views[n], 1, names).value];
    }
  }

  lemma {:induction false} CandidateInjective(v: View, j: nat, k: nat)
    requires Candidate(v, j) == Candidate(v, k)
    ensures j == k
  {
    var base := "t-" + v.id + "-c-" + v.command.name;
    if j != 1 && k != 1 {
      assert Numeral(j) == Candidate(v, j)[|base| + 1..] == Candidate(v, k)[|base| + 1..] == Numeral(k);
      assert Text.Value(Numeral(j)) == Text.Value(Numeral(k));
    }
  }

  lemma {:induction false} TooManyTaken(v: View, suffix: nat, taken: seq<string>, seen: set<string>)
    requires 1 <= suffix <= MAX_SUFFIX + 1 && FreeName(v, suffix, taken).None?
    requires |seen| == suffix - 1 && forall c :: c in seen ==> c in taken
    requires forall c :: c in seen ==> exists k :: 1 <= k < suffix && c == Candidate(v, k)
    ensures MAX_SUFFIX <= |(set c | c in taken)|
    decreases MAX_SUFFIX + 1 - suffix
  {
    var all := set c | c in taken;
    if suffix == MAX_SUFFIX + 1 {
      Subset(seen, all);
    } else {
      var c := Candidate(v, suffix);
      assert c !in seen by {
        if c in seen {
          var k :| 1 <= k < suffix && c == Candidate(v, k);
          CandidateInjective(v, k, suffix);
          assert false;
        }
      }
      TooManyTaken(v, suffix + 1, taken, seen + {c});
    }
  }

  lemma {:induction false} Subset<T>(a: set<T>, b: set<T>)
    requires a <= b
    ensures |a| <= |b|
  {
    if a != {} {
      var x :| x in a;
      Subset(a - {x}, b - {x});
    }
  }

  lemma {:induction false} SetSize(s: seq<string>)
    ensures |(set c | c in s)| <= |s|
  {
    if s != [] {
      SetSize(s[1..]);
      assert (set c | c in s) == {s[0]} + (set c | c in s[1..]);
    }
  }

  /** Names never run out for up to a million commands. */
  lemma {:induction false} NamesSuffice(views: seq<View>)
    requires |views| <= MAX_SUFFIX
    ensures RuleNames(views).Some?
  {
    if views != [] {
      var n := |views| - 1;
      NamesSuffice(views[..n]);
      var names := RuleNames(views[..n]).value;
      if FreeName(views[n], 1, names).None? {
        TooManyTaken(views[n], 1, names, {});
        SetSize(names);
        assert false;
      }
    }
  }

  // ---- the exported grammar ----------------------------------------------------

  lemma {:induction false} LookupAt(rs: seq<Rule>, i: nat)
    requires i < |rs| && forall j :: 0 <= j < i ==> rs[j].name != rs[i].name
    ensures Lookup(rs, rs[i].name) == Some(rs[i].body)
  {
    if i > 0 {
      LookupAt(rs[1..], i - 1);
    }
  }

  lemma {:induction false} GrammarLookups(views: seq<View>, names: seq<string>)
    requires RuleNames(views) == Some(names)
    ensures var g := Grammar(views, names);
            && Standard(g)
            && Lookup(g, "root") == Some(ROOT_RULE.body) && Lookup(g, "call") == Some(CallRule(names).body)
            && forall i :: 0 <= i < |views| ==> Lookup(g, names[i]) == Some(CommandExpr(views[i]))
  {
    hide Lookup, Grammar, CommandExpr, RuleNames, CallRule, Standard;
    var g := Grammar(views, names);
    RuleNamesDistinct(views);
    GrammarRules(views, names);
    CallRuleNamed(names);
    LookupAt(g, 0);
    LookupAt(g, 1);
    forall i | 0 <= i < |views|
      ensures Lookup(g, names[i]) == Some(CommandExpr(views[i]))
    {
      LookupCommand(g, views, names, i);
    }
    LookupTerminals(g, |views|);
  }

  /** The rules of an exported grammar, by position. */
  ghost predicate Listed(g: seq<Rule>, views: seq<View>, names: seq<string>) {
    && |names| == |views| && |g| == |views| + 8
    && g[0] == ROOT_RULE && g[1] == CallRule(names)
    && (forall i {:trigger names[i]} :: 0 <= i < |names| ==> g[i + 2] == Rule(names[i], CommandExpr(views[i])))
    && (forall i :: 2 <= i < |views| + 2 ==> g[i].name == names[i - 2])
    && forall k :: 0 <= k < 6 ==> g[|views| + 2 + k] == TERMINALS[k]
  }

  lemma {:induction false} GrammarRules(views: seq<View>, names: seq<string>)
    requires |names| == |views|
    ensures Listed(Grammar(views, names), views, names)
  {
    hide CommandExpr, CallRule;
    var g, cs := Grammar(views, names), CommandRules(views, names);
    Positions(ROOT_RULE, CallRule(names), cs, TERMINALS);
    assert g == [ROOT_RULE, CallRule(names)] + cs + TERMINALS && |TERMINALS| == 6;
    hide Grammar, CommandRules;
    forall i | 0 <= i < |names|
      ensures g[i + 2] == Rule(names[i], CommandExpr(views[i]))
    {
      assert g[i + 2] == cs[i];
    }
    forall i | 2 <= i < |views| + 2
      ensures g[i].name == names[i - 2]
    {
      assert g[i] == cs[i - 2];
    }
  }

  lemma {:induction false} Positions<T>(a: T, b: T, cs: seq<T>, ts: seq<T>)
    ensures var g := [a, b] + cs + ts;
            && |g| == 2 + |cs| + |ts| && g[0] == a && g[1] == b
            && (forall i {:trigger cs[i]} :: 0 <= i < |cs| ==> g[i + 2] == cs[i])
            && (forall i :: 2 <= i < |cs| + 2 ==> g[i] == cs[i - 2])
            && forall k :: 0 <= k < |ts| ==> g[|cs| + 2 + k] == ts[k]
  {
  }

  lemma {:induction false} LookupCommand(g: seq<Rule>, views: seq<View>, names: seq<string>, i: nat)
    requires Listed(g, views, names) && Distinct(names) && i < |names|
    requires forall k :: 0 <= k < |names| ==> names[k] != "" && names[k][0] == 't'
    ensures Lookup(g, names[i]) == Some(CommandExpr(views[i]))
  {
    hide Lookup, CommandExpr, CallRule;
    assert g[0].name == "root";
    assert g[1].name == "call" by {
      CallRuleNamed(names);
    }
    LookupAt(g, i + 2);
  }

  lemma {:induction false} CallRuleNamed(names: seq<string>)
    ensures CallRule(names).name == "call"
  {
  }

  lemma {:induction false} LookupTerminals(g: seq<Rule>, n: nat)
    requires |g| == n + 8 && forall k :: 0 <= k < 6 ==> g[n + 2 + k] == TERMINALS[k]
    requires g[0].name == "root" && g[1].name == "call"
    requires forall i :: 2 <= i < n + 2 ==> g[i].name != "" && g[i].name[0] == 't'
    ensures Standard(g)
  {
    assert g[n + 2 + 0] == TERMINALS[0] == STR_RULE;
    assert g[n + 2 + 1] == TERMINALS[1] == CHAR_RULE;
    assert g[n + 2 + 2] == TERMINALS[2] == INT_RULE;
    assert g[n + 2 + 3] == TERMINALS[3] == NUM_RULE;
    assert g[n + 2 + 4] == TERMINALS[4] == WS_RULE;
    assert g[n + 2 + 5] == TERMINALS[5] == OBJ_RULE;
    LookupAt(g, n + 2);
    LookupAt(g, n + 3);
    LookupAt(g, n + 4);
    LookupAt(g, n + 5);
    LookupAt(g, n + 6);
    LookupAt(g, n + 7);
  }

  /** The sentence in which command i is called as c derives it. */
  function Calling(i: nat, c: Tree): Tree { Expand(Many([Leaf, Expand(Pick(i, Expand(c))), Leaf])) }

  lemma {:induction false} RootParts(g: seq<Rule>, t: Tree) returns (call: Tree)
    requires Lookup(g, "root") == Some(ROOT_RULE.body) && Derives(g, Ref("root"), t)
    ensures Derives(g, Ref("call"), call) && t == Expand(Many([Leaf, call, Leaf]))
  {
    hide Lookup;
    var root, ts := ROOT_RULE.body, t.t.ts;
    assert Derives(g, root, t.t);
    assert Derives(g, root.parts[0], ts[0]) && Derives(g, root.parts[1], ts[1]) && Derives(g, root.parts[2], ts[2]);
    call := ts[1];
    assert ts == [Leaf, call, Leaf];
  }

  lemma {:induction false} CallParts(g: seq<Rule>, names: seq<string>, call: Tree) returns (i: nat, n: Tree)
    requires names != [] && Lookup(g, "call") == Some(CallRule(names).body) && Derives(g, Ref("call"), call)
    ensures i < |names| && Derives(g, Ref(names[i]), n) && call == Expand(Pick(i, n))
  {
    hide Lookup;
    var alt := CallRule(names).body;
    assert Derives(g, alt, call.t);
    i, n := call.t.i, call.t.t;
    assert alt.choices[i] == Ref(names[i]);
  }

  lemma {:induction false} NameParts(g: seq<Rule>, name: string, e: Expr, n: Tree) returns (c: Tree)
    requires Lookup(g, name) == Some(e) && Derives(g, Ref(name), n)
    ensures Derives(g, e, c) && n == Expand(c)
  {
    c := n.t;
  }

  lemma {:induction false} CallingText(g: seq<Rule>, names: seq<string>, i: nat, c: Tree, e: Expr)
    requires Lookup(g, "root") == Some(ROOT_RULE.body) && Lookup(g, "call") == Some(CallRule(names).body)
    requires i < |names| && Lookup(g, names[i]) == Some(e) && Derives(g, e, c) && Derives(g, Ref("root"), Calling(i, c))
    ensures Yield(g, Ref("root"), Calling(i, c)) == KEYWORD + Yield(g, e, c) + "\n"
  {
    hide Lookup;
    var root, t := ROOT_RULE.body, Calling(i, c);
    assert Derives(g, root, t.t);
    ThreeParts(g, root, t.t);
    var call, alt := t.t.ts[1], CallRule(names).body;
    assert Derives(g, Ref("call"), call) && alt.choices[i] == Ref(names[i]);
    assert Yield(g, Ref("call"), call) == Yield(g, alt, call.t) == Yield(g, Ref(names[i]), Expand(c)) == Yield(g, e, c);
    assert Yield(g, Ref("root"), t) == Yield(g, root, t.t);
    assert Yield(g, root.parts[0], t.t.ts[0]) == KEYWORD;
  }

  /** How a sentence of the exported grammar is built. */
  lemma {:induction false} SentenceShape(views: seq<View>, names: seq<string>, t: Tree) returns (i: nat, body: string)
    requires RuleNames(views) == Some(names) && views != []
    requires forall k :: 0 <= k < |views| ==> Admitted(views[k])
    requires Derives(Grammar(views, names), Ref("root"), t)
    ensures i < |views| && Quiet(body) && exists c :: t == Calling(i, c)
    ensures Yield(Grammar(views, names), Ref("root"), t)
         == KEYWORD + (views[i].id + "." + views[i].command.name + " " + ("{" + body + "}")) + "\n"
  {
    var g := Grammar(views, names);
    GrammarLookups(views, names);
    hide Lookup, CommandExpr, Grammar, Derives, CallRule, Yield, Quiet, Standard;
    var call := RootParts(g, t);
    var n;
    i, n := CallParts(g, names, call);
    var c := NameParts(g, names[i], CommandExpr(views[i]), n);
    assert t == Calling(i, c);
    CallingText(g, names, i, c, CommandExpr(views[i]));
    body := CommandShape(g, views[i], c);
  }

  /** The recognizer reads a call line back, unless a NUL cuts it short. */
  lemma {:induction false} ReadBack(id: string, command: string, body: string)
    requires id != "" && SlugText(id) && command != "" && SlugText(command) && Quiet(body)
    ensures var args := "{" + body + "}";
            var line := KEYWORD + (id + "." + command + " " + args);
            && Parse(line + "\n") == (if Contains(args, NUL) then None else Some(Call(id, command, args)))
            && (forall k :: 0 <= k < |line| ==> line[k] != '\n' && line[k] != '\r')
            && Closed(args)
  {
    var args := "{" + body + "}";
    var call := Call(id, command, args);
    var line := KEYWORD + (id + "." + command + " " + args);
    var s := line + "\n";
    ClosedBraced(body);
    assert FirstAt(id) == |id| && id[..|id|] == id;
    LineClean(id, command, args);
    if Contains(args, NUL) {
      CutShort(id, command, args);
    } else {
      assert !Contains(s, NUL) by {
        NulOnlyInArgs(id, command, args);
      }
      assert s[|line|] == NEWLINE && forall k :: 0 <= k < |line| ==> s[k] == line[k] != NEWLINE;
      assert LineEnd(s) == |line| && s[..|line|] == line;
      SpelledLine(id, command, args);
      ParseLineComplete(line, call, "", "", " ", "");
    }
  }

  lemma {:induction false} SpelledLine(id: string, command: string, args: string)
    requires RefText(id) && command != "" && SlugText(command) && Closed(args)
    ensures Spells(KEYWORD + (id + "." + command + " " + args), Call(id, command, args), "", "", " ", "")
  {
  }

  lemma {:induction false} LineClean(id: string, command: string, args: string)
    requires SlugText(id) && SlugText(command) && OneLine(args)
    ensures OneLine(KEYWORD + (id + "." + command + " " + args))
  {
  }

  lemma {:induction false} NulOnlyInArgs(id: string, command: string, args: string)
    requires SlugText(id) && SlugText(command)
    ensures var pre := KEYWORD + id + "." + command + " ";
            && (forall k :: 0 <= k < |pre| ==> pre[k] != NUL)
            && KEYWORD + (id + "." + command + " " + args) == pre + args
  {
  }

  /** A NUL inside the object leaves it unclosed, and the line is skipped. */
  lemma {:induction false} CutShort(id: string, command: string, args: string)
    requires RefText(id) && SlugText(id) && command != "" && SlugText(command)
    requires Closed(args) && OneLine(args) && Contains(args, NUL)
    ensures Parse(KEYWORD + (id + "." + command + " " + args) + "\n").None?
  {
    var pre := KEYWORD + id + "." + command + " ";
    NulOnlyInArgs(id, command, args);
    var s := pre + args + "\n";
    var seen := CString(s);
    var k :| 0 <= k < |args| && args[k] == NUL;
    assert s[|pre| + k] == NUL;
    assert |pre| <= |seen| < |pre| + |args| by {
      assert forall j :: 0 <= j < |pre| ==> s[j] == pre[j];
      assert s[|seen|] == NUL by {
        assert Contains(s, NUL);
      }
      assert forall j :: 0 <= j < |seen| ==> seen[j] == s[j] && seen[j] != NUL;
    }
    var part := args[..|seen| - |pre|];
    assert seen == pre + part;
    Unclosed(args, |part|);
    assert LineEnd(seen) == |seen| by {
      assert forall j :: 0 <= j < |seen| ==> seen[j] == s[j];
      LineClean(id, command, args);
      assert forall j :: 0 <= j < |seen| ==> s[j] == (KEYWORD + (id + "." + command + " " + args))[j];
    }
    assert seen[..|seen|] == seen;
    UnclosedLine(id, command, part);
  }

  lemma {:induction false} Unclosed(args: string, n: nat)
    requires Closed(args) && n < |args|
    ensures CloseLength(START, args[..n]).None?
  {
    assert args[..n] + args[n..] == args;
    if CloseLength(START, args[..n]).Some? {
      CloseLengthPrefix(START, args[..n], args[n..]);
    }
  }

  lemma {:induction false} UnclosedLine(id: string, command: string, part: string)
    requires RefText(id) && command != "" && SlugText(command)
    requires CloseLength(START, part).None? && (part == "" || part[0] == '{')
    ensures ParseLine(KEYWORD + id + "." + command + " " + part).None?
  {
    var token := id + "." + command;
    var p := KEYWORD + token;
    var line := p + " " + part;
    Shift3(KEYWORD, id, ".", command);
    TokenOf(id, command);
    UnclosedCuts(token, part);
    hide TokenStart, TokenEnd, ObjectAt, RefText, SlugText, ParseLine, Blanks;
    assert TokenStart(line) == Some(5) by {
      TokenStartAt(line, "", "", token + (" " + part));
    }
    assert TokenEnd(line, 5) == |p| && line[5..|p|] == token by {
      TokenEndAt(line, KEYWORD, token, " " + part);
    }
    UnclosedObject(line, p, part);
    NoObjectNoCall(line, 5);
  }

  lemma {:induction false} UnclosedObject(line: string, p: string, part: string)
    requires line == p + " " + part && CloseLength(START, part).None? && (part == "" || part[0] == '{')
    ensures ObjectAt(line, |p|).None?
  {
    SkipBlanksAt(line, p, " ", part);
    assert line[|p| + 1..] == part;
  }

  lemma {:induction false} NoObjectNoCall(line: string, t0: nat)
    requires TokenStart(line) == Some(t0) && ObjectAt(line, TokenEnd(line, t0)).None?
    ensures ParseLine(line).None?
  {
  }

  lemma {:induction false} UnclosedCuts(token: string, part: string)
    ensures var line := KEYWORD + token + " " + part;
            && line == "" + KEYWORD + "" + (token + (" " + part))
            && line == KEYWORD + token + (" " + part)
  {
  }

  /** Grammar soundness: a sentence is one line, its only newline is its last
      character, and the recognizer returns exactly the tool id, the command and
      the whole object that the sentence spells. A sentence holding a NUL, which C
      text cannot carry, is refused. */
  lemma {:induction false} SentencesAreCalls(views: seq<View>, names: seq<string>, t: Tree)
    requires RuleNames(views) == Some(names) && views != []
    requires forall k :: 0 <= k < |views| ==> Admitted(views[k])
    requires Derives(Grammar(views, names), Ref("root"), t)
    ensures var s := Yield(Grammar(views, names), Ref("root"), t);
            exists i, args :: 0 <= i < |views| && IsCallLine(s, views[i], args)
  {
    var i, body := SentenceShape(views, names, t);
    CallLineRead(views[i], body);
  }

  /** s is the line that calls v with args, and is read back as that. */
  ghost predicate IsCallLine(s: string, v: View, args: string) {
    && s == KEYWORD + (v.id + "." + v.command.name + " " + args) + "\n"
    && Closed(args)
    && OneLine(s[..|s| - 1])
    && Parse(s) == (if Contains(s, NUL) then None else Some(Call(v.id, v.command.name, args)))
  }

  lemma {:induction false} CallLineRead(v: View, body: string)
    requires Admitted(v) && Quiet(body)
    ensures IsCallLine(KEYWORD + (v.id + "." + v.command.name + " " + ("{" + body + "}")) + "\n", v, "{" + body + "}")
  {
    var args := "{" + body + "}";
    var line := KEYWORD + (v.id + "." + v.command.name + " " + args);
    var s := line + "\n";
    ReadBack(v.id, v.command.name, body);
    assert s[..|s| - 1] == line;
    NulOnlyInArgs(v.id, v.command.name, args);
    NulInLine(KEYWORD + v.id + "." + v.command.name + " ", args);
  }

  lemma {:induction false} NulInLine(pre: string, args: string)
    requires forall k :: 0 <= k < |pre| ==> pre[k] != NUL
    ensures Contains(pre + args + "\n", NUL) <==> Contains(args, NUL)
  {
    var s := pre + args + "\n";
    if Contains(args, NUL) {
      var k :| 0 <= k < |args| && args[k] == NUL;
      assert s[|pre| + k] == NUL;
    }
    if Contains(s, NUL) {
      var k :| 0 <= k < |s| && s[k] == NUL;
      assert k >= |pre| && args[k - |pre|] == NUL;
    }
  }

  /** With no commands the grammar still has one sentence, and it is no call. */
  lemma {:induction false} EmptyRegistry(t: Tree)
    requires Derives(Grammar([], []), Ref("root"), t)
    ensures Yield(Grammar([], []), Ref("root"), t) == "CALL \n" && Parse("CALL \n").None?
  {
    var g := Grammar([], []);
    GrammarLookups([], []);
    assert Derives(g, ROOT_RULE.body, t.t);
    ThreeParts(g, ROOT_RULE.body, t.t);
    assert Derives(g, Ref("call"), t.t.ts[1]);
    assert KEYWORD + "" + "\n" == "CALL \n";
    EmptyCallRefused();
  }

  lemma {:induction false} EmptyCallRefused()
    ensures Parse("CALL \n").None?
  {
    var s := "CALL \n";
    OneLineText();
    NothingCalled();
    hide ParseLine, LineEnd, CString;
    assert s[..5] == KEYWORD && s[6..] == "";
  }

  lemma {:induction false} OneLineText()
    ensures CString("CALL \n") == "CALL \n" && LineEnd("CALL \n") == 5 && LineEnd("") == 0
  {
    var s := "CALL \n";
    assert !Contains(s, NUL);
    assert s[5] == NEWLINE && forall k :: 0 <= k < 5 ==> s[k] != NEWLINE;
  }

  lemma {:induction false} NothingCalled()
    ensures ParseLine(KEYWORD).None? && ParseLine("").None?
  {
    hide ObjectAt;
    TokenStartAt(KEYWORD, "", "", "");
    assert SplitToken("").None?;
  }
  // ---- literals mean what they were made from -----------------------------------

  /** How a GBNF reader takes the inside of a quoted literal. */
  function Unescaped(s: string): string
    decreases |s|
  {
    if s == "" then ""
    else if s[0] == '\\' && |s| >= 2 then [ControlOf(s[1])] + Unescaped(s[2..])
    else [s[0]] + Unescaped(s[1..])
  }

  function ControlOf(c: char): char {
    match c case 'n' => '\n' case 'r' => '\r' case 't' => '\t' case _ => c
  }

  lemma {:induction false} UnescapedEscaped(t: string)
    ensures Unescaped(Escaped(t)) == t
  {
    if t != "" {
      UnescapedEscaped(t[1..]);
      var e := Escaped(t);
      var rest := Escaped(t[1..]);
      if t[0] == '"' || t[0] == '\\' || t[0] == '\n' || t[0] == '\r' {
        assert e[0] == '\\' && e[2..] == rest;
      } else {
        assert e == [t[0]] + rest && e[1..] == rest;
      }
      assert t == [t[0]] + t[1..];
    }
  }

  lemma {:induction false} UnescapedFirst(c: char, rest: string)
    ensures c != '\\' ==> Unescaped([c] + rest) == [c] + Unescaped(rest)
    ensures Unescaped(['\\', c] + rest) == [ControlOf(c)] + Unescaped(rest)
  {
    assert ([c] + rest)[1..] == rest && (['\\', c] + rest)[2..] == rest;
  }

  lemma {:induction false} OneUnescaped(c: char, rest: string)
    ensures Unescaped(TokenOne(c) + rest) == [c] + Unescaped(rest)
  {
    UnescapedFirst(c, rest);
    UnescapedFirst('n', rest);
    UnescapedFirst('r', rest);
    UnescapedFirst('t', rest);
    UnescapedFirst('"', rest);
    hide Unescaped;
  }

  lemma {:induction false} UnescapedToken(v: string)
    ensures Unescaped(TokenBody(v)) == v
  {
    if v != "" {
      UnescapedToken(v[1..]);
      OneUnescaped(v[0], TokenBody(v[1..]));
      assert v == [v[0]] + v[1..];
    }
  }
  /** The doubly escaped enum literal: a grammar reader sees the xCDN token, and
      the token denotes the enum value. */
  lemma {:induction false} EnumLiteralMeaning(v: string)
    ensures Unescaped(Escaped(Token(v))) == "\"" + TokenBody(v) + "\"" && Unescaped(TokenBody(v)) == v
  {
    UnescapedEscaped(Token(v));
    UnescapedToken(v);
  }

  // ---- every command can be called ------------------------------------------------

  /** A shortest derivation. */
  function Shortest(e: Expr): Tree
    decreases e
  {
    match e
    case Lit(_) => Leaf
    case Ref(n) => Expand(ShortestTerminal(n))
    case Class(_, _, ranges) => Chr(if ranges == [] then ' ' else ranges[0].0)
    case Cat(ps) => Many(seq(|ps|, i requires 0 <= i < |ps| => Shortest(ps[i])))
    case Alt(cs) => if cs == [] then Leaf else Pick(0, Shortest(cs[0]))
    case Paren(b, _) => Shortest(b)
    case Opt(_) => Many([])
    case Star(_) => Many([])
    case Plus(b) => Many([Shortest(b)])
  }

  function ShortestTerminal(name: string): Tree {
    var digits := Many([Chr('0')]);
    if name == "str" || name == "obj" then Many([Leaf, Many([]), Leaf])
    else if name == "int" then Many([Many([]), digits])
    else if name == "num" then Many([Many([]), digits, Many([]), Many([])])
    else Many([])
  }

  /** Every choice offers something and classes list their members. */
  ghost predicate Productive(e: Expr) {
    match e
    case Lit(_) => true
    case Ref(n) => n in QUIET_RULES
    case Class(_, negated, ranges) => !negated && ranges != [] && ranges[0].0 <= ranges[0].1
    case Cat(ps) => forall i :: 0 <= i < |ps| ==> Productive(ps[i])
    case Alt(cs) => cs != [] && Productive(cs[0])
    case Paren(b, _) => Productive(b)
    case Opt(_) => true
    case Star(_) => true
    case Plus(b) => Productive(b)
  }

  lemma {:induction false} ShortestDerives(g: seq<Rule>, e: Expr)
    requires Standard(g) && Productive(e)
    ensures Derives(g, e, Shortest(e))
  {
    match e
    case Lit(_) =>
    case Ref(n) => TerminalDerives(g, n);
    case Class(_, _, ranges) => assert ranges[0].0 <= ranges[0].0 <= ranges[0].1;
    case Cat(ps) =>
      forall i | 0 <= i < |ps| ensures Derives(g, ps[i], Shortest(ps[i])) {
        ShortestDerives(g, ps[i]);
      }
    case Alt(cs) => ShortestDerives(g, cs[0]);
    case Paren(b, _) => ShortestDerives(g, b);
    case Opt(_) =>
    case Star(_) =>
    case Plus(b) => ShortestDerives(g, b);
  }

  lemma {:induction false} TerminalDerives(g: seq<Rule>, n: string)
    requires Standard(g) && n in QUIET_RULES
    ensures Derives(g, Ref(n), Expand(ShortestTerminal(n)))
  {
    if n == "str" || n == "obj" {
      BracketedDerives(g, n);
    } else {
      PlainDerives(g, n);
    }
  }

  lemma {:induction false} BracketedDerives(g: seq<Rule>, n: string)
    requires Standard(g) && (n == "str" || n == "obj")
    ensures Derives(g, Ref(n), Expand(ShortestTerminal(n)))
  {
    hide Lookup;
    var body := if n == "str" then STR_RULE.body else OBJ_RULE.body;
    assert Derives(g, body.parts[1], Many([]));
    assert Derives(g, body, ShortestTerminal(n));
  }

  lemma {:induction false} PlainDerives(g: seq<Rule>, n: string)
    requires Standard(g) && (n == "int" || n == "num" || n == "ws")
    ensures Derives(g, Ref(n), Expand(ShortestTerminal(n)))
  {
    hide Lookup;
    DigitsDerive(g);
    var t := ShortestTerminal(n);
    if n == "int" {
      assert Derives(g, INT_RULE.body, t);
    } else if n == "num" {
      assert Derives(g, NUM_RULE.body, t);
    } else {
      assert Derives(g, WS_RULE.body, t);
    }
  }

  lemma {:induction false} DigitsDerive(g: seq<Rule>)
    ensures Derives(g, DIGITS, Many([Chr('0')]))
  {
    assert DIGITS.body.ranges[0] == ('0', '9');
    assert Derives(g, DIGITS.body, Chr('0'));
  }

  lemma {:induction false} ValueProductive(t: Type, depth: nat)
    ensures Productive(ValueExpr(t, depth))
    decreases t
  {
  }

  lemma {:induction false} PartsProductive(ps: seq<Param>)
    ensures forall i :: 0 <= i < |RequiredParts(ps)| ==> Productive(RequiredParts(ps)[i])
    ensures forall i :: 0 <= i < |OptionalParts(ps)| ==> Productive(OptionalParts(ps)[i])
  {
    if ps != [] {
      PartsProductive(ps[..|ps| - 1]);
      ValueProductive(ps[|ps| - 1].ty, 0);
    }
  }

  function Sentence(i: nat, e: Expr): Tree {
    Calling(i, Shortest(e))
  }

  lemma {:induction false} CommandProductive(v: View)
    ensures Productive(CommandExpr(v))
  {
    PartsProductive(v.command.params);
    assert QUIET_RULES[4] == "obj";
  }

  lemma {:induction false} CallDerives(g: seq<Rule>, names: seq<string>, i: nat, t: Tree)
    requires i < |names| && Lookup(g, "call") == Some(CallRule(names).body)
    requires Derives(g, Ref(names[i]), t)
    ensures Derives(g, Ref("call"), Expand(Pick(i, t)))
  {
  }

  lemma {:induction false} SentenceDerives(views: seq<View>, names: seq<string>, i: nat)
    requires RuleNames(views) == Some(names) && i < |views|
    ensures Derives(Grammar(views, names), Ref("root"), Sentence(i, CommandExpr(views[i])))
  {
    var g := Grammar(views, names);
    var e := CommandExpr(views[i]);
    GrammarLookups(views, names);
    assert Derives(g, e, Shortest(e)) by {
      CommandProductive(views[i]);
      ShortestDerives(g, e);
    }
    CallDerives(g, names, i, Expand(Shortest(e)));
    RootDerives(g, Expand(Pick(i, Expand(Shortest(e)))));
  }

  lemma {:induction false} RootDerives(g: seq<Rule>, c: Tree)
    requires Lookup(g, "root") == Some(ROOT_RULE.body) && Derives(g, Ref("call"), c)
    ensures Derives(g, Ref("root"), Expand(Many([Leaf, c, Leaf])))
  {
  }

  /** The grammar leaves no listed command out: some sentence calls each one. */
  lemma {:induction false} EveryCommandCallable(views: seq<View>, names: seq<string>, i: nat)
    requires RuleNames(views) == Some(names) && i < |views|
    requires forall k :: 0 <= k < |views| ==> Admitted(views[k])
    ensures var t := Sentence(i, CommandExpr(views[i]));
            && Derives(Grammar(views, names), Ref("root"), t)
            && exists args :: IsCallLine(Yield(Grammar(views, names), Ref("root"), t), views[i], args)
  {
    hide Derives, Yield, RuleNames, Grammar, CommandExpr, IsCallLine, Admitted;
    var t := Sentence(i, CommandExpr(views[i]));
    SentenceDerives(views, names, i);
    var k, body := SentenceShape(views, names, t);
    CallLineRead(views[k], body);
  }
}
