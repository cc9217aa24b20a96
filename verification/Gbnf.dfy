/** GBNF grammars and the exporter that writes one production per command
    (src/gbnf.c). A grammar is a list of rules over syntax trees; Render is the
    concrete GBNF text of a tree, and the exporter is proved to write that text. */
module Gbnf {
  import opened Text
  import opened Types

  // ---- grammars -------------------------------------------------------------

  /** Class carries its bracket text and the ranges it stands for. */
  datatype Expr =
    | Lit(text: string)
    | Ref(name: string)
    | Class(shown: string, negated: bool, ranges: seq<(char, char)>)
    | Cat(parts: seq<Expr>)
    | Alt(choices: seq<Expr>)
    | Paren(body: Expr, spaced: bool)
    | Opt(body: Expr)
    | Star(body: Expr)
    | Plus(body: Expr)

  datatype Rule = Rule(name: string, body: Expr)

  function Escaped(t: string): string {
    if t == "" then ""
    else
      (match t[0]
       case '"' => "\\\""
       case '\\' => "\\\\"
       case '\n' => "\\n"
       case '\r' => "\\r"
       case c => [c]) + Escaped(t[1..])
  }

  function Render(e: Expr): string {
    match e
    case Lit(t) => "\"" + Escaped(t) + "\""
    case Ref(n) => n
    case Class(shown, _, _) => shown
    case Cat(ps) => RenderAll(ps, " ")
    case Alt(cs) => RenderAll(cs, " | ")
    case Paren(b, spaced) => if spaced then "( " + Render(b) + " )" else "(" + Render(b) + ")"
    case Opt(b) => Render(b) + "?"
    case Star(b) => Render(b) + "*"
    case Plus(b) => Render(b) + "+"
  }

  /** Renderings joined by sep. */
  function RenderAll(es: seq<Expr>, sep: string): string {
    if |es| == 0 then "" else
    if |es| == 1 then Render(es[0]) else
    RenderAll(es[..|es| - 1], sep) + sep + Render(es[|es| - 1])
  }

  function RenderRule(r: Rule): string { r.name + " ::= " + Render(r.body) + "\n" }

  function RenderRules(rs: seq<Rule>): string {
    if rs == [] then "" else RenderRules(rs[..|rs| - 1]) + RenderRule(rs[|rs| - 1])
  }

  /** The body of the first rule with that name. */
  function Lookup(rs: seq<Rule>, name: string): Option<Expr> {
    if rs == [] then None else if rs[0].name == name then Some(rs[0].body) else Lookup(rs[1..], name)
  }

  // ---- the language of a grammar ----------------------------------------------

  datatype Tree = Leaf | Chr(c: char) | Expand(t: Tree) | Pick(i: nat, t: Tree) | Many(ts: seq<Tree>)

  predicate InRanges(c: char, ranges: seq<(char, char)>) {
    exists i :: 0 <= i < |ranges| && ranges[i].0 <= c <= ranges[i].1
  }

  /** t is a derivation from e. */
  ghost predicate Derives(g: seq<Rule>, e: Expr, t: Tree)
    decreases t, e
  {
    match e
    case Lit(_) => t.Leaf?
    case Ref(n) => t.Expand? && Lookup(g, n).Some? && Derives(g, Lookup(g, n).value, t.t)
    case Class(_, negated, ranges) => t.Chr? && InRanges(t.c, ranges) != negated
    case Cat(ps) => t.Many? && |t.ts| == |ps| && forall i :: 0 <= i < |ps| ==> Derives(g, ps[i], t.ts[i])
    case Alt(cs) => t.Pick? && t.i < |cs| && Derives(g, cs[t.i], t.t)
    case Paren(b, _) => Derives(g, b, t)
    case Opt(b) => t.Many? && |t.ts| <= 1 && forall i :: 0 <= i < |t.ts| ==> Derives(g, b, t.ts[i])
    case Star(b) => t.Many? && forall i :: 0 <= i < |t.ts| ==> Derives(g, b, t.ts[i])
    case Plus(b) => t.Many? && 1 <= |t.ts| && forall i :: 0 <= i < |t.ts| ==> Derives(g, b, t.ts[i])
  }

  /** The text a derivation spells. */
  ghost function Yield(g: seq<Rule>, e: Expr, t: Tree): string
    requires Derives(g, e, t)
    decreases t, e
  {
    match e
    case Lit(text) => text
    case Ref(n) => Yield(g, Lookup(g, n).value, t.t)
    case Class(_, _, _) => [t.c]
    case Cat(ps) => Concat(seq(|ps|, i requires 0 <= i < |ps| => Yield(g, ps[i], t.ts[i])))
    case Alt(cs) => Yield(g, cs[t.i], t.t)
    case Paren(b, _) => Yield(g, b, t)
    case Opt(b) => Concat(seq(|t.ts|, i requires 0 <= i < |t.ts| => Yield(g, b, t.ts[i])))
    case Star(b) => Concat(seq(|t.ts|, i requires 0 <= i < |t.ts| => Yield(g, b, t.ts[i])))
    case Plus(b) => Concat(seq(|t.ts|, i requires 0 <= i < |t.ts| => Yield(g, b, t.ts[i])))
  }

  function Concat(ss: seq<string>): string {
    if ss == [] then "" else ss[0] + Concat(ss[1..])
  }

  // ---- the exported grammar -----------------------------------------------------

  /** A tool id with one of its commands. */
  datatype View = View(id: string, command: Command)

  const MAX_DEPTH := 32

  const QUOTE := Lit("\"")

  /** xCDN string token for v, quotes included. */
  function Token(v: string): string { "\"" + TokenBody(v) + "\"" }

  function TokenBody(v: string): string {
    if v == "" then "" else TokenOne(v[0]) + TokenBody(v[1..])
  }

  function TokenOne(c: char): string {
    match c
    case '"' => "\\\""
    case '\\' => "\\\\"
    case '\n' => "\\n"
    case '\r' => "\\r"
    case '\t' => "\\t"
    case _ => [c]
  }

  function ValueExpr(t: Type, depth: nat): Expr {
    if depth > MAX_DEPTH then Ref("obj") else
    match t
    case StringT(_, _) => Ref("str")
    case PathT(_, _) => Ref("str")
    case IntegerT(_, _) => Ref("int")
    case NumberT(_, _) => Ref("num")
    case BooleanT => Paren(Alt([Lit("true"), Lit("false")]), false)
    case BytesT(_, _) => Cat([Lit("b"), Ref("str")])
    case DatetimeT => Cat([Lit("t"), Ref("str")])
    case DurationT => Cat([Lit("r"), Ref("str")])
    case UuidT => Cat([Lit("u"), Ref("str")])
    case EnumT(values) =>
      if values == [] then Ref("str")
      else Paren(Alt(seq(|values|, i requires 0 <= i < |values| => Lit(Token(values[i])))), false)
    case ArrayT(item, _, _) =>
      var v := ValueExpr(item, depth + 1);
      Cat([Lit("["), Opt(Paren(Cat([v, Star(Paren(Cat([Lit(","), Ref("ws"), v]), true))]), true)), Lit("]")])
    case MapT(_, _) => Ref("obj")
    case ObjectT(_) => Ref("obj")
  }

  function RequiredParts(ps: seq<Param>): seq<Expr> {
    if ps == [] then [] else
    var done := RequiredParts(ps[..|ps| - 1]);
    var p := ps[|ps| - 1];
    if !p.required then done
    else done + [Lit(if done == [] then p.name + ": " else ", " + p.name + ": "), ValueExpr(p.ty, 0)]
  }

  function OptionalParts(ps: seq<Param>): seq<Expr> {
    if ps == [] then [] else
    var done := OptionalParts(ps[..|ps| - 1]);
    var p := ps[|ps| - 1];
    if p.required then done
    else done + [Opt(Paren(Cat([Lit(", " + p.name + ": "), ValueExpr(p.ty, 0)]), true))]
  }

  function CommandExpr(v: View): Expr {
    var call := v.id + "." + v.command.name;
    var ps := v.command.params;
    if ps == [] then Lit(call + " {}")
    else if RequiredParts(ps) == [] then Cat([Lit(call + " "), Ref("obj")])
    else Cat([Lit(call + " {")] + RequiredParts(ps) + OptionalParts(ps) + [Lit("}")])
  }

  const MAX_SUFFIX := 1000000

  function Candidate(v: View, suffix: nat): string {
    var base := "t-" + v.id + "-c-" + v.command.name;
    if suffix == 1 then base else base + "-" + Numeral(suffix)
  }

  /** The first candidate, from suffix on, that no earlier rule took. */
  function FreeName(v: View, suffix: nat, taken: seq<string>): Option<string>
    decreases MAX_SUFFIX + 1 - suffix
  {
    if suffix > MAX_SUFFIX then None
    else if Candidate(v, suffix) !in taken then Some(Candidate(v, suffix))
    else FreeName(v, suffix + 1, taken)
  }

  /** One rule name per command, in order. */
  function RuleNames(views: seq<View>): (r: Option<seq<string>>)
    ensures r.Some? ==> |r.value| == |views|
  {
    if views == [] then Some([]) else
    match RuleNames(views[..|views| - 1])
    case None => None
    case Some(names) =>
      match FreeName(views[|views| - 1], 1, names)
      case None => None
      case Some(n) => Some(names + [n])
  }

  const HEX := Class("[0-9a-fA-F]", false, [('0', '9'), ('a', 'f'), ('A', 'F')])
  const DIGITS := Plus(Class("[0-9]", false, [('0', '9')]))

  const STR_RULE := Rule("str", Cat([QUOTE, Star(Ref("char")), QUOTE]))
  const CHAR_RULE := Rule("char", Alt([
    Class("[^\"\\\\\\n\\r]", true, [('"', '"'), ('\\', '\\'), ('\n', '\n'), ('\r', '\r')]),
    Cat([Lit("\\"), Paren(Alt([
      Class("[\"\\\\/bfnrt]", false, [('"', '"'), ('\\', '\\'), ('/', '/'), ('b', 'b'),
                                      ('f', 'f'), ('n', 'n'), ('r', 'r'), ('t', 't')]),
      Cat([Lit("u"), HEX, HEX, HEX, HEX])]), false)])]))
  const INT_RULE := Rule("int", Cat([Opt(Lit("-")), DIGITS]))
  const NUM_RULE := Rule("num", Cat([
    Opt(Lit("-")), DIGITS,
    Opt(Paren(Cat([Lit("."), DIGITS]), false)),
    Opt(Paren(Cat([Paren(Alt([Lit("e"), Lit("E")]), false),
                   Opt(Paren(Alt([Lit("+"), Lit("-")]), false)),
                   DIGITS]), false))]))
  const WS_RULE := Rule("ws", Star(Class("[ ]", false, [(' ', ' ')])))
  const OBJ_RULE := Rule("obj", Cat([
    Lit("{"),
    Star(Paren(Alt([
      Class("[^{}\"\\n\\r]", true, [('{', '{'), ('}', '}'), ('"', '"'), ('\n', '\n'), ('\r', '\r')]),
      Ref("str"), Ref("obj")]), false)),
    Lit("}")]))

  const TERMINALS := [STR_RULE, CHAR_RULE, INT_RULE, NUM_RULE, WS_RULE, OBJ_RULE]

  const ROOT_RULE := Rule("root", Cat([Lit("CALL "), Ref("call"), Lit("\n")]))

  function CallRule(names: seq<string>): Rule {
    Rule("call", if names == [] then Lit("") else Alt(seq(|names|, i requires 0 <= i < |names| => Ref(names[i]))))
  }

  function CommandRules(views: seq<View>, names: seq<string>): (rs: seq<Rule>)
    requires |names| == |views|
    ensures |rs| == |views|
    ensures forall i :: 0 <= i < |rs| ==> rs[i] == Rule(names[i], CommandExpr(views[i]))
  {
    seq(|views|, i requires 0 <= i < |views| => Rule(names[i], CommandExpr(views[i])))
  }

  function Grammar(views: seq<View>, names: seq<string>): seq<Rule>
    requires |names| == |views|
  {
    [ROOT_RULE, CallRule(names)] + CommandRules(views, names) + TERMINALS
  }

  // ---- the exporter ---------------------------------------------------------------

  predicate IsPlain(c: char) { c != '"' && c != '\\' && c != '\n' && c != '\r' }

  predicate Plain(s: string) { forall i :: 0 <= i < |s| ==> IsPlain(s[i]) }

  /** Tool ids, command names and parameter names never need escaping. */
  predicate PlainView(v: View) {
    && Plain(v.id) && Plain(v.command.name)
    && forall i :: 0 <= i < |v.command.params| ==> Plain(v.command.params[i].name)
  }

  lemma {:induction false} EscapedPlain(s: string)
    requires Plain(s)
    ensures Escaped(s) == s
  {
    if s != "" {
      EscapedPlain(s[1..]);
      assert s == [s[0]] + s[1..];
    }
  }

  lemma {:induction false} EscapedConcat(s: string, t: string)
    ensures Escaped(s + t) == Escaped(s) + Escaped(t)
  {
    if s == "" {
      assert s + t == t;
    } else {
      assert (s + t)[1..] == s[1..] + t;
      EscapedConcat(s[1..], t);
    }
  }

  lemma {:induction false} TokenBodySnoc(v: string, c: char)
    ensures TokenBody(v + [c]) == TokenBody(v) + TokenBody([c])
  {
    if v == "" {
      assert v + [c] == [c];
    } else {
      assert (v + [c])[1..] == v[1..] + [c];
      TokenBodySnoc(v[1..], c);
    }
  }

  /** The escape written for one byte of an enum value is the GBNF escape of its
      xCDN escape. */
  lemma {:induction false} DoublyEscaped(c: char, shown: string)
    requires shown == match c
                      case '"' => "\\\\\\\""
                      case '\\' => "\\\\\\\\"
                      case '\n' => "\\\\n"
                      case '\r' => "\\\\r"
                      case '\t' => "\\\\t"
                      case c => [c]
    ensures Escaped(TokenBody([c])) == shown
  {
    assert [c][1..] == "";
    var b := TokenBody([c]);
    if |b| == 2 {
      assert b == [b[0]] + [b[1]];
      EscapedConcat([b[0]], [b[1]]);
      assert [b[0]][1..] == "";
    }
  }

  method EmitEnumChar(b: Buffer, c: char)
    modifies b
    ensures b.text == old(b.text) + Escaped(TokenBody([c]))
  {
    var shown := [c];
    if c == '"' {
      shown := "\\\\\\\"";
    } else if c == '\\' {
      shown := "\\\\\\\\";
    } else if c == '\n' {
      shown := "\\\\n";
    } else if c == '\r' {
      shown := "\\\\r";
    } else if c == '\t' {
      shown := "\\\\t";
    }
    b.Append(shown);
    DoublyEscaped(c, shown);
  }

  method EmitEnumLit(b: Buffer, v: string)
    modifies b
    ensures b.text == old(b.text) + Render(Lit(Token(v)))
  {
    b.Append("\"");
    b.Append("\\\"");
    EmitEnumBody(b, v);
    b.Append("\\\"");
    b.Append("\"");
    TokenRendered(v);
    Shift5(old(b.text), "\"", "\\\"", Escaped(TokenBody(v)), "\\\"", "\"");
  }

  method EmitEnumBody(b: Buffer, v: string)
    modifies b
    ensures b.text == old(b.text) + Escaped(TokenBody(v))
  {
    for i := 0 to |v|
      invariant b.text == old(b.text) + Escaped(TokenBody(v[..i]))
    {
      EmitEnumChar(b, v[i]);
      EnumBodySnoc(v, i);
      Shift2(old(b.text), Escaped(TokenBody(v[..i])), Escaped(TokenBody([v[i]])));
    }
    assert v[..|v|] == v;
  }

  lemma {:induction false} EnumBodySnoc(v: string, i: nat)
    requires i < |v|
    ensures Escaped(TokenBody(v[..i + 1])) == Escaped(TokenBody(v[..i])) + Escaped(TokenBody([v[i]]))
  {
    assert v[..i + 1] == v[..i] + [v[i]];
    TokenBodySnoc(v[..i], v[i]);
    EscapedConcat(TokenBody(v[..i]), TokenBody([v[i]]));
  }

  // Appending piece by piece or all at once.

  lemma {:induction false} Shift2(o: string, a: string, b: string)
    ensures o + a + b == o + (a + b)
  {
  }

  lemma {:induction false} Shift3(o: string, a: string, b: string, c: string)
    ensures o + a + b + c == o + (a + b + c)
  {
  }

  lemma {:induction false} Shift5(o: string, a: string, b: string, c: string, d: string, e: string)
    ensures o + a + b + c + d + e == o + (a + b + c + d + e)
  {
  }

  lemma {:induction false} TokenRendered(v: string)
    ensures Render(Lit(Token(v))) == "\"" + "\\\"" + Escaped(TokenBody(v)) + "\\\"" + "\""
  {
    assert Escaped("\"") == "\\\"" by {
      assert "\""[1..] == "";
    }
    EscapedConcat("\"", TokenBody(v));
    EscapedConcat("\"" + TokenBody(v), "\"");
  }

  lemma {:induction false} RenderTwo(a: Expr, b: Expr, sep: string)
    ensures RenderAll([a, b], sep) == Render(a) + sep + Render(b)
  {
  }

  lemma {:induction false} RenderThree(a: Expr, b: Expr, c: Expr, sep: string)
    ensures RenderAll([a, b, c], sep) == Render(a) + sep + Render(b) + sep + Render(c)
  {
    assert [a, b, c][..2] == [a, b];
    RenderTwo(a, b, sep);
  }

  lemma {:induction false} RenderSnoc(es: seq<Expr>, e: Expr, sep: string)
    ensures RenderAll(es + [e], sep) == if es == [] then Render(e) else RenderAll(es, sep) + sep + Render(e)
  {
  }

  lemma {:induction false} RenderLit(s: string)
    requires Plain(s)
    ensures Render(Lit(s)) == "\"" + s + "\""
  {
    EscapedPlain(s);
  }

  lemma {:induction false} TypedString(letter: char)
    requires IsPlain(letter)
    ensures Render(Cat([Lit([letter]), Ref("str")])) == "\"" + [letter] + "\" str"
  {
    RenderTwo(Lit([letter]), Ref("str"), " ");
    RenderLit([letter]);
  }

  lemma {:induction false} BooleanText()
    ensures Render(ValueExpr(BooleanT, 0)) == "(\"true\" | \"false\")"
  {
    RenderTwo(Lit("true"), Lit("false"), " | ");
    hide Escaped;
    RenderLit("true");
    RenderLit("false");
    BooleanLetters();
  }

  lemma {:induction false} BooleanLetters()
    ensures "(" + ("\"" + "true" + "\"" + " | " + ("\"" + "false" + "\"")) + ")" == "(\"true\" | \"false\")"
  {
  }

  lemma {:induction false} ArrayText(v: Expr)
    ensures Render(Cat([Lit("["), Opt(Paren(Cat([v, Star(Paren(Cat([Lit(","), Ref("ws"), v]), true))]), true)), Lit("]")]))
         == "\"[\" ( " + Render(v) + " ( \",\" ws " + Render(v) + " )* )? \"]\""
  {
    var r := Render(v);
    var more := Star(Paren(Cat([Lit(","), Ref("ws"), v]), true));
    var list := Opt(Paren(Cat([v, more]), true));
    assert Render(more) == "( \",\" ws " + r + " )*" by {
      assert Render(more.body) == "( " + Render(more.body.body) + " )";
      RenderThree(Lit(","), Ref("ws"), v, " ");
      RenderLit(",");
      MoreText(r);
    }
    assert Render(list) == "( " + (r + " " + Render(more)) + " )" + "?" by {
      assert Render(list.body) == "( " + Render(list.body.body) + " )";
      RenderTwo(v, more, " ");
    }
    assert Render(Lit("[")) == "\"[\"" && Render(Lit("]")) == "\"]\"" by {
      RenderLit("[");
      RenderLit("]");
    }
    RenderThree(Lit("["), list, Lit("]"), " ");
    ListText(r);
  }

  lemma {:induction false} MoreText(r: string)
    ensures "( " + ("\"" + "," + "\"" + " " + "ws" + " " + r) + " )" + "*" == "( \",\" ws " + r + " )*"
  {
  }

  lemma {:induction false} ListText(r: string)
    ensures "\"[\"" + " " + ("( " + (r + " " + ("( \",\" ws " + r + " )*")) + " )" + "?") + " " + "\"]\""
         == "\"[\" ( " + r + " ( \",\" ws " + r + " )* )? \"]\""
  {
  }

  method EmitValue(b: Buffer, t: Type, depth: nat)
    modifies b
    ensures b.text == old(b.text) + Render(ValueExpr(t, depth))
    decreases t
  {
    hide Escaped, RenderAll;
    if depth > MAX_DEPTH {
      b.Append("obj");
      return;
    }
    match t
    case StringT(_, _) => b.Append("str");
    case PathT(_, _) => b.Append("str");
    case IntegerT(_, _) => b.Append("int");
    case NumberT(_, _) => b.Append("num");
    case BooleanT =>
      BooleanText();
      b.Append("(\"true\" | \"false\")");
    case BytesT(_, _) =>
      TypedString('b');
      b.Append("\"b\" str");
    case DatetimeT =>
      TypedString('t');
      b.Append("\"t\" str");
    case DurationT =>
      TypedString('r');
      b.Append("\"r\" str");
    case UuidT =>
      TypedString('u');
      b.Append("\"u\" str");
    case EnumT(values) =>
      EmitEnum(b, values);
    case ArrayT(item, _, _) =>
      ghost var v := ValueExpr(item, depth + 1);
      ArrayText(v);
      b.Append("\"[\" ( ");
      EmitValue(b, item, depth + 1);
      b.Append(" ( \",\" ws ");
      EmitValue(b, item, depth + 1);
      b.Append(" )* )? \"]\"");
      Shift5(old(b.text), "\"[\" ( ", Render(v), " ( \",\" ws ", Render(v), " )* )? \"]\"");
    case MapT(_, _) => b.Append("obj");
    case ObjectT(_) => b.Append("obj");
  }

  method EmitEnum(b: Buffer, values: seq<string>)
    modifies b
    ensures b.text == old(b.text) + Render(ValueExpr(EnumT(values), 0))
  {
    if |values| == 0 {
      b.Append("str");
      return;
    }
    ghost var lits := seq(|values|, i requires 0 <= i < |values| => Lit(Token(values[i])));
    b.Append("(");
    EmitChoices(b, values, lits);
    b.Append(")");
    Shift3(old(b.text), "(", RenderAll(lits, " | "), ")");
  }

  method EmitChoices(b: Buffer, values: seq<string>, ghost lits: seq<Expr>)
    requires |lits| == |values| && forall i :: 0 <= i < |values| ==> lits[i] == Lit(Token(values[i]))
    modifies b
    ensures b.text == old(b.text) + RenderAll(lits, " | ")
  {
    for i := 0 to |values|
      invariant b.text == old(b.text) + RenderAll(lits[..i], " | ")
    {
      if i > 0 {
        b.Append(" | ");
      }
      EmitEnumLit(b, values[i]);
      assert lits[..i + 1] == lits[..i] + [lits[i]];
      RenderSnoc(lits[..i], lits[i], " | ");
      if i > 0 {
        Shift3(old(b.text), RenderAll(lits[..i], " | "), " | ", Render(lits[i]));
      }
    }
    assert lits[..|values|] == lits;
  }

  // ---- one production per command -----------------------------------------------

  function LeadRequired(p: Param, first: bool): string { if first then p.name + ": " else ", " + p.name + ": " }

  lemma {:induction false} CommandParts(v: View)
    requires RequiredParts(v.command.params) != []
    ensures Render(CommandExpr(v))
         == Render(Lit(v.id + "." + v.command.name + " {"))
            + Spaced(RequiredParts(v.command.params)) + Spaced(OptionalParts(v.command.params)) + Spaced([Lit("}")])
  {
    var ps := v.command.params;
    var head := Lit(v.id + "." + v.command.name + " {");
    RenderSpaced([head], RequiredParts(ps));
    RenderSpaced([head] + RequiredParts(ps), OptionalParts(ps));
    RenderSpaced([head] + RequiredParts(ps) + OptionalParts(ps), [Lit("}")]);
  }

  /** Renderings, each preceded by a space. */
  function Spaced(es: seq<Expr>): string {
    if es == [] then "" else Spaced(es[..|es| - 1]) + " " + Render(es[|es| - 1])
  }

  lemma {:induction false} RenderSpaced(done: seq<Expr>, more: seq<Expr>)
    requires done != []
    ensures RenderAll(done + more, " ") == RenderAll(done, " ") + Spaced(more)
    decreases |more|
  {
    if more == [] {
      assert done + more == done;
    } else {
      var n := |more| - 1;
      RenderSpaced(done, more[..n]);
      assert done + more == done + more[..n] + [more[n]];
      RenderSnoc(done + more[..n], more[n], " ");
      Shift3(RenderAll(done, " "), Spaced(more[..n]), " ", Render(more[n]));
    }
  }

  lemma {:induction false} SpacedConcat(s: seq<Expr>, t: seq<Expr>)
    ensures Spaced(s + t) == Spaced(s) + Spaced(t)
    decreases |t|
  {
    if t == [] {
      assert s + t == s;
    } else {
      var n := |t| - 1;
      SpacedConcat(s, t[..n]);
      assert s + t == s + t[..n] + [t[n]];
      assert (s + t)[..|s + t| - 1] == s + t[..n];
      Shift3(Spaced(s), Spaced(t[..n]), " ", Render(t[n]));
    }
  }

  lemma {:induction false} SpacedTwo(a: Expr, b: Expr)
    ensures Spaced([a, b]) == " " + Render(a) + " " + Render(b)
  {
    assert [a, b][..1] == [a];
    SpacedOne(a);
  }

  lemma {:induction false} SpacedOne(a: Expr)
    ensures Spaced([a]) == " " + Render(a)
  {
  }

  lemma {:induction false} PlainLead(p: Param, first: bool)
    requires Plain(p.name)
    ensures Render(Lit(LeadRequired(p, first))) == (if first then "\"" else "\", ") + p.name + ": \""
  {
    var lead := LeadRequired(p, first);
    RenderLit(lead);
    if first {
      assert "\"" + (p.name + ": ") + "\"" == "\"" + p.name + ": \"";
    } else {
      assert "\"" + (", " + p.name + ": ") + "\"" == "\", " + p.name + ": \"";
    }
  }

  method EmitRequired(b: Buffer, ps: seq<Param>)
    requires forall i :: 0 <= i < |ps| ==> Plain(ps[i].name)
    modifies b
    ensures b.text == old(b.text) + Spaced(RequiredParts(ps))
  {
    var first := true;
    for i := 0 to |ps|
      invariant first <==> RequiredParts(ps[..i]) == []
      invariant b.text == old(b.text) + Spaced(RequiredParts(ps[..i]))
    {
      var p := ps[i];
      ghost var done := RequiredParts(ps[..i]);
      assert ps[..i + 1][..i] == ps[..i];
      if p.required {
        ghost var lead, value := Lit(LeadRequired(p, first)), ValueExpr(p.ty, 0);
        if first {
          b.Append(" \"" + p.name + ": \" ");
        } else {
          b.Append(" \", " + p.name + ": \" ");
        }
        EmitValue(b, p.ty, 0);
        LeadText(p, first);
        SpacedTwo(lead, value);
        SpacedConcat(done, [lead, value]);
        assert RequiredParts(ps[..i + 1]) == done + [lead, value];
        AppendStep(old(b.text), Spaced(done), " " + Render(lead) + " ", Render(value));
        first := false;
      }
    }
    assert ps[..|ps|] == ps;
  }

  lemma {:induction false} AppendStep(o: string, d: string, a: string, b: string)
    ensures o + d + a + b == o + (d + (a + b))
  {
  }

  lemma {:induction false} LeadText(p: Param, first: bool)
    requires Plain(p.name)
    ensures " " + Render(Lit(LeadRequired(p, first))) + " "
         == (if first then " \"" else " \", ") + p.name + ": \" "
  {
    PlainLead(p, first);
    var q := if first then "\"" else "\", ";
    Shift3(" ", q, p.name, ": \"");
    Shift2(" " + q + p.name, ": \"", " ");
    assert " " + q == if first then " \"" else " \", ";
    assert ": \"" + " " == ": \" ";
  }

  method EmitOptional(b: Buffer, ps: seq<Param>)
    requires forall i :: 0 <= i < |ps| ==> Plain(ps[i].name)
    modifies b
    ensures b.text == old(b.text) + Spaced(OptionalParts(ps))
  {
    for i := 0 to |ps|
      invariant b.text == old(b.text) + Spaced(OptionalParts(ps[..i]))
    {
      var p := ps[i];
      ghost var done := OptionalParts(ps[..i]);
      assert ps[..i + 1][..i] == ps[..i];
      if !p.required {
        ghost var value := ValueExpr(p.ty, 0);
        ghost var part := Opt(Paren(Cat([Lit(LeadRequired(p, false)), value]), true));
        b.Append(" ( \", " + p.name + ": \" ");
        EmitValue(b, p.ty, 0);
        b.Append(" )?");
        OptionalText(p, value);
        SpacedOne(part);
        SpacedConcat(done, [part]);
        assert OptionalParts(ps[..i + 1]) == done + [part];
        Shift3(old(b.text) + Spaced(done), " ( \", " + p.name + ": \" ", Render(value), " )?");
        Shift2(old(b.text), Spaced(done), " " + Render(part));
      }
    }
    assert ps[..|ps|] == ps;
  }

  lemma {:induction false} OptionalText(p: Param, value: Expr)
    requires Plain(p.name)
    ensures " " + Render(Opt(Paren(Cat([Lit(LeadRequired(p, false)), value]), true)))
         == " ( \", " + p.name + ": \" " + Render(value) + " )?"
  {
    var lead := Lit(LeadRequired(p, false));
    var cat := Cat([lead, value]);
    RenderTwo(lead, value, " ");
    PlainLead(p, false);
    var r := Render(value);
    assert Render(Paren(cat, true)) == "( " + Render(cat) + " )";
    var l := "\", " + p.name + ": \"";
    assert Render(Opt(Paren(cat, true))) == "( " + (l + " " + r) + " )" + "?";
    assert " " + ("( " + (l + " " + r) + " )" + "?") == (" ( " + l + " ") + r + (" )" + "?");
    assert " ( " + l + " " == " ( \", " + p.name + ": \" ";
  }

  method EmitCommand(b: Buffer, name: string, v: View)
    requires PlainView(v)
    modifies b
    ensures b.text == old(b.text) + RenderRule(Rule(name, CommandExpr(v)))
  {
    var ps := v.command.params;
    var required := 0;
    for i := 0 to |ps|
      invariant required == 0 <==> RequiredParts(ps[..i]) == []
      invariant 0 <= required
    {
      assert ps[..i + 1][..i] == ps[..i];
      if ps[i].required {
        required := required + 1;
      }
    }
    assert ps[..|ps|] == ps;
    var call := v.id + "." + v.command.name;
    assert Plain(call);
    b.Append(name + " ::= ");
    ghost var start := b.text;
    if |ps| == 0 {
      b.Append("\"" + call + " {}\"\n");
      RenderLit(call + " {}");
      assert "\"" + (call + " {}") + "\"" + "\n" == "\"" + call + " {}\"\n";
      FinishRule(old(b.text), name, v, start, b.text);
    } else if required == 0 {
      b.Append("\"" + call + " \" obj\n");
      GenericText(v, call);
      FinishRule(old(b.text), name, v, start, b.text);
    } else {
      b.Append("\"" + call + " {\"");
      EmitRequired(b, ps);
      EmitOptional(b, ps);
      b.Append(" \"}\"\n");
      FullText(v, call);
      CommandParts(v);
      ghost var h, r, o := "\"" + call + " {\"", Spaced(RequiredParts(ps)), Spaced(OptionalParts(ps));
      Shift5(start, h, r, o, " \"}\"", "\n");
      assert b.text == start + h + r + o + " \"}\"" + "\n" by {
        assert " \"}\"" + "\n" == " \"}\"\n";
        Shift2(start + h + r + o, " \"}\"", "\n");
      }
      FinishRule(old(b.text), name, v, start, b.text);
    }
  }

  lemma {:induction false} FinishRule(o: string, name: string, v: View, start: string, finish: string)
    requires start == o + (name + " ::= ")
    requires finish == start + (Render(CommandExpr(v)) + "\n")
    ensures finish == o + RenderRule(Rule(name, CommandExpr(v)))
  {
  }

  lemma {:induction false} GenericText(v: View, call: string)
    requires PlainView(v) && call == v.id + "." + v.command.name
    requires v.command.params != [] && RequiredParts(v.command.params) == []
    ensures Render(CommandExpr(v)) + "\n" == "\"" + call + " \" obj\n"
  {
    RenderTwo(Lit(call + " "), Ref("obj"), " ");
    RenderLit(call + " ");
    assert "\"" + (call + " ") + "\"" == "\"" + call + " \"";
    assert "\"" + call + " \"" + " " + "obj" + "\n" == "\"" + call + " \" obj\n";
  }

  lemma {:induction false} FullText(v: View, call: string)
    requires PlainView(v) && call == v.id + "." + v.command.name
    ensures Render(Lit(call + " {")) == "\"" + call + " {\""
    ensures Spaced([Lit("}")]) == " \"}\""
  {
    RenderLit(call + " {");
    assert "\"" + (call + " {") + "\"" == "\"" + call + " {\"";
    SpacedOne(Lit("}"));
    RenderLit("}");
  }

  // ---- rule names and the whole text --------------------------------------------

  method IsTaken(candidate: string, taken: seq<string>) returns (clash: bool)
    ensures clash <==> candidate in taken
  {
    for i := 0 to |taken|
      invariant forall j :: 0 <= j < i ==> taken[j] != candidate
    {
      if taken[i] == candidate {
        return true;
      }
    }
    return false;
  }

  method MakeRuleName(v: View, taken: seq<string>) returns (r: Option<string>)
    ensures r == FreeName(v, 1, taken)
  {
    var suffix := 1;
    while suffix <= MAX_SUFFIX
      invariant 1 <= suffix <= MAX_SUFFIX + 1
      invariant FreeName(v, 1, taken) == FreeName(v, suffix, taken)
      decreases MAX_SUFFIX + 1 - suffix
    {
      var candidate := Candidate(v, suffix);
      var clash := IsTaken(candidate, taken);
      if !clash {
        return Some(candidate);
      }
      suffix := suffix + 1;
    }
    return None;
  }

  lemma {:induction false} NamesSnoc(views: seq<View>, i: nat)
    requires i < |views| && RuleNames(views[..i]).Some?
    ensures var names := RuleNames(views[..i]).value;
            RuleNames(views[..i + 1]) == match FreeName(views[i], 1, names)
                                         case None => None
                                         case Some(n) => Some(names + [n])
  {
    assert views[..i + 1][..i] == views[..i];
  }

  method BuildRules(views: seq<View>) returns (r: Option<seq<string>>)
    ensures r == RuleNames(views)
  {
    var names := [];
    for i := 0 to |views|
      invariant RuleNames(views[..i]) == Some(names)
    {
      var name := MakeRuleName(views[i], names);
      NamesSnoc(views, i);
      if name.None? {
        NoLaterNames(views, i + 1);
        return None;
      }
      names := names + [name.value];
    }
    assert views[..|views|] == views;
    return Some(names);
  }

  lemma {:induction false} NoLaterNames(views: seq<View>, n: nat)
    requires n <= |views| && RuleNames(views[..n]).None?
    ensures RuleNames(views).None?
    decreases |views| - n
  {
    if n < |views| {
      assert views[..n + 1][..n] == views[..n];
      NoLaterNames(views, n + 1);
    } else {
      assert views[..n] == views;
    }
  }

  /** astools_gbnf_commands: the text of the grammar, or None when names run out. */
  method ExportCommands(views: seq<View>) returns (r: Option<string>)
    requires forall i :: 0 <= i < |views| ==> PlainView(views[i])
    ensures r == match RuleNames(views)
                 case None => None
                 case Some(names) => Some(RenderRules(Grammar(views, names)))
  {
    var names := BuildRules(views);
    if names.None? {
      return None;
    }
    var b := new Buffer();
    EmitHead(b, names.value);
    ghost var head := [ROOT_RULE, CallRule(names.value)];
    ghost var rules := CommandRules(views, names.value);
    EmitRules(b, views, names.value);
    b.Append(TERMINAL_TEXT);
    TerminalText();
    RulesConcat(head, rules);
    RulesConcat(head + rules, TERMINALS);
    return Some(b.text);
  }

  method EmitHead(b: Buffer, names: seq<string>)
    requires b.text == ""
    modifies b
    ensures b.text == RenderRules([ROOT_RULE, CallRule(names)])
  {
    EmitRoot(b);
    EmitCall(b, names);
    RulesTwo(ROOT_RULE, CallRule(names));
    Shift2("", RenderRule(ROOT_RULE), RenderRule(CallRule(names)));
  }

  method EmitRoot(b: Buffer)
    modifies b
    ensures b.text == old(b.text) + RenderRule(ROOT_RULE)
  {
    RootText();
    b.Append("root ::= \"CALL \" call \"\\n\"\n");
  }

  method EmitCall(b: Buffer, names: seq<string>)
    modifies b
    ensures b.text == old(b.text) + RenderRule(CallRule(names))
  {
    CallText(names);
    if |names| == 0 {
      b.Append("call ::= \"\"\n");
    } else {
      b.Append("call ::= ");
      EmitAlternatives(b, names);
      b.Append("\n");
      Shift3(old(b.text), "call ::= ", RenderAll(seq(|names|, i requires 0 <= i < |names| => Ref(names[i])), " | "), "\n");
    }
  }

  method EmitRules(b: Buffer, views: seq<View>, names: seq<string>)
    requires |names| == |views| && forall i :: 0 <= i < |views| ==> PlainView(views[i])
    modifies b
    ensures b.text == old(b.text) + RenderRules(CommandRules(views, names))
  {
    ghost var rules := CommandRules(views, names);
    for i := 0 to |views|
      invariant b.text == old(b.text) + RenderRules(rules[..i])
    {
      EmitCommand(b, names[i], views[i]);
      assert rules[..i + 1] == rules[..i] + [rules[i]];
      RulesSnoc(rules[..i], rules[i]);
      Shift2(old(b.text), RenderRules(rules[..i]), RenderRule(rules[i]));
    }
    assert rules[..|views|] == rules;
  }

  // k_terminals, rule by rule
  const STR_TEXT := "str ::= \"\\\"\" char* \"\\\"\"\n"
  const CHAR_TEXT := CHAR_HEAD + CHAR_TAIL
  const CHAR_HEAD := "char ::= [^\"\\\\\\n\\r] | \"\\\\\" ([\"\\\\/bfnrt] | \"u\" [0-9a-fA-F]"
  const CHAR_TAIL := " [0-9a-fA-F] [0-9a-fA-F] [0-9a-fA-F])\n"
  const INT_TEXT := "int ::= \"-\"? [0-9]+\n"
  const NUM_TEXT := NUM_HEAD + NUM_TAIL
  const NUM_HEAD := "num ::= \"-\"? [0-9]+ (\".\" [0-9]+)? ((\"e\" | \"E\") (\"+\" | \"-\")?"
  const NUM_TAIL := " [0-9]+)?\n"
  const WS_TEXT := "ws ::= [ ]*\n"
  const OBJ_TEXT := "obj ::= \"{\" ([^{}\"\\n\\r] | str | obj)* \"}\"\n"

  /** The text that closes every exported grammar. */
  const TERMINAL_TEXT := STR_TEXT + CHAR_TEXT + INT_TEXT + NUM_TEXT + WS_TEXT + OBJ_TEXT

  method EmitAlternatives(b: Buffer, names: seq<string>)
    modifies b
    ensures b.text == old(b.text) + RenderAll(seq(|names|, i requires 0 <= i < |names| => Ref(names[i])), " | ")
  {
    ghost var refs := seq(|names|, i requires 0 <= i < |names| => Ref(names[i]));
    for i := 0 to |names|
      invariant b.text == old(b.text) + RenderAll(refs[..i], " | ")
    {
      if i > 0 {
        b.Append(" | ");
      }
      b.Append(names[i]);
      assert refs[..i + 1] == refs[..i] + [refs[i]];
      RenderSnoc(refs[..i], refs[i], " | ");
      if i > 0 {
        Shift3(old(b.text), RenderAll(refs[..i], " | "), " | ", names[i]);
      }
    }
    assert refs[..|names|] == refs;
  }

  lemma {:induction false} RootText()
    ensures RenderRule(ROOT_RULE) == "root ::= \"CALL \" call \"\\n\"\n"
  {
    var newline := Lit("\n");
    RenderThree(Lit("CALL "), Ref("call"), newline, " ");
    RenderLit("CALL ");
    NewlineText();
    hide Escaped, RenderAll;
    RootLetters();
  }

  lemma {:induction false} NewlineText()
    ensures Render(Lit("\n")) == "\"\\n\""
  {
  }

  lemma {:induction false} RootLetters()
    ensures "root" + " ::= " + ("\"" + "CALL " + "\"" + " " + "call" + " " + "\"\\n\"") + "\n" == "root ::= \"CALL \" call \"\\n\"\n"
  {
  }

  // ---- the shared terminals ------------------------------------------------------------------

  /** The rules of the model are the ones the literal text spells. */
  lemma {:induction false} TerminalText()
    ensures RenderRules(TERMINALS) == TERMINAL_TEXT
  {
    StrText();
    CharText();
    IntText();
    NumText();
    WsText();
    ObjText();
    hide RenderRule;
    RulesTwo(STR_RULE, CHAR_RULE);
    RulesSnoc([STR_RULE, CHAR_RULE], INT_RULE);
    RulesSnoc([STR_RULE, CHAR_RULE, INT_RULE], NUM_RULE);
    RulesSnoc([STR_RULE, CHAR_RULE, INT_RULE, NUM_RULE], WS_RULE);
    RulesSnoc([STR_RULE, CHAR_RULE, INT_RULE, NUM_RULE, WS_RULE], OBJ_RULE);
    hide RenderRules;
    assert [STR_RULE, CHAR_RULE] + [INT_RULE] == [STR_RULE, CHAR_RULE, INT_RULE];
    assert [STR_RULE, CHAR_RULE, INT_RULE] + [NUM_RULE] == [STR_RULE, CHAR_RULE, INT_RULE, NUM_RULE];
    assert [STR_RULE, CHAR_RULE, INT_RULE, NUM_RULE] + [WS_RULE] == [STR_RULE, CHAR_RULE, INT_RULE, NUM_RULE, WS_RULE];
    assert [STR_RULE, CHAR_RULE, INT_RULE, NUM_RULE, WS_RULE] + [OBJ_RULE] == TERMINALS;
  }

  lemma {:induction false} Marks()
    ensures Render(QUOTE) == "\"\\\"\"" && Render(Lit("\\")) == "\"\\\\\""
  {
  }

  lemma {:induction false} StrText()
    ensures RenderRule(STR_RULE) == STR_TEXT
  {
    Marks();
    RenderThree(QUOTE, Star(Ref("char")), QUOTE, " ");
    hide Escaped, RenderAll;
    assert Render(Star(Ref("char"))) == "char" + "*";
    StrLetters();
  }

  lemma {:induction false} StrLetters()
    ensures "str" + " ::= " + ("\"\\\"\"" + " " + ("char" + "*") + " " + "\"\\\"\"") + "\n" == STR_TEXT
  {
  }

  lemma {:induction false} IntText()
    ensures RenderRule(INT_RULE) == INT_TEXT
  {
    SignAndDigits();
    RenderTwo(Opt(Lit("-")), DIGITS, " ");
    hide Escaped, RenderAll;
    IntLetters();
  }

  lemma {:induction false} SignAndDigits()
    ensures Render(Opt(Lit("-"))) == "\"-\"?" && Render(DIGITS) == "[0-9]+"
  {
    RenderLit("-");
    hide Escaped, RenderAll;
    assert "\"" + "-" + "\"" + "?" == "\"-\"?";
    assert "[0-9]" + "+" == "[0-9]+";
  }

  lemma {:induction false} IntLetters()
    ensures "int" + " ::= " + ("\"-\"?" + " " + "[0-9]+") + "\n" == INT_TEXT
  {
  }

  lemma {:induction false} WsText()
    ensures RenderRule(WS_RULE) == WS_TEXT
  {
    hide Escaped, RenderAll;
    WsLetters();
  }

  lemma {:induction false} WsLetters()
    ensures "ws" + " ::= " + ("[ ]" + "*") + "\n" == WS_TEXT
  {
  }

  lemma {:induction false} PointText(e: Expr)
    requires e == NUM_RULE.body.parts[2]
    ensures Render(e) == "(\".\" [0-9]+)?"
  {
    SignAndDigits();
    RenderLit(".");
    RenderTwo(Lit("."), DIGITS, " ");
    hide Escaped, RenderAll;
    assert Render(e) == "(" + Render(e.body.body) + ")" + "?";
    PointLetters();
  }

  lemma {:induction false} PointLetters()
    ensures "(" + ("\"" + "." + "\"" + " " + "[0-9]+") + ")" + "?" == "(\".\" [0-9]+)?"
  {
  }

  // The longer rules: their rendering is flattened piece by piece, then spelled out.

  lemma {:induction false} ObjText()
    ensures RenderRule(OBJ_RULE) == OBJ_TEXT
  {
    var parts := OBJ_RULE.body.parts;
    var alt := parts[1].body.body;
    RenderThree(alt.choices[0], Ref("str"), Ref("obj"), " | ");
    RenderThree(parts[0], parts[1], parts[2], " ");
    Braces();
    hide Escaped, RenderAll;
    assert Render(parts[1]) == "(" + Render(alt) + ")" + "*";
    ObjFlat("obj" + " ::= ", "\"{\"", " ", "(", "[^{}\"\\n\\r]", " | ", "str", "obj", ")", "*", "\"}\"", "\n");
    ObjLetters();
  }

  lemma {:induction false} Braces()
    ensures Render(Lit("{")) == "\"{\"" && Render(Lit("}")) == "\"}\""
  {
  }

  lemma {:induction false} ObjFlat(x: string, b: string, w: string, l: string, p: string, o: string, s: string, j: string, r: string,
                                   a: string, c: string, e: string)
    ensures x + (b + w + (l + (p + o + s + o + j) + r + a) + w + c) + e == x + b + w + l + p + o + s + o + j + r + a + w + c + e
  {
    Shift5(l, p, o, s, o, j);
    Shift2(l + p + o + s + o + j, r, a);
    var group := l + (p + o + s + o + j) + r + a;
    Shift5(x, b, w, group, w, c);
    var start := x + b + w;
    Shift4(start, l, p + o + s + o + j, r, a);
    Shift5(start + l, p, o, s, o, j);
  }

  lemma {:induction false} Shift4(o: string, a: string, b: string, c: string, d: string)
    ensures o + a + b + c + d == o + (a + b + c + d)
  {
  }

  lemma {:induction false} ObjLetters()
    ensures "obj" + " ::= " + "\"{\"" + " " + "(" + "[^{}\"\\n\\r]" + " | " + "str" + " | " + "obj" + ")" + "*" + " " + "\"}\"" + "\n"
         == OBJ_TEXT
  {
    assert "obj" + " ::= " == "obj ::= ";
    assert "obj ::= " + "\"{\"" == "obj ::= \"{\"";
    assert "obj ::= \"{\"" + " " == "obj ::= \"{\" ";
    assert "obj ::= \"{\" " + "(" == "obj ::= \"{\" (";
    assert "obj ::= \"{\" (" + "[^{}\"\\n\\r]" == "obj ::= \"{\" ([^{}\"\\n\\r]";
    assert "obj ::= \"{\" ([^{}\"\\n\\r]" + " | " == "obj ::= \"{\" ([^{}\"\\n\\r] | ";
    assert "obj ::= \"{\" ([^{}\"\\n\\r] | " + "str" == "obj ::= \"{\" ([^{}\"\\n\\r] | str";
    assert "obj ::= \"{\" ([^{}\"\\n\\r] | str" + " | " == "obj ::= \"{\" ([^{}\"\\n\\r] | str | ";
    assert "obj ::= \"{\" ([^{}\"\\n\\r] | str | " + "obj" == "obj ::= \"{\" ([^{}\"\\n\\r] | str | obj";
    assert "obj ::= \"{\" ([^{}\"\\n\\r] | str | obj" + ")" == "obj ::= \"{\" ([^{}\"\\n\\r] | str | obj)";
    assert "obj ::= \"{\" ([^{}\"\\n\\r] | str | obj)" + "*" == "obj ::= \"{\" ([^{}\"\\n\\r] | str | obj)*";
    assert "obj ::= \"{\" ([^{}\"\\n\\r] | str | obj)*" + " " == "obj ::= \"{\" ([^{}\"\\n\\r] | str | obj)* ";
    assert "obj ::= \"{\" ([^{}\"\\n\\r] | str | obj)* " + "\"}\"" == "obj ::= \"{\" ([^{}\"\\n\\r] | str | obj)* \"}\"";
    assert "obj ::= \"{\" ([^{}\"\\n\\r] | str | obj)* \"}\"" + "\n" == "obj ::= \"{\" ([^{}\"\\n\\r] | str | obj)* \"}\"\n";
  }

  lemma {:induction false} NumText()
    ensures RenderRule(NUM_RULE) == NUM_TEXT
  {
    var ps := NUM_RULE.body.parts;
    SignAndDigits();
    PointText(ps[2]);
    PowerText(ps[3]);
    RenderThree(ps[0], ps[1], ps[2], " ");
    RenderSnoc([ps[0], ps[1], ps[2]], ps[3], " ");
    hide Escaped, RenderAll;
    assert [ps[0], ps[1], ps[2]] + [ps[3]] == ps;
    var power := "((\"e\" | \"E\") (\"+\" | \"-\")?";
    NumFlat("num" + " ::= ", "\"-\"?", " ", "[0-9]+", "(\".\" [0-9]+)?", power, ")?", "\n");
    NumHead();
    NumTail();
  }

  lemma {:induction false} NumFlat(x: string, m: string, w: string, d: string, f: string, p: string, r: string, e: string)
    ensures x + (m + w + d + w + f + w + (p + w + d + r)) + e == x + m + w + d + w + f + w + p + (w + d + r + e)
  {
    var tail := p + w + d + r;
    Shift5(x, m, w, d, w, f);
    Shift2(x, m + w + d + w + f, w);
    Shift2(x, m + w + d + w + f + w, tail);
    var start := x + m + w + d + w + f + w;
    Shift4(start, p, w, d, r);
    Shift4(start + p, w, d, r, e);
  }

  lemma {:induction false} NumOpening()
    ensures "num" + " ::= " + "\"-\"?" + " " + "[0-9]+" + " " == "num ::= \"-\"? [0-9]+ "
  {
    assert "num" + " ::= " == "num ::= ";
    assert "num ::= " + "\"-\"?" == "num ::= \"-\"?";
    assert "num ::= \"-\"?" + " " == "num ::= \"-\"? ";
    assert "num ::= \"-\"? " + "[0-9]+" == "num ::= \"-\"? [0-9]+";
    assert "num ::= \"-\"? [0-9]+" + " " == "num ::= \"-\"? [0-9]+ ";
  }

  lemma {:induction false} NumHead()
    ensures "num" + " ::= " + "\"-\"?" + " " + "[0-9]+" + " " + "(\".\" [0-9]+)?" + " " + "((\"e\" | \"E\") (\"+\" | \"-\")?" == NUM_HEAD
  {
    NumOpening();
    assert "num ::= \"-\"? [0-9]+ " + "(\".\" [0-9]+)?" == "num ::= \"-\"? [0-9]+ (\".\" [0-9]+)?";
    assert "num ::= \"-\"? [0-9]+ (\".\" [0-9]+)?" + " " == "num ::= \"-\"? [0-9]+ (\".\" [0-9]+)? ";
    NumPower();
  }

  lemma {:induction false} NumPower()
    ensures "num ::= \"-\"? [0-9]+ (\".\" [0-9]+)? " + "((\"e\" | \"E\") (\"+\" | \"-\")?" == NUM_HEAD
  {
    Shift4("num ::= \"-\"? [0-9]+ (\".\" [0-9]+)? ", "((\"e\" | ", "\"E\") (", "\"+\" | ", "\"-\")?");
    PowerPieces();
    assert "num ::= \"-\"? [0-9]+ (\".\" [0-9]+)? " + "((\"e\" | " == "num ::= \"-\"? [0-9]+ (\".\" [0-9]+)? ((\"e\" | ";
    assert "num ::= \"-\"? [0-9]+ (\".\" [0-9]+)? ((\"e\" | " + "\"E\") (" == "num ::= \"-\"? [0-9]+ (\".\" [0-9]+)? ((\"e\" | \"E\") (";
    assert "num ::= \"-\"? [0-9]+ (\".\" [0-9]+)? ((\"e\" | \"E\") (" + "\"+\" | " == "num ::= \"-\"? [0-9]+ (\".\" [0-9]+)? ((\"e\" | \"E\") (\"+\" | ";
    assert "num ::= \"-\"? [0-9]+ (\".\" [0-9]+)? ((\"e\" | \"E\") (\"+\" | " + "\"-\")?" == "num ::= \"-\"? [0-9]+ (\".\" [0-9]+)? ((\"e\" | \"E\") (\"+\" | \"-\")?";
  }

  lemma {:induction false} PowerPieces()
    ensures "((\"e\" | " + "\"E\") (" + "\"+\" | " + "\"-\")?" == "((\"e\" | \"E\") (\"+\" | \"-\")?"
  {
    assert "((\"e\" | " + "\"E\") (" == "((\"e\" | \"E\") (";
    assert "((\"e\" | \"E\") (" + "\"+\" | " == "((\"e\" | \"E\") (\"+\" | ";
    assert "((\"e\" | \"E\") (\"+\" | " + "\"-\")?" == "((\"e\" | \"E\") (\"+\" | \"-\")?";
  }

 lemma {:induction false} NumTail()
    ensures " " + "[0-9]+" + ")?" + "\n" == NUM_TAIL
  {
    assert " " + "[0-9]+" == " [0-9]+";
    assert " [0-9]+" + ")?" == " [0-9]+)?";
    assert " [0-9]+)?" + "\n" == " [0-9]+)?\n";
  }

 lemma {:induction false} PowerText(e: Expr)
    requires e == NUM_RULE.body.parts[3]
    ensures Render(e) == "((\"e\" | \"E\") (\"+\" | \"-\")?" + " " + "[0-9]+" + ")?"
  {
    var ps := e.body.body.parts;
    SignAndDigits();
    EitherText("e", "E");
    EitherText("+", "-");
    RenderThree(ps[0], ps[1], ps[2], " ");
    hide Escaped, RenderAll;
    PowerLetters();
    assert Render(ps[0]) == "(\"e\" | \"E\")" && Render(ps[1]) == "(\"+\" | \"-\")" + "?";
    assert Render(e) == "(" + Render(e.body.body) + ")" + "?";
    PowerFlat("(", "(\"e\" | \"E\")", " ", "(\"+\" | \"-\")", "?", "[0-9]+", ")");
  }

  lemma {:induction false} PowerFlat(l: string, a: string, w: string, b: string, o: string, d: string, r: string)
    ensures l + (a + w + (b + o) + w + d) + r + o == (l + a + w + b + o) + w + d + (r + o)
  {
    Shift5(l, a, w, b + o, w, d);
    Shift2(l + a + w, b, o);
    Shift2(l + a + w + b + o + w + d, r, o);
  }

  lemma {:induction false} EitherText(a: string, b: string)
    requires Plain(a) && Plain(b)
    ensures Render(Paren(Alt([Lit(a), Lit(b)]), false)) == "(" + ("\"" + a + "\"" + " | " + ("\"" + b + "\"")) + ")"
  {
    RenderLit(a);
    RenderLit(b);
    RenderTwo(Lit(a), Lit(b), " | ");
  }

  lemma {:induction false} PowerLetters()
    ensures "(" + ("\"" + "e" + "\"" + " | " + ("\"" + "E" + "\"")) + ")" == "(\"e\" | \"E\")"
    ensures "(" + ("\"" + "+" + "\"" + " | " + ("\"" + "-" + "\"")) + ")" == "(\"+\" | \"-\")"
    ensures "(" + "(\"e\" | \"E\")" + " " + "(\"+\" | \"-\")" + "?" == "((\"e\" | \"E\") (\"+\" | \"-\")?"
    ensures ")" + "?" == ")?"
  {
  }

  lemma {:induction false} CharText()
    ensures RenderRule(CHAR_RULE) == CHAR_TEXT
  {
    var choices := CHAR_RULE.body.choices;
    var tail := choices[1].parts[1];
    RenderTwo(choices[0], choices[1], " | ");
    RenderTwo(Lit("\\"), tail, " ");
    RenderTwo(tail.body.choices[0], tail.body.choices[1], " | ");
    Marks();
    UnicodeText(tail.body.choices[1]);
    hide Escaped, RenderAll;
    assert Render(tail) == "(" + Render(tail.body) + ")";
    CharFlat("char" + " ::= ", "[^\"\\\\\\n\\r]", " | ", "\"\\\\\"", " ", "(", "[\"\\\\/bfnrt]", "\"u\"", "[0-9a-fA-F]", ")", "\n");
    CharHead();
    CharTail();
  }

  lemma {:induction false} UnicodeText(e: Expr)
    requires e == Cat([Lit("u"), HEX, HEX, HEX, HEX])
    ensures var h := "[0-9a-fA-F]"; Render(e) == "\"u\"" + " " + h + " " + h + " " + h + " " + h
  {
    var u := Lit("u");
    RenderThree(u, HEX, HEX, " ");
    RenderSnoc([u, HEX, HEX], HEX, " ");
    RenderSnoc([u, HEX, HEX, HEX], HEX, " ");
    RenderLit("u");
    assert "\"" + "u" + "\"" == "\"u\"";
    hide Escaped, RenderAll;
    assert [u, HEX, HEX] + [HEX] == [u, HEX, HEX, HEX];
    assert [u, HEX, HEX, HEX] + [HEX] == [u, HEX, HEX, HEX, HEX];
  }

  lemma {:induction false} CharFlat(x: string, p: string, o: string, b: string, w: string, l: string, c: string, u: string, h: string,
                                    r: string, e: string)
    ensures x + (p + o + (b + w + (l + (c + o + (u + w + h + w + h + w + h + w + h)) + r))) + e
         == x + p + o + b + w + l + c + o + u + w + h + (w + h + w + h + w + h + r + e)
  {
    var four := u + w + h + w + h + w + h + w + h;
    var group := l + (c + o + four) + r;
    Shift3(x, p, o, b + w + group);
    Shift3(x + p + o, b, w, group);
    var start := x + p + o + b + w;
    Shift3(start, l, c + o + four, r);
    Shift3(start + l, c, o, four);
    FourFlat(start + l + c + o, u, w, h, r, e);
  }

  lemma {:induction false} FourFlat(x: string, u: string, w: string, h: string, r: string, e: string)
    ensures x + (u + w + h + w + h + w + h + w + h) + r + e == x + u + w + h + (w + h + w + h + w + h + r + e)
  {
    var two := w + h + w + h + w + h;
    Shift5(u + w + h, w, h, w, h, w);
    Shift2(u + w + h, w + h + w + h + w, h);
    Shift4(x, u, w, h, two);
    Shift3(x + u + w + h, two, r, e);
  }

  lemma {:induction false} CharOpening()
    ensures "char" + " ::= " + "[^\"\\\\\\n\\r]" + " | " + "\"\\\\\"" + " " + "(" == "char ::= [^\"\\\\\\n\\r] | \"\\\\\" ("
  {
    assert "char" + " ::= " == "char ::= ";
    assert "char ::= " + "[^\"\\\\\\n\\r]" == "char ::= [^\"\\\\\\n\\r]";
    assert "char ::= [^\"\\\\\\n\\r]" + " | " == "char ::= [^\"\\\\\\n\\r] | ";
    assert "char ::= [^\"\\\\\\n\\r] | " + "\"\\\\\"" == "char ::= [^\"\\\\\\n\\r] | \"\\\\\"";
    assert "char ::= [^\"\\\\\\n\\r] | \"\\\\\"" + " " == "char ::= [^\"\\\\\\n\\r] | \"\\\\\" ";
    assert "char ::= [^\"\\\\\\n\\r] | \"\\\\\" " + "(" == "char ::= [^\"\\\\\\n\\r] | \"\\\\\" (";
  }

  lemma {:induction false} CharHead()
    ensures "char" + " ::= " + "[^\"\\\\\\n\\r]" + " | " + "\"\\\\\"" + " " + "(" + "[\"\\\\/bfnrt]" + " | " + "\"u\"" + " " + "[0-9a-fA-F]" == CHAR_HEAD
  {
    CharOpening();
    assert "char ::= [^\"\\\\\\n\\r] | \"\\\\\" (" + "[\"\\\\/bfnrt]" == "char ::= [^\"\\\\\\n\\r] | \"\\\\\" ([\"\\\\/bfnrt]";
    assert "char ::= [^\"\\\\\\n\\r] | \"\\\\\" ([\"\\\\/bfnrt]" + " | " == "char ::= [^\"\\\\\\n\\r] | \"\\\\\" ([\"\\\\/bfnrt] | ";
    assert "char ::= [^\"\\\\\\n\\r] | \"\\\\\" ([\"\\\\/bfnrt] | " + "\"u\"" == "char ::= [^\"\\\\\\n\\r] | \"\\\\\" ([\"\\\\/bfnrt] | \"u\"";
    assert "char ::= [^\"\\\\\\n\\r] | \"\\\\\" ([\"\\\\/bfnrt] | \"u\"" + " " == "char ::= [^\"\\\\\\n\\r] | \"\\\\\" ([\"\\\\/bfnrt] | \"u\" ";
    assert "char ::= [^\"\\\\\\n\\r] | \"\\\\\" ([\"\\\\/bfnrt] | \"u\" " + "[0-9a-fA-F]" == "char ::= [^\"\\\\\\n\\r] | \"\\\\\" ([\"\\\\/bfnrt] | \"u\" [0-9a-fA-F]";
  }

  lemma {:induction false} CharTail()
    ensures " " + "[0-9a-fA-F]" + " " + "[0-9a-fA-F]" + " " + "[0-9a-fA-F]" + ")" + "\n" == CHAR_TAIL
  {
    assert " " + "[0-9a-fA-F]" == " [0-9a-fA-F]";
    assert " [0-9a-fA-F]" + " " == " [0-9a-fA-F] ";
    assert " [0-9a-fA-F] " + "[0-9a-fA-F]" == " [0-9a-fA-F] [0-9a-fA-F]";
    assert " [0-9a-fA-F] [0-9a-fA-F]" + " " == " [0-9a-fA-F] [0-9a-fA-F] ";
    assert " [0-9a-fA-F] [0-9a-fA-F] " + "[0-9a-fA-F]" == " [0-9a-fA-F] [0-9a-fA-F] [0-9a-fA-F]";
    assert " [0-9a-fA-F] [0-9a-fA-F] [0-9a-fA-F]" + ")" == " [0-9a-fA-F] [0-9a-fA-F] [0-9a-fA-F])";
    assert " [0-9a-fA-F] [0-9a-fA-F] [0-9a-fA-F])" + "\n" == " [0-9a-fA-F] [0-9a-fA-F] [0-9a-fA-F])\n";
  }

 lemma {:induction false} CallText(names: seq<string>)
    ensures RenderRule(CallRule(names))
         == if names == [] then "call ::= \"\"\n"
            else "call ::= " + RenderAll(seq(|names|, i requires 0 <= i < |names| => Ref(names[i])), " | ") + "\n"
  {
  }

  lemma {:induction false} RulesSnoc(rs: seq<Rule>, r: Rule)
    ensures RenderRules(rs + [r]) == RenderRules(rs) + RenderRule(r)
  {
  }

  lemma {:induction false} RulesTwo(a: Rule, b: Rule)
    ensures RenderRules([a, b]) == RenderRule(a) + RenderRule(b)
  {
    RulesSnoc([a], b);
    assert [a][..0] == [];
    assert [a] + [b] == [a, b];
  }

  lemma {:induction false} RulesConcat(rs: seq<Rule>, qs: seq<Rule>)
    ensures RenderRules(rs + qs) == RenderRules(rs) + RenderRules(qs)
    decreases |qs|
  {
    if qs == [] {
      assert rs + qs == rs;
    } else {
      var n := |qs| - 1;
      RulesConcat(rs, qs[..n]);
      assert rs + qs == rs + qs[..n] + [qs[n]];
      RulesSnoc(rs + qs[..n], qs[n]);
      Shift2(RenderRules(rs), RenderRules(qs[..n]), RenderRule(qs[n]));
    }
  }
}
