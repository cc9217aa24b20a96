/** Which registries have a grammar whose every sentence is read back as a call: those where
    no parameter admits free text, since free text may hold a NUL (src/gbnf.c). */
module GrammarExact {
  import opened Text
  import opened Types
  import opened CallLine
  import opened Gbnf
  import opened GrammarSound

  // ---- parameters without free text ---------------------------------------------------------

  /** A value of the type is spelled without free text. */
  predicate NoText(t: Type, depth: nat)
    decreases t
  {
    depth <= MAX_DEPTH &&
    match t
    case IntegerT(_, _) => true
    case NumberT(_, _) => true
    case BooleanT => true
    case EnumT(values) => values != [] && forall i :: 0 <= i < |values| ==> !Contains(values[i], NUL)
    case ArrayT(item, _, _) => NoText(item, depth + 1)
    case _ => false
  }

  /** The argument object of the command is spelled without free text: it is empty, or some
      parameter is required and no parameter admits text. */
  predicate NoTextArgs(ps: seq<Param>) {
    ps == [] || ((exists i :: 0 <= i < |ps| && ps[i].required) && forall i :: 0 <= i < |ps| ==> NoText(ps[i].ty, 0))
  }

  // ---- productions without NUL ----------------------------------------------------------------

  const CLEAN_RULES := ["int", "num", "ws"]

  /** No sentence of e holds a NUL, judged from its leaves. */
  predicate Clean(e: Expr) {
    match e
    case Lit(text) => !Contains(text, NUL)
    case Ref(n) => n in CLEAN_RULES
    case Class(_, negated, ranges) => !negated && forall i :: 0 <= i < |ranges| ==> ranges[i].0 > NUL
    case Cat(ps) => forall i :: 0 <= i < |ps| ==> Clean(ps[i])
    case Alt(cs) => forall i :: 0 <= i < |cs| ==> Clean(cs[i])
    case Paren(b, _) => Clean(b)
    case Opt(b) => Clean(b)
    case Star(b) => Clean(b)
    case Plus(b) => Clean(b)
  }

  /** Every part of e, chosen or not, derives something. */
  predicate Solid(e: Expr) {
    match e
    case Lit(_) => true
    case Ref(n) => n in QUIET_RULES
    case Class(_, _, _) => false
    case Cat(ps) => forall i :: 0 <= i < |ps| ==> Solid(ps[i])
    case Alt(cs) => cs != [] && forall i :: 0 <= i < |cs| ==> Solid(cs[i])
    case Paren(b, _) => Solid(b)
    case Opt(b) => Solid(b)
    case Star(b) => Solid(b)
    case Plus(b) => Solid(b)
  }

  lemma {:induction false} ConcatHolds(ss: seq<string>, c: char)
    ensures Contains(Concat(ss), c) <==> exists i :: 0 <= i < |ss| && Contains(ss[i], c)
  {
    if ss != [] {
      ConcatHolds(ss[1..], c);
      PlusHolds(ss[0], Concat(ss[1..]), c);
      if i :| 0 <= i < |ss[1..]| && Contains(ss[1..][i], c) {
        assert Contains(ss[i + 1], c);
      }
      if i :| 0 <= i < |ss| && Contains(ss[i], c) {
        assert i > 0 ==> ss[1..][i - 1] == ss[i];
      }
    }
  }

  lemma {:induction false} PlusHolds(a: string, b: string, c: char)
    ensures Contains(a + b, c) <==> Contains(a, c) || Contains(b, c)
  {
    if i :| 0 <= i < |a| && a[i] == c {
      assert (a + b)[i] == c;
    }
    if i :| 0 <= i < |b| && b[i] == c {
      assert (a + b)[|a| + i] == c;
    }
  }

  lemma {:induction false} CleanYield(g: seq<Rule>, e: Expr, t: Tree)
    requires Standard(g) && Clean(e) && Derives(g, e, t)
    ensures !Contains(Yield(g, e, t), NUL)
    decreases t, e
  {
    match e
    case Lit(_) =>
    case Class(_, _, _) =>
    case Ref(n) =>
      NumericClean();
      CleanYield(g, Lookup(g, n).value, t.t);
    case Cat(ps) =>
      forall i | 0 <= i < |ps| ensures !Contains(Yield(g, ps[i], t.ts[i]), NUL) {
        CleanYield(g, ps[i], t.ts[i]);
      }
      ConcatHolds(seq(|ps|, i requires 0 <= i < |ps| => Yield(g, ps[i], t.ts[i])), NUL);
    case Alt(cs) => CleanYield(g, cs[t.i], t.t);
    case Paren(b, _) => CleanYield(g, b, t);
    case Opt(b) => CleanRepeat(g, b, t.ts);
    case Star(b) => CleanRepeat(g, b, t.ts);
    case Plus(b) => CleanRepeat(g, b, t.ts);
  }

  lemma {:induction false} CleanRepeat(g: seq<Rule>, b: Expr, ts: seq<Tree>)
    requires Standard(g) && Clean(b) && forall i :: 0 <= i < |ts| ==> Derives(g, b, ts[i])
    ensures !Contains(Concat(seq(|ts|, i requires 0 <= i < |ts| => Yield(g, b, ts[i]))), NUL)
    decreases ts, b
  {
    forall i | 0 <= i < |ts| ensures !Contains(Yield(g, b, ts[i]), NUL) {
      CleanYield(g, b, ts[i]);
    }
    ConcatHolds(seq(|ts|, i requires 0 <= i < |ts| => Yield(g, b, ts[i])), NUL);
  }

  lemma {:induction false} NumericClean()
    ensures Clean(INT_RULE.body) && Clean(NUM_RULE.body) && Clean(WS_RULE.body)
  {
    assert Clean(DIGITS);
    assert Clean(Opt(Lit("-")));
    var ps := NUM_RULE.body.parts;
    FractionClean(ps[2]);
    ExponentClean(ps[3]);
  }

  lemma {:induction false} FractionClean(e: Expr)
    requires e == NUM_RULE.body.parts[2]
    ensures Clean(e)
  {
    assert Clean(DIGITS);
    assert Clean(e.body.body);
    assert Clean(e.body);
  }

  lemma {:induction false} ExponentClean(e: Expr)
    requires e == NUM_RULE.body.parts[3]
    ensures Clean(e)
  {
    assert Clean(DIGITS);
    var ps := e.body.body.parts;
    assert Clean(ps[0].body) && Clean(ps[1].body.body);
    assert Clean(ps[0]) && Clean(ps[1].body);
    assert Clean(ps[1]);
    assert Clean(e.body.body);
    assert Clean(e.body);
  }

  // ---- a sentence with a NUL --------------------------------------------------------------------

  lemma {:induction false} SolidProductive(e: Expr)
    requires Solid(e)
    ensures Productive(e)
  {
    match e
    case Cat(ps) =>
      forall i | 0 <= i < |ps| ensures Productive(ps[i]) {
        SolidProductive(ps[i]);
      }
    case Alt(cs) => SolidProductive(cs[0]);
    case Paren(b, _) => SolidProductive(b);
    case Plus(b) => SolidProductive(b);
    case _ =>
  }

  /** A production that is not clean derives a text with a NUL. */
  lemma {:induction false} Spoil(g: seq<Rule>, e: Expr) returns (t: Tree)
    requires Standard(g) && Solid(e) && !Clean(e)
    ensures Derives(g, e, t) && Contains(Yield(g, e, t), NUL)
    decreases e
  {
    match e
    case Lit(_) => t := Leaf;
    case Ref(n) => t := SpoilText(g, n);
    case Cat(ps) =>
      var k :| 0 <= k < |ps| && !Clean(ps[k]);
      var bad := Spoil(g, ps[k]);
      t := SpoilPart(g, ps, k, bad);
    case Alt(cs) =>
      var k :| 0 <= k < |cs| && !Clean(cs[k]);
      var bad := Spoil(g, cs[k]);
      t := Pick(k, bad);
    case Paren(b, _) => t := Spoil(g, b);
    case Opt(b) =>
      var bad := Spoil(g, b);
      SpoilOne(g, b, bad);
      t := Many([bad]);
    case Star(b) =>
      var bad := Spoil(g, b);
      SpoilOne(g, b, bad);
      t := Many([bad]);
    case Plus(b) =>
      var bad := Spoil(g, b);
      SpoilOne(g, b, bad);
      t := Many([bad]);
  }

  lemma {:induction false} SpoilOne(g: seq<Rule>, b: Expr, bad: Tree)
    requires Derives(g, b, bad) && Contains(Yield(g, b, bad), NUL)
    ensures var ts := [bad];
            (forall i :: 0 <= i < |ts| ==> Derives(g, b, ts[i]))
            && Contains(Concat(seq(|ts|, i requires 0 <= i < |ts| => Yield(g, b, ts[i]))), NUL)
  {
    var ts := [bad];
    var ss := seq(|ts|, i requires 0 <= i < |ts| => Yield(g, b, ts[i]));
    assert Contains(ss[0], NUL);
    ConcatHolds(ss, NUL);
  }

  lemma {:induction false} SpoilPart(g: seq<Rule>, ps: seq<Expr>, k: nat, bad: Tree) returns (t: Tree)
    requires Standard(g) && Solid(Cat(ps)) && k < |ps| && Derives(g, ps[k], bad) && Contains(Yield(g, ps[k], bad), NUL)
    ensures Derives(g, Cat(ps), t) && Contains(Yield(g, Cat(ps), t), NUL)
  {
    var ts := seq(|ps|, i requires 0 <= i < |ps| => if i == k then bad else Shortest(ps[i]));
    t := Many(ts);
    forall i | 0 <= i < |ps|
      ensures Derives(g, ps[i], ts[i])
    {
      if i != k {
        SolidProductive(ps[i]);
        ShortestDerives(g, ps[i]);
      }
    }
    var ss := seq(|ps|, i requires 0 <= i < |ps| => Yield(g, ps[i], ts[i]));
    assert Contains(ss[k], NUL);
    ConcatHolds(ss, NUL);
  }

  /** A string literal and a nested object may each hold a NUL. */
  lemma {:induction false} SpoilText(g: seq<Rule>, n: string) returns (t: Tree)
    requires Standard(g) && n in QUIET_RULES && n !in CLEAN_RULES
    ensures Derives(g, Ref(n), t) && Contains(Yield(g, Ref(n), t), NUL)
  {
    var inner: Tree;
    var body: Expr;
    if n == "str" {
      inner, body := Expand(Pick(0, Chr(NUL))), STR_RULE.body;
      CharNul(g);
    } else {
      assert n == "obj" by {
        assert CLEAN_RULES[0] == "int" && CLEAN_RULES[1] == "num" && CLEAN_RULES[2] == "ws";
      }
      inner, body := Pick(0, Chr(NUL)), OBJ_RULE.body;
      ObjNul(g);
    }
    var middle := body.parts[1];
    SpoilOne(g, middle.body, inner);
    var many := Many([inner]);
    assert Derives(g, middle, many) && Contains(Yield(g, middle, many), NUL);
    t := Expand(Many([Leaf, many, Leaf]));
    BracketNul(g, body, many);
  }

  lemma {:induction false} ClassNul(g: seq<Rule>, alt: Expr)
    requires alt == CHAR_RULE.body || alt == OBJ_RULE.body.parts[1].body.body
    ensures Derives(g, alt, Pick(0, Chr(NUL))) && Contains(Yield(g, alt, Pick(0, Chr(NUL))), NUL)
  {
    var e, t := alt.choices[0], Chr(NUL);
    assert Derives(g, e, t) && Yield(g, e, t)[0] == NUL;
    assert Yield(g, alt, Pick(0, t)) == Yield(g, e, t);
  }

  lemma {:induction false} CharNul(g: seq<Rule>)
    requires Standard(g)
    ensures var t := Expand(Pick(0, Chr(NUL)));
            Derives(g, Ref("char"), t) && Contains(Yield(g, Ref("char"), t), NUL)
  {
    hide Lookup;
    ClassNul(g, CHAR_RULE.body);
    var t := Pick(0, Chr(NUL));
    assert Derives(g, Ref("char"), Expand(t)) && Yield(g, Ref("char"), Expand(t)) == Yield(g, CHAR_RULE.body, t);
  }

  lemma {:induction false} ObjNul(g: seq<Rule>)
    ensures var b, t := OBJ_RULE.body.parts[1].body, Pick(0, Chr(NUL));
            Derives(g, b, t) && Contains(Yield(g, b, t), NUL)
  {
    var b, t := OBJ_RULE.body.parts[1].body, Pick(0, Chr(NUL));
    ClassNul(g, b.body);
    assert Derives(g, b, t) && Yield(g, b, t) == Yield(g, b.body, t);
  }

  lemma {:induction false} BracketNul(g: seq<Rule>, body: Expr, middle: Tree)
    requires body == STR_RULE.body || body == OBJ_RULE.body
    requires Derives(g, body.parts[1], middle) && Contains(Yield(g, body.parts[1], middle), NUL)
    ensures Derives(g, body, Many([Leaf, middle, Leaf])) && Contains(Yield(g, body, Many([Leaf, middle, Leaf])), NUL)
  {
    var t := Many([Leaf, middle, Leaf]);
    assert Derives(g, body.parts[0], Leaf) && Derives(g, body.parts[2], Leaf);
    ThreeParts(g, body, t);
    var a, b, c := Yield(g, body.parts[0], Leaf), Yield(g, body.parts[1], middle), Yield(g, body.parts[2], Leaf);
    PlusHolds(a, b, NUL);
    PlusHolds(a + b, c, NUL);
  }

  // ---- the exported productions --------------------------------------------------------------------

  lemma {:induction false} TokenClean(v: string)
    ensures Contains(Token(v), NUL) <==> Contains(v, NUL)
  {
    BodyClean(v);
    PlusHolds("\"", TokenBody(v), NUL);
    PlusHolds("\"" + TokenBody(v), "\"", NUL);
  }

  lemma {:induction false} BodyClean(v: string)
    ensures Contains(TokenBody(v), NUL) <==> Contains(v, NUL)
  {
    if v != "" {
      BodyClean(v[1..]);
      PlusHolds(TokenOne(v[0]), TokenBody(v[1..]), NUL);
      PlusHolds([v[0]], v[1..], NUL);
      assert [v[0]] + v[1..] == v;
      OneClean(v[0]);
    }
  }

  lemma {:induction false} OneClean(c: char)
    ensures Contains(TokenOne(c), NUL) <==> Contains([c], NUL)
  {
    assert TokenOne(c)[0] == NUL <==> c == NUL;
    assert [c][0] == c;
  }

  function ListOf(v: Expr): Expr {
    Cat([Lit("["), Opt(Paren(Cat([v, MoreOf(v)]), true)), Lit("]")])
  }

  function MoreOf(v: Expr): Expr { Star(Paren(Cat([Lit(","), Ref("ws"), v]), true)) }

  /** The production of an array over that of its items. */
  lemma {:induction false} ArrayOf(t: Type, depth: nat)
    requires depth <= MAX_DEPTH && t.ArrayT?
    ensures ValueExpr(t, depth) == ListOf(ValueExpr(t.item, depth + 1))
  {
  }

  lemma {:induction false} MoreShape(v: Expr)
    ensures (Solid(v) ==> Solid(MoreOf(v))) && (Clean(MoreOf(v)) <==> Clean(v))
  {
    assert QUIET_RULES[3] == "ws" && CLEAN_RULES[2] == "ws";
    var inner := MoreOf(v).body.body;
    assert inner.parts[2] == v;
    assert Clean(inner) <==> Clean(v);
    assert Solid(v) ==> Solid(inner);
  }

  lemma {:induction false} ListShape(v: Expr)
    ensures (Solid(v) ==> Solid(ListOf(v))) && (Clean(ListOf(v)) <==> Clean(v))
  {
    MoreShape(v);
    hide MoreOf;
    var list := ListOf(v).parts[1].body.body;
    assert list.parts[0] == v && list.parts[1] == MoreOf(v);
    assert Clean(list) <==> Clean(v);
    assert Solid(v) ==> Solid(list);
    var whole := ListOf(v).parts;
    assert Clean(whole[1]) <==> Clean(list);
    assert Solid(v) ==> Solid(whole[1]);
    assert Clean(whole[0]) && Clean(whole[2]) && Solid(whole[0]) && Solid(whole[2]);
  }

  lemma {:induction false} ValueSolid(t: Type, depth: nat)
    ensures Solid(ValueExpr(t, depth))
    decreases t
  {
    hide ListOf, Token;
    if depth <= MAX_DEPTH && t.ArrayT? {
      ValueSolid(t.item, depth + 1);
      ListShape(ValueExpr(t.item, depth + 1));
      ArrayOf(t, depth);
    } else {
      PlainSolid(t, depth);
    }
  }

  lemma {:induction false} PlainSolid(t: Type, depth: nat)
    requires depth > MAX_DEPTH || !t.ArrayT?
    ensures Solid(ValueExpr(t, depth))
  {
    hide Token;
    assert QUIET_RULES[0] == "str" && QUIET_RULES[4] == "obj";
    if depth <= MAX_DEPTH {
      match t
      case EnumT(values) =>
        if values != [] {
          var alt := ValueExpr(t, depth).body;
          assert forall i :: 0 <= i < |alt.choices| ==> Solid(alt.choices[i]);
        }
      case _ =>
    }
  }

  lemma {:induction false} ValueClean(t: Type, depth: nat)
    ensures Clean(ValueExpr(t, depth)) <==> NoText(t, depth)
    decreases t
  {
    hide ListOf, Token, Contains;
    if depth <= MAX_DEPTH {
      if t.ArrayT? {
        ValueClean(t.item, depth + 1);
        ListShape(ValueExpr(t.item, depth + 1));
        ArrayOf(t, depth);
      } else if t.EnumT? {
        if t.values != [] {
          EnumClean(t.values, ValueExpr(t, depth).body.choices);
        }
      } else {
        PlainClean(t, depth);
      }
    }
  }

  lemma {:induction false} PlainClean(t: Type, depth: nat)
    requires depth <= MAX_DEPTH && !t.ArrayT? && !t.EnumT?
    ensures Clean(ValueExpr(t, depth)) <==> NoText(t, depth)
  {
    assert CLEAN_RULES[0] == "int" && CLEAN_RULES[1] == "num";
    match t
    case BytesT(_, _) => TypedText("b");
    case DatetimeT => TypedText("t");
    case DurationT => TypedText("r");
    case UuidT => TypedText("u");
    case _ =>
  }

  lemma {:induction false} TypedText(letter: string)
    ensures !Clean(Cat([Lit(letter), Ref("str")]))
  {
    assert [Lit(letter), Ref("str")][1] == Ref("str");
  }

  lemma {:induction false} EnumClean(values: seq<string>, cs: seq<Expr>)
    requires |cs| == |values| && forall i :: 0 <= i < |cs| ==> cs[i] == Lit(Token(values[i]))
    ensures Clean(Alt(cs)) <==> forall i :: 0 <= i < |values| ==> !Contains(values[i], NUL)
  {
    forall i | 0 <= i < |values|
      ensures Clean(cs[i]) <==> !Contains(values[i], NUL)
    {
      TokenClean(values[i]);
    }
    if Clean(Alt(cs)) {
      forall i | 0 <= i < |values|
        ensures !Contains(values[i], NUL)
      {
        assert Clean(cs[i]);
      }
    }
  }

  lemma {:induction false} NameClean(s: string)
    requires NameText(s)
    ensures !Contains(s + ": ", NUL) && !Contains(", " + s + ": ", NUL)
  {
    forall i | 0 <= i < |s|
      ensures s[i] != NUL
    {
      assert NameChar(s[i]);
    }
  }

  predicate AllClean(es: seq<Expr>) { forall i :: 0 <= i < |es| ==> Clean(es[i]) }

  predicate AllSolid(es: seq<Expr>) { forall i :: 0 <= i < |es| ==> Solid(es[i]) }

  lemma {:induction false} AllSplit(a: seq<Expr>, b: seq<Expr>)
    ensures AllClean(a + b) <==> AllClean(a) && AllClean(b)
    ensures AllSolid(a + b) <==> AllSolid(a) && AllSolid(b)
  {
    hide Clean, Solid;
    assert forall i :: 0 <= i < |a| ==> (a + b)[i] == a[i];
    assert forall i :: 0 <= i < |b| ==> (a + b)[|a| + i] == b[i];
  }

  /** The parts of a command's object. */
  lemma {:induction false} PartsExact(ps: seq<Param>)
    requires forall i :: 0 <= i < |ps| ==> NameText(ps[i].name)
    ensures AllSolid(RequiredParts(ps)) && AllSolid(OptionalParts(ps))
    ensures AllClean(RequiredParts(ps)) && AllClean(OptionalParts(ps)) <==> forall i :: 0 <= i < |ps| ==> NoText(ps[i].ty, 0)
    ensures RequiredParts(ps) != [] <==> exists i :: 0 <= i < |ps| && ps[i].required
  {
    if ps != [] {
      var n := |ps| - 1;
      var init, p := ps[..n], ps[n];
      PartsExact(init);
      PartAdded(init, p);
      hide RequiredParts, OptionalParts, AllClean, AllSolid, NoText;
      assert init + [p] == ps;
      assert forall i :: 0 <= i < n ==> init[i] == ps[i];
    }
  }

  /** What one more parameter adds to the parts. */
  lemma {:induction false} PartAdded(init: seq<Param>, p: Param)
    requires NameText(p.name) && AllSolid(RequiredParts(init)) && AllSolid(OptionalParts(init))
    ensures var ps := init + [p];
            && AllSolid(RequiredParts(ps)) && AllSolid(OptionalParts(ps))
            && (AllClean(RequiredParts(ps)) && AllClean(OptionalParts(ps))
                <==> AllClean(RequiredParts(init)) && AllClean(OptionalParts(init)) && NoText(p.ty, 0))
            && (RequiredParts(ps) != [] <==> RequiredParts(init) != [] || p.required)
  {
    var ps, value := init + [p], ValueExpr(p.ty, 0);
    assert ps[..|ps| - 1] == init && ps[|ps| - 1] == p;
    ValueSolid(p.ty, 0);
    ValueClean(p.ty, 0);
    NameClean(p.name);
    hide ValueExpr, NoText, AllClean, AllSolid;
    if p.required {
      var lead := if RequiredParts(init) == [] then p.name + ": " else ", " + p.name + ": ";
      LeadShape(lead, value);
      AllSplit(RequiredParts(init), [Lit(lead), value]);
    } else {
      var lead := ", " + p.name + ": ";
      OptionalShape(lead, value);
      AllSplit(OptionalParts(init), [Opt(Paren(Cat([Lit(lead), value]), true))]);
    }
  }

  lemma {:induction false} LeadShape(lead: string, v: Expr)
    requires !Contains(lead, NUL) && Solid(v)
    ensures AllSolid([Lit(lead), v]) && (AllClean([Lit(lead), v]) <==> Clean(v))
  {
    assert [Lit(lead), v][1] == v;
  }

  lemma {:induction false} OptionalShape(lead: string, v: Expr)
    requires !Contains(lead, NUL) && Solid(v)
    ensures var es := [Opt(Paren(Cat([Lit(lead), v]), true))];
            AllSolid(es) && (AllClean(es) <==> Clean(v))
  {
    var c := Cat([Lit(lead), v]);
    assert c.parts[1] == v;
    assert Clean(c) <==> Clean(v);
    assert Solid(c);
    var o := Opt(Paren(c, true));
    assert Clean(o) <==> Clean(c);
    assert Solid(o.body) && [o][0] == o;
  }

  lemma {:induction false} CallClean(v: View, tail: string)
    requires Admitted(v) && !Contains(tail, NUL)
    ensures !Contains(v.id + "." + v.command.name + tail, NUL)
  {
    assert forall i :: 0 <= i < |v.id| ==> SlugChar(v.id[i]);
    assert forall i :: 0 <= i < |v.command.name| ==> SlugChar(v.command.name[i]);
    PlusHolds(v.id, ".", NUL);
    PlusHolds(v.id + ".", v.command.name, NUL);
    PlusHolds(v.id + "." + v.command.name, tail, NUL);
  }

  /** The production of a command is clean exactly when its arguments admit no text. */
  lemma {:induction false} CommandExact(v: View)
    requires Admitted(v)
    ensures Solid(CommandExpr(v)) && (Clean(CommandExpr(v)) <==> NoTextArgs(v.command.params))
  {
    var ps, call := v.command.params, v.id + "." + v.command.name;
    PartsExact(ps);
    CallClean(v, " {}");
    CallClean(v, " {");
    hide NoText, RequiredParts, OptionalParts, Contains, Admitted, AllClean, AllSolid;
    if ps != [] {
      if RequiredParts(ps) == [] {
        ObjectForm(call + " ");
      } else {
        FullForm(call + " {", RequiredParts(ps), OptionalParts(ps));
      }
    }
  }

  lemma {:induction false} ObjectForm(call: string)
    ensures var e := Cat([Lit(call), Ref("obj")]);
            Solid(e) && !Clean(e)
  {
    assert [Lit(call), Ref("obj")][1] == Ref("obj") && QUIET_RULES[4] == "obj";
  }

  lemma {:induction false} FullForm(call: string, r: seq<Expr>, o: seq<Expr>)
    requires !Contains(call, NUL) && AllSolid(r) && AllSolid(o)
    ensures var e := Cat([Lit(call)] + r + o + [Lit("}")]);
            Solid(e) && (Clean(e) <==> AllClean(r) && AllClean(o))
  {
    var es := [Lit(call)] + r + o + [Lit("}")];
    AllSplit([Lit(call)], r);
    AllSplit([Lit(call)] + r, o);
    AllSplit([Lit(call)] + r + o, [Lit("}")]);
    assert AllClean([Lit(call)]) && AllSolid([Lit(call)]);
    assert AllClean([Lit("}")]) && AllSolid([Lit("}")]);
    assert AllClean(es) <==> Clean(Cat(es));
    assert AllSolid(es) <==> Solid(Cat(es));
  }

  // ---- sentences --------------------------------------------------------------------------------------

  lemma {:induction false} CallingYields(views: seq<View>, names: seq<string>, i: nat, c: Tree)
    requires RuleNames(views) == Some(names) && i < |views|
    requires Derives(Grammar(views, names), CommandExpr(views[i]), c)
    ensures var g := Grammar(views, names);
            && Derives(g, Ref("root"), Calling(i, c))
            && Yield(g, Ref("root"), Calling(i, c)) == KEYWORD + Yield(g, CommandExpr(views[i]), c) + "\n"
  {
    var g := Grammar(views, names);
    GrammarLookups(views, names);
    hide Lookup, CommandExpr, Grammar;
    CallDerives(g, names, i, Expand(c));
    RootDerives(g, Expand(Pick(i, Expand(c))));
    CallingText(g, names, i, c, CommandExpr(views[i]));
  }

  /** Every sentence calls some listed command. */
  lemma {:induction false} SentenceCalls(views: seq<View>, names: seq<string>, t: Tree) returns (i: nat, c: Tree)
    requires RuleNames(views) == Some(names) && views != [] && Derives(Grammar(views, names), Ref("root"), t)
    ensures i < |views| && Derives(Grammar(views, names), CommandExpr(views[i]), c) && t == Calling(i, c)
  {
    var g := Grammar(views, names);
    GrammarLookups(views, names);
    hide Lookup, CommandExpr, Grammar, Derives, CallRule;
    var call := RootParts(g, t);
    var n;
    i, n := CallParts(g, names, call);
    c := NameParts(g, names[i], CommandExpr(views[i]), n);
  }

  /** Whether a sentence is read back is decided by the text of its command alone. */
  lemma {:induction false} CallingRead(views: seq<View>, names: seq<string>, i: nat, c: Tree)
    requires RuleNames(views) == Some(names) && i < |views|
    requires forall k :: 0 <= k < |views| ==> Admitted(views[k])
    requires Derives(Grammar(views, names), CommandExpr(views[i]), c)
    requires Derives(Grammar(views, names), Ref("root"), Calling(i, c))
    ensures var g := Grammar(views, names);
            Parse(Yield(g, Ref("root"), Calling(i, c))).Some? <==> !Contains(Yield(g, CommandExpr(views[i]), c), NUL)
  {
    hide Derives, Yield, Grammar, CommandExpr, Admitted, RuleNames;
    var g := Grammar(views, names);
    CallingYields(views, names, i, c);
    SentencesAreCalls(views, names, Calling(i, c));
    var text := Yield(g, CommandExpr(views[i]), c);
    PlusHolds(KEYWORD, text, NUL);
    PlusHolds(KEYWORD + text, "\n", NUL);
    assert !Contains(KEYWORD, NUL) && !Contains("\n", NUL);
  }

  /** A command with an argument of free text has a sentence that is lost. */
  lemma {:induction false} LostSentence(views: seq<View>, names: seq<string>, i: nat) returns (t: Tree)
    requires RuleNames(views) == Some(names) && i < |views| && !NoTextArgs(views[i].command.params)
    requires forall k :: 0 <= k < |views| ==> Admitted(views[k])
    ensures Derives(Grammar(views, names), Ref("root"), t)
    ensures var s := Yield(Grammar(views, names), Ref("root"), t);
            Contains(s, NUL) && Parse(s).None?
  {
    var g := Grammar(views, names);
    GrammarLookups(views, names);
    hide Derives, Yield, Grammar, CommandExpr, RuleNames, Parse, Clean, Solid, Admitted, NoTextArgs, Calling, Lookup;
    CommandExact(views[i]);
    var c := Spoil(g, CommandExpr(views[i]));
    CallingYields(views, names, i, c);
    CallingRead(views, names, i, c);
    t := Calling(i, c);
    var text := Yield(g, CommandExpr(views[i]), c);
    PlusHolds(KEYWORD, text, NUL);
    PlusHolds(KEYWORD + text, "\n", NUL);
  }

  /** Every sentence of the grammar is read back as a call. */
  ghost predicate AllRead(g: seq<Rule>) {
    forall t :: Derives(g, Ref("root"), t) ==> Parse(Yield(g, Ref("root"), t)).Some?
  }

  lemma {:induction false} SoundWithoutText(views: seq<View>, names: seq<string>, t: Tree)
    requires RuleNames(views) == Some(names) && views != [] && Derives(Grammar(views, names), Ref("root"), t)
    requires forall k :: 0 <= k < |views| ==> Admitted(views[k]) && NoTextArgs(views[k].command.params)
    ensures Parse(Yield(Grammar(views, names), Ref("root"), t)).Some?
  {
    var g := Grammar(views, names);
    GrammarLookups(views, names);
    hide Derives, Yield, Grammar, CommandExpr, RuleNames, Parse, Clean, Solid, Admitted, NoTextArgs, Calling, Lookup;
    var i, c := SentenceCalls(views, names, t);
    CommandExact(views[i]);
    CleanYield(g, CommandExpr(views[i]), c);
    CallingRead(views, names, i, c);
  }

  /** Every sentence of the grammar is read back exactly when no listed command admits free
      text anywhere in its arguments. */
  lemma {:induction false} SoundExactly(views: seq<View>, names: seq<string>)
    requires RuleNames(views) == Some(names) && views != []
    requires forall k :: 0 <= k < |views| ==> Admitted(views[k])
    ensures AllRead(Grammar(views, names)) <==> forall k :: 0 <= k < |views| ==> NoTextArgs(views[k].command.params)
  {
    var g := Grammar(views, names);
    hide Derives, Yield, Grammar, RuleNames, Parse, Admitted, NoTextArgs;
    if i :| 0 <= i < |views| && !NoTextArgs(views[i].command.params) {
      var t := LostSentence(views, names, i);
    } else {
      forall t | Derives(g, Ref("root"), t)
        ensures Parse(Yield(g, Ref("root"), t)).Some?
      {
        SoundWithoutText(views, names, t);
      }
    }
  }

  // ---- one command with a string --------------------------------------------------------------------------

  const SAY := View("a", Command("b", [Param("s", StringT(-1, -1), true, None)]))

  /** A registry of one command with one required string already has such a sentence. */
  lemma {:induction false} SayLosesOne() returns (names: seq<string>, t: Tree)
    ensures RuleNames([SAY]) == Some(names) && Admitted(SAY) && Derives(Grammar([SAY], names), Ref("root"), t)
    ensures var s := Yield(Grammar([SAY], names), Ref("root"), t);
            Contains(s, NUL) && Parse(s).None?
  {
    NamesSuffice([SAY]);
    names := RuleNames([SAY]).value;
    assert !NoTextArgs(SAY.command.params) by {
      assert !NoText(SAY.command.params[0].ty, 0);
    }
    t := LostSentence([SAY], names, 0);
  }
}
