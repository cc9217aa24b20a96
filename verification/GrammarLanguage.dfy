/** The language of the exported grammar is exactly the texts that spell calls (src/gbnf.c). */
module GrammarLanguage {
  import opened Text
  import opened Types
  import opened Gbnf
  import opened GrammarSound
  import GrammarExact
  import opened Spelling

  /** s can be derived from e. */
  ghost predicate Speaks(g: seq<Rule>, e: Expr, s: string) {
    exists t :: Derives(g, e, t) && Yield(g, e, t) == s
  }

  // ---- what each form derives ------------------------------------------------------------------

  lemma {:induction false} LitSpeaks(g: seq<Rule>, x: string, s: string)
    ensures Speaks(g, Lit(x), s) <==> s == x
  {
    assert Derives(g, Lit(x), Leaf) && Yield(g, Lit(x), Leaf) == x;
  }

  lemma {:induction false} RefSpeaks(g: seq<Rule>, n: string, b: Expr, s: string)
    requires Lookup(g, n) == Some(b)
    ensures Speaks(g, Ref(n), s) <==> Speaks(g, b, s)
  {
    hide Lookup;
    if t :| Derives(g, b, t) && Yield(g, b, t) == s {
      assert Derives(g, Ref(n), Expand(t)) && Yield(g, Ref(n), Expand(t)) == s;
    }
    if t :| Derives(g, Ref(n), t) && Yield(g, Ref(n), t) == s {
      assert Derives(g, b, t.t) && Yield(g, b, t.t) == s;
    }
  }

  lemma {:induction false} ClassSpeaks(g: seq<Rule>, e: Expr, s: string)
    requires e.Class?
    ensures Speaks(g, e, s) <==> |s| == 1 && InRanges(s[0], e.ranges) != e.negated
  {
    hide InRanges;
    if |s| == 1 && InRanges(s[0], e.ranges) != e.negated {
      assert Derives(g, e, Chr(s[0])) && Yield(g, e, Chr(s[0])) == s;
    }
  }

  lemma {:induction false} AltSpeaks(g: seq<Rule>, cs: seq<Expr>, s: string)
    ensures Speaks(g, Alt(cs), s) <==> exists i :: 0 <= i < |cs| && Speaks(g, cs[i], s)
  {
    if i :| 0 <= i < |cs| && Speaks(g, cs[i], s) {
      var t :| Derives(g, cs[i], t) && Yield(g, cs[i], t) == s;
      assert Derives(g, Alt(cs), Pick(i, t)) && Yield(g, Alt(cs), Pick(i, t)) == s;
    }
    if t :| Derives(g, Alt(cs), t) && Yield(g, Alt(cs), t) == s {
      assert Derives(g, cs[t.i], t.t) && Yield(g, cs[t.i], t.t) == s;
    }
  }

  lemma {:induction false} EitherSpeaks(g: seq<Rule>, a: Expr, b: Expr, s: string)
    ensures Speaks(g, Alt([a, b]), s) <==> Speaks(g, a, s) || Speaks(g, b, s)
  {
    var cs := [a, b];
    AltSpeaks(g, cs, s);
    hide Speaks;
    assert cs[0] == a && cs[1] == b;
  }

  lemma {:induction false} ParenSpeaks(g: seq<Rule>, b: Expr, spaced: bool, s: string)
    ensures Speaks(g, Paren(b, spaced), s) <==> Speaks(g, b, s)
  {
    if t :| Derives(g, b, t) && Yield(g, b, t) == s {
      assert Derives(g, Paren(b, spaced), t) && Yield(g, Paren(b, spaced), t) == s;
    }
    if t :| Derives(g, Paren(b, spaced), t) && Yield(g, Paren(b, spaced), t) == s {
      assert Derives(g, b, t) && Yield(g, b, t) == s;
    }
  }

  // ---- lists of derivations ---------------------------------------------------------------------------

  ghost predicate DeriveEach(g: seq<Rule>, ps: seq<Expr>, ts: seq<Tree>) {
    |ts| == |ps| && forall i :: 0 <= i < |ps| ==> Derives(g, ps[i], ts[i])
  }

  ghost function Yields(g: seq<Rule>, ps: seq<Expr>, ts: seq<Tree>): string
    requires DeriveEach(g, ps, ts)
  {
    Concat(seq(|ps|, i requires 0 <= i < |ps| => Yield(g, ps[i], ts[i])))
  }

  lemma {:induction false} YieldsFirst(g: seq<Rule>, ps: seq<Expr>, ts: seq<Tree>)
    requires DeriveEach(g, ps, ts) && ps != []
    ensures DeriveEach(g, ps[1..], ts[1..]) && Derives(g, ps[0], ts[0])
    ensures Yields(g, ps, ts) == Yield(g, ps[0], ts[0]) + Yields(g, ps[1..], ts[1..])
  {
    hide Derives, Yield;
    var ss := seq(|ps|, i requires 0 <= i < |ps| => Yield(g, ps[i], ts[i]));
    var rest := seq(|ps[1..]|, i requires 0 <= i < |ps[1..]| => Yield(g, ps[1..][i], ts[1..][i]));
    assert ss[1..] == rest;
  }

  ghost predicate EachSpeaks(g: seq<Rule>, ps: seq<Expr>, s: string) {
    exists ts :: DeriveEach(g, ps, ts) && Yields(g, ps, ts) == s
  }

  lemma {:induction false} EachNone(g: seq<Rule>, s: string)
    ensures EachSpeaks(g, [], s) <==> s == ""
  {
    assert DeriveEach(g, [], []) && Yields(g, [], []) == "";
  }

  lemma {:induction false} EachFirst(g: seq<Rule>, ps: seq<Expr>, s: string)
    requires ps != []
    ensures EachSpeaks(g, ps, s) <==> exists cut: nat :: cut <= |s| && Speaks(g, ps[0], s[..cut]) && EachSpeaks(g, ps[1..], s[cut..])
  {
    hide Derives, Yield, Yields;
    if ts :| DeriveEach(g, ps, ts) && Yields(g, ps, ts) == s {
      YieldsFirst(g, ps, ts);
      FirstCut(g, ps, ts[0], ts[1..], s);
    }
    if cut: nat :| cut <= |s| && Speaks(g, ps[0], s[..cut]) && EachSpeaks(g, ps[1..], s[cut..]) {
      var t :| Derives(g, ps[0], t) && Yield(g, ps[0], t) == s[..cut];
      var ts :| DeriveEach(g, ps[1..], ts) && Yields(g, ps[1..], ts) == s[cut..];
      EachPut(g, ps, t, ts);
      assert s[..cut] + s[cut..] == s;
    }
  }

  lemma {:induction false} FirstCut(g: seq<Rule>, ps: seq<Expr>, t: Tree, ts: seq<Tree>, s: string)
    requires ps != [] && Derives(g, ps[0], t) && DeriveEach(g, ps[1..], ts) && s == Yield(g, ps[0], t) + Yields(g, ps[1..], ts)
    ensures exists cut: nat :: cut <= |s| && Speaks(g, ps[0], s[..cut]) && EachSpeaks(g, ps[1..], s[cut..])
  {
    hide Derives, Yield, Yields;
    var cut := |Yield(g, ps[0], t)|;
    assert s[..cut] == Yield(g, ps[0], t) && s[cut..] == Yields(g, ps[1..], ts);
  }

  lemma {:induction false} EachPut(g: seq<Rule>, ps: seq<Expr>, t: Tree, ts: seq<Tree>)
    requires ps != [] && Derives(g, ps[0], t) && DeriveEach(g, ps[1..], ts)
    ensures DeriveEach(g, ps, [t] + ts) && Yields(g, ps, [t] + ts) == Yield(g, ps[0], t) + Yields(g, ps[1..], ts)
  {
    hide Derives, Yield, Yields;
    var all := [t] + ts;
    forall i | 0 <= i < |ps|
      ensures Derives(g, ps[i], all[i])
    {
      assert i > 0 ==> ps[i] == ps[1..][i - 1] && all[i] == ts[i - 1];
    }
    YieldsFirst(g, ps, all);
    assert all[1..] == ts;
  }

  lemma {:induction false} CatSpeaks(g: seq<Rule>, ps: seq<Expr>, s: string)
    ensures Speaks(g, Cat(ps), s) <==> EachSpeaks(g, ps, s)
  {
    if t :| Derives(g, Cat(ps), t) && Yield(g, Cat(ps), t) == s {
      assert DeriveEach(g, ps, t.ts) && Yields(g, ps, t.ts) == s;
    }
    if ts :| DeriveEach(g, ps, ts) && Yields(g, ps, ts) == s {
      assert Derives(g, Cat(ps), Many(ts)) && Yield(g, Cat(ps), Many(ts)) == s;
    }
  }

  /** A part and the parts after it. */
  lemma {:induction false} ThenSpeaks(g: seq<Rule>, a: Expr, ps: seq<Expr>, s: string)
    ensures EachSpeaks(g, [a] + ps, s) <==> exists cut: nat :: cut <= |s| && Speaks(g, a, s[..cut]) && EachSpeaks(g, ps, s[cut..])
  {
    EachFirst(g, [a] + ps, s);
    assert ([a] + ps)[1..] == ps;
  }

  lemma {:induction false} LastSpeaks(g: seq<Rule>, a: Expr, s: string)
    ensures EachSpeaks(g, [a], s) <==> Speaks(g, a, s)
  {
    EachFirst(g, [a], s);
    EachNone(g, "");
    assert [a][1..] == [];
    assert s[..|s|] == s && s[|s|..] == "";
    forall cut: nat | cut <= |s| && EachSpeaks(g, [], s[cut..])
      ensures cut == |s|
    {
      EachNone(g, s[cut..]);
    }
  }

  lemma {:induction false} TwoSpeak(g: seq<Rule>, a: Expr, b: Expr, s: string)
    ensures Speaks(g, Cat([a, b]), s) <==> exists cut: nat :: cut <= |s| && Speaks(g, a, s[..cut]) && Speaks(g, b, s[cut..])
  {
    CatSpeaks(g, [a, b], s);
    assert [a, b] == [a] + [b];
    ThenSpeaks(g, a, [b], s);
    hide Speaks, EachSpeaks;
    forall cut: nat | cut <= |s|
      ensures EachSpeaks(g, [b], s[cut..]) <==> Speaks(g, b, s[cut..])
    {
      LastSpeaks(g, b, s[cut..]);
    }
  }

  /** A letter of its own in front. */
  lemma {:induction false} LeadSpeaks(g: seq<Rule>, x: string, ps: seq<Expr>, s: string)
    ensures EachSpeaks(g, [Lit(x)] + ps, s) <==> x <= s && EachSpeaks(g, ps, s[|x|..])
  {
    ThenSpeaks(g, Lit(x), ps, s);
    hide Speaks, EachSpeaks;
    forall cut: nat | cut <= |s|
      ensures Speaks(g, Lit(x), s[..cut]) <==> s[..cut] == x
    {
      LitSpeaks(g, x, s[..cut]);
    }
    if x <= s {
      assert s[..|x|] == x;
    }
  }

  /** Parts between two marks. */
  lemma {:induction false} BetweenSpeaks(g: seq<Rule>, a: char, e: Expr, b: char, s: string)
    ensures Speaks(g, Cat([Lit([a]), e, Lit([b])]), s) <==> |s| >= 2 && s[0] == a && s[|s| - 1] == b && Speaks(g, e, s[1..|s| - 1])
  {
    CatSpeaks(g, [Lit([a]), e, Lit([b])], s);
    assert [Lit([a]), e, Lit([b])] == [Lit([a])] + ([e] + [Lit([b])]);
    LeadSpeaks(g, [a], [e] + [Lit([b])], s);
    hide Speaks, EachSpeaks;
    if [a] <= s {
      var r := s[1..];
      ClosedBy(g, e, b, r);
      if r != "" {
        assert r[..|r| - 1] == s[1..|s| - 1];
      }
    }
  }

  lemma {:induction false} ClosedBy(g: seq<Rule>, e: Expr, b: char, s: string)
    ensures EachSpeaks(g, [e] + [Lit([b])], s) <==> s != "" && s[|s| - 1] == b && Speaks(g, e, s[..|s| - 1])
  {
    ThenSpeaks(g, e, [Lit([b])], s);
    hide Speaks, EachSpeaks;
    forall cut: nat | cut <= |s|
      ensures EachSpeaks(g, [Lit([b])], s[cut..]) <==> s[cut..] == [b]
    {
      LastSpeaks(g, Lit([b]), s[cut..]);
      LitSpeaks(g, [b], s[cut..]);
    }
    if s != "" && s[|s| - 1] == b {
      assert s[|s| - 1..] == [b];
    }
  }

  // ---- repetition ----------------------------------------------------------------------------------------

  lemma {:induction false} OptSpeaks(g: seq<Rule>, b: Expr, s: string)
    ensures Speaks(g, Opt(b), s) <==> s == "" || Speaks(g, b, s)
  {
    assert Derives(g, Opt(b), Many([])) && Yield(g, Opt(b), Many([])) == "";
    if t :| Derives(g, b, t) && Yield(g, b, t) == s {
      OneYield(g, b, t);
      assert Derives(g, Opt(b), Many([t])) && Yield(g, Opt(b), Many([t])) == s;
    }
    if t :| Derives(g, Opt(b), t) && Yield(g, Opt(b), t) == s {
      if t.ts != [] {
        OneYield(g, b, t.ts[0]);
        assert t.ts == [t.ts[0]];
      }
    }
  }

  lemma {:induction false} OneYield(g: seq<Rule>, b: Expr, t: Tree)
    requires Derives(g, b, t)
    ensures var ts := [t];
            (forall i :: 0 <= i < |ts| ==> Derives(g, b, ts[i]))
            && Concat(seq(|ts|, i requires 0 <= i < |ts| => Yield(g, b, ts[i]))) == Yield(g, b, t)
  {
    hide Derives, Yield;
    var ts := [t];
    var ss := seq(|ts|, i requires 0 <= i < |ts| => Yield(g, b, ts[i]));
    assert ss == [Yield(g, b, t)];
    assert ss[1..] == [];
  }

  function Copies(b: Expr, n: nat): seq<Expr> { seq(n, _ => b) }

  ghost predicate Times(g: seq<Rule>, b: Expr, n: nat, s: string) { EachSpeaks(g, Copies(b, n), s) }

  lemma {:induction false} StarTimes(g: seq<Rule>, b: Expr, s: string)
    ensures Speaks(g, Star(b), s) <==> exists n: nat :: Times(g, b, n, s)
  {
    if n: nat :| Times(g, b, n, s) {
      SomeTimes(g, b, n, s);
    }
    if Speaks(g, Star(b), s) {
      var t :| Derives(g, Star(b), t) && Yield(g, Star(b), t) == s;
      RepeatTimes(g, b, t.ts, s);
    }
  }

  lemma {:induction false} PlusTimes(g: seq<Rule>, b: Expr, s: string)
    ensures Speaks(g, Plus(b), s) <==> exists n: nat :: n > 0 && Times(g, b, n, s)
  {
    if n: nat :| n > 0 && Times(g, b, n, s) {
      SomeTimes(g, b, n, s);
    }
    if Speaks(g, Plus(b), s) {
      var t :| Derives(g, Plus(b), t) && Yield(g, Plus(b), t) == s;
      RepeatTimes(g, b, t.ts, s);
    }
  }

  lemma {:induction false} SomeTimes(g: seq<Rule>, b: Expr, n: nat, s: string)
    requires Times(g, b, n, s)
    ensures Speaks(g, Star(b), s) && (n > 0 ==> Speaks(g, Plus(b), s))
  {
    hide Derives, Yield, Yields, Speaks;
    var ts :| DeriveEach(g, Copies(b, n), ts) && Yields(g, Copies(b, n), ts) == s;
    RepeatYields(g, b, ts);
  }

  lemma {:induction false} CopiesYield(g: seq<Rule>, b: Expr, ts: seq<Tree>)
    requires forall i :: 0 <= i < |ts| ==> Derives(g, b, ts[i])
    ensures DeriveEach(g, Copies(b, |ts|), ts)
    ensures Concat(seq(|ts|, i requires 0 <= i < |ts| => Yield(g, b, ts[i]))) == Yields(g, Copies(b, |ts|), ts)
  {
    hide Derives, Yield;
    var ps := Copies(b, |ts|);
    assert seq(|ts|, i requires 0 <= i < |ts| => Yield(g, b, ts[i])) == seq(|ps|, i requires 0 <= i < |ps| => Yield(g, ps[i], ts[i]));
  }

  lemma {:induction false} RepeatYields(g: seq<Rule>, b: Expr, ts: seq<Tree>)
    requires DeriveEach(g, Copies(b, |ts|), ts)
    ensures Speaks(g, Star(b), Yields(g, Copies(b, |ts|), ts))
    ensures ts != [] ==> Speaks(g, Plus(b), Yields(g, Copies(b, |ts|), ts))
  {
    forall i | 0 <= i < |ts|
      ensures Derives(g, b, ts[i])
    {
      assert Copies(b, |ts|)[i] == b;
    }
    CopiesYield(g, b, ts);
    var s := Yields(g, Copies(b, |ts|), ts);
    assert Derives(g, Star(b), Many(ts)) && Yield(g, Star(b), Many(ts)) == s;
    if ts != [] {
      assert Derives(g, Plus(b), Many(ts)) && Yield(g, Plus(b), Many(ts)) == s;
    }
  }

  lemma {:induction false} RepeatTimes(g: seq<Rule>, b: Expr, ts: seq<Tree>, s: string)
    requires forall i :: 0 <= i < |ts| ==> Derives(g, b, ts[i])
    requires Concat(seq(|ts|, i requires 0 <= i < |ts| => Yield(g, b, ts[i]))) == s
    ensures Times(g, b, |ts|, s)
  {
    hide Derives, Yield;
    CopiesYield(g, b, ts);
  }

  lemma {:induction false} TimesStep(g: seq<Rule>, b: Expr, n: nat, s: string)
    ensures Times(g, b, 0, s) <==> s == ""
    ensures Times(g, b, n + 1, s) <==> exists cut: nat :: cut <= |s| && Speaks(g, b, s[..cut]) && Times(g, b, n, s[cut..])
  {
    EachNone(g, s);
    assert Copies(b, 0) == [];
    assert Copies(b, n + 1) == [b] + Copies(b, n);
    ThenSpeaks(g, b, Copies(b, n), s);
    hide Speaks, EachSpeaks, Copies;
  }

  /** Pieces that are empty can be left out. */
  lemma {:induction false} TimesShort(g: seq<Rule>, b: Expr, n: nat, s: string)
    requires Times(g, b, n, s) && s != ""
    ensures exists cut: nat :: 0 < cut <= |s| && Speaks(g, b, s[..cut]) && Speaks(g, Star(b), s[cut..])
  {
    TimesStep(g, b, if n == 0 then 0 else n - 1, s);
    var cut: nat :| cut <= |s| && Speaks(g, b, s[..cut]) && Times(g, b, n - 1, s[cut..]);
    if cut == 0 {
      assert s[0..] == s;
      TimesShort(g, b, n - 1, s);
    } else {
      hide Times, Speaks;
      StarTimes(g, b, s[cut..]);
    }
  }

  lemma {:induction false} StarSpeaks(g: seq<Rule>, b: Expr, s: string)
    ensures Speaks(g, Star(b), s)
       <==> s == "" || exists cut: nat :: 0 < cut <= |s| && Speaks(g, b, s[..cut]) && Speaks(g, Star(b), s[cut..])
  {
    hide Speaks, Times;
    StarTimes(g, b, s);
    TimesStep(g, b, 0, s);
    if n: nat :| Times(g, b, n, s) {
      if s != "" {
        TimesShort(g, b, n, s);
      }
    }
    if cut: nat :| 0 < cut <= |s| && Speaks(g, b, s[..cut]) && Speaks(g, Star(b), s[cut..]) {
      StarTimes(g, b, s[cut..]);
      var n: nat :| Times(g, b, n, s[cut..]);
      TimesStep(g, b, n, s);
    }
  }

  lemma {:induction false} PlusSpeaks(g: seq<Rule>, b: Expr, s: string)
    requires !Speaks(g, b, "")
    ensures Speaks(g, Plus(b), s) <==> s != "" && Speaks(g, Star(b), s)
  {
    hide Speaks, Times;
    StarTimes(g, b, s);
    PlusTimes(g, b, s);
    TimesStep(g, b, 0, s);
    assert s[..0] == "";
    if n: nat :| n > 0 && Times(g, b, n, s) {
      TimesStep(g, b, n - 1, s);
    }
  }

  lemma {:induction false} EachJoin(g: seq<Rule>, ps: seq<Expr>, qs: seq<Expr>, s: string)
    ensures EachSpeaks(g, ps + qs, s) <==> exists cut: nat :: cut <= |s| && EachSpeaks(g, ps, s[..cut]) && EachSpeaks(g, qs, s[cut..])
    decreases |ps|
  {
    hide Speaks, EachSpeaks;
    if ps == [] {
      assert ps + qs == qs;
      JoinNone(g, qs, s);
    } else {
      EachFirst(g, ps + qs, s);
      assert (ps + qs)[1..] == ps[1..] + qs;
      forall cut: nat | cut <= |s|
        ensures EachSpeaks(g, ps[1..] + qs, s[cut..])
           <==> exists k: nat :: k <= |s[cut..]| && EachSpeaks(g, ps[1..], s[cut..][..k]) && EachSpeaks(g, qs, s[cut..][k..])
      {
        EachJoin(g, ps[1..], qs, s[cut..]);
      }
      if cut: nat :| cut <= |s| && Speaks(g, ps[0], s[..cut]) && EachSpeaks(g, ps[1..] + qs, s[cut..]) {
        var k: nat :| k <= |s[cut..]| && EachSpeaks(g, ps[1..], s[cut..][..k]) && EachSpeaks(g, qs, s[cut..][k..]);
        JoinLeft(g, ps, s, cut, k);
        assert s[cut..][k..] == s[cut + k..];
      }
      if mid: nat :| mid <= |s| && EachSpeaks(g, ps, s[..mid]) && EachSpeaks(g, qs, s[mid..]) {
        EachFirst(g, ps, s[..mid]);
        var cut: nat :| cut <= mid && Speaks(g, ps[0], s[..mid][..cut]) && EachSpeaks(g, ps[1..], s[..mid][cut..]);
        SplitAgain(s, cut, mid);
        assert EachSpeaks(g, ps[1..], s[cut..][..mid - cut]) && EachSpeaks(g, qs, s[cut..][mid - cut..]);
      }
    }
  }

  lemma {:induction false} JoinNone(g: seq<Rule>, qs: seq<Expr>, s: string)
    ensures EachSpeaks(g, qs, s) <==> exists cut: nat :: cut <= |s| && EachSpeaks(g, [], s[..cut]) && EachSpeaks(g, qs, s[cut..])
  {
    hide EachSpeaks;
    EachNone(g, "");
    assert s[..0] == "" && s[0..] == s;
    forall cut: nat | cut <= |s| && EachSpeaks(g, [], s[..cut])
      ensures cut == 0
    {
      EachNone(g, s[..cut]);
    }
  }

  lemma {:induction false} JoinLeft(g: seq<Rule>, ps: seq<Expr>, s: string, cut: nat, k: nat)
    requires ps != [] && cut <= |s| && k <= |s[cut..]| && Speaks(g, ps[0], s[..cut]) && EachSpeaks(g, ps[1..], s[cut..][..k])
    ensures EachSpeaks(g, ps, s[..cut + k])
  {
    hide Speaks, EachSpeaks;
    EachFirst(g, ps, s[..cut + k]);
    SplitAgain(s, cut, cut + k);
  }

  lemma {:induction false} SplitAgain(s: string, cut: nat, mid: nat)
    requires cut <= mid <= |s|
    ensures s[..mid][..cut] == s[..cut] && s[..mid][cut..] == s[cut..][..mid - cut] && s[cut..][mid - cut..] == s[mid..]
  {
  }

  // ---- numbers ------------------------------------------------------------------------------------------------

  lemma {:induction false} DigitSpeaks(g: seq<Rule>, s: string)
    ensures Speaks(g, DIGITS.body, s) <==> |s| == 1 && IsDigit(s[0])
  {
    ClassSpeaks(g, DIGITS.body, s);
    hide Speaks;
    assert DIGITS.body.ranges[0] == ('0', '9');
  }

  lemma {:induction false} DigitRun(g: seq<Rule>, s: string)
    ensures Speaks(g, Star(DIGITS.body), s) <==> AllDigits(s)
    decreases |s|
  {
    hide Speaks;
    StarSpeaks(g, DIGITS.body, s);
    if s != "" {
      DigitRun(g, s[1..]);
      DigitSpeaks(g, s[..1]);
      forall cut: nat | 0 < cut <= |s| && Speaks(g, DIGITS.body, s[..cut])
        ensures cut == 1
      {
        DigitSpeaks(g, s[..cut]);
      }
      assert forall i :: 0 < i < |s| ==> s[i] == s[1..][i - 1];
    }
  }

  lemma {:induction false} DigitsSpeak(g: seq<Rule>, s: string)
    ensures Speaks(g, DIGITS, s) <==> Digits(s)
  {
    hide Speaks;
    DigitSpeaks(g, "");
    PlusSpeaks(g, DIGITS.body, s);
    DigitRun(g, s);
  }

  lemma {:induction false} IntSpeaks(g: seq<Rule>, s: string)
    ensures Speaks(g, INT_RULE.body, s) <==> IsInt(s)
  {
    hide Speaks, Digits;
    TwoSpeak(g, Opt(Lit("-")), DIGITS, s);
    forall cut: nat | cut <= |s|
      ensures Speaks(g, Opt(Lit("-")), s[..cut]) <==> cut == 0 || (cut == 1 && s[0] == '-')
      ensures Speaks(g, DIGITS, s[cut..]) <==> Digits(s[cut..])
    {
      OptSpeaks(g, Lit("-"), s[..cut]);
      LitSpeaks(g, "-", s[..cut]);
      DigitsSpeak(g, s[cut..]);
    }
    assert s[0..] == s;
    if s != "" && s[0] == '-' {
      NoSign(s);
    }
  }

  lemma {:induction false} NoSign(s: string)
    requires s != "" && !IsDigit(s[0])
    ensures !Digits(s)
  {
  }

  lemma {:induction false} FractionSpeaks(g: seq<Rule>, e: Expr, s: string)
    requires e == NUM_RULE.body.parts[2]
    ensures Speaks(g, e, s) <==> IsFraction(s)
  {
    hide Speaks, EachSpeaks, Digits;
    OptSpeaks(g, e.body, s);
    ParenSpeaks(g, e.body.body, false, s);
    CatSpeaks(g, [Lit("."), DIGITS], s);
    assert [Lit("."), DIGITS] == [Lit(".")] + [DIGITS];
    LeadSpeaks(g, ".", [DIGITS], s);
    if "." <= s {
      LastSpeaks(g, DIGITS, s[1..]);
      DigitsSpeak(g, s[1..]);
    }
  }

  lemma {:induction false} PairSpeaks(g: seq<Rule>, a: char, b: char, s: string)
    ensures Speaks(g, Paren(Alt([Lit([a]), Lit([b])]), false), s) <==> |s| == 1 && (s[0] == a || s[0] == b)
  {
    hide Speaks;
    ParenSpeaks(g, Alt([Lit([a]), Lit([b])]), false, s);
    EitherSpeaks(g, Lit([a]), Lit([b]), s);
    LitSpeaks(g, [a], s);
    LitSpeaks(g, [b], s);
  }

  /** Digits behind an optional sign. */
  lemma {:induction false} SignedSpeaks(g: seq<Rule>, s: string)
    ensures var sign := Opt(Paren(Alt([Lit("+"), Lit("-")]), false));
            EachSpeaks(g, [sign, DIGITS], s) <==> Digits(if s != "" && (s[0] == '+' || s[0] == '-') then s[1..] else s)
  {
    hide Speaks, EachSpeaks, Digits;
    var pair := Paren(Alt([Lit("+"), Lit("-")]), false);
    CatSpeaks(g, [Opt(pair), DIGITS], s);
    TwoSpeak(g, Opt(pair), DIGITS, s);
    forall cut: nat | cut <= |s|
      ensures Speaks(g, Opt(pair), s[..cut]) <==> cut == 0 || (cut == 1 && (s[0] == '+' || s[0] == '-'))
      ensures Speaks(g, DIGITS, s[cut..]) <==> Digits(s[cut..])
    {
      OptSpeaks(g, pair, s[..cut]);
      PairSpeaks(g, '+', '-', s[..cut]);
      DigitsSpeak(g, s[cut..]);
    }
    assert s[0..] == s;
    if s != "" && (s[0] == '+' || s[0] == '-') {
      NoSign(s);
    }
  }

  lemma {:induction false} PowerSpeaks(g: seq<Rule>, e: Expr, s: string)
    requires e == NUM_RULE.body.parts[3]
    ensures Speaks(g, e, s) <==> IsPower(s)
  {
    var letter, sign := Paren(Alt([Lit("e"), Lit("E")]), false), Opt(Paren(Alt([Lit("+"), Lit("-")]), false));
    hide Speaks, EachSpeaks, Digits;
    OptSpeaks(g, e.body, s);
    ParenSpeaks(g, e.body.body, false, s);
    CatSpeaks(g, [letter, sign, DIGITS], s);
    assert [letter, sign, DIGITS] == [letter] + [sign, DIGITS];
    ThenSpeaks(g, letter, [sign, DIGITS], s);
    forall cut: nat | cut <= |s|
      ensures Speaks(g, letter, s[..cut]) <==> cut == 1 && (s[0] == 'e' || s[0] == 'E')
    {
      PairSpeaks(g, 'e', 'E', s[..cut]);
    }
    if s != "" {
      SignedSpeaks(g, s[1..]);
      assert |s| > 1 ==> s[1..][0] == s[1] && s[1..][1..] == s[2..];
    }
  }

  lemma {:induction false} NumSpeaks(g: seq<Rule>, s: string)
    ensures Speaks(g, NUM_RULE.body, s) <==> IsNum(s)
  {
    var ps := NUM_RULE.body.parts;
    hide Speaks, EachSpeaks, IsInt, IsFraction, IsPower;
    CatSpeaks(g, ps, s);
    assert ps == ps[..2] + ps[2..];
    EachJoin(g, ps[..2], ps[2..], s);
    assert ps[..2] == INT_RULE.body.parts && ps[2..] == [ps[2], ps[3]];
    forall i: nat | i <= |s|
      ensures EachSpeaks(g, ps[..2], s[..i]) <==> IsInt(s[..i])
      ensures EachSpeaks(g, ps[2..], s[i..]) <==> exists j: nat :: i <= j <= |s| && IsFraction(s[i..j]) && IsPower(s[j..])
    {
      CatSpeaks(g, ps[..2], s[..i]);
      IntSpeaks(g, s[..i]);
      TailSpeaks(g, ps[2], ps[3], s, i);
    }
  }

  lemma {:induction false} TailSpeaks(g: seq<Rule>, fraction: Expr, power: Expr, s: string, i: nat)
    requires i <= |s| && fraction == NUM_RULE.body.parts[2] && power == NUM_RULE.body.parts[3]
    ensures EachSpeaks(g, [fraction, power], s[i..]) <==> exists j: nat :: i <= j <= |s| && IsFraction(s[i..j]) && IsPower(s[j..])
  {
    hide Speaks, EachSpeaks, IsFraction, IsPower;
    CatSpeaks(g, [fraction, power], s[i..]);
    TwoSpeak(g, fraction, power, s[i..]);
    forall cut: nat | cut <= |s[i..]|
      ensures Speaks(g, fraction, s[i..][..cut]) <==> IsFraction(s[i..i + cut])
      ensures Speaks(g, power, s[i..][cut..]) <==> IsPower(s[i + cut..])
    {
      assert s[i..][..cut] == s[i..i + cut] && s[i..][cut..] == s[i + cut..];
      FractionSpeaks(g, fraction, s[i..i + cut]);
      PowerSpeaks(g, power, s[i + cut..]);
    }
    if j: nat :| i <= j <= |s| && IsFraction(s[i..j]) && IsPower(s[j..]) {
      var cut := j - i;
      assert cut <= |s[i..]| && i + cut == j;
      assert Speaks(g, fraction, s[i..][..cut]) && Speaks(g, power, s[i..][cut..]);
    }
  }

  // ---- strings ----------------------------------------------------------------------------------------------

  lemma {:induction false} HexRun(g: seq<Rule>, n: nat, s: string)
    ensures Times(g, HEX, n, s) <==> |s| == n && forall i :: 0 <= i < |s| ==> IsHex(s[i])
    decreases n
  {
    hide Speaks, Times;
    if n == 0 {
      TimesStep(g, HEX, 0, s);
    } else {
      TimesStep(g, HEX, n - 1, s);
      forall cut: nat | cut <= |s|
        ensures Speaks(g, HEX, s[..cut]) <==> cut == 1 && IsHex(s[0])
      {
        HexSpeaks(g, s[..cut]);
      }
      if s != "" {
        HexRun(g, n - 1, s[1..]);
        assert forall i :: 0 < i < |s| ==> s[i] == s[1..][i - 1];
      }
    }
  }

  lemma {:induction false} HexSpeaks(g: seq<Rule>, s: string)
    ensures Speaks(g, HEX, s) <==> |s| == 1 && IsHex(s[0])
  {
    ClassSpeaks(g, HEX, s);
    hide Speaks;
    var rs := HEX.ranges;
    assert rs[0] == ('0', '9') && rs[1] == ('a', 'f') && rs[2] == ('A', 'F');
  }

  lemma {:induction false} PlainSpeaks(g: seq<Rule>, s: string)
    ensures Speaks(g, CHAR_RULE.body.choices[0], s) <==> |s| == 1 && IsPlain(s[0])
  {
    var e := CHAR_RULE.body.choices[0];
    ClassSpeaks(g, e, s);
    hide Speaks;
    assert e.ranges[0] == ('"', '"') && e.ranges[1] == ('\\', '\\') && e.ranges[2] == ('\n', '\n') && e.ranges[3] == ('\r', '\r');
  }

  lemma {:induction false} LetterSpeaks(g: seq<Rule>, e: Expr, s: string)
    requires e == CHAR_RULE.body.choices[1].parts[1].body.choices[0]
    ensures Speaks(g, e, s) <==> |s| == 1 && s[0] in ESCAPABLE
  {
    ClassSpeaks(g, e, s);
    hide Speaks;
    assert |e.ranges| == 8 == |ESCAPABLE|;
    assert forall i :: 0 <= i < 8 ==> e.ranges[i] == (ESCAPABLE[i], ESCAPABLE[i]);
  }

  lemma {:induction false} CodeSpeaks(g: seq<Rule>, s: string)
    ensures Speaks(g, Cat([Lit("u"), HEX, HEX, HEX, HEX]), s) <==> |s| == 5 && s[0] == 'u' && forall i :: 1 <= i < 5 ==> IsHex(s[i])
  {
    hide Speaks, EachSpeaks;
    CatSpeaks(g, [Lit("u"), HEX, HEX, HEX, HEX], s);
    assert [Lit("u"), HEX, HEX, HEX, HEX] == [Lit("u")] + Copies(HEX, 4);
    LeadSpeaks(g, "u", Copies(HEX, 4), s);
    if "u" <= s {
      HexRun(g, 4, s[1..]);
      assert forall i :: 1 <= i < |s| ==> s[i] == s[1..][i - 1];
    }
  }

  lemma {:induction false} EscapeSpeaks(g: seq<Rule>, s: string)
    ensures Speaks(g, CHAR_RULE.body.choices[1], s)
       <==> || (|s| == 2 && s[0] == '\\' && s[1] in ESCAPABLE)
            || (|s| == 6 && s[0] == '\\' && s[1] == 'u' && forall i :: 2 <= i < 6 ==> IsHex(s[i]))
  {
    var group := CHAR_RULE.body.choices[1].parts[1];
    hide Speaks, EachSpeaks;
    CatSpeaks(g, [Lit("\\"), group], s);
    assert [Lit("\\"), group] == [Lit("\\")] + [group];
    LeadSpeaks(g, "\\", [group], s);
    if "\\" <= s {
      var r := s[1..];
      LastSpeaks(g, group, r);
      ParenSpeaks(g, group.body, false, r);
      EitherSpeaks(g, group.body.choices[0], group.body.choices[1], r);
      LetterSpeaks(g, group.body.choices[0], r);
      CodeSpeaks(g, r);
      assert forall i :: 1 <= i < |s| ==> s[i] == r[i - 1];
    }
  }

  lemma {:induction false} CharSpeaks(g: seq<Rule>, s: string)
    requires Standard(g)
    ensures Speaks(g, Ref("char"), s) <==> IsChar(s)
  {
    hide Speaks, Lookup;
    RefSpeaks(g, "char", CHAR_RULE.body, s);
    EitherSpeaks(g, CHAR_RULE.body.choices[0], CHAR_RULE.body.choices[1], s);
    PlainSpeaks(g, s);
    EscapeSpeaks(g, s);
  }

  lemma {:induction false} BodySpeaks(g: seq<Rule>, s: string)
    requires Standard(g)
    ensures Speaks(g, Star(Ref("char")), s) <==> StringBody(s)
    decreases |s|
  {
    hide Speaks, Standard, IsChar;
    StarSpeaks(g, Ref("char"), s);
    forall cut: nat | 0 < cut <= |s|
      ensures Speaks(g, Ref("char"), s[..cut]) <==> IsChar(s[..cut])
      ensures Speaks(g, Star(Ref("char")), s[cut..]) <==> StringBody(s[cut..])
    {
      CharSpeaks(g, s[..cut]);
      BodySpeaks(g, s[cut..]);
    }
  }

  lemma {:induction false} StrSpeaks(g: seq<Rule>, s: string)
    requires Standard(g)
    ensures Speaks(g, Ref("str"), s) <==> IsString(s)
  {
    hide Speaks, Lookup, StringBody;
    RefSpeaks(g, "str", STR_RULE.body, s);
    BetweenSpeaks(g, '"', Star(Ref("char")), '"', s);
    if |s| >= 2 {
      BodySpeaks(g, s[1..|s| - 1]);
    }
  }

  // ---- objects ------------------------------------------------------------------------------------------------

  lemma {:induction false} OuterSpeaks(g: seq<Rule>, e: Expr, s: string)
    requires e == OBJ_RULE.body.parts[1].body.body.choices[0]
    ensures Speaks(g, e, s) <==> |s| == 1 && IsOuter(s[0])
  {
    ClassSpeaks(g, e, s);
    hide Speaks;
    assert e.ranges[0] == ('{', '{') && e.ranges[1] == ('}', '}') && e.ranges[2] == ('"', '"');
    assert e.ranges[3] == ('\n', '\n') && e.ranges[4] == ('\r', '\r');
  }

  lemma {:induction false} ObjSpeaks(g: seq<Rule>, s: string)
    requires Standard(g)
    ensures Speaks(g, Ref("obj"), s) <==> IsObj(s)
    decreases |s|, 0
  {
    hide Speaks, Lookup, ObjBody;
    RefSpeaks(g, "obj", OBJ_RULE.body, s);
    BetweenSpeaks(g, '{', OBJ_RULE.body.parts[1], '}', s);
    if |s| >= 2 {
      ObjBodySpeaks(g, s[1..|s| - 1]);
    }
  }

  lemma {:induction false} ObjBodySpeaks(g: seq<Rule>, s: string)
    requires Standard(g)
    ensures Speaks(g, OBJ_RULE.body.parts[1], s) <==> ObjBody(s)
    decreases |s|, 2
  {
    var piece := OBJ_RULE.body.parts[1].body;
    hide Speaks, Standard, ObjPiece;
    StarSpeaks(g, piece, s);
    forall cut: nat | 0 < cut <= |s|
      ensures Speaks(g, piece, s[..cut]) <==> ObjPiece(s[..cut])
      ensures Speaks(g, Star(piece), s[cut..]) <==> ObjBody(s[cut..])
    {
      PieceSpeaks(g, piece, s[..cut]);
      ObjBodySpeaks(g, s[cut..]);
    }
  }

  lemma {:induction false} PieceSpeaks(g: seq<Rule>, piece: Expr, s: string)
    requires Standard(g) && piece == OBJ_RULE.body.parts[1].body
    ensures Speaks(g, piece, s) <==> ObjPiece(s)
    decreases |s|, 1
  {
    hide Speaks, Standard, IsString, IsObj, IsOuter;
    var cs := piece.body.choices;
    ParenSpeaks(g, piece.body, false, s);
    AltSpeaks(g, cs, s);
    OuterSpeaks(g, cs[0], s);
    StrSpeaks(g, s);
    ObjSpeaks(g, s);
    assert |cs| == 3 && cs[1] == Ref("str") && cs[2] == Ref("obj");
  }

  // ---- values ---------------------------------------------------------------------------------------------------

  lemma {:induction false} BodyExactly(v: string, b: string)
    ensures BodyOf(v, b) <==> b == TokenBody(v)
    decreases |v|
  {
    if v != "" {
      var rest := TokenBody(v[1..]);
      if |TokenOne(v[0])| == 2 {
        if |b| >= 2 {
          BodyExactly(v[1..], b[2..]);
        }
        PrefixTwo(b, TokenOne(v[0]), rest);
      } else {
        if b != "" {
          BodyExactly(v[1..], b[1..]);
        }
        PrefixOne(b, v[0], rest);
      }
    }
  }

  lemma {:induction false} PrefixTwo(b: string, two: string, rest: string)
    requires |two| == 2
    ensures b == two + rest <==> |b| >= 2 && b[0] == two[0] && b[1] == two[1] && b[2..] == rest
  {
  }

  lemma {:induction false} PrefixOne(b: string, c: char, rest: string)
    ensures b == [c] + rest <==> b != "" && b[0] == c && b[1..] == rest
  {
  }

  lemma {:induction false} QuotedExactly(v: string, s: string)
    ensures IsQuoted(v, s) <==> s == Token(v)
  {
    hide BodyOf, TokenBody;
    if |s| >= 2 {
      BodyExactly(v, s[1..|s| - 1]);
      assert s == [s[0]] + s[1..|s| - 1] + [s[|s| - 1]];
    }
    assert Token(v)[1..|Token(v)| - 1] == TokenBody(v);
  }

  lemma {:induction false} EnumSpeaks(g: seq<Rule>, values: seq<string>, cs: seq<Expr>, s: string)
    requires |cs| == |values| && forall i :: 0 <= i < |cs| ==> cs[i] == Lit(Token(values[i]))
    ensures Speaks(g, Paren(Alt(cs), false), s) <==> exists i :: 0 <= i < |values| && IsQuoted(values[i], s)
  {
    hide Speaks, Token, IsQuoted;
    ParenSpeaks(g, Alt(cs), false, s);
    AltSpeaks(g, cs, s);
    forall i | 0 <= i < |cs|
      ensures Speaks(g, cs[i], s) <==> IsQuoted(values[i], s)
    {
      LitSpeaks(g, Token(values[i]), s);
      QuotedExactly(values[i], s);
    }
  }

  lemma {:induction false} BooleanSpeaks(g: seq<Rule>, s: string)
    ensures Speaks(g, ValueExpr(BooleanT, 0), s) <==> s == "true" || s == "false"
  {
    hide Speaks;
    ParenSpeaks(g, Alt([Lit("true"), Lit("false")]), false, s);
    EitherSpeaks(g, Lit("true"), Lit("false"), s);
    LitSpeaks(g, "true", s);
    LitSpeaks(g, "false", s);
  }

  lemma {:induction false} LetteredSpeaks(g: seq<Rule>, letter: char, s: string)
    requires Standard(g)
    ensures Speaks(g, Cat([Lit([letter]), Ref("str")]), s) <==> Prefixed(letter, s) && IsString(s[1..])
  {
    hide Speaks, EachSpeaks, Standard, IsString;
    CatSpeaks(g, [Lit([letter]), Ref("str")], s);
    assert [Lit([letter]), Ref("str")] == [Lit([letter])] + [Ref("str")];
    LeadSpeaks(g, [letter], [Ref("str")], s);
    if [letter] <= s {
      LastSpeaks(g, Ref("str"), s[1..]);
      StrSpeaks(g, s[1..]);
    }
  }

  lemma {:induction false} PlainValue(g: seq<Rule>, ty: Type, depth: nat, s: string)
    requires Standard(g) && (depth > 32 || !ty.ArrayT?)
    ensures Speaks(g, ValueExpr(ty, depth), s) <==> Spells(ty, depth, s)
  {
    hide Speaks, IsString, IsObj, IsInt, IsNum, IsQuoted, Prefixed, Lookup, Token;
    StrSpeaks(g, s);
    ObjSpeaks(g, s);
    if depth <= 32 {
      match ty
      case IntegerT(_, _) =>
        RefSpeaks(g, "int", INT_RULE.body, s);
        IntSpeaks(g, s);
      case NumberT(_, _) =>
        RefSpeaks(g, "num", NUM_RULE.body, s);
        NumSpeaks(g, s);
      case BooleanT => BooleanSpeaks(g, s);
      case BytesT(_, _) => LetteredSpeaks(g, 'b', s);
      case DatetimeT => LetteredSpeaks(g, 't', s);
      case DurationT => LetteredSpeaks(g, 'r', s);
      case UuidT => LetteredSpeaks(g, 'u', s);
      case EnumT(values) =>
        if values != [] {
          EnumSpeaks(g, values, ValueExpr(ty, depth).body.choices, s);
        }
      case _ =>
    }
  }

  predicate Spaces(s: string) { forall i :: 0 <= i < |s| ==> s[i] == ' ' }

  lemma {:induction false} SpaceRun(g: seq<Rule>, s: string)
    ensures Speaks(g, WS_RULE.body, s) <==> Spaces(s)
    decreases |s|
  {
    var cls := WS_RULE.body.body;
    hide Speaks;
    StarSpeaks(g, cls, s);
    assert cls.ranges[0] == (' ', ' ');
    if s != "" {
      SpaceRun(g, s[1..]);
      ClassSpeaks(g, cls, s[..1]);
      forall cut: nat | 0 < cut <= |s| && Speaks(g, cls, s[..cut])
        ensures cut == 1
      {
        ClassSpeaks(g, cls, s[..cut]);
      }
      assert forall i :: 0 < i < |s| ==> s[i] == s[1..][i - 1];
    }
  }

  /** Some spaces and an item. */
  lemma {:induction false} GapSpeaks(g: seq<Rule>, v: Expr, s: string)
    requires Standard(g)
    ensures EachSpeaks(g, [Ref("ws"), v], s) <==> exists gap: nat :: gap <= |s| && Spaces(s[..gap]) && Speaks(g, v, s[gap..])
  {
    hide Speaks, EachSpeaks, Lookup, Spaces;
    CatSpeaks(g, [Ref("ws"), v], s);
    TwoSpeak(g, Ref("ws"), v, s);
    forall gap: nat | gap <= |s|
      ensures Speaks(g, Ref("ws"), s[..gap]) <==> Spaces(s[..gap])
    {
      RefSpeaks(g, "ws", WS_RULE.body, s[..gap]);
      SpaceRun(g, s[..gap]);
    }
  }

  /** A comma, some spaces and an item. */
  lemma {:induction false} NextSpeaks(g: seq<Rule>, v: Expr, s: string)
    requires Standard(g)
    ensures Speaks(g, GrammarExact.MoreOf(v).body, s)
       <==> exists next: nat :: 1 <= next <= |s| && s[0] == ',' && (forall k :: 1 <= k < next ==> s[k] == ' ') && Speaks(g, v, s[next..])
  {
    var parts := [Lit(","), Ref("ws"), v];
    hide Speaks, EachSpeaks, Standard;
    ParenSpeaks(g, Cat(parts), true, s);
    CatSpeaks(g, parts, s);
    assert parts == [Lit(",")] + [Ref("ws"), v];
    LeadSpeaks(g, ",", [Ref("ws"), v], s);
    if "," <= s {
      var r := s[1..];
      GapSpeaks(g, v, r);
      forall gap: nat | gap <= |r|
        ensures Spaces(r[..gap]) <==> forall k :: 1 <= k < gap + 1 ==> s[k] == ' '
        ensures r[gap..] == s[gap + 1..]
      {
        GapAt(s, gap);
      }
      if next: nat :| 1 <= next <= |s| && (forall k :: 1 <= k < next ==> s[k] == ' ') && Speaks(g, v, s[next..]) {
        var gap := next - 1;
        assert gap <= |r| && gap + 1 == next;
        assert Spaces(r[..gap]) && Speaks(g, v, r[gap..]);
      }
    }
  }

  lemma {:induction false} GapAt(s: string, gap: nat)
    requires gap + 1 <= |s|
    ensures Spaces(s[1..][..gap]) <==> forall k :: 1 <= k < gap + 1 ==> s[k] == ' '
    ensures s[1..][gap..] == s[gap + 1..]
  {
    var x := s[1..][..gap];
    assert forall i :: 0 <= i < gap ==> x[i] == s[i + 1];
    assert forall k :: 1 <= k < gap + 1 ==> s[k] == x[k - 1];
  }

  lemma {:induction false} MoreSpeaks(g: seq<Rule>, item: Type, depth: nat, s: string)
    requires Standard(g)
    ensures Speaks(g, GrammarExact.MoreOf(ValueExpr(item, depth)), s) <==> IsMore(item, depth, s)
    decreases item, |s|, 3
  {
    var v := ValueExpr(item, depth);
    var more := GrammarExact.MoreOf(v);
    hide Speaks, Standard, Spells, ValueExpr;
    StarSpeaks(g, more.body, s);
    forall cut: nat | 0 < cut <= |s|
      ensures Speaks(g, more.body, s[..cut])
         <==> exists next: nat :: 1 <= next <= cut && s[0] == ',' && (forall k :: 1 <= k < next ==> s[k] == ' ') && Spells(item, depth, s[next..cut])
      ensures Speaks(g, more, s[cut..]) <==> IsMore(item, depth, s[cut..])
    {
      NextAt(g, item, depth, s, cut);
      MoreSpeaks(g, item, depth, s[cut..]);
    }
    hide GrammarExact.MoreOf;
    if next: nat, cut: nat :|
      && 1 <= next <= cut <= |s| && s[0] == ',' && (forall k :: 1 <= k < next ==> s[k] == ' ')
      && Spells(item, depth, s[next..cut]) && IsMore(item, depth, s[cut..])
    {
      assert Speaks(g, more.body, s[..cut]);
    }
  }

  lemma {:induction false} NextAt(g: seq<Rule>, item: Type, depth: nat, s: string, cut: nat)
    requires Standard(g) && 0 < cut <= |s|
    ensures Speaks(g, GrammarExact.MoreOf(ValueExpr(item, depth)).body, s[..cut])
       <==> exists next: nat :: 1 <= next <= cut && s[0] == ',' && (forall k :: 1 <= k < next ==> s[k] == ' ') && Spells(item, depth, s[next..cut])
    decreases item, |s|, 2
  {
    var v, x := ValueExpr(item, depth), s[..cut];
    hide Speaks, Standard, Spells, ValueExpr;
    NextSpeaks(g, v, x);
    hide GrammarExact.MoreOf;
    forall next: nat | 1 <= next <= cut
      ensures Speaks(g, v, x[next..]) <==> Spells(item, depth, s[next..cut])
    {
      assert x[next..] == s[next..cut];
      ValueSpeaks(g, item, depth, x[next..]);
    }
    assert forall k :: 0 <= k < cut ==> x[k] == s[k];
  }

  lemma {:induction false} ItemsSpeak(g: seq<Rule>, item: Type, depth: nat, s: string)
    requires Standard(g)
    ensures var v := ValueExpr(item, depth);
            Speaks(g, Cat([v, GrammarExact.MoreOf(v)]), s) <==> IsItems(item, depth, s)
    decreases item, |s|, 4
  {
    var v := ValueExpr(item, depth);
    hide Speaks, Standard, Spells, IsMore, ValueExpr, GrammarExact.MoreOf;
    TwoSpeak(g, v, GrammarExact.MoreOf(v), s);
    forall cut: nat | cut <= |s|
      ensures Speaks(g, v, s[..cut]) <==> Spells(item, depth, s[..cut])
      ensures Speaks(g, GrammarExact.MoreOf(v), s[cut..]) <==> IsMore(item, depth, s[cut..])
    {
      ValueSpeaks(g, item, depth, s[..cut]);
      MoreSpeaks(g, item, depth, s[cut..]);
    }
  }

  /** A text can be derived for a parameter of type ty exactly when it spells a value of that
      type. */
  lemma {:induction false} ValueSpeaks(g: seq<Rule>, ty: Type, depth: nat, s: string)
    requires Standard(g)
    ensures Speaks(g, ValueExpr(ty, depth), s) <==> Spells(ty, depth, s)
    decreases ty, |s|, 1
  {
    if depth <= 32 && ty.ArrayT? {
      ListSpeaks(g, ty, depth, s);
    } else {
      PlainValue(g, ty, depth, s);
    }
  }

  lemma {:induction false} ListSpeaks(g: seq<Rule>, ty: Type, depth: nat, s: string)
    requires Standard(g) && depth <= 32 && ty.ArrayT?
    ensures Speaks(g, ValueExpr(ty, depth), s) <==> Spells(ty, depth, s)
    decreases ty, |s|, 0
  {
    var v := ValueExpr(ty.item, depth + 1);
    var list := Cat([v, GrammarExact.MoreOf(v)]);
    GrammarExact.ArrayOf(ty, depth);
    hide Speaks, Standard, IsItems, ValueExpr;
    BetweenSpeaks(g, '[', Opt(Paren(list, true)), ']', s);
    hide GrammarExact.MoreOf;
    if |s| >= 2 {
      var inner := s[1..|s| - 1];
      OptSpeaks(g, Paren(list, true), inner);
      ParenSpeaks(g, list, true, inner);
      ItemsSpeak(g, ty.item, depth + 1, inner);
      if |s| > 2 {
        assert inner != "";
      } else {
        assert inner == "";
      }
    }
  }

  // ---- arguments ------------------------------------------------------------------------------------------------

  lemma {:induction false} JoinedSnoc(items: seq<string>, x: string)
    ensures Joined(items + [x]) == if items == [] then x else Joined(items) + ", " + x
  {
    if |items| == 1 {
      assert (items + [x])[1..] == [x];
    } else if |items| > 1 {
      JoinedSnoc(items[1..], x);
      assert (items + [x])[1..] == items[1..] + [x];
    }
  }

  /** Each item behind a comma and a space. */
  function Led(items: seq<string>): string {
    if items == [] then "" else Led(items[..|items| - 1]) + ", " + items[|items| - 1]
  }

  lemma {:induction false} JoinedLed(first: seq<string>, more: seq<string>)
    requires first != []
    ensures Joined(first + more) == Joined(first) + Led(more)
    decreases |more|
  {
    if more == [] {
      assert first + more == first;
    } else {
      var n := |more| - 1;
      JoinedLed(first, more[..n]);
      JoinedSnoc(first + more[..n], more[n]);
      LastOfBoth(first, more);
      hide Joined;
      Shift3(Joined(first), Led(more[..n]), ", ", more[n]);
    }
  }

  lemma {:induction false} LastOfBoth(first: seq<string>, more: seq<string>)
    requires more != []
    ensures first + more == (first + more[..|more| - 1]) + [more[|more| - 1]]
  {
  }

  /** A separator, the name of the parameter and a value of its type. */
  lemma {:induction false} NamedSpeaks(g: seq<Rule>, sep: string, p: Param, lead: string, s: string)
    requires Standard(g) && lead == sep + p.name + ": "
    ensures EachSpeaks(g, [Lit(lead), ValueExpr(p.ty, 0)], s) <==> sep <= s && Named(p, s[|sep|..])
  {
    var v := ValueExpr(p.ty, 0);
    hide Speaks, EachSpeaks, Standard, Spells, ValueExpr;
    assert [Lit(lead), v] == [Lit(lead)] + [v];
    LeadSpeaks(g, lead, [v], s);
    if lead <= s {
      LastSpeaks(g, v, s[|lead|..]);
      ValueSpeaks(g, p.ty, 0, s[|lead|..]);
    }
    LeadInTwo(s, sep, p.name + ": ", lead);
  }

  lemma {:induction false} LeadInTwo(s: string, sep: string, name: string, lead: string)
    requires lead == sep + name
    ensures lead <= s <==> sep <= s && name <= s[|sep|..]
    ensures lead <= s ==> s[|lead|..] == s[|sep|..][|name|..]
  {
    if sep <= s && name <= s[|sep|..] {
      assert s == sep + s[|sep|..];
    }
  }

  ghost predicate Listed(ps: seq<Param>, required: bool, s: string) {
    exists items :: Lists(ps, required, items) && s == if required then Joined(items) else Led(items)
  }

  lemma {:induction false} RequiredSpeak(g: seq<Rule>, ps: seq<Param>, s: string)
    requires Standard(g)
    ensures EachSpeaks(g, RequiredParts(ps), s) <==> Listed(ps, true, s)
    decreases |ps|
  {
    hide Speaks, EachSpeaks, Standard, Named, ValueExpr;
    if ps == [] {
      EachNone(g, s);
      var none: seq<string> := [];
      assert Lists(ps, true, none) && Joined(none) == "";
      assert forall items :: Lists(ps, true, items) ==> items == none;
    } else {
      var init, p := ps[..|ps| - 1], ps[|ps| - 1];
      if p.required {
        RequiredStep(g, ps, s);
      } else {
        RequiredSpeak(g, init, s);
        assert forall items :: Lists(ps, true, items) <==> Lists(init, true, items);
      }
    }
  }

  function Separator(done: seq<Expr>): string { if done == [] then "" else ", " }

  function NamedParts(sep: string, p: Param): seq<Expr> { [Lit(sep + p.name + ": "), ValueExpr(p.ty, 0)] }

  lemma {:induction false} RequiredStep(g: seq<Rule>, ps: seq<Param>, s: string)
    requires Standard(g) && ps != [] && ps[|ps| - 1].required
    ensures EachSpeaks(g, RequiredParts(ps), s) <==> Listed(ps, true, s)
    decreases |ps|, 0
  {
    var init, p := ps[..|ps| - 1], ps[|ps| - 1];
    var done := RequiredParts(init);
    var sep := Separator(done);
    assert RequiredParts(ps) == done + NamedParts(sep, p) by {
      assert "" + p.name == p.name;
    }
    EachJoin(g, done, NamedParts(sep, p), s);
    hide Speaks, EachSpeaks, Standard, Named, NamedParts, RequiredParts, Listed, Separator;
    if cut: nat :| cut <= |s| && EachSpeaks(g, done, s[..cut]) && EachSpeaks(g, NamedParts(sep, p), s[cut..]) {
      RequiredSpeak(g, init, s[..cut]);
      RequiredPut(g, ps, s, cut);
    }
    if Listed(ps, true, s) {
      var cut := RequiredTake(g, ps, s);
      RequiredSpeak(g, init, s[..cut]);
    }
  }

  lemma {:induction false} RequiredPut(g: seq<Rule>, ps: seq<Param>, s: string, cut: nat)
    requires Standard(g) && ps != [] && ps[|ps| - 1].required && cut <= |s|
    requires Listed(ps[..|ps| - 1], true, s[..cut])
    requires EachSpeaks(g, NamedParts(Separator(RequiredParts(ps[..|ps| - 1])), ps[|ps| - 1]), s[cut..])
    ensures Listed(ps, true, s)
  {
    var init, p := ps[..|ps| - 1], ps[|ps| - 1];
    var sep := Separator(RequiredParts(init));
    hide Speaks, EachSpeaks, Standard, Named, ValueExpr, RequiredParts, Lists, Joined;
    var items :| Lists(init, true, items) && s[..cut] == Joined(items);
    RequiredNone(init, items);
    NamedSpeaks(g, sep, p, sep + p.name + ": ", s[cut..]);
    var x := s[cut..][|sep|..];
    AppendItem(ps, true, items, x);
    AfterJoined(items, sep, x);
    Reassembled(s, cut, sep);
  }

  lemma {:induction false} Reassembled(s: string, cut: nat, sep: string)
    requires cut <= |s| && sep <= s[cut..]
    ensures s == s[..cut] + sep + s[cut..][|sep|..]
  {
  }

  lemma {:induction false} EmptyJoined(items: seq<string>)
    ensures items == [] ==> Joined(items) == ""
  {
  }

  lemma {:induction false} AfterJoined(items: seq<string>, sep: string, x: string)
    requires sep == if items == [] then "" else ", "
    ensures Joined(items + [x]) == Joined(items) + sep + x
  {
    JoinedSnoc(items, x);
    EmptyJoined(items);
    hide Joined;
  }

  lemma {:induction false} LastJoined(items: seq<string>, sep: string)
    requires items != [] && sep == if |items| == 1 then "" else ", "
    ensures Joined(items) == Joined(items[..|items| - 1]) + sep + items[|items| - 1]
  {
    var before, x := items[..|items| - 1], items[|items| - 1];
    AfterJoined(before, sep, x);
    assert before + [x] == items;
  }

  lemma {:induction false} RequiredTake(g: seq<Rule>, ps: seq<Param>, s: string) returns (cut: nat)
    requires Standard(g) && ps != [] && ps[|ps| - 1].required && Listed(ps, true, s)
    ensures cut <= |s| && Listed(ps[..|ps| - 1], true, s[..cut])
    ensures EachSpeaks(g, NamedParts(Separator(RequiredParts(ps[..|ps| - 1])), ps[|ps| - 1]), s[cut..])
  {
    var init, p := ps[..|ps| - 1], ps[|ps| - 1];
    var sep := Separator(RequiredParts(init));
    var items :| Lists(ps, true, items) && s == Joined(items);
    var n := |items| - 1;
    var before, x := items[..n], items[n];
    assert Lists(init, true, before) && Named(p, x);
    hide Speaks, EachSpeaks, Standard, Named, ValueExpr, RequiredParts, Lists, Joined;
    RequiredNone(init, before);
    LastJoined(items, sep);
    cut := |Joined(before)|;
    LastItem(s, Joined(before), sep, x);
    NamedSpeaks(g, sep, p, sep + p.name + ": ", s[cut..]);
    assert EachSpeaks(g, NamedParts(sep, p), s[cut..]) && s[..cut] == Joined(before);
  }

  lemma {:induction false} LastItem(s: string, before: string, sep: string, x: string)
    requires s == before + sep + x
    ensures s[..|before|] == before && sep <= s[|before|..] && s[|before|..][|sep|..] == x
  {
  }

  lemma {:induction false} AppendItem(ps: seq<Param>, required: bool, items: seq<string>, x: string)
    requires ps != [] && ps[|ps| - 1].required == required && Named(ps[|ps| - 1], x) && Lists(ps[..|ps| - 1], required, items)
    ensures Lists(ps, required, items + [x])
    ensures Led(items + [x]) == Led(items) + ", " + x
  {
    hide Named;
    assert (items + [x])[..|items|] == items;
  }

  /** There are required items exactly when there are required parameters. */
  lemma {:induction false} RequiredNone(ps: seq<Param>, items: seq<string>)
    requires Lists(ps, true, items)
    ensures items == [] <==> RequiredParts(ps) == []
    decreases |ps|
  {
    hide Named, ValueExpr;
    if ps != [] {
      var init := ps[..|ps| - 1];
      if !ps[|ps| - 1].required {
        RequiredNone(init, items);
      }
    }
  }

  lemma {:induction false} OptionalSpeak(g: seq<Rule>, ps: seq<Param>, s: string)
    requires Standard(g)
    ensures EachSpeaks(g, OptionalParts(ps), s) <==> Listed(ps, false, s)
    decreases |ps|
  {
    hide Speaks, EachSpeaks, Standard, Named, ValueExpr;
    if ps == [] {
      EachNone(g, s);
      assert Lists(ps, false, []) && Led([]) == "";
    } else {
      var init, p := ps[..|ps| - 1], ps[|ps| - 1];
      if p.required {
        OptionalSpeak(g, init, s);
        assert forall items :: Lists(ps, false, items) <==> Lists(init, false, items);
      } else {
        OptionalStep(g, ps, s);
      }
    }
  }

  lemma {:induction false} PresentSpeaks(g: seq<Rule>, p: Param, s: string)
    requires Standard(g)
    ensures EachSpeaks(g, [Opt(Paren(Cat([Lit(", " + p.name + ": "), ValueExpr(p.ty, 0)]), true))], s)
       <==> s == "" || (", " <= s && Named(p, s[2..]))
  {
    var parts := [Lit(", " + p.name + ": "), ValueExpr(p.ty, 0)];
    hide Speaks, EachSpeaks, Standard, Named, ValueExpr;
    LastSpeaks(g, Opt(Paren(Cat(parts), true)), s);
    OptSpeaks(g, Paren(Cat(parts), true), s);
    ParenSpeaks(g, Cat(parts), true, s);
    CatSpeaks(g, parts, s);
    NamedSpeaks(g, ", ", p, ", " + p.name + ": ", s);
  }

  function PresentParts(p: Param): seq<Expr> { [Opt(Paren(Cat([Lit(", " + p.name + ": "), ValueExpr(p.ty, 0)]), true))] }

  lemma {:induction false} OptionalStep(g: seq<Rule>, ps: seq<Param>, s: string)
    requires Standard(g) && ps != [] && !ps[|ps| - 1].required
    ensures EachSpeaks(g, OptionalParts(ps), s) <==> Listed(ps, false, s)
    decreases |ps|, 0
  {
    var init, p := ps[..|ps| - 1], ps[|ps| - 1];
    var done := OptionalParts(init);
    assert OptionalParts(ps) == done + PresentParts(p);
    EachJoin(g, done, PresentParts(p), s);
    hide Speaks, EachSpeaks, Standard, Named, PresentParts, OptionalParts, Listed;
    if cut: nat :| cut <= |s| && EachSpeaks(g, done, s[..cut]) && EachSpeaks(g, PresentParts(p), s[cut..]) {
      OptionalSpeak(g, init, s[..cut]);
      OptionalPut(g, ps, s, cut);
    }
    if Listed(ps, false, s) {
      var cut := OptionalTake(g, ps, s);
      OptionalSpeak(g, init, s[..cut]);
    }
  }

  lemma {:induction false} OptionalPut(g: seq<Rule>, ps: seq<Param>, s: string, cut: nat)
    requires Standard(g) && ps != [] && !ps[|ps| - 1].required && cut <= |s|
    requires Listed(ps[..|ps| - 1], false, s[..cut])
    requires EachSpeaks(g, PresentParts(ps[|ps| - 1]), s[cut..])
    ensures Listed(ps, false, s)
  {
    var init, p := ps[..|ps| - 1], ps[|ps| - 1];
    PresentSpeaks(g, p, s[cut..]);
    hide Speaks, EachSpeaks, Standard, Named, ValueExpr, Led;
    var items :| Lists(init, false, items) && s[..cut] == Led(items);
    if s[cut..] == "" {
      assert s[..cut] == s && Lists(ps, false, items);
    } else {
      AppendItem(ps, false, items, s[cut..][2..]);
      Reassembled(s, cut, ", ");
    }
  }

  lemma {:induction false} OptionalTake(g: seq<Rule>, ps: seq<Param>, s: string) returns (cut: nat)
    requires Standard(g) && ps != [] && !ps[|ps| - 1].required && Listed(ps, false, s)
    ensures cut <= |s| && Listed(ps[..|ps| - 1], false, s[..cut]) && EachSpeaks(g, PresentParts(ps[|ps| - 1]), s[cut..])
  {
    var init, p := ps[..|ps| - 1], ps[|ps| - 1];
    hide Speaks, EachSpeaks, Standard, Named, ValueExpr;
    var items :| Lists(ps, false, items) && s == Led(items);
    if Lists(init, false, items) {
      cut := |s|;
      PresentSpeaks(g, p, s[cut..]);
      assert s[..cut] == s;
    } else {
      var n := |items| - 1;
      var before, x := items[..n], items[n];
      LastItem(s, Led(before), ", ", x);
      cut := |Led(before)|;
      PresentSpeaks(g, p, s[cut..]);
    }
  }

  // ---- calls ------------------------------------------------------------------------------------------------------

  lemma {:induction false} PartsSpeak(g: seq<Rule>, ps: seq<Param>, s: string)
    requires Standard(g) && RequiredParts(ps) != []
    ensures EachSpeaks(g, RequiredParts(ps) + OptionalParts(ps), s) <==> IsListing(ps, s)
  {
    hide Speaks, EachSpeaks, Standard, Lists, RequiredParts, OptionalParts;
    EachJoin(g, RequiredParts(ps), OptionalParts(ps), s);
    if cut: nat :| cut <= |s| && EachSpeaks(g, RequiredParts(ps), s[..cut]) && EachSpeaks(g, OptionalParts(ps), s[cut..]) {
      RequiredSpeak(g, ps, s[..cut]);
      OptionalSpeak(g, ps, s[cut..]);
      var required :| Lists(ps, true, required) && s[..cut] == Joined(required);
      var optional :| Lists(ps, false, optional) && s[cut..] == Led(optional);
      RequiredNone(ps, required);
      JoinedLed(required, optional);
      assert s == s[..cut] + s[cut..];
    }
    if IsListing(ps, s) {
      var required, optional :| Lists(ps, true, required) && Lists(ps, false, optional) && s == Joined(required + optional);
      RequiredNone(ps, required);
      JoinedLed(required, optional);
      var cut := |Joined(required)|;
      assert s[..cut] == Joined(required) && s[cut..] == Led(optional);
      RequiredSpeak(g, ps, s[..cut]);
      OptionalSpeak(g, ps, s[cut..]);
    }
  }

  lemma {:induction false} ClosedParts(g: seq<Rule>, ps: seq<Expr>, b: char, s: string)
    ensures EachSpeaks(g, ps + [Lit([b])], s) <==> s != "" && s[|s| - 1] == b && EachSpeaks(g, ps, s[..|s| - 1])
  {
    hide Speaks, EachSpeaks;
    EachJoin(g, ps, [Lit([b])], s);
    forall cut: nat | cut <= |s|
      ensures EachSpeaks(g, [Lit([b])], s[cut..]) <==> s[cut..] == [b]
    {
      LastSpeaks(g, Lit([b]), s[cut..]);
      LitSpeaks(g, [b], s[cut..]);
    }
    if s != "" && s[|s| - 1] == b {
      assert s[|s| - 1..] == [b];
    }
  }

  lemma {:induction false} NoneRequired(ps: seq<Param>)
    ensures RequiredParts(ps) == [] <==> forall i :: 0 <= i < |ps| ==> !ps[i].required
    decreases |ps|
  {
    hide ValueExpr;
    if ps != [] {
      var n := |ps| - 1;
      NoneRequired(ps[..n]);
      assert forall i :: 0 <= i < n ==> ps[..n][i] == ps[i];
    }
  }

  /** The production of a command derives its name and what spells its arguments. */
  lemma {:induction false} CommandSpeaks(g: seq<Rule>, v: View, s: string)
    requires Standard(g)
    ensures Speaks(g, CommandExpr(v), s) <==> Calls(v, s)
  {
    var call, ps := v.id + "." + v.command.name, v.command.params;
    NoneRequired(ps);
    CallsExactly(v, s);
    hide Speaks, EachSpeaks, Standard, Lists, RequiredParts, OptionalParts, IsListing, IsObj, Calls;
    if ps == [] {
      LitSpeaks(g, call + " {}", s);
      EmptyBraces(call, s);
    } else if RequiredParts(ps) == [] {
      ObjectArgs(g, call, s);
    } else {
      ListedArgs(g, call, ps, s);
      BraceOpens(call, s);
    }
  }

  ghost predicate Calls(v: View, s: string) {
    exists args :: IsArgs(v.command.params, args) && s == v.id + "." + v.command.name + " " + args
  }

  lemma {:induction false} CallsExactly(v: View, s: string)
    ensures var lead := v.id + "." + v.command.name + " ";
            Calls(v, s) <==> lead <= s && IsArgs(v.command.params, s[|lead|..])
  {
    var lead := v.id + "." + v.command.name + " ";
    hide IsArgs;
    if lead <= s {
      assert s == lead + s[|lead|..];
    }
    if args :| IsArgs(v.command.params, args) && s == lead + args {
      assert s[|lead|..] == args;
    }
  }

  lemma {:induction false} EmptyBraces(call: string, s: string)
    ensures call + " " <= s && s[|call + " "|..] == "{}" <==> s == call + " {}"
  {
    if call + " " <= s {
      assert s == call + " " + s[|call + " "|..];
    }
    assert call + " {}" == call + " " + "{}";
  }

  /** The opening brace belongs to the text before it or to the arguments. */
  lemma {:induction false} BraceOpens(call: string, s: string)
    ensures call + " {" <= s <==> call + " " <= s && |s| > |call + " "| && s[|call + " "|] == '{'
    ensures call + " {" <= s ==> var r := s[|call + " "|..];
              |r| >= 1 && r[0] == '{' && (|r| >= 2 ==> s[|s| - 1] == r[|r| - 1] && s[|call + " {"|..|s| - 1] == r[1..|r| - 1])
  {
    assert call + " {" == call + " " + "{";
  }

  lemma {:induction false} ObjectArgs(g: seq<Rule>, call: string, s: string)
    requires Standard(g)
    ensures Speaks(g, Cat([Lit(call + " "), Ref("obj")]), s) <==> call + " " <= s && IsObj(s[|call + " "|..])
  {
    var lead := call + " ";
    hide Speaks, EachSpeaks, Standard, IsObj;
    CatSpeaks(g, [Lit(lead), Ref("obj")], s);
    assert [Lit(lead), Ref("obj")] == [Lit(lead)] + [Ref("obj")];
    LeadSpeaks(g, lead, [Ref("obj")], s);
    if lead <= s {
      LastSpeaks(g, Ref("obj"), s[|lead|..]);
      ObjSpeaks(g, s[|lead|..]);
    }
  }

  lemma {:induction false} ListedArgs(g: seq<Rule>, call: string, ps: seq<Param>, s: string)
    requires Standard(g) && RequiredParts(ps) != []
    ensures Speaks(g, Cat([Lit(call + " {")] + RequiredParts(ps) + OptionalParts(ps) + [Lit("}")]), s)
       <==> call + " {" <= s && s[|s| - 1] == '}' && |s| > |call + " {"| && IsListing(ps, s[|call + " {"|..|s| - 1])
  {
    var lead, inner := call + " {", RequiredParts(ps) + OptionalParts(ps);
    var parts := [Lit(lead)] + RequiredParts(ps) + OptionalParts(ps) + [Lit("}")];
    hide Speaks, EachSpeaks, Standard, Lists, RequiredParts, OptionalParts, IsListing;
    assert parts == [Lit(lead)] + (inner + [Lit("}")]);
    CatSpeaks(g, parts, s);
    LeadSpeaks(g, lead, inner + [Lit("}")], s);
    if lead <= s {
      var r := s[|lead|..];
      ClosedParts(g, inner, '}', r);
      if r != "" {
        PartsSpeak(g, ps, r[..|r| - 1]);
        assert r[..|r| - 1] == s[|lead|..|s| - 1];
      }
    }
  }

  /** The language of the exported grammar: a text can be derived exactly when it is the call of
      some listed command, with arguments that spell what its parameters ask for. */
  lemma {:induction false} SentencesExactly(views: seq<View>, names: seq<string>, s: string)
    requires RuleNames(views) == Some(names) && views != []
    ensures Speaks(Grammar(views, names), Ref("root"), s) <==> exists i :: 0 <= i < |views| && IsCall(views[i], s)
  {
    var g := Grammar(views, names);
    GrammarLookups(views, names);
    hide Lookup, Grammar, RuleNames, Standard, Speaks, CommandExpr, IsCall, Calls, CallRule;
    RootSpeaks(g, s);
    if Framed(s) {
      CallSpeaks(g, views, names, s[5..|s| - 1]);
    }
    forall i | 0 <= i < |views|
      ensures IsCall(views[i], s) <==> Framed(s) && Calls(views[i], s[5..|s| - 1])
    {
      CallFramed(views[i], s);
    }
  }

  /** Between the keyword and a newline. */
  predicate Framed(s: string) { |s| >= 6 && "CALL " <= s && s[|s| - 1] == '\n' }

  lemma {:induction false} CallFramed(v: View, s: string)
    ensures IsCall(v, s) <==> Framed(s) && Calls(v, s[5..|s| - 1])
  {
    hide IsArgs;
    if args :| IsArgs(v.command.params, args) && s == "CALL " + v.id + "." + v.command.name + " " + args + "\n" {
      LineAround(v.id, v.command.name, args);
    }
    if Framed(s) && Calls(v, s[5..|s| - 1]) {
      CallOutside(v, s);
    }
  }

  lemma {:induction false} CallOutside(v: View, s: string)
    requires Framed(s) && Calls(v, s[5..|s| - 1])
    ensures IsCall(v, s)
  {
    hide IsArgs;
    var args :| IsArgs(v.command.params, args) && s[5..|s| - 1] == v.id + "." + v.command.name + " " + args;
    LineAround(v.id, v.command.name, args);
    assert s == "CALL " + s[5..|s| - 1] + "\n";
  }

  lemma {:induction false} LineAround(id: string, name: string, args: string)
    ensures var s, mid := "CALL " + id + "." + name + " " + args + "\n", id + "." + name + " " + args;
            s == "CALL " + mid + "\n" && Framed(s) && s[5..|s| - 1] == mid
  {
    var s, mid := "CALL " + id + "." + name + " " + args + "\n", id + "." + name + " " + args;
    assert s == "CALL " + mid + "\n";
  }

  lemma {:induction false} RootSpeaks(g: seq<Rule>, s: string)
    requires Lookup(g, "root") == Some(ROOT_RULE.body)
    ensures Speaks(g, Ref("root"), s)
       <==> Framed(s) && Speaks(g, Ref("call"), s[5..|s| - 1])
  {
    hide Lookup, Speaks, EachSpeaks;
    RefSpeaks(g, "root", ROOT_RULE.body, s);
    var parts := [Lit("CALL "), Ref("call"), Lit("\n")];
    CatSpeaks(g, parts, s);
    assert parts == [Lit("CALL ")] + ([Ref("call")] + [Lit("\n")]);
    LeadSpeaks(g, "CALL ", [Ref("call")] + [Lit("\n")], s);
    if "CALL " <= s {
      var r := s[5..];
      ClosedBy(g, Ref("call"), '\n', r);
      if r != "" {
        assert r[..|r| - 1] == s[5..|s| - 1];
      }
    }
  }

  lemma {:induction false} CallSpeaks(g: seq<Rule>, views: seq<View>, names: seq<string>, s: string)
    requires Standard(g) && |names| == |views| != 0 && Lookup(g, "call") == Some(CallRule(names).body)
    requires forall i :: 0 <= i < |views| ==> Lookup(g, names[i]) == Some(CommandExpr(views[i]))
    ensures Speaks(g, Ref("call"), s) <==> exists i :: 0 <= i < |views| && Calls(views[i], s)
  {
    hide Lookup, Speaks, Standard, CommandExpr, IsArgs;
    var cs := CallRule(names).body.choices;
    RefSpeaks(g, "call", Alt(cs), s);
    AltSpeaks(g, cs, s);
    forall i | 0 <= i < |views|
      ensures Speaks(g, cs[i], s) <==> Calls(views[i], s)
    {
      RefSpeaks(g, names[i], CommandExpr(views[i]), s);
      CommandSpeaks(g, views[i], s);
    }
  }
}
