/** Precedence as section 11 of Semantic Versioning 2.0.0 words it, and that the comparison
    decides exactly that. */
module Precedence {
  import opened Text
  import opened Semver
  import opened SemverOrder

  // ---- section 11 ---------------------------------------------------------------------------

  /** The dot-separated identifiers of a pre-release. */
  function Fields(s: string): (r: seq<string>)
    ensures r != []
  {
    if s == "" then [""]
    else
      var r := Fields(s[1..]);
      if s[0] == '.' then [""] + r else [[s[0]] + r[0]] + r[1..]
  }

  /** In ASCII order: at the first difference the smaller character, or the shorter text. */
  ghost predicate TextBelow(x: string, y: string) {
    exists k: nat :: k <= |x| && k < |y| && x[..k] == y[..k] && (k < |x| ==> x[k] < y[k])
  }

  /** Numbers as numbers, texts in ASCII order, and every number below every text. */
  ghost predicate FieldBelow(x: string, y: string) {
    if AllDigits(x) && AllDigits(y) then Value(x) < Value(y)
    else AllDigits(x) || (!AllDigits(y) && TextBelow(x, y))
  }

  /** The first differing identifier decides; with none, the shorter list is below. */
  ghost predicate FieldsBelow(p: seq<string>, q: seq<string>) {
    exists k: nat :: k <= |p| && k < |q| && p[..k] == q[..k] && (k < |p| ==> FieldBelow(p[k], q[k]))
  }

  ghost predicate CoreBelow(a: Version, b: Version) {
    || a.major < b.major
    || (a.major == b.major && a.minor < b.minor)
    || (a.major == b.major && a.minor == b.minor && a.patch < b.patch)
  }

  predicate SameCore(a: Version, b: Version) { a.major == b.major && a.minor == b.minor && a.patch == b.patch }

  /** a has lower precedence than b. */
  ghost predicate Precedes(a: Version, b: Version) {
    CoreBelow(a, b)
    || (SameCore(a, b) && a.prerelease.Some?
        && (b.prerelease.Some? ==> FieldsBelow(Fields(a.prerelease.value), Fields(b.prerelease.value))))
  }

  // ---- identifier against identifier -------------------------------------------------------------

  lemma {:induction false} LexBelow(x: string, y: string)
    ensures Lex(x, y) < 0 <==> TextBelow(x, y)
  {
    if x != "" && y != "" {
      LexBelow(x[1..], y[1..]);
      TextBelowCons(x, y);
    } else if y != "" {
      assert x[..0] == y[..0];
    }
  }

  lemma {:induction false} TextBelowCons(x: string, y: string)
    requires x != "" && y != ""
    ensures TextBelow(x, y) <==> x[0] < y[0] || (x[0] == y[0] && TextBelow(x[1..], y[1..]))
  {
    if TextBelow(x, y) {
      var k: nat :| k <= |x| && k < |y| && x[..k] == y[..k] && (k < |x| ==> x[k] < y[k]);
      if k > 0 {
        assert x[0] == x[..k][0] == y[..k][0] == y[0];
        assert x[1..][..k - 1] == x[..k][1..] == y[1..][..k - 1];
      }
    }
    if x[0] < y[0] {
      assert x[..0] == y[..0];
    }
    if x[0] == y[0] && TextBelow(x[1..], y[1..]) {
      var k: nat :| k <= |x[1..]| && k < |y[1..]| && x[1..][..k] == y[1..][..k] && (k < |x[1..]| ==> x[1..][k] < y[1..][k]);
      assert x[..k + 1] == [x[0]] + x[1..][..k] == y[..k + 1];
    }
  }

  lemma {:induction false} FieldExactly(x: string, y: string)
    requires x != "" && y != "" && !LeadingZero(x) && !LeadingZero(y)
    ensures CompareField(x, y) < 0 <==> FieldBelow(x, y)
  {
    if AllDigits(x) && AllDigits(y) {
      NumericOrder(x, y);
    } else {
      LexBelow(x, y);
    }
  }

  // ---- list against list -----------------------------------------------------------------------------

  lemma {:induction false} PrefixCons(x: string, p: seq<string>, y: string, q: seq<string>, k: nat)
    requires k <= |p| && k <= |q|
    ensures ([x] + p)[..k + 1] == ([y] + q)[..k + 1] <==> x == y && p[..k] == q[..k]
  {
    assert ([x] + p)[..k + 1] == [x] + p[..k] && ([y] + q)[..k + 1] == [y] + q[..k];
    if [x] + p[..k] == [y] + q[..k] {
      assert ([x] + p[..k])[0] == x && ([y] + q[..k])[0] == y;
      assert ([x] + p[..k])[1..] == p[..k] && ([y] + q[..k])[1..] == q[..k];
    }
  }

  lemma {:induction false} FieldsBelowCons(x: string, p: seq<string>, y: string, q: seq<string>)
    ensures FieldsBelow([x] + p, [y] + q) <==> FieldBelow(x, y) || (x == y && FieldsBelow(p, q))
  {
    hide FieldBelow;
    var a, b := [x] + p, [y] + q;
    if FieldsBelow(a, b) {
      var k: nat :| k <= |a| && k < |b| && a[..k] == b[..k] && (k < |a| ==> FieldBelow(a[k], b[k]));
      if k > 0 {
        PrefixCons(x, p, y, q, k - 1);
        assert p[..k - 1] == q[..k - 1] && (k - 1 < |p| ==> FieldBelow(p[k - 1], q[k - 1]));
      }
    }
    if FieldBelow(x, y) {
      assert a[..0] == b[..0];
    }
    if x == y && FieldsBelow(p, q) {
      var k: nat :| k <= |p| && k < |q| && p[..k] == q[..k] && (k < |p| ==> FieldBelow(p[k], q[k]));
      PrefixCons(x, p, y, q, k);
      assert a[..k + 1] == b[..k + 1] && (k < |p| ==> FieldBelow(a[k + 1], b[k + 1]));
    }
  }

  lemma {:induction false} FieldsBelowEnd(p: seq<string>)
    ensures !FieldsBelow(p, []) && (p != [] ==> FieldsBelow([], p))
  {
    if p != [] {
      assert p[..0] == ([])[..0];
    }
  }

  lemma {:induction false} FieldsStep(s: string, first: string, rest: seq<string>)
    requires s != "" && s[0] != '.' && Fields(s[1..]) == [first] + rest
    ensures Fields(s) == [[s[0]] + first] + rest
  {
    assert ([first] + rest)[0] == first && ([first] + rest)[1..] == rest;
  }

  /** The cursor's first field is the first identifier. */
  lemma {:induction false} FieldsFirst(s: string)
    ensures var n := FieldLen(s); Fields(s) == [s[..n]] + if n < |s| then Fields(s[n + 1..]) else []
  {
    if s == "" {
      assert s[..0] == "";
    } else if s[0] == '.' {
      assert s[..0] == "";
    } else {
      var t, n := s[1..], FieldLen(s);
      FieldsFirst(t);
      FieldsStep(s, t[..n - 1], if n - 1 < |t| then Fields(t[n..]) else []);
      hide Fields;
      assert s[..n] == [s[0]] + t[..n - 1];
      assert n < |s| ==> t[n..] == s[n + 1..];
    }
  }

  /** Identifiers that are not empty and have no leading zeros, separated by dots. */
  predicate Strict(s: string)
    decreases |s|
  {
    var n := FieldLen(s);
    n > 0 && !LeadingZero(s[..n]) && (n < |s| ==> s[n + 1..] != "" && Strict(s[n + 1..]))
  }

  lemma {:induction false} SeriesStrict(s: string)
    requires Series(s, true)
    ensures Strict(s)
    decreases |s|
  {
    hide LeadingZero;
    var n :| 0 < n <= |s| && Identifier(s[..n], true) && (n == |s| || (s[n] == '.' && Series(s[n + 1..], true)));
    FieldIs(s, n);
    if n < |s| {
      SeriesStrict(s[n + 1..]);
    }
  }

  function Listed(s: string): seq<string> { if s == "" then [] else Fields(s) }

  lemma {:induction false} ListedFirst(s: string)
    requires s != "" && Strict(s)
    ensures Listed(s) == [s[..FieldLen(s)]] + Listed(NextField(s))
  {
    FieldsFirst(s);
    hide LeadingZero, Fields;
  }

  lemma {:induction false} StrictNext(s: string)
    requires s != "" && Strict(s)
    ensures s[..FieldLen(s)] != "" && !LeadingZero(s[..FieldLen(s)])
    ensures NextField(s) == "" || Strict(NextField(s))
  {
    hide LeadingZero;
  }

  lemma {:induction false} PreExactly(a: string, b: string)
    requires (a == "" || Strict(a)) && (b == "" || Strict(b))
    ensures ComparePre(a, b) < 0 <==> FieldsBelow(Listed(a), Listed(b))
    decreases |a|
  {
    if a == "" || b == "" {
      FieldsBelowEnd(Listed(a));
      FieldsBelowEnd(Listed(b));
    } else {
      ListedFirst(a);
      ListedFirst(b);
      StrictNext(a);
      StrictNext(b);
      var x, y := a[..FieldLen(a)], b[..FieldLen(b)];
      PreExactly(NextField(a), NextField(b));
      FieldsBelowCons(x, Listed(NextField(a)), y, Listed(NextField(b)));
      hide Strict, Listed, FieldsBelow, FieldBelow, CompareField;
      FieldExactly(x, y);
      FieldOrder(x, y);
    }
  }

  // ---- versions -----------------------------------------------------------------------------------------

  lemma {:induction false} ParsedStrict(v: Version)
    requires Parsed(v) && v.prerelease.Some?
    ensures Strict(v.prerelease.value)
  {
    var s :| Parse(s) == Some(v);
    ParseExactly(s, v);
    var build :| Writes(s, v, build);
    SeriesStrict(v.prerelease.value);
  }

  lemma {:induction false} ReleaseExactly(a: Version, b: Version)
    requires Parsed(a) && Parsed(b)
    ensures CompareRelease(a.prerelease, b.prerelease) < 0 <==>
              a.prerelease.Some? && (b.prerelease.Some? ==> FieldsBelow(Fields(a.prerelease.value), Fields(b.prerelease.value)))
  {
    hide ComparePre, FieldsBelow, Fields, Parsed;
    if a.prerelease.Some? && b.prerelease.Some? {
      ParsedStrict(a);
      ParsedStrict(b);
      PreExactly(a.prerelease.value, b.prerelease.value);
    }
  }

  /** The comparison is the standard's precedence, on all versions that parse. */
  lemma {:induction false} PrecedenceExactly(a: Version, b: Version)
    requires Parsed(a) && Parsed(b)
    ensures Compare(a, b) < 0 <==> Precedes(a, b)
    ensures Compare(a, b) > 0 <==> Precedes(b, a)
    ensures Compare(a, b) == 0 <==> a == b
  {
    hide FieldsBelow, Fields, Parsed, CompareRelease;
    ReleaseExactly(a, b);
    ReleaseExactly(b, a);
    CompareOrder(a, b);
    CompareOrder(b, a);
  }
}
