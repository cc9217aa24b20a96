/** What the version parser accepts, and that precedence is a total order. */
module SemverOrder {
  import opened Text
  import opened Semver

  // ---- what is accepted ------------------------------------------------------------------------

  /** Identifiers joined by dots. */
  ghost predicate Series(s: string, strict: bool)
    decreases |s|
  {
    exists n :: 0 < n <= |s| && Identifier(s[..n], strict)
                && (n == |s| || (s[n] == '.' && Series(s[n + 1..], strict)))
  }

  /** A text that does not continue an identifier series. */
  predicate Stop(s: string) { s == "" || (!IdentChar(s[0]) && s[0] != '.') }

  lemma {:induction false} RunOf(a: string, rest: string)
    requires IdentText(a) && (rest == "" || !IdentChar(rest[0]))
    ensures IdentRun(a + rest) == |a|
  {
    assert forall i :: 0 <= i < |a| ==> (a + rest)[i] == a[i];
    assert rest != "" ==> (a + rest)[|a|] == rest[0];
  }

  /** The first identifier of a series. */
  lemma {:induction false} FirstOf(s: string, strict: bool) returns (n: nat)
    requires Series(s, strict)
    ensures 0 < n <= |s| && IdentText(s[..n]) && !(strict && LeadingZero(s[..n]))
    ensures n < |s| ==> s[n] == '.' && Series(s[n + 1..], strict)
  {
    n :| 0 < n <= |s| && Identifier(s[..n], strict) && (n == |s| || (s[n] == '.' && Series(s[n + 1..], strict)));
  }

  /** One identifier scanned. */
  lemma {:induction false} IdentsTake(a: string, tail: string, strict: bool)
    requires IdentText(a) && !(strict && LeadingZero(a)) && (tail == "" || !IdentChar(tail[0]))
    ensures Idents(a + tail, strict) == if tail == "" || tail[0] != '.' then Some(tail) else Idents(tail[1..], strict)
  {
    RunOf(a, tail);
    hide IdentRun, IdentText, LeadingZero;
    var s := a + tail;
    assert s[..|a|] == a && s[|a|..] == tail;
    assert tail != "" ==> s[|a|] == tail[0] && s[|a| + 1..] == tail[1..];
  }

  /** The scanner accepts every series, and stops right after it. */
  lemma {:induction false} IdentsComplete(s: string, rest: string, strict: bool)
    requires Series(s, strict) && Stop(rest)
    ensures Idents(s + rest, strict) == Some(rest)
    decreases |s|
  {
    hide Series, IdentText, LeadingZero, IdentRun, Idents;
    var n := FirstOf(s, strict);
    var tail := s[n..] + rest;
    assert s + rest == s[..n] + tail;
    if n < |s| {
      assert tail[0] == s[n] && tail[1..] == s[n + 1..] + rest;
      DotStops();
      IdentsTake(s[..n], tail, strict);
      IdentsComplete(s[n + 1..], rest, strict);
    } else {
      assert tail == rest;
      IdentsTake(s[..n], tail, strict);
    }
  }

  lemma {:induction false} DotStops()
    ensures !IdentChar('.')
  {
  }

  lemma {:induction false} IdentsStep(s: string, strict: bool)
    requires Idents(s, strict).Some?
    ensures var n := IdentRun(s);
            && n > 0 && Identifier(s[..n], strict)
            && (n == |s| || s[n] != '.' ==> Idents(s, strict) == Some(s[n..]) && Stop(s[n..]))
            && (n < |s| && s[n] == '.' ==> Idents(s, strict) == Idents(s[n + 1..], strict))
  {
    hide LeadingZero;
    assert IdentText(s[..IdentRun(s)]);
  }

  /** What the scanner passes is a series, up to place k. */
  lemma {:induction false} IdentsUpTo(s: string, strict: bool) returns (k: nat)
    requires Idents(s, strict).Some?
    ensures k <= |s| && Idents(s, strict) == Some(s[k..]) && Stop(s[k..]) && Series(s[..k], strict)
    decreases |s|
  {
    IdentsStep(s, strict);
    hide Idents, Series, Identifier, Stop;
    var n := IdentRun(s);
    if n < |s| && s[n] == '.' {
      var j := IdentsUpTo(s[n + 1..], strict);
      k := n + 1 + j;
      assert s[n + 1..][j..] == s[k..] && s[n + 1..][..j] == s[n + 1..][..k - n - 1];
      SeriesCons(s, n, k, strict);
    } else {
      k := n;
      SeriesOne(s[..n], strict);
    }
  }

  lemma {:induction false} IdentsSound(s: string, strict: bool)
    requires Idents(s, strict).Some?
    ensures var rest := Idents(s, strict).value;
            Stop(rest) && rest == s[|s| - |rest|..] && Series(s[..|s| - |rest|], strict)
  {
    hide Idents, Series, Stop;
    var k := IdentsUpTo(s, strict);
    assert k == |s| - |s[k..]|;
  }

  lemma {:induction false} SeriesOne(s: string, strict: bool)
    requires Identifier(s, strict)
    ensures Series(s, strict)
  {
    assert s[..|s|] == s;
  }

  lemma {:induction false} SeriesCons(s: string, n: nat, end: nat, strict: bool)
    requires 0 < n < end <= |s| && s[n] == '.' && Identifier(s[..n], strict) && Series(s[n + 1..][..end - n - 1], strict)
    ensures Series(s[..end], strict)
  {
    hide Identifier;
    var whole := s[..end];
    assert whole[..n] == s[..n] && whole[n + 1..] == s[n + 1..][..end - n - 1];
  }

  /** A version as the grammar writes it. */
  ghost predicate Writes(s: string, v: Version, build: Option<string>) {
    && v.major <= INT64_MAX && v.minor <= INT64_MAX && v.patch <= INT64_MAX
    && (v.prerelease.Some? ==> Series(v.prerelease.value, true))
    && (build.Some? ==> Series(build.value, false))
    && s == Numeral(v.major) + "." + Numeral(v.minor) + "." + Numeral(v.patch) + Suffix(v, build)
  }

  function Suffix(v: Version, build: Option<string>): string {
    (if v.prerelease.Some? then "-" + v.prerelease.value else "") + if build.Some? then "+" + build.value else ""
  }

  lemma {:induction false} DigitRunOf(a: string, rest: string)
    requires AllDigits(a) && (rest == "" || !IsDigit(rest[0]))
    ensures DigitRun(a + rest) == |a|
  {
    assert forall i :: 0 <= i < |a| ==> (a + rest)[i] == a[i];
    assert rest != "" ==> (a + rest)[|a|] == rest[0];
    var n := DigitRun(a + rest);
    assert forall i :: 0 <= i < n ==> (a + rest)[..n][i] == (a + rest)[i];
  }

  lemma {:induction false} ComponentComplete(n: nat, rest: string)
    requires n <= INT64_MAX && (rest == "" || !IsDigit(rest[0]))
    ensures Component(Numeral(n) + rest) == Some((n, rest))
  {
    DigitRunOf(Numeral(n), rest);
    var s := Numeral(n) + rest;
    assert s[..|Numeral(n)|] == Numeral(n) && s[|Numeral(n)|..] == rest;
  }

  /** Numerals are the digit strings without leading zeros. */
  lemma {:induction false} NumeralOf(s: string)
    requires AllDigits(s) && s != "" && !LeadingZero(s)
    ensures Numeral(Value(s)) == s
  {
    var n := |s| - 1;
    var t, d := s[..n], DigitValue(s[n]);
    assert s == t + [s[n]] && Value(s) == 10 * Value(t) + d;
    if n > 0 {
      NonZero(t);
      NumeralOf(t);
      assert Value(s) / 10 == Value(t) && Value(s) % 10 == d;
    } else {
      assert Value(t) == 0;
    }
  }

  lemma {:induction false} NonZero(s: string)
    requires AllDigits(s) && s != "" && s[0] != '0'
    ensures Value(s) >= 1
  {
    if |s| > 1 {
      NonZero(s[..|s| - 1]);
    }
  }

  lemma {:induction false} ComponentSound(s: string)
    requires Component(s).Some?
    ensures var (n, rest) := Component(s).value;
            n <= INT64_MAX && s == Numeral(n) + rest && (rest == "" || !IsDigit(rest[0]))
  {
    NumeralOf(s[..DigitRun(s)]);
  }

  lemma {:induction false} BuildSound(s: string)
    requires s != "" && BuildOk(s)
    ensures Series(s[1..], false) && s == "+" + s[1..]
  {
    IdentsSound(s[1..], false);
    assert s[1..][..|s| - 1] == s[1..];
  }

  lemma {:induction false} BuildComplete(build: string)
    requires Series(build, false)
    ensures BuildOk("+" + build)
  {
    IdentsComplete(build, "", false);
    assert ("+" + build)[1..] == build + "";
  }

  lemma {:induction false} NoBuild()
    ensures BuildOk("")
  {
  }

  lemma {:induction false} Hyphened(pre: string, rest: string)
    ensures var s := "-" + pre + rest;
            s != "" && s[0] == '-' && s[1..] == pre + rest && s[1..|s| - |rest|] == pre
  {
  }

  lemma {:induction false} PrereleaseComplete(major: nat, minor: nat, patch: nat, pre: string, rest: string, s: string)
    requires BuildOk(rest) && s != "" && s[0] == '-' && Idents(s[1..], true) == Some(rest)
    requires |rest| < |s| && s[1..|s| - |rest|] == pre
    ensures ParseSuffix(major, minor, patch, s) == Some(Version(major, minor, patch, Some(pre)))
  {
    hide Idents, BuildOk;
  }

  lemma {:induction false} ReleaseComplete(major: nat, minor: nat, patch: nat, rest: string)
    requires BuildOk(rest)
    ensures ParseSuffix(major, minor, patch, rest) == Some(Version(major, minor, patch, None))
  {
  }

  lemma {:induction false} SuffixComplete(v: Version, build: Option<string>)
    requires (v.prerelease.Some? ==> Series(v.prerelease.value, true)) && (build.Some? ==> Series(build.value, false))
    ensures ParseSuffix(v.major, v.minor, v.patch, Suffix(v, build)) == Some(v)
  {
    var rest := if build.Some? then "+" + build.value else "";
    assert Stop(rest);
    hide Idents, Series, BuildOk, ParseSuffix, Stop;
    if build.Some? {
      BuildComplete(build.value);
    } else {
      NoBuild();
    }
    if v.prerelease.Some? {
      Hyphened(v.prerelease.value, rest);
      IdentsComplete(v.prerelease.value, rest, true);
      PrereleaseComplete(v.major, v.minor, v.patch, v.prerelease.value, rest, Suffix(v, build));
    } else {
      assert Suffix(v, build) == rest;
      ReleaseComplete(v.major, v.minor, v.patch, rest);
    }
  }

  lemma {:induction false} SuffixSound(major: nat, minor: nat, patch: nat, s: string) returns (build: Option<string>)
    requires ParseSuffix(major, minor, patch, s).Some?
    ensures var v := ParseSuffix(major, minor, patch, s).value;
            && v.major == major && v.minor == minor && v.patch == patch
            && (v.prerelease.Some? ==> Series(v.prerelease.value, true))
            && (build.Some? ==> Series(build.value, false))
            && s == Suffix(v, build)
  {
    hide Idents, Series, BuildOk;
    var rest := s;
    var v := ParseSuffix(major, minor, patch, s).value;
    if s != "" && s[0] == '-' {
      IdentsSound(s[1..], true);
      rest := Idents(s[1..], true).value;
      assert s[1..|s| - |rest|] == s[1..][..|s| - 1 - |rest|];
      assert s == "-" + v.prerelease.value + rest;
    } else {
      assert s == "" + rest;
    }
    if rest == "" {
      build := None;
    } else {
      BuildSound(rest);
      build := Some(rest[1..]);
    }
  }

  lemma {:induction false} SuffixStart(v: Version, build: Option<string>)
    ensures Suffix(v, build) == "" || !IsDigit(Suffix(v, build)[0])
  {
  }

  lemma {:induction false} Dotted(a: string, b: string, c: string, d: string)
    ensures a + "." + b + "." + c + d == a + ("." + (b + ("." + (c + d))))
    ensures ("." + (b + ("." + (c + d))))[1..] == b + ("." + (c + d))
    ensures ("." + (c + d))[1..] == c + d
  {
  }

  /** The parser accepts exactly the version grammar, and returns what is written
      without the build metadata. */
  lemma {:induction false} ParseExactly(s: string, v: Version)
    ensures Parse(s) == Some(v) <==> exists build :: Writes(s, v, build)
  {
    hide Component, ParseSuffix, Series;
    if build :| Writes(s, v, build) {
      var a, b, c, d := Numeral(v.major), Numeral(v.minor), Numeral(v.patch), Suffix(v, build);
      Dotted(a, b, c, d);
      SuffixStart(v, build);
      ComponentComplete(v.major, "." + (b + ("." + (c + d))));
      ComponentComplete(v.minor, "." + (c + d));
      ComponentComplete(v.patch, d);
      SuffixComplete(v, build);
    }
    if Parse(s) == Some(v) {
      var (major, a) := Component(s).value;
      var (minor, b) := Component(a[1..]).value;
      var (patch, c) := Component(b[1..]).value;
      ComponentSound(s);
      ComponentSound(a[1..]);
      ComponentSound(b[1..]);
      var build := SuffixSound(major, minor, patch, c);
      Dotted(Numeral(major), Numeral(minor), Numeral(patch), c);
      assert a == "." + a[1..] && b == "." + b[1..];
      assert Writes(s, v, build);
    }
  }

  // ---- numeric identifiers --------------------------------------------------------------------------

  function Pow10(n: nat): (p: nat)
    ensures p > 0
  {
    if n == 0 then 1 else 10 * Pow10(n - 1)
  }

  lemma {:induction false} ValueBounds(s: string)
    requires Numeric(s) && !LeadingZero(s)
    ensures Value(s) < Pow10(|s|) && (|s| > 1 ==> Pow10(|s| - 1) <= Value(s))
  {
    var t := s[..|s| - 1];
    if |s| > 1 {
      ValueBounds(t);
      if |s| == 2 {
        NonZero(t);
      }
    } else {
      assert Value(t) == 0 && Pow10(1) == 10 * Pow10(0);
    }
  }

  lemma {:induction false} Pow10Grows(m: nat, n: nat)
    requires m <= n
    ensures Pow10(m) <= Pow10(n)
  {
    if m < n {
      Pow10Grows(m, n - 1);
    }
  }

  lemma {:induction false} LexSnoc(a: string, b: string, c: char, d: char)
    requires |a| == |b|
    ensures Lex(a + [c], b + [d]) == if Lex(a, b) != 0 then Lex(a, b) else if c == d then 0 else if c < d then -1 else 1
  {
    if a == "" {
      assert ([c])[1..] == "" && ([d])[1..] == "";
      assert a + [c] == [c] && b + [d] == [d];
    } else {
      LexSnoc(a[1..], b[1..], c, d);
      assert (a + [c])[1..] == a[1..] + [c] && (b + [d])[1..] == b[1..] + [d];
    }
  }

  lemma {:induction false} LexDigits(a: string, b: string)
    requires |a| == |b| && AllDigits(a) && AllDigits(b)
    ensures Lex(a, b) == Sign(Value(a) - Value(b))
  {
    if a != "" {
      var n := |a| - 1;
      var c, d := a[n], b[n];
      assert a == a[..n] + [c] && b == b[..n] + [d];
      ValueSnoc(a[..n], c);
      ValueSnoc(b[..n], d);
      LexSnoc(a[..n], b[..n], c, d);
      hide Lex, Value, AllDigits;
      LexDigits(a[..n], b[..n]);
    }
  }

  /** Length, then bytes, is the order of the integers, however many digits they have. */
  lemma {:induction false} NumericOrder(a: string, b: string)
    requires Numeric(a) && Numeric(b) && !LeadingZero(a) && !LeadingZero(b)
    ensures CompareField(a, b) == Sign(Value(a) - Value(b))
  {
    ValueBounds(a);
    ValueBounds(b);
    if |a| < |b| {
      Pow10Grows(|a|, |b| - 1);
    } else if |b| < |a| {
      Pow10Grows(|b|, |a| - 1);
    } else {
      LexDigits(a, b);
    }
  }

  // ---- a total order ---------------------------------------------------------------------------------

  lemma {:induction false} LexOrder(a: string, b: string)
    ensures Lex(a, b) == -Lex(b, a) && (Lex(a, b) == 0 <==> a == b)
  {
    if a != "" && b != "" && a[0] == b[0] {
      LexOrder(a[1..], b[1..]);
      assert a == [a[0]] + a[1..] && b == [b[0]] + b[1..];
    }
  }

  lemma {:induction false} LexTransitive(a: string, b: string, c: string)
    requires Lex(a, b) <= 0 && Lex(b, c) <= 0
    ensures Lex(a, c) <= 0 && (Lex(a, b) < 0 || Lex(b, c) < 0 ==> Lex(a, c) < 0)
  {
    if a != "" && b != "" && c != "" && a[0] == b[0] == c[0] {
      LexTransitive(a[1..], b[1..], c[1..]);
    }
  }

  lemma {:induction false} FieldOrder(a: string, b: string)
    ensures CompareField(a, b) == -CompareField(b, a) && (CompareField(a, b) == 0 <==> a == b)
  {
    LexOrder(a, b);
  }

  lemma {:induction false} FieldTransitive(a: string, b: string, c: string)
    requires CompareField(a, b) <= 0 && CompareField(b, c) <= 0
    ensures CompareField(a, c) <= 0 && (CompareField(a, b) < 0 || CompareField(b, c) < 0 ==> CompareField(a, c) < 0)
  {
    if Lex(a, b) <= 0 && Lex(b, c) <= 0 {
      LexTransitive(a, b, c);
    }
  }

  /** A pre-release as the parser produces it: fields are never empty. */
  ghost predicate Fielded(s: string)
    decreases |s|
  {
    s != "" && FieldLen(s) > 0 && (FieldLen(s) < |s| ==> Fielded(s[FieldLen(s) + 1..]))
  }

  lemma {:induction false} SeriesFielded(s: string)
    requires Series(s, true)
    ensures Fielded(s)
    decreases |s|
  {
    var n :| 0 < n <= |s| && Identifier(s[..n], true) && (n == |s| || (s[n] == '.' && Series(s[n + 1..], true)));
    FieldIs(s, n);
    if n < |s| {
      SeriesFielded(s[n + 1..]);
    }
  }

  lemma {:induction false} FieldIs(s: string, n: nat)
    requires n <= |s| && (forall i :: 0 <= i < n ==> s[..n][i] != '.') && (n == |s| || s[n] == '.')
    ensures FieldLen(s) == n
  {
    assert forall i :: 0 <= i < n ==> s[i] == s[..n][i];
  }

  /** Two texts with the same first field and the same rest are the same. */
  lemma {:induction false} SameText(a: string, b: string)
    requires Fielded(a) && Fielded(b) && a[..FieldLen(a)] == b[..FieldLen(b)] && NextField(a) == NextField(b)
    ensures a == b
  {
  }

  lemma {:induction false} PreOrder(a: string, b: string)
    requires (a == "" || Fielded(a)) && (b == "" || Fielded(b))
    ensures ComparePre(a, b) == -ComparePre(b, a) && (ComparePre(a, b) == 0 <==> a == b)
    decreases |a|
  {
    if a != "" && b != "" {
      FieldOrder(a[..FieldLen(a)], b[..FieldLen(b)]);
      PreOrder(NextField(a), NextField(b));
      if a[..FieldLen(a)] == b[..FieldLen(b)] && NextField(a) == NextField(b) {
        SameText(a, b);
      }
    }
  }

  lemma {:induction false} PreTransitive(a: string, b: string, c: string)
    requires ComparePre(a, b) <= 0 && ComparePre(b, c) <= 0
    ensures ComparePre(a, c) <= 0 && (ComparePre(a, b) < 0 || ComparePre(b, c) < 0 ==> ComparePre(a, c) < 0)
    decreases |a|
  {
    if a != "" && b != "" && c != "" {
      var x, y, z := a[..FieldLen(a)], b[..FieldLen(b)], c[..FieldLen(c)];
      FieldTransitive(x, y, z);
      if CompareField(x, y) == 0 && CompareField(y, z) == 0 {
        FieldOrder(x, y);
        FieldOrder(x, z);
        PreTransitive(NextField(a), NextField(b), NextField(c));
      } else if CompareField(x, y) == 0 {
        FieldOrder(x, y);
      } else if CompareField(y, z) == 0 {
        FieldOrder(y, z);
      }
    }
  }

  /** Versions that came out of the parser. */
  ghost predicate Parsed(v: Version) { exists s :: Parse(s) == Some(v) }

  lemma {:induction false} ParsedFields(v: Version)
    requires Parsed(v)
    ensures v.prerelease.Some? ==> Fielded(v.prerelease.value)
  {
    var s :| Parse(s) == Some(v);
    ParseExactly(s, v);
    var build :| Writes(s, v, build);
    if v.prerelease.Some? {
      SeriesFielded(v.prerelease.value);
    }
  }

  lemma {:induction false} ReleaseOrder(a: Option<string>, b: Option<string>)
    requires (a.Some? ==> Fielded(a.value)) && (b.Some? ==> Fielded(b.value))
    ensures CompareRelease(a, b) == -CompareRelease(b, a) && (CompareRelease(a, b) == 0 <==> a == b)
  {
    hide ComparePre, Fielded;
    if a.Some? && b.Some? {
      PreOrder(a.value, b.value);
    }
  }

  lemma {:induction false} ReleaseTransitive(a: Option<string>, b: Option<string>, c: Option<string>)
    requires CompareRelease(a, b) <= 0 && CompareRelease(b, c) <= 0
    ensures CompareRelease(a, c) <= 0 && (CompareRelease(a, b) < 0 || CompareRelease(b, c) < 0 ==> CompareRelease(a, c) < 0)
  {
    hide ComparePre;
    if a.Some? && b.Some? && c.Some? {
      PreTransitive(a.value, b.value, c.value);
    }
  }

  /** Precedence is antisymmetric, and zero only for the same core and pre-release. */
  lemma {:induction false} CompareOrder(a: Version, b: Version)
    requires Parsed(a) && Parsed(b)
    ensures Compare(a, b) == -Compare(b, a) && (Compare(a, b) == 0 <==> a == b)
  {
    hide CompareRelease, Fielded, Parsed;
    ParsedFields(a);
    ParsedFields(b);
    ReleaseOrder(a.prerelease, b.prerelease);
  }

  lemma {:induction false} CompareTransitive(a: Version, b: Version, c: Version)
    requires Parsed(a) && Parsed(b) && Parsed(c) && Compare(a, b) <= 0 && Compare(b, c) <= 0
    ensures Compare(a, c) <= 0 && (Compare(a, b) < 0 || Compare(b, c) < 0 ==> Compare(a, c) < 0)
  {
    hide CompareRelease, Parsed;
    if CompareRelease(a.prerelease, b.prerelease) <= 0 && CompareRelease(b.prerelease, c.prerelease) <= 0 {
      ReleaseTransitive(a.prerelease, b.prerelease, c.prerelease);
    }
  }
}
