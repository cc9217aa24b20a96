/** Version parsing and precedence (src/semver.c). Semantic Versioning 2.0.0,
    sections 2, 9, 10 and 11. */
module Semver {
  import opened Text

  const INT64_MAX := 0x7FFF_FFFF_FFFF_FFFF

  datatype Version = Version(major: nat, minor: nat, patch: nat, prerelease: Option<string>)

  // ---- characters and identifiers ----------------------------------------------------------

  predicate IdentChar(c: char) { IsDigit(c) || 'a' <= c <= 'z' || 'A' <= c <= 'Z' || c == '-' }

  predicate IdentText(s: string) { s != "" && forall i :: 0 <= i < |s| ==> IdentChar(s[i]) }

  /** All digits with a leading zero and more digits after it. */
  predicate LeadingZero(s: string) { AllDigits(s) && |s| > 1 && s[0] == '0' }

  predicate Identifier(s: string, strict: bool) { IdentText(s) && !(strict && LeadingZero(s)) }

  /** Length of the run of identifier characters at the start of s. */
  function IdentRun(s: string): (n: nat)
    ensures n <= |s|
    ensures forall i :: 0 <= i < n ==> IdentChar(s[i])
    ensures n < |s| ==> !IdentChar(s[n])
  {
    if s != "" && IdentChar(s[0]) then 1 + IdentRun(s[1..]) else 0
  }

  /** sv_idents: what follows a dot-separated identifier series. */
  function Idents(s: string, strict: bool): (r: Option<string>)
    ensures r.Some? ==> |r.value| < |s|
    decreases |s|
  {
    var n := IdentRun(s);
    if n == 0 || (strict && LeadingZero(s[..n])) then None
    else if n == |s| || s[n] != '.' then Some(s[n..])
    else Idents(s[n + 1..], strict)
  }

  function DigitRun(s: string): (n: nat)
    ensures n <= |s|
    ensures AllDigits(s[..n])
    ensures n < |s| ==> !IsDigit(s[n])
  {
    if s != "" && IsDigit(s[0]) then
      assert forall i :: 0 < i <= DigitRun(s[1..]) ==> s[i] == s[1..][i - 1];
      1 + DigitRun(s[1..])
    else 0
  }

  /** sv_number: a component in range, and what follows it. */
  function Component(s: string): (r: Option<(nat, string)>)
    ensures r.Some? ==> |r.value.1| < |s|
  {
    var n := DigitRun(s);
    if n == 0 || LeadingZero(s[..n]) || Value(s[..n]) > INT64_MAX then None
    else Some((Value(s[..n]), s[n..]))
  }

  // ---- parsing ---------------------------------------------------------------------------------

  function AfterDot(s: string): Option<(nat, string)> {
    if s == "" || s[0] != '.' then None else Component(s[1..])
  }

  function Parse(s: string): Option<Version> {
    match Component(s)
    case None => None
    case Some((major, a)) =>
      match AfterDot(a)
      case None => None
      case Some((minor, b)) =>
        match AfterDot(b)
        case None => None
        case Some((patch, c)) => ParseSuffix(major, minor, patch, c)
  }

  function ParseSuffix(major: nat, minor: nat, patch: nat, s: string): Option<Version> {
    if s != "" && s[0] == '-' then
      match Idents(s[1..], true)
      case None => None
      case Some(rest) =>
        if BuildOk(rest) then Some(Version(major, minor, patch, Some(s[1..|s| - |rest|]))) else None
    else if BuildOk(s) then Some(Version(major, minor, patch, None))
    else None
  }

  /** Nothing, or build metadata to the end. */
  predicate BuildOk(s: string) { s == "" || (s[0] == '+' && Idents(s[1..], false) == Some("")) }

  /** The scanning loop of sv_number. */
  method ScanComponent(s: string) returns (r: Option<(nat, string)>)
    ensures r == Component(s)
  {
    if s == "" || !IsDigit(s[0]) || (|s| > 1 && s[0] == '0' && IsDigit(s[1])) {
      Leading(s);
      return None;
    }
    Leading(s);
    var v, i := 0, 0;
    while i < |s| && IsDigit(s[i])
      invariant 0 <= i <= DigitRun(s)
      invariant v == Value(s[..i]) <= INT64_MAX
    {
      RunStep(s, i);
      var d := DigitValue(s[i]);
      ValueSnoc(s[..i], s[i]);
      assert s[..i + 1] == s[..i] + [s[i]];
      if v > (INT64_MAX - d) / 10 {
        ValueGrows(s[..DigitRun(s)], i + 1);
        assert s[..DigitRun(s)][..i + 1] == s[..i + 1];
        return None;
      }
      v, i := v * 10 + d, i + 1;
    }
    assert i == DigitRun(s);
    return Some((v, s[i..]));
  }

  /** The test sv_number makes on the first two characters. */
  lemma {:induction false} Leading(s: string)
    ensures DigitRun(s) == 0 <==> s == "" || !IsDigit(s[0])
    ensures LeadingZero(s[..DigitRun(s)]) <==> |s| > 1 && s[0] == '0' && IsDigit(s[1])
  {
  }

  lemma {:induction false} RunStep(s: string, i: nat)
    requires i <= DigitRun(s) && i < |s| && IsDigit(s[i])
    ensures i < DigitRun(s)
  {
  }

  lemma {:induction false} ValueGrows(s: string, n: nat)
    requires AllDigits(s) && n <= |s|
    ensures Value(s[..n]) <= Value(s)
  {
    if n == |s| {
      assert s[..n] == s;
    } else {
      ValueGrows(s[..|s| - 1], n);
      assert s[..|s| - 1][..n] == s[..n];
    }
  }

  /** The inner loop of sv_idents: one identifier, and whether it is all digits. */
  method ScanIdent(s: string) returns (n: nat, numeric: bool)
    ensures n == IdentRun(s) && numeric == AllDigits(s[..n])
  {
    n, numeric := 0, true;
    while n < |s| && IdentChar(s[n])
      invariant n <= IdentRun(s)
      invariant numeric == AllDigits(s[..n])
    {
      assert s[..n + 1] == s[..n] + [s[n]];
      if !IsDigit(s[n]) {
        numeric := false;
      }
      n := n + 1;
    }
  }

  method ScanIdents(s: string, strict: bool) returns (r: Option<string>)
    ensures r == Idents(s, strict)
  {
    var p := s;
    while true
      invariant Idents(s, strict) == Idents(p, strict)
      decreases |p|
    {
      var n, numeric := ScanIdent(p);
      if n == 0 || (strict && numeric && n > 1 && p[0] == '0') {
        return None;
      }
      if n == |p| || p[n] != '.' {
        return Some(p[n..]);
      }
      p := p[n + 1..];
    }
  }

  method ParseVersion(s: string) returns (r: Option<Version>)
    ensures r == Parse(s)
  {
    hide Component, Idents;
    var major := ScanComponent(s);
    if major.None? || major.value.1 == "" || major.value.1[0] != '.' {
      return None;
    }
    var minor := ScanComponent(major.value.1[1..]);
    if minor.None? || minor.value.1 == "" || minor.value.1[0] != '.' {
      return None;
    }
    var patch := ScanComponent(minor.value.1[1..]);
    if patch.None? {
      return None;
    }
    var p, pre := patch.value.1, None;
    if p != "" && p[0] == '-' {
      var rest := ScanIdents(p[1..], true);
      if rest.None? {
        return None;
      }
      pre, p := Some(p[1..|p| - |rest.value|]), rest.value;
    }
    if p != "" && p[0] == '+' {
      var rest := ScanIdents(p[1..], false);
      if rest.None? {
        return None;
      }
      p := rest.value;
    }
    if p != "" {
      return None;
    }
    return Some(Version(major.value.0, minor.value.0, patch.value.0, pre));
  }

  // ---- precedence ----------------------------------------------------------------------------------

  /** memcmp over the common length, then the lengths: strcmp. */
  function Lex(a: string, b: string): (r: int)
    ensures r == -1 || r == 0 || r == 1
  {
    if a == "" && b == "" then 0
    else if a == "" then -1
    else if b == "" then 1
    else if a[0] != b[0] then if a[0] < b[0] then -1 else 1
    else Lex(a[1..], b[1..])
  }

  predicate Numeric(field: string) { field != "" && AllDigits(field) }

  /** One identifier against another. */
  function CompareField(a: string, b: string): (r: int)
    ensures r == -1 || r == 0 || r == 1
  {
    if Numeric(a) && !Numeric(b) then -1
    else if !Numeric(a) && Numeric(b) then 1
    else if Numeric(a) && |a| != |b| then if |a| < |b| then -1 else 1
    else Lex(a, b)
  }

  /** Length of the field at the start of s. */
  function FieldLen(s: string): (n: nat)
    ensures n <= |s|
    ensures forall i :: 0 <= i < n ==> s[i] != '.'
    ensures n < |s| ==> s[n] == '.'
  {
    if s == "" || s[0] == '.' then 0 else 1 + FieldLen(s[1..])
  }

  /** What follows a field and its dot. */
  function NextField(s: string): (r: string)
    requires s != ""
    ensures |r| < |s|
  {
    var n := FieldLen(s);
    if n < |s| then s[n + 1..] else s[n..]
  }

  function ComparePre(a: string, b: string): (r: int)
    ensures r == -1 || r == 0 || r == 1
    decreases |a|
  {
    if a == "" && b == "" then 0
    else if a == "" then -1
    else if b == "" then 1
    else
      var c := CompareField(a[..FieldLen(a)], b[..FieldLen(b)]);
      if c != 0 then c else ComparePre(NextField(a), NextField(b))
  }

  function Sign(x: int): int { if x < 0 then -1 else if x > 0 then 1 else 0 }

  function CompareCore(a: Version, b: Version): (r: int)
    ensures r == -1 || r == 0 || r == 1
  {
    if a.major != b.major then Sign(a.major - b.major)
    else if a.minor != b.minor then Sign(a.minor - b.minor)
    else Sign(a.patch - b.patch)
  }

  /** A release is above its pre-releases. */
  function CompareRelease(a: Option<string>, b: Option<string>): (r: int)
    ensures r == -1 || r == 0 || r == 1
  {
    match (a, b)
    case (None, None) => 0
    case (None, Some(_)) => 1
    case (Some(_), None) => -1
    case (Some(p), Some(q)) => ComparePre(p, q)
  }

  /** astools_semver_cmp */
  function Compare(a: Version, b: Version): (r: int)
    ensures r == -1 || r == 0 || r == 1
  {
    if CompareCore(a, b) != 0 then CompareCore(a, b) else CompareRelease(a.prerelease, b.prerelease)
  }

  /** The loop over pre-release fields. */
  method ComparePreText(a: string, b: string) returns (r: int)
    ensures r == ComparePre(a, b)
  {
    var pa, pb := a, b;
    while true
      invariant ComparePre(a, b) == ComparePre(pa, pb)
      decreases |pa|
    {
      if pa == "" && pb == "" {
        return 0;
      }
      if pa == "" {
        return -1;
      }
      if pb == "" {
        return 1;
      }
      var la, lb := FieldLen(pa), FieldLen(pb);
      var fa, fb := pa[..la], pb[..lb];
      var na, nb := Numeric(fa), Numeric(fb);
      if na && !nb {
        return -1;
      }
      if !na && nb {
        return 1;
      }
      if na && la != lb {
        return if la < lb then -1 else 1;
      }
      var order := Lex(fa, fb);
      if order != 0 {
        return order;
      }
      pa, pb := NextField(pa), NextField(pb);
    }
  }
}
