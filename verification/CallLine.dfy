/** The recognizer for model output lines "CALL <tool>[@<version>].<command> {...}"
    (src/callline.c). Text is C text: a position holding NUL ends it. */
module CallLine {
  import opened Text

  datatype Call = Call(ref: string, command: string, args: string)

  predicate IsBlank(c: char) { c == ' ' || c == '\t' }

  predicate SlugChar(c: char) { 'a' <= c <= 'z' || '0' <= c <= '9' || c == '-' }

  predicate VersionChar(c: char) {
    '0' <= c <= '9' || 'a' <= c <= 'z' || 'A' <= c <= 'Z' || c == '.' || c == '+' || c == '-'
  }

  predicate TokenChar(c: char) { VersionChar(c) || c == '@' }

  predicate Blanks(s: string) { forall i :: 0 <= i < |s| ==> IsBlank(s[i]) }

  predicate SlugText(s: string) { forall i :: 0 <= i < |s| ==> SlugChar(s[i]) }

  predicate VersionText(s: string) { forall i :: 0 <= i < |s| ==> VersionChar(s[i]) }

  // ---- cursor functions ---------------------------------------------------

  function SkipBlanks(s: string, i: nat): (j: nat)
    requires i <= |s|
    ensures i <= j <= |s|
    ensures forall k :: i <= k < j ==> IsBlank(s[k])
    ensures j < |s| ==> !IsBlank(s[j])
    decreases |s| - i
  {
    if i < |s| && IsBlank(s[i]) then SkipBlanks(s, i + 1) else i
  }

  function TokenEnd(s: string, i: nat): (j: nat)
    requires i <= |s|
    ensures i <= j <= |s|
    ensures forall k :: i <= k < j ==> TokenChar(s[k])
    ensures j < |s| ==> !TokenChar(s[j])
    decreases |s| - i
  {
    if i < |s| && TokenChar(s[i]) then TokenEnd(s, i + 1) else i
  }

  /** Index of the last dot, or |s| when there is none. */
  function LastDot(s: string): (d: nat)
    ensures d <= |s|
    ensures d < |s| ==> s[d] == '.'
    ensures forall k :: d < k < |s| ==> s[k] != '.'
    ensures d == |s| ==> forall k :: 0 <= k < |s| ==> s[k] != '.'
  {
    if s == "" then 0
    else if s[|s| - 1] == '.' then |s| - 1
    else
      var t := s[..|s| - 1];
      var d := LastDot(t);
      if d == |t| then |s| else d
  }

  /** Index of the first '@', or |s| when there is none. */
  function FirstAt(s: string): (a: nat)
    ensures a <= |s|
    ensures a < |s| ==> s[a] == '@'
    ensures forall k :: 0 <= k < a ==> s[k] != '@'
  {
    if s == "" then 0 else if s[0] == '@' then 0 else 1 + FirstAt(s[1..])
  }

  /** A tool id, optionally followed by '@' and a version. */
  predicate RefText(s: string) {
    var a := FirstAt(s);
    a > 0 && SlugText(s[..a]) && (a < |s| ==> a + 1 < |s| && VersionText(s[a + 1..]))
  }

  // ---- the brace and quote automaton --------------------------------------

  datatype Scan = Scan(depth: int, inString: bool, escaped: bool)

  const START := Scan(0, false, false)

  function Step(st: Scan, c: char): Scan {
    if st.inString then
      if st.escaped then st.(escaped := false)
      else if c == '\\' then st.(escaped := true)
      else if c == '"' then st.(inString := false)
      else st
    else if c == '"' then st.(inString := true)
    else if c == '{' then st.(depth := st.depth + 1)
    else if c == '}' then st.(depth := st.depth - 1)
    else st
  }

  /** Reading c in state st closes the outermost object. */
  predicate Closes(st: Scan, c: char) { !st.inString && c == '}' && st.depth == 1 }

  /** State after s, provided no character of s closed the outermost object. */
  function Advance(st: Scan, s: string): Option<Scan>
    decreases |s|
  {
    if s == "" then Some(st)
    else if Closes(st, s[0]) then None
    else Advance(Step(st, s[0]), s[1..])
  }

  /** Length of the shortest prefix that closes the outermost object. */
  function CloseLength(st: Scan, s: string): (n: Option<nat>)
    ensures n.Some? ==> 1 <= n.value <= |s|
    decreases |s|
  {
    if s == "" then None
    else if Closes(st, s[0]) then Some(1)
    else
      match CloseLength(Step(st, s[0]), s[1..])
      case None => None
      case Some(n) => Some(n + 1)
  }

  /** A single-line object: it opens with a brace and the automaton closes it at
      its last character and not before. */
  predicate Closed(args: string) {
    args != "" && args[0] == '{' && CloseLength(START, args) == Some(|args|)
  }

  // ---- one line -----------------------------------------------------------

  const KEYWORD := "CALL "

  /** Where the reference token starts, after the keyword. */
  function TokenStart(line: string): (t: Option<nat>)
    ensures t.Some? ==> t.value <= |line|
  {
    var i := SkipBlanks(line, 0);
    if i + 5 <= |line| && line[i..i + 5] == KEYWORD then Some(SkipBlanks(line, i + 5)) else None
  }

  /** "<tool>[@<version>].<command>" is split at the last dot. */
  function SplitToken(token: string): Option<(string, string)> {
    var dot := LastDot(token);
    if dot == |token| || dot == 0 || dot + 1 == |token| then None
    else if SlugText(token[dot + 1..]) && RefText(token[..dot]) then Some((token[..dot], token[dot + 1..]))
    else None
  }

  /** The object that starts at or after position i, up to its closing brace. */
  function ObjectAt(line: string, i: nat): Option<string>
    requires i <= |line|
  {
    var a := SkipBlanks(line, i);
    if a == |line| || line[a] != '{' then None else
    match CloseLength(START, line[a..])
    case None => None
    case Some(n) => Some(line[a..a + n])
  }

  /** What parse_call_line computes. */
  function ParseLine(line: string): Option<Call> {
    match TokenStart(line)
    case None => None
    case Some(t0) =>
      var t1 := TokenEnd(line, t0);
      match SplitToken(line[t0..t1])
      case None => None
      case Some(rc) =>
        match ObjectAt(line, t1)
        case None => None
        case Some(args) => Some(Call(rc.0, rc.1, args))
  }

  /** The lines that count as a call, described without a cursor. */
  ghost predicate Spells(line: string, c: Call, b1: string, b2: string, b3: string, prose: string) {
    && Blanks(b1) && Blanks(b2) && Blanks(b3)
    && line == b1 + KEYWORD + b2 + c.ref + "." + c.command + b3 + c.args + prose
    && RefText(c.ref)
    && c.command != "" && SlugText(c.command)
    && Closed(c.args)
  }

  lemma {:induction false} SkipBlanksAt(s: string, pre: string, b: string, rest: string)
    requires s == pre + b + rest
    requires Blanks(b) && (rest == "" || !IsBlank(rest[0]))
    ensures SkipBlanks(s, |pre|) == |pre| + |b|
  {
    assert forall k :: |pre| <= k < |pre| + |b| ==> s[k] == b[k - |pre|];
    assert rest != "" ==> s[|pre| + |b|] == rest[0];
  }

  lemma {:induction false} TokenEndAt(s: string, pre: string, t: string, rest: string)
    requires s == pre + t + rest
    requires forall k :: 0 <= k < |t| ==> TokenChar(t[k])
    requires rest == "" || !TokenChar(rest[0])
    ensures TokenEnd(s, |pre|) == |pre| + |t|
    ensures s[|pre|..|pre| + |t|] == t
  {
    assert forall k :: |pre| <= k < |pre| + |t| ==> s[k] == t[k - |pre|];
    assert rest != "" ==> s[|pre| + |t|] == rest[0];
  }

  lemma {:induction false} CloseLengthPrefix(st: Scan, s: string, t: string)
    requires CloseLength(st, s).Some?
    ensures CloseLength(st, s + t) == CloseLength(st, s)
    decreases |s|
  {
    assert (s + t)[1..] == s[1..] + t;
    if !Closes(st, s[0]) {
      CloseLengthPrefix(Step(st, s[0]), s[1..], t);
    }
  }

  lemma {:induction false} CloseLengthExact(st: Scan, s: string)
    requires CloseLength(st, s).Some?
    ensures CloseLength(st, s[..CloseLength(st, s).value]) == CloseLength(st, s)
    decreases |s|
  {
    var n := CloseLength(st, s).value;
    assert s[..n][0] == s[0];
    if !Closes(st, s[0]) {
      assert s[..n][1..] == s[1..][..n - 1];
      CloseLengthExact(Step(st, s[0]), s[1..]);
    }
  }

  lemma {:induction false} SplitTokenAt(ref: string, command: string)
    requires RefText(ref) && command != "" && SlugText(command)
    ensures SplitToken(ref + "." + command) == Some((ref, command))
  {
    var s := ref + "." + command;
    assert s[|ref|] == '.';
    assert forall k :: |ref| < k < |s| ==> s[k] == command[k - |ref| - 1];
    assert LastDot(s) == |ref|;
    assert s[..|ref|] == ref && s[|ref| + 1..] == command;
  }

  lemma {:induction false} TokenStartAt(line: string, b1: string, b2: string, rest: string)
    requires line == b1 + KEYWORD + b2 + rest
    requires Blanks(b1) && Blanks(b2) && (rest == "" || !IsBlank(rest[0]))
    ensures TokenStart(line) == Some(|b1| + 5 + |b2|)
  {
    var r1 := KEYWORD + (b2 + rest);
    assert line == "" + b1 + r1;
    SkipBlanksAt(line, "", b1, r1);
    assert line[|b1|..|b1| + 5] == KEYWORD;
    assert line == (b1 + KEYWORD) + b2 + rest;
    SkipBlanksAt(line, b1 + KEYWORD, b2, rest);
  }

  lemma {:induction false} ObjectAtFound(line: string, pre: string, b: string, args: string, prose: string)
    requires line == pre + b + (args + prose)
    requires Blanks(b) && Closed(args)
    ensures ObjectAt(line, |pre|) == Some(args)
  {
    SkipBlanksAt(line, pre, b, args + prose);
    var a := |pre| + |b|;
    assert line[a..] == args + prose;
    CloseLengthPrefix(START, args, prose);
    assert line[a..a + |args|] == line[a..][..|args|] == args;
  }

  /** The four ways the proofs cut a call line; only sequences are involved. */
  lemma {:induction false} Assembled(b1: string, b2: string, ref: string, command: string, b3: string, args: string, prose: string)
    ensures var token := ref + "." + command;
            var line := b1 + KEYWORD + b2 + ref + "." + command + b3 + args + prose;
            var p3 := b1 + KEYWORD + b2;
            && line == p3 + (token + (b3 + (args + prose)))
            && line == p3 + token + (b3 + (args + prose))
            && line == p3 + token + b3 + (args + prose)
            && line == p3 + token + (b3 + args + prose)
  {
  }

  /** Completeness: every line of the described shape is recognized as that call. */
  lemma {:induction false} ParseLineComplete(line: string, c: Call, b1: string, b2: string, b3: string, prose: string)
    requires Spells(line, c, b1, b2, b3, prose)
    ensures ParseLine(line) == Some(c)
  {
    Assembled(b1, b2, c.ref, c.command, b3, c.args, prose);
    ParseLinePieces(line, c, b1, b2, c.ref + "." + c.command, b3, prose);
  }

  lemma {:induction false} ParseLinePieces(line: string, c: Call, b1: string, b2: string, token: string, b3: string, prose: string)
    requires Blanks(b1) && Blanks(b2) && Blanks(b3)
    requires RefText(c.ref) && c.command != "" && SlugText(c.command) && Closed(c.args)
    requires token == c.ref + "." + c.command
    requires line == b1 + KEYWORD + b2 + (token + (b3 + (c.args + prose)))
    requires line == b1 + KEYWORD + b2 + token + (b3 + (c.args + prose))
    requires line == b1 + KEYWORD + b2 + token + b3 + (c.args + prose)
    ensures ParseLine(line) == Some(c)
  {
    var rest := b3 + (c.args + prose);
    var p3 := b1 + KEYWORD + b2;
    var p4 := p3 + token;
    assert (forall k :: 0 <= k < |token| ==> TokenChar(token[k])) && !IsBlank(token[0]) by {
      TokenOf(c.ref, c.command);
    }
    assert TokenStart(line) == Some(|p3|) by {
      TokenStartAt(line, b1, b2, token + rest);
    }
    assert TokenEnd(line, |p3|) == |p4| && line[|p3|..|p4|] == token by {
      TokenEndAt(line, p3, token, rest);
    }
    assert ObjectAt(line, |p4|) == Some(c.args) by {
      ObjectAtFound(line, p4, b3, c.args, prose);
    }
    assert SplitToken(token) == Some((c.ref, c.command)) by {
      SplitTokenAt(c.ref, c.command);
    }
    ParseLineFrom(line, c, |p3|, |p4|);
  }

  lemma {:induction false} ParseLineFrom(line: string, c: Call, t0: nat, t1: nat)
    requires TokenStart(line) == Some(t0) && TokenEnd(line, t0) == t1
    requires SplitToken(line[t0..t1]) == Some((c.ref, c.command))
    requires ObjectAt(line, t1) == Some(c.args)
    ensures ParseLine(line) == Some(c)
  {
  }

  lemma {:induction false} TokenOf(ref: string, command: string)
    requires RefText(ref) && SlugText(command)
    ensures var token := ref + "." + command;
            (forall k :: 0 <= k < |token| ==> TokenChar(token[k])) && !IsBlank(token[0])
  {
  }

  lemma {:induction false} TokenStartSound(line: string) returns (b1: string, b2: string)
    requires TokenStart(line).Some?
    ensures Blanks(b1) && Blanks(b2) && line[..TokenStart(line).value] == b1 + KEYWORD + b2
  {
    var i := SkipBlanks(line, 0);
    var t0 := TokenStart(line).value;
    b1, b2 := line[..i], line[i + 5..t0];
    assert line[..t0] == b1 + line[i..i + 5] + b2;
  }

  lemma {:induction false} ObjectAtSound(line: string, i: nat) returns (b: string, prose: string)
    requires i <= |line| && ObjectAt(line, i).Some?
    ensures Blanks(b) && line[i..] == b + ObjectAt(line, i).value + prose
    ensures Closed(ObjectAt(line, i).value)
  {
    var a := SkipBlanks(line, i);
    var n := CloseLength(START, line[a..]).value;
    CloseLengthExact(START, line[a..]);
    assert line[a..][..n] == line[a..a + n];
    b, prose := line[i..a], line[a + n..];
    assert line[i..] == b + line[a..a + n] + prose;
  }

  lemma {:induction false} SplitTokenSound(token: string)
    requires SplitToken(token).Some?
    ensures var rc := SplitToken(token).value;
            token == rc.0 + "." + rc.1 && RefText(rc.0) && rc.1 != "" && SlugText(rc.1)
  {
  }

  /** Soundness: whatever is recognized has the described shape. */
  lemma {:induction false} ParseLineSound(line: string)
    requires ParseLine(line).Some?
    ensures exists b1, b2, b3, prose :: Spells(line, ParseLine(line).value, b1, b2, b3, prose)
  {
    var c := ParseLine(line).value;
    var t0 := TokenStart(line).value;
    var t1 := TokenEnd(line, t0);
    hide TokenStart, TokenEnd, SplitToken, ObjectAt, RefText, SlugText, Closed, Blanks;
    var b1, b2 := TokenStartSound(line);
    var b3, prose := ObjectAtSound(line, t1);
    SplitTokenSound(line[t0..t1]);
    CutTwice(line, t0, t1);
    Assembled(b1, b2, c.ref, c.command, b3, c.args, prose);
    assert Spells(line, c, b1, b2, b3, prose);
  }

  lemma {:induction false} CutTwice(line: string, a: nat, b: nat)
    requires a <= b <= |line|
    ensures line == line[..a] + line[a..b] + line[b..]
  {
  }

  method ParseCallLine(line: string) returns (r: Option<Call>)
    ensures r == ParseLine(line)
  {
    var i := PassBlanks(line, 0);
    if |line| - i < 5 || line[i..i + 5] != KEYWORD {
      return None;
    }
    i := PassBlanks(line, i + 5);
    var t0 := i;
    while i < |line| && TokenChar(line[i])
      invariant t0 <= i <= |line| && TokenEnd(line, t0) == TokenEnd(line, i)
    {
      i := i + 1;
    }
    var rc := SplitReference(line[t0..i]);
    if rc.None? {
      return None;
    }
    var args := ScanObject(line, i);
    if args.None? {
      return None;
    }
    return Some(Call(rc.value.0, rc.value.1, args.value));
  }

  method PassBlanks(line: string, start: nat) returns (i: nat)
    requires start <= |line|
    ensures i == SkipBlanks(line, start)
  {
    i := start;
    while i < |line| && IsBlank(line[i])
      invariant start <= i <= |line| && SkipBlanks(line, start) == SkipBlanks(line, i)
    {
      i := i + 1;
    }
  }

  method SplitReference(token: string) returns (r: Option<(string, string)>)
    ensures r == SplitToken(token)
  {
    var dot := |token|;
    var k := |token|;
    while k > 0 && dot == |token|
      invariant 0 <= k <= |token| && 0 <= dot <= |token|
      invariant dot == |token| ==> forall j :: k <= j < |token| ==> token[j] != '.'
      invariant dot < |token| ==> token[dot] == '.' && forall j :: dot < j < |token| ==> token[j] != '.'
      decreases k
    {
      if token[k - 1] == '.' {
        dot := k - 1;
      }
      k := k - 1;
    }
    if dot == |token| || dot == 0 || dot + 1 == |token| {
      return None;
    }
    var ok := AllSlug(token[dot + 1..]);
    if ok {
      ok := CheckRef(token[..dot]);
    }
    return if ok then Some((token[..dot], token[dot + 1..])) else None;
  }

  method ScanObject(line: string, start: nat) returns (r: Option<string>)
    requires start <= |line|
    ensures r == ObjectAt(line, start)
  {
    var i := PassBlanks(line, start);
    if i >= |line| || line[i] != '{' {
      return None;
    }
    var a := i;
    var depth, inString, escaped := 0, false, false;
    while i < |line|
      invariant a <= i <= |line|
      invariant var n := CloseLength(Scan(depth, inString, escaped), line[i..]);
                CloseLength(START, line[a..]) == if n.None? then None else Some(n.value + (i - a))
    {
      var ch := line[i];
      assert line[i..][0] == ch && line[i..][1..] == line[i + 1..];
      if inString {
        if escaped {
          escaped := false;
        } else if ch == '\\' {
          escaped := true;
        } else if ch == '"' {
          inString := false;
        }
      } else if ch == '"' {
        inString := true;
      } else if ch == '{' {
        depth := depth + 1;
      } else if ch == '}' {
        depth := depth - 1;
        if depth == 0 {
          return Some(line[a..i + 1]);
        }
      }
      i := i + 1;
    }
    return None;
  }

  method AllSlug(s: string) returns (ok: bool)
    ensures ok <==> SlugText(s)
  {
    for k := 0 to |s|
      invariant SlugText(s[..k])
    {
      if !SlugChar(s[k]) {
        return false;
      }
      assert s[..k + 1] == s[..k] + [s[k]];
    }
    assert s[..|s|] == s;
    return true;
  }

  method CheckRef(s: string) returns (ok: bool)
    ensures ok <==> RefText(s)
  {
    var at := |s|;
    var k := 0;
    while k < |s| && at == |s|
      invariant k <= |s| && 0 <= at <= |s|
      invariant at == |s| ==> forall j :: 0 <= j < k ==> s[j] != '@'
      invariant at < |s| ==> s[at] == '@' && forall j :: 0 <= j < at ==> s[j] != '@'
      decreases |s| - k
    {
      if s[k] == '@' {
        at := k;
      }
      k := k + 1;
    }
    assert at == FirstAt(s);
    if at == 0 {
      return false;
    }
    ok := AllSlug(s[..at]);
    if ok && at < |s| {
      if at + 1 == |s| {
        return false;
      }
      k := at + 1;
      while k < |s|
        invariant at < k <= |s| && VersionText(s[at + 1..k])
      {
        if !VersionChar(s[k]) {
          assert s[at + 1..][k - at - 1] == s[k];
          return false;
        }
        assert s[at + 1..k + 1] == s[at + 1..k] + [s[k]];
        k := k + 1;
      }
      assert s[at + 1..] == s[at + 1..|s|];
    }
  }

  // ---- whole model output -------------------------------------------------

  const NEWLINE := '\n'
  const NUL := 0 as char

  function LineEnd(s: string): (n: nat)
    ensures n <= |s|
    ensures n < |s| ==> s[n] == NEWLINE
    ensures forall k :: 0 <= k < n ==> s[k] != NEWLINE
  {
    if s == "" || s[0] == NEWLINE then 0 else 1 + LineEnd(s[1..])
  }

  /** The first well-formed call line wins; malformed ones are skipped. */
  function ParseLines(s: string): Option<Call>
    decreases |s|
  {
    var n := LineEnd(s);
    match ParseLine(s[..n])
    case Some(c) => Some(c)
    case None => if n == |s| then None else ParseLines(s[n + 1..])
  }

  /** The part of a buffer a C string function sees. */
  function CString(s: string): (t: string)
    ensures t <= s
    ensures !Contains(t, NUL)
    ensures |t| < |s| ==> s[|t|] == NUL
    ensures t == s <==> !Contains(s, NUL)
  {
    if s == "" || s[0] == NUL then "" else
    var t := CString(s[1..]);
    var r := [s[0]] + t;
    assert |t| < |s[1..]| ==> s[|r|] == s[1..][|t|];
    assert Contains(s[1..], NUL) ==> Contains(s, NUL) by {
      if Contains(s[1..], NUL) {
        var i :| 0 <= i < |s[1..]| && s[1..][i] == NUL;
        assert s[i + 1] == NUL;
      }
    }
    assert Contains(s, NUL) ==> Contains(s[1..], NUL) by {
      if Contains(s, NUL) {
        var i :| 0 <= i < |s| && s[i] == NUL;
        assert s[1..][i - 1] == NUL;
      }
    }
    assert r == s <==> t == s[1..] by {
      assert s == [s[0]] + s[1..];
    }
    assert !Contains(r, NUL) by {
      forall i | 0 <= i < |r| ensures r[i] != NUL {
        if i > 0 { assert r[i] == t[i - 1]; }
      }
    }
    r
  }

  /** astools_callline_parse on a buffer holding output. */
  function Parse(output: string): Option<Call> { ParseLines(CString(output)) }

  method ParseOutput(output: string) returns (r: Option<Call>)
    ensures r == Parse(output)
  {
    var rest := CString(output);
    while true
      invariant ParseLines(CString(output)) == ParseLines(rest)
      decreases |rest|
    {
      var len := FindLineEnd(rest);
      r := ParseCallLine(rest[..len]);
      if r.Some? || len == |rest| {
        return;
      }
      rest := rest[len + 1..];
    }
  }

  method FindLineEnd(s: string) returns (n: nat)
    ensures n == LineEnd(s)
  {
    n := 0;
    while n < |s| && s[n] != NEWLINE
      invariant n <= |s| && forall k :: 0 <= k < n ==> s[k] != NEWLINE
    {
      n := n + 1;
    }
  }
}
