/** Which bytes announce a message: the Header Part of the Base Protocol in Language Server
    Protocol 3.17, on characters alone (src/process_frame.c). */
module FrameHeaders {
  import opened Text
  import opened Frames
  import FrameLaws

  // ---- header lines -----------------------------------------------------------------------------

  /** The letter w, small or capital. */
  predicate SameLetter(c: char, w: char) { c == w || ('a' <= w <= 'z' && c as int + 32 == w as int) }

  predicate SameText(s: string, word: string) { |s| == |word| && forall i :: 0 <= i < |s| ==> SameLetter(s[i], word[i]) }

  predicate Gap(s: string) { forall i :: 0 <= i < |s| ==> s[i] == ' ' || s[i] == '\t' }

  /** A name, a colon and a value between spaces and tabs. */
  predicate FieldLine(line: string, name: string, before: string, value: string, after: string) {
    line == name + ":" + before + value + after && Gap(before) && Gap(after)
  }

  ghost predicate LengthLine(line: string, cap: nat, n: nat) {
    exists name, before, value, after ::
      && FieldLine(line, name, before, value, after) && SameText(name, "content-length")
      && value != "" && AllDigits(value) && Value(value) == n && 1 <= n <= cap
  }

  ghost predicate TypeLine(line: string) {
    exists name, before, value, after ::
      && FieldLine(line, name, before, value, after) && SameText(name, "content-type")
      && (SameText(value, "application/vscode-jsonrpc; charset=utf-8") || SameText(value, "application/vscode-jsonrpc"))
  }

  const BREAK := "\r\n"

  /** One length line, with or without one type line before or after it, and an empty line. */
  ghost predicate IsHeader(h: string, cap: nat, n: nat) {
    || (exists a :: LengthLine(a, cap, n) && h == a + BREAK + BREAK)
    || (exists a, b :: LengthLine(a, cap, n) && TypeLine(b) && (h == a + BREAK + b + BREAK + BREAK || h == b + BREAK + a + BREAK + BREAK))
  }

  // ---- the parts of a line ------------------------------------------------------------------------

  lemma {:induction false} SameExactly(s: string, word: string)
    requires forall i :: 0 <= i < |word| ==> !('A' <= word[i] <= 'Z')
    ensures EqualFold(s, word) <==> SameText(s, word)
  {
    if |s| == |word| {
      forall i | 0 <= i < |s|
        ensures Lower(s[i]) == word[i] <==> SameLetter(s[i], word[i])
      {
      }
    }
  }

  lemma {:induction false} ColonIs(line: string, n: nat)
    requires n < |line| && line[n] == ':' && forall i :: 0 <= i < n ==> line[i] != ':'
    ensures ColonAt(line) == n
  {
  }

  lemma {:induction false} TrimmedLeft(s: string)
    ensures var t := TrimLeft(s); var k := |s| - |t|; s[k..] == t && Gap(s[..k]) && (t != "" ==> !Space(t[0]))
  {
    if s != "" && Space(s[0]) {
      TrimmedLeft(s[1..]);
      var k := |s| - |TrimLeft(s)|;
      assert s[..k] == [s[0]] + s[1..][..k - 1];
    }
  }

  lemma {:induction false} TrimmedRight(s: string)
    ensures var t := TrimRight(s); t == s[..|t|] && Gap(s[|t|..]) && (t != "" ==> !Space(t[|t| - 1]))
  {
    if s != "" && Space(s[|s| - 1]) {
      var init := s[..|s| - 1];
      TrimmedRight(init);
      var t := TrimRight(s);
      assert s[|t|..] == init[|t|..] + [s[|s| - 1]];
    }
  }

  lemma {:induction false} SkipGap(b: string, s: string)
    requires Gap(b) && (s == "" || !Space(s[0]))
    ensures TrimLeft(b + s) == s
  {
    if b == "" {
      assert b + s == s;
    } else {
      assert (b + s)[1..] == b[1..] + s;
      SkipGap(b[1..], s);
    }
  }

  lemma {:induction false} DropGap(s: string, b: string)
    requires Gap(b) && (s == "" || !Space(s[|s| - 1]))
    ensures TrimRight(s + b) == s
    decreases |b|
  {
    if b == "" {
      assert s + b == s;
    } else {
      var init := b[..|b| - 1];
      assert (s + b)[..|s + b| - 1] == s + init;
      DropGap(s, init);
    }
  }

  /** The value between its gaps. */
  lemma {:induction false} ValueOf(before: string, value: string, after: string)
    requires Gap(before) && Gap(after) && value != "" && !Space(value[0]) && !Space(value[|value| - 1])
    ensures TrimRight(TrimLeft(before + value + after)) == value
  {
    assert before + value + after == before + (value + after);
    SkipGap(before, value + after);
    DropGap(value, after);
  }

  lemma {:induction false} NameWithout(name: string, word: string)
    requires SameText(name, word) && (word == "content-length" || word == "content-type")
    ensures name != "" && forall i :: 0 <= i < |name| ==> name[i] != ':'
  {
    forall i | 0 <= i < |name|
      ensures name[i] != ':'
    {
      assert SameLetter(name[i], word[i]);
      assert word[i] == '-' || 'a' <= word[i] <= 'z';
    }
  }

  // ---- one line -----------------------------------------------------------------------------------------

  lemma {:induction false} LineSplit(line: string, name: string, before: string, value: string, after: string)
    requires FieldLine(line, name, before, value, after) && name != "" && forall i :: 0 <= i < |name| ==> name[i] != ':'
    requires value != "" && !Space(value[0]) && !Space(value[|value| - 1])
    ensures ColonAt(line) == |name| && line[..|name|] == name && TrimRight(TrimLeft(line[|name| + 1..])) == value
  {
    ColonIs(line, |name|);
    ValueOf(before, value, after);
    assert line == name + ":" + (before + value + after);
    assert line[|name| + 1..] == before + value + after;
  }

  lemma {:induction false} LineJoin(line: string)
    requires var c := ColonAt(line); 0 < c < |line|
    ensures var c := ColonAt(line);
            var value := TrimRight(TrimLeft(line[c + 1..]));
            exists before, after :: FieldLine(line, line[..c], before, value, after)
  {
    hide TrimLeft, TrimRight, FieldLine;
    var c := ColonAt(line);
    var r := line[c + 1..];
    var t := TrimLeft(r);
    var v := TrimRight(t);
    TrimmedLeft(r);
    TrimmedRight(t);
    hide *;
    SplitAt(line, c);
    FieldJoin(line, line[..c], r, t, v);
  }

  lemma {:induction false} SplitAt(line: string, c: nat)
    requires c < |line| && line[c] == ':'
    ensures line == line[..c] + ":" + line[c + 1..]
  {
  }

  lemma {:induction false} FieldJoin(line: string, name: string, r: string, t: string, v: string)
    requires line == name + ":" + r && |t| <= |r| && r[|r| - |t|..] == t && Gap(r[..|r| - |t|])
    requires |v| <= |t| && v == t[..|v|] && Gap(t[|v|..])
    ensures FieldLine(line, name, r[..|r| - |t|], v, t[|v|..])
  {
    hide Gap;
    var before, after := r[..|r| - |t|], t[|v|..];
    assert t == v + after && r == before + t;
    assert line == name + ":" + before + v + after;
  }

  lemma {:induction false} Names()
    ensures forall i :: 0 <= i < |LENGTH_NAME| ==> !('A' <= LENGTH_NAME[i] <= 'Z')
    ensures forall i :: 0 <= i < |TYPE_NAME| ==> !('A' <= TYPE_NAME[i] <= 'Z')
    ensures LENGTH_NAME[8] == 'l' && TYPE_NAME[8] == 't'
  {
  }

  lemma {:induction false} Types()
    ensures forall i :: 0 <= i < |TYPE_UTF8| ==> !('A' <= TYPE_UTF8[i] <= 'Z')
    ensures forall i :: 0 <= i < |TYPE_PLAIN| ==> !('A' <= TYPE_PLAIN[i] <= 'Z')
  {
  }

  lemma {:induction false} DigitsOnly(s: string, cap: nat, acc: nat)
    requires ReadDigits(s, cap, acc).Length?
    ensures AllDigits(s)
    decreases |s|
  {
    if s != "" {
      DigitsOnly(s[1..], cap, acc * 10 + DigitValue(s[0]));
      assert s == [s[0]] + s[1..];
    }
  }

  /** A line that is accepted is a length line, or a type line, of the first kind met. */
  lemma {:induction false} LineFound(line: string, cap: nat, f: Fields)
    requires ReadLine(line, cap, f).Fine?
    ensures var g := ReadLine(line, cap, f).f;
            || (f.length.None? && g.length.Some? && g.typed == f.typed && LengthLine(line, cap, g.length.value))
            || (!f.typed && g.typed && g.length == f.length && TypeLine(line))
  {
    var c := ColonAt(line);
    var name, value := line[..c], TrimRight(TrimLeft(line[c + 1..]));
    LineJoin(line);
    var before, after :| FieldLine(line, name, before, value, after);
    Names();
    Types();
    SameExactly(name, LENGTH_NAME);
    SameExactly(name, TYPE_NAME);
    if EqualFold(name, LENGTH_NAME) {
      DigitsOnly(value, cap, 0);
      FrameLaws.LengthIsValue(value, cap);
    } else {
      SameExactly(value, TYPE_UTF8);
      SameExactly(value, TYPE_PLAIN);
    }
  }

  lemma {:induction false} LengthRead(line: string, cap: nat, n: nat, f: Fields)
    requires LengthLine(line, cap, n) && f.length.None?
    ensures ReadLine(line, cap, f) == Fine(f.(length := Some(n)))
  {
    var name, before, value, after :|
      && FieldLine(line, name, before, value, after) && SameText(name, LENGTH_NAME)
      && value != "" && AllDigits(value) && Value(value) == n && 1 <= n <= cap;
    NameWithout(name, LENGTH_NAME);
    LineSplit(line, name, before, value, after);
    Names();
    SameExactly(name, LENGTH_NAME);
    FrameLaws.LengthIsValue(value, cap);
  }

  lemma {:induction false} TypeEnds(value: string)
    requires SameText(value, TYPE_UTF8) || SameText(value, TYPE_PLAIN)
    ensures value != "" && !Space(value[0]) && !Space(value[|value| - 1])
  {
    assert TYPE_UTF8[0] == 'a' && TYPE_UTF8[|TYPE_UTF8| - 1] == '8' && TYPE_PLAIN[0] == 'a' && TYPE_PLAIN[|TYPE_PLAIN| - 1] == 'c';
  }

  lemma {:induction false} NamesDiffer(name: string)
    requires SameText(name, TYPE_NAME)
    ensures !EqualFold(name, LENGTH_NAME)
  {
    assert |TYPE_NAME| == 12 && |LENGTH_NAME| == 14;
  }

  lemma {:induction false} TypeRead(line: string, cap: nat, f: Fields)
    requires TypeLine(line) && !f.typed
    ensures ReadLine(line, cap, f) == Fine(f.(typed := true))
  {
    var name, before, value, after :|
      && FieldLine(line, name, before, value, after) && SameText(name, TYPE_NAME)
      && (SameText(value, TYPE_UTF8) || SameText(value, TYPE_PLAIN));
    NameWithout(name, TYPE_NAME);
    TypeEnds(value);
    LineSplit(line, name, before, value, after);
    Names();
    Types();
    NamesDiffer(name);
    SameExactly(name, TYPE_NAME);
    SameExactly(value, TYPE_UTF8);
    SameExactly(value, TYPE_PLAIN);
  }

  // ---- the lines of a header ----------------------------------------------------------------------------

  /** No byte of a header line ends it or is refused. */
  predicate Plain(s: string) { forall i :: 0 <= i < |s| ==> s[i] != '\r' && s[i] != '\n' && !BadByte(s[i]) }

  lemma {:induction false} PlainJoin(a: string, b: string)
    requires Plain(a) && Plain(b)
    ensures Plain(a + b)
  {
  }

  lemma {:induction false} GapPlain(s: string)
    requires Gap(s)
    ensures Plain(s)
  {
  }

  lemma {:induction false} SamePlain(s: string, word: string)
    requires SameText(s, word) && Plain(word)
    ensures Plain(s)
  {
    forall i | 0 <= i < |s|
      ensures s[i] != '\r' && s[i] != '\n' && !BadByte(s[i])
    {
      assert SameLetter(s[i], word[i]);
    }
  }

  lemma {:induction false} WordsPlain()
    ensures Plain(LENGTH_NAME) && Plain(TYPE_NAME) && Plain(TYPE_UTF8) && Plain(TYPE_PLAIN) && Plain(":")
  {
  }

  lemma {:induction false} FieldPlain(line: string, name: string, before: string, value: string, after: string)
    requires FieldLine(line, name, before, value, after) && Plain(name) && Plain(value)
    ensures Plain(line) && line != ""
  {
    WordsPlain();
    GapPlain(before);
    GapPlain(after);
    hide Plain, Gap;
    PlainJoin(name, ":");
    PlainJoin(name + ":", before);
    PlainJoin(name + ":" + before, value);
    PlainJoin(name + ":" + before + value, after);
  }

  lemma {:induction false} LengthPlain(line: string, cap: nat, n: nat)
    requires LengthLine(line, cap, n)
    ensures Plain(line) && line != ""
  {
    hide FieldLine, SameText;
    var name, before, value, after :|
      && FieldLine(line, name, before, value, after) && SameText(name, LENGTH_NAME)
      && value != "" && AllDigits(value) && Value(value) == n && 1 <= n <= cap;
    WordsPlain();
    SamePlain(name, LENGTH_NAME);
    assert Plain(value);
    hide Plain;
    FieldPlain(line, name, before, value, after);
  }

  lemma {:induction false} TypePlain(line: string)
    requires TypeLine(line)
    ensures Plain(line) && line != ""
  {
    hide FieldLine, SameText, Plain;
    var name, before, value, after :|
      && FieldLine(line, name, before, value, after) && SameText(name, TYPE_NAME)
      && (SameText(value, TYPE_UTF8) || SameText(value, TYPE_PLAIN));
    WordsPlain();
    SamePlain(name, TYPE_NAME);
    if SameText(value, TYPE_UTF8) {
      SamePlain(value, TYPE_UTF8);
    } else {
      SamePlain(value, TYPE_PLAIN);
    }
    FieldPlain(line, name, before, value, after);
  }

  // ---- reading a header that is one -----------------------------------------------------------------------

  /** The end of a line that a break follows. */
  lemma {:induction false} LineEnds(h: string, at: nat, line: string)
    requires at + |line| + 2 <= |h| && Plain(line) && h[at..at + |line|] == line
    requires h[at + |line|] == '\r' && h[at + |line| + 1] == '\n'
    ensures LineEnd(h, at) == at + |line|
  {
    forall i | at <= i < at + |line|
      ensures h[i] != '\r'
    {
      assert h[i] == h[at..at + |line|][i - at];
    }
    EndIs(h, at, at + |line|);
  }

  lemma {:induction false} EndIs(h: string, at: nat, end: nat)
    requires at <= end && end + 1 < |h| && h[end] == '\r' && h[end + 1] == '\n' && forall i :: at <= i < end ==> h[i] != '\r'
    ensures LineEnd(h, at) == end
    decreases end - at
  {
    if at < end {
      EndIs(h, at + 1, end);
    }
  }

  lemma {:induction false} OneRead(h: string, a: string, cap: nat, f: Fields, g: Fields)
    requires h == a + BREAK + BREAK && Plain(a) && a != "" && ReadLine(a, cap, f) == Fine(g)
    ensures ReadLines(h, 0, cap, f) == Fine(g)
  {
    hide ReadLine, Plain, LineEnd;
    assert h[0..|a|] == a && h[|a|] == '\r' && h[|a| + 1] == '\n';
    LineEnds(h, 0, a);
  }

  lemma {:induction false} TwoRead(h: string, a: string, b: string, cap: nat, f: Fields, m: Fields, g: Fields)
    requires h == a + BREAK + b + BREAK + BREAK && Plain(a) && a != "" && Plain(b) && b != ""
    requires ReadLine(a, cap, f) == Fine(m) && ReadLine(b, cap, m) == Fine(g)
    ensures ReadLines(h, 0, cap, f) == Fine(g)
  {
    hide ReadLine, Plain, LineEnd;
    var at := |a| + 2;
    assert h[0..|a|] == a && h[|a|] == '\r' && h[|a| + 1] == '\n';
    LineEnds(h, 0, a);
    assert h[at..at + |b|] == b && h[at + |b|] == '\r' && h[at + |b| + 1] == '\n';
    LineEnds(h, at, b);
    LastLine(h, at, cap, m);
    FirstLine(h, cap, f, at);
  }

  lemma {:induction false} FirstLine(h: string, cap: nat, f: Fields, at: nat)
    requires 2 < |h| && LineEnd(h, 0) + 2 == at <= |h| && ReadLine(h[0..LineEnd(h, 0)], cap, f).Fine?
    ensures ReadLines(h, 0, cap, f) == ReadLines(h, at, cap, ReadLine(h[0..LineEnd(h, 0)], cap, f).f)
  {
    hide ReadLine, LineEnd;
  }

  lemma {:induction false} LastLine(h: string, at: nat, cap: nat, f: Fields)
    requires at + 2 < |h| && LineEnd(h, at) + 4 == |h| && ReadLine(h[at..LineEnd(h, at)], cap, f).Fine?
    ensures ReadLines(h, at, cap, f) == ReadLine(h[at..LineEnd(h, at)], cap, f)
  {
    hide ReadLine, LineEnd;
    assert ReadLines(h, LineEnd(h, at) + 2, cap, ReadLine(h[at..LineEnd(h, at)], cap, f).f)
        == Fine(ReadLine(h[at..LineEnd(h, at)], cap, f).f);
  }

  const NONE := Fields(None, false)

  lemma {:induction false} HeaderRead(h: string, cap: nat, n: nat)
    requires IsHeader(h, cap, n)
    ensures exists f: Fields :: f.length == Some(n) && ReadLines(h, 0, cap, NONE) == Fine(f)
  {
    hide LengthLine, TypeLine, ReadLines, ReadLine, Plain;
    if a :| LengthLine(a, cap, n) && h == a + BREAK + BREAK {
      LengthRead(a, cap, n, NONE);
      LengthPlain(a, cap, n);
      OneRead(h, a, cap, NONE, Fields(Some(n), false));
    } else {
      var a, b :| LengthLine(a, cap, n) && TypeLine(b) && (h == a + BREAK + b + BREAK + BREAK || h == b + BREAK + a + BREAK + BREAK);
      LengthPlain(a, cap, n);
      TypePlain(b);
      LengthRead(a, cap, n, NONE);
      TypeRead(b, cap, Fields(Some(n), false));
      TypeRead(b, cap, NONE);
      LengthRead(a, cap, n, Fields(None, true));
      var f := Fields(Some(n), true);
      if h == a + BREAK + b + BREAK + BREAK {
        TwoRead(h, a, b, cap, NONE, Fields(Some(n), false), f);
      } else {
        TwoRead(h, b, a, cap, NONE, Fields(None, true), f);
      }
    }
  }

  // ---- a header that was read ---------------------------------------------------------------------------------

  lemma {:induction false} EndBefore(h: string, at: nat, p: nat)
    requires at <= p && p + 1 < |h| && h[p] == '\r' && h[p + 1] == '\n'
    ensures var e := LineEnd(h, at); at <= e <= p && h[e] == '\r' && h[e + 1] == '\n'
  {
  }

  /** One more line was read: where it ends, and what it is. */
  lemma {:induction false} LineTaken(h: string, at: nat, cap: nat, f: Fields) returns (line: string, next: nat, g: Fields)
    requires at + 4 <= |h| && h[|h| - 4] == '\r' && h[|h| - 3] == '\n' && h[|h| - 2] == '\r' && h[|h| - 1] == '\n'
    requires ReadLines(h, at, cap, f).Fine?
    ensures at + |line| + 2 == next <= |h| && h[at..next] == line + BREAK && (next == |h| - 2 || next + 4 <= |h|)
    ensures ReadLine(line, cap, f) == Fine(g) && ReadLines(h, next, cap, g) == ReadLines(h, at, cap, f)
  {
    hide ReadLine, LineEnd;
    EndBefore(h, at, |h| - 4);
    var end := LineEnd(h, at);
    line, next := h[at..end], end + 2;
    g := ReadLine(line, cap, f).f;
    assert h[at..next] == line + [h[end]] + [h[end + 1]];
  }

  lemma {:induction false} HeaderFound(h: string, cap: nat, f: Fields, n: nat)
    requires |h| >= 4 && h[|h| - 4] == '\r' && h[|h| - 3] == '\n' && h[|h| - 2] == '\r' && h[|h| - 1] == '\n'
    requires ReadLines(h, 0, cap, NONE) == Fine(f) && f.length == Some(n)
    ensures IsHeader(h, cap, n)
  {
    hide ReadLine, ReadLines, LineEnd, LengthLine, TypeLine, IsHeader;
    var a, at, m := LineTaken(h, 0, cap, NONE);
    LineFound(a, cap, NONE);
    Rejoined(h, at, at);
    if at == |h| - 2 {
      NoMore(h, at, cap, m);
      OnePut(h, a, cap, n);
    } else {
      var b, next, g := LineTaken(h, at, cap, m);
      LineFound(b, cap, m);
      if next + 4 <= |h| {
        var c, _, k := LineTaken(h, next, cap, g);
        LineFound(c, cap, g);
      } else {
        NoMore(h, next, cap, g);
        Rejoined(h, at, next);
        TwoPut(h, a, b, cap, n);
      }
    }
  }

  lemma {:induction false} Rejoined(h: string, at: nat, next: nat)
    requires at <= next <= |h| && |h| >= 4 && h[|h| - 2] == '\r' && h[|h| - 1] == '\n'
    ensures next == |h| - 2 ==> h == h[0..at] + h[at..next] + BREAK && (at == next ==> h == h[0..at] + BREAK)
  {
    if next == |h| - 2 {
      assert h == h[0..next] + [h[|h| - 2]] + [h[|h| - 1]];
      assert h[0..next] == h[0..at] + h[at..next];
    }
  }

  lemma {:induction false} NoMore(h: string, at: nat, cap: nat, f: Fields)
    requires at <= |h| && at + 2 >= |h|
    ensures ReadLines(h, at, cap, f) == Fine(f)
  {
  }

  lemma {:induction false} OnePut(h: string, a: string, cap: nat, n: nat)
    requires h == a + BREAK + BREAK && LengthLine(a, cap, n)
    ensures IsHeader(h, cap, n)
  {
    hide LengthLine, TypeLine;
  }

  lemma {:induction false} TwoPut(h: string, a: string, b: string, cap: nat, n: nat)
    requires h == (a + BREAK) + (b + BREAK) + BREAK && ((LengthLine(a, cap, n) && TypeLine(b)) || (TypeLine(a) && LengthLine(b, cap, n)))
    ensures IsHeader(h, cap, n)
  {
    hide LengthLine, TypeLine;
    assert h == a + BREAK + b + BREAK + BREAK;
  }

  // ---- where a header ends -----------------------------------------------------------------------------------

  predicate Good(h: string) { forall k :: 0 <= k < |h| ==> !BadByte(h[k]) }

  /** Nothing but the last four bytes closes the header. */
  predicate ClosesOnce(h: string) {
    |h| >= 4 && forall k :: 3 <= k < |h| ==> (FrameLaws.ClosesAt(h, k) <==> k == |h| - 1)
  }

  lemma {:induction false} FourBytes(h: string, k: nat)
    requires 3 <= k < |h|
    ensures FrameLaws.ClosesAt(h, k) <==> h[k - 3] == '\r' && h[k - 2] == '\n' && h[k - 1] == '\r' && h[k] == '\n'
  {
    assert h[k - 3..k + 1] == [h[k - 3], h[k - 2], h[k - 1], h[k]];
  }

  lemma {:induction false} OneCloses(h: string, a: string)
    requires Plain(a) && a != "" && h == a + BREAK + BREAK
    ensures Good(h) && ClosesOnce(h)
  {
    var n := |a|;
    assert h[n] == '\r' && h[n + 1] == '\n' && h[n + 2] == '\r' && h[n + 3] == '\n' && forall i :: 0 <= i < n ==> h[i] == a[i];
    forall k | 3 <= k < |h|
      ensures FrameLaws.ClosesAt(h, k) <==> k == |h| - 1
    {
      FourBytes(h, k);
    }
  }

  lemma {:induction false} TwoCloses(h: string, a: string, b: string)
    requires Plain(a) && a != "" && Plain(b) && b != "" && h == a + BREAK + b + BREAK + BREAK
    ensures Good(h) && ClosesOnce(h)
  {
    var n, m := |a|, |a| + 2 + |b|;
    assert h[n] == '\r' && h[n + 1] == '\n' && h[m] == '\r' && h[m + 1] == '\n' && h[m + 2] == '\r' && h[m + 3] == '\n';
    assert forall i :: 0 <= i < n ==> h[i] == a[i];
    assert forall i :: n + 2 <= i < m ==> h[i] == b[i - n - 2];
    forall k | 3 <= k < |h|
      ensures FrameLaws.ClosesAt(h, k) <==> k == |h| - 1
    {
      FourBytes(h, k);
    }
  }

  lemma {:induction false} HeaderCloses(h: string, cap: nat, n: nat)
    requires IsHeader(h, cap, n)
    ensures Good(h) && ClosesOnce(h)
  {
    hide LengthLine, TypeLine, Good, ClosesOnce, Plain;
    if a :| LengthLine(a, cap, n) && h == a + BREAK + BREAK {
      LengthPlain(a, cap, n);
      OneCloses(h, a);
    } else {
      var a, b :| LengthLine(a, cap, n) && TypeLine(b) && (h == a + BREAK + b + BREAK + BREAK || h == b + BREAK + a + BREAK + BREAK);
      LengthPlain(a, cap, n);
      TypePlain(b);
      if h == a + BREAK + b + BREAK + BREAK {
        TwoCloses(h, a, b);
      } else {
        TwoCloses(h, b, a);
      }
    }
  }

  lemma {:induction false} HeaderScanned(s: string, k: nat, cap: nat, n: nat)
    requires k <= |s| && k <= 8192 && IsHeader(s[..k], cap, n)
    ensures ScanFrom(s, 0) == End(k)
  {
    HeaderCloses(s[..k], cap, n);
    hide IsHeader, BadByte;
    FrameLaws.ScanToClose(s[..k], s[k..], 0);
    assert s[..k] + s[k..] == s;
  }

  lemma {:induction false} ScanWithin(s: string, i: nat)
    requires i <= |s| && ScanFrom(s, i).End?
    ensures ScanFrom(s, i).n <= 8192
    decreases |s| - i
  {
    if !(i < |s| && Blank4(s, i)) {
      ScanWithin(s, i + 1);
    }
  }

  // ---- the law -------------------------------------------------------------------------------------------------

  lemma {:induction false} HeaderOf(s: string, cap: nat) returns (k: nat, f: Fields)
    requires match Take(s, cap) case Frame(_, _, _) => true case Busy => ScanFrom(s, 0).End? case _ => false
    ensures k <= |s| && k <= 8192 && f.length.Some? && IsHeader(s[..k], cap, f.length.value) && Take(s, cap) == TakeBody(s, k, f)
  {
    hide ReadLines, Upto, IsHeader;
    k := ScanFrom(s, 0).n;
    f := ReadLines(s[..k], 0, cap, NONE).f;
    ScanWithin(s, 0);
    assert s[k - 4..k] == BREAK + BREAK;
    hide ScanFrom, Take;
    LastFour(s, k);
    HeaderFound(s[..k], cap, f, f.length.value);
  }

  lemma {:induction false} LastFour(s: string, k: nat)
    requires 4 <= k <= |s| && s[k - 4..k] == BREAK + BREAK
    ensures var h := s[..k]; |h| == k && h[k - 4] == '\r' && h[k - 3] == '\n' && h[k - 2] == '\r' && h[k - 1] == '\n'
  {
    var t := s[k - 4..k];
    assert s[k - 4] == t[0] && s[k - 3] == t[1] && s[k - 2] == t[2] && s[k - 1] == t[3];
  }

  lemma {:induction false} HeaderTakes(s: string, k: nat, cap: nat, n: nat)
    requires k <= |s| && k <= 8192 && IsHeader(s[..k], cap, n)
    ensures Take(s, cap) == if k + n > |s| then Busy else Frame(Upto(s[k..k + n]), n, s[k + n..])
  {
    hide *;
    HeaderScanned(s, k, cap, n);
    HeaderRead(s[..k], cap, n);
    var f: Fields :| f.length == Some(n) && ReadLines(s[..k], 0, cap, NONE) == Fine(f);
    ReadTakes(s, k, cap, f);
  }

  lemma {:induction false} ReadTakes(s: string, k: nat, cap: nat, f: Fields)
    requires k <= |s| && ScanFrom(s, 0) == End(k) && ReadLines(s[..k], 0, cap, NONE) == Fine(f) && f.length.Some?
    ensures var n := f.length.value; Take(s, cap) == if k + n > |s| then Busy else Frame(Upto(s[k..k + n]), n, s[k + n..])
  {
    hide ReadLines, Upto, ScanFrom;
  }

  /** A message is taken from the pending bytes exactly when they start with a header of at
      most 8192 bytes and as many bytes as it announces; its text ends at the first NUL. */
  lemma {:induction false} FrameExactly(s: string, cap: nat, text: string, n: nat, rest: string)
    ensures Take(s, cap) == Frame(text, n, rest)
       <==> exists k: nat :: k <= 8192 && k + n <= |s| && IsHeader(s[..k], cap, n) && text == Upto(s[k..k + n]) && rest == s[k + n..]
  {
    hide Take, Upto, IsHeader;
    if Take(s, cap) == Frame(text, n, rest) {
      var k, f := HeaderOf(s, cap);
      assert n == f.length.value;
    }
    if k: nat :| k <= 8192 && k + n <= |s| && IsHeader(s[..k], cap, n) && text == Upto(s[k..k + n]) && rest == s[k + n..] {
      HeaderTakes(s, k, cap, n);
    }
  }

  lemma {:induction false} ScanOpen(s: string, i: nat)
    requires i <= |s| < 8192
    ensures ScanFrom(s, i).Open?
       <==> (forall k :: i <= k < |s| ==> !BadByte(s[k])) && forall k :: i <= k < |s| && k >= 3 ==> !FrameLaws.ClosesAt(s, k)
    decreases |s| - i
  {
    hide BadByte;
    if i < |s| {
      ScanOpen(s, i + 1);
      assert i >= 3 ==> (Blank4(s, i) <==> FrameLaws.ClosesAt(s, i));
    }
  }

  /** More bytes are waited for exactly when no header ends in them, and none of them is
      refused, or a header announces more than there is. */
  lemma {:induction false} BusyExactly(s: string, cap: nat)
    ensures Take(s, cap).Busy?
       <==> || (|s| < 8192 && Good(s) && forall k :: 3 <= k < |s| ==> !FrameLaws.ClosesAt(s, k))
            || (exists k: nat, n: nat :: k <= |s| && k <= 8192 && IsHeader(s[..k], cap, n) && k + n > |s|)
  {
    if |s| < 8192 {
      ScanOpen(s, 0);
    }
    if Take(s, cap).Busy? && ScanFrom(s, 0).End? {
      var k, f := HeaderOf(s, cap);
    }
    hide ReadLines, IsHeader;
    if k: nat, n: nat :| k <= |s| && k <= 8192 && IsHeader(s[..k], cap, n) && k + n > |s| {
      HeaderTakes(s, k, cap, n);
    }
  }
}
