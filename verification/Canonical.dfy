/** Canonicalization (src/path.c, POSIX branches): lexical cleanup, the kernel's
    answer, and the climb to the deepest ancestor that exists. */
module Canonical {
  import opened Paths

  // ---- path_squeeze ----------------------------------------------------------------------

  predicate EndsWithSlash(s: string) { s != "" && s[|s| - 1] == '/' }

  lemma {:induction false} Written(s: string, w: nat, c: char)
    requires w < |s|
    ensures s[w := c][..w + 1] == s[..w] + [c]
  {
  }

  /** Appending t to d, skipping a slash that would follow a slash. */
  function CollapseOnto(d: string, t: string): (r: string)
    ensures d <= r && |r| <= |d| + |t|
  {
    if t == "" then d
    else
      var r := CollapseOnto(d, t[..|t| - 1]);
      if t[|t| - 1] == '/' && EndsWithSlash(r) then r else r + [t[|t| - 1]]
  }

  /** Exactly two leading slashes are kept. */
  predicate DoubleHead(s: string) { |s| >= 2 && s[..2] == "//" && (|s| == 2 || s[2] != '/') }

  function Collapse(s: string): (r: string)
    ensures |r| <= |s|
  {
    if DoubleHead(s) then CollapseOnto("//", s[2..]) else CollapseOnto("", s)
  }

  function DropSlash(s: string): string { if |s| > 1 && EndsWithSlash(s) then s[..|s| - 1] else s }

  function Squeeze(s: string): string { DropSlash(Collapse(s)) }

  /** path_squeeze: the first len characters of the buffer are the result. */
  method SqueezeInPlace(s: array<char>) returns (len: nat)
    modifies s
    ensures len <= s.Length && s[..len] == Squeeze(old(s[..]))
  {
    ghost var text := s[..];
    var head := 0;
    if s.Length >= 2 && s[0] == '/' && s[1] == '/' && (s.Length == 2 || s[2] != '/') {
      head := 2;
    }
    CollapseCut(text, head);
    hide Collapse;
    var w := CollapseInPlace(s, head);
    if w > 1 && s[w - 1] == '/' {
      assert s[..w - 1] == s[..w][..w - 1];
      w := w - 1;
    }
    return w;
  }

  lemma {:induction false} CollapseCut(s: string, head: nat)
    requires head == if DoubleHead(s) then 2 else 0
    ensures Collapse(s) == CollapseOnto(s[..head], s[head..])
  {
    assert s[0..] == s;
  }

  /** The copying loop of path_squeeze, from the cursor head on. */
  method CollapseInPlace(s: array<char>, head: nat) returns (w: nat)
    requires head <= s.Length
    modifies s
    ensures w <= s.Length && s[..w] == CollapseOnto(old(s[..head]), old(s[head..]))
  {
    ghost var text := s[..];
    ghost var start := s[..head];
    w := head;
    var r := head;
    hide CollapseOnto;
    CollapseNone(start);
    assert text[head..r] == "" && text[..head] == start;
    while r < s.Length
      invariant head <= r <= s.Length && w <= r
      invariant s[..w] == CollapseOnto(start, text[head..r])
      invariant forall k :: r <= k < s.Length ==> s[k] == text[k]
    {
      CollapseMore(text, head, r);
      if s[r] == '/' && w > 0 && s[w - 1] == '/' {
        r := r + 1;
        continue;
      }
      ghost var before := s[..];
      s[w] := s[r];
      assert s[..] == before[w := text[r]];
      Written(before, w, text[r]);
      w, r := w + 1, r + 1;
    }
    assert text[head..r] == text[head..] == old(s[head..]);
  }

  lemma {:induction false} CollapseNone(d: string)
    ensures CollapseOnto(d, "") == d
  {
  }

  lemma {:induction false} CollapseMore(s: string, head: nat, r: nat)
    requires head <= r < |s|
    ensures var d := CollapseOnto(s[..head], s[head..r]);
            CollapseOnto(s[..head], s[head..r + 1]) == if s[r] == '/' && EndsWithSlash(d) then d else d + [s[r]]
  {
    assert s[head..r + 1][..r - head] == s[head..r];
  }

  // ---- what squeezing means ------------------------------------------------------------------

  /** Where the last slash stands, or |s|. */
  function LastSlash(s: string): (k: nat)
    ensures k <= |s| && (k < |s| ==> s[k] == '/')
    ensures forall j :: k < j < |s| ==> s[j] != '/'
    ensures k == |s| ==> '/' !in s
  {
    if s == "" then 0
    else if s[|s| - 1] == '/' then |s| - 1
    else
      var k := LastSlash(s[..|s| - 1]);
      if k == |s| - 1 then |s| else k
  }

  lemma {:induction false} LastSlashIs(a: string, b: string)
    requires '/' !in b
    ensures LastSlash(a + "/" + b) == |a|
  {
    var s := a + "/" + b;
    assert s[|a|] == '/';
    assert forall j :: |a| < j < |s| ==> s[j] == b[j - |a| - 1];
  }

  /** The components of a path, empty ones included. */
  function Split(s: string): (r: seq<string>)
    ensures r != []
  {
    var k := LastSlash(s);
    if k == |s| then [s] else Split(s[..k]) + [s[k + 1..]]
  }

  /** The components that are not empty. */
  function Named(parts: seq<string>): seq<string> {
    if parts == [] then []
    else if parts[|parts| - 1] == "" then Named(parts[..|parts| - 1])
    else Named(parts[..|parts| - 1]) + [parts[|parts| - 1]]
  }

  lemma {:induction false} SplitSlash(s: string)
    ensures Split(s + "/") == Split(s) + [""]
  {
    LastSlashIs(s, "");
    assert s + "/" + "" == s + "/";
    assert (s + "/")[..|s|] == s;
  }

  lemma {:induction false} SplitLetter(s: string, c: char)
    requires c != '/'
    ensures Split(s + [c]) == Split(s)[..|Split(s)| - 1] + [Split(s)[|Split(s)| - 1] + [c]]
  {
    var k := LastSlash(s);
    if k == |s| {
      assert '/' !in s + [c];
    } else {
      assert s == s[..k] + "/" + s[k + 1..];
      assert s + [c] == s[..k] + "/" + (s[k + 1..] + [c]);
      LastSlashIs(s[..k], s[k + 1..] + [c]);
      assert (s + [c])[..k] == s[..k] && (s + [c])[k + 1..] == s[k + 1..] + [c];
    }
  }

  /** Two texts name the same components so far: the finished ones and the one being read. */
  ghost predicate SameNames(s: string, t: string) {
    var a, b := Split(s), Split(t);
    Named(a[..|a| - 1]) == Named(b[..|b| - 1]) && a[|a| - 1] == b[|b| - 1]
  }

  lemma {:induction false} NamedSnoc(parts: seq<string>, p: string)
    ensures Named(parts + [p]) == if p == "" then Named(parts) else Named(parts) + [p]
  {
    assert (parts + [p])[..|parts|] == parts;
  }

  lemma {:induction false} SameNamesMeans(s: string, t: string)
    requires SameNames(s, t)
    ensures Named(Split(s)) == Named(Split(t))
  {
    var a, b := Split(s), Split(t);
    assert a == a[..|a| - 1] + [a[|a| - 1]] && b == b[..|b| - 1] + [b[|b| - 1]];
  }

  lemma {:induction false} SameNamesMore(s: string, t: string, c: char)
    requires SameNames(s, t)
    ensures SameNames(s + [c], t + [c])
    ensures c == '/' && EndsWithSlash(s) ==> SameNames(s, t + [c])
  {
    hide Split, Named;
    if c == '/' {
      SameNamesMeans(s, t);
      SplitSlash(s);
      SplitSlash(t);
      assert (Split(s) + [""])[..|Split(s)|] == Split(s) && (Split(t) + [""])[..|Split(t)|] == Split(t);
      if EndsWithSlash(s) {
        FinishedNames(s);
      }
    } else {
      SplitLetter(s, c);
      SplitLetter(t, c);
    }
  }

  lemma {:induction false} FinishedNames(s: string)
    requires EndsWithSlash(s)
    ensures var a := Split(s); a[|a| - 1] == "" && Named(a[..|a| - 1]) == Named(a)
  {
    var a, n := Split(s), |s| - 1;
    assert s == s[..n] + "/";
    SplitSlash(s[..n]);
    NamedSnoc(a[..|a| - 1], "");
    assert a == a[..|a| - 1] + [""];
  }

  lemma {:induction false} CollapseNames(d: string, t: string)
    ensures SameNames(CollapseOnto(d, t), d + t)
  {
    if t == "" {
      assert d + t == d;
    } else {
      var n := |t| - 1;
      CollapseNames(d, t[..n]);
      SameNamesMore(CollapseOnto(d, t[..n]), d + t[..n], t[n]);
      assert d + t == d + t[..n] + [t[n]];
    }
  }

  /** Squeezing changes neither what the path is relative to nor which components it names. */
  lemma {:induction false} SqueezeKeeps(s: string)
    ensures Absolute(Squeeze(s)) == Absolute(s)
    ensures Named(Split(Squeeze(s))) == Named(Split(s))
  {
    CollapseHead(s);
    CollapseKeeps(s);
    hide Collapse, Split, Named;
    DropKeeps(Collapse(s));
  }

  lemma {:induction false} CollapseKeeps(s: string)
    ensures Named(Split(Collapse(s))) == Named(Split(s))
  {
    var head := if DoubleHead(s) then 2 else 0;
    CollapseCut(s, head);
    CollapseNames(s[..head], s[head..]);
    assert s == s[..head] + s[head..];
    SameNamesMeans(Collapse(s), s);
  }

  lemma {:induction false} DropKeeps(d: string)
    ensures Absolute(DropSlash(d)) == Absolute(d) && Named(Split(DropSlash(d))) == Named(Split(d))
  {
    hide Split, Named;
    if |d| > 1 && EndsWithSlash(d) {
      var n := |d| - 1;
      assert d == d[..n] + "/";
      SplitSlash(d[..n]);
      NamedSnoc(Split(d[..n]), "");
    }
  }

  lemma {:induction false} CollapseHead(s: string)
    ensures (Collapse(s) == "") == (s == "") && (s != "" ==> Collapse(s)[0] == s[0])
  {
    if s != "" && !DoubleHead(s) {
      FirstKept(s);
    }
  }

  lemma {:induction false} FirstKept(s: string)
    requires s != ""
    ensures CollapseOnto("", s) != "" && CollapseOnto("", s)[0] == s[0]
  {
    if |s| == 1 {
      assert CollapseOnto("", s[..0]) == "";
    } else {
      FirstKept(s[..|s| - 1]);
    }
  }

  /** Apart from two leading slashes, no slash follows another, and none trails. */
  predicate Squeezed(s: string) {
    && (|s| > 1 ==> s[|s| - 1] != '/')
    && Single(s, 1)
  }

  /** No slash follows another from position from on. */
  predicate Single(s: string, from: nat) { forall i :: from <= i < |s| - 1 ==> s[i] != '/' || s[i + 1] != '/' }

  lemma {:induction false} CollapseSingle(d: string, t: string, from: nat)
    requires Single(d, from)
    ensures Single(CollapseOnto(d, t), from)
  {
    if t != "" {
      CollapseSingle(d, t[..|t| - 1], from);
    }
  }

  lemma {:induction false} SqueezeSqueezed(s: string)
    ensures Squeezed(Squeeze(s))
  {
    var d := Collapse(s);
    if DoubleHead(s) {
      CollapseSingle("//", s[2..], 1);
    } else {
      CollapseSingle("", s, 1);
    }
    if |d| > 2 {
      var k := |d| - 2;
      assert d[k + 1] == '/' ==> d[k] != '/';
    }
  }

  lemma {:induction false} CollapseFixed(d: string, t: string)
    requires Single(t, 0)
    requires t != "" ==> !(t[0] == '/' && EndsWithSlash(d))
    ensures CollapseOnto(d, t) == d + t
  {
    if t == "" {
      assert d + t == d;
    } else {
      var n := |t| - 1;
      CollapseFixed(d, t[..n]);
      assert d + t == d + t[..n] + [t[n]];
    }
  }

  /** A squeezed path is left alone, so squeezing twice is squeezing once. */
  lemma {:induction false} SqueezeFixed(s: string)
    requires Squeezed(s)
    ensures Squeeze(s) == s
  {
    if DoubleHead(s) {
      assert Single(s[2..], 0) by {
        assert forall k :: 0 <= k < |s| - 2 ==> s[2..][k] == s[k + 2];
      }
      CollapseFixed("//", s[2..]);
      assert s == "//" + s[2..];
    } else {
      CollapseFixed("", s);
    }
  }

  lemma {:induction false} SqueezeTwice(s: string)
    ensures Squeeze(Squeeze(s)) == Squeeze(s)
  {
    SqueezeSqueezed(s);
    SqueezeFixed(Squeeze(s));
  }

  // ---- strip_last --------------------------------------------------------------------------------

  /** comp_rejected */
  predicate Rejected(comp: string) { comp == "" || comp == "." || comp == ".." }

  predicate Plain(comp: string) { !Rejected(comp) && '/' !in comp }

  datatype Failure = InvalidPath | MissingPath | IoError

  datatype Stripped = Stripped(rest: string, comp: string) | Stuck(error: Failure)

  function StripLast(work: string): (r: Stripped)
    ensures r.Stripped? ==> |r.rest| < |work| && Plain(r.comp)
  {
    if work == "" || work == "/" then Stuck(IoError)
    else
      var k := LastSlash(work);
      var comp := if k == |work| then work else work[k + 1..];
      if Rejected(comp) then Stuck(InvalidPath)
      else if k == |work| then Stripped("", comp)
      else if k == 0 then Stripped("/", comp)
      else Stripped(work[..k], comp)
  }

  // ---- astools_path_canonical ----------------------------------------------------------------------

  /** os_realpath: ENOENT and ENOTDIR are both Missing. */
  datatype Kernel = Real(path: string) | Missing | Fault(error: Failure)

  type Resolver = string -> Kernel

  datatype Canonized = Canon(path: string) | Refused(error: Failure)

  function JoinOne(p: string, comp: string): string { if EndsWithSlash(p) then p + comp else p + "/" + comp }

  /** The missing components re-appended, the deepest (first) one last. */
  function Join(p: string, tail: seq<string>): string
    decreases |tail|
  {
    if tail == [] then p else Join(JoinOne(p, tail[|tail| - 1]), tail[..|tail| - 1])
  }

  function Climb(fs: Resolver, work: string, tail: seq<string>): Canonized
    decreases |work|
  {
    match StripLast(work)
    case Stuck(e) => Refused(e)
    case Stripped(rest, comp) =>
      if rest == "" then Refused(IoError)
      else
        match fs(rest)
        case Fault(e) => Refused(e)
        case Missing => Climb(fs, rest, tail + [comp])
        case Real(c) => if c == "" then Refused(IoError) else Canon(Join(c, tail + [comp]))
  }

  /** os_path_join of the workspace and a relative path. */
  function PathJoin(a: string, b: string): string {
    if a == "" then b
    else if b == "" then a
    else if a[|a| - 1] != '/' && a[|a| - 1] != '\\' then a + "/" + b
    else a + b
  }

  function Work(workspace: string, path: string): string {
    Squeeze(if Absolute(path) then path else PathJoin(workspace, path))
  }

  function Canonicalize(fs: Resolver, workspace: string, path: string, missingOk: bool): Canonized {
    if path == "" then Refused(InvalidPath)
    else
      var work := Work(workspace, path);
      if work == "" then Refused(InvalidPath)
      else
        match fs(work)
        case Real(c) => if c == "" then Refused(IoError) else Canon(c)
        case Fault(e) => Refused(e)
        case Missing => if missingOk then Climb(fs, work, []) else Refused(MissingPath)
  }

  method FindCanonical(fs: Resolver, workspace: string, path: string, missingOk: bool) returns (r: Canonized)
    ensures r == Canonicalize(fs, workspace, path, missingOk)
  {
    if path == "" {
      return Refused(InvalidPath);
    }
    var work := Work(workspace, path);
    if work == "" {
      return Refused(InvalidPath);
    }
    match fs(work)
    case Real(c) => return if c == "" then Refused(IoError) else Canon(c);
    case Fault(e) => return Refused(e);
    case Missing =>
      if !missingOk {
        return Refused(MissingPath);
      }
    ghost var goal := Climb(fs, work, []);
    var tail := [];
    while true
      invariant Climb(fs, work, tail) == goal
      decreases |work|
    {
      match StripLast(work)
      case Stuck(e) => return Refused(e);
      case Stripped(rest, comp) =>
        if rest == "" {
          return Refused(IoError);
        }
        match fs(rest)
        case Fault(e) => return Refused(e);
        case Real(c) => return if c == "" then Refused(IoError) else Canon(Join(c, tail + [comp]));
        case Missing => work, tail := rest, tail + [comp];
    }
  }

  // ---- what is climbed over ----------------------------------------------------------------------------

  /** Climbing from work to the ancestor top strips these components, deepest first,
      and finds nothing on the way. */
  ghost predicate Over(fs: Resolver, work: string, tail: seq<string>, top: string)
    decreases |tail|
  {
    if tail == [] then work == top
    else
      && StripLast(work).Stripped? && StripLast(work).comp == tail[0] && StripLast(work).rest != ""
      && (|tail| > 1 ==> fs(StripLast(work).rest) == Missing)
      && Over(fs, StripLast(work).rest, tail[1..], top)
  }

  lemma {:induction false} ClimbSound(fs: Resolver, work: string, tail: seq<string>) returns (more: seq<string>, top: string, c: string)
    requires Climb(fs, work, tail).Canon?
    ensures more != [] && Over(fs, work, more, top) && fs(top) == Real(c) && c != ""
    ensures Climb(fs, work, tail) == Canon(Join(c, tail + more))
    decreases |work|
  {
    hide Join, Plain;
    var st := StripLast(work);
    if fs(st.rest).Real? {
      more, top, c := [st.comp], st.rest, fs(st.rest).path;
    } else {
      more, top, c := ClimbSound(fs, st.rest, tail + [st.comp]);
      assert tail + [st.comp] + more == tail + ([st.comp] + more);
      more := [st.comp] + more;
    }
  }

  lemma {:induction false} ClimbComplete(fs: Resolver, work: string, tail: seq<string>, more: seq<string>, top: string, c: string)
    requires more != [] && Over(fs, work, more, top) && fs(top) == Real(c) && c != ""
    ensures Climb(fs, work, tail) == Canon(Join(c, tail + more))
    decreases |more|
  {
    OverStep(fs, work, more, top);
    ClimbStep(fs, work, tail);
    hide Climb, Over, StripLast, Join;
    var st := StripLast(work);
    FirstMoved(tail, more);
    if |more| > 1 {
      ClimbComplete(fs, st.rest, tail + [st.comp], more[1..], top, c);
    }
  }

  lemma {:induction false} FirstMoved(tail: seq<string>, more: seq<string>)
    requires more != []
    ensures tail + [more[0]] + more[1..] == tail + more && (|more| == 1 ==> tail + [more[0]] == tail + more)
  {
    assert [more[0]] + more[1..] == more;
  }

  lemma {:induction false} OverStep(fs: Resolver, work: string, more: seq<string>, top: string)
    requires more != [] && Over(fs, work, more, top)
    ensures StripLast(work).Stripped? && StripLast(work).comp == more[0] && StripLast(work).rest != ""
    ensures if |more| == 1 then StripLast(work).rest == top
            else fs(StripLast(work).rest) == Missing && Over(fs, StripLast(work).rest, more[1..], top)
  {
    hide StripLast;
  }

  lemma {:induction false} ClimbStep(fs: Resolver, work: string, tail: seq<string>)
    requires StripLast(work).Stripped? && StripLast(work).rest != ""
    ensures var st := StripLast(work);
            && (fs(st.rest) == Missing ==> Climb(fs, work, tail) == Climb(fs, st.rest, tail + [st.comp]))
            && (forall c :: fs(st.rest) == Real(c) && c != "" ==> Climb(fs, work, tail) == Canon(Join(c, tail + [st.comp])))
  {
    hide StripLast, Join;
  }

  /** The path is c with these components below it: what the kernel resolved, plus the
      part that does not exist. */
  ghost predicate Resolves(fs: Resolver, work: string, tail: seq<string>, top: string, c: string, path: string) {
    && Over(fs, work, tail, top) && fs(top) == Real(c) && c != "" && path == Join(c, tail)
    && (tail != [] ==> fs(work) == Missing)
  }

  /** A path is canonical exactly when its deepest ancestor that exists resolves, and all
      that is missing below consists of ordinary components; missing parts must be allowed. */
  lemma {:induction false} CanonicalExactly(fs: Resolver, workspace: string, path: string, missingOk: bool, r: string)
    ensures Canonicalize(fs, workspace, path, missingOk) == Canon(r)
       <==> path != "" && Work(workspace, path) != ""
            && exists tail, top, c :: Resolves(fs, Work(workspace, path), tail, top, c, r) && (tail != [] ==> missingOk)
  {
    hide Squeeze, StripLast, Join;
    var work := Work(workspace, path);
    var res := Canonicalize(fs, workspace, path, missingOk);
    if res == Canon(r) {
      if fs(work).Real? {
        JoinNone(r);
        assert Resolves(fs, work, [], work, r, r);
      } else {
        var more, top, c := ClimbSound(fs, work, []);
        assert [] + more == more;
        assert Resolves(fs, work, more, top, c, r);
      }
    }
    if path != "" && work != "" {
      forall tail, top, c | Resolves(fs, work, tail, top, c, r) && (tail != [] ==> missingOk)
        ensures res == Canon(r)
      {
        if tail == [] {
          JoinNone(c);
        } else {
          ClimbComplete(fs, work, [], tail, top, c);
          assert [] + tail == tail;
        }
      }
    }
  }

  lemma {:induction false} JoinNone(p: string)
    ensures Join(p, []) == p
  {
  }

  lemma {:induction false} OverPlain(fs: Resolver, work: string, tail: seq<string>, top: string)
    requires Over(fs, work, tail, top)
    ensures forall i :: 0 <= i < |tail| ==> Plain(tail[i])
    decreases |tail|
  {
    if tail != [] {
      OverPlain(fs, StripLast(work).rest, tail[1..], top);
    }
  }

  // ---- a canonical path is clean --------------------------------------------------------------------------

  /** Absolute, with no empty component and no dot segment: what realpath returns. */
  ghost predicate Clean(p: string) {
    p == "/" || (p != "" && p[0] == '/' && forall i :: 0 <= i < |Split(p[1..])| ==> !Rejected(Split(p[1..])[i]))
  }

  lemma {:induction false} SplitJoin(a: string, comp: string)
    requires '/' !in comp
    ensures Split(a + "/" + comp) == Split(a) + [comp] && Split(comp) == [comp]
  {
    LastSlashIs(a, comp);
    var s := a + "/" + comp;
    assert s[..|a|] == a && s[|a| + 1..] == comp;
    assert LastSlash(comp) == |comp|;
  }

  /** Without empty components there is no double, leading or trailing slash. */
  lemma {:induction false} SplitSingle(s: string)
    requires forall i :: 0 <= i < |Split(s)| ==> Split(s)[i] != ""
    ensures s != "" && Single(s, 0) && s[0] != '/' && !EndsWithSlash(s)
  {
    var k := LastSlash(s);
    if k < |s| {
      var rest, last := s[..k], s[k + 1..];
      var parts := Split(rest) + [last];
      assert parts[|parts| - 1] == last && forall i :: 0 <= i < |Split(rest)| ==> Split(rest)[i] == parts[i];
      SplitSingle(rest);
      assert rest[|rest| - 1] == s[k - 1] && forall i :: 0 <= i < k ==> s[i] == rest[i];
    } else {
      assert Split(s) == [s] && Split(s)[0] != "";
    }
  }

  lemma {:induction false} CleanSqueezed(p: string)
    requires Clean(p)
    ensures Squeezed(p) && Absolute(p) && Trim(p, |p|) == |p| && (p == "/" || !EndsWithSlash(p))
  {
    if p != "/" {
      var q := p[1..];
      SplitSingle(q);
      assert forall i :: 1 <= i < |p| ==> p[i] == q[i - 1];
    }
  }

  lemma {:induction false} CleanJoinOne(p: string, comp: string)
    requires Clean(p) && Plain(comp)
    ensures Clean(JoinOne(p, comp)) && JoinOne(p, comp) != "/" && Under(JoinOne(p, comp), p)
  {
    CleanSqueezed(p);
    hide Split;
    var r := JoinOne(p, comp);
    if p == "/" {
      SplitJoin("", comp);
      assert r[1..] == comp;
    } else {
      SplitJoin(p[1..], comp);
      assert r[1..] == p[1..] + "/" + comp;
      assert r[..|p|] == p && r[|p|] == '/';
    }
  }

  lemma {:induction false} CleanJoin(p: string, tail: seq<string>)
    requires Clean(p) && forall i :: 0 <= i < |tail| ==> Plain(tail[i])
    ensures Clean(Join(p, tail)) && Under(Join(p, tail), p) && (tail != [] ==> Join(p, tail) != "/")
    decreases |tail|
  {
    hide Clean, JoinOne, Under;
    if tail == [] {
      CleanSqueezed(p);
      UnderSelf(p);
    } else {
      var q := JoinOne(p, tail[|tail| - 1]);
      CleanJoinOne(p, tail[|tail| - 1]);
      CleanJoin(q, tail[..|tail| - 1]);
      UnderTransitive(Join(p, tail), q, p);
    }
  }

  // ---- a fixed file system -----------------------------------------------------------------------------------

  /** realpath over a file system that does not change: its answers are clean and
      resolve to themselves, a path below p is a path below what p resolves to, and
      doubling the leading slash makes no difference. */
  ghost predicate Realpath(fs: Resolver) {
    && (forall p :: fs(p).Real? ==> Clean(fs(p).path) && fs(fs(p).path) == fs(p))
    && (forall p, t :: fs(p).Real? ==> fs(p + "/" + t) == fs(fs(p).path + "/" + t))
    && forall t :: fs("//" + t) == fs("/" + t)
  }

  /** The components below an ancestor as text, the first of tail being the deepest. */
  function Below(tail: seq<string>): string
    requires tail != []
  {
    if |tail| == 1 then tail[0] else Below(tail[1..]) + "/" + tail[0]
  }

  /** work is tail below top. */
  ghost predicate Glued(work: string, tail: seq<string>, top: string)
    requires tail != []
  {
    work == top + "/" + Below(tail) || (top == "/" && work == "/" + Below(tail))
  }

  lemma {:induction false} OverGlued(fs: Resolver, work: string, tail: seq<string>, top: string)
    requires tail != [] && Over(fs, work, tail, top)
    ensures Glued(work, tail, top)
    decreases |tail|
  {
    var k, rest := LastSlash(work), StripLast(work).rest;
    assert work == work[..k] + "/" + tail[0];
    if |tail| > 1 {
      OverGlued(fs, rest, tail[1..], top);
      assert rest == work[..k];
      Associate(top + "/", Below(tail[1..]), tail[0]);
      Associate("/", Below(tail[1..]), tail[0]);
    }
  }

  lemma {:induction false} Associate(a: string, b: string, c: string)
    ensures a + b + "/" + c == a + (b + "/" + c)
  {
  }

  lemma {:induction false} GluedAnswer(fs: Resolver, work: string, tail: seq<string>, top: string)
    requires Realpath(fs) && tail != [] && Glued(work, tail, top) && fs(top).Real?
    ensures fs(work) == fs(fs(top).path + "/" + Below(tail))
  {
    var t := Below(tail);
    assert fs(top + "/" + t) == fs(fs(top).path + "/" + t);
    if work != top + "/" + t {
      assert fs("//" + t) == fs("/" + t);
      assert top + "/" + t == "//" + t;
    }
  }

  lemma {:induction false} JoinFirst(p: string, tail: seq<string>)
    requires tail != []
    ensures Join(p, tail) == JoinOne(Join(p, tail[1..]), tail[0])
    decreases |tail|
  {
    hide JoinOne;
    var n := |tail| - 1;
    if n == 0 {
      assert tail[..0] == [] && tail[1..] == [];
    } else {
      JoinFirst(JoinOne(p, tail[n]), tail[..n]);
      assert tail[..n][1..] == tail[1..][..n - 1];
    }
  }

  lemma {:induction false} JoinGlued(p: string, tail: seq<string>)
    requires Clean(p) && tail != [] && forall i :: 0 <= i < |tail| ==> Plain(tail[i])
    ensures Glued(Join(p, tail), tail, p)
    decreases |tail|
  {
    JoinFirst(p, tail);
    var q := Join(p, tail[1..]);
    CleanJoin(p, tail[1..]);
    CleanSqueezed(q);
    hide Clean, Join, Under;
    if |tail| == 1 {
      JoinNone(p);
    } else {
      JoinGlued(p, tail[1..]);
      Associate(p + "/", Below(tail[1..]), tail[0]);
      Associate("/", Below(tail[1..]), tail[0]);
    }
  }

  /** The kernel answers for a path below a real one as it does below the resolved form. */
  lemma {:induction false} SameAnswer(fs: Resolver, work: string, tail: seq<string>, top: string)
    requires Realpath(fs) && Over(fs, work, tail, top) && fs(top).Real?
    ensures fs(work) == fs(Join(fs(top).path, tail))
  {
    var c := fs(top).path;
    if tail == [] {
      JoinNone(c);
    } else {
      OverPlain(fs, work, tail, top);
      OverGlued(fs, work, tail, top);
      JoinGlued(c, tail);
      GluedAnswer(fs, work, tail, top);
      GluedAnswer(fs, Join(c, tail), tail, c);
    }
  }

  lemma {:induction false} StripJoin(p: string, comp: string)
    requires Clean(p) && Plain(comp)
    ensures StripLast(JoinOne(p, comp)) == Stripped(p, comp)
  {
    CleanSqueezed(p);
    var r := JoinOne(p, comp);
    if p == "/" {
      LastSlashIs("", comp);
      assert "" + "/" + comp == r && r[1..] == comp;
    } else {
      LastSlashIs(p, comp);
      assert r[..|p|] == p && r[|p| + 1..] == comp;
    }
  }

  /** The canonical path is climbed just as the original one was. */
  lemma {:induction false} OverJoin(fs: Resolver, work: string, tail: seq<string>, top: string)
    requires Realpath(fs) && Over(fs, work, tail, top) && fs(top).Real?
    ensures Over(fs, Join(fs(top).path, tail), tail, fs(top).path)
    decreases |tail|
  {
    var c := fs(top).path;
    hide Realpath, Clean, Under, StripLast, JoinOne;
    if tail == [] {
      JoinNone(c);
    } else {
      var rest := StripLast(work).rest;
      OverPlain(fs, work, tail, top);
      RealClean(fs, top);
      CleanJoin(c, tail[1..]);
      JoinFirst(c, tail);
      StripJoin(Join(c, tail[1..]), tail[0]);
      CleanSqueezed(Join(c, tail[1..]));
      OverJoin(fs, rest, tail[1..], top);
      SameAnswer(fs, rest, tail[1..], top);
    }
  }

  lemma {:induction false} RealClean(fs: Resolver, p: string)
    requires Realpath(fs) && fs(p).Real?
    ensures Clean(fs(p).path) && fs(fs(p).path) == fs(p)
  {
  }

  /** A canonical path is clean and lies under a real path: its deepest existing ancestor. */
  lemma {:induction false} CanonicalInside(fs: Resolver, workspace: string, path: string, missingOk: bool, r: string) returns (c: string)
    requires Realpath(fs) && Canonicalize(fs, workspace, path, missingOk) == Canon(r)
    ensures Clean(r) && Squeezed(r) && Trim(r, |r|) == |r|
    ensures fs(c) == Real(c) && Under(r, c) && (!missingOk ==> r == c)
  {
    CanonicalExactly(fs, workspace, path, missingOk, r);
    var work := Work(workspace, path);
    hide Realpath, Clean, Under, Canonicalize, Work;
    var tail, top, a :| Resolves(fs, work, tail, top, a, r) && (tail != [] ==> missingOk);
    c := a;
    OverPlain(fs, work, tail, top);
    RealClean(fs, top);
    CleanJoin(c, tail);
    CleanSqueezed(r);
  }

  /** Canonicalizing a canonical path changes nothing, from any workspace. */
  lemma {:induction false} CanonicalStable(fs: Resolver, workspace: string, path: string, missingOk: bool, r: string, elsewhere: string)
    requires Realpath(fs) && Canonicalize(fs, workspace, path, missingOk) == Canon(r)
    ensures Canonicalize(fs, elsewhere, r, missingOk) == Canon(r)
  {
    CanonicalExactly(fs, workspace, path, missingOk, r);
    CanonicalExactly(fs, elsewhere, r, missingOk, r);
    var base := CanonicalInside(fs, workspace, path, missingOk, r);
    SqueezeFixed(r);
    var work := Work(workspace, path);
    assert Work(elsewhere, r) == r;
    hide Clean, Under, Canonicalize, Work;
    var tail, top, c :| Resolves(fs, work, tail, top, c, r) && (tail != [] ==> missingOk);
    RealClean(fs, top);
    SameAnswer(fs, work, tail, top);
    OverJoin(fs, work, tail, top);
    hide Realpath;
    assert Resolves(fs, r, tail, c, c, r);
  }
}
