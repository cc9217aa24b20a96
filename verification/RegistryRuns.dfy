/** What holds of the tool table in every run of scans and toggles, and what a
    revision number says about it. */
module RegistryRuns {
  import opened Text
  import opened Semver
  import opened SemverOrder
  import opened Sorting
  import opened Registry

  // ---- runs ---------------------------------------------------------------------------------

  datatype Op = Scan(packages: seq<Package>) | FailedScan | Toggle(id: string, text: Option<string>, on: bool)

  const START := State([], 0, false, 0, 0)

  function Apply(cfg: Config, s: State, op: Op): State {
    match op
    case Scan(packages) => Publish(cfg, s, packages)
    case FailedScan => s
    case Toggle(id, text, on) => Enable(cfg, s, id, text, on).1
  }

  function Run(cfg: Config, ops: seq<Op>): State {
    if ops == [] then START else Apply(cfg, Run(cfg, ops[..|ops| - 1]), ops[|ops| - 1])
  }

  /** Ids are slugs and digests are fixed-width, so a key text reads back uniquely. */
  ghost predicate PackagesOk(packages: seq<Package>) {
    forall i :: 0 <= i < |packages| ==> !Contains(packages[i].id, '@') && |packages[i].content| == 64
  }

  ghost predicate OpsOk(ops: seq<Op>) { forall i :: 0 <= i < |ops| && ops[i].Scan? ==> PackagesOk(ops[i].packages) }

  // ---- the invariant ---------------------------------------------------------------------------

  /** The raw flag of an available tool is the host's wish and the pinning gate;
      that of an unavailable tool may be anything. */
  ghost predicate ToolOk(cfg: Config, t: Tool) {
    && Parse(t.text) == Some(t.version)
    && !Contains(t.id, '@') && |t.content| == 64
    && (Available(cfg, t) ==> (t.enabled <==> !t.hostDisabled && Gate(cfg, t)))
  }

  ghost predicate Distinct(table: seq<Tool>) {
    forall i, j :: 0 <= i < j < |table| ==> !SameTool(table[i], table[j].id, table[j].version)
  }

  ghost predicate TableOk(cfg: Config, table: seq<Tool>) {
    (forall i :: 0 <= i < |table| ==> ToolOk(cfg, table[i])) && Distinct(table)
  }

  ghost predicate StateOk(cfg: Config, s: State) {
    TableOk(cfg, s.table) && s.toolsEnabled == CountResolvable(cfg, s.table)
    && s.toolsUnavailable == CountUnavailable(cfg, s.table)
  }

  lemma {:induction false} IsParsed(t: Tool)
    requires Parse(t.text) == Some(t.version)
    ensures Parsed(t.version)
  {
  }

  lemma {:induction false} CandidatesOk(cfg: Config, packages: seq<Package>)
    requires PackagesOk(packages)
    ensures TableOk(cfg, Candidates(cfg, packages))
    ensures forall i :: 0 <= i < |Candidates(cfg, packages)| ==>
              !Candidates(cfg, packages)[i].hostDisabled && (Candidates(cfg, packages)[i].enabled ==> Available(cfg, Candidates(cfg, packages)[i]))
  {
    hide Compare, Parse, Contains;
    if packages != [] {
      CandidatesOk(cfg, packages[..|packages| - 1]);
    }
  }

  lemma {:induction false} InheritOk(cfg: Config, before: seq<Tool>, found: seq<Tool>)
    requires TableOk(cfg, found)
    requires forall i :: 0 <= i < |found| ==> !found[i].hostDisabled && (found[i].enabled ==> Available(cfg, found[i]))
    ensures TableOk(cfg, InheritAll(before, found))
    ensures forall i :: 0 <= i < |found| ==> InheritAll(before, found)[i].enabled ==> Available(cfg, InheritAll(before, found)[i])
  {
  }

  lemma {:induction false} EnabledAreResolvable(cfg: Config, table: seq<Tool>)
    requires forall i :: 0 <= i < |table| ==> table[i].enabled ==> Available(cfg, table[i])
    ensures CountEnabled(table) == CountResolvable(cfg, table)
  {
    if table != [] {
      EnabledAreResolvable(cfg, table[..|table| - 1]);
    }
  }

  lemma {:induction false} PublishOk(cfg: Config, s: State, packages: seq<Package>)
    requires PackagesOk(packages)
    ensures StateOk(cfg, Publish(cfg, s, packages))
  {
    CandidatesOk(cfg, packages);
    InheritOk(cfg, s.table, Candidates(cfg, packages));
    EnabledAreResolvable(cfg, Publish(cfg, s, packages).table);
  }

  lemma {:induction false} ToggleOk(cfg: Config, table: seq<Tool>, id: string, text: Option<string>, on: bool)
    requires TableOk(cfg, table)
    ensures TableOk(cfg, ToggleAll(cfg, table, id, text, on))
  {
  }

  lemma {:induction false} SameUnavailable(cfg: Config, a: seq<Tool>, b: seq<Tool>)
    requires |a| == |b| && forall i :: 0 <= i < |a| ==> a[i].content == b[i].content
    ensures CountUnavailable(cfg, a) == CountUnavailable(cfg, b)
  {
    if a != [] {
      SameUnavailable(cfg, a[..|a| - 1], b[..|b| - 1]);
    }
  }

  lemma {:induction false} NoneNamed(table: seq<Tool>, id: string, text: Option<string>)
    requires !AnyNamed(table, id, text)
    ensures forall i :: 0 <= i < |table| ==> !Named(table[i], id, text)
  {
    if table != [] {
      NoneNamed(table[..|table| - 1], id, text);
    }
  }

  lemma {:induction false} EnableOk(cfg: Config, s: State, id: string, text: Option<string>, on: bool)
    requires StateOk(cfg, s)
    ensures StateOk(cfg, Enable(cfg, s, id, text, on).1)
  {
    ToggleOk(cfg, s.table, id, text, on);
    SameUnavailable(cfg, s.table, ToggleAll(cfg, s.table, id, text, on));
    if !AnyNamed(s.table, id, text) {
      NoneNamed(s.table, id, text);
      assert ToggleAll(cfg, s.table, id, text, on) == s.table;
    }
  }

  lemma {:induction false} RunOk(cfg: Config, ops: seq<Op>)
    requires OpsOk(ops)
    ensures StateOk(cfg, Run(cfg, ops))
  {
    if ops != [] {
      RunOk(cfg, ops[..|ops| - 1]);
      var s, op := Run(cfg, ops[..|ops| - 1]), ops[|ops| - 1];
      match op {
        case Scan(packages) => PublishOk(cfg, s, packages);
        case FailedScan =>
        case Toggle(id, text, on) => EnableOk(cfg, s, id, text, on);
      }
    }
  }

  /** In every reachable state a tool can be resolved exactly when it fits the platform,
      the host has not disabled it and it passes the pinning gate; the statistics
      count exactly those tools. */
  lemma {:induction false} ResolvableExactly(cfg: Config, ops: seq<Op>, t: Tool)
    requires OpsOk(ops) && t in Run(cfg, ops).table
    ensures Resolvable(cfg, t) <==> Available(cfg, t) && !t.hostDisabled && Gate(cfg, t)
    ensures Run(cfg, ops).toolsEnabled == CountResolvable(cfg, Run(cfg, ops).table)
  {
    RunOk(cfg, ops);
  }

  // ---- keys -----------------------------------------------------------------------------------------

  /** What a key text spells. */
  datatype Key = Key(id: string, text: string, enabled: bool, dir: string, content: Digest)

  function KeyOf(t: Tool): Key { Key(t.id, t.text, t.enabled, t.dir, t.content) }

  function KeyTextOf(k: Key): string {
    k.id + "@" + k.text + ":" + (if k.enabled then "1" else "0") + ":" + k.dir + ":" + k.content
  }

  ghost predicate KeyOk(k: Key) { !Contains(k.id, '@') && !Contains(k.text, ':') && |k.content| == 64 }

  /** The first c of a text splits it in one way only. */
  lemma {:induction false} SplitFirst(a: string, b: string, x: string, y: string, c: char)
    requires !Contains(a, c) && !Contains(x, c) && a + [c] + b == x + [c] + y
    ensures a == x && b == y
  {
    var w := a + [c] + b;
    assert forall i :: 0 <= i < |a| ==> a[i] != c && w[i] == a[i];
    assert forall i :: 0 <= i < |x| ==> x[i] != c && w[i] == x[i];
    assert w[|a|] == c && w[|x|] == c;
    assert |a| == |x|;
    assert a == w[..|a|] && x == w[..|x|];
    assert b == w[|a| + 1..] && y == w[|x| + 1..];
  }

  lemma {:induction false} Tail64(a: string, b: string, x: string, y: string)
    requires a + ":" + b == x + ":" + y && |b| == |y|
    ensures a == x && b == y
  {
    assert |a| == |x|;
    assert a == (a + ":" + b)[..|a|] && x == (x + ":" + y)[..|x|];
    assert b == (a + ":" + b)[|a| + 1..] && y == (x + ":" + y)[|x| + 1..];
  }

  function FlagTail(k: Key): string { (if k.enabled then "1" else "0") + (":" + (k.dir + ":" + k.content)) }

  lemma {:induction false} KeyTextShape(k: Key)
    ensures KeyTextOf(k) == k.id + "@" + (k.text + ":" + FlagTail(k))
  {
  }

  /** A flag is one character long, so it splits off by position. */
  lemma {:induction false} FlagSplit(j: Key, k: Key)
    requires FlagTail(j) == FlagTail(k)
    ensures j.enabled == k.enabled && j.dir + ":" + j.content == k.dir + ":" + k.content
  {
    assert FlagTail(j)[0] == '1' <==> j.enabled;
    assert FlagTail(k)[0] == '1' <==> k.enabled;
    assert FlagTail(j)[2..] == j.dir + ":" + j.content && FlagTail(k)[2..] == k.dir + ":" + k.content;
  }

  /** Different keys have different texts. */
  lemma {:induction false} KeyTextInjective(j: Key, k: Key)
    requires KeyOk(j) && KeyOk(k) && KeyTextOf(j) == KeyTextOf(k)
    ensures j == k
  {
    KeyTextShape(j);
    KeyTextShape(k);
    hide Contains, KeyTextOf, FlagTail;
    SplitFirst(j.id, j.text + ":" + FlagTail(j), k.id, k.text + ":" + FlagTail(k), '@');
    SplitFirst(j.text, FlagTail(j), k.text, FlagTail(k), ':');
    FlagSplit(j, k);
    Tail64(j.dir, j.content, k.dir, k.content);
  }

  /** A version text has no colon. */
  lemma {:induction false} SeriesPlain(s: string, strict: bool)
    requires Series(s, strict)
    ensures forall i :: 0 <= i < |s| ==> s[i] == '.' || IdentChar(s[i])
    decreases |s|
  {
    hide Series, LeadingZero;
    var n := FirstOf(s, strict);
    if n < |s| {
      SeriesPlain(s[n + 1..], strict);
    }
    forall i | 0 <= i < |s|
      ensures s[i] == '.' || IdentChar(s[i])
    {
      if i < n {
        assert s[i] == s[..n][i];
      } else if i > n {
        assert s[i] == s[n + 1..][i - n - 1];
      }
    }
  }

  predicate VersionChar(c: char) { IdentChar(c) || c == '.' || c == '+' }

  predicate Plain(s: string) { forall i :: 0 <= i < |s| ==> VersionChar(s[i]) }

  lemma {:induction false} PlainCat(a: string, b: string)
    requires Plain(a) && Plain(b)
    ensures Plain(a + b)
  {
  }

  lemma {:induction false} PlainSuffix(v: Version, build: Option<string>)
    requires (v.prerelease.Some? ==> Plain(v.prerelease.value)) && (build.Some? ==> Plain(build.value))
    ensures Plain(Suffix(v, build))
  {
  }

  lemma {:induction false} PlainWritten(text: string, v: Version, build: Option<string>)
    requires Writes(text, v, build)
    ensures Plain(text)
  {
    if v.prerelease.Some? {
      SeriesPlain(v.prerelease.value, true);
    }
    if build.Some? {
      SeriesPlain(build.value, false);
    }
    hide Series;
    var a, b, c, d := Numeral(v.major), Numeral(v.minor), Numeral(v.patch), Suffix(v, build);
    assert Plain(a) && Plain(b) && Plain(c) && Plain(".");
    PlainSuffix(v, build);
    hide Plain, Suffix;
    PlainCat(a, ".");
    PlainCat(a + ".", b);
    PlainCat(a + "." + b, ".");
    PlainCat(a + "." + b + ".", c);
    PlainCat(a + "." + b + "." + c, d);
  }

  lemma {:induction false} PlainVersion(text: string)
    requires Parse(text).Some?
    ensures !Contains(text, ':')
  {
    var v := Parse(text).value;
    ParseExactly(text, v);
    var build :| Writes(text, v, build);
    PlainWritten(text, v, build);
    hide Parse, Writes;
    assert !VersionChar(':');
  }

  ghost function Keys(table: seq<Tool>): multiset<Key> {
    if table == [] then multiset{} else Keys(table[..|table| - 1]) + multiset{KeyOf(table[|table| - 1])}
  }

  ghost predicate AllKeysOk(table: seq<Tool>) { forall i :: 0 <= i < |table| ==> KeyOk(KeyOf(table[i])) }

  lemma {:induction false} KeysOfTexts(table: seq<Tool>, k: Key)
    requires AllKeysOk(table) && KeyOk(k)
    ensures multiset(KeyTexts(table))[KeyTextOf(k)] == Keys(table)[k]
  {
    hide KeyTextOf, KeyOk;
    if table != [] {
      var last := table[|table| - 1];
      KeysOfTexts(table[..|table| - 1], k);
      if KeyTextOf(KeyOf(last)) == KeyTextOf(k) {
        KeyTextInjective(KeyOf(last), k);
      }
      assert KeyText(last) == KeyTextOf(KeyOf(last)) by {
        KeyTextSame(last);
      }
    }
  }

  lemma {:induction false} KeyTextSame(t: Tool)
    ensures KeyText(t) == KeyTextOf(KeyOf(t))
  {
  }

  lemma {:induction false} KeysOk(table: seq<Tool>, k: Key)
    requires AllKeysOk(table) && k in Keys(table)
    ensures KeyOk(k)
  {
    if table != [] && k != KeyOf(table[|table| - 1]) {
      KeysOk(table[..|table| - 1], k);
    }
  }

  lemma {:induction false} Identity(texts: seq<string>)
    ensures Distinguishes((s: string) => s, texts)
  {
  }

  /** Tables that do not differ hold the same keys, each as often. */
  lemma {:induction false} SameKeysIfNotDiffer(cfg: Config, a: seq<Tool>, b: seq<Tool>)
    requires TableOk(cfg, a) && TableOk(cfg, b) && !TablesDiffer(a, b)
    ensures Keys(a) == Keys(b)
  {
    TableKeysOk(cfg, a);
    TableKeysOk(cfg, b);
    Identity(KeyTexts(a));
    SortForgets(KeyTexts(a), KeyTexts(b), (s: string) => s);
    assert multiset(KeyTexts(a)) == multiset(KeyTexts(b));
    hide TableOk, AllKeysOk, KeyTexts, KeyOk, Sort;
    forall k | k in Keys(a) || k in Keys(b)
      ensures Keys(a)[k] == Keys(b)[k]
    {
      if k in Keys(a) {
        KeysOk(a, k);
      } else {
        KeysOk(b, k);
      }
      KeysOfTexts(a, k);
      KeysOfTexts(b, k);
    }
  }

  lemma {:induction false} TableKeysOk(cfg: Config, table: seq<Tool>)
    requires TableOk(cfg, table)
    ensures AllKeysOk(table)
  {
    hide Parse, Contains, Compare;
    forall i | 0 <= i < |table|
      ensures KeyOk(KeyOf(table[i]))
    {
      PlainVersion(table[i].text);
    }
  }

  // ---- the resolvable view ------------------------------------------------------------------------------

  /** What a caller gets from a resolved reference. */
  datatype Face = Face(id: string, text: string, dir: string, content: Digest)

  function FaceOf(t: Tool): Face { Face(t.id, t.text, t.dir, t.content) }

  ghost function View(cfg: Config, table: seq<Tool>): multiset<Face> {
    if table == [] then multiset{}
    else
      var t := table[|table| - 1];
      View(cfg, table[..|table| - 1]) + if Resolvable(cfg, t) then multiset{FaceOf(t)} else multiset{}
  }

  lemma {:induction false} ViewOfKeys(cfg: Config, table: seq<Tool>, f: Face)
    ensures View(cfg, table)[f]
         == if cfg.available(f.content) then Keys(table)[Key(f.id, f.text, true, f.dir, f.content)] else 0
  {
    if table != [] {
      ViewOfKeys(cfg, table[..|table| - 1], f);
    }
  }

  lemma {:induction false} SameView(cfg: Config, a: seq<Tool>, b: seq<Tool>)
    requires Keys(a) == Keys(b)
    ensures View(cfg, a) == View(cfg, b)
  {
    forall f
      ensures View(cfg, a)[f] == View(cfg, b)[f]
    {
      ViewOfKeys(cfg, a, f);
      ViewOfKeys(cfg, b, f);
    }
  }

  lemma {:induction false} FlippedNone(cfg: Config, table: seq<Tool>, id: string, text: Option<string>, on: bool)
    requires !AnyFlipped(table, id, text, on)
    ensures forall i :: 0 <= i < |table| && Named(table[i], id, text) ==> table[i].hostDisabled == !on
  {
    if table != [] {
      FlippedNone(cfg, table[..|table| - 1], id, text, on);
    }
  }

  lemma {:induction false} SilentToggle(cfg: Config, a: seq<Tool>, b: seq<Tool>)
    requires |a| == |b| && forall i :: 0 <= i < |a| ==>
               FaceOf(a[i]) == FaceOf(b[i]) && (Resolvable(cfg, a[i]) <==> Resolvable(cfg, b[i]))
    ensures View(cfg, a) == View(cfg, b)
  {
    if a != [] {
      SilentToggle(cfg, a[..|a| - 1], b[..|b| - 1]);
    }
  }

  /** A step that leaves the revision alone leaves the view alone, even where it
      rewrites the raw flag of a tool that does not fit the platform. */
  lemma {:induction false} StepView(cfg: Config, s: State, op: Op)
    requires StateOk(cfg, s) && StateOk(cfg, Apply(cfg, s, op))
    ensures s.revision <= Apply(cfg, s, op).revision
    ensures s.revision == Apply(cfg, s, op).revision ==> View(cfg, s.table) == View(cfg, Apply(cfg, s, op).table)
  {
    var after := Apply(cfg, s, op);
    if s.revision == after.revision {
      match op {
        case Scan(packages) =>
          SameKeysIfNotDiffer(cfg, s.table, after.table);
          SameView(cfg, s.table, after.table);
        case FailedScan =>
        case Toggle(id, text, on) =>
          FlippedNone(cfg, s.table, id, text, on);
          SilentToggle(cfg, s.table, after.table);
      }
    }
  }

  lemma {:induction false} RunView(cfg: Config, ops: seq<Op>, k: nat)
    requires OpsOk(ops) && k <= |ops|
    ensures Run(cfg, ops[..k]).revision <= Run(cfg, ops).revision
    ensures Run(cfg, ops[..k]).revision == Run(cfg, ops).revision ==>
              View(cfg, Run(cfg, ops[..k]).table) == View(cfg, Run(cfg, ops).table)
  {
    if k == |ops| {
      assert ops[..k] == ops;
    } else {
      var init := ops[..|ops| - 1];
      assert init[..k] == ops[..k];
      RunView(cfg, init, k);
      RunOk(cfg, init);
      RunOk(cfg, ops);
      StepView(cfg, Run(cfg, init), ops[|ops| - 1]);
    }
  }

  // ---- resolution depends on the view alone ----------------------------------------------------------------

  lemma {:induction false} BetterNot(a: Tool, b: Tool)
    requires Parsed(a.version) && Parsed(b.version) && !Better(a, b) && !Better(b, a)
    ensures a.version == b.version
  {
    CompareOrder(a.version, b.version);
  }

  lemma {:induction false} BetterOrder(a: Tool, b: Tool, c: Tool)
    requires Parsed(a.version) && Parsed(b.version) && Parsed(c.version) && !Better(a, b) && !Better(b, c)
    ensures !Better(a, c)
  {
    hide Parsed, Compare;
    CompareOrder(a.version, b.version);
    CompareOrder(b.version, c.version);
    CompareOrder(a.version, c.version);
    if Compare(a.version, b.version) <= 0 && Compare(b.version, c.version) <= 0 {
      CompareTransitive(a.version, b.version, c.version);
    }
  }

  /** Nothing that passes is better than the best. */
  lemma {:induction false} BestIsBest(cfg: Config, table: seq<Tool>, id: string, want: Option<Version>, enabled: bool)
    requires forall i :: 0 <= i < |table| ==> Parsed(table[i].version)
    requires Best(cfg, table, id, want, enabled).Some?
    ensures forall i :: 0 <= i < |table| && Passes(cfg, table[i], id, want, enabled) ==>
              !Better(table[i], Best(cfg, table, id, want, enabled).value)
  {
    hide Better, Parsed, Passes;
    var init, last := table[..|table| - 1], table[|table| - 1];
    var before, best := Best(cfg, init, id, want, enabled), Best(cfg, table, id, want, enabled).value;
    BetterSelf(last);
    if before.Some? {
      BestIsBest(cfg, init, id, want, enabled);
      if best == last && best != before.value {
        BetterAsym(last, before.value);
        forall i | 0 <= i < |init| && Passes(cfg, init[i], id, want, enabled)
          ensures !Better(init[i], best)
        {
          BetterOrder(init[i], before.value, last);
        }
      }
    }
  }

  lemma {:induction false} BetterSelf(a: Tool)
    requires Parsed(a.version)
    ensures !Better(a, a)
  {
    CompareOrder(a.version, a.version);
  }

  lemma {:induction false} BetterAsym(a: Tool, b: Tool)
    requires Parsed(a.version) && Parsed(b.version) && Better(a, b)
    ensures !Better(b, a)
  {
    CompareOrder(a.version, b.version);
  }

  lemma {:induction false} AllParsed(cfg: Config, table: seq<Tool>)
    requires TableOk(cfg, table)
    ensures forall i :: 0 <= i < |table| ==> Parsed(table[i].version)
  {
  }

  lemma {:induction false} ViewHas(cfg: Config, table: seq<Tool>, f: Face)
    ensures f in View(cfg, table) <==> exists i :: 0 <= i < |table| && Resolvable(cfg, table[i]) && FaceOf(table[i]) == f
  {
    if table != [] {
      var init := table[..|table| - 1];
      ViewHas(cfg, init, f);
      if i :| 0 <= i < |init| && Resolvable(cfg, init[i]) && FaceOf(init[i]) == f {
        assert table[i] == init[i];
      }
      if i :| 0 <= i < |table| && Resolvable(cfg, table[i]) && FaceOf(table[i]) == f {
        assert i < |init| ==> init[i] == table[i];
      }
    }
  }

  /** The counterpart in another table of a tool that passes. */
  lemma {:induction false} Counterpart(cfg: Config, a: seq<Tool>, b: seq<Tool>, t: Tool, id: string, want: Option<Version>) returns (u: Tool)
    requires TableOk(cfg, a) && TableOk(cfg, b) && View(cfg, a) == View(cfg, b)
    requires t in a && Passes(cfg, t, id, want, true)
    ensures u in b && Passes(cfg, u, id, want, true) && FaceOf(u) == FaceOf(t) && u.version == t.version
  {
    hide Parse, Compare, View;
    ViewHas(cfg, a, FaceOf(t));
    ViewHas(cfg, b, FaceOf(t));
    var i :| 0 <= i < |b| && Resolvable(cfg, b[i]) && FaceOf(b[i]) == FaceOf(t);
    u := b[i];
  }

  lemma {:induction false} DistinctIn(cfg: Config, table: seq<Tool>, t: Tool, u: Tool)
    requires TableOk(cfg, table) && t in table && u in table && t.id == u.id && t.version == u.version
    ensures t == u
  {
    hide Compare, Parse, Parsed;
    var i :| 0 <= i < |table| && table[i] == t;
    var j :| 0 <= j < |table| && table[j] == u;
    IsParsed(t);
    CompareOrder(t.version, u.version);
  }

  /** Tables with the same view give every search the same face, whatever their order. */
  lemma {:induction false} BestByView(cfg: Config, a: seq<Tool>, b: seq<Tool>, id: string, want: Option<Version>)
    requires TableOk(cfg, a) && TableOk(cfg, b) && View(cfg, a) == View(cfg, b)
    ensures var p, q := Best(cfg, a, id, want, true), Best(cfg, b, id, want, true);
            p.Some? == q.Some? && (p.Some? ==> FaceOf(p.value) == FaceOf(q.value))
  {
    hide View, TableOk, Better, Passes;
    var p, q := Best(cfg, a, id, want, true), Best(cfg, b, id, want, true);
    AllParsed(cfg, a);
    AllParsed(cfg, b);
    if p.Some? {
      var u := Counterpart(cfg, a, b, p.value, id, want);
    }
    if q.Some? {
      var t := Counterpart(cfg, b, a, q.value, id, want);
    }
    if p.Some? && q.Some? {
      var u := Counterpart(cfg, a, b, p.value, id, want);
      var t := Counterpart(cfg, b, a, q.value, id, want);
      BestIsBest(cfg, a, id, want, true);
      BestIsBest(cfg, b, id, want, true);
      BetterByVersion(u, q.value, p.value, t);
      BetterNot(u, q.value);
      assert u.id == q.value.id by {
        PassesId(cfg, u, id, want);
        PassesId(cfg, q.value, id, want);
      }
      DistinctIn(cfg, b, u, q.value);
    }
  }

  lemma {:induction false} PassesId(cfg: Config, t: Tool, id: string, want: Option<Version>)
    requires Passes(cfg, t, id, want, true)
    ensures t.id == id
  {
  }

  lemma {:induction false} BetterByVersion(a: Tool, b: Tool, c: Tool, d: Tool)
    requires a.version == c.version && b.version == d.version
    ensures Better(b, a) == Better(d, c)
  {
  }

  /** What resolving a reference gives a caller, if anything. */
  function Resolved(cfg: Config, table: seq<Tool>, ref: string): Option<Face> {
    match Reference(cfg, ref)
    case Wanted(id, want) => Found(cfg, table, id, want)
    case _ => None
  }

  function Found(cfg: Config, table: seq<Tool>, id: string, want: Option<Version>): Option<Face> {
    match Find(cfg, table, id, want) case Hit(t) => Some(FaceOf(t)) case _ => None
  }

  lemma {:induction false} FoundByView(cfg: Config, a: seq<Tool>, b: seq<Tool>, id: string, want: Option<Version>)
    requires TableOk(cfg, a) && TableOk(cfg, b) && View(cfg, a) == View(cfg, b)
    ensures Found(cfg, a, id, want) == Found(cfg, b, id, want)
  {
    hide TableOk, View, Best;
    BestByView(cfg, a, b, id, want);
  }

  /** The same revision resolves every reference to the same id, version, package and content. */
  lemma {:induction false} RevisionIdentifies(cfg: Config, ops: seq<Op>, k: nat, ref: string)
    requires OpsOk(ops) && k <= |ops| && Run(cfg, ops[..k]).revision == Run(cfg, ops).revision
    ensures Resolved(cfg, Run(cfg, ops[..k]).table, ref) == Resolved(cfg, Run(cfg, ops).table, ref)
  {
    hide Run, TableOk, View, Found, Reference;
    RunView(cfg, ops, k);
    RunOk(cfg, ops[..k]);
    RunOk(cfg, ops);
    match Reference(cfg, ref)
    case Wanted(id, want) => FoundByView(cfg, Run(cfg, ops[..k]).table, Run(cfg, ops).table, id, want);
    case _ =>
  }

  /** A tool the host switched off stays off when a scan finds it again. */
  lemma {:induction false} DisabledIsSticky(cfg: Config, s: State, packages: seq<Package>, o: Tool, t: Tool)
    requires StateOk(cfg, s) && PackagesOk(packages)
    requires o in s.table && t in Publish(cfg, s, packages).table && SameTool(o, t.id, t.version)
    ensures t.hostDisabled == o.hostDisabled && (o.hostDisabled ==> !t.enabled)
  {
    hide Parse, Contains;
    var found := Candidates(cfg, packages);
    CandidatesOk(cfg, packages);
    InheritOk(cfg, s.table, found);
    var i :| 0 <= i < |found| && InheritAll(s.table, found)[i] == t;
    var prev := Previous(s.table, found[i]);
    assert Has(s.table, found[i].id, found[i].version);
    IsParsed(o);
    IsParsed(t);
    IsParsed(prev.value);
    CompareOrder(o.version, t.version);
    CompareOrder(prev.value.version, t.version);
    DistinctIn(cfg, s.table, o, prev.value);
  }
}
