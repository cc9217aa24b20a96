/** What a scan and a switch make of the tool table, package by package and flag by flag
    (src/registry.c, src/api.c). */
module RegistryScan {
  import opened Text
  import opened Semver
  import opened SemverOrder
  import opened Sorting
  import opened Registry
  import opened RegistryRuns

  // ---- which packages are published -----------------------------------------------------------

  /** The version of the package parses, and no package before it has its id and version. */
  ghost predicate IsFirst(packages: seq<Package>, i: nat) {
    && i < |packages| && Parse(packages[i].text).Some?
    && forall j :: 0 <= j < i ==> packages[j].id != packages[i].id || Parse(packages[j].text) != Parse(packages[i].text)
  }

  predicate Loads(p: Package, t: Tool) {
    t.id == p.id && t.text == p.text && Parse(p.text) == Some(t.version) && t.dir == p.dir && t.content == p.content && t.lockOk == p.lockOk
  }

  /** The table holds the first packages, in their order; from says which. */
  ghost predicate Published(packages: seq<Package>, table: seq<Tool>, from: seq<nat>) {
    && |from| == |table|
    && (forall k :: 0 <= k < |from| ==> from[k] < |packages| && Loads(packages[from[k]], table[k]))
    && (forall k, l :: 0 <= k < l < |from| ==> from[k] < from[l])
    && (forall i: nat :: IsFirst(packages, i) <==> i in from)
  }

  lemma {:induction false} HasExactly(packages: seq<Package>, table: seq<Tool>, from: seq<nat>, id: string, v: Version)
    requires Published(packages, table, from) && Parsed(v)
    ensures Has(table, id, v) <==> exists j :: 0 <= j < |packages| && packages[j].id == id && Parse(packages[j].text) == Some(v)
  {
    hide Compare, Parse, IsFirst;
    forall k | 0 <= k < |table|
      ensures SameTool(table[k], id, v) <==> table[k].id == id && table[k].version == v
    {
      IsParsed(table[k]);
      CompareOrder(table[k].version, v);
    }
    if k :| 0 <= k < |table| && SameTool(table[k], id, v) {
      assert packages[from[k]].id == id && Parse(packages[from[k]].text) == Some(v);
    }
    if j :| 0 <= j < |packages| && packages[j].id == id && Parse(packages[j].text) == Some(v) {
      var i := Earliest(packages, j);
      var k :| 0 <= k < |from| && from[k] == i;
      assert SameTool(table[k], id, v);
    }
  }

  lemma {:induction false} Earliest(packages: seq<Package>, j: nat) returns (i: nat)
    requires j < |packages| && Parse(packages[j].text).Some?
    ensures IsFirst(packages, i) && packages[i].id == packages[j].id && Parse(packages[i].text) == Parse(packages[j].text)
    decreases j
  {
    hide Parse;
    i := j;
    if !IsFirst(packages, j) {
      var k :| 0 <= k < j && packages[k].id == packages[j].id && Parse(packages[k].text) == Parse(packages[j].text);
      i := Earliest(packages, k);
    }
  }

  lemma {:induction false} CandidatesExactly(cfg: Config, packages: seq<Package>) returns (from: seq<nat>)
    ensures Published(packages, Candidates(cfg, packages), from)
  {
    hide Compare, Parse, Published;
    if packages == [] {
      from := [];
      NonePublished();
    } else {
      var n := |packages| - 1;
      var init, p := packages[..n], packages[n];
      from := CandidatesExactly(cfg, init);
      if Parse(p.text).Some? {
        LastFirst(cfg, packages, from);
      }
      if IsFirst(packages, n) {
        PublishedMore(packages, Candidates(cfg, init), from, Fresh(cfg, p, Parse(p.text).value));
        from := from + [n];
      } else {
        PublishedSame(packages, Candidates(cfg, init), from);
      }
    }
  }

  lemma {:induction false} NonePublished()
    ensures Published([], [], [])
  {
  }

  lemma {:induction false} PublishedSame(packages: seq<Package>, table: seq<Tool>, from: seq<nat>)
    requires packages != [] && Published(packages[..|packages| - 1], table, from) && !IsFirst(packages, |packages| - 1)
    ensures Published(packages, table, from)
  {
    hide IsFirst, Loads;
    InitFirst(packages);
    forall i: nat
      ensures IsFirst(packages, i) <==> i in from
    {
      FirstWithin(packages, i);
    }
  }

  lemma {:induction false} PublishedMore(packages: seq<Package>, table: seq<Tool>, from: seq<nat>, t: Tool)
    requires packages != [] && Published(packages[..|packages| - 1], table, from)
    requires IsFirst(packages, |packages| - 1) && Loads(packages[|packages| - 1], t)
    ensures Published(packages, table + [t], from + [|packages| - 1])
  {
    hide IsFirst, Loads;
    InitFirst(packages);
    forall i: nat
      ensures IsFirst(packages, i) <==> i in from + [|packages| - 1]
    {
      FirstWithin(packages, i);
    }
  }

  lemma {:induction false} FirstWithin(packages: seq<Package>, i: nat)
    ensures IsFirst(packages, i) ==> i < |packages|
  {
  }

  lemma {:induction false} InitFirst(packages: seq<Package>)
    requires packages != []
    ensures forall i: nat :: IsFirst(packages[..|packages| - 1], i) <==> i < |packages| - 1 && IsFirst(packages, i)
  {
    hide IsFirst;
    forall i: nat
      ensures IsFirst(packages[..|packages| - 1], i) <==> i < |packages| - 1 && IsFirst(packages, i)
    {
      FirstWithin(packages[..|packages| - 1], i);
      if i < |packages| - 1 {
        FirstBefore(packages, |packages| - 1, i);
      }
    }
  }

  lemma {:induction false} FirstBefore(packages: seq<Package>, n: nat, i: nat)
    requires i < n <= |packages|
    ensures IsFirst(packages, i) <==> IsFirst(packages[..n], i)
  {
    hide Parse;
    assert forall j :: 0 <= j <= i ==> packages[j] == packages[..n][j];
  }

  lemma {:induction false} LastFirst(cfg: Config, packages: seq<Package>, from: seq<nat>)
    requires packages != [] && Parse(packages[|packages| - 1].text).Some?
    requires Published(packages[..|packages| - 1], Candidates(cfg, packages[..|packages| - 1]), from)
    ensures var p := packages[|packages| - 1];
            IsFirst(packages, |packages| - 1) <==> !Has(Candidates(cfg, packages[..|packages| - 1]), p.id, Parse(p.text).value)
  {
    hide Compare, Parse, Candidates, Published;
    var n := |packages| - 1;
    var init, p := packages[..n], packages[n];
    ParsedIs(p.text);
    HasExactly(init, Candidates(cfg, init), from, p.id, Parse(p.text).value);
    assert forall j :: 0 <= j < n ==> packages[j] == init[j];
  }

  lemma {:induction false} ParsedIs(text: string)
    requires Parse(text).Some?
    ensures Parsed(Parse(text).value)
  {
  }

  // ---- flags ---------------------------------------------------------------------------------------

  /** The host has switched off the tool of that id and version. */
  ghost predicate SwitchedOff(table: seq<Tool>, t: Tool) {
    exists i :: 0 <= i < |table| && table[i].id == t.id && table[i].version == t.version && table[i].hostDisabled
  }

  /** The flags of a published tool: off if it was off before, and enabled if it fits the
      platform, is approved where approval is enforced, and is not off. */
  ghost predicate FlagsOf(cfg: Config, before: seq<Tool>, t: Tool) {
    && (t.hostDisabled <==> SwitchedOff(before, t))
    && (t.enabled <==> cfg.available(t.content) && (cfg.enforce ==> t.lockOk) && !t.hostDisabled)
  }

  lemma {:induction false} InheritExactly(cfg: Config, before: seq<Tool>, t: Tool)
    requires TableOk(cfg, before) && Parsed(t.version) && !t.hostDisabled
    ensures Inherit(before, t).hostDisabled <==> SwitchedOff(before, t)
  {
    hide Compare, Parse, Contains;
    forall i | 0 <= i < |before|
      ensures SameTool(before[i], t.id, t.version) <==> before[i].id == t.id && before[i].version == t.version
    {
      IsParsed(before[i]);
      CompareOrder(before[i].version, t.version);
    }
    if i :| 0 <= i < |before| && before[i].id == t.id && before[i].version == t.version && before[i].hostDisabled {
      assert SameTool(before[i], t.id, t.version);
      var o := Previous(before, t).value;
      DistinctIn(cfg, before, before[i], o);
    }
  }

  lemma {:induction false} CandidateFlags(cfg: Config, packages: seq<Package>)
    ensures forall k :: 0 <= k < |Candidates(cfg, packages)| ==>
              var t := Candidates(cfg, packages)[k];
              !t.hostDisabled && (t.enabled <==> cfg.available(t.content) && (cfg.enforce ==> t.lockOk))
  {
    hide Compare, Parse;
    if packages != [] {
      CandidateFlags(cfg, packages[..|packages| - 1]);
    }
  }

  /** A scan, from any reachable state: the table becomes the first packages of each id and
      version, in order, each with its flags; the revision grows by one if the tables differ in
      an id, a version text, a flag, a directory or a content, or in how often they hold one,
      and stays otherwise. */
  lemma {:induction false} ScanExactly(cfg: Config, ops: seq<Op>, packages: seq<Package>)
    requires OpsOk(ops) && PackagesOk(packages)
    ensures var s, r := Run(cfg, ops), Run(cfg, ops + [Op.Scan(packages)]);
            && (exists from :: Published(packages, r.table, from))
            && (forall k :: 0 <= k < |r.table| ==> FlagsOf(cfg, s.table, r.table[k]))
            && r.revision == s.revision + (if Keys(r.table) == Keys(s.table) then 0 else 1)
  {
    var s := Run(cfg, ops);
    assert (ops + [Op.Scan(packages)])[..|ops|] == ops;
    RunOk(cfg, ops);
    PublishOk(cfg, s, packages);
    ScannedTable(cfg, s, packages);
    DifferExactly(cfg, s.table, Publish(cfg, s, packages).table);
    assert Run(cfg, ops + [Op.Scan(packages)]) == Publish(cfg, s, packages);
    hide Run, TablesDiffer, FlagsOf, Published, Candidates, InheritAll;
  }

  lemma {:induction false} ScannedTable(cfg: Config, s: State, packages: seq<Package>)
    requires StateOk(cfg, s) && PackagesOk(packages)
    ensures var r := Publish(cfg, s, packages).table;
            (exists from :: Published(packages, r, from)) && forall k :: 0 <= k < |r| ==> FlagsOf(cfg, s.table, r[k])
  {
    hide Compare, Parse, Contains, SwitchedOff, IsFirst;
    var found := Candidates(cfg, packages);
    var from := CandidatesExactly(cfg, packages);
    CandidateFlags(cfg, packages);
    hide Candidates;
    var r := InheritAll(s.table, found);
    forall k | 0 <= k < |r|
      ensures FlagsOf(cfg, s.table, r[k])
    {
      ParsedIs(packages[from[k]].text);
      InheritExactly(cfg, s.table, found[k]);
      SameSwitch(s.table, found[k], r[k]);
    }
    assert Published(packages, r, from);
  }

  lemma {:induction false} SameSwitch(table: seq<Tool>, t: Tool, u: Tool)
    requires t.id == u.id && t.version == u.version
    ensures SwitchedOff(table, t) == SwitchedOff(table, u)
  {
  }

  lemma {:induction false} DifferExactly(cfg: Config, a: seq<Tool>, b: seq<Tool>)
    requires TableOk(cfg, a) && TableOk(cfg, b)
    ensures TablesDiffer(a, b) <==> Keys(a) != Keys(b)
  {
    if !TablesDiffer(a, b) {
      SameKeysIfNotDiffer(cfg, a, b);
    }
    if Keys(a) == Keys(b) {
      SameTexts(a, b);
      Identity(KeyTexts(a));
      SortForgets(KeyTexts(a), KeyTexts(b), (s: string) => s);
      assert |a| == |b|;
    }
  }

  // Equal keys have equal texts.

  function Texts(keys: seq<Key>): seq<string> { seq(|keys|, i requires 0 <= i < |keys| => KeyTextOf(keys[i])) }

  function KeysOf(table: seq<Tool>): seq<Key> { seq(|table|, i requires 0 <= i < |table| => KeyOf(table[i])) }

  lemma {:induction false} KeysBag(table: seq<Tool>)
    ensures Keys(table) == multiset(KeysOf(table)) && KeyTexts(table) == Texts(KeysOf(table))
  {
    hide KeyTextOf, KeyText;
    if table != [] {
      var n := |table| - 1;
      KeysBag(table[..n]);
      assert KeysOf(table) == KeysOf(table[..n]) + [KeyOf(table[n])];
      TextIs(table[n]);
    }
  }

  lemma {:induction false} TextIs(t: Tool)
    ensures KeyText(t) == KeyTextOf(KeyOf(t))
  {
  }

  lemma {:induction false} SameTexts(a: seq<Tool>, b: seq<Tool>)
    requires Keys(a) == Keys(b)
    ensures multiset(KeyTexts(a)) == multiset(KeyTexts(b)) && |a| == |b|
  {
    KeysBag(a);
    KeysBag(b);
    SameBag(KeysOf(a), KeysOf(b));
    assert |multiset(KeysOf(a))| == |a| && |multiset(KeysOf(b))| == |b|;
  }

  lemma {:induction false} SameBag(a: seq<Key>, b: seq<Key>)
    requires multiset(a) == multiset(b)
    ensures multiset(Texts(a)) == multiset(Texts(b))
    decreases |a|
  {
    hide Texts;
    if a == [] {
      assert |multiset(b)| == |b|;
      assert b == [];
    } else {
      var j := Found(a[0], b);
      var more, rest := a[1..], b[..j] + b[j + 1..];
      SameRest(a, b, j);
      SameBag(more, rest);
    }
  }

  lemma {:induction false} SameRest(a: seq<Key>, b: seq<Key>, j: nat)
    requires multiset(a) == multiset(b) && a != [] && j < |b| && b[j] == a[0]
    ensures var more, rest := a[1..], b[..j] + b[j + 1..];
            && |more| < |a| && multiset(more) == multiset(rest)
            && (multiset(Texts(more)) == multiset(Texts(rest)) ==> multiset(Texts(a)) == multiset(Texts(b)))
  {
    hide Texts, KeyTextOf;
    var more, rest := a[1..], b[..j] + b[j + 1..];
    assert a[..0] + more == more;
    BagWithout(a, 0);
    BagWithout(b, j);
    Cancelled(multiset(more), multiset(rest), a[0]);
  }

  lemma {:induction false} Cancelled(m: multiset<Key>, n: multiset<Key>, x: Key)
    requires m + multiset{x} == n + multiset{x}
    ensures m == n
  {
    assert m == m + multiset{x} - multiset{x};
    assert n == n + multiset{x} - multiset{x};
  }

  lemma {:induction false} Found(k: Key, b: seq<Key>) returns (j: nat)
    requires k in multiset(b)
    ensures j < |b| && b[j] == k
  {
    j :| j < |b| && b[j] == k;
  }

  lemma {:induction false} BagWithout(b: seq<Key>, j: nat)
    requires j < |b|
    ensures var rest := b[..j] + b[j + 1..];
            multiset(b) == multiset(rest) + multiset{b[j]} && multiset(Texts(b)) == multiset(Texts(rest)) + multiset{KeyTextOf(b[j])}
  {
    hide KeyTextOf;
    var rest := b[..j] + b[j + 1..];
    assert b == b[..j] + [b[j]] + b[j + 1..];
    assert Texts(b) == Texts(b[..j]) + [KeyTextOf(b[j])] + Texts(b[j + 1..]);
    assert Texts(rest) == Texts(b[..j]) + Texts(b[j + 1..]);
  }

  // ---- switches ---------------------------------------------------------------------------------------

  /** The switch is about the tool: its id, and its version text if one is given. */
  predicate Meant(t: Tool, id: string, text: Option<string>) { t.id == id && (text == None || text == Some(t.text)) }

  /** One tool before and after a switch. */
  predicate Switched(cfg: Config, t: Tool, u: Tool, id: string, text: Option<string>, on: bool) {
    if Meant(t, id, text) then u == t.(hostDisabled := !on, enabled := on && (cfg.enforce ==> t.lockOk)) else u == t
  }

  /** A switch sets the flags of the tools it means and of no others; the revision grows by one
      if the host's wish changes for one of them, and stays otherwise. */
  lemma {:induction false} SwitchExactly(cfg: Config, s: State, id: string, text: Option<string>, on: bool)
    ensures var r := Enable(cfg, s, id, text, on).1;
            && |r.table| == |s.table| && (forall k :: 0 <= k < |r.table| ==> Switched(cfg, s.table[k], r.table[k], id, text, on))
            && r.revision == s.revision + (if exists k :: 0 <= k < |s.table| && Meant(s.table[k], id, text) && s.table[k].hostDisabled == on then 1 else 0)
  {
    FlippedExactly(s.table, id, text, on);
    forall k | 0 <= k < |s.table|
      ensures Named(s.table[k], id, text) <==> Meant(s.table[k], id, text)
    {
    }
  }

  lemma {:induction false} FlippedExactly(table: seq<Tool>, id: string, text: Option<string>, on: bool)
    ensures AnyFlipped(table, id, text, on) <==> exists k :: 0 <= k < |table| && Meant(table[k], id, text) && table[k].hostDisabled == on
  {
    if table != [] {
      var n := |table| - 1;
      FlippedExactly(table[..n], id, text, on);
      assert forall k :: 0 <= k < n ==> table[..n][k] == table[k];
    }
  }
}
