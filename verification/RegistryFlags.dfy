/** When the raw enabled flag of a tool changes without a new revision. */
module RegistryFlags {
  import opened Text
  import opened Semver
  import opened SemverOrder
  import opened Registry
  import opened RegistryRuns

  /** Some entry of the table carries another flag than before. */
  ghost predicate FlagChanged(before: seq<Tool>, after: seq<Tool>) {
    |before| == |after| && exists i :: 0 <= i < |before| && before[i].enabled != after[i].enabled
  }

  /** A named tool that does not fit the platform and whose flag is not what the toggle writes. */
  ghost predicate StaleNamed(cfg: Config, table: seq<Tool>, id: string, text: Option<string>, on: bool) {
    exists i :: 0 <= i < |table| && Named(table[i], id, text) && !Available(cfg, table[i])
                && table[i].enabled != (on && Gate(cfg, table[i]))
  }

  /** The host already wishes of every named tool what the toggle says. */
  ghost predicate WishKept(table: seq<Tool>, id: string, text: Option<string>, on: bool) {
    forall i :: 0 <= i < |table| && Named(table[i], id, text) ==> table[i].hostDisabled != on
  }

  lemma {:induction false} FlippedSome(table: seq<Tool>, id: string, text: Option<string>, on: bool)
    requires AnyFlipped(table, id, text, on)
    ensures exists i :: 0 <= i < |table| && Named(table[i], id, text) && table[i].hostDisabled == on
  {
    var n := |table| - 1;
    if AnyFlipped(table[..n], id, text, on) {
      FlippedSome(table[..n], id, text, on);
      var i :| 0 <= i < n && Named(table[..n][i], id, text) && table[..n][i].hostDisabled == on;
      assert table[i] == table[..n][i];
    }
  }

  lemma {:induction false} WishKeptExactly(cfg: Config, table: seq<Tool>, id: string, text: Option<string>, on: bool)
    ensures AnyFlipped(table, id, text, on) <==> !WishKept(table, id, text, on)
  {
    hide AnyFlipped, Named;
    if AnyFlipped(table, id, text, on) {
      FlippedSome(table, id, text, on);
    } else {
      FlippedNone(cfg, table, id, text, on);
    }
  }

  /** A toggle changes a raw flag without a new revision if and only if the host's wish is
      the same as before for every tool it names, and one of them does not fit the platform
      and carries another flag than the wish and the pinning gate give. */
  lemma {:induction false} SilentToggleExactly(cfg: Config, s: State, id: string, text: Option<string>, on: bool)
    requires StateOk(cfg, s)
    ensures var after := Apply(cfg, s, Toggle(id, text, on));
            FlagChanged(s.table, after.table) && after.revision == s.revision
            <==> WishKept(s.table, id, text, on) && StaleNamed(cfg, s.table, id, text, on)
  {
    hide AnyFlipped, WishKept, Named, ToolOk, Available, Gate, CountResolvable, CountUnavailable;
    WishKeptExactly(cfg, s.table, id, text, on);
    var after := Apply(cfg, s, Toggle(id, text, on)).table;
    if !AnyFlipped(s.table, id, text, on) {
      FlippedNone(cfg, s.table, id, text, on);
      forall i | 0 <= i < |s.table|
        ensures s.table[i].enabled != after[i].enabled <==>
                Named(s.table[i], id, text) && !Available(cfg, s.table[i]) && s.table[i].enabled != (on && Gate(cfg, s.table[i]))
      {
        if Named(s.table[i], id, text) {
          ToggledFlag(cfg, s.table[i], on);
        }
      }
    }
  }

  lemma {:induction false} ToggledFlag(cfg: Config, t: Tool, on: bool)
    requires ToolOk(cfg, t) && t.hostDisabled == !on
    ensures t.enabled != Registry.Toggle(cfg, t, on).enabled <==> !Available(cfg, t) && t.enabled != (on && Gate(cfg, t))
  {
    hide Parse, Contains;
  }

  // ---- such a toggle exists ---------------------------------------------------------------------

  const VERSION_TEXT := "1.0.0"

  /** A package that fits no platform, under an open pinning gate. */
  function Misfit(): Package { Package("a", VERSION_TEXT, "d", seq(64, _ => '0'), true) }

  const NOWHERE := Config(_ => false, false, [], [])

  lemma {:induction false} VersionParses()
    ensures Parse(VERSION_TEXT) == Some(Version(1, 0, 0, None))
  {
    var v := Version(1, 0, 0, None);
    assert Numeral(1) == "1" && Numeral(0) == "0";
    assert Writes(VERSION_TEXT, v, None);
    ParseExactly(VERSION_TEXT, v);
  }

  /** The table after scanning one package into an empty registry. */
  lemma {:induction false} OneScanned(cfg: Config, p: Package, v: Version)
    requires Parse(p.text) == Some(v)
    ensures Run(cfg, [Scan([p])]).table == [Fresh(cfg, p, v)]
  {
    hide Parse, TablesDiffer, Compare;
    var t, ops := Fresh(cfg, p, v), [Scan([p])];
    assert [p][..0] == [] && Candidates(cfg, []) == [];
    assert Candidates(cfg, [p]) == [] + [t] == [t];
    assert ops[..0] == [] && Run(cfg, []) == START;
    assert InheritAll([], [t]) == [t];
  }

  lemma {:induction false} ThenToggled(cfg: Config, s: State, t: Tool, on: bool)
    requires s.table == [t] && t.hostDisabled == !on
    ensures Apply(cfg, s, Toggle(t.id, None, on)).revision == s.revision
    ensures Apply(cfg, s, Toggle(t.id, None, on)).table == [Registry.Toggle(cfg, t, on)]
  {
    assert !AnyFlipped([t][..0], t.id, None, on);
    assert !AnyFlipped([t], t.id, None, on);
  }

  /** One package scanned, and its tool then toggled to what the host already wished. */
  lemma {:induction false} ScannedThenToggled(cfg: Config, p: Package, v: Version, on: bool, before: seq<Op>, after: seq<Op>)
    requires Parse(p.text) == Some(v) && Fresh(cfg, p, v).hostDisabled == !on && Fresh(cfg, p, v).id == p.id
    requires before == [Scan([p])] && after == [Scan([p]), Toggle(p.id, None, on)]
    ensures Run(cfg, after).revision == Run(cfg, before).revision
    ensures Run(cfg, before).table == [Fresh(cfg, p, v)]
    ensures Run(cfg, after).table == [Registry.Toggle(cfg, Fresh(cfg, p, v), on)]
  {
    hide Parse, Run, Publish, Enable, Registry.Toggle, Fresh, Apply;
    OneScanned(cfg, p, v);
    ThenToggled(cfg, Run(cfg, before), Fresh(cfg, p, v), on);
    RunSnoc(cfg, before, Toggle(p.id, None, on));
    assert after == before + [Toggle(p.id, None, on)];
  }

  /** Scan, then switch on what was never off: the flag of the misfit goes from false to
      true under the same revision. */
  lemma {:induction false} SilentToggleHappens()
    ensures var before, after := [Scan([Misfit()])], [Scan([Misfit()]), Toggle("a", None, true)];
            && OpsOk(after)
            && Run(NOWHERE, before).revision == Run(NOWHERE, after).revision
            && |Run(NOWHERE, before).table| == 1 && !Run(NOWHERE, before).table[0].enabled
            && |Run(NOWHERE, after).table| == 1 && Run(NOWHERE, after).table[0].enabled
  {
    hide Parse, Run, OpsOk, Registry.Toggle, Fresh, Misfit;
    var p, v := Misfit(), Version(1, 0, 0, None);
    VersionParses();
    MisfitPlain();
    MisfitFlags(Fresh(NOWHERE, p, v), v);
    ScannedThenToggled(NOWHERE, p, v, true, [Scan([p])], [Scan([p]), Toggle("a", None, true)]);
  }

  lemma {:induction false} MisfitPlain()
    ensures Misfit().id == "a" && Misfit().text == VERSION_TEXT && OpsOk([Scan([Misfit()]), Toggle("a", None, true)])
  {
    assert PackagesOk([Misfit()]);
  }

  lemma {:induction false} MisfitFlags(t: Tool, v: Version)
    requires t == Fresh(NOWHERE, Misfit(), v)
    ensures t.id == "a" && !t.hostDisabled && !t.enabled && Registry.Toggle(NOWHERE, t, true).enabled
  {
  }

  lemma {:induction false} RunSnoc(cfg: Config, ops: seq<Op>, op: Op)
    ensures Run(cfg, ops + [op]) == Apply(cfg, Run(cfg, ops), op)
  {
    assert (ops + [op])[..|ops|] == ops;
  }

  // ---- a scan is never silent -----------------------------------------------------------------------

  lemma {:induction false} KeysHas(table: seq<Tool>, k: Key)
    ensures k in Keys(table) <==> exists i :: 0 <= i < |table| && KeyOf(table[i]) == k
  {
    if table != [] {
      var init := table[..|table| - 1];
      KeysHas(init, k);
      if i :| 0 <= i < |init| && KeyOf(init[i]) == k {
        assert table[i] == init[i];
      }
      if i :| 0 <= i < |table| && KeyOf(table[i]) == k {
        assert i < |init| ==> init[i] == table[i];
      }
    }
  }

  /** When a scan keeps the revision, every tool it finds again has the flag it had. */
  lemma {:induction false} ScanNeverSilent(cfg: Config, s: State, packages: seq<Package>, t: Tool, u: Tool)
    requires StateOk(cfg, s) && PackagesOk(packages) && Publish(cfg, s, packages).revision == s.revision
    requires t in s.table && u in Publish(cfg, s, packages).table && SameTool(t, u.id, u.version)
    ensures t.enabled == u.enabled
  {
    hide Parse, Contains;
    var after := Publish(cfg, s, packages);
    PublishOk(cfg, s, packages);
    SameKeysIfNotDiffer(cfg, s.table, after.table);
    KeysHas(s.table, KeyOf(t));
    KeysHas(after.table, KeyOf(t));
    var i :| 0 <= i < |after.table| && KeyOf(after.table[i]) == KeyOf(t);
    var w := after.table[i];
    IsParsed(t);
    IsParsed(u);
    CompareOrder(t.version, u.version);
    DistinctIn(cfg, after.table, w, u);
  }
}
