/** Which tool a reference gives, said without the code's own order: the requirements a tool
    must meet, and that none is preferred to the one returned. */
module RegistrySearch {
  import opened Text
  import opened Semver
  import opened SemverOrder
  import opened Precedence
  import opened Registry
  import opened RegistryRuns

  /** t answers to the id and the wanted version, fits the platform, and has that flag. */
  predicate Eligible(cfg: Config, t: Tool, id: string, want: Option<Version>, enabled: bool) {
    t.id == id && (want.Some? ==> t.version == want.value) && cfg.available(t.content) && t.enabled == enabled
  }

  /** A release before any pre-release; among the like, higher precedence first. */
  ghost predicate Preferred(t: Tool, u: Tool) {
    if t.version.prerelease.None? != u.version.prerelease.None? then t.version.prerelease.None?
    else Precedes(u.version, t.version)
  }

  /** Place i holds the first of the most preferred eligible tools. */
  ghost predicate FirstChoice(cfg: Config, table: seq<Tool>, id: string, want: Option<Version>, enabled: bool, i: nat) {
    && i < |table| && Eligible(cfg, table[i], id, want, enabled)
    && (forall j :: 0 <= j < |table| && Eligible(cfg, table[j], id, want, enabled) ==> !Preferred(table[j], table[i]))
    && (forall j :: 0 <= j < i && Eligible(cfg, table[j], id, want, enabled) ==> Preferred(table[i], table[j]))
  }

  ghost predicate NoneEligible(cfg: Config, table: seq<Tool>, id: string, want: Option<Version>, enabled: bool) {
    forall j :: 0 <= j < |table| ==> !Eligible(cfg, table[j], id, want, enabled)
  }

  ghost predicate WantParsed(want: Option<Version>) { want.Some? ==> Parsed(want.value) }

  ghost predicate TableParsed(table: seq<Tool>) { forall i :: 0 <= i < |table| ==> Parsed(table[i].version) }

  lemma {:induction false} PassesExactly(cfg: Config, t: Tool, id: string, want: Option<Version>, enabled: bool)
    requires Parsed(t.version) && WantParsed(want)
    ensures Passes(cfg, t, id, want, enabled) <==> Eligible(cfg, t, id, want, enabled)
  {
    hide Parsed, Compare, Precedes;
    if want.Some? {
      PrecedenceExactly(t.version, want.value);
    }
  }

  lemma {:induction false} BetterExactly(t: Tool, u: Tool)
    requires Parsed(t.version) && Parsed(u.version)
    ensures Better(t, u) <==> Preferred(t, u)
  {
    hide Parsed, Compare, Precedes;
    PrecedenceExactly(t.version, u.version);
  }

  // ---- the search keeps the first choice ---------------------------------------------------------

  /** Among the tools that pass, none is better, and the earlier ones are worse. */
  ghost predicate Top(cfg: Config, table: seq<Tool>, id: string, want: Option<Version>, enabled: bool, i: nat) {
    && i < |table| && Passes(cfg, table[i], id, want, enabled)
    && (forall j :: 0 <= j < |table| && Passes(cfg, table[j], id, want, enabled) ==> !Better(table[j], table[i]))
    && (forall j :: 0 <= j < i && Passes(cfg, table[j], id, want, enabled) ==> Better(table[i], table[j]))
  }

  lemma {:induction false} TopExists(cfg: Config, table: seq<Tool>, id: string, want: Option<Version>, enabled: bool) returns (i: nat)
    requires TableParsed(table) && Best(cfg, table, id, want, enabled).Some?
    ensures i < |table| && Top(cfg, table, id, want, enabled, i) && table[i] == Best(cfg, table, id, want, enabled).value
  {
    hide Better, Passes, Parsed, Top;
    var n := |table| - 1;
    var init, last := table[..n], table[n];
    var before := Best(cfg, init, id, want, enabled);
    var k := 0;
    if before.Some? {
      k := TopExists(cfg, init, id, want, enabled);
      assert init[k] == table[k];
    }
    if Passes(cfg, last, id, want, enabled) && (before.None? || Better(last, before.value)) {
      i := n;
      TopLast(cfg, table, id, want, enabled, k);
    } else {
      i := k;
      TopStays(cfg, table, id, want, enabled, k);
    }
  }

  lemma {:induction false} TopStays(cfg: Config, table: seq<Tool>, id: string, want: Option<Version>, enabled: bool, k: nat)
    requires table != [] && Top(cfg, table[..|table| - 1], id, want, enabled, k)
    requires Passes(cfg, table[|table| - 1], id, want, enabled) ==> !Better(table[|table| - 1], table[k])
    ensures Top(cfg, table, id, want, enabled, k)
  {
    hide Better, Passes;
    var init := table[..|table| - 1];
    assert forall j :: 0 <= j < |init| ==> init[j] == table[j];
  }

  lemma {:induction false} TopLast(cfg: Config, table: seq<Tool>, id: string, want: Option<Version>, enabled: bool, k: nat)
    requires table != [] && TableParsed(table) && Passes(cfg, table[|table| - 1], id, want, enabled)
    requires var init, last := table[..|table| - 1], table[|table| - 1];
             if Best(cfg, init, id, want, enabled).None? then true
             else Top(cfg, init, id, want, enabled, k) && Better(last, init[k])
    ensures Top(cfg, table, id, want, enabled, |table| - 1)
  {
    hide Better, Passes, Parsed, Best;
    var init, last := table[..|table| - 1], table[|table| - 1];
    BetterSelf(last);
    forall j | 0 <= j < |init| && Passes(cfg, table[j], id, want, enabled)
      ensures Better(last, table[j]) && !Better(table[j], last)
    {
      assert init[j] == table[j];
      Overtakes(last, init[k], table[j]);
    }
  }

  lemma {:induction false} Overtakes(a: Tool, b: Tool, c: Tool)
    requires Parsed(a.version) && Parsed(b.version) && Parsed(c.version) && Better(a, b) && !Better(c, b)
    ensures Better(a, c) && !Better(c, a)
  {
    hide Better, Parsed;
    if !Better(a, c) {
      BetterOrder(a, c, b);
    }
    BetterAsym(a, c);
  }

  lemma {:induction false} TopIsChoice(cfg: Config, table: seq<Tool>, id: string, want: Option<Version>, enabled: bool, i: nat)
    requires TableParsed(table) && WantParsed(want)
    ensures Top(cfg, table, id, want, enabled, i) <==> FirstChoice(cfg, table, id, want, enabled, i)
  {
    hide Better, Passes, Parsed, Eligible, Preferred, WantParsed;
    if i < |table| {
      forall j | 0 <= j < |table|
        ensures Passes(cfg, table[j], id, want, enabled) <==> Eligible(cfg, table[j], id, want, enabled)
        ensures Better(table[j], table[i]) <==> Preferred(table[j], table[i])
        ensures Better(table[i], table[j]) <==> Preferred(table[i], table[j])
      {
        PassesExactly(cfg, table[j], id, want, enabled);
        BetterExactly(table[j], table[i]);
        BetterExactly(table[i], table[j]);
      }
    }
  }

  lemma {:induction false} OneTop(cfg: Config, table: seq<Tool>, id: string, want: Option<Version>, enabled: bool, i: nat, k: nat)
    requires Top(cfg, table, id, want, enabled, i) && Top(cfg, table, id, want, enabled, k)
    ensures i == k
  {
    hide Better, Passes;
  }

  lemma {:induction false} NoneExactly(cfg: Config, table: seq<Tool>, id: string, want: Option<Version>, enabled: bool)
    requires TableParsed(table) && WantParsed(want)
    ensures Best(cfg, table, id, want, enabled).None? <==> NoneEligible(cfg, table, id, want, enabled)
  {
    hide Passes, Parsed, Eligible, WantParsed, Best;
    forall j | 0 <= j < |table|
      ensures Passes(cfg, table[j], id, want, enabled) <==> Eligible(cfg, table[j], id, want, enabled)
    {
      PassesExactly(cfg, table[j], id, want, enabled);
    }
  }

  lemma {:induction false} BestExactly(cfg: Config, table: seq<Tool>, id: string, want: Option<Version>, enabled: bool, t: Tool)
    requires TableParsed(table) && WantParsed(want)
    ensures Best(cfg, table, id, want, enabled) == Some(t) <==>
            exists i: nat :: FirstChoice(cfg, table, id, want, enabled, i) && table[i] == t
  {
    hide Best, Top, FirstChoice, TableParsed, WantParsed;
    NoneExactly(cfg, table, id, want, enabled);
    if Best(cfg, table, id, want, enabled).Some? {
      var k := TopExists(cfg, table, id, want, enabled);
      TopIsChoice(cfg, table, id, want, enabled, k);
      forall i: nat | FirstChoice(cfg, table, id, want, enabled, i)
        ensures i == k
      {
        TopIsChoice(cfg, table, id, want, enabled, i);
        OneTop(cfg, table, id, want, enabled, i, k);
      }
    } else {
      forall i: nat | FirstChoice(cfg, table, id, want, enabled, i)
        ensures false
      {
        ChoiceEligible(cfg, table, id, want, enabled, i);
      }
    }
  }

  lemma {:induction false} ChoiceEligible(cfg: Config, table: seq<Tool>, id: string, want: Option<Version>, enabled: bool, i: nat)
    requires FirstChoice(cfg, table, id, want, enabled, i)
    ensures !NoneEligible(cfg, table, id, want, enabled)
  {
  }

  // ---- the outcomes ----------------------------------------------------------------------------------

  /** A tool is found if and only if it is the first of the most preferred enabled ones. */
  lemma {:induction false} HitExactly(cfg: Config, table: seq<Tool>, id: string, want: Option<Version>, t: Tool)
    requires TableParsed(table) && WantParsed(want)
    ensures Find(cfg, table, id, want) == Hit(t) <==>
            exists i: nat :: FirstChoice(cfg, table, id, want, true, i) && table[i] == t
  {
    hide Best, FirstChoice, TableParsed, WantParsed, AnyMissing, AnyId;
    BestExactly(cfg, table, id, want, true, t);
  }

  /** A refusal names the first of the most preferred disabled ones, and why it is disabled. */
  lemma {:induction false} BlockedExactly(cfg: Config, table: seq<Tool>, id: string, want: Option<Version>, t: Tool)
    requires TableParsed(table) && WantParsed(want)
    ensures Find(cfg, table, id, want) == (if t.hostDisabled then HostDisabled(t) else PinBlocked(t)) <==>
            NoneEligible(cfg, table, id, want, true) && exists i: nat :: FirstChoice(cfg, table, id, want, false, i) && table[i] == t
  {
    hide Best, FirstChoice, TableParsed, WantParsed, AnyMissing, AnyId, NoneEligible;
    NoneExactly(cfg, table, id, want, true);
    BestExactly(cfg, table, id, want, false, t);
  }

  /** t has the id and the wanted version. */
  predicate Sought(t: Tool, id: string, want: Option<Version>) { t.id == id && (want.Some? ==> t.version == want.value) }

  lemma {:induction false} MatchesExactly(t: Tool, id: string, want: Option<Version>)
    requires Parsed(t.version) && WantParsed(want)
    ensures Matches(t, id, want) <==> Sought(t, id, want)
  {
    hide Parsed, Compare, Precedes;
    if want.Some? {
      PrecedenceExactly(t.version, want.value);
    }
  }

  lemma {:induction false} MissingMeans(cfg: Config, table: seq<Tool>, id: string, want: Option<Version>)
    requires TableParsed(table) && WantParsed(want)
    ensures AnyMissing(cfg, table, id, want) <==>
            exists j :: 0 <= j < |table| && Sought(table[j], id, want) && !cfg.available(table[j].content)
  {
    hide Parsed, Matches, Sought, WantParsed;
    if table != [] {
      var n := |table| - 1;
      var init := table[..n];
      assert forall j :: 0 <= j < n ==> init[j] == table[j];
      MissingMeans(cfg, init, id, want);
      MatchesExactly(table[n], id, want);
    }
  }

  lemma {:induction false} IdMeans(table: seq<Tool>, id: string)
    ensures AnyId(table, id) <==> exists j :: 0 <= j < |table| && table[j].id == id
  {
    if table != [] {
      var n := |table| - 1;
      var init := table[..n];
      assert forall j :: 0 <= j < n ==> init[j] == table[j];
      IdMeans(init, id);
    }
  }

  /** With nothing to run and nothing disabled, the reason is the platform, the version or the id. */
  lemma {:induction false} AbsentExactly(cfg: Config, table: seq<Tool>, id: string, want: Option<Version>)
    requires TableParsed(table) && WantParsed(want)
    ensures var r := Find(cfg, table, id, want);
            var none := NoneEligible(cfg, table, id, want, true) && NoneEligible(cfg, table, id, want, false);
            var known := exists j :: 0 <= j < |table| && table[j].id == id;
            var asked := exists j :: 0 <= j < |table| && Sought(table[j], id, want);
            && (r == WrongPlatform <==> none && asked)
            && (r == NoVersion <==> none && known && !asked)
            && (r == Unknown <==> !known)
  {
    hide Best, TableParsed, WantParsed, AnyMissing, AnyId;
    NoneExactly(cfg, table, id, want, true);
    NoneExactly(cfg, table, id, want, false);
    MissingMeans(cfg, table, id, want);
    IdMeans(table, id);
  }

  /** What a caller reads off a hit: a release if any eligible tool is one; and among the like,
      numbers that are lexicographically no smaller, with the pre-release deciding on equal ones. */
  lemma {:induction false} HitIsHighest(cfg: Config, table: seq<Tool>, id: string, want: Option<Version>, t: Tool, u: Tool)
    requires TableParsed(table) && WantParsed(want) && Find(cfg, table, id, want) == Hit(t)
    requires u in table && Eligible(cfg, u, id, want, true)
    ensures u.version.prerelease.None? ==> t.version.prerelease.None?
    ensures t.version.prerelease.None? == u.version.prerelease.None? ==>
              var v, w := t.version, u.version;
              v.major > w.major || (v.major == w.major && (v.minor > w.minor || (v.minor == w.minor && v.patch >= w.patch)))
    ensures t.version.prerelease.Some? && u.version.prerelease.Some? && SameCore(t.version, u.version) ==>
              !FieldsBelow(Fields(t.version.prerelease.value), Fields(u.version.prerelease.value))
  {
    hide Parsed, FieldsBelow, Fields, TableParsed, WantParsed, Find;
    HitExactly(cfg, table, id, want, t);
    var i: nat :| FirstChoice(cfg, table, id, want, true, i) && table[i] == t;
  }

  // ---- references ---------------------------------------------------------------------------------------

  /** What the version text of a reference or of a pin asks for. */
  function AskedFor(id: string, text: string): Wanted {
    match Parse(text) case None => BadVersion case Some(v) => Wanted(id, Some(v))
  }

  lemma {:induction false} UpToIs(id: string, rest: string)
    requires '@' !in id && (rest == "" || rest[0] == '@')
    ensures UpTo(id + rest, '@') == |id|
  {
    if id == "" {
      assert id + rest == rest;
    } else {
      assert (id + rest)[1..] == id[1..] + rest;
      UpToIs(id[1..], rest);
    }
  }

  /** A reference with a version asks for that version, whatever the pins say. */
  lemma {:induction false} VersionedReference(cfg: Config, id: string, text: string)
    requires '@' !in id
    ensures Reference(cfg, id + "@" + text) == if id == "" || text == "" then Malformed else AskedFor(id, text)
  {
    UpToIs(id, "@" + text);
    assert id + "@" + text == id + ("@" + text);
    assert (id + "@" + text)[|id| + 1..] == text;
  }

  /** Place k holds the first pin of that id. */
  predicate FirstPin(pins: seq<Pin>, id: string, k: nat) {
    k < |pins| && pins[k].tool == id && forall j :: 0 <= j < k ==> pins[j].tool != id
  }

  lemma {:induction false} PinExactly(pins: seq<Pin>, id: string, k: nat)
    ensures FirstPin(pins, id, k) ==> PinFor(pins, id) == Some(pins[k].version)
    ensures (forall j :: 0 <= j < |pins| ==> pins[j].tool != id) ==> PinFor(pins, id).None?
  {
    if pins != [] && pins[0].tool != id {
      PinExactly(pins[1..], id, if k > 0 then k - 1 else 0);
    }
  }

  /** A bare reference asks for the version of its first pin, or for any. */
  lemma {:induction false} BareReferenceAsks(cfg: Config, id: string, k: nat)
    requires '@' !in id && id != ""
    ensures FirstPin(cfg.pins, id, k) ==> Reference(cfg, id) == AskedFor(id, cfg.pins[k].version)
    ensures (forall j :: 0 <= j < |cfg.pins| ==> cfg.pins[j].tool != id) ==> Reference(cfg, id) == Wanted(id, None)
  {
    UpToIs(id, "");
    assert id + "" == id && id[..|id|] == id;
    PinExactly(cfg.pins, id, k);
  }

  /** Every table that a registry can reach, and every wanted version, is of the kind the
      results above are about. */
  lemma {:induction false} ReachableTables(cfg: Config, ops: seq<Op>, ref: string)
    requires OpsOk(ops)
    ensures TableParsed(Run(cfg, ops).table)
    ensures Reference(cfg, ref).Wanted? ==> WantParsed(Reference(cfg, ref).version)
  {
    hide Run, StateOk, TableOk, Parsed, Reference;
    RunTable(cfg, ops);
    AllParsed(cfg, Run(cfg, ops).table);
    WantIsParsed(cfg, ref);
  }

  lemma {:induction false} RunTable(cfg: Config, ops: seq<Op>)
    requires OpsOk(ops)
    ensures TableOk(cfg, Run(cfg, ops).table)
  {
    hide Run, TableOk;
    RunOk(cfg, ops);
  }

  lemma {:induction false} WantIsParsed(cfg: Config, ref: string)
    ensures Reference(cfg, ref).Wanted? ==> WantParsed(Reference(cfg, ref).version)
  {
    hide Parse, UpTo, PinFor;
  }
}
