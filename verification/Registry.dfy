/** The tool table: publishing a scan, enabling, and resolving a reference
    (src/registry.c, src/api.c). */
module Registry {
  import opened Text
  import opened Semver
  import opened Sorting

  type Digest = string

  datatype Pin = Pin(tool: string, version: string)

  /** available says whether a package content fits this platform: the content
      covers the manifest, which names the platforms and entries. */
  datatype Config = Config(available: Digest -> bool, enforce: bool, pins: seq<Pin>, priority: seq<string>)

  datatype Tool = Tool(id: string, text: string, version: Version, dir: string, content: Digest, lockOk: bool,
                       enabled: bool, hostDisabled: bool)

  /** What a scan finds on disk, with the lockfile's judgement. */
  datatype Package = Package(id: string, text: string, dir: string, content: Digest, lockOk: bool)

  predicate Available(cfg: Config, t: Tool) { cfg.available(t.content) }

  predicate Gate(cfg: Config, t: Tool) { cfg.enforce ==> t.lockOk }

  predicate Resolvable(cfg: Config, t: Tool) { Available(cfg, t) && t.enabled }

  // ---- keys ------------------------------------------------------------------------------

  /** tool_key */
  function KeyText(t: Tool): string {
    t.id + "@" + t.text + ":" + (if t.enabled then "1" else "0") + ":" + t.dir + ":" + t.content
  }

  function KeyTexts(table: seq<Tool>): (r: seq<string>)
    ensures |r| == |table|
  {
    if table == [] then [] else KeyTexts(table[..|table| - 1]) + [KeyText(table[|table| - 1])]
  }

  /** tables_differ: lengths, then the sorted keys one by one. */
  predicate TablesDiffer(a: seq<Tool>, b: seq<Tool>) {
    |a| != |b| || Sort(KeyTexts(a), (s: string) => s) != Sort(KeyTexts(b), (s: string) => s)
  }

  // ---- a scan ------------------------------------------------------------------------------

  predicate SameTool(a: Tool, id: string, v: Version) { a.id == id && Compare(a.version, v) == 0 }

  predicate Has(table: seq<Tool>, id: string, v: Version) { exists i :: 0 <= i < |table| && SameTool(table[i], id, v) }

  function Fresh(cfg: Config, p: Package, v: Version): Tool {
    var t := Tool(p.id, p.text, v, p.dir, p.content, p.lockOk, false, false);
    t.(enabled := Available(cfg, t) && Gate(cfg, t))
  }

  /** Packages in root order: a version that does not parse is rejected, and the
      first of two equal-precedence versions of an id wins. */
  function Candidates(cfg: Config, packages: seq<Package>): seq<Tool> {
    if packages == [] then []
    else
      var before, p := Candidates(cfg, packages[..|packages| - 1]), packages[|packages| - 1];
      match Parse(p.text)
      case None => before
      case Some(v) => if Has(before, p.id, v) then before else before + [Fresh(cfg, p, v)]
  }

  /** First entry of the table for the same id and precedence. */
  function Previous(table: seq<Tool>, t: Tool): (r: Option<Tool>)
    ensures r.Some? ==> r.value in table && SameTool(r.value, t.id, t.version)
    ensures r.None? <==> !Has(table, t.id, t.version)
  {
    if table == [] then None
    else if SameTool(table[0], t.id, t.version) then Some(table[0])
    else
      assert Has(table, t.id, t.version) <==> Has(table[1..], t.id, t.version) by {
        assert table == [table[0]] + table[1..];
      }
      Previous(table[1..], t)
  }

  /** host_disabled is sticky across a refresh. */
  function Inherit(table: seq<Tool>, t: Tool): Tool {
    var off := match Previous(table, t) case None => t.hostDisabled case Some(o) => o.hostDisabled;
    t.(hostDisabled := off, enabled := t.enabled && !off)
  }

  function InheritAll(table: seq<Tool>, loaded: seq<Tool>): (r: seq<Tool>)
    ensures |r| == |loaded|
    ensures forall i :: 0 <= i < |r| ==> r[i] == Inherit(table, loaded[i])
  {
    seq(|loaded|, i requires 0 <= i < |loaded| => Inherit(table, loaded[i]))
  }

  datatype State = State(table: seq<Tool>, revision: nat, changed: bool, toolsEnabled: nat, toolsUnavailable: nat)

  function CountEnabled(table: seq<Tool>): nat {
    if table == [] then 0
    else CountEnabled(table[..|table| - 1]) + if table[|table| - 1].enabled then 1 else 0
  }

  function CountResolvable(cfg: Config, table: seq<Tool>): nat {
    if table == [] then 0
    else CountResolvable(cfg, table[..|table| - 1]) + if Resolvable(cfg, table[|table| - 1]) then 1 else 0
  }

  function CountUnavailable(cfg: Config, table: seq<Tool>): nat {
    if table == [] then 0
    else CountUnavailable(cfg, table[..|table| - 1]) + if Available(cfg, table[|table| - 1]) then 0 else 1
  }

  /** The publish phase of astools_registry_scan. */
  function Publish(cfg: Config, s: State, packages: seq<Package>): State {
    var table := InheritAll(s.table, Candidates(cfg, packages));
    var differ := TablesDiffer(s.table, table);
    State(table, if differ then s.revision + 1 else s.revision, s.changed || differ, CountEnabled(table),
          CountUnavailable(cfg, table))
  }

  // ---- enabling ------------------------------------------------------------------------------

  /** A bare id spans every version; a version is matched by its text. */
  predicate Named(t: Tool, id: string, text: Option<string>) { t.id == id && (text.Some? ==> t.text == text.value) }

  function Toggle(cfg: Config, t: Tool, on: bool): Tool {
    var u := t.(hostDisabled := !on);
    u.(enabled := !u.hostDisabled && Gate(cfg, u))
  }

  function ToggleAll(cfg: Config, table: seq<Tool>, id: string, text: Option<string>, on: bool): (r: seq<Tool>)
    ensures |r| == |table|
    ensures forall i :: 0 <= i < |r| ==> r[i] == if Named(table[i], id, text) then Toggle(cfg, table[i], on) else table[i]
  {
    seq(|table|, i requires 0 <= i < |table| => if Named(table[i], id, text) then Toggle(cfg, table[i], on) else table[i])
  }

  predicate AnyNamed(table: seq<Tool>, id: string, text: Option<string>) {
    table != [] && (AnyNamed(table[..|table| - 1], id, text) || Named(table[|table| - 1], id, text))
  }

  /** Does the toggle change the host's wish for any tool it names? */
  predicate AnyFlipped(table: seq<Tool>, id: string, text: Option<string>, on: bool) {
    table != []
    && (AnyFlipped(table[..|table| - 1], id, text, on)
        || (Named(table[|table| - 1], id, text) && table[|table| - 1].hostDisabled == on))
  }

  /** astools_tool_enable past its reference check; the flag says whether anything matched. */
  function Enable(cfg: Config, s: State, id: string, text: Option<string>, on: bool): (bool, State) {
    var table, matched, flipped :=
      ToggleAll(cfg, s.table, id, text, on), AnyNamed(s.table, id, text), AnyFlipped(s.table, id, text, on);
    (matched, State(table, if flipped then s.revision + 1 else s.revision, s.changed || flipped,
                    if matched then CountResolvable(cfg, table) else s.toolsEnabled, s.toolsUnavailable))
  }

  // ---- resolving ------------------------------------------------------------------------------

  /** tool_better: any release beats any pre-release; then the higher precedence. */
  predicate Better(a: Tool, b: Tool) {
    if a.version.prerelease.None? != b.version.prerelease.None? then a.version.prerelease.None?
    else Compare(a.version, b.version) > 0
  }

  predicate Matches(t: Tool, id: string, want: Option<Version>) {
    t.id == id && (want.Some? ==> Compare(t.version, want.value) == 0)
  }

  /** What the search is after: a tool to run, or one that only its flag stops. */
  predicate Passes(cfg: Config, t: Tool, id: string, want: Option<Version>, enabled: bool) {
    Matches(t, id, want) && Available(cfg, t) && t.enabled == enabled
  }

  /** The best of the tools that pass, the earliest among equals. */
  function Best(cfg: Config, table: seq<Tool>, id: string, want: Option<Version>, enabled: bool): (r: Option<Tool>)
    ensures r.Some? ==> r.value in table && Passes(cfg, r.value, id, want, enabled)
    ensures r.None? <==> forall i :: 0 <= i < |table| ==> !Passes(cfg, table[i], id, want, enabled)
  {
    if table == [] then None
    else
      var best, t := Best(cfg, table[..|table| - 1], id, want, enabled), table[|table| - 1];
      if Passes(cfg, t, id, want, enabled) && (best.None? || Better(t, best.value)) then Some(t) else best
  }

  datatype Outcome = Hit(t: Tool) | HostDisabled(t: Tool) | PinBlocked(t: Tool) | WrongPlatform | NoVersion | Unknown

  datatype Wanted = Wanted(id: string, version: Option<Version>) | NoRef | Malformed | BadVersion

  function UpTo(s: string, c: char): (n: nat)
    ensures n <= |s|
    ensures n < |s| ==> s[n] == c
  {
    if s == "" || s[0] == c then 0 else 1 + UpTo(s[1..], c)
  }

  /** Version text of the first config pin for an id. */
  function PinFor(pins: seq<Pin>, id: string): Option<string> {
    if pins == [] then None else if pins[0].tool == id then Some(pins[0].version) else PinFor(pins[1..], id)
  }

  /** What a reference asks for: "id" (subject to the config pins) or "id@version". */
  function Reference(cfg: Config, ref: string): Wanted {
    var at := UpTo(ref, '@');
    var id := ref[..at];
    var text := if at < |ref| then Some(ref[at + 1..]) else PinFor(cfg.pins, id);
    if ref == "" then NoRef
    else if id == "" || (at < |ref| && text == Some("")) then Malformed
    else match text
      case None => Wanted(id, None)
      case Some(v) => match Parse(v) case None => BadVersion case Some(w) => Wanted(id, Some(w))
  }

  predicate AnyMissing(cfg: Config, table: seq<Tool>, id: string, want: Option<Version>) {
    table != []
    && (AnyMissing(cfg, table[..|table| - 1], id, want)
        || (Matches(table[|table| - 1], id, want) && !Available(cfg, table[|table| - 1])))
  }

  predicate AnyId(table: seq<Tool>, id: string) {
    table != [] && (AnyId(table[..|table| - 1], id) || table[|table| - 1].id == id)
  }

  function Find(cfg: Config, table: seq<Tool>, id: string, want: Option<Version>): Outcome {
    match Best(cfg, table, id, want, true)
    case Some(t) => Hit(t)
    case None =>
      match Best(cfg, table, id, want, false)
      case Some(t) => if t.hostDisabled then HostDisabled(t) else PinBlocked(t)
      case None => if AnyMissing(cfg, table, id, want) then WrongPlatform else if AnyId(table, id) then NoVersion else Unknown
  }

  // ---- the registry object -----------------------------------------------------------------------

  class ToolTable {
    const cfg: Config
    var table: seq<Tool>
    var revision: nat
    var changed: bool
    var toolsEnabled: nat
    var toolsUnavailable: nat

    ghost function Now(): State reads this { State(table, revision, changed, toolsEnabled, toolsUnavailable) }

    constructor (cfg: Config)
      ensures this.cfg == cfg && Now() == State([], 0, false, 0, 0)
    {
      this.cfg, table, revision, changed, toolsEnabled, toolsUnavailable := cfg, [], 0, false, 0, 0;
    }

    method IsListed(candidates: seq<Tool>, id: string, v: Version) returns (r: bool)
      ensures r == Has(candidates, id, v)
    {
      for j := 0 to |candidates|
        invariant forall k :: 0 <= k < j ==> !SameTool(candidates[k], id, v)
      {
        if SameTool(candidates[j], id, v) {
          return true;
        }
      }
      return false;
    }

    method LoadAll(packages: seq<Package>) returns (r: seq<Tool>)
      ensures r == Candidates(cfg, packages)
    {
      r := [];
      for i := 0 to |packages|
        invariant r == Candidates(cfg, packages[..i])
      {
        assert packages[..i + 1][..i] == packages[..i];
        var v := Parse(packages[i].text);
        if v.Some? {
          var dup := IsListed(r, packages[i].id, v.value);
          if !dup {
            r := r + [Fresh(cfg, packages[i], v.value)];
          }
        }
      }
      assert packages[..|packages|] == packages;
    }

    method PreviousOf(t: Tool) returns (r: Option<Tool>)
      ensures r == Previous(table, t)
    {
      var j := 0;
      while j < |table|
        invariant 0 <= j <= |table|
        invariant Previous(table, t) == Previous(table[j..], t)
      {
        assert table[j..][1..] == table[j + 1..];
        if SameTool(table[j], t.id, t.version) {
          return Some(table[j]);
        }
        j := j + 1;
      }
      return None;
    }

    /** The sticky flags of a new table. */
    method InheritFlags(found: seq<Tool>) returns (r: seq<Tool>)
      ensures r == InheritAll(table, found)
    {
      r := [];
      for i := 0 to |found|
        invariant |r| == i && forall k :: 0 <= k < i ==> r[k] == Inherit(table, found[k])
      {
        var t := found[i];
        var o := PreviousOf(t);
        if o.Some? {
          t := t.(hostDisabled := o.value.hostDisabled);
        }
        if t.hostDisabled {
          t := t.(enabled := false);
        }
        r := r + [t];
      }
    }

    method Totals(tools: seq<Tool>) returns (enabled: nat, unavailable: nat)
      ensures enabled == CountEnabled(tools) && unavailable == CountUnavailable(cfg, tools)
    {
      enabled, unavailable := 0, 0;
      for i := 0 to |tools|
        invariant enabled == CountEnabled(tools[..i]) && unavailable == CountUnavailable(cfg, tools[..i])
      {
        assert tools[..i + 1][..i] == tools[..i];
        if tools[i].enabled {
          enabled := enabled + 1;
        }
        if !Available(cfg, tools[i]) {
          unavailable := unavailable + 1;
        }
      }
      assert tools[..|tools|] == tools;
    }

    method Scan(packages: seq<Package>)
      modifies this
      ensures Now() == Publish(cfg, old(Now()), packages)
    {
      var found := LoadAll(packages);
      var loaded := InheritFlags(found);
      var differ := TablesDiffer(table, loaded);
      table := loaded;
      toolsEnabled, toolsUnavailable := Totals(loaded);
      if differ {
        changed, revision := true, revision + 1;
      }
    }

    /** The loop over the table. */
    method ToggleNamed(id: string, text: Option<string>, on: bool) returns (matched: bool, flipped: bool)
      modifies this`table
      ensures table == ToggleAll(cfg, old(table), id, text, on)
      ensures matched == AnyNamed(old(table), id, text) && flipped == AnyFlipped(old(table), id, text, on)
    {
      matched, flipped := false, false;
      var i := 0;
      while i < |table|
        invariant 0 <= i <= |table| == |old(table)|
        invariant forall k :: 0 <= k < i ==> table[k] == ToggleAll(cfg, old(table), id, text, on)[k]
        invariant forall k :: i <= k < |table| ==> table[k] == old(table)[k]
        invariant matched == AnyNamed(old(table)[..i], id, text)
        invariant flipped == AnyFlipped(old(table)[..i], id, text, on)
      {
        assert old(table)[..i + 1][..i] == old(table)[..i];
        var t := table[i];
        if Named(t, id, text) {
          flipped := flipped || t.hostDisabled == on;
          t := t.(hostDisabled := !on);
          t := t.(enabled := !t.hostDisabled && !(cfg.enforce && !t.lockOk));
          table := table[i := t];
          matched := true;
        }
        i := i + 1;
      }
      assert old(table)[..|old(table)|] == old(table);
    }

    method SetEnabled(id: string, text: Option<string>, on: bool) returns (matched: bool)
      modifies this
      ensures (matched, Now()) == Enable(cfg, old(Now()), id, text, on)
    {
      var flipped;
      matched, flipped := ToggleNamed(id, text, on);
      if flipped {
        revision, changed := revision + 1, true;
      }
      if matched {
        toolsEnabled := Recount();
      }
    }

    method Recount() returns (n: nat)
      ensures n == CountResolvable(cfg, table)
    {
      n := 0;
      for i := 0 to |table|
        invariant n == CountResolvable(cfg, table[..i])
      {
        assert table[..i + 1][..i] == table[..i];
        if table[i].enabled && Available(cfg, table[i]) {
          n := n + 1;
        }
      }
      assert table[..|table|] == table;
    }

    /** The search of astools_registry_resolve. */
    method Search(id: string, want: Option<Version>) returns (r: Outcome)
      ensures r == Find(cfg, table, id, want)
    {
      hide Better, Compare;
      var hit, blocked, missing, seen := None, None, false, false;
      for i := 0 to |table|
        invariant hit == Best(cfg, table[..i], id, want, true) && blocked == Best(cfg, table[..i], id, want, false)
        invariant seen == AnyId(table[..i], id)
        invariant missing == AnyMissing(cfg, table[..i], id, want)
      {
        assert table[..i + 1][..i] == table[..i];
        var t := table[i];
        if t.id == id {
          seen := true;
          if Matches(t, id, want) {
            if Available(cfg, t) && t.enabled {
              if hit.None? || Better(t, hit.value) {
                hit := Some(t);
              }
            } else if Available(cfg, t) {
              if blocked.None? || Better(t, blocked.value) {
                blocked := Some(t);
              }
            } else {
              missing := true;
            }
          }
        }
      }
      assert table[..|table|] == table;
      if hit.Some? {
        return Hit(hit.value);
      }
      if blocked.Some? {
        return if blocked.value.hostDisabled then HostDisabled(blocked.value) else PinBlocked(blocked.value);
      }
      return if missing then WrongPlatform else if seen then NoVersion else Unknown;
    }
  }
}
