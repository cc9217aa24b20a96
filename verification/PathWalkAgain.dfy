/** Running the whole check on its own result: canonical paths stay canonical, so both
    validation and the policy walk leave the arguments alone the second time. */
module PathWalkAgain {
  import opened Text
  import opened Types
  import opened Grants
  import opened Args
  import opened ArgsLaws
  import opened PathWalk
  import opened PathWalkLaws
  import Canonical

  // ---- the host's canonical form -------------------------------------------------------------

  ghost predicate Idempotent(host: Host) {
    forall p :: host.canonical(p).Ok? ==> host.canonical(host.canonical(p).value) == host.canonical(p)
  }

  function ErrorOf(f: Canonical.Failure): Error { if f.InvalidPath? then Invalid else Unreadable }

  /** astools_path_canonical as the walk calls it, with missing tails allowed. */
  function KernelHost(fs: Canonical.Resolver, workspace: string, present: string -> bool): Host {
    Host((p: string) => match Canonical.Canonicalize(fs, workspace, p, true)
                        case Canon(r) => Ok(r)
                        case Refused(e) => Err(ErrorOf(e)),
         present)
  }

  /** Over a fixed file system canonicalization is idempotent, whatever the workspace. */
  lemma {:induction false} KernelIdempotent(fs: Canonical.Resolver, workspace: string, present: string -> bool)
    requires Canonical.Realpath(fs)
    ensures Idempotent(KernelHost(fs, workspace, present))
  {
    var host := KernelHost(fs, workspace, present);
    hide Canonical.Realpath, Canonical.Canonicalize;
    forall p | host.canonical(p).Ok?
      ensures host.canonical(host.canonical(p).value) == host.canonical(p)
    {
      var r := host.canonical(p).value;
      assert Canonical.Canonicalize(fs, workspace, p, true) == Canonical.Canon(r);
      Canonical.CanonicalStable(fs, workspace, p, true, r, workspace);
    }
  }

  // ---- a settled tree conforms ------------------------------------------------------------------

  /** A covered path is absolute, so it is not empty. */
  lemma {:induction false} CoveredNamed(fs: seq<Perm>, path: string, access: Access)
    requires Covers(fs, path, access)
    ensures path != ""
  {
  }

  lemma {:induction false} SettledConforms(fmt: Formats, host: Host, fs: seq<Perm>, ty: Type, node: Node)
    requires Settled(fmt, host, fs, ty, node)
    ensures Conforms(fmt, ty, node)
    decreases ty
  {
    hide Covers, Find;
    match ty
    case PathT(access, _) => CoveredNamed(fs, node.value.text, access);
    case ArrayT(item, _, _) =>
      forall i | 0 <= i < |node.value.items|
        ensures Conforms(fmt, item, node.value.items[i])
      {
        SettledConforms(fmt, host, fs, item, node.value.items[i]);
      }
    case MapT(value, _) =>
      forall i | 0 <= i < |node.value.entries|
        ensures Conforms(fmt, value, node.value.entries[i].node)
      {
        SettledConforms(fmt, host, fs, value, node.value.entries[i].node);
      }
    case ObjectT(fields) =>
      forall j | 0 <= j < |fields|
        ensures FieldConforms(fmt, fields[j], node.value.entries)
      {
        FieldSettledConforms(fmt, host, fs, fields[j], node.value.entries);
      }
    case _ =>
  }

  lemma {:induction false} FieldSettledConforms(fmt: Formats, host: Host, fs: seq<Perm>, p: Param, entries: seq<Entry>)
    requires FieldSettled(fmt, host, fs, p, entries)
    ensures FieldConforms(fmt, p, entries)
    decreases p
  {
    if Find(entries, p.name).Some? {
      SettledConforms(fmt, host, fs, p.ty, entries[Find(entries, p.name).value].node);
    }
  }

  // ---- walking twice ----------------------------------------------------------------------------------

  lemma {:induction false} PathTwice(host: Host, fs: seq<Perm>, access: Access, mustExist: bool, node: Node)
    requires Idempotent(host) && WalkPath(host, fs, access, mustExist, node).Ok?
    ensures WalkPath(host, fs, access, mustExist, WalkPath(host, fs, access, mustExist, node).value)
         == WalkPath(host, fs, access, mustExist, node)
  {
    hide Covers;
  }

  lemma {:induction false} WalkTwice(fmt: Formats, host: Host, fs: seq<Perm>, ty: Type, node: Node, depth: nat)
    requires Idempotent(host) && TypeOk(fmt, ty) && Conforms(fmt, ty, node) && Walk(host, fs, ty, node, depth).Ok?
    ensures Walk(host, fs, ty, Walk(host, fs, ty, node, depth).value, depth) == Walk(host, fs, ty, node, depth)
    decreases ty, 0
  {
    hide Covers, Idempotent, WalkPath;
    match ty
    case PathT(access, mustExist) => PathTwice(host, fs, access, mustExist, node);
    case ArrayT(item, _, _) => ItemsTwice(fmt, host, fs, item, node.value.items, depth + 1);
    case MapT(value, _) => EntriesTwice(fmt, host, fs, value, node.value.entries, depth + 1);
    case ObjectT(fields) => FieldsTwice(fmt, host, fs, fields, node.value.entries, depth + 1);
    case _ =>
  }

  lemma {:induction false} ItemsTwice(fmt: Formats, host: Host, fs: seq<Perm>, item: Type, items: seq<Node>, depth: nat)
    requires Idempotent(host) && TypeOk(fmt, item) && (forall i :: 0 <= i < |items| ==> Conforms(fmt, item, items[i]))
    requires WalkItems(host, fs, item, items, depth).Ok?
    ensures WalkItems(host, fs, item, WalkItems(host, fs, item, items, depth).value, depth)
         == WalkItems(host, fs, item, items, depth)
    decreases item, |items| + 1
  {
    hide Conforms, TypeOk, Walk, Idempotent;
    if items != [] {
      var n := |items| - 1;
      ItemsTwice(fmt, host, fs, item, items[..n], depth);
      WalkTwice(fmt, host, fs, item, items[n], depth);
      var before, last := WalkItems(host, fs, item, items[..n], depth).value, Walk(host, fs, item, items[n], depth).value;
      assert (before + [last])[..|before|] == before;
    }
  }

  lemma {:induction false} EntriesTwice(fmt: Formats, host: Host, fs: seq<Perm>, value: Type, entries: seq<Entry>, depth: nat)
    requires Idempotent(host) && TypeOk(fmt, value) && (forall i :: 0 <= i < |entries| ==> Conforms(fmt, value, entries[i].node))
    requires WalkEntries(host, fs, value, entries, depth).Ok?
    ensures WalkEntries(host, fs, value, WalkEntries(host, fs, value, entries, depth).value, depth)
         == WalkEntries(host, fs, value, entries, depth)
    decreases value, |entries| + 1
  {
    hide Conforms, TypeOk, Walk, Idempotent;
    if entries != [] {
      var n := |entries| - 1;
      EntriesTwice(fmt, host, fs, value, entries[..n], depth);
      WalkTwice(fmt, host, fs, value, entries[n].node, depth);
      var before := WalkEntries(host, fs, value, entries[..n], depth).value;
      var last := Entry(entries[n].key, Walk(host, fs, value, entries[n].node, depth).value);
      assert (before + [last])[..|before|] == before;
    }
  }

  /** The field a walk has just rewritten is left alone by the next one. */
  lemma {:induction false} FieldTwice(fmt: Formats, host: Host, fs: seq<Perm>, p: Param, entries: seq<Entry>, depth: nat)
    requires Idempotent(host) && ParamOk(fmt, p) && NoDuplicates(entries) && FieldConforms(fmt, p, entries)
    requires WalkField(host, fs, p, entries, depth).Ok?
    ensures FieldFixed(host, fs, p, WalkField(host, fs, p, entries, depth).value, depth)
    decreases p, 0
  {
    hide Conforms, TypeOk, Walk, Idempotent;
    var after := WalkField(host, fs, p, entries, depth).value;
    WalkFieldEffect(host, fs, p, entries, depth);
    if Find(entries, p.name).Some? {
      var i := Find(entries, p.name).value;
      WalkTwice(fmt, host, fs, p.ty, entries[i].node, depth);
      FindFirst(after, i);
    }
  }

  ghost predicate FieldFixed(host: Host, fs: seq<Perm>, p: Param, entries: seq<Entry>, depth: nat) {
    Look(entries, p.name).Some? ==>
      Walk(host, fs, p.ty, Look(entries, p.name).value, depth) == Ok(Look(entries, p.name).value)
  }

  lemma {:induction false} FixedField(host: Host, fs: seq<Perm>, p: Param, entries: seq<Entry>, depth: nat)
    requires FieldFixed(host, fs, p, entries, depth)
    ensures WalkField(host, fs, p, entries, depth) == Ok(entries)
  {
    hide Walk;
    if Find(entries, p.name).Some? {
      var i := Find(entries, p.name).value;
      assert entries[i := Entry(p.name, entries[i].node)] == entries;
    }
  }

  lemma {:induction false} FieldsTwice(fmt: Formats, host: Host, fs: seq<Perm>, fields: seq<Param>, entries: seq<Entry>, depth: nat)
    requires Idempotent(host) && DistinctNames(fields) && (forall j :: 0 <= j < |fields| ==> ParamOk(fmt, fields[j]))
    requires NoDuplicates(entries) && (forall j :: 0 <= j < |fields| ==> FieldConforms(fmt, fields[j], entries))
    requires WalkFields(host, fs, fields, entries, depth).Ok?
    ensures WalkFields(host, fs, fields, WalkFields(host, fs, fields, entries, depth).value, depth)
         == WalkFields(host, fs, fields, entries, depth)
    decreases fields, |fields|
  {
    hide Idempotent;
    if fields != [] {
      var mid := WalkField(host, fs, fields[0], entries, depth).value;
      var after := WalkFields(host, fs, fields, entries, depth).value;
      WalkFieldEffect(host, fs, fields[0], entries, depth);
      FieldTwice(fmt, host, fs, fields[0], entries, depth);
      NotAgain(fields);
      forall j | 0 <= j < |fields[1..]|
        ensures FieldConforms(fmt, fields[1..][j], mid)
      {
        assert fields[1..][j].name != fields[0].name;
        LookConforms(fmt, fields[1..][j], entries, mid);
      }
      FieldsTwice(fmt, host, fs, fields[1..], mid, depth);
      WalkFieldsEffect(host, fs, fields[1..], mid, depth);
      assert FieldFixed(host, fs, fields[0], after, depth);
      FixedField(host, fs, fields[0], after, depth);
    }
  }

  // ---- the law ---------------------------------------------------------------------------------------------

  /** What was granted is granted again: validating and walking the rewritten arguments
      succeeds and changes nothing. */
  lemma {:induction false} GrantedAgain(fmt: Formats, host: Host, cmd: Command, eff: Effective, wants: Requests, args: Node)
    requires Idempotent(host) && CommandOk(fmt, cmd) && Validate(fmt, cmd, args).Ok?
    requires Preflight(host, cmd, eff, wants, Validate(fmt, cmd, args).value).Ok?
    ensures var r := Preflight(host, cmd, eff, wants, Validate(fmt, cmd, args).value).value;
            Validate(fmt, cmd, r) == Ok(r) && Preflight(host, cmd, eff, wants, r) == Ok(r)
  {
    var m := Validate(fmt, cmd, args).value;
    var r := Preflight(host, cmd, eff, wants, m).value;
    ValidatedConforms(fmt, cmd, args);
    GrantedArguments(fmt, host, cmd, eff, wants, args);
    SettledConforms(fmt, host, eff.fs, ObjectT(cmd.params), r);
    ConformingAccepted(fmt, cmd, r);
    FieldsTwice(fmt, host, eff.fs, cmd.params, m.value.entries, 0);
  }
}
