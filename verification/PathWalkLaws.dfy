/** Validation followed by the policy walk: every path-typed leaf, at every depth and
    in every injected default, ends up granted. */
module PathWalkLaws {
  import opened Text
  import opened Types
  import opened Grants
  import opened Args
  import opened ArgsLaws
  import opened PathWalk

  // ---- settled trees ----------------------------------------------------------------------

  ghost predicate PathSettled(host: Host, fs: seq<Perm>, access: Access, mustExist: bool, node: Node) {
    node.value.Str? && Covers(fs, node.value.text, access) && (mustExist ==> host.present(node.value.text))
  }

  /** A conforming tree in which every path leaf is covered by an effective grant. */
  ghost predicate Settled(fmt: Formats, host: Host, fs: seq<Perm>, ty: Type, node: Node)
    decreases ty
  {
    match ty
    case PathT(access, mustExist) => PathSettled(host, fs, access, mustExist, node)
    case ArrayT(item, min, max) =>
      && node.value.Arr? && LengthOk(|node.value.items|, min, max)
      && forall i :: 0 <= i < |node.value.items| ==> Settled(fmt, host, fs, item, node.value.items[i])
    case MapT(value, max) =>
      && node.value.Obj? && LengthOk(|node.value.entries|, -1, max) && NoDuplicates(node.value.entries)
      && forall i :: 0 <= i < |node.value.entries| ==> Settled(fmt, host, fs, value, node.value.entries[i].node)
    case ObjectT(fields) => node.value.Obj? && ObjectSettled(fmt, host, fs, fields, node.value.entries)
    case _ => ScalarOk(fmt, ty, node.value)
  }

  ghost predicate ObjectSettled(fmt: Formats, host: Host, fs: seq<Perm>, fields: seq<Param>, entries: seq<Entry>)
    decreases fields
  {
    && NoDuplicates(entries) && AllKnown(fields, entries)
    && forall j :: 0 <= j < |fields| ==> FieldSettled(fmt, host, fs, fields[j], entries)
  }

  ghost predicate FieldSettled(fmt: Formats, host: Host, fs: seq<Perm>, p: Param, entries: seq<Entry>)
    decreases p
  {
    match Find(entries, p.name)
    case Some(i) => Settled(fmt, host, fs, p.ty, entries[i].node)
    case None => !p.required && p.dflt.None?
  }

  /** after is before with path leaves replaced by their canonical forms, and nothing else. */
  ghost predicate Rewrites(host: Host, ty: Type, before: Node, after: Node)
    decreases ty
  {
    && before.tags == after.tags
    && match ty
       case PathT(_, _) =>
         before.value.Str? && after.value.Str? && host.canonical(before.value.text) == Ok(after.value.text)
       case ArrayT(item, _, _) =>
         && before.value.Arr? && after.value.Arr? && |before.value.items| == |after.value.items|
         && forall i :: 0 <= i < |before.value.items| ==> Rewrites(host, item, before.value.items[i], after.value.items[i])
       case MapT(value, _) =>
         && before.value.Obj? && after.value.Obj? && SameKeys(before.value.entries, after.value.entries)
         && forall i :: 0 <= i < |before.value.entries| ==>
              Rewrites(host, value, before.value.entries[i].node, after.value.entries[i].node)
       case ObjectT(fields) =>
         && before.value.Obj? && after.value.Obj? && SameKeys(before.value.entries, after.value.entries)
         && forall i :: 0 <= i < |before.value.entries| ==>
              EntryRewrites(host, fields, before.value.entries[i], after.value.entries[i])
       case _ => before == after
  }

  ghost predicate SameKeys(a: seq<Entry>, b: seq<Entry>) {
    |a| == |b| && forall i :: 0 <= i < |a| ==> a[i].key == b[i].key
  }

  ghost predicate EntryRewrites(host: Host, fields: seq<Param>, before: Entry, after: Entry)
    decreases fields
  {
    exists j :: 0 <= j < |fields| && fields[j].name == before.key && Rewrites(host, fields[j].ty, before.node, after.node)
  }

  // ---- one field at a time -----------------------------------------------------------------

  lemma {:induction false} WalkFieldEffect(host: Host, fs: seq<Perm>, p: Param, entries: seq<Entry>, depth: nat)
    requires NoDuplicates(entries) && WalkField(host, fs, p, entries, depth).Ok?
    ensures var after := WalkField(host, fs, p, entries, depth).value;
            && NoDuplicates(after) && SameKeys(entries, after)
            && (forall i :: 0 <= i < |entries| && entries[i].key != p.name ==> after[i] == entries[i])
            && (forall key :: key != p.name ==> Look(after, key) == Look(entries, key))
  {
    hide Walk;
    var after := WalkField(host, fs, p, entries, depth).value;
    LookSame(entries, after, p.name);
  }

  lemma {:induction false} LookSame(a: seq<Entry>, b: seq<Entry>, name: string)
    requires NoDuplicates(a) && SameKeys(a, b)
    requires forall i :: 0 <= i < |a| && a[i].key != name ==> b[i] == a[i]
    ensures NoDuplicates(b) && forall key :: key != name ==> Look(b, key) == Look(a, key)
  {
    forall key | key != name
      ensures Look(b, key) == Look(a, key)
    {
      if Find(a, key).Some? {
        FindFirst(b, Find(a, key).value);
      } else {
        assert forall i :: 0 <= i < |b| ==> b[i].key == a[i].key;
      }
    }
  }

  lemma {:induction false} WalkFieldsEffect(host: Host, fs: seq<Perm>, fields: seq<Param>, entries: seq<Entry>, depth: nat)
    requires NoDuplicates(entries) && WalkFields(host, fs, fields, entries, depth).Ok?
    ensures var after := WalkFields(host, fs, fields, entries, depth).value;
            && NoDuplicates(after) && SameKeys(entries, after)
            && (forall i :: 0 <= i < |entries| && !Names(fields, entries[i].key) ==> after[i] == entries[i])
            && (forall key :: !Names(fields, key) ==> Look(after, key) == Look(entries, key))
    decreases |fields|
  {
    if fields != [] {
      var mid := WalkField(host, fs, fields[0], entries, depth).value;
      WalkFieldEffect(host, fs, fields[0], entries, depth);
      WalkFieldsEffect(host, fs, fields[1..], mid, depth);
      hide WalkField, NoDuplicates, Look;
      NamesCons(fields);
    }
  }

  // ---- a successful walk settles -------------------------------------------------------------

  lemma {:induction false} WalkSettles(fmt: Formats, host: Host, fs: seq<Perm>, ty: Type, node: Node, depth: nat)
    requires TypeOk(fmt, ty) && Conforms(fmt, ty, node) && Walk(host, fs, ty, node, depth).Ok?
    ensures Settled(fmt, host, fs, ty, Walk(host, fs, ty, node, depth).value)
    decreases ty, 0
  {
    hide Covers;
    match ty
    case ArrayT(item, _, _) => ItemsSettle(fmt, host, fs, item, node.value.items, depth + 1);
    case MapT(value, _) => EntriesSettle(fmt, host, fs, value, node.value.entries, depth + 1);
    case ObjectT(fields) => ObjectSettles(fmt, host, fs, fields, node.value.entries, depth + 1);
    case _ =>
  }

  lemma {:induction false} ItemsSettle(fmt: Formats, host: Host, fs: seq<Perm>, item: Type, items: seq<Node>, depth: nat)
    requires TypeOk(fmt, item) && (forall i :: 0 <= i < |items| ==> Conforms(fmt, item, items[i]))
    requires WalkItems(host, fs, item, items, depth).Ok?
    ensures var r := WalkItems(host, fs, item, items, depth).value;
            |r| == |items| && forall i :: 0 <= i < |r| ==> Settled(fmt, host, fs, item, r[i])
    decreases item, |items| + 1
  {
    hide Conforms, TypeOk, Settled, Walk;
    if items != [] {
      ItemsSettle(fmt, host, fs, item, items[..|items| - 1], depth);
      WalkSettles(fmt, host, fs, item, items[|items| - 1], depth);
    }
  }

  lemma {:induction false} EntriesSettle(fmt: Formats, host: Host, fs: seq<Perm>, value: Type, entries: seq<Entry>, depth: nat)
    requires TypeOk(fmt, value) && (forall i :: 0 <= i < |entries| ==> Conforms(fmt, value, entries[i].node))
    requires WalkEntries(host, fs, value, entries, depth).Ok?
    ensures var r := WalkEntries(host, fs, value, entries, depth).value;
            SameKeys(entries, r) && forall i :: 0 <= i < |r| ==> Settled(fmt, host, fs, value, r[i].node)
    decreases value, |entries| + 1
  {
    hide Conforms, TypeOk, Settled, Walk;
    if entries != [] {
      EntriesSettle(fmt, host, fs, value, entries[..|entries| - 1], depth);
      WalkSettles(fmt, host, fs, value, entries[|entries| - 1].node, depth);
    }
  }

  lemma {:induction false} FieldSettles(fmt: Formats, host: Host, fs: seq<Perm>, p: Param, entries: seq<Entry>, depth: nat)
    requires ParamOk(fmt, p) && NoDuplicates(entries) && FieldConforms(fmt, p, entries)
    requires WalkField(host, fs, p, entries, depth).Ok?
    ensures FieldSettled(fmt, host, fs, p, WalkField(host, fs, p, entries, depth).value)
    decreases p, 0
  {
    hide Conforms, TypeOk, Settled, Walk;
    var after := WalkField(host, fs, p, entries, depth).value;
    WalkFieldEffect(host, fs, p, entries, depth);
    if Find(entries, p.name).Some? {
      var i := Find(entries, p.name).value;
      WalkSettles(fmt, host, fs, p.ty, entries[i].node, depth);
      FindFirst(after, i);
    }
  }

  lemma {:induction false} FieldsSettle(fmt: Formats, host: Host, fs: seq<Perm>, fields: seq<Param>, entries: seq<Entry>, depth: nat)
    requires DistinctNames(fields) && (forall j :: 0 <= j < |fields| ==> ParamOk(fmt, fields[j]))
    requires NoDuplicates(entries) && (forall j :: 0 <= j < |fields| ==> FieldConforms(fmt, fields[j], entries))
    requires WalkFields(host, fs, fields, entries, depth).Ok?
    ensures var after := WalkFields(host, fs, fields, entries, depth).value;
            forall j :: 0 <= j < |fields| ==> FieldSettled(fmt, host, fs, fields[j], after)
    decreases fields, |fields|
  {
    if fields != [] {
      var mid := WalkField(host, fs, fields[0], entries, depth).value;
      var after := WalkFields(host, fs, fields, entries, depth).value;
      WalkFieldEffect(host, fs, fields[0], entries, depth);
      FieldSettles(fmt, host, fs, fields[0], entries, depth);
      NotAgain(fields);
      forall j | 0 <= j < |fields[1..]|
        ensures FieldConforms(fmt, fields[1..][j], mid)
      {
        assert fields[1..][j].name != fields[0].name;
        LookConforms(fmt, fields[1..][j], entries, mid);
      }
      FieldsSettle(fmt, host, fs, fields[1..], mid, depth);
      WalkFieldsEffect(host, fs, fields[1..], mid, depth);
      hide Conforms, Settled, ParamOk, WalkField, WalkFields, NoDuplicates;
      LookSettled(fmt, host, fs, fields[0], mid, after);
      assert forall j :: 0 < j < |fields| ==> fields[j] == fields[1..][j - 1];
    }
  }

  lemma {:induction false} LookSettled(fmt: Formats, host: Host, fs: seq<Perm>, p: Param, a: seq<Entry>, b: seq<Entry>)
    requires Look(a, p.name) == Look(b, p.name) && FieldSettled(fmt, host, fs, p, a)
    ensures FieldSettled(fmt, host, fs, p, b)
  {
    hide Settled;
  }

  lemma {:induction false} ObjectSettles(fmt: Formats, host: Host, fs: seq<Perm>, fields: seq<Param>, entries: seq<Entry>, depth: nat)
    requires DistinctNames(fields) && (forall j :: 0 <= j < |fields| ==> ParamOk(fmt, fields[j]))
    requires ObjectConforms(fmt, fields, entries) && WalkFields(host, fs, fields, entries, depth).Ok?
    ensures ObjectSettled(fmt, host, fs, fields, WalkFields(host, fs, fields, entries, depth).value)
    decreases fields, |fields| + 1
  {
    hide FieldConforms, FieldSettled, ParamOk;
    FieldsSettle(fmt, host, fs, fields, entries, depth);
    WalkFieldsEffect(host, fs, fields, entries, depth);
  }

  // ---- what the walk changed ---------------------------------------------------------------------

  lemma {:induction false} WalkRewrites(fmt: Formats, host: Host, fs: seq<Perm>, ty: Type, node: Node, depth: nat)
    requires TypeOk(fmt, ty) && Conforms(fmt, ty, node) && Walk(host, fs, ty, node, depth).Ok?
    ensures Rewrites(host, ty, node, Walk(host, fs, ty, node, depth).value)
    decreases ty, 0
  {
    hide Covers;
    match ty
    case ArrayT(item, _, _) => ItemsRewrite(fmt, host, fs, item, node.value.items, depth + 1);
    case MapT(value, _) => EntriesRewrite(fmt, host, fs, value, node.value.entries, depth + 1);
    case ObjectT(fields) =>
      AllNamed(fields, node.value.entries);
      FieldsRewrite(fmt, host, fs, fields, node.value.entries, depth + 1);
    case _ =>
  }

  lemma {:induction false} ItemsRewrite(fmt: Formats, host: Host, fs: seq<Perm>, item: Type, items: seq<Node>, depth: nat)
    requires TypeOk(fmt, item) && (forall i :: 0 <= i < |items| ==> Conforms(fmt, item, items[i]))
    requires WalkItems(host, fs, item, items, depth).Ok?
    ensures var r := WalkItems(host, fs, item, items, depth).value;
            |r| == |items| && forall i :: 0 <= i < |r| ==> Rewrites(host, item, items[i], r[i])
    decreases item, |items| + 1
  {
    hide Conforms, TypeOk, Rewrites, Walk;
    if items != [] {
      ItemsRewrite(fmt, host, fs, item, items[..|items| - 1], depth);
      WalkRewrites(fmt, host, fs, item, items[|items| - 1], depth);
    }
  }

  lemma {:induction false} EntriesRewrite(fmt: Formats, host: Host, fs: seq<Perm>, value: Type, entries: seq<Entry>, depth: nat)
    requires TypeOk(fmt, value) && (forall i :: 0 <= i < |entries| ==> Conforms(fmt, value, entries[i].node))
    requires WalkEntries(host, fs, value, entries, depth).Ok?
    ensures var r := WalkEntries(host, fs, value, entries, depth).value;
            SameKeys(entries, r) && forall i :: 0 <= i < |r| ==> Rewrites(host, value, entries[i].node, r[i].node)
    decreases value, |entries| + 1
  {
    hide Conforms, TypeOk, Rewrites, Walk;
    if entries != [] {
      EntriesRewrite(fmt, host, fs, value, entries[..|entries| - 1], depth);
      WalkRewrites(fmt, host, fs, value, entries[|entries| - 1].node, depth);
    }
  }

  lemma {:induction false} FieldRewrites(fmt: Formats, host: Host, fs: seq<Perm>, p: Param, entries: seq<Entry>, depth: nat)
    requires ParamOk(fmt, p) && NoDuplicates(entries) && FieldConforms(fmt, p, entries)
    requires WalkField(host, fs, p, entries, depth).Ok?
    ensures var after := WalkField(host, fs, p, entries, depth).value;
            SameKeys(entries, after)
            && forall i :: 0 <= i < |entries| && entries[i].key == p.name ==> EntryRewrites(host, [p], entries[i], after[i])
    decreases p, 0
  {
    hide Conforms, TypeOk, Rewrites, Walk;
    assert [p][0] == p;
    forall i | 0 <= i < |entries| && entries[i].key == p.name
      ensures Find(entries, p.name) == Some(i)
    {
      FindFirst(entries, i);
    }
    if Find(entries, p.name).Some? {
      WalkRewrites(fmt, host, fs, p.ty, entries[Find(entries, p.name).value].node, depth);
    }
  }

  lemma {:induction false} FieldsRewrite(fmt: Formats, host: Host, fs: seq<Perm>, fields: seq<Param>, entries: seq<Entry>, depth: nat)
    requires DistinctNames(fields) && (forall j :: 0 <= j < |fields| ==> ParamOk(fmt, fields[j]))
    requires NoDuplicates(entries) && (forall j :: 0 <= j < |fields| ==> FieldConforms(fmt, fields[j], entries))
    requires WalkFields(host, fs, fields, entries, depth).Ok?
    ensures var after := WalkFields(host, fs, fields, entries, depth).value;
            SameKeys(entries, after)
            && forall i :: 0 <= i < |entries| && Names(fields, entries[i].key) ==> EntryRewrites(host, fields, entries[i], after[i])
    decreases fields, |fields|
  {
    if fields != [] {
      var mid := WalkField(host, fs, fields[0], entries, depth).value;
      var after := WalkFields(host, fs, fields, entries, depth).value;
      WalkFieldEffect(host, fs, fields[0], entries, depth);
      FieldRewrites(fmt, host, fs, fields[0], entries, depth);
      NotAgain(fields);
      NamesCons(fields);
      forall j | 0 <= j < |fields[1..]|
        ensures FieldConforms(fmt, fields[1..][j], mid)
      {
        assert fields[1..][j].name != fields[0].name;
        LookConforms(fmt, fields[1..][j], entries, mid);
      }
      FieldsRewrite(fmt, host, fs, fields[1..], mid, depth);
      WalkFieldsEffect(host, fs, fields[1..], mid, depth);
      assert fields[0..1] == [fields[0]] && fields[1..|fields|] == fields[1..];
      hide Conforms, Rewrites, ParamOk, WalkField, WalkFields, NoDuplicates, EntryRewrites, FieldConforms, Look;
      forall i | 0 <= i < |entries| && Names(fields, entries[i].key)
        ensures EntryRewrites(host, fields, entries[i], after[i])
      {
        if entries[i].key == fields[0].name {
          assert after[i] == mid[i];
          RewriteWider(host, fields, 0, 1, entries[i], mid[i]);
        } else {
          assert mid[i] == entries[i];
          RewriteWider(host, fields, 1, |fields|, entries[i], after[i]);
        }
      }
    }
  }

  lemma {:induction false} AllNamed(fields: seq<Param>, entries: seq<Entry>)
    requires AllKnown(fields, entries)
    ensures forall i :: 0 <= i < |entries| ==> Names(fields, entries[i].key)
  {
    forall i | 0 <= i < |entries|
      ensures Names(fields, entries[i].key)
    {
      assert HasField(fields, entries[i].key);
    }
  }

  lemma {:induction false} RewriteWider(host: Host, fields: seq<Param>, lo: nat, hi: nat, before: Entry, after: Entry)
    requires lo <= hi <= |fields| && EntryRewrites(host, fields[lo..hi], before, after)
    ensures EntryRewrites(host, fields, before, after)
  {
    hide Rewrites;
    var j :| 0 <= j < |fields[lo..hi]| && fields[lo..hi][j].name == before.key
             && Rewrites(host, fields[lo..hi][j].ty, before.node, after.node);
    assert fields[lo + j] == fields[lo..hi][j];
  }

  // ---- the law -----------------------------------------------------------------------------------

  /** When validation and the walk both succeed, the arguments conform to the schema,
      every path leaf at every depth (injected defaults included) is covered by one
      effective grant with enough access, only absent optional fields and path texts
      changed, and the requested process and network grants are held. */
  lemma {:induction false} GrantedArguments(fmt: Formats, host: Host, cmd: Command, eff: Effective, wants: Requests, args: Node)
    requires CommandOk(fmt, cmd) && Validate(fmt, cmd, args).Ok?
    requires Preflight(host, cmd, eff, wants, Validate(fmt, cmd, args).value).Ok?
    ensures var m := Validate(fmt, cmd, args).value;
            var r := Preflight(host, cmd, eff, wants, m).value;
            && Settled(fmt, host, eff.fs, ObjectT(cmd.params), r)
            && Injects(ObjectT(cmd.params), args, m)
            && Rewrites(host, ObjectT(cmd.params), m, r)
            && (wants.proc ==> eff.proc) && (wants.net ==> eff.net)
  {
    var m := Validate(fmt, cmd, args).value;
    ValidatedConforms(fmt, cmd, args);
    ObjectSettles(fmt, host, eff.fs, cmd.params, m.value.entries, 0);
    AllNamed(cmd.params, m.value.entries);
    FieldsRewrite(fmt, host, eff.fs, cmd.params, m.value.entries, 0);
  }

  /** An effective grant on a leaf is a request and a grant on it. */
  lemma {:induction false} LeafMeetsBoth(host: Host, requests: seq<Perm>, grants: seq<Perm>, access: Access, mustExist: bool, leaf: Node)
    requires PathSettled(host, Grants.Effective(requests, grants), access, mustExist, leaf) && !access.Empty()
    ensures Covers(requests, leaf.value.text, access) && Covers(grants, leaf.value.text, access)
  {
    EffectiveIsMeet(requests, grants, leaf.value.text, access);
  }
}
