/** Exactly which arguments pass validation and the policy walk, said without the order
    in which fields are visited or rewritten. */
module Verdicts {
  import opened Text
  import opened Types
  import opened Grants
  import opened Args
  import opened ArgsLaws
  import opened PathWalk
  import opened PathWalkLaws

  // ---- validation ------------------------------------------------------------------------------

  /** Every part of the tree fits its type, and what is absent may be. */
  ghost predicate Acceptable(fmt: Formats, ty: Type, node: Node)
    decreases ty
  {
    match ty
    case ArrayT(item, min, max) =>
      && node.value.Arr? && LengthOk(|node.value.items|, min, max)
      && forall i :: 0 <= i < |node.value.items| ==> Acceptable(fmt, item, node.value.items[i])
    case MapT(value, max) =>
      && node.value.Obj? && LengthOk(|node.value.entries|, -1, max) && NoDuplicates(node.value.entries)
      && forall i :: 0 <= i < |node.value.entries| ==> Acceptable(fmt, value, node.value.entries[i].node)
    case ObjectT(fields) =>
      && node.value.Obj? && NoDuplicates(node.value.entries) && AllKnown(fields, node.value.entries)
      && forall j :: 0 <= j < |fields| ==> FieldAcceptable(fmt, fields[j], node.value.entries)
    case _ => ScalarOk(fmt, ty, node.value)
  }

  /** A field that is present fits; an absent one is optional and its default can be copied. */
  ghost predicate FieldAcceptable(fmt: Formats, p: Param, entries: seq<Entry>)
    decreases p
  {
    match Look(entries, p.name)
    case Some(node) => Acceptable(fmt, p.ty, node)
    case None => !p.required && (p.dflt.Some? ==> Clonable(p.dflt.value, 0))
  }

  lemma {:induction false} CheckExactly(fmt: Formats, ty: Type, node: Node)
    requires TypeOk(fmt, ty)
    ensures Check(fmt, ty, node).Ok? <==> Acceptable(fmt, ty, node)
    decreases ty, 0
  {
    match ty
    case ArrayT(item, _, _) =>
      if node.value.Arr? {
        ItemsExactly(fmt, item, node.value.items);
      }
    case MapT(value, _) =>
      if node.value.Obj? {
        EntriesExactly(fmt, value, node.value.entries);
      }
    case ObjectT(fields) =>
      if node.value.Obj? && NoDuplicates(node.value.entries) {
        FieldsExactly(fmt, fields, node.value.entries);
      }
    case _ =>
  }

  lemma {:induction false} ItemsExactly(fmt: Formats, item: Type, items: seq<Node>)
    requires TypeOk(fmt, item)
    ensures CheckItems(fmt, item, items).Ok? <==> forall i :: 0 <= i < |items| ==> Acceptable(fmt, item, items[i])
    decreases item, |items| + 1
  {
    hide Acceptable, TypeOk, Check;
    if items != [] {
      var n := |items| - 1;
      ItemsExactly(fmt, item, items[..n]);
      CheckExactly(fmt, item, items[n]);
      assert forall i :: 0 <= i < n ==> items[i] == items[..n][i];
    }
  }

  lemma {:induction false} EntriesExactly(fmt: Formats, value: Type, entries: seq<Entry>)
    requires TypeOk(fmt, value)
    ensures CheckEntries(fmt, value, entries).Ok? <==>
            forall i :: 0 <= i < |entries| ==> Acceptable(fmt, value, entries[i].node)
    decreases value, |entries| + 1
  {
    hide Acceptable, TypeOk, Check;
    if entries != [] {
      var n := |entries| - 1;
      EntriesExactly(fmt, value, entries[..n]);
      CheckExactly(fmt, value, entries[n].node);
      assert forall i :: 0 <= i < n ==> entries[i] == entries[..n][i];
    }
  }

  lemma {:induction false} FieldExactly(fmt: Formats, p: Param, entries: seq<Entry>)
    requires ParamOk(fmt, p)
    ensures CheckField(fmt, p, entries).Ok? <==> FieldAcceptable(fmt, p, entries)
    decreases p, 0
  {
    hide Acceptable, TypeOk, Check, Clonable;
    if Find(entries, p.name).Some? {
      CheckExactly(fmt, p.ty, entries[Find(entries, p.name).value].node);
    }
  }

  lemma {:induction false} FieldsExactly(fmt: Formats, fields: seq<Param>, entries: seq<Entry>)
    requires DistinctNames(fields) && (forall j :: 0 <= j < |fields| ==> ParamOk(fmt, fields[j])) && NoDuplicates(entries)
    ensures CheckFields(fmt, fields, entries).Ok? <==> forall j :: 0 <= j < |fields| ==> FieldAcceptable(fmt, fields[j], entries)
    decreases fields, |fields|
  {
    if fields != [] {
      var p, rest := fields[0], fields[1..];
      FieldExactly(fmt, p, entries);
      NotAgain(fields);
      assert forall j :: 0 <= j < |rest| ==> rest[j] == fields[j + 1];
      assert forall j :: 0 < j < |fields| ==> fields[j] == rest[j - 1];
      if CheckField(fmt, p, entries).Ok? {
        var mid := CheckField(fmt, p, entries).value;
        FieldEffect(fmt, p, entries);
        FieldsExactly(fmt, rest, mid);
        hide CheckField, NoDuplicates, ParamOk;
        forall j | 0 <= j < |rest|
          ensures FieldAcceptable(fmt, rest[j], mid) == FieldAcceptable(fmt, rest[j], entries)
        {
          assert rest[j].name != p.name;
          LookAcceptable(fmt, rest[j], mid, entries);
        }
      }
    }
  }

  lemma {:induction false} LookAcceptable(fmt: Formats, p: Param, a: seq<Entry>, b: seq<Entry>)
    requires Look(a, p.name) == Look(b, p.name)
    ensures FieldAcceptable(fmt, p, a) == FieldAcceptable(fmt, p, b)
  {
    hide Acceptable, Look;
  }

  /** Arguments are accepted if and only if they are an object of known, unrepeated keys
      whose values fit, with nothing missing that is required. */
  lemma {:induction false} AcceptedExactly(fmt: Formats, cmd: Command, args: Node)
    requires CommandOk(fmt, cmd)
    ensures Validate(fmt, cmd, args).Ok? <==> Acceptable(fmt, ObjectT(cmd.params), args)
  {
    CheckExactly(fmt, ObjectT(cmd.params), args);
  }

  // ---- the walk --------------------------------------------------------------------------------------

  /** Every path leaf has a canonical form that one grant covers, and exists if it must. */
  ghost predicate Grantable(host: Host, fs: seq<Perm>, ty: Type, node: Node, depth: nat)
    decreases ty
  {
    depth <= POLICY_MAX_DEPTH
    && match ty
       case PathT(access, mustExist) =>
         node.value.Str? ==>
           var canon := host.canonical(node.value.text);
           canon.Ok? && Covers(fs, canon.value, access) && (mustExist ==> host.present(canon.value))
       case ArrayT(item, _, _) =>
         node.value.Arr? ==>
           forall i :: 0 <= i < |node.value.items| ==> Grantable(host, fs, item, node.value.items[i], depth + 1)
       case MapT(value, _) =>
         node.value.Obj? ==>
           forall i :: 0 <= i < |node.value.entries| ==> Grantable(host, fs, value, node.value.entries[i].node, depth + 1)
       case ObjectT(fields) =>
         node.value.Obj? ==>
           forall j :: 0 <= j < |fields| ==> FieldGrantable(host, fs, fields[j], node.value.entries, depth + 1)
       case _ => true
  }

  ghost predicate FieldGrantable(host: Host, fs: seq<Perm>, p: Param, entries: seq<Entry>, depth: nat)
    decreases p
  {
    match Look(entries, p.name) case Some(node) => Grantable(host, fs, p.ty, node, depth) case None => true
  }

  lemma {:induction false} WalkExactly(fmt: Formats, host: Host, fs: seq<Perm>, ty: Type, node: Node, depth: nat)
    requires TypeOk(fmt, ty) && Conforms(fmt, ty, node)
    ensures Walk(host, fs, ty, node, depth).Ok? <==> Grantable(host, fs, ty, node, depth)
    decreases ty, 0
  {
    hide Covers, Clonable, Find, Look, NoDuplicates, AllKnown, LengthOk, ScalarOk;
    match ty
    case ArrayT(item, _, _) => ItemsWalked(fmt, host, fs, item, node.value.items, depth + 1);
    case MapT(value, _) => EntriesWalked(fmt, host, fs, value, node.value.entries, depth + 1);
    case ObjectT(fields) => FieldsWalked(fmt, host, fs, fields, node.value.entries, depth + 1);
    case _ =>
  }

  lemma {:induction false} ItemsWalked(fmt: Formats, host: Host, fs: seq<Perm>, item: Type, items: seq<Node>, depth: nat)
    requires TypeOk(fmt, item) && (forall i :: 0 <= i < |items| ==> Conforms(fmt, item, items[i]))
    ensures WalkItems(host, fs, item, items, depth).Ok? <==>
            forall i :: 0 <= i < |items| ==> Grantable(host, fs, item, items[i], depth)
    decreases item, |items| + 1
  {
    hide Conforms, TypeOk, Walk, Grantable;
    if items != [] {
      var n := |items| - 1;
      ItemsWalked(fmt, host, fs, item, items[..n], depth);
      WalkExactly(fmt, host, fs, item, items[n], depth);
      assert forall i :: 0 <= i < n ==> items[i] == items[..n][i];
    }
  }

  lemma {:induction false} EntriesWalked(fmt: Formats, host: Host, fs: seq<Perm>, value: Type, entries: seq<Entry>, depth: nat)
    requires TypeOk(fmt, value) && (forall i :: 0 <= i < |entries| ==> Conforms(fmt, value, entries[i].node))
    ensures WalkEntries(host, fs, value, entries, depth).Ok? <==>
            forall i :: 0 <= i < |entries| ==> Grantable(host, fs, value, entries[i].node, depth)
    decreases value, |entries| + 1
  {
    hide Conforms, TypeOk, Walk, Grantable;
    if entries != [] {
      var n := |entries| - 1;
      EntriesWalked(fmt, host, fs, value, entries[..n], depth);
      WalkExactly(fmt, host, fs, value, entries[n].node, depth);
      assert forall i :: 0 <= i < n ==> entries[i] == entries[..n][i];
    }
  }

  lemma {:induction false} FieldWalked(fmt: Formats, host: Host, fs: seq<Perm>, p: Param, entries: seq<Entry>, depth: nat)
    requires ParamOk(fmt, p) && FieldConforms(fmt, p, entries)
    ensures WalkField(host, fs, p, entries, depth).Ok? <==> FieldGrantable(host, fs, p, entries, depth)
    decreases p, 0
  {
    hide Conforms, TypeOk, Walk, Grantable;
    if Find(entries, p.name).Some? {
      WalkExactly(fmt, host, fs, p.ty, entries[Find(entries, p.name).value].node, depth);
    }
  }

  lemma {:induction false} FieldsWalked(fmt: Formats, host: Host, fs: seq<Perm>, fields: seq<Param>, entries: seq<Entry>, depth: nat)
    requires DistinctNames(fields) && (forall j :: 0 <= j < |fields| ==> ParamOk(fmt, fields[j]))
    requires NoDuplicates(entries) && (forall j :: 0 <= j < |fields| ==> FieldConforms(fmt, fields[j], entries))
    ensures WalkFields(host, fs, fields, entries, depth).Ok? <==>
            forall j :: 0 <= j < |fields| ==> FieldGrantable(host, fs, fields[j], entries, depth)
    decreases fields, |fields|
  {
    if fields != [] {
      var p, rest := fields[0], fields[1..];
      FieldWalked(fmt, host, fs, p, entries, depth);
      NotAgain(fields);
      assert forall j :: 0 <= j < |rest| ==> rest[j] == fields[j + 1];
      assert forall j :: 0 < j < |fields| ==> fields[j] == rest[j - 1];
      if WalkField(host, fs, p, entries, depth).Ok? {
        var mid := WalkField(host, fs, p, entries, depth).value;
        WalkFieldEffect(host, fs, p, entries, depth);
        forall j | 0 <= j < |rest|
          ensures FieldConforms(fmt, rest[j], mid)
          ensures FieldGrantable(host, fs, rest[j], mid, depth) == FieldGrantable(host, fs, rest[j], entries, depth)
        {
          assert rest[j].name != p.name;
          LookConforms(fmt, rest[j], entries, mid);
          LookGrantable(host, fs, rest[j], mid, entries, depth);
        }
        FieldsWalked(fmt, host, fs, rest, mid, depth);
      }
    }
  }

  lemma {:induction false} LookGrantable(host: Host, fs: seq<Perm>, p: Param, a: seq<Entry>, b: seq<Entry>, depth: nat)
    requires Look(a, p.name) == Look(b, p.name)
    ensures FieldGrantable(host, fs, p, a, depth) == FieldGrantable(host, fs, p, b, depth)
  {
    hide Grantable, Look;
  }

  /** Validated arguments pass the preflight if and only if every path leaf is granted
      and the requested process and network grants are held. */
  lemma {:induction false} GrantedExactly(fmt: Formats, host: Host, cmd: Command, eff: Effective, wants: Requests, args: Node)
    requires CommandOk(fmt, cmd) && Validate(fmt, cmd, args).Ok?
    ensures var m := Validate(fmt, cmd, args).value;
            Preflight(host, cmd, eff, wants, m).Ok? <==>
            && (forall j :: 0 <= j < |cmd.params| ==> FieldGrantable(host, eff.fs, cmd.params[j], m.value.entries, 0))
            && (wants.proc ==> eff.proc) && (wants.net ==> eff.net)
  {
    var m := Validate(fmt, cmd, args).value;
    ValidatedConforms(fmt, cmd, args);
    FieldsWalked(fmt, host, eff.fs, cmd.params, m.value.entries, 0);
  }
}
