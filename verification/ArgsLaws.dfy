/** What a validated argument tree looks like, and what validation changed. */
module ArgsLaws {
  import opened Text
  import opened Types
  import opened Args

  // ---- manifests ------------------------------------------------------------------------

  ghost predicate DistinctNames(fields: seq<Param>) {
    forall i, j :: 0 <= i < j < |fields| ==> fields[i].name != fields[j].name
  }

  /** As a manifest is parsed: field names differ, a required field has no default, and
      a default is what checking some tree against its type left. */
  ghost predicate TypeOk(fmt: Formats, ty: Type)
    decreases ty
  {
    match ty
    case ArrayT(item, _, _) => TypeOk(fmt, item)
    case MapT(value, _) => TypeOk(fmt, value)
    case ObjectT(fields) => DistinctNames(fields) && forall i :: 0 <= i < |fields| ==> ParamOk(fmt, fields[i])
    case _ => true
  }

  ghost predicate ParamOk(fmt: Formats, p: Param)
    decreases p
  {
    && TypeOk(fmt, p.ty)
    && (p.required ==> p.dflt.None?)
    && (p.dflt.Some? ==> exists d :: Check(fmt, p.ty, d) == Ok(p.dflt.value))
  }

  // ---- conforming trees ------------------------------------------------------------------

  /** A tree of the type with every default in place, at every depth. */
  ghost predicate Conforms(fmt: Formats, ty: Type, node: Node)
    decreases ty
  {
    match ty
    case ArrayT(item, min, max) =>
      && node.value.Arr? && LengthOk(|node.value.items|, min, max)
      && forall i :: 0 <= i < |node.value.items| ==> Conforms(fmt, item, node.value.items[i])
    case MapT(value, max) =>
      && node.value.Obj? && LengthOk(|node.value.entries|, -1, max) && NoDuplicates(node.value.entries)
      && forall i :: 0 <= i < |node.value.entries| ==> Conforms(fmt, value, node.value.entries[i].node)
    case ObjectT(fields) => node.value.Obj? && ObjectConforms(fmt, fields, node.value.entries)
    case _ => ScalarOk(fmt, ty, node.value)
  }

  ghost predicate ObjectConforms(fmt: Formats, fields: seq<Param>, entries: seq<Entry>)
    decreases fields
  {
    && NoDuplicates(entries) && AllKnown(fields, entries)
    && forall j :: 0 <= j < |fields| ==> FieldConforms(fmt, fields[j], entries)
  }

  ghost predicate FieldConforms(fmt: Formats, p: Param, entries: seq<Entry>)
    decreases p
  {
    match Find(entries, p.name)
    case Some(i) => Conforms(fmt, p.ty, entries[i].node)
    case None => !p.required && p.dflt.None?
  }

  // ---- one field at a time -------------------------------------------------------------------

  /** The entries keep their places and keys; new ones stand at the end. */
  ghost predicate Extends(before: seq<Entry>, after: seq<Entry>) {
    |before| <= |after| && forall i :: 0 <= i < |before| ==> after[i].key == before[i].key
  }

  function Look(entries: seq<Entry>, key: string): Option<Node> {
    match Find(entries, key) case None => None case Some(i) => Some(entries[i].node)
  }

  lemma {:induction false} FindFirst(entries: seq<Entry>, i: nat)
    requires NoDuplicates(entries) && i < |entries|
    ensures Find(entries, entries[i].key) == Some(i)
  {
  }

  /** Checking one field touches that field only. */
  lemma {:induction false} FieldEffect(fmt: Formats, p: Param, entries: seq<Entry>)
    requires NoDuplicates(entries) && CheckField(fmt, p, entries).Ok?
    ensures var after := CheckField(fmt, p, entries).value;
            && NoDuplicates(after) && Extends(entries, after)
            && (forall key :: key != p.name ==> Look(after, key) == Look(entries, key))
            && (forall i :: 0 <= i < |entries| && entries[i].key != p.name ==> after[i] == entries[i])
            && (forall i :: |entries| <= i < |after| ==> after[i].key == p.name)
  {
    hide Check, Clonable;
    var after := CheckField(fmt, p, entries).value;
    assert NoDuplicates(after);
    forall key | key != p.name
      ensures Look(after, key) == Look(entries, key)
    {
      if Find(entries, key).Some? {
        FindFirst(after, Find(entries, key).value);
      } else {
        assert forall i :: 0 <= i < |after| ==> after[i].key != key;
      }
    }
  }

  ghost predicate Names(fields: seq<Param>, key: string) { exists j :: 0 <= j < |fields| && fields[j].name == key }

  /** Checking the fields leaves every other entry alone and appends only fields. */
  lemma {:induction false} FieldsEffect(fmt: Formats, fields: seq<Param>, entries: seq<Entry>)
    requires NoDuplicates(entries) && CheckFields(fmt, fields, entries).Ok?
    ensures var after := CheckFields(fmt, fields, entries).value;
            && NoDuplicates(after) && Extends(entries, after)
            && (forall key :: !Names(fields, key) ==> Look(after, key) == Look(entries, key))
            && (forall i :: 0 <= i < |entries| && !Names(fields, entries[i].key) ==> after[i] == entries[i])
            && (forall i :: |entries| <= i < |after| ==> Names(fields, after[i].key))
    decreases |fields|
  {
    if fields != [] {
      var mid := CheckField(fmt, fields[0], entries).value;
      FieldEffect(fmt, fields[0], entries);
      FieldsEffect(fmt, fields[1..], mid);
      hide CheckField, NoDuplicates, Look;
      assert forall key :: Names(fields, key) <==> key == fields[0].name || Names(fields[1..], key) by {
        NamesCons(fields);
      }
    }
  }

  lemma {:induction false} NamesCons(fields: seq<Param>)
    requires fields != []
    ensures forall key :: Names(fields, key) <==> key == fields[0].name || Names(fields[1..], key)
  {
  }

  lemma {:induction false} NotAgain(fields: seq<Param>)
    requires fields != [] && DistinctNames(fields)
    ensures !Names(fields[1..], fields[0].name) && DistinctNames(fields[1..])
  {
  }

  // ---- a successful check conforms ---------------------------------------------------------------

  lemma {:induction false} CheckConforms(fmt: Formats, ty: Type, node: Node)
    requires TypeOk(fmt, ty) && Check(fmt, ty, node).Ok?
    ensures Conforms(fmt, ty, Check(fmt, ty, node).value)
    decreases ty, 0
  {
    match ty
    case ArrayT(item, _, _) => ItemsConform(fmt, item, node.value.items);
    case MapT(value, _) =>
      EntriesConform(fmt, value, node.value.entries);
    case ObjectT(fields) => ObjectDone(fmt, fields, node.value.entries);
    case _ =>
  }

  lemma {:induction false} ItemsConform(fmt: Formats, item: Type, items: seq<Node>)
    requires TypeOk(fmt, item) && CheckItems(fmt, item, items).Ok?
    ensures var r := CheckItems(fmt, item, items).value;
            |r| == |items| && forall i :: 0 <= i < |r| ==> Conforms(fmt, item, r[i])
    decreases item, |items| + 1
  {
    hide Conforms, TypeOk, Check;
    if items != [] {
      ItemsConform(fmt, item, items[..|items| - 1]);
      CheckConforms(fmt, item, items[|items| - 1]);
    }
  }

  lemma {:induction false} EntriesConform(fmt: Formats, value: Type, entries: seq<Entry>)
    requires TypeOk(fmt, value) && CheckEntries(fmt, value, entries).Ok?
    ensures var r := CheckEntries(fmt, value, entries).value;
            |r| == |entries| && forall i :: 0 <= i < |r| ==> r[i].key == entries[i].key && Conforms(fmt, value, r[i].node)
    decreases value, |entries| + 1
  {
    hide Conforms, TypeOk, Check;
    if entries != [] {
      EntriesConform(fmt, value, entries[..|entries| - 1]);
      CheckConforms(fmt, value, entries[|entries| - 1].node);
    }
  }

  lemma {:induction false} FieldDone(fmt: Formats, p: Param, entries: seq<Entry>)
    requires ParamOk(fmt, p) && NoDuplicates(entries) && CheckField(fmt, p, entries).Ok?
    ensures FieldConforms(fmt, p, CheckField(fmt, p, entries).value)
    decreases p, 0
  {
    hide Conforms, TypeOk, Clonable;
    var after := CheckField(fmt, p, entries).value;
    FieldEffect(fmt, p, entries);
    if Find(entries, p.name).Some? {
      var i := Find(entries, p.name).value;
      CheckConforms(fmt, p.ty, entries[i].node);
      FindFirst(after, i);
    } else if p.dflt.Some? {
      var d :| Check(fmt, p.ty, d) == Ok(p.dflt.value);
      CheckConforms(fmt, p.ty, d);
      FindFirst(after, |entries|);
    }
  }

  lemma {:induction false} FieldsDone(fmt: Formats, fields: seq<Param>, entries: seq<Entry>)
    requires DistinctNames(fields) && (forall i :: 0 <= i < |fields| ==> ParamOk(fmt, fields[i]))
    requires NoDuplicates(entries) && CheckFields(fmt, fields, entries).Ok?
    ensures var after := CheckFields(fmt, fields, entries).value;
            forall j :: 0 <= j < |fields| ==> FieldConforms(fmt, fields[j], after)
    decreases fields, |fields|
  {
    if fields != [] {
      var mid := CheckField(fmt, fields[0], entries).value;
      FieldEffect(fmt, fields[0], entries);
      FieldDone(fmt, fields[0], entries);
      NotAgain(fields);
      FieldsDone(fmt, fields[1..], mid);
      FieldsEffect(fmt, fields[1..], mid);
      var after := CheckFields(fmt, fields, entries).value;
      hide Conforms, ParamOk, CheckField, NoDuplicates;
      assert Look(after, fields[0].name) == Look(mid, fields[0].name);
      LookConforms(fmt, fields[0], mid, after);
      assert forall j :: 0 < j < |fields| ==> fields[j] == fields[1..][j - 1];
    }
  }

  lemma {:induction false} LookConforms(fmt: Formats, p: Param, a: seq<Entry>, b: seq<Entry>)
    requires Look(a, p.name) == Look(b, p.name) && FieldConforms(fmt, p, a)
    ensures FieldConforms(fmt, p, b)
  {
  }

  lemma {:induction false} ObjectDone(fmt: Formats, fields: seq<Param>, entries: seq<Entry>)
    requires DistinctNames(fields) && (forall i :: 0 <= i < |fields| ==> ParamOk(fmt, fields[i]))
    requires CheckObject(fmt, fields, entries).Ok?
    ensures ObjectConforms(fmt, fields, CheckObject(fmt, fields, entries).value)
    decreases fields, |fields| + 1
  {
    hide FieldConforms, ParamOk;
    var after := CheckObject(fmt, fields, entries).value;
    FieldsDone(fmt, fields, entries);
    FieldsEffect(fmt, fields, entries);
    forall i | 0 <= i < |after|
      ensures HasField(fields, after[i].key)
    {
      if i < |entries| {
        assert after[i].key == entries[i].key;
        assert HasField(fields, entries[i].key);
      } else {
        assert Names(fields, after[i].key);
      }
    }
  }

  // ---- conforming trees are left alone ---------------------------------------------------------------

  lemma {:induction false} ConformsChecks(fmt: Formats, ty: Type, node: Node)
    requires Conforms(fmt, ty, node)
    ensures Check(fmt, ty, node) == Ok(node)
    decreases ty, 0
  {
    match ty
    case ArrayT(item, _, _) => ItemsStay(fmt, item, node.value.items);
    case MapT(value, _) => EntriesStay(fmt, value, node.value.entries);
    case ObjectT(fields) => FieldsStay(fmt, fields, node.value.entries);
    case _ =>
  }

  lemma {:induction false} ItemsStay(fmt: Formats, item: Type, items: seq<Node>)
    requires forall i :: 0 <= i < |items| ==> Conforms(fmt, item, items[i])
    ensures CheckItems(fmt, item, items) == Ok(items)
    decreases item, |items| + 1
  {
    hide Conforms, Check;
    if items != [] {
      assert items == items[..|items| - 1] + [items[|items| - 1]];
      ItemsStay(fmt, item, items[..|items| - 1]);
      ConformsChecks(fmt, item, items[|items| - 1]);
    }
  }

  lemma {:induction false} EntriesStay(fmt: Formats, value: Type, entries: seq<Entry>)
    requires forall i :: 0 <= i < |entries| ==> Conforms(fmt, value, entries[i].node)
    ensures CheckEntries(fmt, value, entries) == Ok(entries)
    decreases value, |entries| + 1
  {
    hide Conforms, Check;
    if entries != [] {
      assert entries == entries[..|entries| - 1] + [entries[|entries| - 1]];
      EntriesStay(fmt, value, entries[..|entries| - 1]);
      ConformsChecks(fmt, value, entries[|entries| - 1].node);
    }
  }

  lemma {:induction false} FieldsStay(fmt: Formats, fields: seq<Param>, entries: seq<Entry>)
    requires forall j :: 0 <= j < |fields| ==> FieldConforms(fmt, fields[j], entries)
    ensures CheckFields(fmt, fields, entries) == Ok(entries)
    decreases fields, |fields|
  {
    if fields != [] {
      FieldStays(fmt, fields[0], entries);
      hide FieldConforms, CheckField;
      FieldsStay(fmt, fields[1..], entries);
    }
  }

  lemma {:induction false} FieldStays(fmt: Formats, p: Param, entries: seq<Entry>)
    requires FieldConforms(fmt, p, entries)
    ensures CheckField(fmt, p, entries) == Ok(entries)
    decreases p, 0
  {
    hide Conforms, Check;
    var at := Find(entries, p.name);
    if at.Some? {
      ConformsChecks(fmt, p.ty, entries[at.value].node);
      assert entries[at.value := Entry(p.name, entries[at.value].node)] == entries;
    }
  }

  // ---- what validation changed -------------------------------------------------------------------------

  /** after is before with absent optional fields filled in from their defaults, and
      nothing else. */
  ghost predicate Injects(ty: Type, before: Node, after: Node)
    decreases ty
  {
    && before.tags == after.tags
    && match ty
       case ArrayT(item, _, _) =>
         && before.value.Arr? && after.value.Arr? && |before.value.items| == |after.value.items|
         && forall i :: 0 <= i < |before.value.items| ==> Injects(item, before.value.items[i], after.value.items[i])
       case MapT(value, _) =>
         && before.value.Obj? && after.value.Obj? && |before.value.entries| == |after.value.entries|
         && forall i :: 0 <= i < |before.value.entries| ==>
              before.value.entries[i].key == after.value.entries[i].key
              && Injects(value, before.value.entries[i].node, after.value.entries[i].node)
       case ObjectT(fields) =>
         && before.value.Obj? && after.value.Obj? && Extends(before.value.entries, after.value.entries)
         && (forall i :: 0 <= i < |before.value.entries| ==>
               EntryInjects(fields, before.value.entries[i], after.value.entries[i]))
         && (forall i :: |before.value.entries| <= i < |after.value.entries| ==>
               IsDefault(fields, before.value.entries, after.value.entries[i]))
       case _ => before == after
  }

  ghost predicate EntryInjects(fields: seq<Param>, before: Entry, after: Entry)
    decreases fields
  {
    exists j :: 0 <= j < |fields| && fields[j].name == before.key && Injects(fields[j].ty, before.node, after.node)
  }

  /** An appended entry is the default of an optional field that was absent. */
  ghost predicate IsDefault(fields: seq<Param>, before: seq<Entry>, e: Entry) {
    exists j :: 0 <= j < |fields| && fields[j].name == e.key && !fields[j].required && fields[j].dflt == Some(e.node)
                && Find(before, e.key).None?
  }

  lemma {:induction false} CheckInjects(fmt: Formats, ty: Type, node: Node)
    requires TypeOk(fmt, ty) && Check(fmt, ty, node).Ok?
    ensures Injects(ty, node, Check(fmt, ty, node).value)
    decreases ty, 0
  {
    match ty
    case ArrayT(item, _, _) => ItemsInject(fmt, item, node.value.items);
    case MapT(value, _) => EntriesInject(fmt, value, node.value.entries);
    case ObjectT(fields) => ObjectInjects(fmt, fields, node.value.entries);
    case _ =>
  }

  lemma {:induction false} ItemsInject(fmt: Formats, item: Type, items: seq<Node>)
    requires TypeOk(fmt, item) && CheckItems(fmt, item, items).Ok?
    ensures var r := CheckItems(fmt, item, items).value;
            |r| == |items| && forall i :: 0 <= i < |r| ==> Injects(item, items[i], r[i])
    decreases item, |items| + 1
  {
    hide Injects, TypeOk, Check;
    if items != [] {
      ItemsInject(fmt, item, items[..|items| - 1]);
      CheckInjects(fmt, item, items[|items| - 1]);
    }
  }

  lemma {:induction false} EntriesInject(fmt: Formats, value: Type, entries: seq<Entry>)
    requires TypeOk(fmt, value) && CheckEntries(fmt, value, entries).Ok?
    ensures var r := CheckEntries(fmt, value, entries).value;
            |r| == |entries| && forall i :: 0 <= i < |r| ==> r[i].key == entries[i].key && Injects(value, entries[i].node, r[i].node)
    decreases value, |entries| + 1
  {
    hide Injects, TypeOk, Check;
    if entries != [] {
      EntriesInject(fmt, value, entries[..|entries| - 1]);
      CheckInjects(fmt, value, entries[|entries| - 1].node);
    }
  }

  /** The entries of a partly checked object: those of done are in their final form. */
  ghost predicate Partly(fields: seq<Param>, before: seq<Entry>, after: seq<Entry>) {
    && Extends(before, after)
    && (forall i :: 0 <= i < |before| && Names(fields, before[i].key) ==> EntryInjects(fields, before[i], after[i]))
    && (forall i :: |before| <= i < |after| ==> IsDefault(fields, before, after[i]))
  }

  lemma {:induction false} FieldInjects(fmt: Formats, p: Param, entries: seq<Entry>)
    requires ParamOk(fmt, p) && NoDuplicates(entries) && CheckField(fmt, p, entries).Ok?
    ensures Partly([p], entries, CheckField(fmt, p, entries).value)
    decreases p, 0
  {
    hide Injects, TypeOk, Clonable;
    var after := CheckField(fmt, p, entries).value;
    FieldEffect(fmt, p, entries);
    assert [p][0] == p;
    if Find(entries, p.name).Some? {
      CheckInjects(fmt, p.ty, entries[Find(entries, p.name).value].node);
    }
    forall i | 0 <= i < |entries| && Names([p], entries[i].key)
      ensures EntryInjects([p], entries[i], after[i])
    {
      FindFirst(entries, i);
      assert [p][0].name == entries[i].key;
    }
  }

  lemma {:induction false} FieldsInject(fmt: Formats, fields: seq<Param>, entries: seq<Entry>)
    requires DistinctNames(fields) && (forall i :: 0 <= i < |fields| ==> ParamOk(fmt, fields[i]))
    requires NoDuplicates(entries) && CheckFields(fmt, fields, entries).Ok?
    ensures Partly(fields, entries, CheckFields(fmt, fields, entries).value)
    decreases fields, |fields|
  {
    if fields != [] {
      var mid := CheckField(fmt, fields[0], entries).value;
      var after := CheckFields(fmt, fields, entries).value;
      FieldEffect(fmt, fields[0], entries);
      FieldInjects(fmt, fields[0], entries);
      NotAgain(fields);
      FieldsInject(fmt, fields[1..], mid);
      FieldsEffect(fmt, fields[1..], mid);
      hide Check, CheckField, CheckFields, ParamOk, EntryInjects, IsDefault;
      PartlyCons(fields, entries, mid, after);
    }
  }

  /** First one field, then the others. */
  lemma {:induction false} PartlyCons(fields: seq<Param>, before: seq<Entry>, mid: seq<Entry>, after: seq<Entry>)
    requires fields != [] && DistinctNames(fields) && NoDuplicates(before)
    requires Partly([fields[0]], before, mid) && Partly(fields[1..], mid, after)
    requires forall i :: 0 <= i < |before| && before[i].key != fields[0].name ==> mid[i] == before[i]
    requires forall i :: 0 <= i < |mid| && !Names(fields[1..], mid[i].key) ==> after[i] == mid[i]
    ensures Partly(fields, before, after)
  {
    hide EntryInjects, IsDefault;
    assert fields[0..1] == [fields[0]] && fields[1..|fields|] == fields[1..];
    NamesCons(fields);
    NotAgain(fields);
    forall i | 0 <= i < |before| && Names(fields, before[i].key)
      ensures EntryInjects(fields, before[i], after[i])
    {
      if before[i].key == fields[0].name {
        assert after[i] == mid[i];
        assert [fields[0]][0].name == before[i].key;
        EntryWider(fields, 0, 1, before[i], mid[i]);
      } else {
        assert mid[i] == before[i];
        EntryWider(fields, 1, |fields|, before[i], after[i]);
      }
    }
    forall i | |before| <= i < |after|
      ensures IsDefault(fields, before, after[i])
    {
      if i < |mid| {
        DefaultWider(fields, 0, 1, before, before, mid[i]);
        assert !Names(fields[1..], mid[i].key) by {
          DefaultNamed(fields[0], before, mid[i]);
        }
      } else {
        MidAbsent(before, mid, fields[1..], after[i]);
        DefaultWider(fields, 1, |fields|, mid, before, after[i]);
      }
    }
  }

  lemma {:induction false} EntryWider(fields: seq<Param>, lo: nat, hi: nat, before: Entry, after: Entry)
    requires lo <= hi <= |fields| && EntryInjects(fields[lo..hi], before, after)
    ensures EntryInjects(fields, before, after)
  {
  }

  lemma {:induction false} DefaultWider(fields: seq<Param>, lo: nat, hi: nat, mid: seq<Entry>, before: seq<Entry>, e: Entry)
    requires lo <= hi <= |fields| && IsDefault(fields[lo..hi], mid, e) && (Find(mid, e.key).None? ==> Find(before, e.key).None?)
    ensures IsDefault(fields, before, e)
  {
  }

  lemma {:induction false} DefaultNamed(p: Param, before: seq<Entry>, e: Entry)
    requires IsDefault([p], before, e)
    ensures e.key == p.name
  {
  }

  lemma {:induction false} MidAbsent(before: seq<Entry>, mid: seq<Entry>, fields: seq<Param>, e: Entry)
    requires Extends(before, mid)
    ensures Find(mid, e.key).None? ==> Find(before, e.key).None?
  {
  }

  lemma {:induction false} ObjectInjects(fmt: Formats, fields: seq<Param>, entries: seq<Entry>)
    requires DistinctNames(fields) && (forall i :: 0 <= i < |fields| ==> ParamOk(fmt, fields[i]))
    requires CheckObject(fmt, fields, entries).Ok?
    ensures var after := CheckObject(fmt, fields, entries).value;
            && Extends(entries, after)
            && (forall i :: 0 <= i < |entries| ==> EntryInjects(fields, entries[i], after[i]))
            && (forall i :: |entries| <= i < |after| ==> IsDefault(fields, entries, after[i]))
    decreases fields, |fields| + 1
  {
    hide ParamOk, EntryInjects, IsDefault;
    FieldsInject(fmt, fields, entries);
    forall i | 0 <= i < |entries|
      ensures Names(fields, entries[i].key)
    {
      assert HasField(fields, entries[i].key);
    }
  }

  // ---- validation ---------------------------------------------------------------------------------------

  ghost predicate CommandOk(fmt: Formats, cmd: Command) { TypeOk(fmt, ObjectT(cmd.params)) }

  /** Validated arguments conform at every depth, differ from the given ones only by
      injected defaults, and validate again to themselves. */
  lemma {:induction false} ValidatedConforms(fmt: Formats, cmd: Command, args: Node)
    requires CommandOk(fmt, cmd) && Validate(fmt, cmd, args).Ok?
    ensures var r := Validate(fmt, cmd, args).value;
            && Conforms(fmt, ObjectT(cmd.params), r)
            && Injects(ObjectT(cmd.params), args, r)
            && Validate(fmt, cmd, r) == Ok(r)
  {
    hide Conforms, Injects, TypeOk;
    var ty := ObjectT(cmd.params);
    assert forall n: Node :: Validate(fmt, cmd, n) == Check(fmt, ty, n);
    CheckConforms(fmt, ty, args);
    CheckInjects(fmt, ty, args);
    ConformsChecks(fmt, ty, Validate(fmt, cmd, args).value);
  }

  /** Arguments that already conform are accepted unchanged, and only those are. */
  lemma {:induction false} ConformingAccepted(fmt: Formats, cmd: Command, args: Node)
    requires CommandOk(fmt, cmd)
    ensures Validate(fmt, cmd, args) == Ok(args) <==> Conforms(fmt, ObjectT(cmd.params), args)
  {
    hide Conforms, TypeOk;
    var ty := ObjectT(cmd.params);
    assert Validate(fmt, cmd, args) == Check(fmt, ty, args);
    if Validate(fmt, cmd, args) == Ok(args) {
      CheckConforms(fmt, ty, args);
    }
    if Conforms(fmt, ty, args) {
      ConformsChecks(fmt, ty, args);
    }
  }
}
