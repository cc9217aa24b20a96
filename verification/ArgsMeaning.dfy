/** What every parameter type means, on the values alone, and which arguments a command takes
    (src/types.c). */
module ArgsMeaning {
  import opened Text
  import opened Types
  import opened Args
  import opened ArgsLaws
  import opened Verdicts
  import Schema

  // ---- scalars --------------------------------------------------------------------------------

  /** A negative bound is none. */
  predicate Between(n: nat, min: int, max: int) { (min < 0 || min <= n) && (max < 0 || n <= max) }

  predicate Bounded(r: real, min: Option<real>, max: Option<real>) {
    (min.Some? ==> min.value <= r) && (max.Some? ==> r <= max.value)
  }

  /** A value without parts fits a type without parts. Integers meet the bounds of an integer
      exactly, and those of a number as the nearest double. */
  ghost predicate FitsScalar(fmt: Formats, ty: Type, v: Value) {
    match ty
    case StringT(min, max) => exists t :: v == Str(t) && Between(|t|, min, max)
    case BytesT(min, max) => exists data :: v == Bytes(data) && Between(|data|, min, max)
    case IntegerT(min, max) => exists i :: v == Int(i) && Bounded(i as real, min, max)
    case NumberT(min, max) =>
      || (exists i :: v == Int(i) && Bounded(Schema.AsDouble(i) as real, min, max))
      || (exists r :: v == Flt(Finite(r)) && Bounded(r, min, max))
    case BooleanT => v == Bool(true) || v == Bool(false)
    case DatetimeT => exists t :: v == Datetime(t) && fmt.datetime(t)
    case DurationT => exists t :: v == Duration(t) && fmt.duration(t)
    case UuidT => exists t :: v == Uuid(t) && fmt.uuid(t)
    case PathT(_, _) => exists t :: v == Str(t) && t != ""
    case EnumT(values) => exists k :: 0 <= k < |values| && v == Str(values[k])
    case _ => false
  }

  predicate InInt64(i: int) { -0x8000_0000_0000_0000 <= i < 0x8000_0000_0000_0000 }

  lemma {:induction false} CeilIs(r: real, i: int)
    ensures i >= Ceil(r) <==> i as real >= r
  {
    assert (-r).Floor as real <= -r < (-r).Floor as real + 1.0;
    assert (-i) as real == -(i as real);
  }

  lemma {:induction false} FloorIs(r: real, i: int)
    ensures i <= r.Floor <==> i as real <= r
  {
  }

  lemma {:induction false} IntGeExactly(i: int, bound: real)
    requires InInt64(i)
    ensures IntGe(i, bound) <==> i as real >= bound
  {
    CeilIs(bound, i);
    hide Ceil;
  }

  lemma {:induction false} IntLeExactly(i: int, bound: real)
    requires InInt64(i)
    ensures IntLe(i, bound) <==> i as real <= bound
  {
    FloorIs(bound, i);
  }

  lemma {:induction false} ScalarExactly(fmt: Formats, ty: Type, v: Value)
    requires v.Int? ==> InInt64(v.i)
    ensures ScalarOk(fmt, ty, v) <==> FitsScalar(fmt, ty, v)
  {
    hide IntGe, IntLe, Schema.AsDouble;
    match ty
    case StringT(_, _) =>
    case BytesT(_, _) =>
    case IntegerT(min, max) =>
      if v.Int? {
        if min.Some? {
          IntGeExactly(v.i, min.value);
        }
        if max.Some? {
          IntLeExactly(v.i, max.value);
        }
      }
    case NumberT(_, _) => NumberExactly(v, ty);
    case EnumT(values) => assert v.Str? && v.text in values ==> exists k :: 0 <= k < |values| && values[k] == v.text;
    case _ =>
  }

  lemma {:induction false} NumberExactly(v: Value, ty: Type)
    requires ty.NumberT?
    ensures NumberOk(v, ty.min, ty.max)
       <==> || (exists i :: v == Int(i) && Bounded(Schema.AsDouble(i) as real, ty.min, ty.max))
            || (exists r :: v == Flt(Finite(r)) && Bounded(r, ty.min, ty.max))
  {
    hide Schema.AsDouble;
  }

  // ---- copies ------------------------------------------------------------------------------------

  function Max(a: nat, b: nat): nat { if a < b then b else a }

  /** How deep lists and objects nest, the value itself included. */
  function Levels(node: Node): nat
    decreases node
  {
    match node.value
    case Arr(items) => 1 + ItemLevels(items)
    case Obj(entries) => 1 + EntryLevels(entries)
    case _ => 1
  }

  function ItemLevels(items: seq<Node>): nat
    decreases items
  {
    if items == [] then 0 else Max(Levels(items[0]), ItemLevels(items[1..]))
  }

  function EntryLevels(entries: seq<Entry>): nat
    decreases entries
  {
    if entries == [] then 0 else Max(Levels(entries[0].node), EntryLevels(entries[1..]))
  }

  lemma {:induction false} ClonableExactly(node: Node, depth: nat)
    ensures Clonable(node, depth) <==> depth + 2 * (Levels(node) - 1) < 64
    decreases node, 0
  {
    match node.value
    case Arr(items) => ItemsClonable(items, depth + 2);
    case Obj(entries) => EntriesClonable(entries, depth + 2);
    case _ =>
  }

  lemma {:induction false} ItemsClonable(items: seq<Node>, depth: nat)
    ensures (forall i :: 0 <= i < |items| ==> Clonable(items[i], depth)) <==> items == [] || depth + 2 * (ItemLevels(items) - 1) < 64
    decreases items, 1
  {
    hide Clonable, Levels;
    if items != [] {
      ClonableExactly(items[0], depth);
      ItemsClonable(items[1..], depth);
      assert forall i :: 0 < i < |items| ==> items[i] == items[1..][i - 1];
    }
  }

  lemma {:induction false} EntriesClonable(entries: seq<Entry>, depth: nat)
    ensures (forall i :: 0 <= i < |entries| ==> Clonable(entries[i].node, depth))
       <==> entries == [] || depth + 2 * (EntryLevels(entries) - 1) < 64
    decreases entries, 1
  {
    hide Clonable, Levels;
    if entries != [] {
      ClonableExactly(entries[0].node, depth);
      EntriesClonable(entries[1..], depth);
      assert forall i :: 0 < i < |entries| ==> entries[i] == entries[1..][i - 1];
    }
  }

  // ---- whole arguments -------------------------------------------------------------------------------

  /** Integers are 64 bits wide. */
  ghost predicate Wide64(node: Node)
    decreases node
  {
    match node.value
    case Int(i) => InInt64(i)
    case Arr(items) => forall i :: 0 <= i < |items| ==> Wide64(items[i])
    case Obj(entries) => forall i :: 0 <= i < |entries| ==> Wide64(entries[i].node)
    case _ => true
  }

  ghost predicate DistinctKeys(entries: seq<Entry>) {
    forall i, j :: 0 <= i < |entries| && 0 <= j < |entries| && entries[i].key == entries[j].key ==> i == j
  }

  ghost predicate Has(entries: seq<Entry>, key: string) { exists i :: 0 <= i < |entries| && entries[i].key == key }

  ghost predicate IsField(fields: seq<Param>, key: string) { exists j :: 0 <= j < |fields| && key == fields[j].name }

  /** The value fits the type: a list and a map item by item, an object with known keys alone
      and every field in order. */
  ghost predicate Fits(fmt: Formats, ty: Type, node: Node)
    decreases ty
  {
    match ty
    case ArrayT(item, min, max) =>
      (match node.value
       case Arr(items) => Between(|items|, min, max) && forall i :: 0 <= i < |items| ==> Fits(fmt, item, items[i])
       case _ => false)
    case MapT(value, max) =>
      (match node.value
       case Obj(entries) =>
         && (max < 0 || |entries| <= max) && DistinctKeys(entries)
         && forall i :: 0 <= i < |entries| ==> Fits(fmt, value, entries[i].node)
       case _ => false)
    case ObjectT(fields) =>
      (match node.value
       case Obj(entries) =>
         && DistinctKeys(entries)
         && (forall i :: 0 <= i < |entries| ==> IsField(fields, entries[i].key))
         && forall j :: 0 <= j < |fields| ==> FieldFits(fmt, fields[j], entries)
       case _ => false)
    case _ => FitsScalar(fmt, ty, node.value)
  }

  /** A field is there and fits, or may be left out: it is optional, and its default nests at
      most 32 levels. */
  ghost predicate FieldFits(fmt: Formats, p: Param, entries: seq<Entry>)
    decreases p
  {
    if Has(entries, p.name) then exists i :: 0 <= i < |entries| && entries[i].key == p.name && Fits(fmt, p.ty, entries[i].node)
    else !p.required && (p.dflt.Some? ==> Levels(p.dflt.value) <= 32)
  }

  lemma {:induction false} FitsExactly(fmt: Formats, ty: Type, node: Node)
    requires Wide64(node)
    ensures Acceptable(fmt, ty, node) <==> Fits(fmt, ty, node)
    decreases ty, 0
  {
    hide ScalarOk, FitsScalar, FieldFits, FieldAcceptable;
    match ty
    case ArrayT(item, _, _) =>
      if node.value.Arr? {
        forall i | 0 <= i < |node.value.items|
          ensures Acceptable(fmt, item, node.value.items[i]) <==> Fits(fmt, item, node.value.items[i])
        {
          FitsExactly(fmt, item, node.value.items[i]);
        }
      }
    case MapT(value, _) =>
      if node.value.Obj? {
        forall i | 0 <= i < |node.value.entries|
          ensures Acceptable(fmt, value, node.value.entries[i].node) <==> Fits(fmt, value, node.value.entries[i].node)
        {
          FitsExactly(fmt, value, node.value.entries[i].node);
        }
        KeysExactly(node.value.entries);
      }
    case ObjectT(fields) =>
      if node.value.Obj? {
        KeysExactly(node.value.entries);
        KnownExactly(fields, node.value.entries);
        if NoDuplicates(node.value.entries) {
          forall j | 0 <= j < |fields|
            ensures FieldAcceptable(fmt, fields[j], node.value.entries) <==> FieldFits(fmt, fields[j], node.value.entries)
          {
            FieldExactly(fmt, fields[j], node.value.entries);
          }
        }
      }
    case _ => ScalarExactly(fmt, ty, node.value);
  }

  lemma {:induction false} KeysExactly(entries: seq<Entry>)
    ensures NoDuplicates(entries) <==> DistinctKeys(entries)
  {
  }

  lemma {:induction false} KnownExactly(fields: seq<Param>, entries: seq<Entry>)
    ensures AllKnown(fields, entries) <==> forall i :: 0 <= i < |entries| ==> IsField(fields, entries[i].key)
  {
    forall i | 0 <= i < |entries|
      ensures HasField(fields, entries[i].key) <==> IsField(fields, entries[i].key)
    {
    }
  }

  lemma {:induction false} FieldExactly(fmt: Formats, p: Param, entries: seq<Entry>)
    requires NoDuplicates(entries) && forall i :: 0 <= i < |entries| ==> Wide64(entries[i].node)
    ensures FieldAcceptable(fmt, p, entries) <==> FieldFits(fmt, p, entries)
    decreases p, 0
  {
    hide Acceptable, Fits, Clonable, Levels;
    match Find(entries, p.name)
    case None =>
      if p.dflt.Some? {
        ClonableExactly(p.dflt.value, 0);
      }
    case Some(k) =>
      FitsExactly(fmt, p.ty, entries[k].node);
      assert forall i :: 0 <= i < |entries| && entries[i].key == p.name ==> i == k;
  }

  /** Arguments are accepted exactly when they fit the parameters of the command. */
  lemma {:induction false} TakenExactly(fmt: Formats, cmd: Command, args: Node)
    requires CommandOk(fmt, cmd) && Wide64(args)
    ensures Validate(fmt, cmd, args).Ok? <==> Fits(fmt, ObjectT(cmd.params), args)
  {
    AcceptedExactly(fmt, cmd, args);
    FitsExactly(fmt, ObjectT(cmd.params), args);
    hide Acceptable, Fits, Validate;
  }
}
