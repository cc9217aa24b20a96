/** Argument validation against a command's closed schema, injecting defaults
    (src/types.c), as functions from a value tree to the tree it becomes. */
module Args {
  import opened Text
  import opened Types
  import Schema

  datatype Error = Invalid | NoMemory | Denied | Unreadable

  datatype Result<+T> = Ok(value: T) | Err(error: Error)

  /** The text formats that are checked elsewhere: RFC 3339, ISO 8601, UUID. */
  datatype Formats = Formats(datetime: string -> bool, duration: string -> bool, uuid: string -> bool)

  // ---- lookups --------------------------------------------------------------------------

  /** xcdn_object_get: position of the first entry with that key. */
  function Find(entries: seq<Entry>, key: string): (r: Option<nat>)
    ensures r.Some? ==> r.value < |entries| && entries[r.value].key == key
    ensures r.None? <==> forall i :: 0 <= i < |entries| ==> entries[i].key != key
  {
    if entries == [] then None
    else if entries[0].key == key then Some(0)
    else match Find(entries[1..], key) case None => None case Some(i) => Some(i + 1)
  }

  predicate HasField(fields: seq<Param>, key: string) { exists j :: 0 <= j < |fields| && fields[j].name == key }

  /** check_obj_dups finds nothing. */
  predicate NoDuplicates(entries: seq<Entry>) {
    forall i, j :: 0 <= i < j < |entries| ==> entries[i].key != entries[j].key
  }

  predicate AllKnown(fields: seq<Param>, entries: seq<Entry>) {
    forall i :: 0 <= i < |entries| ==> HasField(fields, entries[i].key)
  }

  // ---- scalars ----------------------------------------------------------------------------

  const INT64_MIN := -0x8000_0000_0000_0000
  const TWO63 := 9223372036854775808.0

  function Ceil(r: real): int { -((-r).Floor) }

  /** int_ge: the bound is a double, so it is rounded up, not the integer down. */
  predicate IntGe(i: int, bound: real) {
    if bound >= TWO63 then false
    else if bound < -TWO63 then true
    else if Ceil(bound) as real >= TWO63 then false
    else i >= Ceil(bound)
  }

  predicate IntLe(i: int, bound: real) {
    if bound >= TWO63 then true else if bound < -TWO63 then false else i <= bound.Floor
  }

  predicate LengthOk(n: int, min: int, max: int) { (min >= 0 ==> n >= min) && (max >= 0 ==> n <= max) }

  predicate IntegerOk(i: int, min: Option<real>, max: Option<real>) {
    (min.Some? ==> IntGe(i, min.value)) && (max.Some? ==> IntLe(i, max.value))
  }

  predicate RealOk(d: real, min: Option<real>, max: Option<real>) {
    (min.Some? ==> !(d < min.value)) && (max.Some? ==> !(d > max.value))
  }

  /** An integer is compared as the double nearest to it. */
  predicate NumberOk(v: Value, min: Option<real>, max: Option<real>) {
    match v
    case Int(i) => RealOk(Schema.AsDouble(i) as real, min, max)
    case Flt(Finite(r)) => RealOk(r, min, max)
    case _ => false
  }

  /** Kinds without parts. */
  predicate ScalarOk(fmt: Formats, ty: Type, v: Value) {
    match ty
    case StringT(min, max) => v.Str? && LengthOk(|v.text|, min, max)
    case IntegerT(min, max) => v.Int? && IntegerOk(v.i, min, max)
    case NumberT(min, max) => NumberOk(v, min, max)
    case BooleanT => v.Bool?
    case BytesT(min, max) => v.Bytes? && LengthOk(|v.data|, min, max)
    case DatetimeT => v.Datetime? && fmt.datetime(v.text)
    case DurationT => v.Duration? && fmt.duration(v.text)
    case UuidT => v.Uuid? && fmt.uuid(v.text)
    case PathT(_, _) => v.Str? && v.text != ""
    case EnumT(values) => v.Str? && v.text in values
    case _ => false
  }

  // ---- copies --------------------------------------------------------------------------------

  const CLONE_DEPTH_MAX := 64

  /** Does clone_node succeed? Nodes and values each take one level. */
  predicate Clonable(node: Node, depth: nat)
    decreases node
  {
    depth < CLONE_DEPTH_MAX
    && match node.value
       case Arr(items) => forall i :: 0 <= i < |items| ==> Clonable(items[i], depth + 2)
       case Obj(entries) => forall i :: 0 <= i < |entries| ==> Clonable(entries[i].node, depth + 2)
       case _ => true
  }

  // ---- the check ----------------------------------------------------------------------------

  /** astools_type_check: the node as it is left, or an error. */
  function Check(fmt: Formats, ty: Type, node: Node): Result<Node>
    decreases ty, 0
  {
    match ty
    case ArrayT(item, min, max) =>
      if !node.value.Arr? || !LengthOk(|node.value.items|, min, max) then Err(Invalid)
      else Rewrap(node, CheckItems(fmt, item, node.value.items))
    case MapT(value, max) =>
      if !node.value.Obj? || !LengthOk(|node.value.entries|, -1, max) || !NoDuplicates(node.value.entries) then Err(Invalid)
      else Reobject(node, CheckEntries(fmt, value, node.value.entries))
    case ObjectT(fields) =>
      if !node.value.Obj? then Err(Invalid) else Reobject(node, CheckObject(fmt, fields, node.value.entries))
    case _ => if ScalarOk(fmt, ty, node.value) then Ok(node) else Err(Invalid)
  }

  function Rewrap(node: Node, items: Result<seq<Node>>): Result<Node> {
    match items case Err(e) => Err(e) case Ok(s) => Ok(Node(node.tags, Arr(s)))
  }

  function Reobject(node: Node, entries: Result<seq<Entry>>): Result<Node> {
    match entries case Err(e) => Err(e) case Ok(s) => Ok(Node(node.tags, Obj(s)))
  }

  function CheckItems(fmt: Formats, item: Type, items: seq<Node>): Result<seq<Node>>
    decreases item, |items| + 1
  {
    if items == [] then Ok([])
    else match CheckItems(fmt, item, items[..|items| - 1])
      case Err(e) => Err(e)
      case Ok(before) =>
        match Check(fmt, item, items[|items| - 1]) case Err(e) => Err(e) case Ok(n) => Ok(before + [n])
  }

  function CheckEntries(fmt: Formats, value: Type, entries: seq<Entry>): Result<seq<Entry>>
    decreases value, |entries| + 1
  {
    if entries == [] then Ok([])
    else match CheckEntries(fmt, value, entries[..|entries| - 1])
      case Err(e) => Err(e)
      case Ok(before) =>
        var last := entries[|entries| - 1];
        match Check(fmt, value, last.node) case Err(e) => Err(e) case Ok(n) => Ok(before + [Entry(last.key, n)])
  }

  /** A closed object: no duplicate and no unknown key, then every field in turn. */
  function CheckObject(fmt: Formats, fields: seq<Param>, entries: seq<Entry>): Result<seq<Entry>>
    decreases fields, |fields| + 1
  {
    if !NoDuplicates(entries) || !AllKnown(fields, entries) then Err(Invalid) else CheckFields(fmt, fields, entries)
  }

  function CheckFields(fmt: Formats, fields: seq<Param>, entries: seq<Entry>): Result<seq<Entry>>
    decreases fields, |fields|
  {
    if fields == [] then Ok(entries)
    else match CheckField(fmt, fields[0], entries)
      case Err(e) => Err(e)
      case Ok(after) => CheckFields(fmt, fields[1..], after)
  }

  /** A present field is checked where it stands, a missing one may be injected at the end. */
  function CheckField(fmt: Formats, p: Param, entries: seq<Entry>): Result<seq<Entry>>
    decreases p, 0
  {
    match Find(entries, p.name)
    case Some(i) =>
      (match Check(fmt, p.ty, entries[i].node)
       case Err(e) => Err(e)
       case Ok(n) => Ok(entries[i := Entry(p.name, n)]))
    case None =>
      if p.required then Err(Invalid)
      else if p.dflt.None? then Ok(entries)
      else if !Clonable(p.dflt.value, 0) then Err(NoMemory)
      else Ok(entries + [Entry(p.name, p.dflt.value)])
  }

  /** astools_args_validate */
  function Validate(fmt: Formats, cmd: Command, args: Node): Result<Node> {
    if !args.value.Obj? then Err(Invalid) else Reobject(args, CheckObject(fmt, cmd.params, args.value.entries))
  }

  /** An error in the first n items is the error of all of them. */
  lemma {:induction false} ItemsFail(fmt: Formats, item: Type, items: seq<Node>, n: nat)
    requires n <= |items| && CheckItems(fmt, item, items[..n]).Err?
    ensures CheckItems(fmt, item, items) == CheckItems(fmt, item, items[..n])
  {
    if n == |items| {
      assert items[..n] == items;
    } else {
      assert items[..|items| - 1][..n] == items[..n];
      ItemsFail(fmt, item, items[..|items| - 1], n);
    }
  }

  lemma {:induction false} EntriesFail(fmt: Formats, value: Type, entries: seq<Entry>, n: nat)
    requires n <= |entries| && CheckEntries(fmt, value, entries[..n]).Err?
    ensures CheckEntries(fmt, value, entries) == CheckEntries(fmt, value, entries[..n])
  {
    if n == |entries| {
      assert entries[..n] == entries;
    } else {
      assert entries[..|entries| - 1][..n] == entries[..n];
      EntriesFail(fmt, value, entries[..|entries| - 1], n);
    }
  }
}
