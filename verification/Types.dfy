/** xCDN values and the parameter type system (src/types.c), shared by the
    grammar exporter, argument validation and the policy walk. */
module Types {
  import opened Text

  /** READ and WRITE bits of a path parameter or a filesystem grant. */
  datatype Access = Access(read: bool, write: bool) {
    /** this & other */
    function Meet(other: Access): Access { Access(read && other.read, write && other.write) }

    /** (this & ~other) == 0 */
    predicate Within(other: Access) { (read ==> other.read) && (write ==> other.write) }

    predicate Empty() { !read && !write }
  }

  datatype Float = Finite(r: real) | NonFinite

  datatype Value =
    | Null
    | Bool(b: bool)
    | Int(i: int)
    | Flt(f: Float)
    | Decimal(text: string)
    | Str(text: string)
    | Bytes(data: seq<int>)
    | Datetime(text: string)
    | Duration(text: string)
    | Uuid(text: string)
    | Arr(items: seq<Node>)
    | Obj(entries: seq<Entry>)

  datatype Node = Node(tags: seq<string>, value: Value)

  datatype Entry = Entry(key: string, node: Node)

  /** A parsed #type tree; a length or count bound is absent when negative. */
  datatype Type =
    | StringT(minLen: int, maxLen: int)
    | IntegerT(min: Option<real>, max: Option<real>)
    | NumberT(min: Option<real>, max: Option<real>)
    | BooleanT
    | BytesT(minLen: int, maxLen: int)
    | DatetimeT
    | DurationT
    | UuidT
    | PathT(access: Access, mustExist: bool)
    | EnumT(values: seq<string>)
    | ArrayT(item: Type, minItems: int, maxItems: int)
    | MapT(value: Type, maxEntries: int)
    | ObjectT(fields: seq<Param>)

  datatype Param = Param(name: string, ty: Type, required: bool, dflt: Option<Node>)

  datatype Command = Command(name: string, params: seq<Param>)
}
