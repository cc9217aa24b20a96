/** The policy walk over validated arguments (src/policy.c): every path argument is
    replaced by its canonical form, which one effective grant must cover. */
module PathWalk {
  import opened Text
  import opened Types
  import opened Grants
  import opened Args

  /** The file system as the walk sees it. */
  datatype Host = Host(canonical: string -> Result<string>, present: string -> bool)

  datatype Effective = Effective(fs: seq<Perm>, proc: bool, net: bool)

  /** What the manifest requests beyond files. */
  datatype Requests = Requests(proc: bool, net: bool)

  const POLICY_MAX_DEPTH := 128

  function WalkPath(host: Host, fs: seq<Perm>, access: Access, mustExist: bool, node: Node): Result<Node> {
    if !node.value.Str? then Ok(node)
    else match host.canonical(node.value.text)
      case Err(e) => Err(e)
      case Ok(canon) =>
        if !Covers(fs, canon, access) then Err(Denied)
        else if mustExist && !host.present(canon) then Err(Invalid)
        else Ok(Node(node.tags, Str(canon)))
  }

  /** walk_type: the node as it is left, or an error. */
  function Walk(host: Host, fs: seq<Perm>, ty: Type, node: Node, depth: nat): Result<Node>
    decreases ty, 0
  {
    if depth > POLICY_MAX_DEPTH then Err(Invalid)
    else match ty
      case PathT(access, mustExist) => WalkPath(host, fs, access, mustExist, node)
      case ArrayT(item, _, _) =>
        if !node.value.Arr? then Ok(node) else Rewrap(node, WalkItems(host, fs, item, node.value.items, depth + 1))
      case MapT(value, _) =>
        if !node.value.Obj? then Ok(node) else Reobject(node, WalkEntries(host, fs, value, node.value.entries, depth + 1))
      case ObjectT(fields) =>
        if !node.value.Obj? then Ok(node) else Reobject(node, WalkFields(host, fs, fields, node.value.entries, depth + 1))
      case _ => Ok(node)
  }

  function WalkItems(host: Host, fs: seq<Perm>, item: Type, items: seq<Node>, depth: nat): Result<seq<Node>>
    decreases item, |items| + 1
  {
    if items == [] then Ok([])
    else match WalkItems(host, fs, item, items[..|items| - 1], depth)
      case Err(e) => Err(e)
      case Ok(before) =>
        match Walk(host, fs, item, items[|items| - 1], depth) case Err(e) => Err(e) case Ok(n) => Ok(before + [n])
  }

  function WalkEntries(host: Host, fs: seq<Perm>, value: Type, entries: seq<Entry>, depth: nat): Result<seq<Entry>>
    decreases value, |entries| + 1
  {
    if entries == [] then Ok([])
    else match WalkEntries(host, fs, value, entries[..|entries| - 1], depth)
      case Err(e) => Err(e)
      case Ok(before) =>
        var last := entries[|entries| - 1];
        match Walk(host, fs, value, last.node, depth) case Err(e) => Err(e) case Ok(n) => Ok(before + [Entry(last.key, n)])
  }

  function WalkFields(host: Host, fs: seq<Perm>, fields: seq<Param>, entries: seq<Entry>, depth: nat): Result<seq<Entry>>
    decreases fields, |fields|
  {
    if fields == [] then Ok(entries)
    else match WalkField(host, fs, fields[0], entries, depth)
      case Err(e) => Err(e)
      case Ok(after) => WalkFields(host, fs, fields[1..], after, depth)
  }

  function WalkField(host: Host, fs: seq<Perm>, p: Param, entries: seq<Entry>, depth: nat): Result<seq<Entry>>
    decreases p, 0
  {
    match Find(entries, p.name)
    case None => Ok(entries)
    case Some(i) =>
      match Walk(host, fs, p.ty, entries[i].node, depth)
      case Err(e) => Err(e)
      case Ok(n) => Ok(entries[i := Entry(p.name, n)])
  }

  /** astools_policy_preflight */
  function Preflight(host: Host, cmd: Command, eff: Effective, wants: Requests, args: Node): Result<Node> {
    var walked :=
      if args.value.Obj? then Reobject(args, WalkFields(host, eff.fs, cmd.params, args.value.entries, 0)) else Ok(args);
    match walked
    case Err(e) => Err(e)
    case Ok(r) => if (wants.proc && !eff.proc) || (wants.net && !eff.net) then Err(Denied) else Ok(r)
  }

  lemma {:induction false} ItemsFail(host: Host, fs: seq<Perm>, item: Type, items: seq<Node>, depth: nat, n: nat)
    requires n <= |items| && WalkItems(host, fs, item, items[..n], depth).Err?
    ensures WalkItems(host, fs, item, items, depth) == WalkItems(host, fs, item, items[..n], depth)
  {
    if n == |items| {
      assert items[..n] == items;
    } else {
      assert items[..|items| - 1][..n] == items[..n];
      ItemsFail(host, fs, item, items[..|items| - 1], depth, n);
    }
  }

  lemma {:induction false} EntriesFail(host: Host, fs: seq<Perm>, value: Type, entries: seq<Entry>, depth: nat, n: nat)
    requires n <= |entries| && WalkEntries(host, fs, value, entries[..n], depth).Err?
    ensures WalkEntries(host, fs, value, entries, depth) == WalkEntries(host, fs, value, entries[..n], depth)
  {
    if n == |entries| {
      assert entries[..n] == entries;
    } else {
      assert entries[..|entries| - 1][..n] == entries[..n];
      EntriesFail(host, fs, value, entries[..|entries| - 1], depth, n);
    }
  }
}
