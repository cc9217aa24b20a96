/** Argument trees as the C code handles them: copied, checked, extended with defaults and
    rewritten in place (src/types.c, src/policy.c). */
module ArgStore {
  import opened Text
  import opened Types
  import opened NodeStore
  import opened Copies
  import opened StoreSteps
  import opened Layouts
  import opened Args
  import opened Grants
  import opened PathWalk
  import Duplicates

  class Store {
    var cells: seq<Cell>
    /** What the coming allocations answer; past the end they fail. */
    var supply: seq<bool>
    /** An allocation that the work depends on has failed. */
    ghost var starved: bool

    // ---- memory ----------------------------------------------------------------------------

    /** Whether the next allocation succeeds. */
    method Spend() returns (ok: bool)
      modifies this`supply
      ensures ok == (old(supply) != [] && old(supply)[0])
      ensures supply == if old(supply) == [] then [] else old(supply)[1..]
    {
      ok := false;
      if supply != [] {
        ok, supply := supply[0], supply[1..];
      }
    }

    /** An allocation that is not a cell. */
    method Need() returns (ok: bool)
      modifies this`supply, this`starved
      ensures ok == (old(supply) != [] && old(supply)[0])
      ensures starved == (old(starved) || !ok)
    {
      ok := Spend();
      starved := starved || !ok;
    }

    method Alloc(c: Cell) returns (a: Option<nat>)
      modifies this
      ensures starved == (old(starved) || a.None?)
      ensures a.None? ==> cells == old(cells)
      ensures a.Some? ==> a.value == |old(cells)| && cells == old(cells) + [c]
    {
      var ok := Need();
      if !ok {
        return None;
      }
      a := Some(|cells|);
      cells := cells + [c];
    }

    // ---- clone_node and clone_value -----------------------------------------------------------

    /** A copy of the tree at src, or none when it is too deep or memory runs out. */
    method CloneNode(src: nat, depth: nat, ghost t: Tree, ghost key: string) returns (r: Option<nat>, ghost q: Tree)
      requires Held(cells, t) && t.at == src
      modifies this
      ensures old(cells) <= cells
      ensures r.Some? ==> Copied(|old(cells)|, cells, t, q) && q.at == r.value && q.key == key
      ensures r.Some? ==> Clonable(Erase(t), depth)
      ensures r.None? ==> !Clonable(Erase(t), depth) || starved
      decreases t, 2
    {
      q := t;
      if depth > CLONE_DEPTH_MAX {
        return None, q;
      }
      ghost var start := cells;
      var out := Alloc(NodeCell(cells[src].tags, 0));
      if out.None? {
        return None, q;
      }
      ghost var made := cells;
      HeldFrame(start, cells, {}, t);
      var v;
      v, q := CloneValue(cells[src].value, depth + 1, t, out.value, key);
      if v.None? {
        return None, q;
      }
      ghost var before := cells;
      cells := cells[out.value := NodeCell(cells[src].tags, v.value)];
      CopyPlaced(|start|, before, cells, t, q);
      r := out;
    }

    /** A copy of the value of t, to belong to the node cell at. */
    method CloneValue(src: nat, depth: nat, ghost t: Tree, ghost at: nat, ghost key: string)
      returns (r: Option<nat>, ghost q: Tree)
      requires Held(cells, t) && t.valueAt == src && depth > 0 && at < |cells|
      modifies this
      ensures old(cells) <= cells
      ensures r.Some? ==> Copying(|old(cells)|, cells, t, q, Size(t)) && q.at == at && q.valueAt == r.value && q.key == key
      ensures r.Some? ==> Clonable(Erase(t), depth - 1)
      ensures r.None? ==> !Clonable(Erase(t), depth - 1) || starved
      decreases t, 1
    {
      q := t;
      if depth > CLONE_DEPTH_MAX {
        return None, q;
      }
      match cells[src]
      case Plain(_) =>
        r := Alloc(cells[src]);
        if r.Some? {
          q := Tree(key, at, r.value, t.tags, t.body);
        }
      case Items(nodes) =>
        r, q := CloneList(nodes, depth, t, at, key);
      case Slots(slots) =>
        r, q := CloneFields(slots, depth, t, at, key);
    }

    method CloneList(nodes: seq<nat>, depth: nat, ghost t: Tree, ghost at: nat, ghost key: string)
      returns (r: Option<nat>, ghost q: Tree)
      requires Held(cells, t) && t.body.List? && nodes == Ats(t.body.kids) && 0 < depth <= CLONE_DEPTH_MAX && at < |cells|
      modifies this
      ensures old(cells) <= cells
      ensures r.Some? ==> Copying(|old(cells)|, cells, t, q, Size(t)) && q.at == at && q.valueAt == r.value && q.key == key
      ensures r.Some? ==> Clonable(Erase(t), depth - 1)
      ensures r.None? ==> !Clonable(Erase(t), depth - 1) || starved
      decreases t, 0
    {
      ghost var start, kids := cells, t.body.kids;
      q := t;
      r := Alloc(Items([]));
      if r.None? {
        return;
      }
      var out, done := r.value, [];
      q := Tree(key, at, out, t.tags, List([]));
      assert Ats([]) == [] && cells == start + [CellOf(List([]))];
      HalfwayStart(start, cells, t, q, depth);
      hide Held, Copying, Clonable, Copied, Halfway, CellOf, Ats;
      for i := 0 to |nodes|
        invariant |nodes| == |kids| && Halfway(start, cells, t, q, i, out, depth)
        invariant q.at == at && q.valueAt == out && q.key == key && q.body.List? && done == Ats(q.body.kids)
      {
        ghost var before := cells;
        HalfwayKid(start, cells, t, q, i, out, depth);
        var c;
        ghost var copy;
        c, copy := CloneNode(nodes[i], depth + 1, kids[i], kids[i].key);
        if c.None? {
          if !Clonable(Erase(kids[i]), depth + 1) {
            Unclonable(t, i, depth);
          }
          return None, q;
        }
        ghost var mid := cells;
        MoreItems(q, copy, done);
        done := done + [c.value];
        cells := cells[out := Items(done)];
        HalfwayTurn(start, before, mid, cells, t, q, i, out, depth, copy);
        q := More(q, copy);
      }
      HalfwayDone(start, cells, t, q, out, depth);
    }

    method CloneFields(slots: seq<Slot>, depth: nat, ghost t: Tree, ghost at: nat, ghost key: string)
      returns (r: Option<nat>, ghost q: Tree)
      requires Held(cells, t) && t.body.Fields? && slots == SlotsOf(t.body.kids) && 0 < depth <= CLONE_DEPTH_MAX && at < |cells|
      modifies this
      ensures old(cells) <= cells
      ensures r.Some? ==> Copying(|old(cells)|, cells, t, q, Size(t)) && q.at == at && q.valueAt == r.value && q.key == key
      ensures r.Some? ==> Clonable(Erase(t), depth - 1)
      ensures r.None? ==> !Clonable(Erase(t), depth - 1) || starved
      decreases t, 0
    {
      ghost var start, kids := cells, t.body.kids;
      q := t;
      r := Alloc(Slots([]));
      if r.None? {
        return;
      }
      var out, done := r.value, [];
      q := Tree(key, at, out, t.tags, Fields([]));
      assert SlotsOf([]) == [] && cells == start + [CellOf(Fields([]))];
      HalfwayStart(start, cells, t, q, depth);
      hide Held, Copying, Clonable, Copied, Halfway, CellOf, SlotsOf;
      for i := 0 to |slots|
        invariant |slots| == |kids| && Halfway(start, cells, t, q, i, out, depth)
        invariant q.at == at && q.valueAt == out && q.key == key && q.body.Fields? && done == SlotsOf(q.body.kids)
      {
        ghost var before := cells;
        HalfwayKid(start, cells, t, q, i, out, depth);
        var c;
        ghost var copy;
        c, copy := CloneNode(slots[i].node, depth + 1, kids[i], kids[i].key);
        if c.None? {
          if !Clonable(Erase(kids[i]), depth + 1) {
            Unclonable(t, i, depth);
          }
          return None, q;
        }
        ghost var mid := cells;
        MoreSlots(q, copy, done);
        done := done + [Slot(slots[i].key, c.value)];
        cells := cells[out := Slots(done)];
        HalfwayTurn(start, before, mid, cells, t, q, i, out, depth, copy);
        q := More(q, copy);
      }
      HalfwayDone(start, cells, t, q, out, depth);
    }

    // ---- obj_inject_default -----------------------------------------------------------------------

    /** A copy of the default at dflt becomes the last field of the object whose value is at v. */
    method Inject(v: nat, key: string, dflt: nat, ghost D: set<nat>, ghost t: Tree, ghost n: Node)
      returns (ok: bool, ghost q: Tree)
      requires Beside(cells, D, t) && t.body.Fields? && t.valueAt == v && Stands(cells, D, dflt, n)
      modifies this
      ensures Evolved(old(cells), cells, t, q)
      ensures ok ==> q.body.Fields? && Named(q.body.kids) == Named(t.body.kids) + [Entry(key, n)] && Clonable(n, 0)
      ensures !ok ==> q == t && (!Clonable(n, 0) || starved)
    {
      ghost var d: Tree :| DefaultAt(cells, D, dflt, n, d);
      ghost var start := cells;
      hide Held, Foot, Apart, Clonable, Erase;
      q := t;
      HeldNode(cells, t);
      var c;
      ghost var copy;
      c, copy := CloneNode(dflt, 0, d, key);
      EvolvedLater(start, cells, t);
      if c.None? {
        return false, q;
      }
      ok := Need();
      if !ok {
        return false, q;
      }
      ghost var mid := cells;
      cells := cells[v := Slots(cells[v].slots + [Slot(key, c.value)])];
      InjectEvolves(start, mid, cells, t, copy);
      q := More(t, copy);
    }

    // ---- astools_type_check -------------------------------------------------------------------------

    /** The node at a is checked, and completed with defaults, where it stands. */
    method CheckNode(fmt: Formats, hash: string -> nat, l: Layout, a: nat, ghost ty: Type, ghost D: set<nat>, ghost t: Tree)
      returns (e: Option<Error>, ghost q: Tree)
      requires Describes(cells, D, l, ty) && Beside(cells, D, t) && t.at == a
      modifies this
      ensures Evolved(old(cells), cells, t, q) && Agrees(e, Check(fmt, ty, Erase(t)), q, starved)
      decreases l, 1
    {
      q := t;
      EvolvedSelf(cells, t);
      HeldNode(cells, t);
      hide Foot, Apart, Evolved;
      var v := cells[a].value;
      match l
      case Scalar(kind) =>
        e := if cells[v].Plain? && ScalarOk(fmt, kind, cells[v].v) then None else Some(Invalid);
      case ArrayL(item, min, max) =>
        if !cells[v].Items? || !LengthOk(|cells[v].nodes|, min, max) {
          return Some(Invalid), q;
        }
        e, q := CheckList(fmt, hash, item, cells[v].nodes, ty.item, D, t);
      case MapL(value, max) =>
        if !cells[v].Slots? || !LengthOk(|cells[v].slots|, -1, max) {
          return Some(Invalid), q;
        }
        e, q := CheckMap(fmt, hash, value, cells[v].slots, ty.value, D, t);
      case ObjectL(fields) =>
        if !cells[v].Slots? {
          return Some(Invalid), q;
        }
        e, q := CheckFieldsOf(fmt, hash, fields, v, ty.fields, D, t);
    }

    method CheckList(fmt: Formats, hash: string -> nat, item: Layout, nodes: seq<nat>, ghost ty: Type, ghost D: set<nat>, ghost t: Tree)
      returns (e: Option<Error>, ghost q: Tree)
      requires Describes(cells, D, item, ty) && Beside(cells, D, t) && t.body.List? && nodes == Ats(t.body.kids)
      modifies this
      ensures Evolved(old(cells), cells, t, q)
      ensures Agrees(e, Rewrap(Erase(t), CheckItems(fmt, ty, Nodes(t.body.kids))), q, starved)
      decreases item, 2
    {
      ghost var start, kids := cells, t.body.kids;
      q := t;
      EvolvedSelf(start, t);
      NoItems(fmt, ty, kids);
      hide Held, Foot, Apart, Evolved, Describes, Check, Erase, Beside, CheckItems;
      for i := 0 to |nodes|
        invariant |kids| == |nodes| && Ats(kids) == nodes
        invariant Evolved(start, cells, t, q) && Listed(t, q, i)
        invariant CheckItems(fmt, ty, Nodes(kids[..i])) == Ok(Nodes(q.body.kids[..i]))
      {
        ghost var before, was := cells, q;
        Ready(start, cells, D, item, ty, t, q, i);
        ghost var kid;
        e, kid := CheckNode(fmt, hash, item, nodes[i], ty, D, q.body.kids[i]);
        ListTurn(start, before, cells, t, q, i, kid);
        q := WithKid(q, i, kid);
        ItemsTurn(fmt, ty, kids, was.body.kids, i, kid);
        if e.Some? {
          ghost var one := Check(fmt, ty, Erase(kids[i]));
          if one.Err? {
            ItemsFailed(fmt, ty, kids, i);
          }
          return;
        }
      }
      assert kids[..|kids|] == kids && q.body.kids[..|kids|] == q.body.kids;
      e := None;
      Rewrapped(t, q);
    }

    /** check_obj_dups; without memory for the table the names are compared pairwise. */
    method Unrepeated(hash: string -> nat, slots: seq<Slot>, ghost kids: seq<Tree>) returns (e: Option<Error>)
      requires slots == SlotsOf(kids)
      modifies this`supply, this`starved
      ensures match e
              case None => NoDuplicates(Named(kids))
              case Some(error) => (error == Invalid && !NoDuplicates(Named(kids))) || (error == NoMemory && starved)
    {
      if |slots| < 2 {
        return None;
      }
      var keys := Need();
      if !keys {
        return Some(NoMemory);
      }
      var names := seq(|slots|, i requires 0 <= i < |slots| => Some(slots[i].key));
      var table := true;
      if |slots| > Duplicates.PAIRWISE_MAX {
        table := Spend();
      }
      var found := Duplicates.FindDuplicate(names, hash, table);
      RepeatsNamed(names, kids);
      return if found.None? then None else Some(Invalid);
    }

    method CheckMap(fmt: Formats, hash: string -> nat, value: Layout, slots: seq<Slot>, ghost ty: Type, ghost D: set<nat>, ghost t: Tree)
      returns (e: Option<Error>, ghost q: Tree)
      requires Describes(cells, D, value, ty) && Beside(cells, D, t) && t.body.Fields? && slots == SlotsOf(t.body.kids)
      modifies this
      ensures Evolved(old(cells), cells, t, q)
      ensures var r := if NoDuplicates(Named(t.body.kids)) then Reobject(Erase(t), CheckEntries(fmt, ty, Named(t.body.kids)))
                       else Err(Invalid);
              Agrees(e, r, q, starved)
      decreases value, 2
    {
      ghost var start, kids := cells, t.body.kids;
      q := t;
      EvolvedSelf(start, t);
      e := Unrepeated(hash, slots, kids);
      if e.Some? {
        return;
      }
      NoEntries(fmt, ty, kids);
      hide Held, Foot, Apart, Evolved, Describes, Check, Erase, NoDuplicates, Beside, CheckEntries;
      for i := 0 to |slots|
        invariant |kids| == |slots| && SlotsOf(kids) == slots
        invariant Evolved(start, cells, t, q) && Mapped(t, q, i)
        invariant CheckEntries(fmt, ty, Named(kids[..i])) == Ok(Named(q.body.kids[..i]))
      {
        ghost var before, was := cells, q;
        Ready(start, cells, D, value, ty, t, q, i);
        ghost var kid;
        e, kid := CheckNode(fmt, hash, value, slots[i].node, ty, D, q.body.kids[i]);
        MapTurn(start, before, cells, t, q, i, kid);
        q := WithKid(q, i, kid);
        EntriesTurn(fmt, ty, kids, was.body.kids, i, kid);
        if e.Some? {
          ghost var one := Check(fmt, ty, Erase(kids[i]));
          if one.Err? {
            EntriesFailed(fmt, ty, kids, i);
          }
          return;
        }
      }
      assert kids[..|kids|] == kids && q.body.kids[..|kids|] == q.body.kids;
      e := None;
      Reobjected(t, q);
    }

    /** The closed object whose value is at v: its keys first, then every field in turn. */
    method CheckFieldsOf(fmt: Formats, hash: string -> nat, fields: seq<Field>, v: nat, ghost params: seq<Param>,
                         ghost D: set<nat>, ghost t: Tree)
      returns (e: Option<Error>, ghost q: Tree)
      requires DescribesAll(cells, D, fields, params) && Beside(cells, D, t) && t.body.Fields? && t.valueAt == v
      modifies this
      ensures Evolved(old(cells), cells, t, q)
      ensures Agrees(e, Reobject(Erase(t), CheckObject(fmt, params, Named(t.body.kids))), q, starved)
      decreases fields, |fields| + 2
    {
      ghost var start := cells;
      q := t;
      EvolvedSelf(start, t);
      HeldNode(start, t);
      var slots := cells[v].slots;
      e := Unrepeated(hash, slots, t.body.kids);
      if e.Some? {
        return;
      }
      for i := 0 to |slots|
        invariant forall k :: 0 <= k < i ==> HasField(params, slots[k].key)
      {
        var known := false;
        for j := 0 to |fields|
          invariant known ==> HasField(params, slots[i].key)
          invariant !known ==> forall k :: 0 <= k < j ==> fields[k].name != slots[i].key
        {
          assert DescribesOne(start, D, fields[j], params[j]);
          known := known || fields[j].name == slots[i].key;
        }
        if !known {
          UnknownKey(start, D, fields, params, t.body.kids, i);
          return Some(Invalid), q;
        }
      }
      KnownKeys(params, slots, t.body.kids);
      hide Held, Foot, Apart, Evolved, Describes, Check, Erase, CheckField, NoDuplicates, AllKnown;
      for j := 0 to |fields|
        invariant |fields| == |params| && Evolved(start, cells, t, q) && q.body.Fields?
        invariant CheckFields(fmt, params, Named(t.body.kids)) == CheckFields(fmt, params[j..], Named(q.body.kids))
      {
        ghost var before, was := cells, q;
        FieldReady(start, cells, D, fields, params, t, q, j);
        assert params[j..][0] == params[j] && params[j..][1..] == params[j + 1..];
        e, q := CheckOne(fmt, hash, fields[j], v, params[j], D, q);
        EvolvedThen(start, before, cells, t, was, q);
        if e.Some? {
          return;
        }
      }
      e := None;
    }

    /** One field of the object whose value is at v. */
    method CheckOne(fmt: Formats, hash: string -> nat, f: Field, v: nat, ghost p: Param, ghost D: set<nat>, ghost t: Tree)
      returns (e: Option<Error>, ghost q: Tree)
      requires DescribesOne(cells, D, f, p) && Beside(cells, D, t) && t.body.Fields? && t.valueAt == v
      modifies this
      ensures Evolved(old(cells), cells, t, q) && q.body.Fields?
      ensures match e
              case None => CheckField(fmt, p, Named(t.body.kids)) == Ok(Named(q.body.kids))
              case Some(error) => CheckField(fmt, p, Named(t.body.kids)) == Err(error) || (error == NoMemory && starved)
      decreases f, 2
    {
      ghost var start, kids := cells, t.body.kids;
      q := t;
      e := None;
      EvolvedSelf(start, t);
      HeldNode(start, t);
      var slots := cells[v].slots;
      SlotFound(kids, f.name);
      hide Held, Foot, Apart, Evolved, Describes, Check, Erase, Clonable;
      var at := FindSlot(slots, f.name);
      if at.Some? {
        BesideKid(start, D, t, at.value);
        ghost var kid;
        e, kid := CheckNode(fmt, hash, f.layout, slots[at.value].node, p.ty, D, kids[at.value]);
        KidEvolves(start, start, cells, t, t, at.value, kid);
        q := WithKid(t, at.value, kid);
        NamedKid(kids, at.value, kid);
      } else if f.required {
        e := Some(Invalid);
      } else if f.dflt.Some? {
        var ok;
        ok, q := Inject(v, f.name, f.dflt.value, D, t, p.dflt.value);
        e := if ok then None else Some(NoMemory);
      }
    }

    /** astools_args_validate */
    method Validate(fmt: Formats, hash: string -> nat, fields: seq<Field>, args: nat, ghost cmd: Command, ghost D: set<nat>, ghost t: Tree)
      returns (e: Option<Error>, ghost q: Tree)
      requires DescribesAll(cells, D, fields, cmd.params) && Beside(cells, D, t) && t.at == args
      modifies this
      ensures Evolved(old(cells), cells, t, q) && Agrees(e, Args.Validate(fmt, cmd, Erase(t)), q, starved)
    {
      q := t;
      EvolvedSelf(cells, t);
      HeldNode(cells, t);
      hide Foot, Apart, Evolved;
      var v := cells[args].value;
      if !cells[v].Slots? {
        return Some(Invalid), q;
      }
      e, q := CheckFieldsOf(fmt, hash, fields, v, cmd.params, D, t);
    }

    // ---- walk_type ----------------------------------------------------------------------------------------

    /** A path argument is canonicalized first, so that nothing outside the grants is told to exist. */
    method WalkLeaf(host: Host, fs: seq<Perm>, access: Access, mustExist: bool, v: nat, ghost t: Tree)
      returns (e: Option<Error>, ghost q: Tree)
      requires Held(cells, t) && Apart(t) && t.valueAt == v
      modifies this`cells
      ensures Evolved(old(cells), cells, t, q) && Follows(e, WalkPath(host, fs, access, mustExist, Erase(t)), q)
    {
      ghost var start := cells;
      q := t;
      EvolvedSelf(start, t);
      if !cells[v].Plain? || !cells[v].v.Str? {
        return None, q;
      }
      var canon := host.canonical(cells[v].v.text);
      if canon.Err? {
        return Some(canon.error), q;
      }
      var covered := Covered(fs, access, canon.value);
      if !covered {
        return Some(Denied), q;
      }
      if mustExist && !host.present(canon.value) {
        return Some(Invalid), q;
      }
      cells := cells[v := Plain(Str(canon.value))];
      q := t.(body := Leaf(Str(canon.value)));
      LeafEvolves(start, cells, t, Str(canon.value));
      e := None;
    }

    method Covered(fs: seq<Perm>, access: Access, path: string) returns (covered: bool)
      ensures covered == Covers(fs, path, access)
    {
      covered := false;
      var i := 0;
      while i < |fs| && !covered
        invariant 0 <= i <= |fs|
        invariant covered ==> Covers(fs, path, access)
        invariant !covered ==> forall k :: 0 <= k < i ==> !CoveredBy(fs[k], path, access)
      {
        covered := CoveredBy(fs[i], path, access);
        i := i + 1;
      }
    }

    method WalkNode(host: Host, fs: seq<Perm>, l: Layout, a: nat, depth: nat, ghost ty: Type, ghost D: set<nat>, ghost t: Tree)
      returns (e: Option<Error>, ghost q: Tree)
      requires Describes(cells, D, l, ty) && Beside(cells, D, t) && t.at == a
      modifies this`cells
      ensures Evolved(old(cells), cells, t, q) && Follows(e, Walk(host, fs, ty, Erase(t), depth), q)
      decreases l, 1
    {
      q := t;
      EvolvedSelf(cells, t);
      HeldNode(cells, t);
      hide Foot, Apart, Evolved, Covers, WalkPath;
      if depth > POLICY_MAX_DEPTH {
        return Some(Invalid), q;
      }
      var v := cells[a].value;
      e := None;
      match l
      case Scalar(kind) =>
        if kind.PathT? {
          e, q := WalkLeaf(host, fs, kind.access, kind.mustExist, v, t);
        }
      case ArrayL(item, _, _) =>
        if cells[v].Items? {
          e, q := WalkList(host, fs, item, cells[v].nodes, depth + 1, ty.item, D, t);
        }
      case MapL(value, _) =>
        if cells[v].Slots? {
          e, q := WalkMap(host, fs, value, cells[v].slots, depth + 1, ty.value, D, t);
        }
      case ObjectL(fields) =>
        if cells[v].Slots? {
          e, q := WalkFieldsOf(host, fs, fields, v, depth + 1, ty.fields, D, t);
        }
    }

    method WalkList(host: Host, fs: seq<Perm>, item: Layout, nodes: seq<nat>, depth: nat, ghost ty: Type, ghost D: set<nat>, ghost t: Tree)
      returns (e: Option<Error>, ghost q: Tree)
      requires Describes(cells, D, item, ty) && Beside(cells, D, t) && t.body.List? && nodes == Ats(t.body.kids)
      modifies this`cells
      ensures Evolved(old(cells), cells, t, q)
      ensures Follows(e, Rewrap(Erase(t), WalkItems(host, fs, ty, Nodes(t.body.kids), depth)), q)
      decreases item, 2
    {
      ghost var start, kids := cells, t.body.kids;
      q := t;
      EvolvedSelf(start, t);
      NoWalkItems(host, fs, ty, kids, depth);
      hide Held, Foot, Apart, Evolved, Describes, Walk, Erase, Beside, WalkItems;
      for i := 0 to |nodes|
        invariant |kids| == |nodes| && Ats(kids) == nodes
        invariant Evolved(start, cells, t, q) && Listed(t, q, i)
        invariant WalkItems(host, fs, ty, Nodes(kids[..i]), depth) == Ok(Nodes(q.body.kids[..i]))
      {
        ghost var before, was := cells, q;
        Ready(start, cells, D, item, ty, t, q, i);
        ghost var kid;
        e, kid := WalkNode(host, fs, item, nodes[i], depth, ty, D, q.body.kids[i]);
        ListTurn(start, before, cells, t, q, i, kid);
        q := WithKid(q, i, kid);
        WalkItemsTurn(host, fs, ty, kids, was.body.kids, i, kid, depth);
        if e.Some? {
          WalkItemsFailed(host, fs, ty, kids, i, depth);
          return;
        }
      }
      assert kids[..|kids|] == kids && q.body.kids[..|kids|] == q.body.kids;
      e := None;
      Rewrapped(t, q);
    }

    method WalkMap(host: Host, fs: seq<Perm>, value: Layout, slots: seq<Slot>, depth: nat, ghost ty: Type, ghost D: set<nat>, ghost t: Tree)
      returns (e: Option<Error>, ghost q: Tree)
      requires Describes(cells, D, value, ty) && Beside(cells, D, t) && t.body.Fields? && slots == SlotsOf(t.body.kids)
      modifies this`cells
      ensures Evolved(old(cells), cells, t, q)
      ensures Follows(e, Reobject(Erase(t), WalkEntries(host, fs, ty, Named(t.body.kids), depth)), q)
      decreases value, 2
    {
      ghost var start, kids := cells, t.body.kids;
      q := t;
      EvolvedSelf(start, t);
      NoWalkItems(host, fs, ty, kids, depth);
      hide Held, Foot, Apart, Evolved, Describes, Walk, Erase, Beside, WalkEntries;
      for i := 0 to |slots|
        invariant |kids| == |slots| && SlotsOf(kids) == slots
        invariant Evolved(start, cells, t, q) && Mapped(t, q, i)
        invariant WalkEntries(host, fs, ty, Named(kids[..i]), depth) == Ok(Named(q.body.kids[..i]))
      {
        ghost var before, was := cells, q;
        Ready(start, cells, D, value, ty, t, q, i);
        ghost var kid;
        e, kid := WalkNode(host, fs, value, slots[i].node, depth, ty, D, q.body.kids[i]);
        MapTurn(start, before, cells, t, q, i, kid);
        q := WithKid(q, i, kid);
        WalkEntriesTurn(host, fs, ty, kids, was.body.kids, i, kid, depth);
        if e.Some? {
          WalkEntriesFailed(host, fs, ty, kids, i, depth);
          return;
        }
      }
      assert kids[..|kids|] == kids && q.body.kids[..|kids|] == q.body.kids;
      e := None;
      Reobjected(t, q);
    }

    /** The fields of the object whose value is at v. */
    method WalkFieldsOf(host: Host, fs: seq<Perm>, fields: seq<Field>, v: nat, depth: nat, ghost params: seq<Param>,
                        ghost D: set<nat>, ghost t: Tree)
      returns (e: Option<Error>, ghost q: Tree)
      requires DescribesAll(cells, D, fields, params) && Beside(cells, D, t) && t.body.Fields? && t.valueAt == v
      modifies this`cells
      ensures Evolved(old(cells), cells, t, q)
      ensures Follows(e, Reobject(Erase(t), WalkFields(host, fs, params, Named(t.body.kids), depth)), q)
      decreases fields, |fields| + 2
    {
      ghost var start := cells;
      q := t;
      EvolvedSelf(start, t);
      hide Held, Foot, Apart, Evolved, Describes, Walk, WalkField, Erase;
      for j := 0 to |fields|
        invariant |fields| == |params| && Evolved(start, cells, t, q) && q.body.Fields?
        invariant q.tags == t.tags && q.valueAt == v
        invariant WalkFields(host, fs, params, Named(t.body.kids), depth) == WalkFields(host, fs, params[j..], Named(q.body.kids), depth)
      {
        ghost var before, was := cells, q;
        FieldReady(start, cells, D, fields, params, t, q, j);
        assert params[j..][0] == params[j] && params[j..][1..] == params[j + 1..];
        e, q := WalkOne(host, fs, fields[j], v, depth, params[j], D, q);
        EvolvedThen(start, before, cells, t, was, q);
        if e.Some? {
          return;
        }
      }
      e := None;
      Reobjected(t, q);
    }

    method WalkOne(host: Host, fs: seq<Perm>, f: Field, v: nat, depth: nat, ghost p: Param, ghost D: set<nat>, ghost t: Tree)
      returns (e: Option<Error>, ghost q: Tree)
      requires DescribesOne(cells, D, f, p) && Beside(cells, D, t) && t.body.Fields? && t.valueAt == v
      modifies this`cells
      ensures Evolved(old(cells), cells, t, q) && q.body.Fields? && q.tags == t.tags && q.valueAt == v
      ensures match e
              case None => WalkField(host, fs, p, Named(t.body.kids), depth) == Ok(Named(q.body.kids))
              case Some(error) => WalkField(host, fs, p, Named(t.body.kids), depth) == Err(error)
      decreases f, 2
    {
      ghost var start, kids := cells, t.body.kids;
      q := t;
      e := None;
      EvolvedSelf(start, t);
      HeldNode(start, t);
      SlotFound(kids, f.name);
      var slots := cells[v].slots;
      hide Held, Foot, Apart, Evolved, Describes, Walk, Erase;
      var at := FindSlot(slots, f.name);
      if at.Some? {
        BesideKid(start, D, t, at.value);
        ghost var kid;
        e, kid := WalkNode(host, fs, f.layout, slots[at.value].node, depth, p.ty, D, kids[at.value]);
        KidEvolves(start, start, cells, t, t, at.value, kid);
        q := WithKid(t, at.value, kid);
        NamedKid(kids, at.value, kid);
      }
    }

    /** astools_policy_preflight */
    method Preflight(host: Host, fields: seq<Field>, eff: Effective, wants: Requests, args: nat, ghost cmd: Command,
                     ghost D: set<nat>, ghost t: Tree)
      returns (e: Option<Error>, ghost q: Tree)
      requires DescribesAll(cells, D, fields, cmd.params) && Beside(cells, D, t) && t.at == args
      modifies this`cells
      ensures Evolved(old(cells), cells, t, q) && Follows(e, PathWalk.Preflight(host, cmd, eff, wants, Erase(t)), q)
    {
      q := t;
      e := None;
      EvolvedSelf(cells, t);
      HeldNode(cells, t);
      hide Foot, Apart, Evolved;
      var v := cells[args].value;
      if cells[v].Slots? {
        e, q := WalkFieldsOf(host, eff.fs, fields, v, 0, cmd.params, D, t);
        if e.Some? {
          return;
        }
      }
      if (wants.proc && !eff.proc) || (wants.net && !eff.net) {
        e := Some(Denied);
      }
    }

    // ---- validate, then preflight ----------------------------------------------------------------------------

    /** What an invocation does to its arguments. Whether it succeeds or fails, and wherever it
        fails, every cell reachable from a default of the command is as it was and no part of
        the argument tree, so the command can be used again. */
    method Prepare(fmt: Formats, hash: string -> nat, host: Host, fields: seq<Field>, eff: Effective, wants: Requests, args: nat,
                   ghost cmd: Command, ghost D: set<nat>, ghost t: Tree)
      returns (e: Option<Error>, ghost q: Tree)
      requires DescribesAll(cells, D, fields, cmd.params) && Beside(cells, D, t) && t.at == args
      modifies this
      ensures Evolved(old(cells), cells, t, q) && Untouched(old(cells), cells, fields, q)
      ensures DescribesAll(cells, D, fields, cmd.params) && Beside(cells, D, q)
      ensures var m := Args.Validate(fmt, cmd, Erase(t));
              match e
              case None => m.Ok? && PathWalk.Preflight(host, cmd, eff, wants, m.value) == Ok(Erase(q))
              case Some(error) =>
                || m == Err(error)
                || (m.Ok? && PathWalk.Preflight(host, cmd, eff, wants, m.value) == Err(error))
                || (error == NoMemory && starved)
    {
      ghost var start := cells;
      starved := false;
      hide Held, Foot, Apart, Evolved, DescribesAll, Beside, Untouched;
      e, q := Validate(fmt, hash, fields, args, cmd, D, t);
      DefaultsUntouched(start, cells, D, fields, cmd.params, t, q);
      if e.Some? {
        return;
      }
      ghost var mid, was := cells, q;
      EvolvedHere(start, cells, t, q);
      e, q := Preflight(host, fields, eff, wants, args, cmd, D, q);
      EvolvedThen(start, mid, cells, t, was, q);
      DefaultsUntouched(start, cells, D, fields, cmd.params, t, q);
    }
  }
}
