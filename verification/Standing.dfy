/** Every command and every argument tree can stand in a heap side by side, as loading a
    manifest and parsing the arguments leave them. */
module Standing {
  import opened Text
  import opened Types
  import opened NodeStore
  import opened Layouts

  /** t stands in h, made of cells from base on. */
  ghost predicate Built(base: nat, h: Heap, t: Tree, n: Node) {
    Held(h, t) && Apart(t) && Erase(t) == n && forall a :: a in Foot(t) ==> base <= a
  }

  lemma {:induction false} BuiltLater(base: nat, h: Heap, after: Heap, t: Tree, n: Node)
    requires Built(base, h, t, n) && h <= after
    ensures Built(base, after, t, n)
  {
    HeldFrame(h, after, {}, t);
  }

  /** Trees beside each other, for the given nodes. */
  ghost predicate Row(base: nat, h: Heap, kids: seq<Tree>, nodes: seq<Node>) {
    && |kids| == |nodes| && (forall i :: 0 <= i < |kids| ==> Built(base, h, kids[i], nodes[i]))
    && forall i, j :: 0 <= i < j < |kids| ==> Foot(kids[i]) !! Foot(kids[j])
  }

  lemma {:induction false} RowMore(base: nat, mid: Heap, after: Heap, kids: seq<Tree>, nodes: seq<Node>, last: Tree, n: Node)
    requires Row(base, mid, kids, nodes) && base <= |mid| && mid <= after && Built(|mid|, after, last, n)
    ensures Row(base, after, kids + [last], nodes + [n])
  {
    hide Held, Foot, Apart, Erase;
    KidsBounded(mid, kids, last);
    forall i | 0 <= i < |kids|
      ensures Built(base, after, kids[i], nodes[i])
    {
      BuiltLater(base, mid, after, kids[i], nodes[i]);
    }
  }

  lemma {:induction false} Build(h: Heap, n: Node, key: string) returns (after: Heap, t: Tree)
    ensures h <= after && Built(|h|, after, t, n) && t.key == key
    decreases n, 1
  {
    var body, mid := Leaf(n.value), h;
    match n.value {
      case Arr(items) =>
        var kids;
        mid, kids := BuildItems(h, items);
        body := List(kids);
        assert Nodes(kids) == items;
      case Obj(entries) =>
        var kids;
        mid, kids := BuildEntries(h, entries);
        body := Fields(kids);
        assert Named(kids) == entries;
      case _ =>
    }
    after, t := Crown(h, mid, body, n.tags, key);
  }

  /** A value cell and a node cell on top of the children. */
  lemma {:induction false} Crown(h: Heap, mid: Heap, body: Body, tags: seq<string>, key: string) returns (after: Heap, t: Tree)
    requires h <= mid && (body.Leaf? ==> !body.v.Arr? && !body.v.Obj?)
    requires !body.Leaf? ==> exists nodes :: Row(|h|, mid, body.kids, nodes)
    ensures mid <= after && t.key == key && t.tags == tags && t.body == body
    ensures Held(after, t) && Apart(t) && forall a :: a in Foot(t) ==> |h| <= a
  {
    t := Tree(key, |mid| + 1, |mid|, tags, body);
    after := mid + [CellOf(body), NodeCell(tags, |mid|)];
    if !body.Leaf? {
      forall i | 0 <= i < |body.kids|
        ensures Held(after, body.kids[i]) && forall a :: a in Foot(body.kids[i]) ==> |h| <= a < |mid|
      {
        FootBounded(mid, body.kids[i]);
        HeldFrame(mid, after, {}, body.kids[i]);
      }
    }
    HeldBody(after, t);
  }

  lemma {:induction false} BuildItems(h: Heap, items: seq<Node>) returns (after: Heap, kids: seq<Tree>)
    ensures h <= after && Row(|h|, after, kids, items)
    decreases items, 0
  {
    after, kids := h, [];
    if items != [] {
      var n := |items| - 1;
      var mid, before := BuildItems(h, items[..n]);
      var last;
      after, last := Build(mid, items[n], "");
      RowMore(|h|, mid, after, before, items[..n], last, items[n]);
      kids := before + [last];
      assert items == items[..n] + [items[n]];
    }
  }

  lemma {:induction false} BuildEntries(h: Heap, entries: seq<Entry>) returns (after: Heap, kids: seq<Tree>)
    ensures h <= after && Row(|h|, after, kids, NodesOf(entries))
    ensures forall i :: 0 <= i < |kids| ==> kids[i].key == entries[i].key
    decreases entries, 0
  {
    after, kids := h, [];
    if entries != [] {
      var n := |entries| - 1;
      var mid, before := BuildEntries(h, entries[..n]);
      var last;
      after, last := Build(mid, entries[n].node, entries[n].key);
      RowMore(|h|, mid, after, before, NodesOf(entries[..n]), last, entries[n].node);
      kids := before + [last];
      assert NodesOf(entries) == NodesOf(entries[..n]) + [entries[n].node];
    }
  }

  ghost function NodesOf(entries: seq<Entry>): seq<Node> {
    seq(|entries|, i requires 0 <= i < |entries| => entries[i].node)
  }

  lemma {:induction false} BuildLayout(h: Heap, ty: Type) returns (after: Heap, D: set<nat>, l: Layout)
    ensures h <= after && Describes(after, D, l, ty) && forall a :: a in D ==> a < |after|
    decreases ty, 1
  {
    after, D, l := h, {}, Scalar(ty);
    match ty
    case ArrayT(item, min, max) =>
      after, D, l := BuildLayout(h, item);
      l := ArrayL(l, min, max);
    case MapT(value, max) =>
      after, D, l := BuildLayout(h, value);
      l := MapL(l, max);
    case ObjectT(params) =>
      var fields;
      after, D, fields := BuildFields(h, params);
      l := ObjectL(fields);
    case _ =>
  }

  lemma {:induction false} BuildFields(h: Heap, params: seq<Param>) returns (after: Heap, D: set<nat>, fields: seq<Field>)
    ensures h <= after && DescribesAll(after, D, fields, params) && forall a :: a in D ==> a < |after|
    decreases params, 0
  {
    after, D, fields := h, {}, [];
    if params != [] {
      var n := |params| - 1;
      var mid, E, before := BuildFields(h, params[..n]);
      var f, F;
      after, F, f := BuildField(mid, params[n]);
      hide Describes, Stands;
      D, fields := E + F, before + [f];
      forall j | 0 <= j < |params|
        ensures DescribesOne(after, D, fields[j], params[j])
      {
        if j < n {
          assert DescribesOne(mid, E, before[j], params[..n][j]);
          FieldFrame(mid, after, E, before[j], params[j]);
          Wider(after, E, D, before[j], params[j]);
        } else {
          Wider(after, F, D, f, params[n]);
        }
      }
    }
  }

  lemma {:induction false} BuildField(h: Heap, p: Param) returns (after: Heap, D: set<nat>, f: Field)
    ensures h <= after && DescribesOne(after, D, f, p) && forall a :: a in D ==> a < |after|
    decreases p, 2
  {
    var l;
    after, D, l := BuildLayout(h, p.ty);
    f := Field(p.name, l, p.required, None);
    if p.dflt.Some? {
      var mid, E := after, D;
      var t;
      after, t := Build(mid, p.dflt.value, "");
      FootBounded(after, t);
      D := E + Foot(t);
      f := Field(p.name, l, p.required, Some(t.at));
      DescribesFrame(mid, after, E, l, p.ty);
      DescribesWider(after, E, D, l, p.ty);
      assert DefaultAt(after, D, t.at, p.dflt.value, t);
    }
  }

  lemma {:induction false} Wider(h: Heap, D: set<nat>, E: set<nat>, f: Field, p: Param)
    requires DescribesOne(h, D, f, p) && D <= E
    ensures DescribesOne(h, E, f, p)
    decreases f
  {
    DescribesWider(h, D, E, f.layout, p.ty);
    if f.dflt.Some? {
      var d: Tree :| DefaultAt(h, D, f.dflt.value, p.dflt.value, d);
      assert DefaultAt(h, E, f.dflt.value, p.dflt.value, d);
    }
  }

  lemma {:induction false} DescribesWider(h: Heap, D: set<nat>, E: set<nat>, l: Layout, ty: Type)
    requires Describes(h, D, l, ty) && D <= E
    ensures Describes(h, E, l, ty)
    decreases l
  {
    match l
    case Scalar(_) =>
    case ArrayL(item, _, _) => DescribesWider(h, D, E, item, ty.item);
    case MapL(value, _) => DescribesWider(h, D, E, value, ty.value);
    case ObjectL(fields) =>
      forall j | 0 <= j < |fields|
        ensures DescribesOne(h, E, fields[j], ty.fields[j])
      {
        Wider(h, D, E, fields[j], ty.fields[j]);
      }
  }

  /** Whatever the command and the arguments, there is a heap in which they stand beside
      each other: the in-place check asks for nothing more. */
  lemma {:induction false} SideBySide(cmd: Command, args: Node)
    returns (h: Heap, D: set<nat>, fields: seq<Field>, t: Tree)
    ensures DescribesAll(h, D, fields, cmd.params) && Beside(h, D, t) && Erase(t) == args
  {
    var mid;
    mid, D, fields := BuildFields([], cmd.params);
    h, t := Build(mid, args, "");
    forall j | 0 <= j < |fields|
      ensures DescribesOne(h, D, fields[j], cmd.params[j])
    {
      FieldFrame(mid, h, D, fields[j], cmd.params[j]);
    }
    assert forall a :: a in D ==> a < |mid|;
  }
}
