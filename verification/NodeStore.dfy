/** xCDN nodes with identity: a heap of cells, the trees that stand in it, and what an
    update of one tree may touch. */
module NodeStore {
  import opened Types

  datatype Slot = Slot(key: string, node: nat)

  /** A node cell owns its value cell; values own the nodes they list. */
  datatype Cell =
    | NodeCell(tags: seq<string>, value: nat)
    | Plain(v: Value)
    | Items(nodes: seq<nat>)
    | Slots(slots: seq<Slot>)

  type Heap = seq<Cell>

  // ---- trees in a heap -------------------------------------------------------------------

  /** A tree and where each of its nodes and values stands; key is its name in its parent. */
  datatype Tree = Tree(key: string, at: nat, valueAt: nat, tags: seq<string>, body: Body)

  datatype Body = Leaf(v: Value) | List(kids: seq<Tree>) | Fields(kids: seq<Tree>)

  ghost function Ats(kids: seq<Tree>): seq<nat> { seq(|kids|, i requires 0 <= i < |kids| => kids[i].at) }

  ghost function SlotsOf(kids: seq<Tree>): seq<Slot> {
    seq(|kids|, i requires 0 <= i < |kids| => Slot(kids[i].key, kids[i].at))
  }

  /** The tree stands in the heap. */
  ghost predicate Held(h: Heap, t: Tree)
    decreases t
  {
    && t.at < |h| && t.valueAt < |h| && h[t.at] == NodeCell(t.tags, t.valueAt)
    && match t.body
       case Leaf(v) => h[t.valueAt] == Plain(v) && !v.Arr? && !v.Obj?
       case List(kids) => h[t.valueAt] == Items(Ats(kids)) && forall i :: 0 <= i < |kids| ==> Held(h, kids[i])
       case Fields(kids) => h[t.valueAt] == Slots(SlotsOf(kids)) && forall i :: 0 <= i < |kids| ==> Held(h, kids[i])
  }

  /** The cells of a tree. */
  ghost function Foot(t: Tree): set<nat>
    decreases t
  {
    {t.at, t.valueAt}
    + if t.body.Leaf? then {} else set i, a | 0 <= i < |t.body.kids| && a in Foot(t.body.kids[i]) :: a
  }

  /** No cell is used twice. */
  ghost predicate Apart(t: Tree)
    decreases t
  {
    t.at != t.valueAt && (!t.body.Leaf? ==> KidsApart(t.at, t.valueAt, t.body.kids))
  }

  ghost predicate KidsApart(at: nat, valueAt: nat, kids: seq<Tree>)
    decreases kids
  {
    && (forall i :: 0 <= i < |kids| ==> Apart(kids[i]))
    && (forall i :: 0 <= i < |kids| ==> at !in Foot(kids[i]) && valueAt !in Foot(kids[i]))
    && (forall i, j :: 0 <= i < j < |kids| ==> Foot(kids[i]) !! Foot(kids[j]))
  }

  /** The value tree it stands for. */
  ghost function Erase(t: Tree): Node
    decreases t, 1
  {
    Node(t.tags, match t.body
                 case Leaf(v) => v
                 case List(kids) => Arr(Nodes(kids))
                 case Fields(kids) => Obj(Named(kids)))
  }

  ghost function Nodes(kids: seq<Tree>): (r: seq<Node>)
    ensures |r| == |kids|
    decreases kids, 0
  {
    seq(|kids|, i requires 0 <= i < |kids| => Erase(kids[i]))
  }

  ghost function Named(kids: seq<Tree>): (r: seq<Entry>)
    ensures |r| == |kids|
    decreases kids, 0
  {
    seq(|kids|, i requires 0 <= i < |kids| => Entry(kids[i].key, Erase(kids[i])))
  }

  // ---- frames --------------------------------------------------------------------------------

  /** Only cells of S and cells that did not exist may differ. */
  ghost predicate Kept(before: Heap, after: Heap, S: set<nat>) {
    |before| <= |after| && forall a :: 0 <= a < |before| && a !in S ==> after[a] == before[a]
  }

  lemma {:induction false} FootBounded(h: Heap, t: Tree)
    requires Held(h, t)
    ensures forall a :: a in Foot(t) ==> a < |h|
    decreases t
  {
    if !t.body.Leaf? {
      forall i | 0 <= i < |t.body.kids|
        ensures forall a :: a in Foot(t.body.kids[i]) ==> a < |h|
      {
        FootBounded(h, t.body.kids[i]);
      }
    }
  }

  lemma {:induction false} KidsBounded(h: Heap, kids: seq<Tree>, c: Tree)
    requires forall i :: 0 <= i < |kids| ==> Held(h, kids[i])
    requires forall a :: a in Foot(c) ==> a >= |h|
    ensures forall i :: 0 <= i < |kids| ==> Foot(kids[i]) !! Foot(c)
  {
    hide Held, Foot;
    forall i | 0 <= i < |kids|
      ensures Foot(kids[i]) !! Foot(c)
    {
      FootBounded(h, kids[i]);
    }
  }

  /** A tree whose cells were left alone still stands. */
  lemma {:induction false} HeldFrame(before: Heap, after: Heap, S: set<nat>, t: Tree)
    requires Held(before, t) && Kept(before, after, S) && Foot(t) !! S
    ensures Held(after, t)
    decreases t
  {
    assert t.at in Foot(t) && t.valueAt in Foot(t);
    if !t.body.Leaf? {
      forall i | 0 <= i < |t.body.kids|
        ensures Held(after, t.body.kids[i])
      {
        KidFoot(t, i);
        HeldFrame(before, after, S, t.body.kids[i]);
      }
    }
  }

  lemma {:induction false} KidFoot(t: Tree, i: nat)
    requires !t.body.Leaf? && i < |t.body.kids|
    ensures Foot(t.body.kids[i]) <= Foot(t)
  {
  }

  // ---- a tree updated in place -----------------------------------------------------------------

  /** now stands where was stood, made of its cells and new ones, and nothing else in
      the heap changed. */
  ghost predicate Evolved(before: Heap, after: Heap, was: Tree, now: Tree) {
    && now.at == was.at && now.valueAt == was.valueAt && now.key == was.key && now.tags == was.tags
    && Held(after, now) && Apart(now)
    && Kept(before, after, Foot(was))
    && forall a :: a in Foot(now) ==> a in Foot(was) || a >= |before|
  }

  lemma {:induction false} EvolvedSelf(h: Heap, t: Tree)
    requires Held(h, t) && Apart(t)
    ensures Evolved(h, h, t, t)
  {
  }

  ghost function WithKid(t: Tree, i: nat, kid: Tree): Tree
    requires !t.body.Leaf? && i < |t.body.kids|
  {
    t.(body := if t.body.List? then List(t.body.kids[i := kid]) else Fields(t.body.kids[i := kid]))
  }

  /** Updating a child in place updates its parent in place. */
  lemma {:induction false} KidEvolves(h0: Heap, h1: Heap, h2: Heap, was: Tree, t: Tree, i: nat, kid: Tree)
    requires Evolved(h0, h1, was, t) && !t.body.Leaf? && i < |t.body.kids|
    requires Evolved(h1, h2, t.body.kids[i], kid)
    ensures Evolved(h0, h2, was, WithKid(t, i, kid))
  {
    hide Held, Foot, Apart;
    var now := WithKid(t, i, kid);
    KidHeld(h1, h2, t, i, kid);
    KidApart(h1, t, i, kid);
    KidCells(h1, t, i, kid);
    KidFoot(t, i);
  }

  lemma {:induction false} KidCells(h: Heap, t: Tree, i: nat, kid: Tree)
    requires !t.body.Leaf? && i < |t.body.kids|
    requires forall a :: a in Foot(kid) ==> a in Foot(t.body.kids[i]) || a >= |h|
    ensures forall a :: a in Foot(WithKid(t, i, kid)) ==> a in Foot(t) || a >= |h|
  {
  }

  lemma {:induction false} KidHeld(h1: Heap, h2: Heap, t: Tree, i: nat, kid: Tree)
    requires Held(h1, t) && Apart(t) && !t.body.Leaf? && i < |t.body.kids|
    requires Held(h2, kid) && kid.at == t.body.kids[i].at && kid.key == t.body.kids[i].key
    requires Kept(h1, h2, Foot(t.body.kids[i]))
    ensures Held(h2, WithKid(t, i, kid))
  {
    var kids := t.body.kids;
    assert Ats(kids[i := kid]) == Ats(kids) && SlotsOf(kids[i := kid]) == SlotsOf(kids);
    forall j | 0 <= j < |kids| && j != i
      ensures Held(h2, kids[j])
    {
      assert Foot(kids[j]) !! Foot(kids[i]);
      HeldFrame(h1, h2, Foot(kids[i]), kids[j]);
    }
  }

  lemma {:induction false} KidApart(h: Heap, t: Tree, i: nat, kid: Tree)
    requires Held(h, t) && Apart(t) && !t.body.Leaf? && i < |t.body.kids| && Apart(kid)
    requires forall a :: a in Foot(kid) ==> a in Foot(t.body.kids[i]) || a >= |h|
    ensures Apart(WithKid(t, i, kid))
  {
    var kids := t.body.kids;
    FootBounded(h, t);
    forall j | 0 <= j < |kids| && j != i
      ensures Foot(kids[j]) !! Foot(kid)
    {
      KidFoot(t, j);
      assert Foot(kids[j]) !! Foot(kids[i]);
    }
    assert t.at in Foot(t) && t.valueAt in Foot(t);
    hide Foot;
  }

  // ---- a tree that grows -----------------------------------------------------------------------

  /** The value cell of a body. */
  ghost function CellOf(b: Body): Cell {
    match b
    case Leaf(v) => Plain(v)
    case List(kids) => Items(Ats(kids))
    case Fields(kids) => Slots(SlotsOf(kids))
  }

  /** A value and what it owns stand in the heap. */
  ghost predicate BodyHeld(h: Heap, valueAt: nat, b: Body) {
    && valueAt < |h| && h[valueAt] == CellOf(b)
    && (b.Leaf? ==> !b.v.Arr? && !b.v.Obj?)
    && (!b.Leaf? ==> forall i :: 0 <= i < |b.kids| ==> Held(h, b.kids[i]))
  }

  lemma {:induction false} HeldBody(h: Heap, t: Tree)
    ensures Held(h, t) <==> t.at < |h| && h[t.at] == NodeCell(t.tags, t.valueAt) && BodyHeld(h, t.valueAt, t.body)
  {
  }

  ghost function More(t: Tree, kid: Tree): Tree
    requires !t.body.Leaf?
  {
    t.(body := if t.body.List? then List(t.body.kids + [kid]) else Fields(t.body.kids + [kid]))
  }

  /** A fresh child at the end of a list or an object, its value cell rewritten. */
  lemma {:induction false} GrownEvolves(h0: Heap, h1: Heap, h2: Heap, was: Tree, t: Tree, kid: Tree)
    requires Evolved(h0, h1, was, t) && !t.body.Leaf?
    requires Kept(h1, h2, {t.valueAt}) && h2[t.valueAt] == CellOf(More(t, kid).body)
    requires Held(h2, kid) && Apart(kid) && forall a :: a in Foot(kid) ==> a >= |h1|
    ensures Evolved(h0, h2, was, More(t, kid))
  {
    hide Held, Foot, Apart;
    HeldBody(h1, t);
    HeldBody(h2, More(t, kid));
    OwnCells(t);
    GrownHeld(h1, h2, t, kid);
    KidsBounded(h1, t.body.kids, kid);
    GrownApart(t, kid);
    GrownCells(t, kid);
    hide BodyHeld;
  }

  lemma {:induction false} OwnCells(t: Tree)
    ensures t.at in Foot(t) && t.valueAt in Foot(t)
  {
  }

  lemma {:induction false} GrownHeld(h1: Heap, h2: Heap, t: Tree, kid: Tree)
    requires BodyHeld(h1, t.valueAt, t.body) && Apart(t) && !t.body.Leaf?
    requires Kept(h1, h2, {t.valueAt}) && h2[t.valueAt] == CellOf(More(t, kid).body)
    requires Held(h2, kid)
    ensures BodyHeld(h2, t.valueAt, More(t, kid).body)
  {
    var kids := t.body.kids;
    forall j | 0 <= j < |kids|
      ensures Held(h2, kids[j])
    {
      HeldFrame(h1, h2, {t.valueAt}, kids[j]);
    }
  }

  lemma {:induction false} GrownApart(t: Tree, kid: Tree)
    requires Apart(t) && !t.body.Leaf? && Apart(kid) && t.at !in Foot(kid) && t.valueAt !in Foot(kid)
    requires forall j :: 0 <= j < |t.body.kids| ==> Foot(t.body.kids[j]) !! Foot(kid)
    ensures Apart(More(t, kid))
  {
    hide Foot;
  }

  lemma {:induction false} GrownCells(t: Tree, kid: Tree)
    requires !t.body.Leaf?
    ensures Foot(More(t, kid)) == Foot(t) + Foot(kid)
  {
    var kids := t.body.kids;
    forall a | a in Foot(kid)
      ensures a in Foot(More(t, kid))
    {
      assert (kids + [kid])[|kids|] == kid;
    }
    forall a | a in Foot(t)
      ensures a in Foot(More(t, kid))
    {
      if a != t.at && a != t.valueAt {
        var i :| 0 <= i < |kids| && a in Foot(kids[i]);
        assert (kids + [kid])[i] == kids[i];
      }
    }
  }

  /** A scalar overwritten where it stands. */
  lemma {:induction false} LeafEvolves(h0: Heap, h1: Heap, t: Tree, v: Value)
    requires Held(h0, t) && Apart(t) && t.body.Leaf? && !v.Arr? && !v.Obj?
    requires Kept(h0, h1, {t.valueAt}) && h1[t.valueAt] == Plain(v)
    ensures Evolved(h0, h1, t, t.(body := Leaf(v)))
  {
  }

  // ---- what can be reached ------------------------------------------------------------------------

  ghost predicate Points(h: Heap, a: nat, b: nat) {
    a < |h| && match h[a]
               case NodeCell(_, v) => b == v
               case Plain(_) => false
               case Items(nodes) => b in nodes
               case Slots(slots) => exists i :: 0 <= i < |slots| && slots[i].node == b
  }

  ghost predicate Chain(h: Heap, path: seq<nat>) { forall i :: 0 <= i < |path| - 1 ==> Points(h, path[i], path[i + 1]) }

  lemma {:induction false} FootClosed(h: Heap, t: Tree, a: nat, b: nat)
    requires Held(h, t) && a in Foot(t) && Points(h, a, b)
    ensures b in Foot(t)
    decreases t
  {
    if a != t.at && a != t.valueAt {
      var i :| 0 <= i < |t.body.kids| && a in Foot(t.body.kids[i]);
      FootClosed(h, t.body.kids[i], a, b);
    } else if a == t.valueAt {
      var i :| 0 <= i < |t.body.kids| && t.body.kids[i].at == b;
      assert b in Foot(t.body.kids[i]);
    }
  }

  /** The cells of a tree are all that can be reached from its root. */
  lemma {:induction false} ReachedInside(h: Heap, t: Tree, path: seq<nat>)
    requires Held(h, t) && path != [] && path[0] == t.at && Chain(h, path)
    ensures path[|path| - 1] in Foot(t)
    decreases |path|
  {
    if |path| > 1 {
      var n := |path| - 1;
      assert Points(h, path[n - 1], path[n - 1 + 1]);
      ReachedInside(h, t, path[..n]);
      FootClosed(h, t, path[n - 1], path[n]);
    }
  }
}
