/** Deep copies of xCDN trees (src/types.c): what a half-built copy looks like. */
module Copies {
  import opened NodeStore
  import opened Args

  /** t as a copy of it starts, its value cell empty. */
  ghost function Bare(b: Body): Body {
    match b case Leaf(_) => b case List(_) => List([]) case Fields(_) => Fields([])
  }

  /** q is a copy of t up to its first n children, made of cells from base on and of its
      own node cell. */
  ghost predicate Copying(base: nat, h: Heap, t: Tree, q: Tree, n: nat) {
    && q.tags == t.tags && Bare(q.body) == Bare(t.body)
    && base <= |h| && q.at < |h| && BodyHeld(h, q.valueAt, q.body) && Apart(q)
    && (forall a :: a in Foot(q) ==> a == q.at || a >= base)
    && (!t.body.Leaf? ==>
          && |q.body.kids| == n <= |t.body.kids|
          && forall k :: 0 <= k < n ==> KidCopied(t.body.kids[k], q.body.kids[k]))
  }

  ghost predicate KidCopied(kid: Tree, copy: Tree) { copy.key == kid.key && Erase(copy) == Erase(kid) }

  /** An equal tree of cells from base on. */
  ghost predicate Copied(base: nat, h: Heap, t: Tree, q: Tree) {
    Held(h, q) && Apart(q) && Erase(q) == Erase(t) && forall a :: a in Foot(q) ==> a >= base
  }

  /** A finished value equals the original. */
  lemma {:induction false} CopyDone(base: nat, h: Heap, t: Tree, q: Tree)
    requires Copying(base, h, t, q, if t.body.Leaf? then 0 else |t.body.kids|)
    ensures Erase(q) == Erase(t)
  {
    if !t.body.Leaf? {
      var a, b := t.body.kids, q.body.kids;
      assert forall k :: 0 <= k < |a| ==> KidCopied(a[k], b[k]);
      assert Nodes(a) == Nodes(b);
      assert Named(a) == Named(b);
    }
  }

  lemma {:induction false} CopyMore(base: nat, h: Heap, after: Heap, t: Tree, q: Tree, n: nat, c: Tree)
    requires !t.body.Leaf? && Copying(base, h, t, q, n) && n < |t.body.kids|
    requires Kept(h, after, {q.valueAt}) && after[q.valueAt] == CellOf(More(q, c).body)
    requires Copied(|h|, after, t.body.kids[n], c) && c.key == t.body.kids[n].key
    ensures Copying(base, after, t, More(q, c), n + 1)
  {
    hide Held, Foot, Apart, Erase, KidCopied;
    GrownHeld(h, after, q, c);
    KidsBounded(h, q.body.kids, c);
    GrownApart(q, c);
    GrownCells(q, c);
    hide BodyHeld;
    KidEqual(t.body.kids[n], c);
  }

  lemma {:induction false} KidEqual(kid: Tree, copy: Tree)
    requires copy.key == kid.key && Erase(copy) == Erase(kid)
    ensures KidCopied(kid, copy)
  {
  }

  lemma {:induction false} CopyStart(base: nat, h: Heap, t: Tree, q: Tree)
    requires !t.body.Leaf? && q.tags == t.tags && q.body == Bare(t.body)
    requires q.at < q.valueAt == base < |h| && h[base] == CellOf(q.body)
    ensures Copying(base, h, t, q, 0)
  {
  }

  /** One turn of the copying loops: a child has been copied and is then entered. */
  lemma {:induction false} CopyTurn(base: nat, h: Heap, mid: Heap, after: Heap, t: Tree, q: Tree, n: nat, c: Tree)
    requires !t.body.Leaf? && Copying(base, h, t, q, n) && n < |t.body.kids|
    requires Held(h, t) && q.valueAt !in Foot(t) && h <= mid
    requires Copied(|h|, mid, t.body.kids[n], c) && c.key == t.body.kids[n].key
    requires after == mid[q.valueAt := CellOf(More(q, c).body)]
    ensures Held(after, t) && Copying(base, after, t, More(q, c), n + 1)
  {
    hide Held, Foot, Copying, KidCopied, Apart, Erase;
    ValuePlaced(base, h, t, q, n);
    HeldFrame(h, after, {q.valueAt}, t);
    HeldFrame(mid, after, {q.valueAt}, c);
    CopyMore(base, h, after, t, q, n, c);
  }

  /** A copying loop after n turns: the original stands, and each of its first n children has
      been copied below the value cell at out. */
  ghost predicate Halfway(start: Heap, h: Heap, t: Tree, q: Tree, n: nat, out: nat, depth: nat) {
    && start <= h && out == |start| < |h| && q.valueAt == out
    && !t.body.Leaf? && Held(h, t) && Copying(|start|, h, t, q, n)
    && n <= |t.body.kids| && forall k :: 0 <= k < n ==> Clonable(Erase(t.body.kids[k]), depth + 1)
  }

  lemma {:induction false} HalfwayStart(start: Heap, h: Heap, t: Tree, q: Tree, depth: nat)
    requires Held(start, t) && !t.body.Leaf? && q.tags == t.tags && q.body == Bare(t.body) && q.at < q.valueAt == |start|
    requires h == start + [CellOf(q.body)]
    ensures Halfway(start, h, t, q, 0, |start|, depth)
  {
    hide Held, Copying, CellOf;
    HeldFrame(start, h, {}, t);
    CopyStart(|start|, h, t, q);
  }

  lemma {:induction false} HalfwayKid(start: Heap, h: Heap, t: Tree, q: Tree, n: nat, out: nat, depth: nat)
    requires Halfway(start, h, t, q, n, out, depth) && n < |t.body.kids|
    ensures Held(h, t.body.kids[n]) && out < |h| && start <= h && !q.body.Leaf?
  {
    hide Copied, Apart, Foot, Erase;
  }

  lemma {:induction false} HalfwayTurn(start: Heap, h: Heap, mid: Heap, after: Heap, t: Tree, q: Tree, n: nat, out: nat, depth: nat, c: Tree)
    requires Held(start, t) && Halfway(start, h, t, q, n, out, depth) && n < |t.body.kids| && !q.body.Leaf?
    requires h <= mid && Copied(|h|, mid, t.body.kids[n], c) && c.key == t.body.kids[n].key
    requires Clonable(Erase(t.body.kids[n]), depth + 1) && out < |mid| && after == mid[out := CellOf(More(q, c).body)]
    ensures Halfway(start, after, t, More(q, c), n + 1, out, depth)
  {
    hide Held, Copying, Copied, Clonable, Erase, Foot, CellOf;
    FootBounded(start, t);
    CopyTurn(|start|, h, mid, after, t, q, n, c);
  }

  lemma {:induction false} HalfwayDone(start: Heap, h: Heap, t: Tree, q: Tree, out: nat, depth: nat)
    requires !t.body.Leaf? && Halfway(start, h, t, q, |t.body.kids|, out, depth) && 0 < depth <= CLONE_DEPTH_MAX
    ensures Copying(|start|, h, t, q, |t.body.kids|) && Clonable(Erase(t), depth - 1) && start <= h
  {
    hide Held, Copying, Clonable, Erase;
    AllClonable(t, depth);
  }

  /** Entering a copied child in its list. */
  lemma {:induction false} MoreItems(q: Tree, c: Tree, done: seq<nat>)
    requires q.body.List? && done == Ats(q.body.kids)
    ensures Items(done + [c.at]) == CellOf(More(q, c).body) && done + [c.at] == Ats(More(q, c).body.kids)
  {
  }

  /** Entering a copied child in its object. */
  lemma {:induction false} MoreSlots(q: Tree, c: Tree, done: seq<Slot>)
    requires q.body.Fields? && done == SlotsOf(q.body.kids)
    ensures Slots(done + [Slot(c.key, c.at)]) == CellOf(More(q, c).body) && done + [Slot(c.key, c.at)] == SlotsOf(More(q, c).body.kids)
  {
  }

  lemma {:induction false} ValuePlaced(base: nat, h: Heap, t: Tree, q: Tree, n: nat)
    requires Copying(base, h, t, q, n)
    ensures q.valueAt < |h|
  {
  }

  lemma {:induction false} Unclonable(t: Tree, i: nat, depth: nat)
    requires !t.body.Leaf? && i < |t.body.kids| && depth > 0 && !Clonable(Erase(t.body.kids[i]), depth + 1)
    ensures !Clonable(Erase(t), depth - 1)
  {
    var kids := t.body.kids;
    assert Nodes(kids)[i] == Erase(kids[i]) && Named(kids)[i].node == Erase(kids[i]);
  }

  lemma {:induction false} AllClonable(t: Tree, depth: nat)
    requires !t.body.Leaf? && 0 < depth <= CLONE_DEPTH_MAX
    requires forall i :: 0 <= i < |t.body.kids| ==> Clonable(Erase(t.body.kids[i]), depth + 1)
    ensures Clonable(Erase(t), depth - 1)
  {
  }

  /** Writing the node cell finishes the copy. */
  lemma {:induction false} CopyPlaced(base: nat, h: Heap, after: Heap, t: Tree, q: Tree)
    requires Copying(base, h, t, q, if t.body.Leaf? then 0 else |t.body.kids|) && q.at >= base
    requires Kept(h, after, {q.at}) && after[q.at] == NodeCell(q.tags, q.valueAt)
    ensures Copied(base, after, t, q)
  {
    CopyDone(base, h, t, q);
    if !q.body.Leaf? {
      assert KidsApart(q.at, q.valueAt, q.body.kids);
      forall j | 0 <= j < |q.body.kids|
        ensures Held(after, q.body.kids[j])
      {
        HeldFrame(h, after, {q.at}, q.body.kids[j]);
      }
    }
    HeldBody(after, q);
  }
}
