/** Manifest types as the check finds them in memory: every default is a tree of its
    own in the heap (src/types.c). */
module Layouts {
  import opened Text
  import opened Types
  import opened NodeStore

  /** astools_type; the scalar kinds carry no trees. */
  datatype Layout =
    | Scalar(ty: Type)
    | ArrayL(item: Layout, minItems: int, maxItems: int)
    | MapL(value: Layout, maxEntries: int)
    | ObjectL(fields: seq<Field>)

  /** astools_param; dflt is the node of the default, if there is one. */
  datatype Field = Field(name: string, layout: Layout, required: bool, dflt: Option<nat>)

  /** A tree for n stands at a, within the cells D. */
  ghost predicate Stands(h: Heap, D: set<nat>, a: nat, n: Node) {
    exists d: Tree :: DefaultAt(h, D, a, n, d)
  }

  ghost predicate DefaultAt(h: Heap, D: set<nat>, a: nat, n: Node, d: Tree) {
    d.at == a && Held(h, d) && Foot(d) <= D && Erase(d) == n
  }

  /** The layout is the type, its defaults standing within D. */
  ghost predicate Describes(h: Heap, D: set<nat>, l: Layout, ty: Type)
    decreases l
  {
    match l
    case Scalar(t) => t == ty && !ty.ArrayT? && !ty.MapT? && !ty.ObjectT?
    case ArrayL(item, min, max) =>
      ty.ArrayT? && ty.minItems == min && ty.maxItems == max && Describes(h, D, item, ty.item)
    case MapL(value, max) => ty.MapT? && ty.maxEntries == max && Describes(h, D, value, ty.value)
    case ObjectL(fields) => ty.ObjectT? && DescribesAll(h, D, fields, ty.fields)
  }

  ghost predicate DescribesAll(h: Heap, D: set<nat>, fields: seq<Field>, params: seq<Param>)
    decreases fields
  {
    |fields| == |params| && forall j :: 0 <= j < |fields| ==> DescribesOne(h, D, fields[j], params[j])
  }

  ghost predicate DescribesOne(h: Heap, D: set<nat>, f: Field, p: Param)
    decreases f
  {
    && f.name == p.name && f.required == p.required && Describes(h, D, f.layout, p.ty)
    && f.dflt.Some? == p.dflt.Some? && (f.dflt.Some? ==> Stands(h, D, f.dflt.value, p.dflt.value))
  }

  /** The cells of D hold what they held. */
  ghost predicate Same(before: Heap, after: Heap, D: set<nat>) {
    |before| <= |after| && forall a :: a in D && a < |before| ==> after[a] == before[a]
  }

  lemma {:induction false} StandsFrame(before: Heap, after: Heap, D: set<nat>, a: nat, n: Node)
    requires Stands(before, D, a, n) && Same(before, after, D)
    ensures Stands(after, D, a, n)
  {
    var d: Tree :| DefaultAt(before, D, a, n, d);
    HeldSame(before, after, D, d);
    assert DefaultAt(after, D, a, n, d);
  }

  lemma {:induction false} HeldSame(before: Heap, after: Heap, D: set<nat>, t: Tree)
    requires Held(before, t) && Same(before, after, D) && Foot(t) <= D
    ensures Held(after, t)
    decreases t
  {
    assert t.at in Foot(t) && t.valueAt in Foot(t);
    if !t.body.Leaf? {
      forall i | 0 <= i < |t.body.kids|
        ensures Held(after, t.body.kids[i])
      {
        KidFoot(t, i);
        HeldSame(before, after, D, t.body.kids[i]);
      }
    }
  }

  /** While the defaults are left alone the layout goes on describing the type. */
  lemma {:induction false} DescribesFrame(before: Heap, after: Heap, D: set<nat>, l: Layout, ty: Type)
    requires Describes(before, D, l, ty) && Same(before, after, D)
    ensures Describes(after, D, l, ty)
    decreases l
  {
    match l
    case Scalar(_) =>
    case ArrayL(item, _, _) => DescribesFrame(before, after, D, item, ty.item);
    case MapL(value, _) => DescribesFrame(before, after, D, value, ty.value);
    case ObjectL(fields) =>
      forall j | 0 <= j < |fields|
        ensures DescribesOne(after, D, fields[j], ty.fields[j])
      {
        FieldFrame(before, after, D, fields[j], ty.fields[j]);
      }
  }

  lemma {:induction false} FieldFrame(before: Heap, after: Heap, D: set<nat>, f: Field, p: Param)
    requires DescribesOne(before, D, f, p) && Same(before, after, D)
    ensures DescribesOne(after, D, f, p)
    decreases f
  {
    DescribesFrame(before, after, D, f.layout, p.ty);
    if f.dflt.Some? {
      StandsFrame(before, after, D, f.dflt.value, p.dflt.value);
    }
  }

  // ---- defaults and arguments side by side -----------------------------------------------------

  /** D is allocated, and the tree uses none of it. */
  ghost predicate Beside(h: Heap, D: set<nat>, t: Tree) {
    Held(h, t) && Apart(t) && Foot(t) !! D && forall a :: a in D ==> a < |h|
  }

  /** Updating a tree in place leaves what is beside it alone. */
  lemma {:induction false} BesideEvolved(before: Heap, after: Heap, D: set<nat>, was: Tree, now: Tree)
    requires Beside(before, D, was) && Evolved(before, after, was, now)
    ensures Beside(after, D, now) && Same(before, after, D)
  {
    assert forall a :: a in D ==> a !in Foot(was);
    assert forall a :: a in D ==> a !in Foot(now);
  }

  lemma {:induction false} BesideKid(h: Heap, D: set<nat>, t: Tree, i: nat)
    requires Beside(h, D, t) && !t.body.Leaf? && i < |t.body.kids|
    ensures Beside(h, D, t.body.kids[i])
  {
    var kid := t.body.kids[i];
    KidFoot(t, i);
    assert KidsApart(t.at, t.valueAt, t.body.kids);
    assert Held(h, kid) && Apart(kid);
    assert forall a :: a in D ==> a !in Foot(t);
  }
}
