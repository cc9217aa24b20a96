/** The steps of checking and rewriting a tree in place, as facts about trees. */
module StoreSteps {
  import opened Text
  import opened Types
  import opened NodeStore
  import opened Layouts
  import opened Args
  import opened Grants
  import PathWalk
  import Duplicates

  ghost function Size(t: Tree): nat { if t.body.Leaf? then 0 else |t.body.kids| }

  lemma {:induction false} HeldNode(h: Heap, t: Tree)
    requires Held(h, t)
    ensures t.at < |h| && t.valueAt < |h| && h[t.at] == NodeCell(t.tags, t.valueAt) && h[t.valueAt] == CellOf(t.body)
  {
  }

  /** Allocating changes no tree. */
  lemma {:induction false} EvolvedLater(before: Heap, after: Heap, t: Tree)
    requires Held(before, t) && Apart(t) && before <= after
    ensures Evolved(before, after, t, t)
  {
    HeldFrame(before, after, {}, t);
  }

  lemma {:induction false} InjectEvolves(start: Heap, mid: Heap, after: Heap, t: Tree, copy: Tree)
    requires Held(start, t) && Apart(t) && t.body.Fields? && start <= mid
    requires Held(mid, copy) && Apart(copy) && forall a :: a in Foot(copy) ==> a >= |start|
    requires after == mid[t.valueAt := Slots(SlotsOf(t.body.kids) + [Slot(copy.key, copy.at)])]
    ensures Evolved(start, after, t, More(t, copy))
    ensures Named(More(t, copy).body.kids) == Named(t.body.kids) + [Entry(copy.key, Erase(copy))]
  {
    hide Held, Foot, Apart;
    EvolvedSelf(start, t);
    HeldNode(start, t);
    assert CellOf(More(t, copy).body) == after[t.valueAt];
    HeldFrame(mid, after, {t.valueAt}, copy);
    GrownEvolves(start, start, after, t, t, copy);
  }

  // ---- what a check in place reports -------------------------------------------------------------------

  /** The outcome is that of the function on the erased tree, unless a needed allocation failed. */
  ghost predicate Agrees(e: Option<Error>, r: Result<Node>, q: Tree, starved: bool) {
    match e
    case None => r == Ok(Erase(q))
    case Some(error) => r == Err(error) || (error == NoMemory && starved)
  }

  /** q is t with its first n children replaced in place. */
  ghost predicate Listed(t: Tree, q: Tree, n: nat) {
    && t.body.List? && q.body.List? && q.tags == t.tags && |q.body.kids| == |t.body.kids|
    && (forall k :: 0 <= k < |t.body.kids| ==> q.body.kids[k].at == t.body.kids[k].at)
    && forall k :: n <= k < |t.body.kids| ==> q.body.kids[k] == t.body.kids[k]
  }

  /** The next child can be checked. */
  lemma {:induction false} Ready(start: Heap, h: Heap, D: set<nat>, l: Layout, ty: Type, t: Tree, q: Tree, i: nat)
    requires Describes(start, D, l, ty) && Beside(start, D, t) && Evolved(start, h, t, q)
    requires !q.body.Leaf? && i < |q.body.kids|
    ensures Describes(h, D, l, ty) && Beside(h, D, q) && Beside(h, D, q.body.kids[i])
  {
    BesideEvolved(start, h, D, t, q);
    DescribesFrame(start, h, D, l, ty);
    BesideKid(h, D, q, i);
  }

  lemma {:induction false} NoItems(fmt: Formats, ty: Type, kids: seq<Tree>)
    ensures CheckItems(fmt, ty, Nodes(kids[..0])) == Ok([]) == Ok(Nodes(kids[..0]))
  {
  }

  lemma {:induction false} ListTurn(start: Heap, h: Heap, after: Heap, t: Tree, q: Tree, i: nat, kid: Tree)
    requires Evolved(start, h, t, q) && Listed(t, q, i) && i < |q.body.kids|
    requires Evolved(h, after, q.body.kids[i], kid)
    ensures Evolved(start, after, t, WithKid(q, i, kid)) && Listed(t, WithKid(q, i, kid), i + 1)
  {
    hide Held, Foot, Apart;
    KidEvolves(start, h, after, t, q, i, kid);
  }

  lemma {:induction false} ItemsTurn(fmt: Formats, ty: Type, kids: seq<Tree>, done: seq<Tree>, i: nat, kid: Tree)
    requires i < |kids| == |done| && done[i] == kids[i]
    requires CheckItems(fmt, ty, Nodes(kids[..i])) == Ok(Nodes(done[..i]))
    ensures CheckItems(fmt, ty, Nodes(kids[..i + 1])) ==
            match Check(fmt, ty, Erase(kids[i])) case Err(e) => Err(e) case Ok(n) => Ok(Nodes(done[..i]) + [n])
    ensures Nodes(done[i := kid][..i + 1]) == Nodes(done[..i]) + [Erase(kid)]
  {
    assert Nodes(kids[..i + 1])[..i] == Nodes(kids[..i]);
    assert done[i := kid][..i + 1] == done[..i] + [kid];
  }

  lemma {:induction false} ItemsFailed(fmt: Formats, ty: Type, kids: seq<Tree>, i: nat)
    requires i < |kids| && CheckItems(fmt, ty, Nodes(kids[..i + 1])).Err?
    ensures CheckItems(fmt, ty, Nodes(kids)) == CheckItems(fmt, ty, Nodes(kids[..i + 1]))
  {
    assert Nodes(kids)[..i + 1] == Nodes(kids[..i + 1]);
    Args.ItemsFail(fmt, ty, Nodes(kids), i + 1);
  }

  lemma {:induction false} Rewrapped(t: Tree, q: Tree)
    requires t.body.List? && q.body.List? && q.tags == t.tags
    ensures Node(Erase(t).tags, Arr(Nodes(q.body.kids))) == Erase(q)
  {
  }

  lemma {:induction false} Reobjected(t: Tree, q: Tree)
    requires t.body.Fields? && q.body.Fields? && q.tags == t.tags
    ensures Node(Erase(t).tags, Obj(Named(q.body.kids))) == Erase(q)
  {
  }

  // ---- objects ---------------------------------------------------------------------------------------

  ghost predicate Mapped(t: Tree, q: Tree, n: nat) {
    && t.body.Fields? && q.body.Fields? && q.tags == t.tags && |q.body.kids| == |t.body.kids|
    && (forall k :: 0 <= k < |t.body.kids| ==>
          q.body.kids[k].at == t.body.kids[k].at && q.body.kids[k].key == t.body.kids[k].key)
    && forall k :: n <= k < |t.body.kids| ==> q.body.kids[k] == t.body.kids[k]
  }

  lemma {:induction false} NoEntries(fmt: Formats, ty: Type, kids: seq<Tree>)
    ensures CheckEntries(fmt, ty, Named(kids[..0])) == Ok([]) == Ok(Named(kids[..0]))
  {
  }

  lemma {:induction false} MapTurn(start: Heap, h: Heap, after: Heap, t: Tree, q: Tree, i: nat, kid: Tree)
    requires Evolved(start, h, t, q) && Mapped(t, q, i) && i < |q.body.kids|
    requires Evolved(h, after, q.body.kids[i], kid)
    ensures Evolved(start, after, t, WithKid(q, i, kid)) && Mapped(t, WithKid(q, i, kid), i + 1)
  {
    hide Held, Foot, Apart;
    KidEvolves(start, h, after, t, q, i, kid);
  }

  lemma {:induction false} EntriesTurn(fmt: Formats, ty: Type, kids: seq<Tree>, done: seq<Tree>, i: nat, kid: Tree)
    requires i < |kids| == |done| && done[i] == kids[i] && kid.key == kids[i].key
    requires CheckEntries(fmt, ty, Named(kids[..i])) == Ok(Named(done[..i]))
    ensures CheckEntries(fmt, ty, Named(kids[..i + 1])) ==
            match Check(fmt, ty, Erase(kids[i])) case Err(e) => Err(e) case Ok(n) => Ok(Named(done[..i]) + [Entry(kid.key, n)])
    ensures Named(done[i := kid][..i + 1]) == Named(done[..i]) + [Entry(kid.key, Erase(kid))]
  {
    assert Named(kids[..i + 1])[..i] == Named(kids[..i]);
    assert done[i := kid][..i + 1] == done[..i] + [kid];
  }

  lemma {:induction false} EntriesFailed(fmt: Formats, ty: Type, kids: seq<Tree>, i: nat)
    requires i < |kids| && CheckEntries(fmt, ty, Named(kids[..i + 1])).Err?
    ensures CheckEntries(fmt, ty, Named(kids)) == CheckEntries(fmt, ty, Named(kids[..i + 1]))
  {
    assert Named(kids)[..i + 1] == Named(kids[..i + 1]);
    Args.EntriesFail(fmt, ty, Named(kids), i + 1);
  }

  lemma {:induction false} RepeatsNamed(names: seq<Option<string>>, kids: seq<Tree>)
    requires |names| == |kids| && forall i :: 0 <= i < |kids| ==> names[i] == Some(kids[i].key)
    ensures Duplicates.Repeats(names) <==> !NoDuplicates(Named(kids))
  {
    var entries := Named(kids);
    if !NoDuplicates(entries) {
      var i, j :| 0 <= i < j < |entries| && entries[i].key == entries[j].key;
      assert names[i].Some? && names[i] == names[j];
    }
    if Duplicates.Repeats(names) {
      var i, j :| 0 <= i < j < |names| && names[i].Some? && names[i] == names[j];
      assert entries[i].key == entries[j].key;
    }
  }

  /** xcdn_object_get */
  function FindSlot(slots: seq<Slot>, key: string): (r: Option<nat>)
    ensures r.Some? ==> r.value < |slots| && slots[r.value].key == key
  {
    if slots == [] then None
    else if slots[0].key == key then Some(0)
    else match FindSlot(slots[1..], key) case None => None case Some(i) => Some(i + 1)
  }

  lemma {:induction false} SlotFound(kids: seq<Tree>, key: string)
    ensures FindSlot(SlotsOf(kids), key) == Find(Named(kids), key)
  {
    if kids != [] {
      SlotFound(kids[1..], key);
      assert SlotsOf(kids)[1..] == SlotsOf(kids[1..]) && Named(kids)[1..] == Named(kids[1..]);
    }
  }

  lemma {:induction false} NamedKid(kids: seq<Tree>, i: nat, kid: Tree)
    requires i < |kids| && kid.key == kids[i].key
    ensures Named(kids[i := kid]) == Named(kids)[i := Entry(kid.key, Erase(kid))]
    ensures Named(kids)[i].node == Erase(kids[i])
  {
  }

  lemma {:induction false} UnknownKey(h: Heap, D: set<nat>, fields: seq<Field>, params: seq<Param>, kids: seq<Tree>, i: nat)
    requires DescribesAll(h, D, fields, params) && i < |kids|
    requires forall j :: 0 <= j < |fields| ==> fields[j].name != kids[i].key
    ensures !AllKnown(params, Named(kids))
  {
    assert !HasField(params, Named(kids)[i].key) by {
      assert forall j :: 0 <= j < |params| ==> DescribesOne(h, D, fields[j], params[j]);
    }
  }

  lemma {:induction false} KnownKeys(params: seq<Param>, slots: seq<Slot>, kids: seq<Tree>)
    requires slots == SlotsOf(kids) && forall i :: 0 <= i < |slots| ==> HasField(params, slots[i].key)
    ensures AllKnown(params, Named(kids))
  {
    assert forall i :: 0 <= i < |kids| ==> Named(kids)[i].key == slots[i].key;
  }

  /** The next field can be checked. */
  lemma {:induction false} FieldReady(start: Heap, h: Heap, D: set<nat>, fields: seq<Field>, params: seq<Param>, t: Tree, q: Tree, j: nat)
    requires DescribesAll(start, D, fields, params) && Beside(start, D, t) && Evolved(start, h, t, q) && j < |fields|
    ensures |fields| == |params| && DescribesOne(h, D, fields[j], params[j]) && Beside(h, D, q)
  {
    BesideEvolved(start, h, D, t, q);
    FieldFrame(start, h, D, fields[j], params[j]);
  }

  lemma {:induction false} EvolvedHere(h0: Heap, h1: Heap, was: Tree, t: Tree)
    requires Evolved(h0, h1, was, t)
    ensures t.at == was.at && t.valueAt == was.valueAt
  {
  }

  /** Two updates in place, one after the other. */
  lemma {:induction false} EvolvedThen(h0: Heap, h1: Heap, h2: Heap, was: Tree, t: Tree, now: Tree)
    requires Evolved(h0, h1, was, t) && Evolved(h1, h2, t, now)
    ensures Evolved(h0, h2, was, now)
  {
    hide Held, Foot, Apart;
  }

  // ---- the walk ----------------------------------------------------------------------------------------

  /** The outcome is that of the function on the erased tree. */
  ghost predicate Follows(e: Option<Error>, r: Result<Node>, q: Tree) {
    match e case None => r == Ok(Erase(q)) case Some(error) => r == Err(error)
  }

  lemma {:induction false} NoWalkItems(host: PathWalk.Host, fs: seq<Perm>, ty: Type, kids: seq<Tree>, depth: nat)
    ensures PathWalk.WalkItems(host, fs, ty, Nodes(kids[..0]), depth) == Ok([]) == Ok(Nodes(kids[..0]))
    ensures PathWalk.WalkEntries(host, fs, ty, Named(kids[..0]), depth) == Ok([]) == Ok(Named(kids[..0]))
  {
  }

  lemma {:induction false} WalkItemsTurn(host: PathWalk.Host, fs: seq<Perm>, ty: Type, kids: seq<Tree>, done: seq<Tree>, i: nat, kid: Tree, depth: nat)
    requires i < |kids| == |done| && done[i] == kids[i]
    requires PathWalk.WalkItems(host, fs, ty, Nodes(kids[..i]), depth) == Ok(Nodes(done[..i]))
    ensures PathWalk.WalkItems(host, fs, ty, Nodes(kids[..i + 1]), depth) ==
            match PathWalk.Walk(host, fs, ty, Erase(kids[i]), depth) case Err(e) => Err(e) case Ok(n) => Ok(Nodes(done[..i]) + [n])
    ensures Nodes(done[i := kid][..i + 1]) == Nodes(done[..i]) + [Erase(kid)]
  {
    assert Nodes(kids[..i + 1])[..i] == Nodes(kids[..i]);
    assert done[i := kid][..i + 1] == done[..i] + [kid];
  }

  lemma {:induction false} WalkItemsFailed(host: PathWalk.Host, fs: seq<Perm>, ty: Type, kids: seq<Tree>, i: nat, depth: nat)
    requires i < |kids| && PathWalk.WalkItems(host, fs, ty, Nodes(kids[..i + 1]), depth).Err?
    ensures PathWalk.WalkItems(host, fs, ty, Nodes(kids), depth) == PathWalk.WalkItems(host, fs, ty, Nodes(kids[..i + 1]), depth)
  {
    assert Nodes(kids)[..i + 1] == Nodes(kids[..i + 1]);
    PathWalk.ItemsFail(host, fs, ty, Nodes(kids), depth, i + 1);
  }

  lemma {:induction false} WalkEntriesTurn(host: PathWalk.Host, fs: seq<Perm>, ty: Type, kids: seq<Tree>, done: seq<Tree>, i: nat, kid: Tree, depth: nat)
    requires i < |kids| == |done| && done[i] == kids[i] && kid.key == kids[i].key
    requires PathWalk.WalkEntries(host, fs, ty, Named(kids[..i]), depth) == Ok(Named(done[..i]))
    ensures PathWalk.WalkEntries(host, fs, ty, Named(kids[..i + 1]), depth) ==
            match PathWalk.Walk(host, fs, ty, Erase(kids[i]), depth)
            case Err(e) => Err(e)
            case Ok(n) => Ok(Named(done[..i]) + [Entry(kid.key, n)])
    ensures Named(done[i := kid][..i + 1]) == Named(done[..i]) + [Entry(kid.key, Erase(kid))]
  {
    assert Named(kids[..i + 1])[..i] == Named(kids[..i]);
    assert done[i := kid][..i + 1] == done[..i] + [kid];
  }

  lemma {:induction false} WalkEntriesFailed(host: PathWalk.Host, fs: seq<Perm>, ty: Type, kids: seq<Tree>, i: nat, depth: nat)
    requires i < |kids| && PathWalk.WalkEntries(host, fs, ty, Named(kids[..i + 1]), depth).Err?
    ensures PathWalk.WalkEntries(host, fs, ty, Named(kids), depth) == PathWalk.WalkEntries(host, fs, ty, Named(kids[..i + 1]), depth)
  {
    assert Named(kids)[..i + 1] == Named(kids[..i + 1]);
    PathWalk.EntriesFail(host, fs, ty, Named(kids), depth, i + 1);
  }

  // ---- the defaults -----------------------------------------------------------------------------------------

  /** a is the default of some field, at any depth. */
  ghost predicate DefaultOf(l: Layout, a: nat)
    decreases l
  {
    match l
    case Scalar(_) => false
    case ArrayL(item, _, _) => DefaultOf(item, a)
    case MapL(value, _) => DefaultOf(value, a)
    case ObjectL(fields) => DefaultIn(fields, a)
  }

  ghost predicate DefaultIn(fields: seq<Field>, a: nat)
    decreases fields
  {
    exists j :: 0 <= j < |fields| && (fields[j].dflt == Some(a) || DefaultOf(fields[j].layout, a))
  }

  /** A path of pointers that starts at a default. */
  ghost predicate FromDefault(h: Heap, fields: seq<Field>, path: seq<nat>) {
    path != [] && DefaultIn(fields, path[0]) && Chain(h, path)
  }

  /** Every cell that could be reached from a default is as it was, and no part of q. */
  ghost predicate Untouched(before: Heap, after: Heap, fields: seq<Field>, q: Tree) {
    forall path :: FromDefault(before, fields, path) ==> LeftAlone(before, after, path[|path| - 1], q)
  }

  ghost predicate LeftAlone(before: Heap, after: Heap, a: nat, q: Tree) {
    a < |before| <= |after| && after[a] == before[a] && a !in Foot(q)
  }

  lemma {:induction false} DefaultReached(h: Heap, D: set<nat>, l: Layout, ty: Type, path: seq<nat>)
    requires Describes(h, D, l, ty) && path != [] && DefaultOf(l, path[0]) && Chain(h, path)
    ensures path[|path| - 1] in D
    decreases l, 0
  {
    match l
    case ArrayL(item, _, _) => DefaultReached(h, D, item, ty.item, path);
    case MapL(value, _) => DefaultReached(h, D, value, ty.value, path);
    case ObjectL(fields) => FieldReached(h, D, fields, ty.fields, path);
  }

  lemma {:induction false} FieldReached(h: Heap, D: set<nat>, fields: seq<Field>, params: seq<Param>, path: seq<nat>)
    requires DescribesAll(h, D, fields, params) && FromDefault(h, fields, path)
    ensures path[|path| - 1] in D
    decreases fields, 1
  {
    var j :| 0 <= j < |fields| && (fields[j].dflt == Some(path[0]) || DefaultOf(fields[j].layout, path[0]));
    assert DescribesOne(h, D, fields[j], params[j]);
    if fields[j].dflt == Some(path[0]) {
      var d: Tree :| DefaultAt(h, D, path[0], params[j].dflt.value, d);
      ReachedInside(h, d, path);
    } else {
      DefaultReached(h, D, fields[j].layout, params[j].ty, path);
    }
  }

  /** Whatever is done to a tree beside the defaults leaves them untouched, at every depth. */
  lemma {:induction false} DefaultsUntouched(before: Heap, after: Heap, D: set<nat>, fields: seq<Field>, params: seq<Param>, t: Tree, q: Tree)
    requires DescribesAll(before, D, fields, params) && Beside(before, D, t) && Evolved(before, after, t, q)
    ensures Untouched(before, after, fields, q)
    ensures DescribesAll(after, D, fields, params) && Beside(after, D, q)
  {
    BesideEvolved(before, after, D, t, q);
    forall path | FromDefault(before, fields, path)
      ensures LeftAlone(before, after, path[|path| - 1], q)
    {
      FieldReached(before, D, fields, params, path);
    }
    forall j | 0 <= j < |fields|
      ensures DescribesOne(after, D, fields[j], params[j])
    {
      FieldFrame(before, after, D, fields[j], params[j]);
    }
  }
}
