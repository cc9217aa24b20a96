/** What each pool region does to the instance list and to its holders. */
module RuntimePool {
  import opened Text
  import opened Pool
  import opened Admission
  import opened Runtime

  // ---- folds over the list ---------------------------------------------------------------

  ghost predicate SameNodes(a: seq<Instance>, b: seq<Instance>) {
    |a| == |b| && forall i :: 0 <= i < |a| ==> a[i].node == b[i].node
  }

  lemma {:induction false} CountKeySame(a: seq<Instance>, b: seq<Instance>, key: Key)
    requires SameNodes(a, b)
    ensures CountKey(a, key) == CountKey(b, key)
  {
    if a != [] {
      CountKeySame(a[..|a| - 1], b[..|b| - 1], key);
    }
  }

  lemma {:induction false} ToolsSame(a: seq<Instance>, b: seq<Instance>)
    requires SameNodes(a, b)
    ensures Tools(a) == Tools(b)
  {
    if a != [] {
      ToolsSame(a[..|a| - 1], b[..|b| - 1]);
    }
  }

  lemma {:induction false} CountKeyPush(p: Instance, list: seq<Instance>, key: Key)
    ensures CountKey([p] + list, key) == CountKey(list, key) + if p.node.key == key then 1 else 0
  {
    var all := [p] + list;
    if list == [] {
      assert all[..|all| - 1] == [];
    } else {
      CountKeyPush(p, list[..|list| - 1], key);
      assert all[..|all| - 1] == [p] + list[..|list| - 1];
    }
  }

  lemma {:induction false} ToolsPush(p: Instance, list: seq<Instance>)
    ensures Tools([p] + list) == Tools(list) + multiset{p.node.tool}
  {
    var all := [p] + list;
    if list == [] {
      assert all[..|all| - 1] == [];
    } else {
      ToolsPush(p, list[..|list| - 1]);
      assert all[..|all| - 1] == [p] + list[..|list| - 1];
    }
  }

  function Without(list: seq<Instance>, i: nat): seq<Instance>
    requires i < |list|
  {
    list[..i] + list[i + 1..]
  }

  lemma {:induction false} WithoutInit(list: seq<Instance>, i: nat)
    requires i < |list| - 1
    ensures var init := list[..|list| - 1];
            Without(list, i)[..|list| - 2] == Without(init, i) && Without(list, i)[|list| - 2] == list[|list| - 1]
  {
  }

  lemma {:induction false} CountKeyWithout(list: seq<Instance>, i: nat, key: Key)
    requires i < |list|
    ensures CountKey(Without(list, i), key) == CountKey(list, key) - if list[i].node.key == key then 1 else 0
  {
    if i == |list| - 1 {
      assert Without(list, i) == list[..|list| - 1];
    } else {
      WithoutInit(list, i);
      CountKeyWithout(list[..|list| - 1], i, key);
    }
  }

  lemma {:induction false} ToolsWithout(list: seq<Instance>, i: nat)
    requires i < |list|
    ensures Tools(list) == Tools(Without(list, i)) + multiset{list[i].node.tool}
  {
    if i == |list| - 1 {
      assert Without(list, i) == list[..|list| - 1];
    } else {
      WithoutInit(list, i);
      ToolsWithout(list[..|list| - 1], i);
    }
  }

  /** A key with a positive count has an instance. */
  lemma {:induction false} CountKeyZero(list: seq<Instance>, key: Key)
    requires forall i :: 0 <= i < |list| ==> list[i].node.key != key
    ensures CountKey(list, key) == 0
  {
    if list != [] {
      CountKeyZero(list[..|list| - 1], key);
    }
  }

  // ---- holders of instances ----------------------------------------------------------------

  /** G is H with d more holders of h. */
  ghost predicate Shift(H: multiset<Resource>, G: multiset<Resource>, h: Handle, d: int) {
    forall k :: G[Node(k)] == H[Node(k)] + if k == h then d else 0
  }

  lemma {:induction false} ListUpdate(list: seq<Instance>, i: nat, busy: int, nextNode: nat, freed: set<nat>,
                   H: multiset<Resource>, G: multiset<Resource>)
    requires ListOk(list, nextNode, freed, H) && i < |list|
    requires Shift(H, G, list[i].node, busy - list[i].busy)
    requires list[i].node.key.kind == Process ==> busy <= 1
    ensures ListOk(list[i := list[i].(busy := busy)], nextNode, freed, G)
    ensures SameNodes(list, list[i := list[i].(busy := busy)])
  {
    var after := list[i := list[i].(busy := busy)];
    assert SameNodes(list, after);
    assert forall k :: 0 <= k < |list| && k != i ==> list[k].node != list[i].node;
    forall h | Node(h) in G
      ensures Linked(after, h)
    {
      if h == list[i].node {
        assert after[i].node == h;
      } else {
        assert Node(h) in H;
        var k :| 0 <= k < |list| && list[k].node == h;
        assert after[k].node == h;
      }
    }
  }

  /** The instance found by identity is the one a holder holds. */
  lemma {:induction false} FindHeld(list: seq<Instance>, h: Handle, nextNode: nat, freed: set<nat>, H: multiset<Resource>)
    requires ListOk(list, nextNode, freed, H) && Node(h) in H
    ensures Find(list, h.id).Some? && list[Find(list, h.id).value].node == h
    ensures list[Find(list, h.id).value].busy == H[Node(h)]
  {
  }

  lemma {:induction false} ListPush(list: seq<Instance>, key: Key, t: Tool, nextNode: nat, freed: set<nat>,
                 H: multiset<Resource>, G: multiset<Resource>)
    requires ListOk(list, nextNode, freed, H) && Shift(H, G, Handle(nextNode, key, t), 1)
    requires key == KeyOf(key.kind, t) && forall id :: id in freed ==> id < nextNode
    ensures ListOk([Instance(Handle(nextNode, key, t), 1)] + list, nextNode + 1, freed, G)
  {
    var h := Handle(nextNode, key, t);
    var after := [Instance(h, 1)] + list;
    assert Node(h) !in H;
    forall k | Node(k) in G
      ensures Linked(after, k)
    {
      if k == h {
        assert after[0].node == k;
      } else {
        assert Node(k) in H;
        var i :| 0 <= i < |list| && list[i].node == k;
        assert after[i + 1].node == k;
      }
    }
  }

  lemma {:induction false} WithoutAt(list: seq<Instance>, i: nat)
    requires i < |list|
    ensures |Without(list, i)| == |list| - 1
    ensures forall k :: 0 <= k < |list| - 1 ==> Without(list, i)[k] == list[if k < i then k else k + 1]
  {
  }

  lemma {:induction false} StillLinked(list: seq<Instance>, i: nat, h: Handle)
    requires i < |list| && Linked(list, h) && list[i].node != h
    ensures Linked(Without(list, i), h)
  {
    WithoutAt(list, i);
    hide Without;
    var k :| 0 <= k < |list| && list[k].node == h;
    assert Without(list, i)[if k < i then k else k - 1].node == h;
  }

  lemma {:induction false} InstanceKept(p: Instance, nextNode: nat, freed: set<nat>, H: multiset<Resource>, G: multiset<Resource>, h: Handle, d: int)
    requires InstanceOk(p, nextNode, freed, H) && Shift(H, G, h, d) && p.node != h
    ensures InstanceOk(p, nextNode, freed, G)
  {
  }

  lemma {:induction false} ListRemove(list: seq<Instance>, i: nat, nextNode: nat, freed: set<nat>, H: multiset<Resource>, G: multiset<Resource>)
    requires ListOk(list, nextNode, freed, H) && i < |list| && list[i].busy == 1
    requires Shift(H, G, list[i].node, -1)
    ensures ListOk(Without(list, i), nextNode, freed, G)
    ensures Find(Without(list, i), list[i].node.id).None?
  {
    var after, gone := Without(list, i), list[i].node;
    assert H[Node(gone)] == 1;
    WithoutAt(list, i);
    hide Without, Find, Linked, InstanceOk;
    forall k | 0 <= k < |after|
      ensures InstanceOk(after[k], nextNode, freed, G) && after[k].node.id != gone.id
    {
      var was := list[if k < i then k else k + 1];
      assert after[k] == was && was.node.id != gone.id;
      InstanceKept(was, nextNode, freed, H, G, gone, -1);
    }
    forall h | Node(h) in G
      ensures Linked(after, h)
    {
      assert h != gone && Node(h) in H;
      StillLinked(list, i, h);
    }
  }

  // ---- the bounds ------------------------------------------------------------------------

  lemma {:induction false} BoundedSame(cfg: Config, a: seq<Instance>, b: seq<Instance>)
    requires Bounded(cfg, a) && SameNodes(a, b)
    ensures Bounded(cfg, b)
  {
    forall key
      ensures CountKey(b, key) <= cfg.Cap(key)
    {
      CountKeySame(a, b, key);
    }
  }

  lemma {:induction false} BoundedPush(cfg: Config, list: seq<Instance>, p: Instance)
    requires Bounded(cfg, list) && |list| < INSTANCE_LIMIT && CountKey(list, p.node.key) < cfg.Cap(p.node.key)
    ensures Bounded(cfg, [p] + list)
  {
    forall key
      ensures CountKey([p] + list, key) <= cfg.Cap(key)
    {
      CountKeyPush(p, list, key);
    }
  }

  lemma {:induction false} BoundedRemove(cfg: Config, list: seq<Instance>, i: nat)
    requires Bounded(cfg, list) && i < |list|
    ensures Bounded(cfg, Without(list, i))
  {
    forall key
      ensures CountKey(Without(list, i), key) <= cfg.Cap(key)
    {
      CountKeyWithout(list, i, key);
    }
  }

  /** With nothing takeable a library key has no instance at all, so its single
      place is free whatever the manifest's limit is. */
  lemma {:induction false} RoomForOne(cfg: Config, list: seq<Instance>, kind: Kind, t: Tool)
    requires LastTakeable(list, KeyOf(kind, t)).None?
    requires CountKey(list, KeyOf(kind, t)) < cfg.Limit(t.content)
    ensures CountKey(list, KeyOf(kind, t)) < cfg.Cap(KeyOf(kind, t))
  {
    if kind == Library {
      CountKeyZero(list, KeyOf(kind, t));
    }
  }

  // ---- pinning for the reaper ----------------------------------------------------------------

  lemma {:induction false} NodesSnoc(hs: seq<Handle>, h: Handle)
    ensures Nodes(hs + [h]) == Nodes(hs) + multiset{Node(h)}
  {
    if hs != [] {
      NodesSnoc(hs[1..], h);
      assert (hs + [h])[1..] == hs[1..] + [h];
    } else {
      assert ([h])[1..] == [];
    }
  }

  lemma {:induction false} NodesOnly(hs: seq<Handle>)
    ensures forall r :: r in Nodes(hs) ==> r.Node?
  {
    if hs != [] {
      NodesOnly(hs[1..]);
    }
  }

  lemma {:induction false} ShiftOne(H: multiset<Resource>, hs: seq<Handle>, h: Handle)
    ensures Shift(H + Nodes(hs), H + Nodes(hs + [h]), h, 1)
  {
    NodesSnoc(hs, h);
  }

  lemma {:induction false} PinOneKeeps(list: seq<Instance>, i: nat, nodes: seq<Handle>, nextNode: nat, freed: set<nat>, H: multiset<Resource>)
    requires ListOk(list, nextNode, freed, H + Nodes(nodes)) && i < |list| && IdleProcess(list[i])
    ensures ListOk(list[i := list[i].(busy := 1)], nextNode, freed, H + Nodes(nodes + [list[i].node]))
  {
    ShiftOne(H, nodes, list[i].node);
    ListUpdate(list, i, 1, nextNode, freed, H + Nodes(nodes), H + Nodes(nodes + [list[i].node]));
  }

  /** The list after the scan has passed i instances. */
  ghost function Scanned(list: seq<Instance>, i: nat, room: nat): seq<Instance>
    requires i <= |list|
  {
    PinIdle(list[..i], room).0 + list[i..]
  }

  lemma {:induction false} ScannedStep(list: seq<Instance>, i: nat, room: nat)
    requires i < |list|
    ensures var nodes, p := PinIdle(list[..i], room).1, list[i];
            var taken := IdleProcess(p) && |nodes| < room;
            && Scanned(list, i, room)[i] == p
            && Scanned(list, i + 1, room) == (if taken then Scanned(list, i, room)[i := p.(busy := 1)] else Scanned(list, i, room))
            && PinIdle(list[..i + 1], room).1 == (if taken then nodes + [p.node] else nodes)
  {
    PinIdleStep(list, i, room);
  }

  lemma {:induction false} PinKeeps(list: seq<Instance>, i: nat, room: nat, nextNode: nat, freed: set<nat>, H: multiset<Resource>)
    requires ListOk(list, nextNode, freed, H) && i <= |list|
    ensures ListOk(Scanned(list, i, room), nextNode, freed, H + Nodes(PinIdle(list[..i], room).1))
  {
    if i == 0 {
      assert Scanned(list, 0, room) == list;
      assert H + Nodes([]) == H;
    } else {
      PinKeeps(list, i - 1, room, nextNode, freed, H);
      ScannedStep(list, i - 1, room);
      var nodes, p := PinIdle(list[..i - 1], room).1, list[i - 1];
      if IdleProcess(p) && |nodes| < room {
        PinOneKeeps(Scanned(list, i - 1, room), i - 1, nodes, nextNode, freed, H);
      }
    }
  }

  lemma {:induction false} PinSameNodes(list: seq<Instance>, room: nat)
    ensures SameNodes(list, PinIdle(list, room).0) && AllProcess(PinIdle(list, room).1)
  {
    if list != [] {
      PinSameNodes(list[..|list| - 1], room);
    }
  }

  /** With a slot for every instance the scan pins exactly the idle processes. */
  lemma {:induction false} PinsExactlyIdle(list: seq<Instance>, room: nat)
    requires |list| <= room
    ensures var (after, nodes) := PinIdle(list, room);
            && (forall i :: 0 <= i < |list| ==> after[i] == if IdleProcess(list[i]) then list[i].(busy := 1) else list[i])
            && (forall h :: h in nodes <==> exists i :: 0 <= i < |list| && IdleProcess(list[i]) && list[i].node == h)
            && |nodes| <= |list|
  {
    if list != [] {
      var init, p := list[..|list| - 1], list[|list| - 1];
      PinsExactlyIdle(init, room);
      forall h
        ensures h in PinIdle(list, room).1 <==> exists i :: 0 <= i < |list| && IdleProcess(list[i]) && list[i].node == h
      {
        if i :| 0 <= i < |list| && IdleProcess(list[i]) && list[i].node == h {
          if i < |init| {
            assert init[i].node == h;
          }
        }
        if i :| 0 <= i < |init| && IdleProcess(init[i]) && init[i].node == h {
          assert list[i].node == h;
        }
        if IdleProcess(p) && p.node == h {
          assert list[|init|].node == h;
        }
      }
    }
  }
}
