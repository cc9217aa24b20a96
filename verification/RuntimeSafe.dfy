/** Every step of the runtime keeps the invariant, whatever the other threads hold. */
module RuntimeSafe {
  import opened Text
  import opened Pool
  import opened Admission
  import opened Runtime
  import opened RuntimePool

  // ---- references -----------------------------------------------------------------------

  ghost predicate AgreeGate(H: multiset<Resource>, G: multiset<Resource>) {
    H[Slot] == G[Slot] && H[SlotWait] == G[SlotWait]
  }

  ghost predicate AgreePool(H: multiset<Resource>, G: multiset<Resource>) {
    && H[PoolWait] == G[PoolWait]
    && (forall h :: H[Node(h)] == G[Node(h)]) && (forall h :: H[Owned(h)] == G[Owned(h)])
  }

  ghost predicate AgreeRefs(H: multiset<Resource>, G: multiset<Resource>) {
    (forall t :: H[Pin(t)] == G[Pin(t)]) && (forall t :: H[Fresh(t)] == G[Fresh(t)])
  }

  lemma {:induction false} SamePool(cfg: Config, w: World, v: World, H: multiset<Resource>, G: multiset<Resource>)
    requires PoolOk(cfg, w, H) && AgreePool(H, G)
    requires v.pool == w.pool && v.nextNode == w.nextNode && v.freed == w.freed
    ensures PoolOk(cfg, v, G)
  {
  }

  lemma {:induction false} SameRefs(w: World, v: World, H: multiset<Resource>, G: multiset<Resource>)
    requires RefsOk(w.refs, w.created, w.nextTool, Shared(w), H) && AgreeRefs(H, G)
    requires v.refs == w.refs && v.created == w.created && v.nextTool == w.nextTool && Shared(v) == Shared(w)
    ensures RefsOk(v.refs, v.created, v.nextTool, Shared(v), G)
  {
  }

  lemma {:induction false} RefsAdd(r: References, created: set<Tool>, n: nat, S: multiset<Tool>, H: multiset<Resource>,
                T: multiset<Tool>, G: multiset<Resource>, t: Tool)
    requires RefsOk(r, created, n, S, H) && S[t] + H[Pin(t)] >= 1
    requires forall u :: T[u] + G[Pin(u)] == S[u] + H[Pin(u)] + if u == t then 1 else 0
    requires forall u :: G[Fresh(u)] == H[Fresh(u)]
    ensures RefsOk(Ref(r, t), created, n, T, G)
  {
    assert forall u :: Fresh(u) in G ==> Fresh(u) in H;
  }

  lemma {:induction false} RefsDrop(r: References, created: set<Tool>, n: nat, S: multiset<Tool>, H: multiset<Resource>,
                 T: multiset<Tool>, G: multiset<Resource>, t: Tool)
    requires RefsOk(r, created, n, S, H) && S[t] + H[Pin(t)] >= 1
    requires forall u :: T[u] + G[Pin(u)] == S[u] + H[Pin(u)] - if u == t then 1 else 0
    requires forall u :: G[Fresh(u)] == H[Fresh(u)]
    ensures RefsOk(Unref(r, t), created, n, T, G)
  {
    assert forall u :: Fresh(u) in G ==> Fresh(u) in H;
  }

  /** Holders may change hands as long as every descriptor keeps their number. */
  lemma {:induction false} RefsMove(r: References, created: set<Tool>, n: nat, S: multiset<Tool>, H: multiset<Resource>,
                 T: multiset<Tool>, G: multiset<Resource>)
    requires RefsOk(r, created, n, S, H)
    requires forall u :: T[u] + G[Pin(u)] + G[Fresh(u)] == S[u] + H[Pin(u)] + H[Fresh(u)]
    requires forall u :: G[Fresh(u)] <= H[Fresh(u)]
    ensures RefsOk(r, created, n, T, G)
  {
  }

  /** A step that leaves the gate and the pool alone. */
  lemma {:induction false} TablesKeep(cfg: Config, w: World, v: World, H: multiset<Resource>, G: multiset<Resource>)
    requires Inv(cfg, w, H) && AgreeGate(H, G) && AgreePool(H, G)
    requires v.gate == w.gate && v.pool == w.pool && v.nextNode == w.nextNode && v.freed == w.freed && v.fault == w.fault
    requires RefsOk(v.refs, v.created, v.nextTool, Shared(v), G)
    ensures Inv(cfg, v, G)
  {
  }

  ghost predicate OneMore(H: multiset<Resource>, G: multiset<Resource>, t: Tool) {
    && (forall u :: G[Pin(u)] == H[Pin(u)] + if u == t then 1 else 0)
    && (forall u :: G[Fresh(u)] == H[Fresh(u)])
  }

  lemma {:induction false} AddPin(H: multiset<Resource>, t: Tool)
    ensures AgreeGate(H, H + multiset{Pin(t)}) && AgreePool(H, H + multiset{Pin(t)})
    ensures AgreeGate(H + multiset{Pin(t)}, H) && AgreePool(H + multiset{Pin(t)}, H)
    ensures OneMore(H, H + multiset{Pin(t)}, t)
  {
  }

  lemma {:induction false} AcquireRefs(r: References, created: set<Tool>, n: nat, S: multiset<Tool>, H: multiset<Resource>, G: multiset<Resource>, t: Tool)
    requires RefsOk(r, created, n, S, H) && S[t] + H[Pin(t)] >= 1 && OneMore(H, G, t)
    ensures RefsOk(Ref(r, t), created, n, S, G)
  {
    RefsAdd(r, created, n, S, H, S, G, t);
  }

  lemma {:induction false} DropRefs(r: References, created: set<Tool>, n: nat, S: multiset<Tool>, H: multiset<Resource>, G: multiset<Resource>, t: Tool)
    requires RefsOk(r, created, n, S, G) && OneMore(H, G, t)
    ensures RefsOk(Unref(r, t), created, n, S, H)
  {
    RefsDrop(r, created, n, S, G, S, H, t);
  }

  lemma {:induction false} AcquireKeeps(cfg: Config, w: World, t: Tool, H: multiset<Resource>)
    requires Inv(cfg, w, H) && Shared(w)[t] + H[Pin(t)] >= 1
    ensures Inv(cfg, Acquired(w, t), H + multiset{Pin(t)})
  {
    AddPin(H, t);
    AcquireRefs(w.refs, w.created, w.nextTool, Shared(w), H, H + multiset{Pin(t)}, t);
    TablesKeep(cfg, w, Acquired(w, t), H, H + multiset{Pin(t)});
  }

  lemma {:induction false} DropKeeps(cfg: Config, w: World, t: Tool, H: multiset<Resource>)
    requires Inv(cfg, w, H + multiset{Pin(t)})
    ensures Inv(cfg, Dropped(w, t), H)
  {
    AddPin(H, t);
    DropRefs(w.refs, w.created, w.nextTool, Shared(w), H, H + multiset{Pin(t)}, t);
    TablesKeep(cfg, w, Dropped(w, t), H + multiset{Pin(t)}, H);
  }

  // ---- the slot gate ----------------------------------------------------------------------

  /** A step that touches only the gate. */
  lemma {:induction false} GateKeeps(cfg: Config, w: World, gate: Gate, H: multiset<Resource>, G: multiset<Resource>)
    requires Inv(cfg, w, H) && GateOk(cfg, gate, G) && AgreePool(H, G) && AgreeRefs(H, G)
    ensures Inv(cfg, w.(gate := gate), G)
  {
    SamePool(cfg, w, w.(gate := gate), H, G);
    SameRefs(w, w.(gate := gate), H, G);
  }

  lemma {:induction false} AdmitKeeps(cfg: Config, w: World, cancelled: bool, late: bool, waiting: bool, H: multiset<Resource>)
    requires Inv(cfg, w, H + If(waiting, SlotWait))
    ensures var (r, gate) := Admit(w.gate, cfg.Slots(), cancelled, late, cfg.noThreads, waiting);
            Inv(cfg, w.(gate := gate), H + If(r == Entered, Slot) + If(r == Queued, SlotWait))
  {
    var (r, gate) := Admit(w.gate, cfg.Slots(), cancelled, late, cfg.noThreads, waiting);
    GateHolds(H, waiting, r == Entered, r == Queued);
    hide AgreePool, AgreeRefs, PoolOk, RefsOk, If;
    GateKeeps(cfg, w, gate, H + If(waiting, SlotWait), H + If(r == Entered, Slot) + If(r == Queued, SlotWait));
  }

  /** Slots and waits in a holding are no business of the pool or the counters. */
  lemma {:induction false} GateHolds(H: multiset<Resource>, waiting: bool, entered: bool, queued: bool)
    ensures var F, G := H + If(waiting, SlotWait), H + If(entered, Slot) + If(queued, SlotWait);
            && AgreePool(F, G) && AgreeRefs(F, G)
            && F[Slot] == H[Slot] && F[SlotWait] == H[SlotWait] + (if waiting then 1 else 0)
            && G[Slot] == H[Slot] + (if entered then 1 else 0) && G[SlotWait] == H[SlotWait] + if queued then 1 else 0
  {
  }

  lemma {:induction false} LeaveKeeps(cfg: Config, w: World, H: multiset<Resource>)
    requires Inv(cfg, w, H + multiset{Slot})
    ensures Inv(cfg, w.(gate := Leave(w.gate)), H)
  {
    GateKeeps(cfg, w, Leave(w.gate), H + multiset{Slot}, H);
  }

  // ---- the pool -----------------------------------------------------------------------------

  ghost predicate AgreeOwned(H: multiset<Resource>, G: multiset<Resource>) {
    forall h :: H[Owned(h)] == G[Owned(h)]
  }

  lemma {:induction false} OwnedSame(a: seq<Instance>, b: seq<Instance>, n: nat, m: nat, freed: set<nat>, H: multiset<Resource>, G: multiset<Resource>)
    requires OwnedOk(a, n, freed, H) && AgreeOwned(H, G) && n <= m
    requires forall i :: 0 <= i < |b| ==> b[i].node.id >= n || Find(a, b[i].node.id).Some?
    ensures OwnedOk(b, m, freed, G)
  {
  }

  lemma {:induction false} SameIds(a: seq<Instance>, b: seq<Instance>)
    requires SameNodes(a, b)
    ensures forall i :: 0 <= i < |b| ==> Find(a, b[i].node.id).Some?
  {
  }

  /** A step that changes busy counts only. */
  lemma {:induction false} BusyKeeps(cfg: Config, w: World, pool: State, H: multiset<Resource>, G: multiset<Resource>)
    requires Inv(cfg, w, H) && AgreeGate(H, G) && AgreeRefs(H, G) && AgreeOwned(H, G)
    requires SameNodes(w.pool.list, pool.list) && ListOk(pool.list, w.nextNode, w.freed, G)
    requires pool.count == w.pool.count && pool.waiters == G[PoolWait]
    ensures Inv(cfg, w.(pool := pool), G)
  {
    var v := w.(pool := pool);
    assert PoolOk(cfg, v, G) by {
      BoundedSame(cfg, w.pool.list, pool.list);
      SameIds(w.pool.list, pool.list);
      OwnedSame(w.pool.list, pool.list, w.nextNode, w.nextNode, w.freed, H, G);
    }
    assert RefsOk(v.refs, v.created, v.nextTool, Shared(v), G) by {
      ToolsSame(w.pool.list, pool.list);
      SameRefs(w, v, H, G);
    }
  }

  lemma {:induction false} AddNode(H: multiset<Resource>, h: Handle)
    ensures var G := H + multiset{Node(h)};
            && AgreeGate(H, G) && AgreeRefs(H, G) && AgreeOwned(H, G) && H[PoolWait] == G[PoolWait] && Shift(H, G, h, 1)
            && AgreeGate(G, H) && AgreeRefs(G, H) && AgreeOwned(G, H) && Shift(G, H, h, -1)
  {
  }

  /** Releasing: the holder gives its busy count back. */
  lemma {:induction false} ReturnKeeps(cfg: Config, w: World, h: Handle, H: multiset<Resource>)
    requires Inv(cfg, w, H + multiset{Node(h)})
    ensures Inv(cfg, Returned(w, h), H) && h.tool in w.refs.counts
  {
    var G := H + multiset{Node(h)};
    AddNode(H, h);
    assert Node(h) in G;
    hide Returned, Inv;
    var i := ReturnedAt(cfg, w, h, G);
    PooledAlive(cfg, w, i, G);
    BusyLess(cfg, w, i, G, H);
  }

  lemma {:induction false} ReturnedAt(cfg: Config, w: World, h: Handle, G: multiset<Resource>) returns (i: nat)
    requires Inv(cfg, w, G) && Node(h) in G
    ensures i < |w.pool.list| && w.pool.list[i].node == h && w.pool.list[i].busy > 0
    ensures Returned(w, h) == w.(pool := w.pool.(list := w.pool.list[i := w.pool.list[i].(busy := w.pool.list[i].busy - 1)]))
  {
    FindHeld(w.pool.list, h, w.nextNode, w.freed, G);
    hide ListOk, OwnedOk, Bounded, RefsOk, GateOk, Shared;
    i := Find(w.pool.list, h.id).value;
  }

  /** One busy count less, for one holder less. */
  lemma {:induction false} BusyLess(cfg: Config, w: World, i: nat, G: multiset<Resource>, H: multiset<Resource>)
    requires Inv(cfg, w, G) && i < |w.pool.list| && AgreeGate(G, H) && AgreeRefs(G, H) && AgreeOwned(G, H)
    requires G[PoolWait] == H[PoolWait] && Shift(G, H, w.pool.list[i].node, -1)
    ensures Inv(cfg, w.(pool := w.pool.(list := w.pool.list[i := w.pool.list[i].(busy := w.pool.list[i].busy - 1)])), H)
  {
    var list := w.pool.list;
    AtMostOne(list, i, w.nextNode, w.freed, G);
    hide ListOk, OwnedOk, Bounded, RefsOk, GateOk, Shared, Tools;
    ListUpdate(list, i, list[i].busy - 1, w.nextNode, w.freed, G, H);
    BusyKeeps(cfg, w, w.pool.(list := list[i := list[i].(busy := list[i].busy - 1)]), G, H);
  }

  lemma {:induction false} AtMostOne(list: seq<Instance>, i: nat, n: nat, freed: set<nat>, H: multiset<Resource>)
    requires ListOk(list, n, freed, H) && i < |list|
    ensures list[i].node.key.kind == Process ==> list[i].busy <= 1
  {
    assert InstanceOk(list[i], n, freed, H);
  }

  /** The descriptor of a pooled instance is alive. */
  lemma {:induction false} PooledAlive(cfg: Config, w: World, i: nat, H: multiset<Resource>)
    requires Inv(cfg, w, H) && i < |w.pool.list|
    ensures w.pool.list[i].node.tool in w.refs.counts
  {
    hide ListOk, OwnedOk, Bounded, GateOk, Tools;
    ToolsHas(w.pool.list, i);
  }

  lemma {:induction false} ToolsHas(list: seq<Instance>, i: nat)
    requires i < |list|
    ensures Tools(list)[list[i].node.tool] >= 1
  {
    if i < |list| - 1 {
      ToolsHas(list[..|list| - 1], i);
    }
  }

  /** The reaper's pin is the only hold on a process, so clearing busy releases exactly it. */
  lemma {:induction false} UnpinKeeps(cfg: Config, w: World, h: Handle, H: multiset<Resource>)
    requires Inv(cfg, w, H + multiset{Node(h)}) && h.key.kind == Process
    ensures Inv(cfg, Unpinned(w, h), H)
  {
    var list := w.pool.list;
    var G := H + multiset{Node(h)};
    AddNode(H, h);
    FindHeld(list, h, w.nextNode, w.freed, G);
    ListUpdate(list, Find(list, h.id).value, 0, w.nextNode, w.freed, G, H);
    BusyKeeps(cfg, w, Unpin(w.pool, h.id), G, H);
  }

  lemma {:induction false} NodesAgree(H: multiset<Resource>, hs: seq<Handle>)
    ensures var G := H + Nodes(hs);
            AgreeGate(H, G) && AgreeRefs(H, G) && AgreeOwned(H, G) && H[PoolWait] == G[PoolWait]
  {
    NodesOnly(hs);
  }

  lemma {:induction false} SweepKeeps(cfg: Config, w: World, H: multiset<Resource>)
    requires Inv(cfg, w, H)
    ensures Inv(cfg, w.(pool := PinAll(w.pool).0), H + Nodes(PinAll(w.pool).1)) && AllProcess(PinAll(w.pool).1)
  {
    var list := w.pool.list;
    NodesAgree(H, PinAll(w.pool).1);
    PinSameNodes(list, INSTANCE_LIMIT);
    assert ListOk(PinAll(w.pool).0.list, w.nextNode, w.freed, H + Nodes(PinAll(w.pool).1)) by {
      PinKeeps(list, |list|, INSTANCE_LIMIT, w.nextNode, w.freed, H);
      assert list[..|list|] == list && Scanned(list, |list|, INSTANCE_LIMIT) == PinIdle(list, INSTANCE_LIMIT).0;
    }
    BusyKeeps(cfg, w, PinAll(w.pool).0, H, H + Nodes(PinAll(w.pool).1));
  }

  lemma {:induction false} WaitAgree(H: multiset<Resource>, before: bool, after: bool)
    ensures var F, G := H + If(before, PoolWait), H + If(after, PoolWait);
            && AgreeGate(F, G) && AgreeRefs(F, G) && AgreeOwned(F, G) && (forall h :: F[Node(h)] == G[Node(h)])
            && G[PoolWait] == Waiters(F[PoolWait], before, after)
  {
  }

  lemma {:induction false} ListSame(list: seq<Instance>, n: nat, freed: set<nat>, H: multiset<Resource>, G: multiset<Resource>)
    requires ListOk(list, n, freed, H) && forall h :: H[Node(h)] == G[Node(h)]
    ensures ListOk(list, n, freed, G)
  {
  }

  function Waited(w: World, before: bool, after: bool): World {
    w.(pool := w.pool.(waiters := Waiters(w.pool.waiters, before, after)))
  }

  /** Only the waiter counter moves. */
  lemma {:induction false} WaitersKeep(cfg: Config, w: World, before: bool, after: bool, H: multiset<Resource>)
    requires Inv(cfg, w, H + If(before, PoolWait))
    ensures Inv(cfg, Waited(w, before, after), H + If(after, PoolWait))
  {
    var F, G := H + If(before, PoolWait), H + If(after, PoolWait);
    WaitAgree(H, before, after);
    ListSame(w.pool.list, w.nextNode, w.freed, F, G);
    BusyKeeps(cfg, w, Waited(w, before, after).pool, F, G);
  }

  function Taken(w: World, i: nat): World
    requires i < |w.pool.list|
  {
    w.(pool := w.pool.(list := w.pool.list[i := w.pool.list[i].(busy := w.pool.list[i].busy + 1)]))
  }

  lemma {:induction false} TakeList(list: seq<Instance>, i: nat, n: nat, freed: set<nat>, H: multiset<Resource>)
    requires ListOk(list, n, freed, H) && i < |list| && (list[i].node.key.kind == Process ==> list[i].busy == 0)
    ensures ListOk(list[i := list[i].(busy := list[i].busy + 1)], n, freed, H + multiset{Node(list[i].node)})
    ensures SameNodes(list, list[i := list[i].(busy := list[i].busy + 1)])
  {
    AddNode(H, list[i].node);
    ListUpdate(list, i, list[i].busy + 1, n, freed, H, H + multiset{Node(list[i].node)});
  }

  lemma {:induction false} TakeKeeps(cfg: Config, w: World, i: nat, H: multiset<Resource>)
    requires Inv(cfg, w, H) && i < |w.pool.list|
    requires w.pool.list[i].node.key.kind == Process ==> w.pool.list[i].busy == 0
    ensures Inv(cfg, Taken(w, i), H + multiset{Node(w.pool.list[i].node)})
  {
    hide AgreeRefs, AgreeGate, Shared, Find;
    AddNode(H, w.pool.list[i].node);
    TakeList(w.pool.list, i, w.nextNode, w.freed, H);
    BusyKeeps(cfg, w, Taken(w, i).pool, H, H + multiset{Node(w.pool.list[i].node)});
  }

  /** The instance a grant creates, with the reference it takes on its descriptor. */
  function Created(w: World, kind: Kind, t: Tool): World {
    var node := Handle(w.nextNode, KeyOf(kind, t), t);
    Acquired(w, t).(pool := w.pool.(list := [Instance(node, 1)] + w.pool.list, count := w.pool.count + 1),
                    nextNode := w.nextNode + 1)
  }

  lemma {:induction false} CreatePool(cfg: Config, w: World, kind: Kind, t: Tool, H: multiset<Resource>)
    requires PoolOk(cfg, w, H) && |w.pool.list| < INSTANCE_LIMIT
    requires CountKey(w.pool.list, KeyOf(kind, t)) < cfg.Cap(KeyOf(kind, t))
    ensures PoolOk(cfg, Created(w, kind, t), H + multiset{Node(Handle(w.nextNode, KeyOf(kind, t), t))})
  {
    var node := Handle(w.nextNode, KeyOf(kind, t), t);
    var G := H + multiset{Node(node)};
    var list := [Instance(node, 1)] + w.pool.list;
    hide CountKey, Find, AgreeRefs, AgreeGate;
    AddNode(H, node);
    ListPush(w.pool.list, node.key, t, w.nextNode, w.freed, H, G);
    BoundedPush(cfg, w.pool.list, Instance(node, 1));
    forall i | 0 <= i < |list|
      ensures list[i].node.id >= w.nextNode || Find(w.pool.list, list[i].node.id).Some?
    {
      if i > 0 {
        assert list[i] == w.pool.list[i - 1];
      }
    }
    OwnedSame(w.pool.list, list, w.nextNode, w.nextNode + 1, w.freed, H, G);
  }

  lemma {:induction false} CreateRefs(w: World, kind: Kind, t: Tool, H: multiset<Resource>, G: multiset<Resource>)
    requires RefsOk(w.refs, w.created, w.nextTool, Shared(w), H) && Shared(w)[t] + H[Pin(t)] >= 1 && AgreeRefs(H, G)
    ensures var v := Created(w, kind, t); RefsOk(v.refs, v.created, v.nextTool, Shared(v), G)
  {
    var v := Created(w, kind, t);
    ToolsPush(v.pool.list[0], w.pool.list);
    RefsAdd(w.refs, w.created, w.nextTool, Shared(w), H, Shared(v), G, t);
  }

  lemma {:induction false} CreateKeeps(cfg: Config, w: World, kind: Kind, t: Tool, H: multiset<Resource>)
    requires Inv(cfg, w, H) && Shared(w)[t] + H[Pin(t)] >= 1
    requires |w.pool.list| < INSTANCE_LIMIT && CountKey(w.pool.list, KeyOf(kind, t)) < cfg.Cap(KeyOf(kind, t))
    ensures Inv(cfg, Created(w, kind, t), H + multiset{Node(Handle(w.nextNode, KeyOf(kind, t), t))})
  {
    var node := Handle(w.nextNode, KeyOf(kind, t), t);
    AddNode(H, node);
    CreatePool(cfg, w, kind, t, H);
    CreateRefs(w, kind, t, H, H + multiset{Node(node)});
  }

  /** The three ways a turn changes the world. */
  lemma {:induction false} TurnEffect(cfg: Config, w: World, t: Tool, kind: Kind, waiting: bool, cancelled: bool, late: bool, memory: bool)
    ensures var (r, v) := PoolTurn(cfg, w, t, kind, waiting, cancelled, late, memory);
            var u, key, list := Waited(w, waiting, r == MustWait), KeyOf(kind, t), w.pool.list;
            && (!r.Granted? ==> v == u)
            && (r.Granted? && !r.created ==>
                  LastTakeable(list, key).Some? && r.node == list[LastTakeable(list, key).value].node
                  && v == Taken(u, LastTakeable(list, key).value))
            && (r.Granted? && r.created ==>
                  LastTakeable(list, key).None? && r.node == Handle(w.nextNode, key, t) && v == Created(u, kind, t)
                  && |list| < INSTANCE_LIMIT && CountKey(list, key) < cfg.Limit(t.content))
  {
  }

  /** One turn of acquiring: a grant adds exactly one hold on an instance of the
      wanted key, a wait leaves the thread counted, and anything else holds nothing. */
  lemma {:induction false} TurnKeeps(cfg: Config, w: World, t: Tool, kind: Kind, waiting: bool, cancelled: bool, late: bool, memory: bool,
                  H: multiset<Resource>)
    requires Inv(cfg, w, H + If(waiting, PoolWait)) && H[Pin(t)] >= 1
    ensures var (r, v) := PoolTurn(cfg, w, t, kind, waiting, cancelled, late, memory);
            && (r.Granted? ==> Inv(cfg, v, H + multiset{Node(r.node)}) && r.node.key == KeyOf(kind, t))
            && (!r.Granted? ==> Inv(cfg, v, H + If(r == MustWait, PoolWait)))
  {
    var (r, v) := PoolTurn(cfg, w, t, kind, waiting, cancelled, late, memory);
    TurnEffect(cfg, w, t, kind, waiting, cancelled, late, memory);
    WaitersKeep(cfg, w, waiting, r == MustWait, H);
    if r.Granted? {
      var u := Waited(w, waiting, false);
      assert H + If(false, PoolWait) == H;
      if r.created {
        RoomForOne(cfg, w.pool.list, kind, t);
        CreateKeeps(cfg, u, kind, t, H);
      } else {
        TakeKeeps(cfg, u, LastTakeable(w.pool.list, KeyOf(kind, t)).value, H);
      }
    }
  }

  // ---- unlinking and freeing --------------------------------------------------------------------

  /** From a pin on a linked process to the ownership of an unlinked one. */
  ghost predicate Unlinking(F: multiset<Resource>, G: multiset<Resource>, h: Handle) {
    && AgreeGate(F, G) && F[PoolWait] == G[PoolWait] && Shift(F, G, h, -1) && OneMore(F, G, h.tool)
    && forall k :: G[Owned(k)] == F[Owned(k)] + if k == h then 1 else 0
  }

  lemma {:induction false} UnlinkingHolds(H: multiset<Resource>, h: Handle)
    ensures Unlinking(H + multiset{Node(h)}, H + multiset{Owned(h), Pin(h.tool)}, h)
  {
  }

  lemma {:induction false} FoundBefore(list: seq<Instance>, i: nat, id: nat)
    requires i < |list| && Find(list, id).None?
    ensures Find(Without(list, i), id).None?
  {
    WithoutAt(list, i);
    hide Without;
  }

  lemma {:induction false} UnlinkOwned(list: seq<Instance>, i: nat, n: nat, freed: set<nat>, F: multiset<Resource>, G: multiset<Resource>)
    requires i < |list| && ListOk(list, n, freed, F) && OwnedOk(list, n, freed, F) && Unlinking(F, G, list[i].node)
    requires Find(Without(list, i), list[i].node.id).None?
    ensures OwnedOk(Without(list, i), n, freed, G)
  {
    var after, h := Without(list, i), list[i].node;
    assert Find(list, h.id).Some?;
    assert InstanceOk(list[i], n, freed, F);
    hide ListOk, Without, Find;
    forall k | Owned(k) in G
      ensures k == h || (Owned(k) in F && k.id != h.id)
      ensures Find(after, k.id).None?
    {
      if k != h {
        assert Owned(k) in F;
        FoundBefore(list, i, k.id);
      }
    }
  }

  lemma {:induction false} UnlinkAt(s: State, id: nat, i: nat)
    requires Find(s.list, id) == Some(i)
    ensures Unlink(s, id) == s.(list := Without(s.list, i), count := s.count - 1) && |Without(s.list, i)| == |s.list| - 1
  {
  }

  lemma {:induction false} HeldOnce(list: seq<Instance>, i: nat, n: nat, freed: set<nat>, F: multiset<Resource>)
    requires ListOk(list, n, freed, F) && i < |list| && list[i].node.key.kind == Process && Node(list[i].node) in F
    ensures list[i].busy == 1
  {
    assert InstanceOk(list[i], n, freed, F);
  }

  lemma {:induction false} UnlinkPool(cfg: Config, w: World, h: Handle, F: multiset<Resource>, G: multiset<Resource>)
    requires PoolOk(cfg, w, F) && h.key.kind == Process && Unlinking(F, G, h) && Node(h) in F
    ensures PoolOk(cfg, w.(pool := Unlink(w.pool, h.id)), G)
  {
    hide ListOk, OwnedOk, Bounded, Unlink, Without, Find;
    var list := w.pool.list;
    FindHeld(list, h, w.nextNode, w.freed, F);
    var i := Find(list, h.id).value;
    UnlinkAt(w.pool, h.id, i);
    HeldOnce(list, i, w.nextNode, w.freed, F);
    ListRemove(list, i, w.nextNode, w.freed, F, G);
    BoundedRemove(cfg, list, i);
    UnlinkOwned(list, i, w.nextNode, w.freed, F, G);
  }

  lemma {:induction false} UnlinkKeeps(cfg: Config, w: World, h: Handle, H: multiset<Resource>)
    requires Inv(cfg, w, H + multiset{Node(h)}) && h.key.kind == Process
    ensures Inv(cfg, w.(pool := Unlink(w.pool, h.id)), H + multiset{Owned(h), Pin(h.tool)})
  {
    var F, G := H + multiset{Node(h)}, H + multiset{Owned(h), Pin(h.tool)};
    UnlinkingHolds(H, h);
    UnlinkPool(cfg, w, h, F, G);
    FindHeld(w.pool.list, h, w.nextNode, w.freed, F);
    UnlinkRefs(w, h, F, G);
  }

  /** The reference of the unlinked instance passes to its new owner. */
  lemma {:induction false} UnlinkRefs(w: World, h: Handle, F: multiset<Resource>, G: multiset<Resource>)
    requires RefsOk(w.refs, w.created, w.nextTool, Shared(w), F) && OneMore(F, G, h.tool)
    requires Find(w.pool.list, h.id).Some? && w.pool.list[Find(w.pool.list, h.id).value].node == h
    ensures var v := w.(pool := Unlink(w.pool, h.id)); RefsOk(v.refs, v.created, v.nextTool, Shared(v), G)
  {
    ToolsWithout(w.pool.list, Find(w.pool.list, h.id).value);
    hide RefsOk, Tools;
    RefsMove(w.refs, w.created, w.nextTool, Shared(w), F, Shared(w.(pool := Unlink(w.pool, h.id))), G);
  }

  ghost predicate Freeing(F: multiset<Resource>, G: multiset<Resource>, h: Handle) {
    && AgreeGate(F, G) && F[PoolWait] == G[PoolWait] && OneMore(G, F, h.tool)
    && (forall k :: F[Node(k)] == G[Node(k)])
    && forall k :: F[Owned(k)] == G[Owned(k)] + if k == h then 1 else 0
  }

  lemma {:induction false} FreeingHolds(H: multiset<Resource>, h: Handle)
    ensures Freeing(H + multiset{Owned(h), Pin(h.tool)}, H, h)
  {
  }

  lemma {:induction false} FreePool(cfg: Config, w: World, h: Handle, F: multiset<Resource>, G: multiset<Resource>)
    requires PoolOk(cfg, w, F) && Freeing(F, G, h) && Owned(h) in F
    ensures PoolOk(cfg, Freed(w, h), G) && h.id !in w.freed && Find(w.pool.list, h.id).None?
  {
    assert forall k :: Owned(k) in G ==> Owned(k) in F && k != h;
    assert forall k :: Node(k) in G ==> Node(k) in F;
  }

  /** The owner frees an instance nobody else can reach, exactly once. */
  lemma {:induction false} FreeKeeps(cfg: Config, w: World, h: Handle, H: multiset<Resource>)
    requires Inv(cfg, w, H + multiset{Owned(h), Pin(h.tool)})
    ensures Inv(cfg, Freed(w, h), H)
  {
    var F := H + multiset{Owned(h), Pin(h.tool)};
    FreeingHolds(H, h);
    FreePool(cfg, w, h, F, H);
    DropRefs(w.refs, w.created, w.nextTool, Shared(w), H, F, h.tool);
  }

  lemma {:induction false} OwnedsSnoc(hs: seq<Handle>, h: Handle)
    ensures Owneds(hs + [h]) == Owneds(hs) + multiset{Owned(h), Pin(h.tool)}
  {
    if hs != [] {
      OwnedsSnoc(hs[1..], h);
      assert (hs + [h])[1..] == hs[1..] + [h];
    } else {
      assert ([h])[1..] == [];
    }
  }

  lemma {:induction false} HandlesInit(list: seq<Instance>)
    requires list != []
    ensures Handles(list) == Handles(list[..|list| - 1]) + [list[|list| - 1].node]
  {
  }

  lemma {:induction false} OwnedsTools(list: seq<Instance>)
    ensures forall t :: Owneds(Handles(list))[Pin(t)] == Tools(list)[t]
    ensures forall r :: r in Owneds(Handles(list)) ==> r.Owned? || r.Pin?
  {
    if list != [] {
      OwnedsTools(list[..|list| - 1]);
      HandlesInit(list);
      OwnedsSnoc(Handles(list[..|list| - 1]), list[|list| - 1].node);
    }
  }

  /** Taking the whole list takes each instance once. */
  lemma {:induction false} OwnedsOfList(list: seq<Instance>)
    requires forall i, j :: 0 <= i < j < |list| ==> list[i].node.id != list[j].node.id
    ensures forall h :: Owned(h) in Owneds(Handles(list)) ==> Owneds(Handles(list))[Owned(h)] == 1 && Linked(list, h)
  {
    if list != [] {
      var init, h := list[..|list| - 1], list[|list| - 1].node;
      OwnedsOfList(init);
      HandlesInit(list);
      OwnedsSnoc(Handles(init), h);
      forall k | Owned(k) in Owneds(Handles(list))
        ensures Owneds(Handles(list))[Owned(k)] == 1 && Linked(list, k)
      {
        OwnedStep(init, list[|list| - 1], k, Owneds(Handles(init)));
      }
    }
  }

  lemma {:induction false} OwnedStep(init: seq<Instance>, p: Instance, k: Handle, H: multiset<Resource>)
    requires forall i :: 0 <= i < |init| ==> init[i].node.id != p.node.id
    requires forall h :: Owned(h) in H ==> H[Owned(h)] == 1 && Linked(init, h)
    requires k == p.node || Owned(k) in H
    ensures (H + multiset{Owned(p.node), Pin(p.node.tool)})[Owned(k)] == 1 && Linked(init + [p], k)
  {
    if Owned(k) in H {
      var i :| 0 <= i < |init| && init[i].node == k;
      assert (init + [p])[i].node == k;
    } else {
      assert (init + [p])[|init|].node == k;
    }
  }

  lemma {:induction false} DrainPool(cfg: Config, w: World, G: multiset<Resource>)
    requires PoolOk(cfg, w, multiset{})
    requires forall h :: Owned(h) in G ==> G[Owned(h)] == 1 && Linked(w.pool.list, h)
    requires forall r :: r in G ==> r.Owned? || r.Pin?
    ensures PoolOk(cfg, w.(pool := Drain(w.pool)), G)
  {
    forall h, k | Owned(h) in G && Owned(k) in G && h.id == k.id
      ensures h == k
    {
      var i :| 0 <= i < |w.pool.list| && w.pool.list[i].node == h;
      var j :| 0 <= j < |w.pool.list| && w.pool.list[j].node == k;
    }
  }

  lemma {:induction false} DrainRefs(w: World, G: multiset<Resource>)
    requires RefsOk(w.refs, w.created, w.nextTool, Shared(w), multiset{})
    requires forall t :: G[Pin(t)] == Tools(w.pool.list)[t] && G[Fresh(t)] == 0
    ensures RefsOk(w.refs, w.created, w.nextTool, Shared(w.(pool := Drain(w.pool))), G)
  {
  }

  lemma {:induction false} DrainHolds(list: seq<Instance>)
    ensures var G := Owneds(Handles(list));
            AgreeGate(multiset{}, G) && G[PoolWait] == 0 && forall t :: G[Pin(t)] == Tools(list)[t] && G[Fresh(t)] == 0
  {
    OwnedsTools(list);
    assert forall r: Resource :: !r.Owned? && !r.Pin? ==> r !in Owneds(Handles(list));
  }

  /** Closing the worker when nothing is in flight. */
  lemma {:induction false} DrainKeeps(cfg: Config, w: World)
    requires Inv(cfg, w, multiset{})
    ensures Inv(cfg, w.(pool := Drain(w.pool)), Owneds(Handles(w.pool.list)))
  {
    var G := Owneds(Handles(w.pool.list));
    DrainHolds(w.pool.list);
    DrainRefs(w, G);
    assert PoolOk(cfg, w.(pool := Drain(w.pool)), G) by {
      OwnedsTools(w.pool.list);
      OwnedsOfList(w.pool.list);
      DrainPool(cfg, w, G);
    }
  }

  // ---- the table and the views ------------------------------------------------------------------

  lemma {:induction false} AddFresh(H: multiset<Resource>, t: Tool)
    ensures var G := H + multiset{Fresh(t)};
            && AgreeGate(H, G) && AgreePool(H, G) && AgreeGate(G, H) && AgreePool(G, H)
            && (forall u :: G[Pin(u)] == H[Pin(u)]) && (forall u :: G[Fresh(u)] == H[Fresh(u)] + if u == t then 1 else 0)
  {
  }

  lemma {:induction false} LoadRefs(r: References, created: set<Tool>, n: nat, S: multiset<Tool>, H: multiset<Resource>, G: multiset<Resource>, t: Tool)
    requires RefsOk(r, created, n, S, H) && t.address == n
    requires forall u :: G[Pin(u)] == H[Pin(u)]
    requires forall u :: G[Fresh(u)] == H[Fresh(u)] + if u == t then 1 else 0
    ensures RefsOk(Admission.Load(r, t), created + {t}, n + 1, S, G)
  {
  }

  lemma {:induction false} LoadKeeps(cfg: Config, w: World, t: Tool, H: multiset<Resource>)
    requires Inv(cfg, w, H) && t.address == w.nextTool
    ensures Inv(cfg, Loaded(w, t), H + multiset{Fresh(t)})
  {
    var G := H + multiset{Fresh(t)};
    AddFresh(H, t);
    LoadRefs(w.refs, w.created, w.nextTool, Shared(w), H, G, t);
    TablesKeep(cfg, w, Loaded(w, t), H, G);
  }

  /** Destroying a candidate directly is right because nobody else can refer to it. */
  lemma {:induction false} DestroyRefs(r: References, created: set<Tool>, n: nat, S: multiset<Tool>, H: multiset<Resource>, G: multiset<Resource>, t: Tool)
    requires RefsOk(r, created, n, S, G)
    requires forall u :: G[Pin(u)] == H[Pin(u)]
    requires forall u :: G[Fresh(u)] == H[Fresh(u)] + if u == t then 1 else 0
    ensures RefsOk(Destroy(r, t), created, n, S, H)
  {
  }

  lemma {:induction false} DestroyKeeps(cfg: Config, w: World, t: Tool, H: multiset<Resource>)
    requires Inv(cfg, w, H + multiset{Fresh(t)})
    ensures Inv(cfg, w.(refs := Destroy(w.refs, t)), H)
  {
    AddFresh(H, t);
    DestroyRefs(w.refs, w.created, w.nextTool, Shared(w), H, H + multiset{Fresh(t)}, t);
    TablesKeep(cfg, w, w.(refs := Destroy(w.refs, t)), H + multiset{Fresh(t)}, H);
  }

  lemma {:induction false} PinsCount(ts: seq<Tool>)
    ensures forall t :: Pins(ts)[Pin(t)] == multiset(ts)[t]
    ensures forall r :: r in Pins(ts) ==> r.Pin?
  {
    if ts != [] {
      PinsCount(ts[1..]);
      assert ts == [ts[0]] + ts[1..];
    }
  }

  lemma {:induction false} FreshesCount(ts: seq<Tool>)
    ensures forall t :: Freshes(ts)[Fresh(t)] == multiset(ts)[t]
    ensures forall r :: r in Freshes(ts) ==> r.Fresh?
  {
    if ts != [] {
      FreshesCount(ts[1..]);
      assert ts == [ts[0]] + ts[1..];
    }
  }

  ghost predicate Publishing(F: multiset<Resource>, G: multiset<Resource>, before: seq<Tool>, after: seq<Tool>) {
    && AgreeGate(F, G) && AgreePool(F, G)
    && (forall t :: G[Pin(t)] == F[Pin(t)] + multiset(before)[t])
    && (forall t :: F[Fresh(t)] == G[Fresh(t)] + multiset(after)[t])
  }

  lemma {:induction false} PublishingHolds(H: multiset<Resource>, before: seq<Tool>, after: seq<Tool>)
    ensures Publishing(H + Freshes(after), H + Pins(before), before, after)
  {
    PinsCount(before);
    FreshesCount(after);
  }

  lemma {:induction false} PublishRefs(w: World, ts: seq<Tool>, F: multiset<Resource>, G: multiset<Resource>)
    requires RefsOk(w.refs, w.created, w.nextTool, Shared(w), F) && Publishing(F, G, w.table, ts)
    ensures RefsOk(w.refs, w.created, w.nextTool, Shared(w.(table := ts)), G)
  {
  }

  /** Swapping the table: candidates become the table's, and the old table's
      references become the scanning thread's to drop. */
  lemma {:induction false} PublishKeeps(cfg: Config, w: World, ts: seq<Tool>, H: multiset<Resource>)
    requires Inv(cfg, w, H + Freshes(ts))
    ensures Inv(cfg, w.(table := ts), H + Pins(w.table))
  {
    PublishingHolds(H, w.table, ts);
    PublishRefs(w, ts, H + Freshes(ts), H + Pins(w.table));
    TablesKeep(cfg, w, w.(table := ts), H + Freshes(ts), H + Pins(w.table));
  }

  lemma {:induction false} ViewKeeps(cfg: Config, w: World, t: Tool, H: multiset<Resource>)
    requires Inv(cfg, w, H) && H[Pin(t)] >= 1
    ensures Inv(cfg, Acquired(w, t).(views := w.views + multiset{t}), H)
  {
    var v := Acquired(w, t).(views := w.views + multiset{t});
    RefsAdd(w.refs, w.created, w.nextTool, Shared(w), H, Shared(v), H, t);
    TablesKeep(cfg, w, v, H, H);
  }

  lemma {:induction false} FreeViewKeeps(cfg: Config, w: World, t: Tool, H: multiset<Resource>)
    requires Inv(cfg, w, H) && t in w.views
    ensures Inv(cfg, Dropped(w, t).(views := w.views - multiset{t}), H)
  {
    var v := Dropped(w, t).(views := w.views - multiset{t});
    RefsDrop(w.refs, w.created, w.nextTool, Shared(w), H, Shared(v), H, t);
    TablesKeep(cfg, w, v, H, H);
  }
}
