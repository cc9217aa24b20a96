/** Safety over every run of the runtime. */
module RuntimeRuns {
  import opened Text
  import opened Pool
  import opened Admission
  import opened Runtime
  import opened RuntimePool
  import opened RuntimeSafe

  // ---- one step ------------------------------------------------------------------------------

  /** A step changes what its own thread holds and keeps the invariant, whatever
      the rest F of the system holds. */
  ghost predicate Kept(cfg: Config, r: Option<(World, Activity)>, F: multiset<Resource>) {
    r.Some? ==> Inv(cfg, r.value.0, F + Holdings(r.value.1)) && Proper(r.value.1)
  }

  /** The table's descriptors are alive, so resolving may pin any of them. */
  lemma {:induction false} ResolveKeeps(cfg: Config, w: World, k: nat, H: multiset<Resource>)
    requires Inv(cfg, w, H) && k < |w.table|
    ensures Inv(cfg, Acquired(w, w.table[k]), H + multiset{Pin(w.table[k])})
  {
    assert w.table[k] in multiset(w.table);
    AcquireKeeps(cfg, w, w.table[k], H);
  }

  /** What each stage of an invocation holds beyond a simpler stage. */
  lemma {:induction false} Stages(F: multiset<Resource>, t: Tool, current: Tool, h: Handle)
    ensures F + Holdings(Unslotted(t)) == F + multiset{Pin(t)} && F + Holdings(Idle) == F
    ensures F + Holdings(Leaving(t)) == F + Holdings(Unslotted(t)) + multiset{Slot}
    ensures F + Holdings(Rechecking(t, current)) == F + Holdings(Leaving(t)) + multiset{Pin(current)}
    ensures F + Holdings(Holding(t, h)) == F + Holdings(Leaving(t)) + multiset{Node(h)}
    ensures F + Holdings(Validating(t, h, current)) == F + Holdings(Holding(t, h)) + multiset{Pin(current)}
  {
    SlotHoldings(t);
    PinHoldings(t, current, h);
    hide Holdings;
    Assoc(F, Holdings(Unslotted(t)), multiset{Slot});
    Assoc(F, Holdings(Leaving(t)), multiset{Pin(current)});
    Assoc(F, Holdings(Leaving(t)), multiset{Node(h)});
    Assoc(F, Holdings(Holding(t, h)), multiset{Pin(current)});
  }

  lemma {:induction false} SlotHoldings(t: Tool)
    ensures Holdings(Unslotted(t)) == multiset{Pin(t)} && Holdings(Idle) == multiset{}
    ensures Holdings(Leaving(t)) == Holdings(Unslotted(t)) + multiset{Slot}
  {
  }

  lemma {:induction false} PinHoldings(t: Tool, current: Tool, h: Handle)
    ensures Holdings(Rechecking(t, current)) == Holdings(Leaving(t)) + multiset{Pin(current)}
    ensures Holdings(Holding(t, h)) == Holdings(Leaving(t)) + multiset{Node(h)}
    ensures Holdings(Validating(t, h, current)) == Holdings(Holding(t, h)) + multiset{Pin(current)}
  {
  }

  lemma {:induction false} Alike(t: Tool)
    ensures Holdings(Resolved(t)) == Holdings(Unslotted(t))
    ensures Holdings(Admitted(t)) == Holdings(Leaving(t)) == Holdings(Dispatching(t))
  {
  }

  lemma {:induction false} SlotStages(F: multiset<Resource>, t: Tool, waiting: bool)
    ensures var H := F + Holdings(Unslotted(t));
            && F + Holdings(SlotQueue(t, waiting)) == H + If(waiting, SlotWait)
            && F + Holdings(Leaving(t)) == H + multiset{Slot}
  {
  }

  lemma {:induction false} NoneAdded(H: multiset<Resource>)
    ensures H + If(false, Slot) == H + If(false, SlotWait) == H + If(false, PoolWait) == H
    ensures H + If(true, Slot) == H + multiset{Slot}
  {
  }

  lemma {:induction false} PoolStages(F: multiset<Resource>, t: Tool, kind: Kind, waiting: bool)
    ensures var H := F + Holdings(Leaving(t));
            && F + Holdings(PoolQueue(t, kind, waiting)) == H + If(waiting, PoolWait)
            && H[Pin(t)] >= 1
  {
  }

  lemma {:induction false} SlotTurnKeeps(cfg: Config, w: World, a: Activity, act: Action, F: multiset<Resource>)
    requires a.SlotQueue? && Inv(cfg, w, F + Holdings(a))
    ensures Kept(cfg, InvocationStep(cfg, w, a, act), F)
  {
    hide Inv, Holdings, If;
    if act.TrySlot? {
      var H := F + Holdings(Unslotted(a.t));
      SlotStages(F, a.t, a.waiting);
      SlotStages(F, a.t, true);
      Alike(a.t);
      NoneAdded(H);
      NoneAdded(H + multiset{Slot});
      AdmitKeeps(cfg, w, act.cancelled, act.late, a.waiting, H);
    }
  }

  lemma {:induction false} PoolTurnKeeps(cfg: Config, w: World, a: Activity, act: Action, F: multiset<Resource>)
    requires a.PoolQueue? && Inv(cfg, w, F + Holdings(a))
    ensures Kept(cfg, InvocationStep(cfg, w, a, act), F)
  {
    hide Inv, PoolTurn, Holdings, If;
    if act.TryPool? {
      var timed := a.kind == Process;
      var r := PoolTurn(cfg, w, a.t, a.kind, a.waiting, timed && act.cancelled, timed && act.late, act.memory).0;
      PoolStages(F, a.t, a.kind, a.waiting);
      PoolStages(F, a.t, a.kind, true);
      TurnKeeps(cfg, w, a.t, a.kind, a.waiting, timed && act.cancelled, timed && act.late, act.memory,
                F + Holdings(Leaving(a.t)));
      NoneAdded(F + Holdings(Leaving(a.t)));
      if r.Granted? {
        Stages(F, a.t, a.t, r.node);
      }
    }
  }

  lemma {:induction false} PinningKeeps(cfg: Config, w: World, a: Activity, act: Action, F: multiset<Resource>)
    requires (a.Admitted? || a.Holding?) && act.Resolve? && Inv(cfg, w, F + Holdings(a)) && Proper(a)
    ensures Kept(cfg, InvocationStep(cfg, w, a, act), F)
  {
    hide Inv, Holdings, If;
    if act.k < |w.table| {
      ResolveKeeps(cfg, w, act.k, F + Holdings(a));
      Alike(a.t);
      Stages(F, a.t, w.table[act.k], if a.Holding? then a.node else Handle(0, KeyOf(Process, a.t), a.t));
    }
  }

  lemma {:induction false} UnpinningKeeps(cfg: Config, w: World, a: Activity, act: Action, F: multiset<Resource>)
    requires (a.Rechecking? || a.Validating?) && Inv(cfg, w, F + Holdings(a)) && Proper(a)
    ensures Kept(cfg, InvocationStep(cfg, w, a, act), F)
  {
    hide Inv, Holdings, If;
    if a.Validating? {
      Stages(F, a.t, a.current, a.node);
      DropKeeps(cfg, w, a.current, F + Holdings(Holding(a.t, a.node)));
    } else {
      Alike(a.t);
      Stages(F, a.t, a.current, Handle(0, KeyOf(Process, a.t), a.t));
      DropKeeps(cfg, w, a.current, F + Holdings(Leaving(a.t)));
    }
  }

  lemma {:induction false} ReleasingKeeps(cfg: Config, w: World, a: Activity, F: multiset<Resource>)
    requires a.Holding? && Inv(cfg, w, F + Holdings(a))
    ensures Kept(cfg, InvocationStep(cfg, w, a, Finish), F)
  {
    hide Inv, Holdings, If;
    Stages(F, a.t, a.t, a.node);
    ReturnKeeps(cfg, w, a.node, F + Holdings(Leaving(a.t)));
    assert Returned(w, a.node).(refs := Touch(w.refs, a.node.tool)) == Returned(w, a.node);
  }

  lemma {:induction false} LeavingKeeps(cfg: Config, w: World, a: Activity, F: multiset<Resource>)
    requires (a.Leaving? || a.Unslotted?) && Inv(cfg, w, F + Holdings(a))
    ensures Kept(cfg, InvocationStep(cfg, w, a, Finish), F)
  {
    hide Inv, Holdings, If;
    Stages(F, a.t, a.t, Handle(0, KeyOf(Process, a.t), a.t));
    if a.Leaving? {
      LeaveKeeps(cfg, w, F + Holdings(Unslotted(a.t)));
    } else {
      DropKeeps(cfg, w, a.t, F);
    }
  }

  /** Steps that move on without touching anything shared. */
  lemma {:induction false} PassingKeeps(cfg: Config, w: World, a: Activity, act: Action, F: multiset<Resource>)
    requires a.Resolved? || a.Dispatching? || (a.Admitted? && act == Fail)
    requires Inv(cfg, w, F + Holdings(a))
    ensures Kept(cfg, InvocationStep(cfg, w, a, act), F)
  {
    hide Inv, Holdings, If;
    Alike(a.t);
    SlotStages(F, a.t, false);
    NoneAdded(F + Holdings(a));
    if act.Borrow? {
      PoolStages(F, a.t, act.kind, false);
    }
  }

  lemma {:induction false} InvocationKeeps(cfg: Config, w: World, a: Activity, act: Action, F: multiset<Resource>)
    requires Inv(cfg, w, F + Holdings(a)) && Proper(a)
    ensures Kept(cfg, InvocationStep(cfg, w, a, act), F)
  {
    match (a, act)
    case (SlotQueue(_, _), _) => SlotTurnKeeps(cfg, w, a, act, F);
    case (PoolQueue(_, _, _), _) => PoolTurnKeeps(cfg, w, a, act, F);
    case (Admitted(_), Resolve(_)) => PinningKeeps(cfg, w, a, act, F);
    case (Holding(_, _), Resolve(_)) => PinningKeeps(cfg, w, a, act, F);
    case (Rechecking(_, _), _) => UnpinningKeeps(cfg, w, a, act, F);
    case (Validating(_, _, _), _) => UnpinningKeeps(cfg, w, a, act, F);
    case (Holding(_, _), Finish) => ReleasingKeeps(cfg, w, a, F);
    case (Leaving(_), Finish) => LeavingKeeps(cfg, w, a, F);
    case (Unslotted(_), Finish) => LeavingKeeps(cfg, w, a, F);
    case (Resolved(_), _) => PassingKeeps(cfg, w, a, act, F);
    case (Dispatching(_), _) => PassingKeeps(cfg, w, a, act, F);
    case (Admitted(_), Fail) => PassingKeeps(cfg, w, a, act, F);
    case _ =>
  }

  lemma {:induction false} Assoc(F: multiset<Resource>, A: multiset<Resource>, B: multiset<Resource>)
    ensures F + (A + B) == F + A + B && F + (A + B) == F + B + A
  {
  }

  lemma {:induction false} Empty(F: multiset<Resource>)
    ensures F + multiset{} == F == multiset{} + F
  {
  }

  lemma {:induction false} QueueHoldings(queue: seq<Handle>, current: Tool)
    ensures Holdings(Checking(queue, current)) == Nodes(queue) + multiset{Pin(current)}
    ensures Holdings(Reaping(queue)) == Nodes(queue) && Holdings(Disposing([], queue)) == Owneds([]) + Nodes(queue)
    ensures Holdings(Reaping([])) == Nodes([]) && Holdings(Idle) == multiset{}
  {
    hide Nodes, Owneds;
  }

  lemma {:induction false} Queues(F: multiset<Resource>, queue: seq<Handle>, current: Tool)
    ensures F + Holdings(Checking(queue, current)) == F + Holdings(Reaping(queue)) + multiset{Pin(current)}
    ensures F + Holdings(Disposing([], queue)) == F + Holdings(Reaping(queue))
    ensures F + Holdings(Reaping([])) == F && F + Holdings(Idle) == F
    ensures queue != [] ==> F + Holdings(Reaping(queue)) == F + Holdings(Reaping(queue[1..])) + multiset{Node(queue[0])}
  {
    NoNodes();
    QueueHoldings(queue, current);
    if queue != [] {
      QueueHoldings(queue[1..], current);
    }
    hide Nodes, Owneds, Holdings;
    Assoc(F, Nodes(queue), multiset{Pin(current)});
    Empty(F);
    Empty(Nodes(queue));
    if queue != [] {
      QueuePop(F, queue);
    }
  }

  lemma {:induction false} NoNodes()
    ensures Nodes([]) == Owneds([]) == multiset{}
  {
  }

  lemma {:induction false} QueuePop(F: multiset<Resource>, queue: seq<Handle>)
    requires queue != []
    ensures F + Nodes(queue) == F + Nodes(queue[1..]) + multiset{Node(queue[0])}
  {
  }

  lemma {:induction false} Disposals(F: multiset<Resource>, nodes: seq<Handle>, queue: seq<Handle>)
    requires nodes != []
    ensures F + Holdings(Disposing(nodes, queue))
         == F + Holdings(Disposing(nodes[1..], queue)) + multiset{Owned(nodes[0]), Pin(nodes[0].tool)}
  {
  }

  /** A held instance keeps its own descriptor alive. */
  lemma {:induction false} HeldToolAlive(cfg: Config, w: World, h: Handle, H: multiset<Resource>)
    requires Inv(cfg, w, H) && Node(h) in H
    ensures h.tool in w.refs.counts && Touch(w.refs, h.tool) == w.refs
  {
    FindHeld(w.pool.list, h, w.nextNode, w.freed, H);
    ToolsHas(w.pool.list, Find(w.pool.list, h.id).value);
  }

  lemma {:induction false} ExaminingKeeps(cfg: Config, w: World, queue: seq<Handle>, k: nat, F: multiset<Resource>)
    requires Inv(cfg, w, F + Holdings(Reaping(queue))) && Proper(Reaping(queue)) && queue != [] && k < |w.table|
    ensures Kept(cfg, ReaperStep(w, Reaping(queue), Resolve(k)), F)
  {
    hide Inv, Holdings, Acquired;
    Queues(F, queue, w.table[k]);
    var H := F + Holdings(Reaping(queue));
    assert Node(queue[0]) in H;
    HeldToolAlive(cfg, w, queue[0], H);
    ResolveKeeps(cfg, w, k, H);
    assert w.(refs := Touch(w.refs, queue[0].tool)) == w;
  }

  lemma {:induction false} DiscardKeeps(cfg: Config, w: World, queue: seq<Handle>, F: multiset<Resource>)
    requires Inv(cfg, w, F + Holdings(Reaping(queue))) && Proper(Reaping(queue))
    ensures Kept(cfg, ReaperStep(w, Reaping(queue), Discard), F)
  {
    hide Inv, Holdings, Unlink;
    if queue != [] {
      var h, rest := queue[0], queue[1..];
      Queues(F, queue, h.tool);
      Queues(F, rest, h.tool);
      Disposals(F, [h], rest);
      assert [h][1..] == [];
      UnlinkKeeps(cfg, w, h, F + Holdings(Reaping(rest)));
    }
  }

  lemma {:induction false} DisposeKeeps(cfg: Config, w: World, nodes: seq<Handle>, queue: seq<Handle>, F: multiset<Resource>)
    requires Inv(cfg, w, F + Holdings(Disposing(nodes, queue))) && Proper(Disposing(nodes, queue))
    ensures Kept(cfg, ReaperStep(w, Disposing(nodes, queue), Finish), F)
  {
    hide Inv, Holdings, Freed;
    if nodes == [] {
      Queues(F, queue, Tool(0, "", ""));
    } else {
      Disposals(F, nodes, queue);
      FreeKeeps(cfg, w, nodes[0], F + Holdings(Disposing(nodes[1..], queue)));
    }
  }

  lemma {:induction false} ReaperKeeps(cfg: Config, w: World, a: Activity, act: Action, F: multiset<Resource>)
    requires Inv(cfg, w, F + Holdings(a)) && Proper(a)
    ensures Kept(cfg, ReaperStep(w, a, act), F)
  {
    hide Inv, Holdings, Unlink, Freed, Unpinned, Dropped, Acquired;
    match (a, act)
    case (Checking(queue, current), _) =>
      Queues(F, queue, current);
      DropKeeps(cfg, w, current, F + Holdings(Reaping(queue)));
    case (Reaping(queue), Resolve(k)) =>
      if queue != [] && k < |w.table| {
        ExaminingKeeps(cfg, w, queue, k, F);
      }
    case (Reaping(queue), Keep) =>
      if queue != [] {
        Queues(F, queue, queue[0].tool);
        UnpinKeeps(cfg, w, queue[0], F + Holdings(Reaping(queue[1..])));
      }
    case (Reaping(queue), Discard) => DiscardKeeps(cfg, w, queue, F);
    case (Reaping(queue), Finish) =>
      if queue == [] {
        assert F + Holdings(Reaping(queue)) == F + Holdings(Idle) by {
          Queues(F, queue, Tool(0, "", ""));
        }
      }
    case (Disposing(nodes, queue), Finish) => DisposeKeeps(cfg, w, nodes, queue, F);
    case _ =>
  }

  // ---- tables ------------------------------------------------------------------------------------

  lemma {:induction false} PinsSnoc(ts: seq<Tool>, t: Tool)
    ensures Pins(ts + [t]) == Pins(ts) + multiset{Pin(t)} && Freshes(ts + [t]) == Freshes(ts) + multiset{Fresh(t)}
  {
    if ts != [] {
      PinsSnoc(ts[1..], t);
      assert (ts + [t])[1..] == ts[1..] + [t];
    } else {
      assert ([t])[1..] == [];
    }
  }

  lemma {:induction false} NoBatch(F: multiset<Resource>)
    ensures F + Holdings(Scanning([])) == F + Holdings(Retiring([])) == F + Holdings(Collecting([])) == F + Holdings(Idle) == F
    ensures F + Freshes([]) == F
  {
  }

  lemma {:induction false} Batch(ts: seq<Tool>)
    ensures Holdings(Scanning(ts)) == Freshes(ts) && Holdings(Retiring(ts)) == Pins(ts) == Holdings(Collecting(ts))
  {
    hide Freshes, Pins;
  }

  lemma {:induction false} BatchPop(F: multiset<Resource>, ts: seq<Tool>)
    requires ts != []
    ensures F + Holdings(Retiring(ts)) == F + Holdings(Retiring(ts[1..])) + multiset{Pin(ts[0])}
  {
  }

  lemma {:induction false} BatchSnoc(F: multiset<Resource>, ts: seq<Tool>, t: Tool)
    ensures F + Holdings(Scanning(ts + [t])) == F + Holdings(Scanning(ts)) + multiset{Fresh(t)}
    ensures F + Holdings(Collecting(ts + [t])) == F + Holdings(Collecting(ts)) + multiset{Pin(t)}
  {
    PinsSnoc(ts, t);
    hide Pins, Freshes;
    Assoc(F, Freshes(ts), multiset{Fresh(t)});
    Assoc(F, Pins(ts), multiset{Pin(t)});
  }

  lemma {:induction false} CollectedPin(F: multiset<Resource>, ts: seq<Tool>, j: nat)
    requires j < |ts|
    ensures (F + Holdings(Collecting(ts)))[Pin(ts[j])] >= 1
  {
    PinsCount(ts);
    assert ts[j] in multiset(ts);
  }

  lemma {:induction false} NoStepKeeps(cfg: Config, F: multiset<Resource>)
    ensures Kept(cfg, None, F)
  {
  }

  lemma {:induction false} ScanLoadKeeps(cfg: Config, w: World, ts: seq<Tool>, dir: string, content: string, F: multiset<Resource>)
    requires Inv(cfg, w, F + Holdings(Scanning(ts)))
    ensures Kept(cfg, TableStep(w, Scanning(ts), Load(dir, content)), F)
  {
    hide Inv, Holdings, Loaded;
    var t := Tool(w.nextTool, dir, content);
    BatchSnoc(F, ts, t);
    LoadKeeps(cfg, w, t, F + Holdings(Scanning(ts)));
  }

  lemma {:induction false} ScanDiscardKeeps(cfg: Config, w: World, ts: seq<Tool>, F: multiset<Resource>)
    requires Inv(cfg, w, F + Holdings(Scanning(ts)))
    ensures Kept(cfg, TableStep(w, Scanning(ts), Discard), F)
  {
    hide Inv, Holdings, Destroy;
    if ts != [] {
      var rest, t := ts[..|ts| - 1], ts[|ts| - 1];
      assert rest + [t] == ts;
      BatchSnoc(F, rest, t);
      DestroyKeeps(cfg, w, t, F + Holdings(Scanning(rest)));
    }
  }

  lemma {:induction false} ScanFailKeeps(cfg: Config, w: World, ts: seq<Tool>, F: multiset<Resource>)
    requires Inv(cfg, w, F + Holdings(Scanning(ts)))
    ensures Kept(cfg, TableStep(w, Scanning(ts), Fail), F)
  {
    hide Inv, Holdings;
    NoBatch(F);
  }

  lemma {:induction false} ScanPublishKeeps(cfg: Config, w: World, ts: seq<Tool>, F: multiset<Resource>)
    requires Inv(cfg, w, F + Holdings(Scanning(ts)))
    ensures Kept(cfg, TableStep(w, Scanning(ts), Publish), F)
  {
    hide Inv, Holdings;
    Batch(ts);
    Batch(w.table);
    PublishKeeps(cfg, w, ts, F);
  }

  lemma {:induction false} ScanningKeeps(cfg: Config, w: World, ts: seq<Tool>, act: Action, F: multiset<Resource>)
    requires Inv(cfg, w, F + Holdings(Scanning(ts)))
    ensures Kept(cfg, TableStep(w, Scanning(ts), act), F)
  {
    hide Inv, Holdings, Loaded, Dropped, Acquired, Destroy, Kept;
    match act
    case Load(dir, content) => ScanLoadKeeps(cfg, w, ts, dir, content, F);
    case Discard => ScanDiscardKeeps(cfg, w, ts, F);
    case Fail =>
      ScanFailKeeps(cfg, w, ts, F);
    case Publish => ScanPublishKeeps(cfg, w, ts, F);
    case _ => NoStepKeeps(cfg, F);
  }

  lemma {:induction false} CollectingKeeps(cfg: Config, w: World, ts: seq<Tool>, act: Action, F: multiset<Resource>)
    requires Inv(cfg, w, F + Holdings(Collecting(ts)))
    ensures Kept(cfg, TableStep(w, Collecting(ts), act), F)
  {
    hide Inv, Holdings, Loaded, Dropped, Acquired, Destroy;
    match act
    case Resolve(k) =>
      if k < |w.table| {
        BatchSnoc(F, ts, w.table[k]);
        ResolveKeeps(cfg, w, k, F + Holdings(Collecting(ts)));
      }
    case View(j) =>
      if j < |ts| {
        CollectedPin(F, ts, j);
        ViewKeeps(cfg, w, ts[j], F + Holdings(Collecting(ts)));
      }
    case Finish =>
      Batch(ts);
    case _ =>
  }

  lemma {:induction false} TableKeeps(cfg: Config, w: World, a: Activity, act: Action, F: multiset<Resource>)
    requires Inv(cfg, w, F + Holdings(a))
    ensures Kept(cfg, TableStep(w, a, act), F)
  {
    hide Inv, Holdings, Dropped;
    match a
    case Scanning(ts) => ScanningKeeps(cfg, w, ts, act, F);
    case Collecting(ts) => CollectingKeeps(cfg, w, ts, act, F);
    case Retiring(ts) =>
      NoBatch(F);
      if ts != [] {
        BatchPop(F, ts);
        DropKeeps(cfg, w, ts[0], F + Holdings(Retiring(ts[1..])));
      }
    case _ =>
  }

  lemma {:induction false} StartKeeps(cfg: Config, w: World, act: Action, quiet: bool, F: multiset<Resource>)
    requires Inv(cfg, w, F) && (quiet ==> F == multiset{})
    ensures Kept(cfg, StartStep(w, act, quiet), F)
  {
    hide Inv, Holdings, Dropped, Acquired, PinAll, Drain, Kept;
    match act
    case Resolve(k) => StartResolveKeeps(cfg, w, k, quiet, F);
    case Sweep => StartSweepKeeps(cfg, w, quiet, F);
    case FreeView(t) => StartFreeKeeps(cfg, w, t, quiet, F);
    case CloseWorker =>
      if quiet {
        CloseWorkerKeeps(cfg, w);
      } else {
        NoStepKeeps(cfg, F);
      }
    case CloseTable => CloseTableKeeps(cfg, w, quiet, F);
    case _ => StartBatchKeeps(cfg, w, act, quiet, F);
  }

  lemma {:induction false} StartResolveKeeps(cfg: Config, w: World, k: nat, quiet: bool, F: multiset<Resource>)
    requires Inv(cfg, w, F)
    ensures Kept(cfg, StartStep(w, Resolve(k), quiet), F)
  {
    hide Inv, Holdings, Acquired;
    if k < |w.table| {
      FirstPin(F, w.table[k]);
      ResolveKeeps(cfg, w, k, F);
    }
  }

  lemma {:induction false} StartSweepKeeps(cfg: Config, w: World, quiet: bool, F: multiset<Resource>)
    requires Inv(cfg, w, F)
    ensures Kept(cfg, StartStep(w, Sweep, quiet), F)
  {
    hide Inv, Holdings, PinAll;
    SweepKeeps(cfg, w, F);
    ReapingHolds(F, PinAll(w.pool).1);
  }

  lemma {:induction false} StartFreeKeeps(cfg: Config, w: World, t: Tool, quiet: bool, F: multiset<Resource>)
    requires Inv(cfg, w, F)
    ensures Kept(cfg, StartStep(w, FreeView(t), quiet), F)
  {
    hide Inv, Holdings, Dropped;
    if t in w.views {
      NoBatch(F);
      FreeViewKeeps(cfg, w, t, F);
    }
  }

  /** Scans and listings start empty-handed; nothing else starts from idle. */
  lemma {:induction false} StartBatchKeeps(cfg: Config, w: World, act: Action, quiet: bool, F: multiset<Resource>)
    requires Inv(cfg, w, F) && !act.Resolve? && !act.Sweep? && !act.FreeView? && !act.CloseWorker? && !act.CloseTable?
    ensures Kept(cfg, StartStep(w, act, quiet), F)
  {
    hide Inv, Holdings;
    NoBatch(F);
  }

  lemma {:induction false} CloseWorkerKeeps(cfg: Config, w: World)
    requires Inv(cfg, w, multiset{})
    ensures Kept(cfg, StartStep(w, CloseWorker, true), multiset{})
  {
    hide Inv, Holdings, Drain, Owneds;
    DrainKeeps(cfg, w);
    ReapingHolds(multiset{}, Handles(w.pool.list));
  }

  lemma {:induction false} CloseTableKeeps(cfg: Config, w: World, quiet: bool, F: multiset<Resource>)
    requires Inv(cfg, w, F)
    ensures Kept(cfg, StartStep(w, CloseTable, quiet), F)
  {
    hide Inv, Holdings, Pins;
    NoBatch(F);
    Batch(w.table);
    PublishKeeps(cfg, w, [], F);
  }

  lemma {:induction false} FirstPin(F: multiset<Resource>, t: Tool)
    ensures F + Holdings(Resolved(t)) == F + multiset{Pin(t)}
  {
  }

  lemma {:induction false} ReapingHolds(F: multiset<Resource>, hs: seq<Handle>)
    ensures F + Holdings(Reaping(hs)) == F + Nodes(hs) && F + Holdings(Disposing(hs, [])) == F + Owneds(hs)
    ensures F == multiset{} ==> F + Owneds(hs) == Owneds(hs)
  {
  }

  lemma {:induction false} StepKeeps(cfg: Config, w: World, a: Activity, act: Action, quiet: bool, F: multiset<Resource>)
    requires Inv(cfg, w, F + Holdings(a)) && Proper(a) && (quiet ==> F == multiset{})
    ensures Kept(cfg, Step(cfg, w, a, act, quiet), F)
  {
    hide Inv, Holdings, InvocationStep, TableStep, ReaperStep, StartStep;
    if a.Idle? {
      NoBatch(F);
      StartKeeps(cfg, w, act, quiet, F);
    } else if a.Reaping? || a.Checking? || a.Disposing? {
      ReaperKeeps(cfg, w, a, act, F);
    } else if a.Scanning? || a.Collecting? || a.Retiring? {
      TableKeeps(cfg, w, a, act, F);
    } else {
      InvocationKeeps(cfg, w, a, act, F);
    }
  }

  // ---- every run -----------------------------------------------------------------------------------

  ghost function Others(threads: seq<Activity>, i: nat): multiset<Resource>
    requires i < |threads|
  {
    All(threads[..i]) + All(threads[i + 1..])
  }

  lemma {:induction false} AllSplit(threads: seq<Activity>, i: nat)
    requires i < |threads|
    ensures All(threads) == Others(threads, i) + Holdings(threads[i])
  {
    hide Holdings;
    if i == 0 {
      assert threads[..0] == [];
    } else {
      AllSplit(threads[1..], i - 1);
      assert threads[..i][1..] == threads[1..][..i - 1] && threads[1..][i..] == threads[i + 1..];
    }
  }

  lemma {:induction false} AllUpdate(threads: seq<Activity>, i: nat, b: Activity)
    requires i < |threads|
    ensures All(threads[i := b]) == Others(threads, i) + Holdings(b)
  {
    hide Holdings, All;
    var after := threads[i := b];
    AllSplit(after, i);
    assert after[..i] == threads[..i] && after[i + 1..] == threads[i + 1..];
  }

  lemma {:induction false} AllIdle(threads: seq<Activity>)
    requires forall i :: 0 <= i < |threads| ==> threads[i].Idle?
    ensures All(threads) == multiset{}
  {
    if threads != [] {
      AllIdle(threads[1..]);
    }
  }

  ghost predicate Safe(cfg: Config, s: System) {
    Inv(cfg, s.world, All(s.threads)) && forall i :: 0 <= i < |s.threads| ==> Proper(s.threads[i])
  }

  lemma {:induction false} AdvanceKeeps(cfg: Config, s: System, i: nat, act: Action)
    requires Safe(cfg, s)
    ensures Safe(cfg, Advance(cfg, s, i, act))
  {
    hide Inv, Holdings, Proper, Step, All;
    if i < |s.threads| {
      var quiet := OthersIdle(s.threads, i);
      AllSplit(s.threads, i);
      if quiet {
        AllIdle(s.threads[..i]);
        AllIdle(s.threads[i + 1..]);
      }
      StepKeeps(cfg, s.world, s.threads[i], act, quiet, Others(s.threads, i));
      match Step(cfg, s.world, s.threads[i], act, quiet) {
        case None =>
        case Some((w, b)) => AllUpdate(s.threads, i, b);
      }
    }
  }

  lemma {:induction false} InitialSafe(cfg: Config, n: nat)
    ensures Safe(cfg, Initial(n))
  {
    AllIdle(Initial(n).threads);
  }

  /** The invariant holds after every schedule of every number of threads. */
  lemma {:induction false} AlwaysSafe(cfg: Config, n: nat, schedule: seq<(nat, Action)>)
    ensures Safe(cfg, Run(cfg, n, schedule))
  {
    if schedule == [] {
      InitialSafe(cfg, n);
    } else {
      AlwaysSafe(cfg, n, schedule[..|schedule| - 1]);
      var (i, act) := schedule[|schedule| - 1];
      AdvanceKeeps(cfg, Run(cfg, n, schedule[..|schedule| - 1]), i, act);
    }
  }

  // ---- what it means --------------------------------------------------------------------------------

  lemma {:induction false} HoldsSome(threads: seq<Activity>, i: nat, r: Resource)
    requires i < |threads| && r in Holdings(threads[i])
    ensures r in All(threads)
  {
    AllSplit(threads, i);
  }

  lemma {:induction false} HoldsBoth(threads: seq<Activity>, i: nat, j: nat, r: Resource)
    requires i < j < |threads| && r in Holdings(threads[i]) && r in Holdings(threads[j])
    ensures All(threads)[r] >= 2
  {
    hide Holdings;
    AllSplit(threads, i);
    HoldsSome(threads[i + 1..], j - i - 1, r);
  }

  /** A process instance has at most one holder, borrower or reaper, and is never
      taken off the list or freed while somebody holds it. */
  lemma {:induction false} ExclusiveHolder(cfg: Config, n: nat, schedule: seq<(nat, Action)>, i: nat, h: Handle)
    requires var s := Run(cfg, n, schedule); i < |s.threads| && Node(h) in Holdings(s.threads[i])
    ensures var s := Run(cfg, n, schedule);
            && Linked(s.world.pool.list, h) && h.id !in s.world.freed
            && (forall j :: 0 <= j < |s.threads| ==> Owned(h) !in Holdings(s.threads[j]))
            && (h.key.kind == Process ==>
                  forall j :: 0 <= j < |s.threads| && j != i ==> Node(h) !in Holdings(s.threads[j]))
  {
    hide Holdings;
    var s := Run(cfg, n, schedule);
    AlwaysSafe(cfg, n, schedule);
    HoldsSome(s.threads, i, Node(h));
    FindHeld(s.world.pool.list, h, s.world.nextNode, s.world.freed, All(s.threads));
    forall j | 0 <= j < |s.threads|
      ensures Owned(h) !in Holdings(s.threads[j])
      ensures h.key.kind == Process && j != i ==> Node(h) !in Holdings(s.threads[j])
    {
      if Owned(h) in Holdings(s.threads[j]) {
        HoldsSome(s.threads, j, Owned(h));
        assert false;
      }
      if h.key.kind == Process && j != i && Node(h) in Holdings(s.threads[j]) {
        HoldsBoth(s.threads, if i < j then i else j, if i < j then j else i, Node(h));
        assert false;
      }
    }
  }

  /** A borrower only ever drives an instance of its own package, and of its own
      content unless it is a library. */
  lemma {:induction false} BorrowsItsOwn(cfg: Config, n: nat, schedule: seq<(nat, Action)>, i: nat)
    requires var s := Run(cfg, n, schedule); i < |s.threads| && s.threads[i].Holding?
    ensures var a := Run(cfg, n, schedule).threads[i];
            a.node.tool.dir == a.t.dir && (a.node.key.kind == Process ==> a.node.tool.content == a.t.content)
  {
    var s := Run(cfg, n, schedule);
    var a := s.threads[i];
    AlwaysSafe(cfg, n, schedule);
    HoldsItsNode(a);
    hide Holdings, All, Run, Inv;
    assert Proper(a);
    HoldsSome(s.threads, i, Node(a.node));
    PooledKey(cfg, s.world, All(s.threads), a.node);
  }

  lemma {:induction false} HoldsItsNode(a: Activity)
    requires a.Holding?
    ensures Node(a.node) in Holdings(a)
  {
  }

  /** A held instance is pooled under the key of its descriptor. */
  lemma {:induction false} PooledKey(cfg: Config, w: World, H: multiset<Resource>, h: Handle)
    requires Inv(cfg, w, H) && Node(h) in H
    ensures h.key == KeyOf(h.key.kind, h.tool)
  {
    hide GateOk, Bounded, OwnedOk, RefsOk;
    FindHeld(w.pool.list, h, w.nextNode, w.freed, H);
    assert InstanceOk(w.pool.list[Find(w.pool.list, h.id).value], w.nextNode, w.freed, H);
  }

  /** The pool never outgrows its bounds, and its counters say how large it is. */
  lemma {:induction false} PoolBounded(cfg: Config, n: nat, schedule: seq<(nat, Action)>, dir: string, content: Digest)
    ensures var pool := Run(cfg, n, schedule).world.pool;
            && pool.count == |pool.list| <= INSTANCE_LIMIT
            && CountKey(pool.list, Key(Library, dir, None)) <= 1
            && CountKey(pool.list, Key(Process, dir, Some(content))) <= cfg.Limit(content)
  {
    AlwaysSafe(cfg, n, schedule);
    assert cfg.Cap(Key(Library, dir, None)) == 1;
    assert cfg.Cap(Key(Process, dir, Some(content))) == cfg.Limit(content);
  }

  /** A supervision pass pins every idle process: its fixed array never runs out. */
  lemma {:induction false} SweepMissesNothing(cfg: Config, n: nat, schedule: seq<(nat, Action)>)
    ensures var (after, nodes) := PinAll(Run(cfg, n, schedule).world.pool);
            && (forall i :: 0 <= i < |after.list| ==> !IdleProcess(after.list[i]))
            && (forall h :: h in nodes <==>
                  exists i :: 0 <= i < |after.list| && IdleProcess(Run(cfg, n, schedule).world.pool.list[i])
                              && after.list[i].node == h)
  {
    AlwaysSafe(cfg, n, schedule);
    var list := Run(cfg, n, schedule).world.pool.list;
    PinsExactlyIdle(list, INSTANCE_LIMIT);
  }

  predicate HasSlot(a: Activity) {
    a.Admitted? || a.Rechecking? || a.Dispatching? || a.PoolQueue? || a.Holding? || a.Validating? || a.Leaving?
  }

  predicate AwaitsSlot(a: Activity) { a.SlotQueue? && a.waiting }

  predicate AwaitsInstance(a: Activity) { a.PoolQueue? && a.waiting }

  function HowMany(threads: seq<Activity>, p: Activity -> bool): nat {
    if threads == [] then 0 else (if p(threads[0]) then 1 else 0) + HowMany(threads[1..], p)
  }

  ghost predicate NoCounters(H: multiset<Resource>) { H[Slot] == 0 && H[SlotWait] == 0 && H[PoolWait] == 0 }

  lemma {:induction false} Batches(hs: seq<Handle>, ts: seq<Tool>)
    ensures NoCounters(Nodes(hs)) && NoCounters(Owneds(hs)) && NoCounters(Pins(ts)) && NoCounters(Freshes(ts))
  {
    NodesOnly(hs);
    OwnedsOnly(hs);
    PinsCount(ts);
    FreshesCount(ts);
  }

  lemma {:induction false} OwnedsOnly(hs: seq<Handle>)
    ensures forall r :: r in Owneds(hs) ==> r.Owned? || r.Pin?
  {
    if hs != [] {
      OwnedsOnly(hs[1..]);
    }
  }

  lemma {:induction false} BatchCounters(a: Activity)
    requires a.Reaping? || a.Checking? || a.Disposing? || a.Scanning? || a.Collecting? || a.Retiring?
    ensures NoCounters(Holdings(a))
  {
    hide Nodes, Owneds, Pins, Freshes;
    match a
    case Reaping(queue) => Batches(queue, []);
    case Checking(queue, _) => Batches(queue, []);
    case Disposing(nodes, queue) => Batches(queue, []); Batches(nodes, []);
    case Scanning(ts) => Batches([], ts);
    case Collecting(ts) => Batches([], ts);
    case Retiring(ts) => Batches([], ts);
  }

  lemma {:induction false} CountersHeld(a: Activity)
    ensures var H := Holdings(a);
            && H[Slot] == (if HasSlot(a) then 1 else 0)
            && H[SlotWait] == (if AwaitsSlot(a) then 1 else 0)
            && H[PoolWait] == (if AwaitsInstance(a) then 1 else 0)
  {
    hide Nodes, Owneds, Pins, Freshes;
    if a.Reaping? || a.Checking? || a.Disposing? || a.Scanning? || a.Collecting? || a.Retiring? {
      hide Holdings;
      BatchCounters(a);
    }
  }

  lemma {:induction false} CountersCounted(threads: seq<Activity>)
    ensures All(threads)[Slot] == HowMany(threads, HasSlot)
    ensures All(threads)[SlotWait] == HowMany(threads, AwaitsSlot)
    ensures All(threads)[PoolWait] == HowMany(threads, AwaitsInstance)
  {
    hide Holdings;
    if threads != [] {
      CountersHeld(threads[0]);
      CountersCounted(threads[1..]);
    }
  }

  /** slots_used counts the admitted invocations that have not released, within the
      configured maximum, and both waiter counters count the blocked threads. */
  lemma {:induction false} CountersExact(cfg: Config, n: nat, schedule: seq<(nat, Action)>)
    ensures var s := Run(cfg, n, schedule);
            && s.world.gate.used == HowMany(s.threads, HasSlot) <= cfg.Slots()
            && s.world.gate.waiting == HowMany(s.threads, AwaitsSlot)
            && s.world.pool.waiters == HowMany(s.threads, AwaitsInstance)
  {
    AlwaysSafe(cfg, n, schedule);
    CountersCounted(Run(cfg, n, schedule).threads);
  }

  /** Nothing dead is ever touched, and each descriptor's counter is the number of
      table slots, selection views, pooled instances and threads that refer to it. */
  lemma {:induction false} ReferencesExact(cfg: Config, n: nat, schedule: seq<(nat, Action)>, t: Tool)
    ensures var s := Run(cfg, n, schedule);
            var holders := Shared(s.world)[t] + All(s.threads)[Pin(t)] + All(s.threads)[Fresh(t)];
            && !s.world.fault && !s.world.refs.fault
            && (t in s.world.refs.counts <==> holders > 0)
            && (t in s.world.refs.counts ==> s.world.refs.counts[t] == holders)
            && (t in s.world.created && holders == 0 <==> t in s.world.refs.destroyed)
  {
    AlwaysSafe(cfg, n, schedule);
  }

  ghost predicate Quiet(s: System) { forall i :: 0 <= i < |s.threads| ==> s.threads[i].Idle? }

  /** When no thread is at work every counter is back where it started. */
  lemma {:induction false} QuietHoldsNothing(cfg: Config, n: nat, schedule: seq<(nat, Action)>)
    requires Quiet(Run(cfg, n, schedule))
    ensures var w := Run(cfg, n, schedule).world;
            && w.gate == Gate(0, 0) && w.pool.waiters == 0
            && (forall i :: 0 <= i < |w.pool.list| ==> w.pool.list[i].busy == 0)
            && (forall t :: t in w.refs.counts ==> w.refs.counts[t] == Shared(w)[t])
  {
    AlwaysSafe(cfg, n, schedule);
    AllIdle(Run(cfg, n, schedule).threads);
  }

  /** Once everything is closed every descriptor ever loaded has been destroyed exactly once. */
  lemma {:induction false} ClosedLeaksNothing(cfg: Config, n: nat, schedule: seq<(nat, Action)>)
    requires var s := Run(cfg, n, schedule);
             Quiet(s) && s.world.table == [] && s.world.views == multiset{} && s.world.pool.list == []
    ensures var w := Run(cfg, n, schedule).world;
            && w.refs.counts == map[]
            && (forall t :: t in w.created <==> t in w.refs.destroyed)
            && (forall i, j :: 0 <= i < j < |w.refs.destroyed| ==> w.refs.destroyed[i] != w.refs.destroyed[j])
  {
    AlwaysSafe(cfg, n, schedule);
    AllIdle(Run(cfg, n, schedule).threads);
  }
}
