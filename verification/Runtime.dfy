/** The runtime as a step machine: any number of threads run invocations,
    supervision passes, registry scans and discoveries, and every region under
    pp_mu, slot_mu, the table lock or the reference lock is one atomic step. */
module Runtime {
  import opened Text
  import opened Pool
  import opened Admission

  /** parallel gives the manifest's parallel field; content determines the manifest. */
  datatype Config = Config(maxConcurrent: int, noThreads: bool, parallel: Digest -> int) {
    function Slots(): nat { if maxConcurrent > 0 then maxConcurrent else 1 }

    function Limit(content: Digest): nat { if parallel(content) > 0 then parallel(content) else 1 }

    /** How many instances may share a key. */
    function Cap(key: Key): nat {
      if key.kind == Library || key.content.None? then 1 else Limit(key.content.value)
    }
  }

  /** created, freed and fault are history: every descriptor ever loaded, every
      instance already freed, and whether anything dead was ever touched. */
  datatype World = World(
    pool: State, gate: Gate, refs: References, table: seq<Tool>, views: multiset<Tool>,
    created: set<Tool>, freed: set<nat>, nextTool: nat, nextNode: nat, fault: bool)

  /** Where a thread stands between two steps. */
  datatype Activity =
    | Idle
    // astools_invoke_impl
    | Resolved(t: Tool)
    | SlotQueue(t: Tool, waiting: bool)
    | Admitted(t: Tool)
    | Rechecking(t: Tool, current: Tool)
    | Dispatching(t: Tool)
    | PoolQueue(t: Tool, kind: Kind, waiting: bool)
    | Holding(t: Tool, node: Handle)
    | Validating(t: Tool, node: Handle, current: Tool)
    | Leaving(t: Tool)
    | Unslotted(t: Tool)
    // worker_pass and astools_worker_stop
    | Reaping(queue: seq<Handle>)
    | Checking(queue: seq<Handle>, current: Tool)
    | Disposing(nodes: seq<Handle>, queue: seq<Handle>)
    // astools_registry_scan, astools_discover, ctx_free
    | Scanning(candidates: seq<Tool>)
    | Collecting(tools: seq<Tool>)
    | Retiring(tools: seq<Tool>)

  /** The next step of a thread, with everything the environment decides. */
  datatype Action =
    | Resolve(k: nat)
    | Fail
    | Proceed
    | Finish
    | TrySlot(cancelled: bool, late: bool)
    | Borrow(kind: Kind)
    | TryPool(cancelled: bool, late: bool, memory: bool)
    | Sweep
    | Keep
    | Discard
    | Scan
    | Load(dir: string, content: Digest)
    | Publish
    | Collect
    | View(j: nat)
    | FreeView(t: Tool)
    | CloseWorker
    | CloseTable

  // ---- primitive effects --------------------------------------------------------------

  function Acquired(w: World, t: Tool): World { w.(refs := Ref(w.refs, t)) }

  function Dropped(w: World, t: Tool): World { w.(refs := Unref(w.refs, t)) }

  function Returned(w: World, h: Handle): World {
    if Find(w.pool.list, h.id).Some? then w.(pool := Release(w.pool, h.id)) else w.(fault := true)
  }

  function Unpinned(w: World, h: Handle): World {
    if Find(w.pool.list, h.id).Some? then w.(pool := Unpin(w.pool, h.id)) else w.(fault := true)
  }

  /** astools_pp_node_free: the memory goes and the descriptor's reference with it.
      Freeing a linked or already freed instance is a fault. */
  function Freed(w: World, h: Handle): World {
    if Find(w.pool.list, h.id).Some? || h.id in w.freed then w.(fault := true)
    else Dropped(w, h.tool).(freed := w.freed + {h.id})
  }

  function Loaded(w: World, t: Tool): World {
    w.(refs := Admission.Load(w.refs, t), created := w.created + {t}, nextTool := w.nextTool + 1)
  }

  function PoolTurn(cfg: Config, w: World, t: Tool, kind: Kind, waiting: bool,
                    cancelled: bool, late: bool, memory: bool): (Outcome, World)
  {
    var (r, pool) := Turn(w.pool, KeyOf(kind, t), cfg.Limit(t.content), t, w.nextNode, memory, cancelled, late, waiting);
    if r.Granted? && r.created then (r, Acquired(w, t).(pool := pool, nextNode := w.nextNode + 1))
    else (r, w.(pool := pool))
  }

  function Handles(list: seq<Instance>): (hs: seq<Handle>)
    ensures |hs| == |list| && forall i :: 0 <= i < |hs| ==> hs[i] == list[i].node
  {
    seq(|list|, i requires 0 <= i < |list| => list[i].node)
  }

  // ---- steps --------------------------------------------------------------------------

  /** Steps of one invocation, from its first pin to its last release. */
  function InvocationStep(cfg: Config, w: World, a: Activity, act: Action): Option<(World, Activity)> {
    match (a, act)
    case (Resolved(t), Fail) => Some((w, Unslotted(t)))
    case (Resolved(t), Proceed) => Some((w, SlotQueue(t, false)))
    case (SlotQueue(t, waiting), TrySlot(cancelled, late)) =>
      var (r, gate) := Admit(w.gate, cfg.Slots(), cancelled, late, cfg.noThreads, waiting);
      Some((w.(gate := gate), if r == Entered then Admitted(t) else if r == Queued then SlotQueue(t, true) else Unslotted(t)))
    case (Admitted(t), Fail) => Some((w, Leaving(t)))
    case (Admitted(t), Resolve(k)) =>
      if k < |w.table| then Some((Acquired(w, w.table[k]), Rechecking(t, w.table[k]))) else None
    case (Rechecking(t, current), _) =>
      Some((Dropped(w, current),
            if act == Proceed && current.content == t.content then Dispatching(t) else Leaving(t)))
    case (Dispatching(t), Borrow(kind)) =>
      if kind == Process && cfg.noThreads then None else Some((w, PoolQueue(t, kind, false)))
    case (Dispatching(t), Finish) => Some((w, Leaving(t)))
    case (PoolQueue(t, kind, waiting), TryPool(cancelled, late, memory)) =>
      var timed := kind == Process;
      var (r, w') := PoolTurn(cfg, w, t, kind, waiting, timed && cancelled, timed && late, memory);
      Some((w', if r.Granted? then Holding(t, r.node) else if r == MustWait then PoolQueue(t, kind, true) else Leaving(t)))
    case (Holding(t, h), Resolve(k)) =>
      if k < |w.table| then Some((Acquired(w, w.table[k]), Validating(t, h, w.table[k]))) else None
    case (Validating(t, h, current), _) => Some((Dropped(w, current), Holding(t, h)))
    case (Holding(t, h), Finish) => Some((Returned(w, h).(refs := Touch(w.refs, h.tool)), Leaving(t)))
    case (Leaving(t), Finish) => Some((w.(gate := Leave(w.gate)), Unslotted(t)))
    case (Unslotted(t), Finish) => Some((Dropped(w, t), Idle))
    case _ => None
  }

  /** Steps of a supervision pass, and of disposing unlinked instances. */
  function ReaperStep(w: World, a: Activity, act: Action): Option<(World, Activity)> {
    match (a, act)
    case (Reaping(queue), Resolve(k)) =>
      if queue == [] || k >= |w.table| then None
      else Some((Acquired(w.(refs := Touch(w.refs, queue[0].tool)), w.table[k]), Checking(queue, w.table[k])))
    case (Checking(queue, current), _) => Some((Dropped(w, current), Reaping(queue)))
    case (Reaping(queue), Keep) =>
      if queue == [] then None else Some((Unpinned(w, queue[0]), Reaping(queue[1..])))
    case (Reaping(queue), Discard) =>
      if queue == [] then None
      else Some((w.(pool := Unlink(w.pool, queue[0].id)), Disposing([queue[0]], queue[1..])))
    case (Reaping(queue), Finish) => if queue == [] then Some((w, Idle)) else None
    case (Disposing(nodes, queue), Finish) =>
      if nodes == [] then Some((w, Reaping(queue)))
      else Some((Freed(w, nodes[0]), Disposing(nodes[1..], queue)))
    case _ => None
  }

  /** Steps of scans and discoveries, and of dropping a batch of references. */
  function TableStep(w: World, a: Activity, act: Action): Option<(World, Activity)> {
    match (a, act)
    case (Scanning(ts), Load(dir, content)) =>
      var t := Tool(w.nextTool, dir, content);
      Some((Loaded(w, t), Scanning(ts + [t])))
    case (Scanning(ts), Discard) =>
      if ts == [] then None
      else Some((w.(refs := Destroy(w.refs, ts[|ts| - 1])), Scanning(ts[..|ts| - 1])))
    case (Scanning(ts), Fail) => if ts == [] then Some((w, Idle)) else None
    case (Scanning(ts), Publish) => Some((w.(table := ts), Retiring(w.table)))
    case (Collecting(ts), Resolve(k)) =>
      if k >= |w.table| then None else Some((Acquired(w, w.table[k]), Collecting(ts + [w.table[k]])))
    case (Collecting(ts), View(j)) =>
      if j >= |ts| then None else Some((Acquired(w, ts[j]).(views := w.views + multiset{ts[j]}), a))
    case (Collecting(ts), Finish) => Some((w, Retiring(ts)))
    case (Retiring(ts), Finish) =>
      if ts == [] then Some((w, Idle)) else Some((Dropped(w, ts[0]), Retiring(ts[1..])))
    case _ => None
  }

  /** What an idle thread may start. Closing demands that every other thread is idle. */
  function StartStep(w: World, act: Action, quiet: bool): Option<(World, Activity)> {
    match act
    case Resolve(k) => if k < |w.table| then Some((Acquired(w, w.table[k]), Resolved(w.table[k]))) else None
    case Sweep => var (pool, nodes) := PinAll(w.pool); Some((w.(pool := pool), Reaping(nodes)))
    case Scan => Some((w, Scanning([])))
    case Collect => Some((w, Collecting([])))
    case FreeView(t) =>
      if t in w.views then Some((Dropped(w, t).(views := w.views - multiset{t}), Idle)) else None
    case CloseWorker =>
      if quiet then Some((w.(pool := Drain(w.pool)), Disposing(Handles(w.pool.list), []))) else None
    case CloseTable => if quiet then Some((w.(table := []), Retiring(w.table))) else None
    case _ => None
  }

  function Step(cfg: Config, w: World, a: Activity, act: Action, quiet: bool): Option<(World, Activity)> {
    match a
    case Idle => StartStep(w, act, quiet)
    case Reaping(_) => ReaperStep(w, a, act)
    case Checking(_, _) => ReaperStep(w, a, act)
    case Disposing(_, _) => ReaperStep(w, a, act)
    case Scanning(_) => TableStep(w, a, act)
    case Collecting(_) => TableStep(w, a, act)
    case Retiring(_) => TableStep(w, a, act)
    case _ => InvocationStep(cfg, w, a, act)
  }

  // ---- runs ---------------------------------------------------------------------------

  datatype System = System(world: World, threads: seq<Activity>)

  const EMPTY_WORLD := World(State([], 0, 0), Gate(0, 0), References(map[], [], false), [], multiset{}, {}, {}, 0, 0, false)

  function Initial(n: nat): System { System(EMPTY_WORLD, seq(n, _ => Idle)) }

  predicate OthersIdle(threads: seq<Activity>, i: nat) {
    forall j :: 0 <= j < |threads| && j != i ==> threads[j].Idle?
  }

  /** Thread i takes a step if it can. */
  function Advance(cfg: Config, s: System, i: nat, act: Action): System {
    if i >= |s.threads| then s
    else match Step(cfg, s.world, s.threads[i], act, OthersIdle(s.threads, i))
      case None => s
      case Some((w, a)) => System(w, s.threads[i := a])
  }

  /** n threads under an arbitrary schedule. */
  function Run(cfg: Config, n: nat, schedule: seq<(nat, Action)>): System {
    if schedule == [] then Initial(n)
    else
      var (i, act) := schedule[|schedule| - 1];
      Advance(cfg, Run(cfg, n, schedule[..|schedule| - 1]), i, act)
  }

  // ---- what threads hold ----------------------------------------------------------------

  /** Pin is a counted reference; Fresh the only reference to an unpublished
      descriptor; Node a busy count on a linked instance; Owned an unlinked one. */
  datatype Resource = Pin(t: Tool) | Fresh(t: Tool) | Node(h: Handle) | Owned(h: Handle) | Slot | SlotWait | PoolWait

  ghost function If(b: bool, r: Resource): multiset<Resource> { if b then multiset{r} else multiset{} }

  ghost function Pins(ts: seq<Tool>): multiset<Resource> {
    if ts == [] then multiset{} else multiset{Pin(ts[0])} + Pins(ts[1..])
  }

  ghost function Freshes(ts: seq<Tool>): multiset<Resource> {
    if ts == [] then multiset{} else multiset{Fresh(ts[0])} + Freshes(ts[1..])
  }

  ghost function Nodes(hs: seq<Handle>): multiset<Resource> {
    if hs == [] then multiset{} else multiset{Node(hs[0])} + Nodes(hs[1..])
  }

  /** An unlinked instance still owns a reference to its descriptor. */
  ghost function Owneds(hs: seq<Handle>): multiset<Resource> {
    if hs == [] then multiset{} else multiset{Owned(hs[0]), Pin(hs[0].tool)} + Owneds(hs[1..])
  }

  ghost function Holdings(a: Activity): multiset<Resource> {
    match a
    case Idle => multiset{}
    case Resolved(t) => multiset{Pin(t)}
    case SlotQueue(t, waiting) => multiset{Pin(t)} + If(waiting, SlotWait)
    case Admitted(t) => multiset{Pin(t)} + multiset{Slot}
    case Rechecking(t, current) => multiset{Pin(t)} + multiset{Slot} + multiset{Pin(current)}
    case Dispatching(t) => multiset{Pin(t)} + multiset{Slot}
    case PoolQueue(t, _, waiting) => multiset{Pin(t)} + multiset{Slot} + If(waiting, PoolWait)
    case Holding(t, h) => multiset{Pin(t)} + multiset{Slot} + multiset{Node(h)}
    case Validating(t, h, current) => multiset{Pin(t)} + multiset{Slot} + multiset{Node(h)} + multiset{Pin(current)}
    case Leaving(t) => multiset{Pin(t)} + multiset{Slot}
    case Unslotted(t) => multiset{Pin(t)}
    case Reaping(queue) => Nodes(queue)
    case Checking(queue, current) => Nodes(queue) + multiset{Pin(current)}
    case Disposing(nodes, queue) => Owneds(nodes) + Nodes(queue)
    case Scanning(ts) => Freshes(ts)
    case Collecting(ts) => Pins(ts)
    case Retiring(ts) => Pins(ts)
  }

  ghost function All(threads: seq<Activity>): multiset<Resource> {
    if threads == [] then multiset{} else Holdings(threads[0]) + All(threads[1..])
  }

  // ---- the invariant -----------------------------------------------------------------

  ghost predicate GateOk(cfg: Config, g: Gate, H: multiset<Resource>) {
    g.used == H[Slot] <= cfg.Slots() && g.waiting == H[SlotWait]
  }

  /** References of pooled instances to their descriptors. */
  ghost function Tools(list: seq<Instance>): multiset<Tool> {
    if list == [] then multiset{} else Tools(list[..|list| - 1]) + multiset{list[|list| - 1].node.tool}
  }

  ghost predicate Linked(list: seq<Instance>, h: Handle) { exists i :: 0 <= i < |list| && list[i].node == h }

  ghost predicate InstanceOk(p: Instance, nextNode: nat, freed: set<nat>, H: multiset<Resource>) {
    && p.node.id < nextNode && p.node.id !in freed
    && p.node.key == KeyOf(p.node.key.kind, p.node.tool)
    && p.busy == H[Node(p.node)]
    && (p.node.key.kind == Process ==> p.busy <= 1)
  }

  ghost predicate ListOk(list: seq<Instance>, nextNode: nat, freed: set<nat>, H: multiset<Resource>) {
    && (forall i :: 0 <= i < |list| ==> InstanceOk(list[i], nextNode, freed, H))
    && (forall i, j :: 0 <= i < j < |list| ==> list[i].node.id != list[j].node.id)
    && (forall h :: Node(h) in H ==> Linked(list, h))
  }

  ghost predicate OwnedOk(list: seq<Instance>, nextNode: nat, freed: set<nat>, H: multiset<Resource>) {
    && (forall id :: id in freed ==> id < nextNode)
    && (forall h :: Owned(h) in H ==> H[Owned(h)] == 1 && h.id < nextNode && h.id !in freed && Find(list, h.id).None?)
    && (forall h, k :: Owned(h) in H && Owned(k) in H && h.id == k.id ==> h == k)
  }

  ghost predicate Bounded(cfg: Config, list: seq<Instance>) {
    |list| <= INSTANCE_LIMIT && forall key :: CountKey(list, key) <= cfg.Cap(key)
  }

  ghost predicate PoolOk(cfg: Config, w: World, H: multiset<Resource>) {
    && w.pool.count == |w.pool.list| && w.pool.waiters == H[PoolWait]
    && Bounded(cfg, w.pool.list)
    && ListOk(w.pool.list, w.nextNode, w.freed, H)
    && OwnedOk(w.pool.list, w.nextNode, w.freed, H)
  }

  /** References to t from the table, selection views and pooled instances. */
  ghost function Shared(w: World): multiset<Tool> { multiset(w.table) + w.views + Tools(w.pool.list) }

  /** A descriptor's counter is the number of its holders; it is destroyed once,
      when that number has reached zero. */
  ghost predicate RefsOk(r: References, created: set<Tool>, nextTool: nat, S: multiset<Tool>, H: multiset<Resource>) {
    && !r.fault
    && (forall t :: (if t in r.counts then r.counts[t] else 0) == S[t] + H[Pin(t)] + H[Fresh(t)])
    && (forall t :: t in r.counts ==> r.counts[t] > 0)
    && (forall t :: Fresh(t) in H ==> t in r.counts && r.counts[t] == 1)
    && (forall t :: t in created ==> t.address < nextTool)
    && (forall t :: t in created <==> t in r.counts || t in r.destroyed)
    && (forall t :: t in r.counts ==> t !in r.destroyed)
    && (forall i, j :: 0 <= i < j < |r.destroyed| ==> r.destroyed[i] != r.destroyed[j])
  }

  ghost predicate Inv(cfg: Config, w: World, H: multiset<Resource>) {
    && !w.fault
    && GateOk(cfg, w.gate, H)
    && PoolOk(cfg, w, H)
    && RefsOk(w.refs, w.created, w.nextTool, Shared(w), H)
  }

  /** What a thread knows about the instances it holds. */
  ghost predicate Proper(a: Activity) {
    match a
    case Holding(t, h) => h.key == KeyOf(h.key.kind, t)
    case Validating(t, h, _) => h.key == KeyOf(h.key.kind, t)
    case Reaping(queue) => AllProcess(queue)
    case Checking(queue, _) => AllProcess(queue)
    case Disposing(_, queue) => AllProcess(queue)
    case _ => true
  }

  ghost predicate AllProcess(hs: seq<Handle>) { forall i :: 0 <= i < |hs| ==> hs[i].key.kind == Process }
}
