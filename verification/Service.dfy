/** Who is served, over every run: when a turn of an acquisition ends with an instance or with a
    slot, in terms of the threads and what they hold. */
module Service {
  import opened Text
  import opened Pool
  import opened Admission
  import opened Runtime
  import opened RuntimePool
  import opened RuntimeRuns

  // ---- instances -----------------------------------------------------------------------------

  /** An instance that invocations of t by that kind may use: of its package, and for a process
      of its very content. */
  predicate Fits(p: Instance, kind: Kind, t: Tool) {
    p.node.key.kind == kind && p.node.tool.dir == t.dir && (kind == Process ==> p.node.tool.content == t.content)
  }

  ghost predicate SomeHolds(threads: seq<Activity>, h: Handle) {
    exists j :: 0 <= j < |threads| && Node(h) in Holdings(threads[j])
  }

  /** A fitting instance that no thread holds, or one that is shared. */
  ghost predicate Free(s: System, kind: Kind, t: Tool, k: nat) {
    && k < |s.world.pool.list| && Fits(s.world.pool.list[k], kind, t)
    && (kind == Library || !SomeHolds(s.threads, s.world.pool.list[k].node))
  }

  ghost predicate NoneFree(s: System, kind: Kind, t: Tool) {
    forall k: nat :: !Free(s, kind, t, k)
  }

  ghost function Places(list: seq<Instance>, kind: Kind, t: Tool): set<nat> {
    set k: nat | k < |list| && Fits(list[k], kind, t)
  }

  /** The manifest's parallel field, or one. */
  function Share(cfg: Config, t: Tool): nat { if cfg.parallel(t.content) > 0 then cfg.parallel(t.content) else 1 }

  // ---- the list in those terms -----------------------------------------------------------------

  lemma {:induction false} FitsExactly(cfg: Config, w: World, H: multiset<Resource>, k: nat, kind: Kind, t: Tool)
    requires Inv(cfg, w, H) && k < |w.pool.list|
    ensures w.pool.list[k].node.key == KeyOf(kind, t) <==> Fits(w.pool.list[k], kind, t)
    ensures w.pool.list[k].busy == H[Node(w.pool.list[k].node)]
  {
    hide GateOk, Bounded, OwnedOk, RefsOk;
    assert InstanceOk(w.pool.list[k], w.nextNode, w.freed, H);
  }

  lemma {:induction false} CountPlaces(list: seq<Instance>, key: Key, kind: Kind, t: Tool)
    requires forall k :: 0 <= k < |list| ==> (list[k].node.key == key <==> Fits(list[k], kind, t))
    ensures CountKey(list, key) == |Places(list, kind, t)|
  {
    if list == [] {
      assert Places(list, kind, t) == {};
    } else {
      var n := |list| - 1;
      forall k | 0 <= k < n
        ensures list[..n][k].node.key == key <==> Fits(list[..n][k], kind, t)
      {
        assert list[..n][k] == list[k];
      }
      CountPlaces(list[..n], key, kind, t);
      OnePlace(list, n, kind, t);
      hide Fits, Places;
    }
  }

  lemma {:induction false} OnePlace(list: seq<Instance>, n: nat, kind: Kind, t: Tool)
    requires |list| == n + 1
    ensures |Places(list, kind, t)| == |Places(list[..n], kind, t)| + if Fits(list[n], kind, t) then 1 else 0
  {
    hide Fits;
    var before, after := Places(list[..n], kind, t), Places(list, kind, t);
    assert after == if Fits(list[n], kind, t) then before + {n} else before;
  }

  lemma {:induction false} HeldExactly(threads: seq<Activity>, r: Resource)
    ensures r in All(threads) <==> exists j :: 0 <= j < |threads| && r in Holdings(threads[j])
  {
    hide Holdings;
    if threads != [] {
      HeldExactly(threads[1..], r);
      if j :| 0 <= j < |threads[1..]| && r in Holdings(threads[1..][j]) {
        assert threads[j + 1] == threads[1..][j];
      }
      if j :| 0 <= j < |threads| && r in Holdings(threads[j]) {
        assert j > 0 ==> threads[1..][j - 1] == threads[j];
      }
    }
  }

  lemma {:induction false} FreeExactly(cfg: Config, s: System, kind: Kind, t: Tool, k: nat)
    requires Inv(cfg, s.world, All(s.threads)) && k < |s.world.pool.list|
    ensures Free(s, kind, t, k) <==> Takeable(s.world.pool.list[k], KeyOf(kind, t))
  {
    FitsExactly(cfg, s.world, All(s.threads), k, kind, t);
    HeldExactly(s.threads, Node(s.world.pool.list[k].node));
    hide Inv, All, Holdings, Fits;
  }

  lemma {:induction false} ListRead(cfg: Config, s: System, kind: Kind, t: Tool)
    requires Inv(cfg, s.world, All(s.threads))
    ensures var list := s.world.pool.list;
            && CountKey(list, KeyOf(kind, t)) == |Places(list, kind, t)| && |list| <= 64
            && (LastTakeable(list, KeyOf(kind, t)).None? <==> NoneFree(s, kind, t))
            && (LastTakeable(list, KeyOf(kind, t)).Some? ==> Free(s, kind, t, LastTakeable(list, KeyOf(kind, t)).value))
  {
    var list, key := s.world.pool.list, KeyOf(kind, t);
    assert |list| <= 64;
    hide Inv, All, Free, Takeable, Fits;
    forall k | 0 <= k < |list|
      ensures list[k].node.key == key <==> Fits(list[k], kind, t)
      ensures Free(s, kind, t, k) <==> Takeable(list[k], key)
    {
      FitsExactly(cfg, s.world, All(s.threads), k, kind, t);
      FreeExactly(cfg, s, kind, t, k);
    }
    CountPlaces(list, key, kind, t);
    FreeInside(s, kind, t);
  }

  lemma {:induction false} FreeInside(s: System, kind: Kind, t: Tool)
    ensures forall k: nat :: Free(s, kind, t, k) ==> k < |s.world.pool.list|
  {
  }

  // ---- a turn for an instance ----------------------------------------------------------------------

  /** Reached by some schedule, with thread i asking for an instance. */
  ghost predicate Asks(cfg: Config, s: System, i: nat, t: Tool, kind: Kind) {
    Safe(cfg, s) && i < |s.threads| && s.threads[i].PoolQueue? && s.threads[i].t == t && s.threads[i].kind == kind
  }

  /** Nothing free, and no room under the manifest's limit or in the pool. */
  ghost predicate Crowded(cfg: Config, s: System, kind: Kind, t: Tool) {
    NoneFree(s, kind, t) && (|Places(s.world.pool.list, kind, t)| >= Share(cfg, t) || |s.world.pool.list| >= 64)
  }

  /** A library is waited for without a deadline. */
  ghost predicate GivenUp(kind: Kind, cancelled: bool, late: bool) { kind == Process && (cancelled || late) }

  /** Something is free, or there is room and memory for a new instance. */
  ghost predicate Served(cfg: Config, s: System, kind: Kind, t: Tool, cancelled: bool, late: bool, memory: bool) {
    !GivenUp(kind, cancelled, late) && (!NoneFree(s, kind, t) || (!Crowded(cfg, s, kind, t) && memory))
  }

  /** Nothing is free and the manifest's limit is reached. */
  ghost predicate Waits(cfg: Config, s: System, kind: Kind, t: Tool, cancelled: bool, late: bool) {
    !GivenUp(kind, cancelled, late) && NoneFree(s, kind, t) && |Places(s.world.pool.list, kind, t)| >= Share(cfg, t)
  }

  /** One turn of a thread that asks, read off the list. */
  lemma {:induction false} TurnReads(cfg: Config, s: System, i: nat, t: Tool, kind: Kind, cancelled: bool, late: bool, memory: bool)
    requires i < |s.threads| && s.threads[i].PoolQueue? && s.threads[i].t == t && s.threads[i].kind == kind
    ensures var list, taken := s.world.pool.list, LastTakeable(s.world.pool.list, KeyOf(kind, t));
            var r := Advance(cfg, s, i, TryPool(cancelled, late, memory));
            && |r.threads| == |s.threads|
            && if GivenUp(kind, cancelled, late) then r.threads[i].Leaving?
               else if taken.Some? then
                 && r.threads[i] == Holding(t, list[taken.value].node)
                 && r.world.pool.list == list[taken.value := list[taken.value].(busy := list[taken.value].busy + 1)]
               else if CountKey(list, KeyOf(kind, t)) >= Share(cfg, t) then r.threads[i].PoolQueue?
               else if |list| >= 64 || !memory then r.threads[i].Leaving?
               else
                 && r.threads[i] == Holding(t, Handle(s.world.nextNode, KeyOf(kind, t), t))
                 && r.world.pool.list == [Instance(Handle(s.world.nextNode, KeyOf(kind, t), t), 1)] + list
  {
    hide CountKey, LastTakeable, Takeable;
  }

  lemma {:induction false} TurnServes(cfg: Config, s: System, i: nat, t: Tool, kind: Kind, cancelled: bool, late: bool, memory: bool)
    requires Asks(cfg, s, i, t, kind)
    ensures var a := Advance(cfg, s, i, TryPool(cancelled, late, memory)).threads;
            && |a| == |s.threads|
            && (a[i].Holding? <==> Served(cfg, s, kind, t, cancelled, late, memory))
            && (a[i].PoolQueue? <==> Waits(cfg, s, kind, t, cancelled, late))
  {
    ListRead(cfg, s, kind, t);
    TurnReads(cfg, s, i, t, kind, cancelled, late, memory);
    hide Inv, All, NoneFree, Free, Places, CountKey, LastTakeable, Advance, GivenUp, Share, KeyOf;
  }

  /** Over every run, when asking for an instance ends with one. A turn that is neither
      cancelled nor late (a library waits for neither) is served if and only if an instance of
      the package that nobody holds is there, or memory allows a new one and both the
      manifest's limit and the pool have room. Otherwise it waits exactly when the manifest's
      limit is reached. */
  lemma {:induction false} ServedExactly(cfg: Config, n: nat, schedule: seq<(nat, Action)>, i: nat, t: Tool, kind: Kind,
                                         cancelled: bool, late: bool, memory: bool)
    requires var s := Run(cfg, n, schedule); i < |s.threads| && s.threads[i].PoolQueue? && s.threads[i].t == t && s.threads[i].kind == kind
    ensures var s := Run(cfg, n, schedule);
            var a := Run(cfg, n, schedule + [(i, TryPool(cancelled, late, memory))]).threads;
            && |a| == |s.threads|
            && (a[i].Holding? <==> Served(cfg, s, kind, t, cancelled, late, memory))
            && (a[i].PoolQueue? <==> Waits(cfg, s, kind, t, cancelled, late))
  {
    AlwaysSafe(cfg, n, schedule);
    NextTurn(cfg, n, schedule, i, TryPool(cancelled, late, memory));
    hide Run, Advance, Served, Waits, Inv;
    TurnServes(cfg, Run(cfg, n, schedule), i, t, kind, cancelled, late, memory);
  }

  lemma {:induction false} NextTurn(cfg: Config, n: nat, schedule: seq<(nat, Action)>, i: nat, act: Action)
    ensures Run(cfg, n, schedule + [(i, act)]) == Advance(cfg, Run(cfg, n, schedule), i, act)
  {
    assert (schedule + [(i, act)])[..|schedule|] == schedule;
  }

  /** An empty pool serves whoever has memory. */
  lemma {:induction false} EmptyPoolServes(cfg: Config, n: nat, schedule: seq<(nat, Action)>, i: nat, cancelled: bool, late: bool)
    requires var s := Run(cfg, n, schedule); i < |s.threads| && s.threads[i].PoolQueue? && s.world.pool.list == []
    requires !GivenUp(Run(cfg, n, schedule).threads[i].kind, cancelled, late)
    ensures var a := Run(cfg, n, schedule + [(i, TryPool(cancelled, late, true))]).threads;
            |a| == |Run(cfg, n, schedule).threads| && a[i].Holding?
  {
    var s := Run(cfg, n, schedule);
    var t, kind := s.threads[i].t, s.threads[i].kind;
    ServedExactly(cfg, n, schedule, i, t, kind, cancelled, late, true);
    assert Places(s.world.pool.list, kind, t) == {};
  }

  /** From one list to the next, the instance h is handed out: a new one of the tool itself
      in front, if nothing was free; else a free one, which stays where it is. */
  ghost predicate HandsOut(s: System, now: seq<Instance>, h: Handle, kind: Kind, t: Tool) {
    var was := s.world.pool.list;
    if NoneFree(s, kind, t) then
      |now| == |was| + 1 && now[1..] == was && now[0].node == h && h.tool == t && h.key.kind == kind
      && forall k :: 0 <= k < |was| ==> was[k].node.id != h.id
    else
      |now| == |was| && (forall k :: 0 <= k < |was| ==> now[k].node == was[k].node)
      && exists k: nat :: Free(s, kind, t, k) && k < |was| && was[k].node == h
  }

  lemma {:induction false} HandsOutNew(s: System, now: seq<Instance>, p: Instance, kind: Kind, t: Tool)
    requires NoneFree(s, kind, t) && now == [p] + s.world.pool.list && p.node.tool == t && p.node.key.kind == kind
    requires forall k :: 0 <= k < |s.world.pool.list| ==> s.world.pool.list[k].node.id < p.node.id
    ensures HandsOut(s, now, p.node, kind, t)
  {
    hide NoneFree;
  }

  lemma {:induction false} HandsOutOld(s: System, now: seq<Instance>, k: nat, p: Instance, kind: Kind, t: Tool)
    requires Free(s, kind, t, k) && k < |s.world.pool.list| && now == s.world.pool.list[k := p] && p.node == s.world.pool.list[k].node
    ensures HandsOut(s, now, p.node, kind, t)
  {
    hide Free;
  }

  lemma {:induction false} TurnHandsOut(cfg: Config, s: System, i: nat, t: Tool, kind: Kind, cancelled: bool, late: bool, memory: bool)
    requires Asks(cfg, s, i, t, kind)
    ensures var r := Advance(cfg, s, i, TryPool(cancelled, late, memory));
            i < |r.threads| && (r.threads[i].Holding? ==> HandsOut(s, r.world.pool.list, r.threads[i].node, kind, t))
  {
    ListRead(cfg, s, kind, t);
    NewIdentity(cfg, s.world, All(s.threads));
    TurnReads(cfg, s, i, t, kind, cancelled, late, memory);
    var r := Advance(cfg, s, i, TryPool(cancelled, late, memory));
    var list, taken := s.world.pool.list, LastTakeable(s.world.pool.list, KeyOf(kind, t));
    assert taken.Some? ==> taken.value < |list|;
    hide *;
    if r.threads[i].Holding? {
      if taken.Some? {
        HandsOutOld(s, r.world.pool.list, taken.value, r.world.pool.list[taken.value], kind, t);
      } else {
        HandsOutNew(s, r.world.pool.list, r.world.pool.list[0], kind, t);
      }
    }
  }

  /** Over every run, what a turn that is served ends with. */
  lemma {:induction false} ServedWith(cfg: Config, n: nat, schedule: seq<(nat, Action)>, i: nat, t: Tool, kind: Kind,
                                      cancelled: bool, late: bool, memory: bool)
    requires var s := Run(cfg, n, schedule); i < |s.threads| && s.threads[i].PoolQueue? && s.threads[i].t == t && s.threads[i].kind == kind
    ensures var s, r := Run(cfg, n, schedule), Run(cfg, n, schedule + [(i, TryPool(cancelled, late, memory))]);
            i < |r.threads| && (r.threads[i].Holding? ==> HandsOut(s, r.world.pool.list, r.threads[i].node, kind, t))
  {
    AlwaysSafe(cfg, n, schedule);
    NextTurn(cfg, n, schedule, i, TryPool(cancelled, late, memory));
    hide Run, Advance, HandsOut, Inv;
    TurnHandsOut(cfg, Run(cfg, n, schedule), i, t, kind, cancelled, late, memory);
  }

  lemma {:induction false} NewIdentity(cfg: Config, w: World, H: multiset<Resource>)
    requires Inv(cfg, w, H)
    ensures forall k :: 0 <= k < |w.pool.list| ==> w.pool.list[k].node.id < w.nextNode
  {
    hide GateOk, Bounded, OwnedOk, RefsOk;
    forall k | 0 <= k < |w.pool.list|
      ensures w.pool.list[k].node.id < w.nextNode
    {
      assert InstanceOk(w.pool.list[k], w.nextNode, w.freed, H);
    }
  }

  // ---- a turn for a slot -------------------------------------------------------------------------------

  /** max_concurrent, or one. */
  function Slots(cfg: Config): nat { if cfg.maxConcurrent > 0 then cfg.maxConcurrent else 1 }

  /** Over every run, a turn at the gate that is neither cancelled nor late enters if and only
      if fewer threads than the maximum are between entering and leaving; with none left it
      waits, or is refused where no thread may block. */
  lemma {:induction false} AdmittedExactly(cfg: Config, n: nat, schedule: seq<(nat, Action)>, i: nat, cancelled: bool, late: bool)
    requires var s := Run(cfg, n, schedule); i < |s.threads| && s.threads[i].SlotQueue?
    ensures var s := Run(cfg, n, schedule);
            var a := Run(cfg, n, schedule + [(i, TrySlot(cancelled, late))]).threads;
            var room := HowMany(s.threads, HasSlot) < Slots(cfg);
            && |a| == |s.threads|
            && (a[i].Admitted? <==> !cancelled && !late && room)
            && (a[i].SlotQueue? <==> !cancelled && !late && !room && !cfg.noThreads)
  {
    CountersExact(cfg, n, schedule);
    NextTurn(cfg, n, schedule, i, TrySlot(cancelled, late));
    hide Run, HowMany;
  }
}
