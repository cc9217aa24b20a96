/** What a refused acquisition leaves behind, over every run. */
module Refusals {
  import opened Text
  import opened Pool
  import opened Admission
  import opened Runtime
  import opened RuntimeRuns

  /** The turn of an acquisition that ended it without a slot or an instance. */
  ghost predicate Refused(a: Activity, b: Activity) {
    (a.SlotQueue? && !b.SlotQueue? && !b.Admitted?) || (a.PoolQueue? && !b.PoolQueue? && !b.Holding?)
  }

  /** Where a thread stands f releases after acquisition a was refused: it gives back its slot,
      if it had one, and then its pin. */
  function Released(a: Activity, f: nat): Activity
    requires a.SlotQueue? || a.PoolQueue?
  {
    var n := if a.SlotQueue? then f + 1 else f;
    if n == 0 then Leaving(a.t) else if n == 1 then Unslotted(a.t) else Idle
  }

  /** How often thread i is scheduled to release something. */
  function Releases(schedule: seq<(nat, Action)>, i: nat): nat {
    if schedule == [] then 0
    else Releases(schedule[..|schedule| - 1], i) + if schedule[|schedule| - 1] == (i, Finish) then 1 else 0
  }

  /** Where thread i stands after a schedule. */
  function ThreadAfter(cfg: Config, n: nat, schedule: seq<(nat, Action)>, i: nat): Activity {
    var threads := Run(cfg, n, schedule).threads;
    if i < |threads| then threads[i] else Idle
  }

  /** Once idle, thread i begins nothing new in what follows the first m turns. */
  ghost predicate StartsNothing(cfg: Config, n: nat, schedule: seq<(nat, Action)>, i: nat, m: nat) {
    forall k :: m <= k < |schedule| && ThreadAfter(cfg, n, schedule[..k], i).Idle? ==> ThreadAfter(cfg, n, schedule[..k + 1], i).Idle?
  }

  lemma {:induction false} ThreadCount(cfg: Config, n: nat, schedule: seq<(nat, Action)>)
    ensures |Run(cfg, n, schedule).threads| == n
  {
    hide Step;
    if schedule != [] {
      var m := |schedule| - 1;
      ThreadCount(cfg, n, schedule[..m]);
      assert Run(cfg, n, schedule) == Advance(cfg, Run(cfg, n, schedule[..m]), schedule[m].0, schedule[m].1);
    }
  }

  /** A turn of the gate or of the pool that refuses. */
  lemma {:induction false} RefusedTurn(cfg: Config, w: World, a: Activity, act: Action, quiet: bool)
    requires Step(cfg, w, a, act, quiet).Some? && Refused(a, Step(cfg, w, a, act, quiet).value.1)
    ensures var (v, b) := Step(cfg, w, a, act, quiet).value;
            && b == Released(a, 0)
            && v == w.(gate := w.gate.(waiting := v.gate.waiting), pool := w.pool.(waiters := v.pool.waiters))
  {
  }

  /** A thread on its way out only releases. */
  lemma {:induction false} ReleasingTurn(cfg: Config, w: World, a: Activity, f: nat, act: Action, quiet: bool)
    requires a.SlotQueue? || a.PoolQueue?
    ensures var b := Released(a, f);
            b.Idle? || match Step(cfg, w, b, act, quiet)
                       case None => act != Finish
                       case Some((_, c)) => act == Finish && c == Released(a, f + 1)
  {
  }

  lemma {:induction false} OneTurn(cfg: Config, n: nat, schedule: seq<(nat, Action)>, i: nat)
    requires schedule != [] && i < n
    ensures var m := |schedule| - 1;
            var s, k, act := Run(cfg, n, schedule[..m]), schedule[m].0, schedule[m].1;
            && |s.threads| == n
            && (k != i ==> ThreadAfter(cfg, n, schedule, i) == s.threads[i])
            && (k == i ==> ThreadAfter(cfg, n, schedule, i) == Stepped(cfg, s, i, act))
  {
    hide Step;
    var m := |schedule| - 1;
    ThreadCount(cfg, n, schedule[..m]);
    assert Run(cfg, n, schedule) == Advance(cfg, Run(cfg, n, schedule[..m]), schedule[m].0, schedule[m].1);
  }

  function Stepped(cfg: Config, s: System, i: nat, act: Action): Activity
    requires i < |s.threads|
  {
    match Step(cfg, s.world, s.threads[i], act, OthersIdle(s.threads, i))
    case None => s.threads[i]
    case Some((_, c)) => c
  }

  lemma {:induction false} ReleasesSnoc(schedule: seq<(nat, Action)>, m: nat, i: nat)
    requires m < |schedule|
    ensures var last := |schedule| - 1;
            Releases(schedule[m..], i) == Releases(schedule[..last][m..], i) + if schedule[last] == (i, Finish) then 1 else 0
  {
    var tail := schedule[m..];
    assert tail[..|tail| - 1] == schedule[..|schedule| - 1][m..];
  }

  /** From the refusal on, the thread's state is decided by its own releases alone. */
  lemma {:induction false} OnlyReleases(cfg: Config, n: nat, schedule: seq<(nat, Action)>, i: nat, m: nat, a: Activity)
    requires i < n && m <= |schedule| && (a.SlotQueue? || a.PoolQueue?)
    requires ThreadAfter(cfg, n, schedule[..m], i) == Released(a, 0) && StartsNothing(cfg, n, schedule, i, m)
    ensures ThreadAfter(cfg, n, schedule, i) == Released(a, Releases(schedule[m..], i))
    decreases |schedule|
  {
    hide Step, Run, ThreadAfter;
    if m == |schedule| {
      assert schedule[..m] == schedule && schedule[m..] == [];
    } else {
      var last := |schedule| - 1;
      var init := schedule[..last];
      assert forall j :: 0 <= j <= last ==> init[..j] == schedule[..j];
      assert schedule[..last + 1] == schedule;
      OnlyReleases(cfg, n, init, i, m, a);
      ReleasesSnoc(schedule, m, i);
      OneTurn(cfg, n, schedule, i);
      ThreadIs(cfg, n, init, i);
      var s, f := Run(cfg, n, init), Releases(init[m..], i);
      ReleasingTurn(cfg, s.world, a, f, schedule[last].1, OthersIdle(s.threads, i));
    }
  }

  lemma {:induction false} ThreadIs(cfg: Config, n: nat, schedule: seq<(nat, Action)>, i: nat)
    requires i < n
    ensures |Run(cfg, n, schedule).threads| == n && ThreadAfter(cfg, n, schedule, i) == Run(cfg, n, schedule).threads[i]
  {
    ThreadCount(cfg, n, schedule);
  }

  /** What every counter of the world counts: the other threads, and of thread i the pin of its
      refused invocation and the slot it may still have to give back. */
  ghost predicate CountsOthers(s: System, i: nat, t: Tool)
    requires i < |s.threads|
  {
    var w, b, others := s.world, s.threads[i], Others(s.threads, i);
    && w.gate.used == others[Slot] + (if b.Leaving? then 1 else 0)
    && w.gate.waiting == others[SlotWait] && w.pool.waiters == others[PoolWait]
    && (forall k :: 0 <= k < |w.pool.list| ==> w.pool.list[k].busy == others[Node(w.pool.list[k].node)])
    && forall u :: (if u in w.refs.counts then w.refs.counts[u] else 0)
                   == Shared(w)[u] + others[Pin(u)] + others[Fresh(u)] + if u == t && !b.Idle? then 1 else 0
  }

  /** The invariant, counter by counter. */
  lemma {:induction false} InvCounts(cfg: Config, w: World, H: multiset<Resource>)
    requires Inv(cfg, w, H)
    ensures w.gate.used == H[Slot] && w.gate.waiting == H[SlotWait] && w.pool.waiters == H[PoolWait]
    ensures forall k :: 0 <= k < |w.pool.list| ==> w.pool.list[k].busy == H[Node(w.pool.list[k].node)]
    ensures forall u :: (if u in w.refs.counts then w.refs.counts[u] else 0) == Shared(w)[u] + H[Pin(u)] + H[Fresh(u)]
  {
    hide OwnedOk, Bounded, Linked, Shared;
    forall k | 0 <= k < |w.pool.list|
      ensures w.pool.list[k].busy == H[Node(w.pool.list[k].node)]
    {
      assert InstanceOk(w.pool.list[k], w.nextNode, w.freed, H);
    }
  }

  lemma {:induction false} ReleasedCounts(cfg: Config, s: System, i: nat, a: Activity, f: nat)
    requires Inv(cfg, s.world, All(s.threads)) && i < |s.threads| && (a.SlotQueue? || a.PoolQueue?) && s.threads[i] == Released(a, f)
    ensures CountsOthers(s, i, a.t)
  {
    hide Inv, All, Others, Holdings, Released, Shared;
    InvCounts(cfg, s.world, All(s.threads));
    ReleasedHoldings(a, f);
    AllSplit(s.threads, i);
    SplitCounts(All(s.threads), Others(s.threads, i), Holdings(s.threads[i]), s.threads[i], a.t);
  }

  lemma {:induction false} ReleasedHoldings(a: Activity, f: nat)
    requires a.SlotQueue? || a.PoolQueue?
    ensures var b := Released(a, f); HoldsLittle(Holdings(b), b, a.t) && (b.Idle? || b.Leaving? || b.Unslotted?)
  {
  }

  /** The resources of a thread that has been refused. */
  ghost predicate HoldsLittle(own: multiset<Resource>, b: Activity, t: Tool) {
    own == if b.Idle? then multiset{} else if b.Leaving? then multiset{Pin(t)} + multiset{Slot} else multiset{Pin(t)}
  }

  lemma {:induction false} SplitCounts(H: multiset<Resource>, others: multiset<Resource>, own: multiset<Resource>, b: Activity, t: Tool)
    requires H == others + own && HoldsLittle(own, b, t) && (b.Idle? || b.Leaving? || b.Unslotted?)
    ensures H[Slot] == others[Slot] + (if b.Leaving? then 1 else 0)
    ensures H[SlotWait] == others[SlotWait] && H[PoolWait] == others[PoolWait]
    ensures forall h :: H[Node(h)] == others[Node(h)]
    ensures forall u :: H[Pin(u)] == others[Pin(u)] + if u == t && !b.Idle? then 1 else 0
    ensures forall u :: H[Fresh(u)] == others[Fresh(u)]
  {
  }

  /** A thread whose acquisition was refused, by the gate or by the pool, then only gives back
      what it had: it stands where its releases so far have taken it, and from the refusal on
      no waiter and no busy count is its own, the slot only until its next release, and the pin
      until it is idle. Nothing but its place among the waiters changed by the refusal. */
  lemma {:induction false} RefusalHoldsNothing(cfg: Config, n: nat, schedule: seq<(nat, Action)>, i: nat, m: nat)
    requires i < n && m < |schedule| && schedule[m].0 == i
    requires Refused(ThreadAfter(cfg, n, schedule[..m], i), ThreadAfter(cfg, n, schedule[..m + 1], i))
    requires StartsNothing(cfg, n, schedule, i, m + 1)
    ensures var s, a := Run(cfg, n, schedule), ThreadAfter(cfg, n, schedule[..m], i);
            && |s.threads| == n && s.threads[i] == Released(a, Releases(schedule[m + 1..], i))
            && CountsOthers(s, i, a.t)
    ensures var w, v := Run(cfg, n, schedule[..m]).world, Run(cfg, n, schedule[..m + 1]).world;
            v == w.(gate := w.gate.(waiting := v.gate.waiting), pool := w.pool.(waiters := v.pool.waiters))
  {
    hide Step, Run, ThreadAfter, CountsOthers;
    var a, f := ThreadAfter(cfg, n, schedule[..m], i), Releases(schedule[m + 1..], i);
    assert schedule[..m + 1][..m] == schedule[..m];
    RefusedAt(cfg, n, schedule[..m + 1], i);
    OnlyReleases(cfg, n, schedule, i, m + 1, a);
    ThreadIs(cfg, n, schedule, i);
    AlwaysSafe(cfg, n, schedule);
    ReleasedCounts(cfg, Run(cfg, n, schedule), i, a, f);
  }

  lemma {:induction false} RefusedAt(cfg: Config, n: nat, schedule: seq<(nat, Action)>, i: nat)
    requires i < n && schedule != [] && schedule[|schedule| - 1].0 == i
    requires Refused(ThreadAfter(cfg, n, schedule[..|schedule| - 1], i), ThreadAfter(cfg, n, schedule, i))
    ensures var w, v := Run(cfg, n, schedule[..|schedule| - 1]).world, Run(cfg, n, schedule).world;
            v == w.(gate := w.gate.(waiting := v.gate.waiting), pool := w.pool.(waiters := v.pool.waiters))
    ensures ThreadAfter(cfg, n, schedule, i) == Released(ThreadAfter(cfg, n, schedule[..|schedule| - 1], i), 0)
  {
    var m := |schedule| - 1;
    var s, act := Run(cfg, n, schedule[..m]), schedule[m].1;
    OneTurn(cfg, n, schedule, i);
    ThreadIs(cfg, n, schedule[..m], i);
    hide Step;
    RefusedTurn(cfg, s.world, s.threads[i], act, OthersIdle(s.threads, i));
  }
}
