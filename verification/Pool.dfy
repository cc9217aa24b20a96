/** The pool of persistent instances: what each region under the pool mutex does
    to the instance list (src/process_pool.c, src/worker.c). */
module Pool {
  import opened Text

  datatype Kind = Process | Library

  type Digest = string

  /** A loaded tool descriptor; address is its identity. */
  datatype Tool = Tool(address: nat, dir: string, content: Digest)

  /** Kind and what instance_key hashes: a library is keyed by its directory alone. */
  datatype Key = Key(kind: Kind, dir: string, content: Option<Digest>)

  function KeyOf(kind: Kind, t: Tool): Key {
    Key(kind, t.dir, if kind == Process then Some(t.content) else None)
  }

  /** The part of an instance that never changes; id is its identity. */
  datatype Handle = Handle(id: nat, key: Key, tool: Tool)

  datatype Instance = Instance(node: Handle, busy: int)

  const INSTANCE_LIMIT := 64

  // ---- reading the list -----------------------------------------------------------

  /** An instance the caller may take: idle, or a library. */
  predicate Takeable(p: Instance, key: Key) {
    p.node.key == key && (p.busy == 0 || key.kind == Library)
  }

  /** Position of the last takeable instance. */
  function LastTakeable(list: seq<Instance>, key: Key): (r: Option<nat>)
    ensures r.Some? ==> r.value < |list| && Takeable(list[r.value], key)
    ensures r.None? ==> forall i :: 0 <= i < |list| ==> !Takeable(list[i], key)
  {
    if list == [] then None
    else if Takeable(list[|list| - 1], key) then Some(|list| - 1)
    else LastTakeable(list[..|list| - 1], key)
  }

  function CountKey(list: seq<Instance>, key: Key): (n: nat)
    ensures n <= |list|
  {
    if list == [] then 0
    else CountKey(list[..|list| - 1], key) + if list[|list| - 1].node.key == key then 1 else 0
  }

  /** Position of the first instance with that identity. */
  function Find(list: seq<Instance>, id: nat): (r: Option<nat>)
    ensures r.Some? ==> r.value < |list| && list[r.value].node.id == id
    ensures r.None? <==> forall i :: 0 <= i < |list| ==> list[i].node.id != id
  {
    if list == [] then None
    else if list[0].node.id == id then Some(0)
    else match Find(list[1..], id) case None => None case Some(i) => Some(i + 1)
  }

  // ---- the locked regions ---------------------------------------------------------

  datatype State = State(list: seq<Instance>, count: int, waiters: int)

  datatype Outcome = Granted(node: Handle, created: bool) | Cancelled | TimedOut | Full | NoMemory | MustWait

  /** What the loop of astools_pp_acquire decides. newId names the instance that a
      successful allocation creates. */
  function Acquire(list: seq<Instance>, key: Key, limit: nat, t: Tool, newId: nat, memory: bool): (Outcome, seq<Instance>) {
    match LastTakeable(list, key)
    case Some(i) => (Granted(list[i].node, false), list[i := list[i].(busy := list[i].busy + 1)])
    case None =>
      var node := Handle(newId, key, t);
      if CountKey(list, key) >= limit then (MustWait, list)
      else if |list| >= INSTANCE_LIMIT then (Full, list)
      else if !memory then (NoMemory, list)
      else (Granted(node, true), [Instance(node, 1)] + list)
  }

  /** One turn under the mutex, from locking it to waiting or unlocking. */
  function Turn(s: State, key: Key, limit: nat, t: Tool, newId: nat, memory: bool,
                cancelled: bool, late: bool, waiting: bool): (Outcome, State)
  {
    var (r, list) :=
      if cancelled then (Cancelled, s.list)
      else if late then (TimedOut, s.list)
      else Acquire(s.list, key, limit, t, newId, memory);
    var count := if r.Granted? && r.created then s.count + 1 else s.count;
    (r, State(list, count, Waiters(s.waiters, waiting, r == MustWait)))
  }

  /** A thread is counted from its first wait until it leaves the loop. */
  function Waiters(n: int, before: bool, after: bool): int {
    if !before && after then n + 1 else if before && !after then n - 1 else n
  }

  function Release(s: State, id: nat): State
    requires Find(s.list, id).Some?
  {
    var i := Find(s.list, id).value;
    var p := s.list[i];
    s.(list := s.list[i := p.(busy := if p.busy > 0 then p.busy - 1 else p.busy)])
  }

  predicate IdleProcess(p: Instance) { p.node.key.kind == Process && p.busy == 0 }

  /** The list with its first room idle process instances pinned, and those instances. */
  function PinIdle(list: seq<Instance>, room: nat): (r: (seq<Instance>, seq<Handle>))
    ensures |r.0| == |list| && |r.1| <= room
  {
    if list == [] then ([], [])
    else
      var (rest, nodes) := PinIdle(list[..|list| - 1], room);
      PinOne(rest, nodes, list[|list| - 1], room)
  }

  function PinOne(rest: seq<Instance>, nodes: seq<Handle>, p: Instance, room: nat): (seq<Instance>, seq<Handle>) {
    if IdleProcess(p) && |nodes| < room then (rest + [p.(busy := 1)], nodes + [p.node]) else (rest + [p], nodes)
  }

  lemma {:induction false} PinIdleNone(list: seq<Instance>)
    ensures PinIdle(list[..0], INSTANCE_LIMIT) == ([], [])
  {
  }

  lemma {:induction false} PinIdleStep(list: seq<Instance>, i: nat, room: nat)
    requires i < |list|
    ensures PinIdle(list[..i + 1], room)
         == PinOne(PinIdle(list[..i], room).0, PinIdle(list[..i], room).1, list[i], room)
  {
    assert list[..i + 1][..i] == list[..i];
  }

  /** Once the slots are full the rest of the list is left alone. */
  lemma {:induction false} PinIdleFull(list: seq<Instance>, i: nat, room: nat)
    requires i <= |list| && |PinIdle(list[..i], room).1| == room
    ensures PinIdle(list, room) == (PinIdle(list[..i], room).0 + list[i..], PinIdle(list[..i], room).1)
  {
    if i == |list| {
      assert list[..i] == list;
      assert PinIdle(list, room).0 + list[i..] == PinIdle(list, room).0;
    } else {
      var init := list[..|list| - 1];
      assert init[..i] == list[..i];
      PinIdleFull(init, i, room);
      var pinned := PinIdle(list[..i], room).0;
      assert list[i..] == init[i..] + [list[|list| - 1]];
      assert pinned + list[i..] == (pinned + init[i..]) + [list[|list| - 1]];
    }
  }

  function PinAll(s: State): (State, seq<Handle>) {
    var (list, nodes) := PinIdle(s.list, INSTANCE_LIMIT);
    (s.(list := list), nodes)
  }

  function Unpin(s: State, id: nat): State
    requires Find(s.list, id).Some?
  {
    var i := Find(s.list, id).value;
    s.(list := s.list[i := s.list[i].(busy := 0)])
  }

  function Unlink(s: State, id: nat): State {
    match Find(s.list, id)
    case None => s
    case Some(i) => s.(list := s.list[..i] + s.list[i + 1..], count := s.count - 1)
  }

  function Drain(s: State): State { s.(list := [], count := 0) }

  // ---- the pool object ------------------------------------------------------------

  class ProcessPool {
    var list: seq<Instance>
    var count: int
    var waiters: int

    ghost function Now(): State reads this { State(list, count, waiters) }

    constructor ()
      ensures Now() == State([], 0, 0)
    {
      list, count, waiters := [], 0, 0;
    }

    method TryAcquire(key: Key, limit: nat, t: Tool, newId: nat, memory: bool, cancelled: bool, late: bool,
                      waiting: bool) returns (r: Outcome)
      modifies this
      ensures r == Turn(old(Now()), key, limit, t, newId, memory, cancelled, late, waiting).0
      ensures Now() == Turn(old(Now()), key, limit, t, newId, memory, cancelled, late, waiting).1
    {
      if cancelled {
        r := Cancelled;
      } else if late {
        r := TimedOut;
      } else {
        r := Choose(key, limit, t, newId, memory);
        if r == MustWait {
          if !waiting {
            waiters := waiters + 1;
          }
          return;
        }
      }
      if waiting {
        waiters := waiters - 1;
      }
    }

    method Choose(key: Key, limit: nat, t: Tool, newId: nat, memory: bool) returns (r: Outcome)
      modifies this`list, this`count
      ensures (r, list) == Acquire(old(list), key, limit, t, newId, memory)
      ensures count == if r.Granted? && r.created then old(count) + 1 else old(count)
    {
      var chosen, matching, i := None, 0, 0;
      while i < |list|
        invariant 0 <= i <= |list|
        invariant chosen == LastTakeable(list[..i], key) && matching == CountKey(list[..i], key)
      {
        assert list[..i + 1][..i] == list[..i];
        if list[i].node.key == key {
          matching := matching + 1;
          if list[i].busy == 0 || key.kind == Library {
            chosen := Some(i);
          }
        }
        i := i + 1;
      }
      assert list[..|list|] == list;
      var created := chosen.None? && matching < limit;
      if created {
        if |list| >= INSTANCE_LIMIT {
          return Full;
        }
        if !memory {
          return NoMemory;
        }
        list := [Instance(Handle(newId, key, t), 0)] + list;
        count := count + 1;
        chosen := Some(0);
      }
      if chosen.None? {
        return MustWait;
      }
      var p := list[chosen.value];
      list := list[chosen.value := p.(busy := p.busy + 1)];
      assert list == Acquire(old(list), key, limit, t, newId, memory).1;
      return Granted(p.node, created);
    }

    method PutBack(id: nat)
      requires Find(list, id).Some?
      modifies this`list
      ensures Now() == Release(old(Now()), id)
    {
      var i := Locate(id);
      if list[i.value].busy > 0 {
        list := list[i.value := list[i.value].(busy := list[i.value].busy - 1)];
      }
    }

    method Locate(id: nat) returns (r: Option<nat>)
      ensures r == Find(list, id)
    {
      var i := 0;
      while i < |list|
        invariant 0 <= i <= |list|
        invariant Find(list, id) == match Find(list[i..], id) case None => None case Some(k) => Some(k + i)
      {
        if list[i].node.id == id {
          return Some(i);
        }
        assert list[i..][1..] == list[i + 1..];
        i := i + 1;
      }
      return None;
    }

    /** The pinning scan of worker_pass, into an array of INSTANCE_LIMIT slots. */
    method PinForReaping(slots: array<Handle>) returns (n: nat)
      requires slots.Length == INSTANCE_LIMIT
      modifies this`list, slots
      ensures n <= slots.Length
      ensures Now() == PinAll(old(Now())).0 && slots[..n] == PinAll(old(Now())).1
    {
      ghost var start, scan, nodes: seq<Handle> := list, [], [];
      n := 0;
      var i := 0;
      PinIdleNone(start);
      hide PinIdle;
      while i < |list| && n < INSTANCE_LIMIT
        invariant 0 <= i <= |list| == |start| && 0 <= n <= INSTANCE_LIMIT
        invariant |scan| == i && |nodes| == n && (scan, nodes) == PinIdle(start[..i], INSTANCE_LIMIT)
        invariant forall k :: 0 <= k < i ==> list[k] == scan[k]
        invariant forall k :: i <= k < |list| ==> list[k] == start[k]
        invariant forall k :: 0 <= k < n ==> slots[k] == nodes[k]
      {
        PinIdleStep(start, i, INSTANCE_LIMIT);
        var p := list[i];
        if p.node.key.kind == Process && p.busy == 0 {
          list, scan, nodes := list[i := p.(busy := 1)], scan + [p.(busy := 1)], nodes + [p.node];
          slots[n] := p.node;
          n := n + 1;
        } else {
          scan := scan + [p];
        }
        i := i + 1;
      }
      if n == INSTANCE_LIMIT {
        PinIdleFull(start, i, INSTANCE_LIMIT);
      }
      assert start[..|start|] == start;
      assert list == scan + start[i..];
    }

    method RestoreIdle(id: nat)
      requires Find(list, id).Some?
      modifies this`list
      ensures Now() == Unpin(old(Now()), id)
    {
      var i := Locate(id);
      list := list[i.value := list[i.value].(busy := 0)];
    }

    method Remove(id: nat)
      modifies this`list, this`count
      ensures Now() == Unlink(old(Now()), id)
    {
      var i := Locate(id);
      if i.Some? {
        list := list[..i.value] + list[i.value + 1..];
        count := count - 1;
      }
    }

    method TakeAll() returns (all: seq<Instance>)
      modifies this`list, this`count
      ensures all == old(list) && Now() == Drain(old(Now()))
    {
      all := list;
      list, count := [], 0;
    }
  }
}
