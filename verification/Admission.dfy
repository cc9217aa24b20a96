/** Slot admission (src/execution_queue.c) and descriptor references
    (src/registry.c): the two counters every invocation goes through. */
module Admission {
  import opened Pool

  // ---- invocation slots -------------------------------------------------------------

  datatype Gate = Gate(used: int, waiting: int)

  datatype Verdict = Entered | Aborted | Expired | Busy | Queued

  /** One turn of astools_slot_acquire under the slot mutex. */
  function Admit(g: Gate, max: int, cancelled: bool, late: bool, noThreads: bool, waiting: bool): (Verdict, Gate) {
    var r :=
      if cancelled then Aborted
      else if late then Expired
      else if g.used < max then Entered
      else if noThreads then Busy
      else Queued;
    (r, Gate(if r == Entered then g.used + 1 else g.used, Waiters(g.waiting, waiting, r == Queued)))
  }

  function Leave(g: Gate): Gate { if g.used > 0 then g.(used := g.used - 1) else g }

  class SlotGate {
    var used: int
    var waiting: int

    ghost function Now(): Gate reads this { Gate(used, waiting) }

    constructor ()
      ensures Now() == Gate(0, 0)
    {
      used, waiting := 0, 0;
    }

    method TryEnter(max: int, cancelled: bool, late: bool, noThreads: bool, queued: bool) returns (r: Verdict)
      modifies this
      ensures r == Admit(old(Now()), max, cancelled, late, noThreads, queued).0
      ensures Now() == Admit(old(Now()), max, cancelled, late, noThreads, queued).1
    {
      if cancelled {
        r := Aborted;
      } else if late {
        r := Expired;
      } else if used < max {
        used := used + 1;
        r := Entered;
      } else if noThreads {
        r := Busy;
      } else {
        if !queued {
          waiting := waiting + 1;
        }
        return Queued;
      }
      if queued {
        waiting := waiting - 1;
      }
    }

    method Exit()
      modifies this`used
      ensures Now() == Leave(old(Now()))
    {
      if used > 0 {
        used := used - 1;
      }
    }
  }

  // ---- descriptor references ----------------------------------------------------------

  /** counts maps every live descriptor to its refcount field; a descriptor outside
      it has not been loaded, or has been destroyed. fault records any use of one. */
  datatype References = References(counts: map<Tool, int>, destroyed: seq<Tool>, fault: bool)

  function Load(r: References, t: Tool): References { r.(counts := r.counts[t := 1]) }

  function Ref(r: References, t: Tool): References {
    if t in r.counts then r.(counts := r.counts[t := r.counts[t] + 1]) else r.(fault := true)
  }

  function Unref(r: References, t: Tool): References {
    if t !in r.counts then r.(fault := true)
    else if r.counts[t] - 1 <= 0 then Destroy(r, t)
    else r.(counts := r.counts[t := r.counts[t] - 1])
  }

  function Destroy(r: References, t: Tool): References {
    if t !in r.counts then r.(fault := true)
    else r.(counts := r.counts - {t}, destroyed := r.destroyed + [t])
  }

  /** Reading a field of a descriptor. */
  function Touch(r: References, t: Tool): References {
    if t in r.counts then r else r.(fault := true)
  }
}
