/** Asynchronous invocations (src/execution_queue.c): one thread completes the task, any
    number of others wait for it or cancel it. */
module Tasks {
  import opened Text

  /** The caller-owned strings of a result; None once they have been handed over. */
  datatype State = State(cancelled: bool, done: bool, verdict: int, strings: Option<string>)

  datatype Action =
    | Cancel
    | Complete(verdict: int, text: string)
    | Wait(late: bool, wanted: bool)

  /** What a turn tells its caller. */
  datatype Reply = Silent | Blocked | Expired | Delivered(verdict: int, strings: Option<string>)

  /** One locked region. A thread that finds the task unfinished waits on the condition. */
  function Turn(s: State, a: Action): (State, Reply) {
    match a
    case Cancel => (s.(cancelled := true), Silent)
    case Complete(v, text) => (s.(done := true, verdict := v, strings := Some(text)), Silent)
    case Wait(late, wanted) =>
      if !s.done then (s, if late then Expired else Blocked)
      else if wanted then (s.(strings := None), Delivered(s.verdict, s.strings))
      else (s, Delivered(s.verdict, None))
  }

  class Task {
    var cancelled: bool
    var done: bool
    var verdict: int
    var strings: Option<string>

    ghost function Now(): State reads this { State(cancelled, done, verdict, strings) }

    constructor ()
      ensures Now() == INITIAL
    {
      cancelled, done, verdict, strings := false, false, 0, None;
    }

    method SetCancelled()
      modifies this`cancelled
      ensures Now() == Turn(old(Now()), Cancel).0
    {
      cancelled := true;
    }

    /** The end of task_main. */
    method Finish(v: int, text: string)
      modifies this
      ensures Now() == Turn(old(Now()), Complete(v, text)).0
    {
      strings, verdict, done := Some(text), v, true;
    }

    /** astools_task_wait each time it holds the mutex. */
    method Await(late: bool, wanted: bool) returns (r: Reply)
      modifies this`strings
      ensures (Now(), r) == Turn(old(Now()), Wait(late, wanted))
    {
      if !done {
        return if late then Expired else Blocked;
      }
      r := Delivered(verdict, None);
      if wanted {
        r := Delivered(verdict, strings);
        strings := None;
      }
    }
  }

  const INITIAL := State(false, false, 0, None)

  /** The state and every reply after a schedule. */
  function Run(schedule: seq<Action>): (r: (State, seq<Reply>))
    ensures |r.1| == |schedule|
  {
    if schedule == [] then (INITIAL, [])
    else
      var (s, replies) := Run(schedule[..|schedule| - 1]);
      var (t, reply) := Turn(s, schedule[|schedule| - 1]);
      (t, replies + [reply])
  }

  /** The thread of the task runs task_main once. */
  ghost predicate OneThread(schedule: seq<Action>) {
    forall i, j :: 0 <= i < j < |schedule| ==> !(schedule[i].Complete? && schedule[j].Complete?)
  }

  function Handed(replies: seq<Reply>): seq<string> {
    if replies == [] then [] else Handed(replies[..|replies| - 1]) + HandedBy(replies[|replies| - 1])
  }

  function HandedBy(r: Reply): seq<string> { if r.Delivered? && r.strings.Some? then [r.strings.value] else [] }

  function Held(s: State): seq<string> { if s.strings.Some? then [s.strings.value] else [] }

  function Made(schedule: seq<Action>): seq<string> {
    if schedule == [] then [] else Made(schedule[..|schedule| - 1]) + MadeBy(schedule[|schedule| - 1])
  }

  function MadeBy(a: Action): seq<string> { if a.Complete? then [a.text] else [] }

  lemma {:induction false} NothingMade(schedule: seq<Action>)
    ensures Made(schedule) == [] <==> forall i :: 0 <= i < |schedule| ==> !schedule[i].Complete?
  {
    if schedule != [] {
      var n := |schedule| - 1;
      NothingMade(schedule[..n]);
      assert forall i :: 0 <= i < n ==> schedule[i] == schedule[..n][i];
    }
  }

  lemma {:induction false} MadeOnce(schedule: seq<Action>)
    requires OneThread(schedule)
    ensures |Made(schedule)| <= 1
  {
    if schedule != [] {
      var n := |schedule| - 1;
      assert OneThread(schedule[..n]);
      MadeOnce(schedule[..n]);
      NothingMade(schedule[..n]);
    }
  }

  /** One step passes the strings on or keeps them. */
  lemma {:induction false} StepDelivers(s: State, a: Action)
    requires a.Complete? ==> Held(s) == []
    ensures var (t, reply) := Turn(s, a);
            HandedBy(reply) + Held(t) == Held(s) + MadeBy(a) && t.done == (s.done || a.Complete?)
  {
  }

  lemma {:induction false} RunSnoc(schedule: seq<Action>)
    requires schedule != []
    ensures var n := |schedule| - 1;
            var (s, replies) := Run(schedule[..n]);
            var (t, reply) := Turn(s, schedule[n]);
            Run(schedule) == (t, replies + [reply]) && Handed(replies + [reply]) == Handed(replies) + HandedBy(reply)
  {
    var n := |schedule| - 1;
    var (s, replies) := Run(schedule[..n]);
    var (t, reply) := Turn(s, schedule[n]);
    assert (replies + [reply])[..n] == replies;
  }

  lemma {:induction false} Regroup(a: seq<string>, b: seq<string>, c: seq<string>, d: seq<string>, e: seq<string>)
    requires b + c == d + e
    ensures a + b + c == a + d + e
  {
    assert a + b + c == a + (b + c) && a + d + e == a + (d + e);
  }

  /** In every interleaving the strings of the result are handed to at most one waiter or
      are still the task's to free: never both, and never neither. */
  lemma {:induction false} DeliveredOnce(schedule: seq<Action>)
    requires OneThread(schedule)
    ensures var (s, replies) := Run(schedule);
            && Handed(replies) + Held(s) == Made(schedule) && |Made(schedule)| <= 1
            && s.done == (Made(schedule) != [])
  {
    MadeOnce(schedule);
    if schedule != [] {
      var n := |schedule| - 1;
      assert OneThread(schedule[..n]);
      NothingMade(schedule[..n]);
      assert schedule[n].Complete? ==> Made(schedule[..n]) == [];
      hide OneThread, Turn;
      DeliveredOnce(schedule[..n]);
      RunSnoc(schedule);
      hide Run, Handed;
      var (s, replies) := Run(schedule[..n]);
      var (t, reply) := Turn(s, schedule[n]);
      StepDelivers(s, schedule[n]);
      Regroup(Handed(replies), HandedBy(reply), Held(t), Held(s), MadeBy(schedule[n]));
    }
  }

  /** Every wait that ends with a verdict sees the one verdict, after the task is done;
      until then waits time out or go on waiting. */
  lemma {:induction false} OneVerdict(schedule: seq<Action>, i: nat, k: nat)
    requires OneThread(schedule) && i < |schedule| && schedule[i].Wait? && k < |schedule| && schedule[k].Complete?
    ensures var reply := Run(schedule).1[i];
            if k < i then reply.Delivered? && reply.verdict == schedule[k].verdict
            else reply == if schedule[i].late then Expired else Blocked
  {
    RunPrefix(schedule, i);
    Settled(schedule[..i], k);
    assert schedule[..i + 1][..i] == schedule[..i];
  }

  lemma {:induction false} RunPrefix(schedule: seq<Action>, i: nat)
    requires i < |schedule|
    ensures Run(schedule).1[i] == Turn(Run(schedule[..i]).0, schedule[i]).1
  {
    var n := |schedule| - 1;
    if i < n {
      RunPrefix(schedule[..n], i);
      assert schedule[..n][..i] == schedule[..i];
    }
  }

  lemma {:induction false} Settled(schedule: seq<Action>, k: nat)
    requires forall i :: 0 <= i < |schedule| ==> (schedule[i].Complete? ==> i == k)
    ensures var s := Run(schedule).0;
            s.done == (k < |schedule| && schedule[k].Complete?) && (s.done ==> s.verdict == schedule[k].verdict)
  {
    if schedule != [] {
      Settled(schedule[..|schedule| - 1], k);
    }
  }
}
