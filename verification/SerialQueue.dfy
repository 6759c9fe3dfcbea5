/**
 The future-chained serial queue.  Every call of `enqueue` takes the current gate as its
 `prev`, installs a fresh gate of its own, waits for `prev`, runs its body and resolves its
 gate whether or not the body raised.

 Control can move between the callers at each await, so one call is three atomic segments:
 up to `await prev` (`Enqueue`), from there into the body (`Resume`), and the `finally`
 block (`Finish`).  A run is any sequence of such segments of any number of callers.
 */
module SerialQueue {

  datatype Phase = Waiting | Running | Done(raised: bool)
  datatype Task = Task(prev: nat, mine: nat, phase: Phase)
  datatype Event = Started(id: nat) | Ended(id: nat)

  // gates[g] tells whether future g is resolved; `gate` is the field `_gate`.
  datatype Queue = Queue(gates: seq<bool>, gate: nat, tasks: seq<Task>, trace: seq<Event>)

  datatype Move = Enqueue | Resume(id: nat) | Finish(id: nat, raised: bool)

  const INITIAL := Queue([true], 0, [], [])

  /** Futures named by the state exist. */
  predicate WellFormed(q: Queue) {
    && q.gate < |q.gates|
    && forall t :: t in q.tasks ==> t.prev < |q.gates| && t.mine < |q.gates|
  }

  predicate Enabled(q: Queue, m: Move)
    requires WellFormed(q)
  {
    match m
    case Enqueue => true
    case Resume(i) => i < |q.tasks| && q.tasks[i].phase == Waiting && q.gates[q.tasks[i].prev]
    case Finish(i, _) => i < |q.tasks| && q.tasks[i].phase == Running
  }

  function Apply(q: Queue, m: Move): Queue
    requires WellFormed(q) && Enabled(q, m)
  {
    match m
    case Enqueue =>
      var mine := |q.gates|;
      Queue(q.gates + [false], mine, q.tasks + [Task(q.gate, mine, Waiting)], q.trace)
    case Resume(i) =>
      q.(tasks := q.tasks[i := q.tasks[i].(phase := Running)], trace := q.trace + [Started(i)])
    case Finish(i, raised) =>
      q.(gates := q.gates[q.tasks[i].mine := true],
         tasks := q.tasks[i := q.tasks[i].(phase := Done(raised))],
         trace := q.trace + [Ended(i)])
  }

  class AsyncSerialQueue {
    var gates: seq<bool>
    var gate: nat
    var tasks: seq<Task>
    ghost var trace: seq<Event>

    ghost function State(): Queue
      reads this
    {
      Queue(gates, gate, tasks, trace)
    }

    constructor ()
      ensures State() == INITIAL
    {
      gates, gate, tasks, trace := [true], 0, [], [];
    }

    method Enqueue() returns (id: nat)
      requires WellFormed(State())
      modifies this
      ensures id == old(|tasks|)
      ensures State() == Apply(old(State()), Move.Enqueue) && WellFormed(State())
    {
      var prev := gate;
      var myGate := |gates|;
      gates := gates + [false];
      gate := myGate;
      id := |tasks|;
      tasks := tasks + [Task(prev, myGate, Waiting)];
    }

    method Resume(id: nat)
      requires WellFormed(State()) && Enabled(State(), Move.Resume(id))
      modifies this
      ensures State() == Apply(old(State()), Move.Resume(id)) && WellFormed(State())
    {
      tasks := tasks[id := tasks[id].(phase := Running)];
      trace := trace + [Started(id)];
    }

    method Finish(id: nat, raised: bool)
      requires WellFormed(State()) && Enabled(State(), Move.Finish(id, raised))
      modifies this
      ensures State() == Apply(old(State()), Move.Finish(id, raised)) && WellFormed(State())
    {
      trace := trace + [Ended(id)];
      var mine := tasks[id].mine;
      tasks := tasks[id := tasks[id].(phase := Done(raised))];
      if !gates[mine] {
        gates := gates[mine := true];
      }
    }
  }

  // ---- Runs -------------------------------------------------------------------------

  predicate Legal(q: Queue, moves: seq<Move>)
    requires WellFormed(q)
    decreases |moves|
  {
    moves == [] ||
    (Enabled(q, moves[0]) && WellFormed(Apply(q, moves[0])) && Legal(Apply(q, moves[0]), moves[1..]))
  }

  function After(q: Queue, moves: seq<Move>): Queue
    requires WellFormed(q) && Legal(q, moves)
    decreases |moves|
  {
    if moves == [] then q else After(Apply(q, moves[0]), moves[1..])
  }

  /** start 0, end 0, start 1, end 1, ... */
  function Canonical(n: nat): seq<Event> {
    if n == 0 then [] else Canonical(n - 1) + [Started(n - 1), Ended(n - 1)]
  }

  // ---- The invariant ----------------------------------------------------------------

  /** The first k tasks are done, task k is waiting or running, the rest wait. */
  ghost predicate Inv(q: Queue, k: nat) {
    && |q.gates| == |q.tasks| + 1 && q.gates[0] && q.gate == |q.tasks| && k <= |q.tasks|
    && (forall i :: 0 <= i < |q.tasks| ==>
          q.tasks[i].prev == i && q.tasks[i].mine == i + 1
          && (q.gates[i + 1] <==> q.tasks[i].phase.Done?)
          && (q.tasks[i].phase.Done? <==> i < k)
          && (q.tasks[i].phase.Running? ==> i == k))
    && q.trace == Canonical(k) + if k < |q.tasks| && q.tasks[k].phase.Running? then [Started(k)] else []
  }

  ghost predicate Reached(q: Queue) {
    exists k: nat :: Inv(q, k)
  }

  lemma ResumeKeepsInv(q: Queue, k: nat, i: nat)
    requires WellFormed(q) && Inv(q, k) && Enabled(q, Resume(i))
    ensures WellFormed(Apply(q, Resume(i))) && Inv(Apply(q, Resume(i)), k)
  {
    if i > 0 {
      assert q.gates[(i - 1) + 1] && q.tasks[i - 1].phase.Done?;
    }
    assert i == k;
    assert q.trace == Canonical(k);
  }

  lemma FinishKeepsInv(q: Queue, k: nat, i: nat, raised: bool)
    requires WellFormed(q) && Inv(q, k) && Enabled(q, Finish(i, raised))
    ensures WellFormed(Apply(q, Finish(i, raised))) && Inv(Apply(q, Finish(i, raised)), k + 1)
  {
    assert i == k;
    assert Canonical(k + 1) == Canonical(k) + [Started(k)] + [Ended(k)];
  }

  lemma StepKeepsInv(q: Queue, k: nat, m: Move)
    requires WellFormed(q) && Inv(q, k) && Enabled(q, m)
    ensures var q1 := Apply(q, m); WellFormed(q1) && Inv(q1, if m.Finish? then k + 1 else k)
  {
    match m
    case Enqueue =>
    case Resume(i) => ResumeKeepsInv(q, k, i);
    case Finish(i, raised) => FinishKeepsInv(q, k, i, raised);
  }

  lemma {:induction false} RunKeepsInv(q: Queue, k: nat, moves: seq<Move>) returns (k1: nat)
    requires WellFormed(q) && Inv(q, k) && Legal(q, moves)
    ensures Inv(After(q, moves), k1) && WellFormed(After(q, moves))
    decreases |moves|
  {
    if moves == [] {
      k1 := k;
    } else {
      StepKeepsInv(q, k, moves[0]);
      k1 := RunKeepsInv(Apply(q, moves[0]), if moves[0].Finish? then k + 1 else k, moves[1..]);
    }
  }

  // ---- Safety -----------------------------------------------------------------------

  /**
   In every reachable state at most one body runs, and the trace is the canonical one up to
   the task in progress: whatever the interleaving and whichever bodies raise.
   */
  lemma SerialAndFifo(moves: seq<Move>)
    requires Legal(INITIAL, moves)
    ensures var q := After(INITIAL, moves);
            && (forall i, j | 0 <= i < |q.tasks| && 0 <= j < |q.tasks| ::
                  q.tasks[i].phase.Running? && q.tasks[j].phase.Running? ==> i == j)
            && exists k: nat :: k <= |q.tasks|
                 && (q.trace == Canonical(k) || (k < |q.tasks| && q.trace == Canonical(k) + [Started(k)]))
  {
    var k := RunKeepsInv(INITIAL, 0, moves);
  }

  // ---- Progress ---------------------------------------------------------------------

  predicate AllDone(q: Queue) {
    forall t :: t in q.tasks ==> t.phase.Done?
  }

  /** Task i is able to move on. */
  predicate CanMove(q: Queue, i: nat)
    requires WellFormed(q)
  {
    Enabled(q, Resume(i)) || Enabled(q, Finish(i, false))
  }

  /** No deadlock: while a task is unfinished exactly one task is able to move on. */
  lemma ExactlyOneCanMove(q: Queue)
    requires WellFormed(q) && Reached(q) && !AllDone(q)
    ensures exists i :: 0 <= i < |q.tasks| && CanMove(q, i) && forall j: nat :: CanMove(q, j) ==> j == i
  {
    var k: nat :| Inv(q, k);
    assert k < |q.tasks|;
    if k > 0 {
      assert q.tasks[k - 1].phase.Done?;
      assert q.gates[(k - 1) + 1];
    }
    assert CanMove(q, k);
    forall j: nat | CanMove(q, j) ensures j == k {
      assert j > 0 && q.gates[j] ==> q.tasks[j - 1].phase.Done?;
    }
  }

  function Measure(tasks: seq<Task>): nat {
    if tasks == [] then 0
    else (match tasks[0].phase case Waiting => 2 case Running => 1 case Done(_) => 0) + Measure(tasks[1..])
  }

  lemma {:induction false} MeasureUpdate(tasks: seq<Task>, i: nat, t: Task)
    requires i < |tasks|
    ensures Measure(tasks[i := t]) == Measure(tasks) - Measure([tasks[i]]) + Measure([t])
    decreases i
  {
    var updated := tasks[i := t];
    if i == 0 {
      assert updated[1..] == tasks[1..];
    } else {
      assert updated[1..] == tasks[1..][i - 1 := t];
      MeasureUpdate(tasks[1..], i - 1, t);
    }
  }

  lemma {:induction false} MeasureZero(tasks: seq<Task>)
    ensures Measure(tasks) == 0 <==> forall t :: t in tasks ==> t.phase.Done?
  {
    if tasks != [] {
      MeasureZero(tasks[1..]);
      assert tasks == [tasks[0]] + tasks[1..];
    }
  }

  /** Every move other than a new caller uses up exactly one unit of the measure. */
  lemma MeasureDecreases(q: Queue, m: Move)
    requires WellFormed(q) && Enabled(q, m) && !m.Enqueue?
    ensures Measure(Apply(q, m).tasks) == Measure(q.tasks) - 1
  {
    MeasureUpdate(q.tasks, m.id, Apply(q, m).tasks[m.id]);
  }

  predicate Drains(moves: seq<Move>) {
    forall m :: m in moves ==> !m.Enqueue?
  }

  /**
   Once callers stop arriving, a run takes exactly as many moves as the measure says before
   everything is done, and a run that can go no further has executed every task in order.
   */
  lemma {:induction false} DrainingRun(q: Queue, moves: seq<Move>)
    requires WellFormed(q) && Reached(q) && Legal(q, moves) && Drains(moves)
    ensures var q1 := After(q, moves);
            && |q1.tasks| == |q.tasks|
            && Measure(q1.tasks) == Measure(q.tasks) - |moves|
            && (AllDone(q1) <==> |moves| == Measure(q.tasks))
            && (AllDone(q1) ==> q1.trace == Canonical(|q.tasks|))
            && WellFormed(q1) && Reached(q1)
    decreases |moves|
  {
    var k: nat :| Inv(q, k);
    MeasureZero(q.tasks);
    if moves == [] {
      assert AllDone(q) ==> k == |q.tasks| by {
        if k < |q.tasks| {
          assert q.tasks[k] in q.tasks;
        }
      }
    } else {
      assert moves[0] in moves;
      StepKeepsInv(q, k, moves[0]);
      MeasureDecreases(q, moves[0]);
      DrainingRun(Apply(q, moves[0]), moves[1..]);
    }
  }

  /** A run that stops short of the end can be continued, and the continuation finishes. */
  lemma EveryRunCanFinish(q: Queue) returns (moves: seq<Move>)
    requires WellFormed(q) && Reached(q)
    ensures Legal(q, moves) && Drains(moves) && AllDone(After(q, moves))
    decreases Measure(q.tasks)
  {
    if AllDone(q) {
      moves := [];
    } else {
      ExactlyOneCanMove(q);
      var i :| 0 <= i < |q.tasks| && CanMove(q, i);
      var m := if Enabled(q, Resume(i)) then Resume(i) else Finish(i, false);
      var k: nat :| Inv(q, k);
      StepKeepsInv(q, k, m);
      MeasureDecreases(q, m);
      var rest := EveryRunCanFinish(Apply(q, m));
      moves := [m] + rest;
      assert moves[1..] == rest;
    }
  }
}
