/**
 The stdin loop of the stdio proxy: the framing loop feeds a serial queue, and the queue
 dispatches one line at a time.  Chunks may arrive at any moment, also while a line is
 being dispatched, and a dispatch may fail.
 */
module StdinPipeline {
  import F = StdinFraming
  import Q = SerialQueue

  // lines[i] is the line that task i of the queue dispatches.
  datatype Pipeline = Pipeline(buffer: string, queue: Q.Queue, lines: seq<string>)

  datatype Move = Data(chunk: string) | Dispatch(id: nat) | Settle(id: nat, failed: bool)

  const INITIAL := Pipeline("", Q.INITIAL, [])

  /** n callers in a row. */
  function EnqueueAll(q: Q.Queue, n: nat): Q.Queue {
    if n == 0 then q
    else
      var p := EnqueueAll(q, n - 1);
      Q.Queue(p.gates + [false], |p.gates|, p.tasks + [Q.Task(p.gate, |p.gates|, Q.Waiting)], p.trace)
  }

  /** The state after a chunk, in terms of the framing of buffer and chunk. */
  function Received(p: Pipeline, chunk: string): Pipeline {
    var input := p.buffer + chunk;
    var lines := F.Lines(input);
    Pipeline(F.Tail(input), EnqueueAll(p.queue, |lines|), p.lines + lines)
  }

  /** The closure variables of the stdin handler. */
  class StdinLoop {
    var buffer: string
    const queue: Q.AsyncSerialQueue
    var lines: seq<string>

    ghost function State(): Pipeline
      reads this, queue
    {
      Pipeline(buffer, queue.State(), lines)
    }

    constructor ()
      ensures fresh(queue) && State() == INITIAL
    {
      buffer, lines := "", [];
      queue := new Q.AsyncSerialQueue();
    }

    /** The 'data' handler. */
    method OnData(chunk: string)
      requires Q.WellFormed(queue.State())
      modifies this`buffer, this`lines, queue
      ensures State() == Received(old(State()), chunk) && Q.WellFormed(queue.State())
    {
      ghost var before := State();
      buffer := buffer + chunk;
      ghost var input := buffer;
      ghost var cut: seq<string> := [];
      while '\n' in buffer
        invariant F.Tail(input) == F.Tail(buffer) && F.Lines(input) == cut + F.Lines(buffer)
        invariant lines == before.lines + cut
        invariant queue.State() == EnqueueAll(before.queue, |cut|) && Q.WellFormed(queue.State())
        decreases |buffer|
      {
        F.CutFirst(buffer, cut);
        var newlineIdx := F.FirstNewline(buffer);
        var line := F.Trim(buffer[..newlineIdx]);
        buffer := buffer[newlineIdx + 1..];
        if line != "" {
          var id := queue.Enqueue();
          F.ConcatAssoc(before.lines, cut, [line]);
          lines := lines + [line];
          cut := cut + [line];
        }
      }
      F.NoNewlineNoLines(buffer);
      assert cut + [] == cut;
    }
  }

  // ---- Runs -------------------------------------------------------------------------

  predicate Enabled(p: Pipeline, m: Move)
    requires Q.WellFormed(p.queue)
  {
    match m
    case Data(_) => true
    case Dispatch(i) => Q.Enabled(p.queue, Q.Resume(i))
    case Settle(i, failed) => Q.Enabled(p.queue, Q.Finish(i, failed))
  }

  function Apply(p: Pipeline, m: Move): Pipeline
    requires Q.WellFormed(p.queue) && Enabled(p, m)
  {
    match m
    case Data(chunk) => Received(p, chunk)
    case Dispatch(i) => p.(queue := Q.Apply(p.queue, Q.Resume(i)))
    case Settle(i, failed) => p.(queue := Q.Apply(p.queue, Q.Finish(i, failed)))
  }

  predicate Legal(p: Pipeline, moves: seq<Move>)
    requires Q.WellFormed(p.queue)
    decreases |moves|
  {
    moves == [] ||
    (Enabled(p, moves[0]) && Q.WellFormed(Apply(p, moves[0]).queue) && Legal(Apply(p, moves[0]), moves[1..]))
  }

  function After(p: Pipeline, moves: seq<Move>): (r: Pipeline)
    requires Q.WellFormed(p.queue) && Legal(p, moves)
    ensures Q.WellFormed(r.queue)
    decreases |moves|
  {
    if moves == [] then p else After(Apply(p, moves[0]), moves[1..])
  }

  /** Everything received on stdin, however it was chunked. */
  function Stream(moves: seq<Move>): string {
    if moves == [] then "" else Text(moves[0]) + Stream(moves[1..])
  }

  function Text(m: Move): string {
    if m.Data? then m.chunk else ""
  }

  /** The lines handed to the dispatcher so far, in the order they were handed over. */
  function Dispatched(trace: seq<Q.Event>, lines: seq<string>): seq<string> {
    if trace == [] then []
    else
      var e := trace[|trace| - 1];
      Dispatched(trace[..|trace| - 1], lines) + if e.Started? && e.id < |lines| then [lines[e.id]] else []
  }

  ghost predicate Inv(p: Pipeline, stream: string, k: nat) {
    && Q.WellFormed(p.queue) && Q.Inv(p.queue, k) && |p.queue.tasks| == |p.lines|
    && p.lines == F.Lines(stream) && p.buffer == F.Tail(stream)
  }

  lemma EnqueueAllKeepsInv(q: Q.Queue, k: nat, n: nat)
    requires Q.WellFormed(q) && Q.Inv(q, k)
    ensures var q1 := EnqueueAll(q, n);
            Q.WellFormed(q1) && Q.Inv(q1, k) && |q1.tasks| == |q.tasks| + n
  {
    if n > 0 {
      EnqueueAllKeepsInv(q, k, n - 1);
      Q.StepKeepsInv(EnqueueAll(q, n - 1), k, Q.Enqueue);
    }
  }

  lemma StepKeepsInv(p: Pipeline, stream: string, k: nat, m: Move)
    requires Inv(p, stream, k) && Enabled(p, m)
    ensures Inv(Apply(p, m), stream + Text(m), if m.Settle? then k + 1 else k)
  {
    match m
    case Data(chunk) =>
      F.AppendChunk(stream, chunk);
      EnqueueAllKeepsInv(p.queue, k, |F.Lines(p.buffer + chunk)|);
    case Dispatch(i) =>
      Q.StepKeepsInv(p.queue, k, Q.Resume(i));
      assert stream + Text(m) == stream;
    case Settle(i, failed) =>
      Q.StepKeepsInv(p.queue, k, Q.Finish(i, failed));
      assert stream + Text(m) == stream;
  }

  lemma {:induction false} RunKeepsInv(p: Pipeline, stream: string, k: nat, moves: seq<Move>) returns (k1: nat)
    requires Inv(p, stream, k) && Legal(p, moves)
    ensures Inv(After(p, moves), stream + Stream(moves), k1)
    decreases |moves|
  {
    if moves == [] {
      k1 := k;
      assert stream + Stream(moves) == stream;
    } else {
      var m := moves[0];
      StepKeepsInv(p, stream, k, m);
      k1 := RunKeepsInv(Apply(p, m), stream + Text(m), if m.Settle? then k + 1 else k, moves[1..]);
      F.ConcatAssoc(stream, Text(m), Stream(moves[1..]));
    }
  }

  /** What every run from the start keeps. */
  lemma ReachedInv(moves: seq<Move>) returns (k: nat)
    requires Legal(INITIAL, moves)
    ensures Inv(After(INITIAL, moves), Stream(moves), k)
  {
    F.NoNewlineNoLines("");
    k := RunKeepsInv(INITIAL, "", 0, moves);
    assert "" + Stream(moves) == Stream(moves);
  }

  lemma DispatchedCanonical(k: nat, lines: seq<string>)
    requires k <= |lines|
    ensures Dispatched(Q.Canonical(k), lines) == lines[..k]
    ensures k < |lines| ==> Dispatched(Q.Canonical(k) + [Q.Started(k)], lines) == lines[..k + 1]
  {
    if k > 0 {
      DispatchedCanonical(k - 1, lines);
      var t := Q.Canonical(k);
      assert t[..|t| - 1] == Q.Canonical(k - 1) + [Q.Started(k - 1)];
    }
    var u := Q.Canonical(k) + [Q.Started(k)];
    assert u[..|u| - 1] == Q.Canonical(k);
  }

  lemma InvDispatches(p: Pipeline, stream: string, k: nat)
    requires Inv(p, stream, k)
    ensures Dispatched(p.queue.trace, p.lines) <= F.Lines(stream)
    ensures Q.AllDone(p.queue) ==> Dispatched(p.queue.trace, p.lines) == F.Lines(stream)
  {
    DispatchedCanonical(k, p.lines);
    assert Q.Canonical(k) + [] == Q.Canonical(k);
    if k == |p.lines| {
      assert p.lines[..k] == p.lines;
    } else {
      assert p.queue.tasks[k] in p.queue.tasks;
    }
  }

  /**
   End to end, for every chunking and every interleaving of input with dispatching: the
   buffer is the unterminated tail of the whole stream, one line at most is in flight, the
   dispatched lines are a prefix of the lines of the whole stream in order, and when nothing
   is left to do all of them have been dispatched, failed dispatches included.
   */
  lemma StreamDispatched(moves: seq<Move>)
    requires Legal(INITIAL, moves)
    ensures var p, stream := After(INITIAL, moves), Stream(moves);
            && p.buffer == F.Tail(stream)
            && Dispatched(p.queue.trace, p.lines) <= F.Lines(stream)
            && (forall i, j | 0 <= i < |p.queue.tasks| && 0 <= j < |p.queue.tasks| ::
                  p.queue.tasks[i].phase.Running? && p.queue.tasks[j].phase.Running? ==> i == j)
            && (Q.AllDone(p.queue) ==> Dispatched(p.queue.trace, p.lines) == F.Lines(stream))
  {
    var k := ReachedInv(moves);
    InvDispatches(After(INITIAL, moves), Stream(moves), k);
  }

  /** Two runs that received the same characters dispatch the same lines, however they were cut. */
  lemma ChunkingIrrelevant(a: seq<Move>, b: seq<Move>)
    requires Legal(INITIAL, a) && Legal(INITIAL, b) && Stream(a) == Stream(b)
    ensures var p, q := After(INITIAL, a), After(INITIAL, b);
            && p.buffer == q.buffer
            && (Q.AllDone(p.queue) && Q.AllDone(q.queue) ==>
                  Dispatched(p.queue.trace, p.lines) == Dispatched(q.queue.trace, q.lines))
  {
    StreamDispatched(a);
    StreamDispatched(b);
  }

  // ---- Progress ---------------------------------------------------------------------

  predicate NoData(moves: seq<Move>) {
    forall m :: m in moves ==> !m.Data?
  }

  function QueueMove(m: Move): Q.Move
    requires !m.Data?
  {
    if m.Dispatch? then Q.Resume(m.id) else Q.Finish(m.id, m.failed)
  }

  function QueueMoves(moves: seq<Move>): seq<Q.Move>
    requires NoData(moves)
  {
    if moves == [] then [] else [QueueMove(moves[0])] + QueueMoves(moves[1..])
  }

  /** Without further input the pipeline moves exactly as its queue does. */
  lemma {:induction false} RunsLikeQueue(p: Pipeline, moves: seq<Move>)
    requires Q.WellFormed(p.queue) && Legal(p, moves) && NoData(moves)
    ensures var queueMoves := QueueMoves(moves);
            && |queueMoves| == |moves| && Q.Drains(queueMoves) && Q.Legal(p.queue, queueMoves)
            && After(p, moves) == p.(queue := Q.After(p.queue, queueMoves))
    decreases |moves|
  {
    if moves != [] {
      assert moves[0] in moves;
      RunsLikeQueue(Apply(p, moves[0]), moves[1..]);
      assert QueueMoves(moves)[1..] == QueueMoves(moves[1..]);
    }
  }

  predicate CanMove(p: Pipeline, m: Move)
    requires Q.WellFormed(p.queue)
  {
    !m.Data? && Enabled(p, m)
  }

  lemma {:induction false} NoDataNoStream(moves: seq<Move>)
    requires NoData(moves)
    ensures Stream(moves) == ""
  {
    if moves != [] {
      assert moves[0] in moves;
      NoDataNoStream(moves[1..]);
    }
  }

  /** A state whose queue has work left can go on. */
  lemma WorkCanMove(p: Pipeline)
    requires Q.WellFormed(p.queue) && Q.Reached(p.queue) && !Q.AllDone(p.queue)
    ensures exists m :: CanMove(p, m)
  {
    Q.ExactlyOneCanMove(p.queue);
    var i :| 0 <= i < |p.queue.tasks| && Q.CanMove(p.queue, i);
    assert CanMove(p, Dispatch(i)) || CanMove(p, Settle(i, false));
  }

  /** From a reached state, without further input: how long it takes, and what it leaves. */
  lemma DrainingPipeline(p: Pipeline, stream: string, k: nat, rest: seq<Move>)
    requires Inv(p, stream, k) && Legal(p, rest) && NoData(rest)
    ensures var q, measure := After(p, rest), Q.Measure(p.queue.tasks);
            && |rest| <= measure
            && (|rest| == measure ==> Dispatched(q.queue.trace, q.lines) == F.Lines(stream))
            && (|rest| < measure ==> exists m :: CanMove(q, m))
  {
    assert Q.Reached(p.queue);
    RunsLikeQueue(p, rest);
    Q.DrainingRun(p.queue, QueueMoves(rest));
    var k1 := RunKeepsInv(p, stream, k, rest);
    NoDataNoStream(rest);
    assert stream + "" == stream;
    InvDispatches(After(p, rest), stream, k1);
    if |rest| < Q.Measure(p.queue.tasks) {
      WorkCanMove(After(p, rest));
    }
  }

  /**
   After the last chunk every continuation dispatches the whole stream: it has at most as
   many moves as the queue's measure says, with that many it has dispatched every line in
   order, and with fewer it can go on.
   */
  lemma EveryLineIsDispatched(received: seq<Move>, rest: seq<Move>)
    requires Legal(INITIAL, received) && Legal(After(INITIAL, received), rest) && NoData(rest)
    ensures var p := After(INITIAL, received);
            var q, measure := After(p, rest), Q.Measure(p.queue.tasks);
            && |rest| <= measure
            && (|rest| == measure ==> Dispatched(q.queue.trace, q.lines) == F.Lines(Stream(received)))
            && (|rest| < measure ==> exists m :: CanMove(q, m))
  {
    var k := ReachedInv(received);
    DrainingPipeline(After(INITIAL, received), Stream(received), k, rest);
  }
}
