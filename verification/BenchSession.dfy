/**
 Correlating JSON-RPC replies with the calls of a proxy benchmark session.

 A call registers a pending entry under its id and arms a timer, hands its request to the
 proxy, and then waits for the entry to be resolved by a reply or rejected by the timer.
 Replies, timers and the proxy act in any order.  The timer of a call whose hand-off failed
 stays armed, and fires later against whatever is registered under the id by then.

 A timer that fires while its call is not waiting for the promise rejects a promise that
 nobody handles.  Node ends the process then, unless it is told to go on: `fatal` says which,
 and the results about the pending map hold for both.
 */
module BenchSession {
  // What the response promise of a call has been settled with.
  datatype Promise = Open | Resolved(msg: int) | TimedOut

  // Sending: in `await handleClientInput`.  Awaiting: in `await responsePromise`.
  datatype Phase = Sending | Awaiting | Finished(outcome: Outcome)
  datatype Outcome = Answered(msg: int) | Timeout | SendFailed

  datatype Call = Call(id: string, promise: Promise, timerArmed: bool, phase: Phase)

  // pending maps an id to the call whose promise a reply with that id settles.
  datatype Session = Session(calls: seq<Call>, pending: map<string, nat>)

  datatype Move =
    | Begin(id: string)
    | Reply(id: string, msg: int)
    | TimerFires(call: nat)
    | SendReturns(call: nat)
    | SendFails(call: nat)
    | Deliver(call: nat)

  const IDLE := Session([], map[])

  predicate WellFormed(s: Session) {
    forall id :: id in s.pending ==> s.pending[id] < |s.calls|
  }

  predicate Enabled(s: Session, m: Move) {
    match m
    case Begin(_) => true
    case Reply(_, _) => true
    case TimerFires(c) => c < |s.calls| && s.calls[c].timerArmed
    case SendReturns(c) => c < |s.calls| && s.calls[c].phase == Sending
    case SendFails(c) => c < |s.calls| && s.calls[c].phase == Sending
    case Deliver(c) => c < |s.calls| && s.calls[c].phase == Awaiting && s.calls[c].promise != Open
  }

  /** A promise keeps what it was settled with first. */
  function SettledWith(p: Promise, q: Promise): Promise {
    if p == Open then q else p
  }

  function OutcomeOf(p: Promise): Outcome
    requires p != Open
  {
    if p.Resolved? then Answered(p.msg) else Timeout
  }

  function Apply(s: Session, m: Move): (r: Session)
    requires WellFormed(s) && Enabled(s, m)
    ensures WellFormed(r)
  {
    match m
    case Begin(id) =>
      Session(s.calls + [Call(id, Open, true, Sending)], s.pending[id := |s.calls|])
    case Reply(id, msg) =>
      if id !in s.pending then s
      else
        var c := s.pending[id];
        var call := s.calls[c].(promise := SettledWith(s.calls[c].promise, Resolved(msg)), timerArmed := false);
        Session(s.calls[c := call], s.pending - {id})
    case TimerFires(c) =>
      var call := s.calls[c].(promise := SettledWith(s.calls[c].promise, TimedOut), timerArmed := false);
      Session(s.calls[c := call], s.pending - {call.id})
    case SendReturns(c) =>
      s.(calls := s.calls[c := s.calls[c].(phase := Awaiting)])
    case SendFails(c) =>
      Session(s.calls[c := s.calls[c].(phase := Finished(SendFailed))], s.pending - {s.calls[c].id})
    case Deliver(c) =>
      // A timeout is delivered through the catch block, which deletes the id once more.
      var call := s.calls[c].(phase := Finished(OutcomeOf(s.calls[c].promise)));
      Session(s.calls[c := call], if call.promise.TimedOut? then s.pending - {call.id} else s.pending)
  }

  /** The fields the callbacks update. */
  class ProxyBenchSession {
    var calls: seq<Call>
    var pending: map<string, nat>

    function State(): Session
      reads this
    {
      Session(calls, pending)
    }

    constructor ()
      ensures State() == IDLE
    {
      calls, pending := [], map[];
    }

    method Begin(id: string) returns (call: nat)
      requires WellFormed(State())
      modifies this
      ensures call == old(|calls|) && State() == Apply(old(State()), Move.Begin(id))
    {
      call := |calls|;
      calls := calls + [Call(id, Open, true, Sending)];
      pending := pending[id := call];
    }

    method OnStdout(id: string, msg: int)
      requires WellFormed(State())
      modifies this
      ensures State() == Apply(old(State()), Move.Reply(id, msg))
    {
      if id in pending {
        var call := pending[id];
        pending := pending - {id};
        calls := calls[call := calls[call].(promise := SettledWith(calls[call].promise, Resolved(msg)),
                                            timerArmed := false)];
      }
    }

    method OnTimer(call: nat)
      requires WellFormed(State()) && Enabled(State(), Move.TimerFires(call))
      modifies this
      ensures State() == Apply(old(State()), Move.TimerFires(call))
    {
      pending := pending - {calls[call].id};
      calls := calls[call := calls[call].(promise := SettledWith(calls[call].promise, TimedOut), timerArmed := false)];
    }

    method OnSent(call: nat)
      requires WellFormed(State()) && Enabled(State(), Move.SendReturns(call))
      modifies this
      ensures State() == Apply(old(State()), Move.SendReturns(call))
    {
      calls := calls[call := calls[call].(phase := Awaiting)];
    }

    method OnSendFailed(call: nat)
      requires WellFormed(State()) && Enabled(State(), Move.SendFails(call))
      modifies this
      ensures State() == Apply(old(State()), Move.SendFails(call))
    {
      pending := pending - {calls[call].id};
      calls := calls[call := calls[call].(phase := Finished(SendFailed))];
    }

    method OnSettled(call: nat)
      requires WellFormed(State()) && Enabled(State(), Move.Deliver(call))
      modifies this
      ensures State() == Apply(old(State()), Move.Deliver(call))
    {
      if calls[call].promise.TimedOut? {
        pending := pending - {calls[call].id};
      }
      calls := calls[call := calls[call].(phase := Finished(OutcomeOf(calls[call].promise)))];
    }
  }

  // ---- Runs -------------------------------------------------------------------------

  predicate Legal(s: Session, moves: seq<Move>)
    requires WellFormed(s)
    decreases |moves|
  {
    moves == [] || (Enabled(s, moves[0]) && Legal(Apply(s, moves[0]), moves[1..]))
  }

  function After(s: Session, moves: seq<Move>): (r: Session)
    requires WellFormed(s) && Legal(s, moves)
    ensures WellFormed(r)
    decreases |moves|
  {
    if moves == [] then s else After(Apply(s, moves[0]), moves[1..])
  }

  /** Sent, and neither answered nor timed out nor abandoned. */
  predicate Outstanding(c: Call) {
    c.promise == Open && c.phase != Finished(SendFailed)
  }

  predicate CallInv(c: Call) {
    && (c.timerArmed <==> c.promise == Open)
    && (c.phase.Finished? ==>
          c.phase.outcome == SendFailed || (c.promise != Open && c.phase.outcome == OutcomeOf(c.promise)))
  }

  /** What holds in every run, however ids are reused: an entry is an outstanding call of its id. */
  ghost predicate Sound(s: Session) {
    && WellFormed(s)
    && (forall id :: id in s.pending ==> s.calls[s.pending[id]].id == id && Outstanding(s.calls[s.pending[id]]))
    && (forall i :: 0 <= i < |s.calls| ==> CallInv(s.calls[i]))
  }

  lemma StepKeepsSound(s: Session, m: Move)
    requires Sound(s) && Enabled(s, m)
    ensures Sound(Apply(s, m))
  {
    if !m.Begin? && (m.Reply? ==> m.id in s.pending) {
      var c := if m.Reply? then s.pending[m.id] else m.call;
      assert CallInv(s.calls[c]);
    }
  }

  /** Every reachable session is sound. */
  lemma {:induction false} RunKeepsSound(s: Session, moves: seq<Move>)
    requires Sound(s) && Legal(s, moves)
    ensures Sound(After(s, moves))
    decreases |moves|
  {
    if moves != [] {
      StepKeepsSound(s, moves[0]);
      RunKeepsSound(Apply(s, moves[0]), moves[1..]);
    }
  }

  // ---- When the pending map is exact ------------------------------------------------

  /** The process goes on after the move. */
  predicate Survives(fatal: bool, s: Session, m: Move)
    requires Enabled(s, m)
  {
    !(fatal && m.TimerFires? && s.calls[m.call].phase != Awaiting)
  }

  predicate RunSurvives(fatal: bool, s: Session, moves: seq<Move>): (survives: bool)
    requires WellFormed(s) && Legal(s, moves)
    ensures !fatal ==> survives
    decreases |moves|
  {
    moves == [] || (Survives(fatal, s, moves[0]) && RunSurvives(fatal, Apply(s, moves[0]), moves[1..]))
  }

  /**
   No later step of this call can delete the entry of its id: it is handed over, not waiting
   for its timer or its timeout, and has left no armed timer that the process would survive.
   */
  predicate Harmless(fatal: bool, c: Call) {
    && c.phase != Sending
    && (c.phase == Awaiting ==> c.promise.Resolved?)
    && (c.timerArmed ==> fatal)
  }

  /** The id may be used: every earlier call under it is harmless. */
  predicate Clean(fatal: bool, s: Session, id: string) {
    forall i :: 0 <= i < |s.calls| && s.calls[i].id == id ==> Harmless(fatal, s.calls[i])
  }

  /** The pending map holds exactly the ids of outstanding calls. */
  ghost predicate Exact(s: Session) {
    forall id :: id in s.pending <==> exists i :: 0 <= i < |s.calls| && s.calls[i].id == id && Outstanding(s.calls[i])
  }

  /** Of two calls under one id, one is harmless; every outstanding call is registered. */
  ghost predicate Inv(fatal: bool, s: Session) {
    && Sound(s)
    && (forall i, j :: 0 <= i < j < |s.calls| && s.calls[i].id == s.calls[j].id ==>
          Harmless(fatal, s.calls[i]) || Harmless(fatal, s.calls[j]))
    && (forall i :: 0 <= i < |s.calls| && Outstanding(s.calls[i]) ==>
          s.calls[i].id in s.pending && s.pending[s.calls[i].id] == i)
  }

  /** The id of a new call is clean; other moves are not restricted. */
  predicate CleanMove(fatal: bool, s: Session, m: Move) {
    m.Begin? ==> Clean(fatal, s, m.id)
  }

  lemma HarmlessStays(fatal: bool, s: Session, m: Move, i: nat)
    requires Sound(s) && Enabled(s, m) && i < |s.calls| && Harmless(fatal, s.calls[i])
    ensures Harmless(fatal, Apply(s, m).calls[i]) && Apply(s, m).calls[i].id == s.calls[i].id
  {
    assert CallInv(s.calls[i]);
  }

  lemma StepKeepsInv(fatal: bool, s: Session, m: Move)
    requires Inv(fatal, s) && Enabled(s, m) && CleanMove(fatal, s, m) && Survives(fatal, s, m)
    ensures Inv(fatal, Apply(s, m))
  {
    StepKeepsSound(s, m);
    var r := Apply(s, m);
    forall i, j | 0 <= i < j < |r.calls| && r.calls[i].id == r.calls[j].id
      ensures Harmless(fatal, r.calls[i]) || Harmless(fatal, r.calls[j])
    {
      if Harmless(fatal, s.calls[i]) {
        HarmlessStays(fatal, s, m, i);
      } else {
        HarmlessStays(fatal, s, m, j);
      }
    }
    forall i | 0 <= i < |r.calls| && Outstanding(r.calls[i])
      ensures r.calls[i].id in r.pending && r.pending[r.calls[i].id] == i
    {
      if i < |s.calls| {
        OutstandingStays(fatal, s, m, i);
      }
    }
  }

  lemma OutstandingStays(fatal: bool, s: Session, m: Move, i: nat)
    requires Inv(fatal, s) && Enabled(s, m) && CleanMove(fatal, s, m) && Survives(fatal, s, m)
    requires i < |s.calls| && Outstanding(Apply(s, m).calls[i])
    ensures var r := Apply(s, m); r.calls[i].id in r.pending && r.pending[r.calls[i].id] == i
  {
    assert CallInv(s.calls[i]) && Outstanding(s.calls[i]);
    if !m.Begin? && !m.Reply? && m.call != i && s.calls[m.call].id == s.calls[i].id {
      assert Harmless(fatal, s.calls[m.call]);
    }
  }

  /** Every new call of the run comes under an id that is clean at that moment. */
  predicate CleanRun(fatal: bool, s: Session, moves: seq<Move>)
    requires WellFormed(s) && Legal(s, moves)
    decreases |moves|
  {
    moves == [] || (CleanMove(fatal, s, moves[0]) && CleanRun(fatal, Apply(s, moves[0]), moves[1..]))
  }

  lemma {:induction false} RunKeepsInv(fatal: bool, s: Session, moves: seq<Move>)
    requires Inv(fatal, s) && Legal(s, moves) && RunSurvives(fatal, s, moves) && CleanRun(fatal, s, moves)
    ensures Inv(fatal, After(s, moves))
    decreases |moves|
  {
    if moves != [] {
      StepKeepsInv(fatal, s, moves[0]);
      RunKeepsInv(fatal, Apply(s, moves[0]), moves[1..]);
    }
  }

  predicate NoBegin(moves: seq<Move>) {
    forall m :: m in moves ==> !m.Begin?
  }

  lemma {:induction false} NoBeginIsClean(fatal: bool, s: Session, moves: seq<Move>)
    requires WellFormed(s) && Legal(s, moves) && NoBegin(moves)
    ensures CleanRun(fatal, s, moves)
    decreases |moves|
  {
    if moves != [] {
      assert moves[0] in moves;
      NoBeginIsClean(fatal, Apply(s, moves[0]), moves[1..]);
    }
  }

  /** However replies, timers and hand-offs go on, as long as the process does, the map stays exact. */
  ghost predicate StaysExact(fatal: bool, s: Session)
    requires WellFormed(s)
  {
    forall moves :: Legal(s, moves) && NoBegin(moves) && RunSurvives(fatal, s, moves) ==> Exact(After(s, moves))
  }

  lemma InvStaysExact(fatal: bool, s: Session)
    requires Inv(fatal, s)
    ensures StaysExact(fatal, s)
  {
    forall moves | Legal(s, moves) && NoBegin(moves) && RunSurvives(fatal, s, moves) ensures Exact(After(s, moves)) {
      NoBeginIsClean(fatal, s, moves);
      RunKeepsInv(fatal, s, moves);
    }
  }

  /** An earlier call that is not harmless can delete the entry of the new one. */
  lemma UncleanBreaks(fatal: bool, s: Session, id: string, i: nat) returns (m: Move)
    requires Inv(fatal, s) && i < |s.calls| && s.calls[i].id == id && !Harmless(fatal, s.calls[i])
    ensures var s1 := Apply(s, Begin(id));
            Enabled(s1, m) && !m.Begin? && Survives(fatal, s1, m) && !Exact(Apply(s1, m))
  {
    assert CallInv(s.calls[i]);
    m := if s.calls[i].phase == Sending then SendFails(i)
         else if s.calls[i].timerArmed then TimerFires(i)
         else Deliver(i);
    var r := Apply(Apply(s, Begin(id)), m);
    assert r.calls[|s.calls|].id == id && Outstanding(r.calls[|s.calls|]) && id !in r.pending;
  }

  /** Starting a call keeps the map exact, come what may, if and only if its id is clean. */
  lemma ReuseIffClean(fatal: bool, s: Session, id: string)
    requires Inv(fatal, s)
    ensures StaysExact(fatal, Apply(s, Begin(id))) <==> Clean(fatal, s, id)
  {
    var s1 := Apply(s, Begin(id));
    if Clean(fatal, s, id) {
      StepKeepsInv(fatal, s, Begin(id));
      InvStaysExact(fatal, s1);
    } else {
      var i :| 0 <= i < |s.calls| && s.calls[i].id == id && !Harmless(fatal, s.calls[i]);
      var m := UncleanBreaks(fatal, s, id, i);
      var moves := [m];
      assert moves[1..] == [] && NoBegin(moves) && Legal(s1, moves) && RunSurvives(fatal, s1, moves);
      assert After(s1, moves) == Apply(s1, m);
    }
  }

  /** At no point of the run is there a continuation that makes the map inexact. */
  ghost predicate AlwaysExact(fatal: bool, s: Session, moves: seq<Move>)
    requires WellFormed(s) && Legal(s, moves)
    decreases |moves|
  {
    StaysExact(fatal, s) && (moves == [] || AlwaysExact(fatal, Apply(s, moves[0]), moves[1..]))
  }

  /** Over whole runs: the map is and stays exact if and only if every new call's id is clean. */
  lemma {:induction false} ExactIffCleanRun(fatal: bool, s: Session, moves: seq<Move>)
    requires Inv(fatal, s) && Legal(s, moves) && RunSurvives(fatal, s, moves)
    ensures AlwaysExact(fatal, s, moves) <==> CleanRun(fatal, s, moves)
    decreases |moves|
  {
    InvStaysExact(fatal, s);
    if moves != [] {
      var m, s1 := moves[0], Apply(s, moves[0]);
      if CleanMove(fatal, s, m) {
        StepKeepsInv(fatal, s, m);
        ExactIffCleanRun(fatal, s1, moves[1..]);
      } else {
        ReuseIffClean(fatal, s, m.id);
      }
    }
  }

  predicate DistinctIds(calls: seq<Call>) {
    forall i, j :: 0 <= i < j < |calls| ==> calls[i].id != calls[j].id
  }

  lemma {:induction false} IdsStay(s: Session, moves: seq<Move>)
    requires WellFormed(s) && Legal(s, moves)
    ensures var r := After(s, moves);
            |s.calls| <= |r.calls| && forall i :: 0 <= i < |s.calls| ==> r.calls[i].id == s.calls[i].id
    decreases |moves|
  {
    if moves != [] {
      IdsStay(Apply(s, moves[0]), moves[1..]);
    }
  }

  /** One batch of `runConcurrent` hands out consecutive numbers: such a run is clean. */
  lemma {:induction false} DistinctIdsAreClean(fatal: bool, s: Session, moves: seq<Move>)
    requires WellFormed(s) && Legal(s, moves) && DistinctIds(After(s, moves).calls)
    ensures CleanRun(fatal, s, moves)
    decreases |moves|
  {
    if moves != [] {
      var s1 := Apply(s, moves[0]);
      IdsStay(s1, moves[1..]);
      var r := After(s1, moves[1..]);
      if moves[0].Begin? {
        var n := |s.calls|;
        forall i | 0 <= i < n ensures s.calls[i].id != moves[0].id {
          assert r.calls[i].id == s1.calls[i].id && r.calls[n].id == s1.calls[n].id;
        }
      }
      DistinctIdsAreClean(fatal, s1, moves[1..]);
    }
  }

  /**
   In every run the pending map holds outstanding calls only; in every clean run it holds
   exactly those.  When every call has finished it is empty.
   */
  lemma PendingIsOutstanding(fatal: bool, moves: seq<Move>)
    requires Legal(IDLE, moves)
    ensures var s := After(IDLE, moves);
            && (forall id :: id in s.pending ==>
                  s.calls[s.pending[id]].id == id && Outstanding(s.calls[s.pending[id]]))
            && ((forall c :: c in s.calls ==> c.phase.Finished?) ==> s.pending == map[])
            && (RunSurvives(fatal, IDLE, moves) && CleanRun(fatal, IDLE, moves) ==> Exact(s))
  {
    RunKeepsSound(IDLE, moves);
    if RunSurvives(fatal, IDLE, moves) && CleanRun(fatal, IDLE, moves) {
      RunKeepsInv(fatal, IDLE, moves);
    }
    var s := After(IDLE, moves);
    forall i | 0 <= i < |s.calls| && s.calls[i].phase.Finished? ensures !Outstanding(s.calls[i]) {
      assert CallInv(s.calls[i]);
    }
    assert forall id :: id in s.pending ==> s.calls[s.pending[id]] in s.calls;
  }

  /** Which call a move is about: the one registered under the id for a reply. */
  predicate Concerns(s: Session, m: Move, c: nat) {
    match m
    case Begin(_) => c == |s.calls|
    case Reply(id, _) => id in s.pending && s.pending[id] == c
    case TimerFires(d) => c == d
    case SendReturns(d) => c == d
    case SendFails(d) => c == d
    case Deliver(d) => c == d
  }

  predicate Registered(s: Session, c: nat) {
    c < |s.calls| && s.calls[c].id in s.pending && s.pending[s.calls[c].id] == c
  }

  /**
   A call that a move is not about is left alone, in any session; so is its entry, if the
   session got here cleanly and a new call's id is clean.  A finished call stays finished.
   */
  lemma OthersUnaffected(fatal: bool, s: Session, m: Move, c: nat)
    requires Sound(s) && Enabled(s, m) && c < |s.calls|
    ensures !Concerns(s, m, c) ==> Apply(s, m).calls[c] == s.calls[c]
    ensures !Concerns(s, m, c) && Inv(fatal, s) && CleanMove(fatal, s, m) && Survives(fatal, s, m) ==>
              (Registered(Apply(s, m), c) <==> Registered(s, c))
    ensures s.calls[c].phase.Finished? ==> Apply(s, m).calls[c].phase == s.calls[c].phase
  {
    if !Concerns(s, m, c) && Inv(fatal, s) && CleanMove(fatal, s, m) && Survives(fatal, s, m) {
      StepKeepsInv(fatal, s, m);
      assert CallInv(s.calls[c]);
    }
  }

  /**
   After every clean run: a reply under an id that was used, or never used, changes nothing
   if and only if no call under that id is still outstanding.  So with distinct ids a reply
   to a call that was answered, timed out or abandoned is ignored, however late or repeated.
   */
  lemma LateReplyIgnored(fatal: bool, moves: seq<Move>, id: string, msg: int)
    requires Legal(IDLE, moves) && RunSurvives(fatal, IDLE, moves) && CleanRun(fatal, IDLE, moves)
    ensures var s := After(IDLE, moves);
            && (Apply(s, Reply(id, msg)) == s <==>
                  forall i :: 0 <= i < |s.calls| && s.calls[i].id == id ==> !Outstanding(s.calls[i]))
            && (DistinctIds(s.calls) ==> forall i :: 0 <= i < |s.calls| && s.calls[i].id == id ==>
                  (Apply(s, Reply(id, msg)) == s <==> !Outstanding(s.calls[i])))
  {
    RunKeepsInv(fatal, IDLE, moves);
    var s := After(IDLE, moves);
    if id in s.pending {
      assert Apply(s, Reply(id, msg)).pending != s.pending;
    }
  }

  // ---- Every call finishes, once ----------------------------------------------------

  /** What a call still has to go through: its hand-off, its promise, its delivery. */
  function Steps(c: Call): nat {
    (if c.promise == Open then 1 else 0) + match c.phase case Sending => 2 case Awaiting => 1 case Finished(_) => 0
  }

  function TotalSteps(calls: seq<Call>): nat {
    if calls == [] then 0 else Steps(calls[0]) + TotalSteps(calls[1..])
  }

  lemma {:induction false} TotalStepsUpdate(calls: seq<Call>, i: nat, c: Call)
    requires i < |calls|
    ensures TotalSteps(calls[i := c]) == TotalSteps(calls) - Steps(calls[i]) + Steps(c)
    decreases i
  {
    var updated := calls[i := c];
    if i == 0 {
      assert updated[1..] == calls[1..];
    } else {
      assert updated[1..] == calls[1..][i - 1 := c];
      TotalStepsUpdate(calls[1..], i - 1, c);
    }
  }

  /** Apart from new calls and ignored replies, every move uses up steps, for reused ids too. */
  lemma StepsDecrease(s: Session, m: Move)
    requires Sound(s) && Enabled(s, m) && !m.Begin? && (m.Reply? ==> m.id in s.pending)
    ensures TotalSteps(Apply(s, m).calls) < TotalSteps(s.calls)
  {
    var c := if m.Reply? then s.pending[m.id] else m.call;
    assert CallInv(s.calls[c]);
    TotalStepsUpdate(s.calls, c, Apply(s, m).calls[c]);
  }

  /** While a call is unfinished it can move on by itself: by its hand-off, its timer or its delivery. */
  lemma UnfinishedCanMove(s: Session, c: nat) returns (m: Move)
    requires Sound(s) && c < |s.calls| && !s.calls[c].phase.Finished?
    ensures Enabled(s, m) && !m.Begin? && !m.Reply? && m.call == c
  {
    assert CallInv(s.calls[c]);
    if s.calls[c].phase == Sending {
      m := SendReturns(c);
    } else if s.calls[c].promise == Open {
      m := TimerFires(c);
    } else {
      m := Deliver(c);
    }
  }

  /** When nothing but new calls and stray replies can happen, every call has its outcome and nothing is pending. */
  lemma QuietMeansFinished(s: Session)
    requires Sound(s)
    requires forall m :: Enabled(s, m) ==> m.Begin? || m.Reply?
    ensures (forall c :: c in s.calls ==> c.phase.Finished? && !c.timerArmed) && s.pending == map[]
  {
    assert forall id :: id in s.pending ==> s.calls[s.pending[id]].timerArmed;
    forall i | 0 <= i < |s.calls| ensures s.calls[i].phase.Finished? && !s.calls[i].timerArmed {
      assert CallInv(s.calls[i]);
      assert !Enabled(s, TimerFires(i));
      if !s.calls[i].phase.Finished? {
        var m := UnfinishedCanMove(s, i);
      }
    }
  }

  predicate PendingIdsMatch(s: Session) {
    WellFormed(s) && forall id :: id in s.pending ==> s.calls[s.pending[id]].id == id
  }

  /** An answer is one that arrived under the call's own id, for reused ids too. */
  lemma {:induction false} AnswersCarryTheirId(s: Session, moves: seq<Move>, c: nat, msg: int)
    requires PendingIdsMatch(s) && Legal(s, moves) && c < |After(s, moves).calls|
    requires After(s, moves).calls[c].promise == Resolved(msg)
    ensures Reply(After(s, moves).calls[c].id, msg) in moves
         || (c < |s.calls| && s.calls[c].promise == Resolved(msg))
    decreases |moves|
  {
    if moves != [] {
      var s1 := Apply(s, moves[0]);
      AnswersCarryTheirId(s1, moves[1..], c, msg);
      IdsStay(s1, moves[1..]);
    }
  }

  /** The outcome is decided by what came first: it never changes once it is there. */
  lemma {:induction false} OutcomeIsFinal(s: Session, moves: seq<Move>, c: nat)
    requires WellFormed(s) && Legal(s, moves) && c < |s.calls|
    ensures c < |After(s, moves).calls|
    ensures var before, after := s.calls[c], After(s, moves).calls[c];
            && (before.phase.Finished? ==> after.phase == before.phase)
            && (before.promise != Open ==> after.promise == before.promise)
    decreases |moves|
  {
    IdsStay(s, moves);
    if moves != [] {
      OutcomeIsFinal(Apply(s, moves[0]), moves[1..], c);
    }
  }

  // ---- What an outcome says ---------------------------------------------------------

  /** An answer or a timeout is what the promise was settled with. */
  predicate Consistent(c: Call) {
    c.phase.Finished? ==>
      match c.phase.outcome
      case Answered(msg) => c.promise == Resolved(msg)
      case Timeout => c.promise == TimedOut
      case SendFailed => true
  }

  predicate AllConsistent(s: Session) {
    forall i :: 0 <= i < |s.calls| ==> Consistent(s.calls[i])
  }

  lemma {:induction false} RunKeepsConsistent(s: Session, moves: seq<Move>)
    requires WellFormed(s) && AllConsistent(s) && Legal(s, moves)
    ensures AllConsistent(After(s, moves))
    decreases |moves|
  {
    if moves != [] {
      RunKeepsConsistent(Apply(s, moves[0]), moves[1..]);
    }
  }

  /** A timed-out promise and a failed hand-off have their moves in the run, unless they were there before it. */
  lemma {:induction false} CausesAreInRun(s: Session, moves: seq<Move>, c: nat)
    requires WellFormed(s) && Legal(s, moves) && c < |After(s, moves).calls|
    ensures After(s, moves).calls[c].promise == TimedOut ==>
              TimerFires(c) in moves || (c < |s.calls| && s.calls[c].promise == TimedOut)
    ensures After(s, moves).calls[c].phase == Finished(SendFailed) ==>
              SendFails(c) in moves || (c < |s.calls| && s.calls[c].phase == Finished(SendFailed))
    decreases |moves|
  {
    if moves != [] {
      CausesAreInRun(Apply(s, moves[0]), moves[1..], c);
      assert moves == [moves[0]] + moves[1..];
    }
  }

  /**
   In every run, for every finished call: an answer carries the message that its promise was
   resolved with, by a reply under its id; a timeout comes from its own timer; and a failed
   hand-off from its own hand-off.
   */
  lemma OutcomeHasItsCause(moves: seq<Move>, c: nat)
    requires Legal(IDLE, moves) && c < |After(IDLE, moves).calls| && After(IDLE, moves).calls[c].phase.Finished?
    ensures var call := After(IDLE, moves).calls[c];
            match call.phase.outcome
            case Answered(msg) => call.promise == Resolved(msg) && Reply(call.id, msg) in moves
            case Timeout => call.promise == TimedOut && TimerFires(c) in moves
            case SendFailed => SendFails(c) in moves
  {
    RunKeepsConsistent(IDLE, moves);
    CausesAreInRun(IDLE, moves, c);
    var call := After(IDLE, moves).calls[c];
    assert Consistent(call);
    if call.promise.Resolved? {
      AnswersCarryTheirId(IDLE, moves, c, call.promise.msg);
    }
  }

  /** A hand-off ends once. */
  lemma {:induction false} HandedOverCannotFail(s: Session, moves: seq<Move>, c: nat)
    requires WellFormed(s) && Legal(s, moves) && c < |s.calls| && s.calls[c].phase != Sending
    ensures SendFails(c) !in moves
    decreases |moves|
  {
    if moves != [] {
      HandedOverCannotFail(Apply(s, moves[0]), moves[1..], c);
      assert moves == [moves[0]] + moves[1..];
    }
  }

  /** How a call whose promise is settled finishes. */
  lemma {:induction false} FinishesAsSettled(s: Session, moves: seq<Move>, c: nat)
    requires WellFormed(s) && Legal(s, moves) && c < |s.calls| && !s.calls[c].phase.Finished?
    requires s.calls[c].promise != Open
    ensures c < |After(s, moves).calls|
    ensures var before, after := s.calls[c], After(s, moves).calls[c];
            after.phase.Finished? ==>
              if before.phase == Sending && SendFails(c) in moves then after.phase == Finished(SendFailed)
              else if before.promise.Resolved? then after.phase == Finished(Answered(before.promise.msg))
              else after.phase == Finished(Timeout)
    decreases |moves|
  {
    if moves != [] {
      var s1 := Apply(s, moves[0]);
      assert moves == [moves[0]] + moves[1..];
      if s1.calls[c].phase != Sending {
        HandedOverCannotFail(s1, moves[1..], c);
      }
      if s1.calls[c].phase.Finished? {
        OutcomeIsFinal(s1, moves[1..], c);
      } else {
        FinishesAsSettled(s1, moves[1..], c);
      }
    }
  }

  /**
   A call that is replied to while it is pending, before its timer, and then finishes, is
   answered with that reply, unless its hand-off fails: whatever else happens in between.
   */
  lemma RepliedIsAnswered(before: seq<Move>, id: string, msg: int, rest: seq<Move>)
    requires Legal(IDLE, before) && id in After(IDLE, before).pending
    requires Legal(Apply(After(IDLE, before), Reply(id, msg)), rest)
    ensures var s := After(IDLE, before);
            var c := s.pending[id];
            var end := After(Apply(s, Reply(id, msg)), rest);
            var failed := s.calls[c].phase == Sending && SendFails(c) in rest;
            && c < |end.calls|
            && (end.calls[c].phase.Finished? ==>
                  end.calls[c].phase == Finished(if failed then SendFailed else Answered(msg)))
  {
    var s := After(IDLE, before);
    RunKeepsSound(IDLE, before);
    var c := s.pending[id];
    assert CallInv(s.calls[c]);
    FinishesAsSettled(Apply(s, Reply(id, msg)), rest, c);
  }

  /** A call whose timer fires first and that then finishes has timed out, unless its hand-off fails. */
  lemma TimedOutIsTimeout(before: seq<Move>, c: nat, rest: seq<Move>)
    requires Legal(IDLE, before) && Enabled(After(IDLE, before), TimerFires(c))
    requires !After(IDLE, before).calls[c].phase.Finished?
    requires Legal(Apply(After(IDLE, before), TimerFires(c)), rest)
    ensures var s := After(IDLE, before);
            var end := After(Apply(s, TimerFires(c)), rest);
            var failed := s.calls[c].phase == Sending && SendFails(c) in rest;
            && c < |end.calls|
            && (end.calls[c].phase.Finished? ==>
                  end.calls[c].phase == Finished(if failed then SendFailed else Timeout))
  {
    var s := After(IDLE, before);
    RunKeepsSound(IDLE, before);
    assert CallInv(s.calls[c]);
    FinishesAsSettled(Apply(s, TimerFires(c)), rest, c);
  }

  // ---- Reused ids -------------------------------------------------------------------

  /**
   Two overlapping batches that hand out one id: the timeout of the first call, which is
   waiting and handles it, removes the entry of the second, whose reply is then ignored.
   */
  lemma StaleTimerDropsReusedId(fatal: bool, id: string, msg: int)
    ensures var s0 := Apply(Apply(IDLE, Begin(id)), SendReturns(0));
            var s1 := Apply(s0, Begin(id));
            && !Clean(fatal, s0, id) && Enabled(s1, TimerFires(0)) && Survives(fatal, s1, TimerFires(0))
            && var s := Apply(s1, TimerFires(0));
               && s.calls[1].promise == Open && s.calls[1].phase == Sending
               && id !in s.pending && Apply(s, Reply(id, msg)) == s
  {
    var s0 := Apply(Apply(IDLE, Begin(id)), SendReturns(0));
    assert s0.calls[0].id == id && !Harmless(fatal, s0.calls[0]);
  }
}
