/**
 The guarded execution pipeline of the security gateway.

 Authority is the intersection of three deterministic layers, evaluated together before the
 first await; the neural auditor is consulted only inside that intersection and can only
 narrow it.  The arbiter and the information-flow rules are modelled as they are; the
 verdicts of the capability and workflow layers and of the auditor are arbitrary inputs.
 Calls of any number of sessions interleave at the awaits on the auditor and on the tool.
 */
module GuardedExecution {
  import opened Prelude

  // ---- Information flow -------------------------------------------------------------

  datatype Tag = Clean | UserPrivate | UntrustedWeb | InjectionRisk | FinancialSensitive | AdminPrivileged

  datatype Sink = ReadSource | InternalCompute | Exfiltration | SystemExecution | FinancialTransfer | PersistentStorage

  /** Unknown tags are taken as untrusted. */
  function ParseTag(name: string): Tag {
    if name == "SYSTEM_CLEAN" then Clean
    else if name == "USER_PRIVATE" then UserPrivate
    else if name == "EXTERNAL_INJECTION_RISK" then InjectionRisk
    else if name == "FINANCIAL_SENSITIVE" then FinancialSensitive
    else if name == "ADMIN_PRIVILEGED" then AdminPrivileged
    else UntrustedWeb
  }

  function SinkOf(tool: string): Sink {
    if tool in ["send_email", "slack_post_message", "http_post"] then Exfiltration
    else if tool in ["transfer_funds", "wire_money"] then FinancialTransfer
    else if tool in ["bash_exec", "terminal_run"] then SystemExecution
    else if tool == "write_file" then PersistentStorage
    else ReadSource
  }

  function Disallowed(sink: Sink): set<Tag> {
    match sink
    case Exfiltration => {UntrustedWeb, InjectionRisk, UserPrivate, FinancialSensitive}
    case SystemExecution => {UntrustedWeb, InjectionRisk}
    case FinancialTransfer => {UntrustedWeb, InjectionRisk}
    case _ => {}
  }

  function Produced(tool: string): set<Tag> {
    if tool in ["fetch_web_page", "search_web", "read_email"] then {UntrustedWeb}
    else if tool == "read_untrusted_input" then {InjectionRisk}
    else {}
  }

  datatype Request = Request(session: string, tool: string, contextTags: seq<string>)

  function ContextTags(req: Request): set<Tag> {
    set t | t in req.contextTags :: ParseTag(t)
  }

  /** The information-flow verdict under the given session taint. */
  predicate FlowAllowed(taints: set<Tag>, req: Request) {
    (taints + ContextTags(req)) * Disallowed(SinkOf(req.tool)) == {}
  }

  /** Tools whose calls may not carry certain tags, by name. */
  predicate Exfiltrates(tool: string) {
    tool == "send_email" || tool == "slack_post_message" || tool == "http_post"
  }

  predicate Acts(tool: string) {
    tool == "transfer_funds" || tool == "wire_money" || tool == "bash_exec" || tool == "terminal_run"
  }

  predicate Rejects(tool: string, tag: Tag) {
    || (tag == UntrustedWeb && (Exfiltrates(tool) || Acts(tool)))
    || (tag == InjectionRisk && (Exfiltrates(tool) || Acts(tool)))
    || (tag == UserPrivate && Exfiltrates(tool))
    || (tag == FinancialSensitive && Exfiltrates(tool))
  }

  /** A tag that comes with the request, by name: unknown names count as untrusted. */
  predicate RejectsName(tool: string, name: string) {
    && (Exfiltrates(tool) || Acts(tool))
    && name != "SYSTEM_CLEAN" && name != "ADMIN_PRIVILEGED"
    && (name == "USER_PRIVATE" || name == "FINANCIAL_SENSITIVE" ==> Exfiltrates(tool))
  }

  lemma RejectsMeans(tool: string, tag: Tag)
    ensures Rejects(tool, tag) <==> tag in Disallowed(SinkOf(tool))
  {
  }

  lemma RejectsNameMeans(tool: string, name: string)
    ensures RejectsName(tool, name) <==> ParseTag(name) in Disallowed(SinkOf(tool))
  {
  }

  /** A call is allowed exactly when its tool rejects no tag of the session and no tag of the request. */
  lemma FlowByName(taints: set<Tag>, req: Request)
    ensures FlowAllowed(taints, req) <==>
              && (forall tag :: tag in taints ==> !Rejects(req.tool, tag))
              && (forall name :: name in req.contextTags ==> !RejectsName(req.tool, name))
  {
    var active := taints + ContextTags(req);
    forall tag ensures Rejects(req.tool, tag) <==> tag in Disallowed(SinkOf(req.tool)) {
      RejectsMeans(req.tool, tag);
    }
    forall name | name in req.contextTags
      ensures ParseTag(name) in active
      ensures RejectsName(req.tool, name) <==> ParseTag(name) in Disallowed(SinkOf(req.tool))
    {
      RejectsNameMeans(req.tool, name);
    }
    if !FlowAllowed(taints, req) {
      var tag :| tag in active * Disallowed(SinkOf(req.tool));
      if tag !in taints {
        var name :| name in req.contextTags && ParseTag(name) == tag;
      }
    } else {
      forall tag | tag in active ensures tag !in Disallowed(SinkOf(req.tool)) {
        assert tag in Disallowed(SinkOf(req.tool)) ==> tag in active * Disallowed(SinkOf(req.tool));
      }
    }
  }

  // ---- The arbiter ------------------------------------------------------------------

  datatype Final = Allow | Deny | Escalate

  // violation: what the auditor says was violated, "" when it says nothing.
  datatype Audit = Audit(decision: Final, timedOut: bool, malformed: bool, violation: string)

  // audited: `aia_evaluated`.
  datatype Decision = Decision(final: Final, permitted: bool, audited: bool, violation: string)

  function ViolationOr(a: Audit, otherwise: string): string {
    if a.violation != "" then a.violation else otherwise
  }

  function Arbitrate(cbac: bool, flow: bool, workflow: bool, audit: Option<Audit>): Decision {
    if !cbac then Decision(Deny, false, false, "CBAC_AUTHORITY_DENIAL")
    else if !flow then Decision(Deny, false, false, "DIFC_FLOW_VIOLATION")
    else if !workflow then Decision(Deny, false, false, "WORKFLOW_SEQUENCE_VIOLATION")
    else
      match audit
      case None => Decision(Allow, true, false, "none")
      case Some(a) =>
        if a.timedOut then Decision(Escalate, false, true, "AUDITOR_TIMEOUT")
        else if a.malformed then Decision(Escalate, false, true, "AUDITOR_MALFORMED_SCHEMA")
        else if a.decision == Deny then Decision(Deny, false, true, ViolationOr(a, "NEURAL_AUDITOR_BLOCK"))
        else if a.decision == Escalate then
          Decision(Escalate, false, true, ViolationOr(a, "UNCERTAIN_SECURITY_CONTEXT"))
        else Decision(Allow, true, true, "none")
  }

  /** The auditor's answer, if any, is a clear allow. */
  predicate Cleared(audit: Option<Audit>) {
    audit.Some? ==> audit.value.decision == Allow && !audit.value.timedOut && !audit.value.malformed
  }

  /** The auditor refuses in good order, but names "none" as what was violated. */
  predicate RefusesWithoutNaming(audit: Option<Audit>) {
    audit.Some? && !audit.value.timedOut && !audit.value.malformed && audit.value.decision != Allow
    && audit.value.violation == "none"
  }

  /**
   Permission is exactly the intersection of all layers, and is what an ALLOW means.  The
   violation field tells permitted calls from refused ones except for a refusal by the
   auditor that repeats the auditor's own "none".
   */
  lemma AuthorityIsIntersection(cbac: bool, flow: bool, workflow: bool, audit: Option<Audit>)
    ensures var d := Arbitrate(cbac, flow, workflow, audit);
            && (d.permitted <==> cbac && flow && workflow && Cleared(audit))
            && (d.permitted <==> d.final == Allow)
            && (d.violation == "none" <==>
                  d.permitted || (cbac && flow && workflow && RefusesWithoutNaming(audit)))
            && (d.audited <==> cbac && flow && workflow && audit.Some?)
            && (d.final == Escalate <==>
                  d.audited && (audit.value.timedOut || audit.value.malformed || audit.value.decision == Escalate))
            && (d.violation == "CBAC_AUTHORITY_DENIAL" && !d.audited <==> !cbac)
            && (d.violation == "DIFC_FLOW_VIOLATION" && !d.audited <==> cbac && !flow)
            && (d.violation == "WORKFLOW_SEQUENCE_VIOLATION" && !d.audited <==> cbac && flow && !workflow)
  {
  }

  // ---- The pipeline -----------------------------------------------------------------

  datatype Phase = Auditing | InTool | Refused | Succeeded | ToolRaised | AuditorRaised

  /**
   One guarded call.  seen and dispatched are the numbers of tool results recorded when the
   deterministic layers were evaluated and when the tool was started.
   */
  datatype Call = Call(req: Request, cbac: bool, flow: bool, workflow: bool,
                       audit: Option<Audit>, phase: Phase, seen: nat, dispatched: nat)

  /**
   sessions holds the recorded taint.  The logs are ghost: backend lists the tool runs,
   consulted the auditor's, returned the normal returns, each in order.
   */
  datatype Gateway = Gateway(
    auditorEnabled: bool,
    sessions: map<string, set<Tag>>,
    calls: seq<Call>,
    backend: seq<nat>,
    consulted: seq<nat>,
    returned: seq<nat>)

  datatype Move =
    | Submit(req: Request, cbac: bool, workflow: bool)
    | AuditorReturns(call: nat, audit: Audit)
    | AuditorRaises(call: nat)
    | ToolReturns(call: nat)
    | ToolRaises(call: nat)

  function Initial(auditorEnabled: bool): Gateway {
    Gateway(auditorEnabled, map[], [], [], [], [])
  }

  function Taints(sessions: map<string, set<Tag>>, session: string): set<Tag> {
    if session in sessions then sessions[session] else {}
  }

  predicate Enabled(g: Gateway, m: Move) {
    match m
    case Submit(_, _, _) => true
    case AuditorReturns(c, _) => c < |g.calls| && g.calls[c].phase == Auditing
    case AuditorRaises(c) => c < |g.calls| && g.calls[c].phase == Auditing
    case ToolReturns(c) => c < |g.calls| && g.calls[c].phase == InTool
    case ToolRaises(c) => c < |g.calls| && g.calls[c].phase == InTool
  }

  /** Arbitration, and the start of the tool: no await lies between them. */
  function Resolved(g: Gateway, id: nat, call: Call): (Call, seq<nat>) {
    var d := Arbitrate(call.cbac, call.flow, call.workflow, call.audit);
    if d.permitted then (call.(phase := InTool, dispatched := |g.returned|), g.backend + [id])
    else (call.(phase := Refused), g.backend)
  }

  function Apply(g: Gateway, m: Move): Gateway
    requires Enabled(g, m)
  {
    match m
    case Submit(req, cbac, workflow) =>
      var id := |g.calls|;
      var flow := FlowAllowed(Taints(g.sessions, req.session), req);
      var call := Call(req, cbac, flow, workflow, None, Auditing, |g.returned|, 0);
      if cbac && flow && workflow && g.auditorEnabled then
        g.(calls := g.calls + [call], consulted := g.consulted + [id])
      else
        var (resolved, backend) := Resolved(g, id, call);
        g.(calls := g.calls + [resolved], backend := backend)
    case AuditorReturns(c, audit) =>
      var (resolved, backend) := Resolved(g, c, g.calls[c].(audit := Some(audit)));
      g.(calls := g.calls[c := resolved], backend := backend)
    case AuditorRaises(c) =>
      g.(calls := g.calls[c := g.calls[c].(phase := AuditorRaised)])
    case ToolReturns(c) =>
      var req := g.calls[c].req;
      var produced := Produced(req.tool);
      g.(calls := g.calls[c := g.calls[c].(phase := Succeeded)],
         sessions := if produced == {} then g.sessions
                     else g.sessions[req.session := Taints(g.sessions, req.session) + produced],
         returned := g.returned + [c])
    case ToolRaises(c) =>
      g.(calls := g.calls[c := g.calls[c].(phase := ToolRaised)])
  }

  /** The session tracker and the calls in flight. */
  class MastyfGateway {
    const auditorEnabled: bool
    var sessions: map<string, set<Tag>>
    var calls: seq<Call>
    ghost var backend: seq<nat>
    ghost var consulted: seq<nat>
    var returned: seq<nat>

    ghost function State(): Gateway
      reads this
    {
      Gateway(auditorEnabled, sessions, calls, backend, consulted, returned)
    }

    constructor (enabled: bool)
      ensures State() == Initial(enabled)
    {
      auditorEnabled := enabled;
      sessions, calls, backend, consulted, returned := map[], [], [], [], [];
    }

    method RecordToolResult(session: string, tool: string)
      modifies this`sessions
      ensures sessions == if Produced(tool) == {} then old(sessions)
                          else old(sessions)[session := Taints(old(sessions), session) + Produced(tool)]
    {
      var produced := Produced(tool);
      ghost var added: set<Tag> := {};
      while produced != {}
        invariant added + produced == Produced(tool) && added !! produced
        invariant sessions == if added == {} then old(sessions)
                              else old(sessions)[session := Taints(old(sessions), session) + added]
        decreases produced
      {
        var tag :| tag in produced;
        if session !in sessions {
          sessions := sessions[session := {}];
        }
        sessions := sessions[session := sessions[session] + {tag}];
        assert Taints(old(sessions), session) + added + {tag} == Taints(old(sessions), session) + (added + {tag});
        added := added + {tag};
        produced := produced - {tag};
      }
    }

    method Resolve(id: nat)
      requires id < |calls|
      modifies this`calls, this`backend
      ensures (calls, backend) ==
              (var r := Resolved(old(State()), id, old(calls[id]));
               (old(calls)[id := r.0], r.1))
    {
      var call := calls[id];
      var decision := Arbitrate(call.cbac, call.flow, call.workflow, call.audit);
      if !decision.permitted {
        calls := calls[id := call.(phase := Refused)];
        return;
      }
      calls := calls[id := call.(phase := InTool, dispatched := |returned|)];
      backend := backend + [id];
    }

    method Submit(req: Request, cbac: bool, workflow: bool) returns (id: nat)
      modifies this
      ensures id == old(|calls|) && State() == Apply(old(State()), Move.Submit(req, cbac, workflow))
    {
      id := |calls|;
      var flow := FlowAllowed(Taints(sessions, req.session), req);
      calls := calls + [Call(req, cbac, flow, workflow, None, Auditing, |returned|, 0)];
      if cbac && flow && workflow && auditorEnabled {
        consulted := consulted + [id];
      } else {
        Resolve(id);
      }
    }

    method OnAudit(id: nat, audit: Audit)
      requires Enabled(State(), Move.AuditorReturns(id, audit))
      modifies this
      ensures State() == Apply(old(State()), Move.AuditorReturns(id, audit))
    {
      calls := calls[id := calls[id].(audit := Some(audit))];
      Resolve(id);
    }

    method OnToolReturn(id: nat)
      requires Enabled(State(), Move.ToolReturns(id))
      modifies this
      ensures State() == Apply(old(State()), Move.ToolReturns(id))
    {
      RecordToolResult(calls[id].req.session, calls[id].req.tool);
      calls := calls[id := calls[id].(phase := Succeeded)];
      returned := returned + [id];
    }

    method OnToolRaise(id: nat)
      requires Enabled(State(), Move.ToolRaises(id))
      modifies this
      ensures State() == Apply(old(State()), Move.ToolRaises(id))
    {
      calls := calls[id := calls[id].(phase := ToolRaised)];
    }
  }

  // ---- Runs -------------------------------------------------------------------------

  predicate Legal(g: Gateway, moves: seq<Move>)
    decreases |moves|
  {
    moves == [] || (Enabled(g, moves[0]) && Legal(Apply(g, moves[0]), moves[1..]))
  }

  function After(g: Gateway, moves: seq<Move>): Gateway
    requires Legal(g, moves)
    decreases |moves|
  {
    if moves == [] then g else After(Apply(g, moves[0]), moves[1..])
  }

  predicate NoDuplicates(ids: seq<nat>) {
    forall i, j :: 0 <= i < j < |ids| ==> ids[i] != ids[j]
  }

  predicate Deterministic(c: Call) {
    c.cbac && c.flow && c.workflow
  }

  /** The tool of the call was started. */
  predicate Started(c: Call) {
    c.phase == InTool || c.phase == Succeeded || c.phase == ToolRaised
  }

  predicate InRange(ids: seq<nat>, n: nat) {
    forall k :: 0 <= k < |ids| ==> ids[k] < n
  }

  /** What the listed calls put on a session. */
  function TaintOf(calls: seq<Call>, ids: seq<nat>, session: string): set<Tag>
    requires InRange(ids, |calls|)
  {
    if ids == [] then {}
    else
      var req := calls[ids[|ids| - 1]].req;
      TaintOf(calls, ids[..|ids| - 1], session) + if req.session == session then Produced(req.tool) else {}
  }

  predicate Consulted(g: Gateway, c: Call) {
    g.auditorEnabled && Deterministic(c)
  }

  ghost predicate BackendMatches(g: Gateway) {
    NoDuplicates(g.backend) && forall i :: i in g.backend <==> 0 <= i < |g.calls| && Started(g.calls[i])
  }

  ghost predicate ConsultedMatches(g: Gateway) {
    NoDuplicates(g.consulted) && forall i :: i in g.consulted <==> 0 <= i < |g.calls| && Consulted(g, g.calls[i])
  }

  ghost predicate ReturnedMatches(g: Gateway) {
    && NoDuplicates(g.returned) && InRange(g.returned, |g.calls|)
    && forall i :: i in g.returned <==> 0 <= i < |g.calls| && g.calls[i].phase == Succeeded
  }

  ghost predicate LogsMatch(g: Gateway) {
    BackendMatches(g) && ConsultedMatches(g) && ReturnedMatches(g)
  }

  lemma AppendFresh(ids: seq<nat>, id: nat)
    requires NoDuplicates(ids) && id !in ids
    ensures NoDuplicates(ids + [id])
    ensures forall i :: i in ids + [id] <==> i == id || i in ids
  {
    assert forall i :: 0 <= i < |ids| ==> ids[i] in ids;
  }

  /** The flow verdict is the rule applied to the first c.seen results. */
  predicate VerdictFromReturned(g: Gateway, c: Call)
    requires InRange(g.returned, |g.calls|)
  {
    c.seen <= |g.returned|
    && (c.flow <==> FlowAllowed(TaintOf(g.calls, g.returned[..c.seen], c.req.session), c.req))
  }

  ghost predicate CallSound(g: Gateway, c: Call)
    requires InRange(g.returned, |g.calls|)
  {
    && VerdictFromReturned(g, c)
    && (c.phase == Auditing ==> Deterministic(c) && g.auditorEnabled && c.audit == None)
    && (Started(c) ==>
          && Deterministic(c) && Cleared(c.audit) && (g.auditorEnabled ==> c.audit.Some?)
          && c.seen <= c.dispatched <= |g.returned| && (!g.auditorEnabled ==> c.dispatched == c.seen))
  }

  ghost predicate Inv(g: Gateway) {
    && LogsMatch(g)
    && (forall s :: Taints(g.sessions, s) == TaintOf(g.calls, g.returned, s))
    && (forall i :: 0 <= i < |g.calls| ==> CallSound(g, g.calls[i]))
  }

  /** Taint depends on the requests of the listed calls only. */
  lemma {:induction false} TaintOfSameRequests(a: seq<Call>, b: seq<Call>, ids: seq<nat>, session: string)
    requires InRange(ids, |a|) && InRange(ids, |b|)
    requires forall i :: 0 <= i < |a| && i < |b| ==> a[i].req == b[i].req
    ensures TaintOf(a, ids, session) == TaintOf(b, ids, session)
  {
    if ids != [] {
      TaintOfSameRequests(a, b, ids[..|ids| - 1], session);
    }
  }

  lemma StepKeepsBackend(g: Gateway, m: Move)
    requires BackendMatches(g) && Enabled(g, m)
    ensures BackendMatches(Apply(g, m))
  {
    var id := if m.Submit? then |g.calls| else m.call;
    if Apply(g, m).backend != g.backend {
      AppendFresh(g.backend, id);
    }
  }

  lemma StepKeepsConsulted(g: Gateway, m: Move)
    requires ConsultedMatches(g) && Enabled(g, m)
    ensures ConsultedMatches(Apply(g, m))
  {
    if Apply(g, m).consulted != g.consulted {
      AppendFresh(g.consulted, |g.calls|);
    }
  }

  lemma StepKeepsReturned(g: Gateway, m: Move)
    requires ReturnedMatches(g) && Enabled(g, m)
    ensures ReturnedMatches(Apply(g, m))
  {
    if m.ToolReturns? {
      AppendFresh(g.returned, m.call);
    }
  }

  /** What a step does to the calls that were there, and to the list of results. */
  lemma StepShape(g: Gateway, m: Move)
    requires LogsMatch(g) && Enabled(g, m)
    ensures var r := Apply(g, m);
            && |g.calls| <= |r.calls| && g.returned <= r.returned && r.auditorEnabled == g.auditorEnabled
            && (forall i :: 0 <= i < |g.calls| ==>
                  r.calls[i].req == g.calls[i].req && r.calls[i].seen == g.calls[i].seen)
            && LogsMatch(r)
  {
    StepKeepsBackend(g, m);
    StepKeepsConsulted(g, m);
    StepKeepsReturned(g, m);
  }

  lemma OldCallStaysSound(g: Gateway, r: Gateway, c: Call)
    requires LogsMatch(g) && LogsMatch(r) && |g.calls| <= |r.calls| && g.returned <= r.returned
    requires forall i :: 0 <= i < |g.calls| ==> r.calls[i].req == g.calls[i].req
    requires r.auditorEnabled == g.auditorEnabled && CallSound(g, c)
    ensures CallSound(r, c)
  {
    TaintOfSameRequests(g.calls, r.calls, g.returned[..c.seen], c.req.session);
    assert r.returned[..c.seen] == g.returned[..c.seen];
  }

  lemma TaintOfLast(calls: seq<Call>, ids: seq<nat>, id: nat, session: string)
    requires InRange(ids + [id], |calls|)
    ensures InRange(ids, |calls|) && id < |calls|
    ensures TaintOf(calls, ids + [id], session)
         == TaintOf(calls, ids, session) + if calls[id].req.session == session then Produced(calls[id].req.tool) else {}
  {
    var all := ids + [id];
    assert all[..|all| - 1] == ids && all[|all| - 1] == id;
    assert forall k :: 0 <= k < |ids| ==> ids[k] == all[k];
  }

  lemma ReturnTaints(g: Gateway, c: nat, s: string)
    requires Enabled(g, ToolReturns(c))
    ensures var req := g.calls[c].req;
            var added := if req.session == s then Produced(req.tool) else {};
            Taints(Apply(g, ToolReturns(c)).sessions, s) == Taints(g.sessions, s) + added
  {
  }

  lemma StepKeepsTaint(g: Gateway, m: Move, s: string)
    requires LogsMatch(g) && Enabled(g, m) && Taints(g.sessions, s) == TaintOf(g.calls, g.returned, s)
    ensures LogsMatch(Apply(g, m))
    ensures Taints(Apply(g, m).sessions, s) == TaintOf(Apply(g, m).calls, Apply(g, m).returned, s)
  {
    StepShape(g, m);
    var r := Apply(g, m);
    TaintOfSameRequests(g.calls, r.calls, g.returned, s);
    if m.ToolReturns? {
      TaintOfLast(r.calls, g.returned, m.call, s);
      ReturnTaints(g, m.call, s);
    }
  }

  lemma NewCallSound(g: Gateway, m: Move)
    requires Inv(g) && m.Submit? && LogsMatch(Apply(g, m))
    ensures CallSound(Apply(g, m), Apply(g, m).calls[|g.calls|])
  {
    var r := Apply(g, m);
    TaintOfSameRequests(g.calls, r.calls, g.returned, m.req.session);
    assert r.returned[..|r.returned|] == r.returned;
  }

  /** The call that a move is about. */
  lemma MovedCallSound(g: Gateway, m: Move)
    requires LogsMatch(g) && Enabled(g, m) && !m.Submit? && CallSound(g, g.calls[m.call]) && LogsMatch(Apply(g, m))
    ensures CallSound(Apply(g, m), Apply(g, m).calls[m.call])
  {
    StepShape(g, m);
    OldCallStaysSound(g, Apply(g, m), g.calls[m.call]);
  }

  lemma StepKeepsInv(g: Gateway, m: Move)
    requires Inv(g) && Enabled(g, m)
    ensures Inv(Apply(g, m))
  {
    StepShape(g, m);
    var r := Apply(g, m);
    forall s ensures Taints(r.sessions, s) == TaintOf(r.calls, r.returned, s) {
      StepKeepsTaint(g, m, s);
    }
    forall i | 0 <= i < |r.calls| ensures CallSound(r, r.calls[i]) {
      if i == |g.calls| {
        NewCallSound(g, m);
      } else if !m.Submit? && i == m.call {
        MovedCallSound(g, m);
      } else {
        assert r.calls[i] == g.calls[i];
        OldCallStaysSound(g, r, g.calls[i]);
      }
    }
  }

  lemma {:induction false} RunKeepsInv(g: Gateway, moves: seq<Move>)
    requires Inv(g) && Legal(g, moves)
    ensures Inv(After(g, moves))
    decreases |moves|
  {
    if moves != [] {
      StepKeepsInv(g, moves[0]);
      RunKeepsInv(Apply(g, moves[0]), moves[1..]);
    }
  }

  /**
   In every interleaving: a tool is started at most once per call, only when all three
   deterministic layers allowed it and the auditor, if enabled, cleared it; the auditor is
   consulted at most once, exactly on the calls that all three layers allowed.
   */
  lemma OnlyPermittedCallsRun(auditorEnabled: bool, moves: seq<Move>)
    requires Legal(Initial(auditorEnabled), moves)
    ensures var g := After(Initial(auditorEnabled), moves);
            && NoDuplicates(g.backend) && NoDuplicates(g.consulted)
            && (forall i :: i in g.backend ==> i < |g.calls| && PermittedCall(g.calls[i]))
            && (auditorEnabled ==> forall i :: i in g.backend ==> i in g.consulted && g.calls[i].audit.Some?)
            && (forall i :: i in g.consulted <==> 0 <= i < |g.calls| && auditorEnabled && Deterministic(g.calls[i]))
  {
    RunKeepsInv(Initial(auditorEnabled), moves);
    EnabledStays(Initial(auditorEnabled), moves);
    var g := After(Initial(auditorEnabled), moves);
    forall i | i in g.backend
      ensures i < |g.calls| && PermittedCall(g.calls[i])
      ensures auditorEnabled ==> i in g.consulted && g.calls[i].audit.Some?
    {
      BackendCallPermitted(g, i);
    }
  }

  predicate PermittedCall(c: Call) {
    Arbitrate(c.cbac, c.flow, c.workflow, c.audit).permitted
  }

  lemma BackendCallPermitted(g: Gateway, i: nat)
    requires Inv(g) && i in g.backend
    ensures i < |g.calls| && PermittedCall(g.calls[i])
    ensures g.auditorEnabled ==> i in g.consulted && g.calls[i].audit.Some?
  {
    assert CallSound(g, g.calls[i]);
  }

  lemma {:induction false} EnabledStays(g: Gateway, moves: seq<Move>)
    requires Legal(g, moves)
    ensures After(g, moves).auditorEnabled == g.auditorEnabled
    decreases |moves|
  {
    if moves != [] {
      EnabledStays(Apply(g, moves[0]), moves[1..]);
    }
  }

  /**
   In every interleaving: the taint of a session is what its own normally returned calls
   produced, and each flow verdict is the rule applied to the calls of the same session
   that had returned when the verdict was given.
   */
  lemma TaintIsOwnReturnedCalls(auditorEnabled: bool, moves: seq<Move>)
    requires Legal(Initial(auditorEnabled), moves)
    ensures var g := After(Initial(auditorEnabled), moves);
            && InRange(g.returned, |g.calls|)
            && (forall i :: i in g.returned <==> 0 <= i < |g.calls| && g.calls[i].phase == Succeeded)
            && (forall s :: Taints(g.sessions, s) == TaintOf(g.calls, g.returned, s))
            && (forall c :: c in g.calls ==> VerdictFromReturned(g, c))
  {
    RunKeepsInv(Initial(auditorEnabled), moves);
  }

  /** Tools whose results are not to be trusted, by name. */
  predicate Contaminating(tool: string) {
    tool == "fetch_web_page" || tool == "search_web" || tool == "read_email" || tool == "read_untrusted_input"
  }

  /** A session's taint, by name: untrusted after three of these tools, at risk of injection after the fourth. */
  lemma {:induction false} TaintByName(calls: seq<Call>, ids: seq<nat>, session: string, tag: Tag)
    requires InRange(ids, |calls|)
    ensures tag in TaintOf(calls, ids, session) <==>
              exists k :: 0 <= k < |ids| && Brings(calls[ids[k]].req, session, tag)
  {
    if ids != [] {
      var n := |ids| - 1;
      TaintByName(calls, ids[..n], session, tag);
      assert forall k :: 0 <= k < n ==> ids[..n][k] == ids[k];
      BringsMeans(calls[ids[n]].req, session, tag);
    }
  }

  predicate Brings(req: Request, session: string, tag: Tag) {
    && req.session == session && Contaminating(req.tool)
    && tag == if req.tool == "read_untrusted_input" then InjectionRisk else UntrustedWeb
  }

  lemma BringsMeans(req: Request, session: string, tag: Tag)
    ensures Brings(req, session, tag) <==> req.session == session && tag in Produced(req.tool)
  {
  }

  /** Calls that had returned when the verdict on c was given, of its session, with a contaminating tool. */
  predicate ContaminatedBefore(g: Gateway, c: Call)
    requires InRange(g.returned, |g.calls|) && c.seen <= |g.returned|
  {
    exists k :: 0 <= k < c.seen && ContaminatesSession(g.calls[g.returned[k]].req, c.req.session)
  }

  predicate ContaminatesSession(req: Request, session: string) {
    req.session == session && Contaminating(req.tool)
  }

  lemma VerdictByName(g: Gateway, c: Call)
    requires InRange(g.returned, |g.calls|) && VerdictFromReturned(g, c)
    ensures c.flow <==>
              && (Exfiltrates(c.req.tool) || Acts(c.req.tool) ==> !ContaminatedBefore(g, c))
              && (forall name :: name in c.req.contextTags ==> !RejectsName(c.req.tool, name))
  {
    var ids := g.returned[..c.seen];
    var taints := TaintOf(g.calls, ids, c.req.session);
    FlowByName(taints, c.req);
    forall tag
      ensures tag in taints <==> exists k :: 0 <= k < |ids| && Brings(g.calls[ids[k]].req, c.req.session, tag)
    {
      TaintByName(g.calls, ids, c.req.session, tag);
    }
    if ContaminatedBefore(g, c) {
      var k :| 0 <= k < c.seen && ContaminatesSession(g.calls[g.returned[k]].req, c.req.session);
      var tag := if g.calls[ids[k]].req.tool == "read_untrusted_input" then InjectionRisk else UntrustedWeb;
      assert Brings(g.calls[ids[k]].req, c.req.session, tag);
      assert tag in taints;
    }
    forall tag | tag in taints ensures ContaminatedBefore(g, c) && (tag == UntrustedWeb || tag == InjectionRisk) {
      var k :| 0 <= k < |ids| && Brings(g.calls[ids[k]].req, c.req.session, tag);
      assert ContaminatesSession(g.calls[g.returned[k]].req, c.req.session);
    }
  }

  /**
   In every interleaving: a call's flow verdict is to deny exactly when its tool sends data out
   or acts and a contaminating tool of its session had returned before, or when the request
   itself carries a tag that the tool rejects.  So no tool that ran was given such a request.
   */
  lemma FlowVerdictsByName(auditorEnabled: bool, moves: seq<Move>)
    requires Legal(Initial(auditorEnabled), moves)
    ensures var g := After(Initial(auditorEnabled), moves);
            && InRange(g.returned, |g.calls|)
            && (forall c :: c in g.calls ==>
                  && c.seen <= |g.returned|
                  && (c.flow <==>
                        && (Exfiltrates(c.req.tool) || Acts(c.req.tool) ==> !ContaminatedBefore(g, c))
                        && (forall name :: name in c.req.contextTags ==> !RejectsName(c.req.tool, name))))
            && (forall i :: i in g.backend ==>
                  i < |g.calls| && forall name :: name in g.calls[i].req.contextTags ==>
                    !RejectsName(g.calls[i].req.tool, name))
  {
    TaintIsOwnReturnedCalls(auditorEnabled, moves);
    OnlyPermittedCallsRun(auditorEnabled, moves);
    var g := After(Initial(auditorEnabled), moves);
    forall c | c in g.calls
      ensures c.seen <= |g.returned|
      ensures c.flow <==>
                && (Exfiltrates(c.req.tool) || Acts(c.req.tool) ==> !ContaminatedBefore(g, c))
                && (forall name :: name in c.req.contextTags ==> !RejectsName(c.req.tool, name))
    {
      VerdictByName(g, c);
    }
    forall i | i in g.backend
      ensures i < |g.calls|
      ensures forall name :: name in g.calls[i].req.contextTags ==> !RejectsName(g.calls[i].req.tool, name)
    {
      assert PermittedCall(g.calls[i]) && g.calls[i] in g.calls;
    }
  }

  // ---- The verdict and the moment of dispatch ---------------------------------------

  /** The flow rule still holds of the session's taint when the tool is started. */
  predicate SafeAtDispatch(g: Gateway, c: Call)
    requires InRange(g.returned, |g.calls|)
    requires c.dispatched <= |g.returned|
  {
    FlowAllowed(TaintOf(g.calls, g.returned[..c.dispatched], c.req.session), c.req)
  }

  /** A call of the same session returned a tag that the sink of c rejects. */
  predicate Contaminates(c: Call, other: Call) {
    other.req.session == c.req.session && Produced(other.req.tool) * Disallowed(SinkOf(c.req.tool)) != {}
  }

  /** Some call that returned in [since, until) contaminates c. */
  predicate ContaminatedBetween(g: Gateway, c: Call, since: nat, until: nat)
    requires InRange(g.returned, |g.calls|) && until <= |g.returned|
  {
    exists k :: since <= k < until && Contaminates(c, g.calls[g.returned[k]])
  }

  lemma OneMore(g: Gateway, c: Call, since: nat, until: nat)
    requires InRange(g.returned, |g.calls|) && since < until <= |g.returned|
    ensures ContaminatedBetween(g, c, since, until) <==>
              ContaminatedBetween(g, c, since, until - 1) || Contaminates(c, g.calls[g.returned[until - 1]])
  {
  }

  lemma {:induction false} FlowOverInterval(g: Gateway, c: Call, since: nat, until: nat)
    requires InRange(g.returned, |g.calls|)
    requires since <= until <= |g.returned|
    ensures FlowAllowed(TaintOf(g.calls, g.returned[..until], c.req.session), c.req) <==>
              FlowAllowed(TaintOf(g.calls, g.returned[..since], c.req.session), c.req)
              && !ContaminatedBetween(g, c, since, until)
    decreases until
  {
    if since < until {
      FlowOverInterval(g, c, since, until - 1);
      assert g.returned[..until] == g.returned[..until - 1] + [g.returned[until - 1]];
      TaintOfLast(g.calls, g.returned[..until - 1], g.returned[until - 1], c.req.session);
      OneMore(g, c, since, until);
    }
  }

  /**
   The flow verdict is given before the auditor is awaited.  A started call is safe at
   dispatch exactly when no call of its session brought in a rejected tag in between; with
   the auditor disabled there is no in between.
   */
  lemma SafeAtDispatchIff(auditorEnabled: bool, moves: seq<Move>, i: nat)
    requires Legal(Initial(auditorEnabled), moves)
    requires i < |After(Initial(auditorEnabled), moves).calls|
    requires Started(After(Initial(auditorEnabled), moves).calls[i])
    ensures var g := After(Initial(auditorEnabled), moves);
            var c := g.calls[i];
            && InRange(g.returned, |g.calls|) && c.seen <= c.dispatched <= |g.returned|
            && (SafeAtDispatch(g, c) <==> !ContaminatedBetween(g, c, c.seen, c.dispatched))
            && (!auditorEnabled ==> SafeAtDispatch(g, c))
  {
    RunKeepsInv(Initial(auditorEnabled), moves);
    EnabledStays(Initial(auditorEnabled), moves);
    var g := After(Initial(auditorEnabled), moves);
    var c := g.calls[i];
    FlowOverInterval(g, c, c.seen, c.dispatched);
  }

  lemma RunFrom(g: Gateway, m: Move, rest: seq<Move>)
    requires Enabled(g, m) && Legal(Apply(g, m), rest)
    ensures Legal(g, [m] + rest) && After(g, [m] + rest) == After(Apply(g, m), rest)
  {
    assert ([m] + rest)[1..] == rest;
  }

  /** Such an interleaving exists: a page is fetched while a post waits for the auditor. */
  lemma TaintDuringAudit(session: string) returns (moves: seq<Move>)
    ensures Legal(Initial(true), moves)
    ensures var g := After(Initial(true), moves);
            && |g.calls| == 2 && |g.returned| == 1 && g.returned[0] == 0
            && g.backend == [0, 1] && g.calls[1].dispatched == 1 && Contaminates(g.calls[1], g.calls[0])
            && !SafeAtDispatch(g, g.calls[1])
  {
    var clear := Audit(Allow, false, false, "none");
    var fetch, post := Request(session, "fetch_web_page", []), Request(session, "http_post", []);
    var m0, m1, m2, m3, m4 := Submit(fetch, true, true), AuditorReturns(0, clear), Submit(post, true, true),
                              ToolReturns(0), AuditorReturns(1, clear);
    assert ContextTags(fetch) == {} && ContextTags(post) == {};
    var g0 := Apply(Initial(true), m0);
    var g1 := Apply(g0, m1);
    var g2 := Apply(g1, m2);
    var g3 := Apply(g2, m3);
    var g4 := Apply(g3, m4);
    assert [m4] + [] == [m4];
    RunFrom(g3, m4, []);
    RunFrom(g2, m3, [m4]);
    RunFrom(g1, m2, [m3] + [m4]);
    RunFrom(g0, m1, [m2] + ([m3] + [m4]));
    RunFrom(Initial(true), m0, [m1] + ([m2] + ([m3] + [m4])));
    moves := [m0] + ([m1] + ([m2] + ([m3] + [m4])));
    assert g4.returned[..1] == [0] && [0][..0] == [];
    assert UntrustedWeb in TaintOf(g4.calls, [0], session);
  }

  // ---- What a caller can arrange ----------------------------------------------------

  /** Every started call of the run is safe at dispatch. */
  predicate SafeRun(auditorEnabled: bool, moves: seq<Move>)
    requires Legal(Initial(auditorEnabled), moves)
  {
    var g := After(Initial(auditorEnabled), moves);
    && InRange(g.returned, |g.calls|)
    && forall i :: 0 <= i < |g.calls| && Started(g.calls[i]) ==>
         g.calls[i].dispatched <= |g.returned| && SafeAtDispatch(g, g.calls[i])
  }

  /** All runs are safe exactly when the auditor is off. */
  lemma SafeRunsIffAuditorOff(auditorEnabled: bool)
    ensures (forall moves :: Legal(Initial(auditorEnabled), moves) ==> SafeRun(auditorEnabled, moves))
       <==> !auditorEnabled
  {
    if auditorEnabled {
      var moves := TaintDuringAudit("s");
      RunKeepsInv(Initial(true), moves);
      var g := After(Initial(true), moves);
      assert 1 in g.backend && Started(g.calls[1]);
      assert !SafeRun(true, moves);
    } else {
      forall moves | Legal(Initial(false), moves) ensures SafeRun(false, moves) {
        RunKeepsInv(Initial(false), moves);
        var g := After(Initial(false), moves);
        forall i | 0 <= i < |g.calls| && Started(g.calls[i])
          ensures g.calls[i].dispatched <= |g.returned| && SafeAtDispatch(g, g.calls[i])
        {
          SafeAtDispatchIff(false, moves, i);
        }
      }
    }
  }

  predicate Unfinished(c: Call, session: string) {
    c.req.session == session && (c.phase == Auditing || c.phase == InTool)
  }

  /** Calls of the session do not overlap: each is submitted when none is under way. */
  predicate OneAtATime(g: Gateway, moves: seq<Move>, session: string)
    requires Legal(g, moves)
    decreases |moves|
  {
    moves == [] ||
    (MayMove(g, moves[0], session) && OneAtATime(Apply(g, moves[0]), moves[1..], session))
  }

  predicate MayMove(g: Gateway, m: Move, session: string) {
    m.Submit? && m.req.session == session ==> forall c :: c in g.calls ==> !Unfinished(c, session)
  }

  /** None of the results recorded in [since, until) is of the session. */
  predicate NoneReturned(g: Gateway, session: string, since: nat, until: nat)
    requires InRange(g.returned, |g.calls|) && until <= |g.returned|
  {
    forall k :: since <= k < until ==> g.calls[g.returned[k]].req.session != session
  }

  ghost predicate Undisturbed(g: Gateway, c: Call)
    requires InRange(g.returned, |g.calls|)
  {
    && (c.phase == Auditing ==> NoneReturned(g, c.req.session, c.seen, |g.returned|))
    && (Started(c) ==> c.dispatched <= |g.returned| && NoneReturned(g, c.req.session, c.seen, c.dispatched))
  }

  ghost predicate SerialInv(g: Gateway, session: string) {
    && LogsMatch(g)
    && OneUnderWay(g.calls, session)
    && (forall i :: 0 <= i < |g.calls| && g.calls[i].req.session == session ==> Undisturbed(g, g.calls[i]))
  }

  lemma NoneReturnedStays(g: Gateway, r: Gateway, session: string, since: nat, until: nat)
    requires InRange(g.returned, |g.calls|) && InRange(r.returned, |r.calls|) && until <= |g.returned|
    requires |g.calls| <= |r.calls| && g.returned <= r.returned
    requires forall i :: 0 <= i < |g.calls| ==> r.calls[i].req == g.calls[i].req
    requires NoneReturned(g, session, since, until)
    ensures NoneReturned(r, session, since, until)
  {
    assert forall k :: 0 <= k < until ==> r.returned[k] == g.returned[k];
  }

  /** A call of the session is undisturbed after a step: a result of another call cannot be the session's. */
  lemma CallStaysUndisturbed(g: Gateway, m: Move, session: string, i: nat)
    requires SerialInv(g, session) && Enabled(g, m) && MayMove(g, m, session)
    requires i < |g.calls| && g.calls[i].req.session == session && LogsMatch(Apply(g, m))
    ensures Undisturbed(Apply(g, m), Apply(g, m).calls[i])
  {
    StepShape(g, m);
    var r := Apply(g, m);
    var before := g.calls[i];
    assert Undisturbed(g, before);
    if before.phase == Auditing {
      NoneReturnedStays(g, r, session, before.seen, |g.returned|);
      if m.ToolReturns? {
        assert Unfinished(before, session) && g.calls[m.call].phase == InTool;
        assert g.calls[m.call].req.session != session;
        assert r.returned == g.returned + [m.call];
      }
    } else if Started(before) {
      NoneReturnedStays(g, r, session, before.seen, before.dispatched);
    }
  }

  predicate OneUnderWay(calls: seq<Call>, session: string) {
    forall i, j :: 0 <= i < j < |calls| ==> !(Unfinished(calls[i], session) && Unfinished(calls[j], session))
  }

  lemma StepKeepsOneUnderWay(g: Gateway, m: Move, session: string)
    requires OneUnderWay(g.calls, session) && Enabled(g, m) && MayMove(g, m, session)
    ensures OneUnderWay(Apply(g, m).calls, session)
  {
    var r := Apply(g, m);
    forall i, j | 0 <= i < j < |r.calls| ensures !(Unfinished(r.calls[i], session) && Unfinished(r.calls[j], session)) {
      assert i < |g.calls| && Unfinished(r.calls[i], session) ==> Unfinished(g.calls[i], session);
      assert j < |g.calls| && Unfinished(r.calls[j], session) ==> Unfinished(g.calls[j], session);
      assert g.calls[i] in g.calls;
    }
  }

  lemma StepKeepsSerialInv(g: Gateway, m: Move, session: string)
    requires SerialInv(g, session) && Enabled(g, m) && MayMove(g, m, session)
    ensures SerialInv(Apply(g, m), session)
  {
    StepShape(g, m);
    StepKeepsOneUnderWay(g, m, session);
    var r := Apply(g, m);
    forall i | 0 <= i < |r.calls| && r.calls[i].req.session == session ensures Undisturbed(r, r.calls[i]) {
      if i < |g.calls| {
        CallStaysUndisturbed(g, m, session, i);
      }
    }
  }

  lemma {:induction false} RunKeepsSerialInv(g: Gateway, moves: seq<Move>, session: string)
    requires SerialInv(g, session) && Legal(g, moves) && OneAtATime(g, moves, session)
    ensures SerialInv(After(g, moves), session)
    decreases |moves|
  {
    if moves != [] {
      StepKeepsSerialInv(g, moves[0], session);
      RunKeepsSerialInv(Apply(g, moves[0]), moves[1..], session);
    }
  }

  /**
   With the auditor on, too: the calls of a session that never overlap are all safe at
   dispatch, whatever other sessions do.
   */
  lemma OneAtATimeIsSafe(auditorEnabled: bool, moves: seq<Move>, session: string, i: nat)
    requires Legal(Initial(auditorEnabled), moves) && OneAtATime(Initial(auditorEnabled), moves, session)
    requires i < |After(Initial(auditorEnabled), moves).calls|
    requires var c := After(Initial(auditorEnabled), moves).calls[i]; Started(c) && c.req.session == session
    ensures var g := After(Initial(auditorEnabled), moves);
            InRange(g.returned, |g.calls|) && g.calls[i].dispatched <= |g.returned| && SafeAtDispatch(g, g.calls[i])
  {
    RunKeepsSerialInv(Initial(auditorEnabled), moves, session);
    SafeAtDispatchIff(auditorEnabled, moves, i);
    var g := After(Initial(auditorEnabled), moves);
    assert Undisturbed(g, g.calls[i]);
  }
}
