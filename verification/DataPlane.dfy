/**
 The data plane's verdict on a request, its HTTP handler, and whole runs of handlers,
 rule synchronisations and the shared call budget.  Case folding is that of ASCII.
 */
module DataPlane {
  import opened Prelude
  import B = EdgeBudget
  import R = RulesSync

  datatype Request = Request(rpcMethod: string, name: string, toolName: string)

  datatype Verdict = Pass | Block(reason: string)

  function LowerChar(c: char): char {
    if 'A' <= c <= 'Z' then c + 32 as char else c
  }

  function Lower(s: string): string {
    seq(|s|, i requires 0 <= i < |s| => LowerChar(s[i]))
  }

  predicate EqualFold(a: string, b: string) {
    Lower(a) == Lower(b)
  }

  predicate OccursAt(s: string, part: string, i: nat) {
    i + |part| <= |s| && s[i..i + |part|] == part
  }

  predicate Contains(s: string, part: string) {
    exists i :: 0 <= i <= |s| && OccursAt(s, part, i)
  }

  function ExtractToolName(req: Request): string {
    if req.name != "" then req.name
    else if req.toolName != "" then req.toolName
    else req.rpcMethod
  }

  const TOOLS_CALL := "tools/call"

  predicate NamedBlocked(rules: R.Rules, tool: string) {
    exists i :: 0 <= i < |rules.blockedTools| && EqualFold(rules.blockedTools[i], tool)
  }

  predicate TermMatches(term: string, tool: string) {
    term != "" && Contains(Lower(tool), Lower(term))
  }

  predicate TermBlocked(rules: R.Rules, tool: string) {
    exists i :: 0 <= i < |rules.blockedMethodSubstrings| && TermMatches(rules.blockedMethodSubstrings[i], tool)
  }

  /** Some deny rule of this snapshot matches the (lower-cased) tool. */
  predicate DenyMatches(rules: R.Rules, denylist: set<string>, tool: string) {
    tool in denylist || NamedBlocked(rules, tool) || TermBlocked(rules, tool)
  }

  function DenyVerdict(rules: R.Rules, denylist: set<string>, tool: string): Verdict {
    if tool in denylist then Block("blocked_by_static_denylist")
    else if NamedBlocked(rules, tool) then Block("blocked_by_compiled_rules.blockedTools")
    else if TermBlocked(rules, tool) then Block("blocked_by_compiled_rules.blockedMethodSubstrings")
    else Pass
  }

  function Decide(w: B.Window, req: Request, rules: R.Rules, denylist: set<string>, now: int): (B.Window, Verdict) {
    var tool := Lower(ExtractToolName(req));
    if req.rpcMethod != TOOLS_CALL || tool == "" then (w, Pass)
    else
      var (w1, budget) := B.Step(w, B.Call(now, rules.tokensPerMinuteCap));
      (w1, if budget == B.Refused then Block("edge_budget_cap_exceeded") else DenyVerdict(rules, denylist, tool))
  }

  method ShouldBlock(guard: B.Guard, req: Request, rules: R.Rules, denylist: set<string>, now: int)
    returns (verdict: Verdict)
    modifies guard
    ensures (guard.Window(), verdict) == Decide(old(guard.Window()), req, rules, denylist, now)
  {
    if req.rpcMethod != TOOLS_CALL {
      return Pass;
    }
    var tool := Lower(ExtractToolName(req));
    if tool == "" {
      return Pass;
    }
    var budget := guard.Check(rules.tokensPerMinuteCap, now);
    if budget == B.Refused {
      return Block("edge_budget_cap_exceeded");
    }
    if tool in denylist {
      return Block("blocked_by_static_denylist");
    }
    for i := 0 to |rules.blockedTools|
      invariant forall j :: 0 <= j < i ==> !EqualFold(rules.blockedTools[j], tool)
    {
      if EqualFold(rules.blockedTools[i], tool) {
        return Block("blocked_by_compiled_rules.blockedTools");
      }
    }
    for i := 0 to |rules.blockedMethodSubstrings|
      invariant forall j :: 0 <= j < i ==> !TermMatches(rules.blockedMethodSubstrings[j], tool)
    {
      var term := rules.blockedMethodSubstrings[i];
      if term != "" && Contains(Lower(tool), Lower(term)) {
        return Block("blocked_by_compiled_rules.blockedMethodSubstrings");
      }
    }
    return Pass;
  }

  // ---- What the verdict depends on --------------------------------------------------

  /** A call is blocked exactly when the budget refuses it or a deny rule matches. */
  lemma BlockedIff(w: B.Window, req: Request, rules: R.Rules, denylist: set<string>, now: int)
    ensures var tool := Lower(ExtractToolName(req));
            var refused := B.Step(w, B.Call(now, rules.tokensPerMinuteCap)).1 == B.Refused;
            Decide(w, req, rules, denylist, now).1.Block? <==>
              req.rpcMethod == TOOLS_CALL && tool != "" && (refused || DenyMatches(rules, denylist, tool))
  {
  }

  // ---- What the verdict is, in terms of the request's fields ------------------------

  /** t is s with the ASCII capitals, and nothing else, replaced by small letters. */
  predicate IsLowerOf(t: string, s: string) {
    && |t| == |s|
    && forall i :: 0 <= i < |s| ==> if 'A' <= s[i] <= 'Z' then t[i] as int == s[i] as int + 32 else t[i] == s[i]
  }

  lemma LowerMeans(s: string, t: string)
    ensures IsLowerOf(t, s) <==> t == Lower(s)
  {
    if IsLowerOf(t, s) {
      forall i | 0 <= i < |s| ensures t[i] == Lower(s)[i] {
        LowerCharMeans(s[i], t[i]);
      }
    }
  }

  lemma LowerCharMeans(c: char, d: char)
    ensures LowerChar(c) == d <==> if 'A' <= c <= 'Z' then d as int == c as int + 32 else d == c
  {
  }

  lemma LowerTwice(s: string)
    ensures Lower(Lower(s)) == Lower(s)
  {
  }

  /** The field that names the tool of a call: the name, else the tool name, else the method itself. */
  predicate Names(req: Request, field: string) {
    || (req.name != "" && field == req.name)
    || (req.name == "" && req.toolName != "" && field == req.toolName)
    || (req.name == "" && req.toolName == "" && field == req.rpcMethod)
  }

  /**
   A small-letter tool is denied: it is on the static list, it is one of the blocked names
   in any case, or a blocked term, not empty, occurs in it in any case.
   */
  ghost predicate IsDenied(rules: R.Rules, denylist: set<string>, tool: string) {
    || tool in denylist
    || (exists name :: name in rules.blockedTools && IsLowerOf(tool, name))
    || (exists term, before, small, after :: Occurs(rules, tool, term, before, small, after))
  }

  predicate Occurs(rules: R.Rules, tool: string, term: string, before: string, small: string, after: string) {
    term in rules.blockedMethodSubstrings && term != "" && IsLowerOf(small, term) && tool == before + small + after
  }

  lemma NamedBlockedMeans(rules: R.Rules, tool: string)
    requires Lower(tool) == tool
    ensures NamedBlocked(rules, tool) <==> exists name :: name in rules.blockedTools && IsLowerOf(tool, name)
  {
    if NamedBlocked(rules, tool) {
      var i :| 0 <= i < |rules.blockedTools| && EqualFold(rules.blockedTools[i], tool);
      LowerMeans(rules.blockedTools[i], tool);
      assert rules.blockedTools[i] in rules.blockedTools;
    }
    forall name | name in rules.blockedTools && IsLowerOf(tool, name) ensures NamedBlocked(rules, tool) {
      LowerMeans(name, tool);
      var i :| 0 <= i < |rules.blockedTools| && rules.blockedTools[i] == name;
      assert EqualFold(rules.blockedTools[i], tool);
    }
  }

  lemma TermBlockedMeans(rules: R.Rules, tool: string)
    requires Lower(tool) == tool
    ensures TermBlocked(rules, tool) <==>
              exists term, before, small, after :: Occurs(rules, tool, term, before, small, after)
  {
    if TermBlocked(rules, tool) {
      var i :| 0 <= i < |rules.blockedMethodSubstrings| && TermMatches(rules.blockedMethodSubstrings[i], tool);
      var term := rules.blockedMethodSubstrings[i];
      var k :| 0 <= k <= |tool| && OccursAt(tool, Lower(term), k);
      LowerMeans(term, Lower(term));
      assert tool == tool[..k] + tool[k..k + |term|] + tool[k + |term|..];
      assert Occurs(rules, tool, term, tool[..k], Lower(term), tool[k + |term|..]);
    }
    forall term, before, small, after | Occurs(rules, tool, term, before, small, after)
      ensures TermBlocked(rules, tool)
    {
      LowerMeans(term, small);
      assert tool[|before|..|before| + |small|] == small;
      assert OccursAt(tool, small, |before|);
      var i :| 0 <= i < |rules.blockedMethodSubstrings| && rules.blockedMethodSubstrings[i] == term;
      assert TermMatches(rules.blockedMethodSubstrings[i], tool);
    }
  }

  lemma DeniedMeans(rules: R.Rules, denylist: set<string>, s: string)
    ensures DenyMatches(rules, denylist, Lower(s)) <==> IsDenied(rules, denylist, Lower(s))
  {
    LowerTwice(s);
    NamedBlockedMeans(rules, Lower(s));
    TermBlockedMeans(rules, Lower(s));
  }

  /**
   For every request: with `field` the field that names the tool and `tool` its text in small
   letters, a tools/call is blocked exactly when the budget refuses it or the tool is denied.
   The name wins over the tool name, and no other field matters.  The reason says which of
   the two it was, the budget first; and calls of other methods are never blocked.
   */
  lemma BlockedByField(w: B.Window, req: Request, rules: R.Rules, denylist: set<string>, now: int,
                       field: string, tool: string)
    requires Names(req, field) && IsLowerOf(tool, field)
    ensures var verdict := Decide(w, req, rules, denylist, now).1;
            var refused := B.Step(w, B.Call(now, rules.tokensPerMinuteCap)).1 == B.Refused;
            && (verdict.Block? <==> req.rpcMethod == "tools/call" && (refused || IsDenied(rules, denylist, tool)))
            && (verdict == Block("edge_budget_cap_exceeded") <==> req.rpcMethod == "tools/call" && refused)
            && (verdict == Block("blocked_by_static_denylist") <==>
                  req.rpcMethod == "tools/call" && !refused && tool in denylist)
            && (verdict == Block("blocked_by_compiled_rules.blockedTools") <==>
                  req.rpcMethod == "tools/call" && !refused && tool !in denylist
                  && exists name :: name in rules.blockedTools && IsLowerOf(tool, name))
    ensures Decide(w, req, rules, denylist, now).0
         == if req.rpcMethod == "tools/call" then B.Step(w, B.Call(now, rules.tokensPerMinuteCap)).0 else w
  {
    LowerMeans(field, tool);
    LowerTwice(field);
    NamedBlockedMeans(rules, tool);
    DeniedMeans(rules, denylist, field);
    assert ExtractToolName(req) == field;
  }

  /** The ASCII case of the name fields never matters. */
  lemma CaseIrrelevant(w: B.Window, a: Request, b: Request, rules: R.Rules, denylist: set<string>, now: int)
    requires a.rpcMethod == b.rpcMethod && EqualFold(a.name, b.name) && EqualFold(a.toolName, b.toolName)
    ensures Decide(w, a, rules, denylist, now) == Decide(w, b, rules, denylist, now)
  {
    assert |Lower(a.name)| == |Lower(b.name)| && |Lower(a.toolName)| == |Lower(b.toolName)|;
    assert a.name == "" <==> b.name == "";
    assert a.toolName == "" <==> b.toolName == "";
  }

  /** The second set of rules denies at least what the first one denies. */
  predicate Stricter(rules: R.Rules, denylist: set<string>, rules': R.Rules, denylist': set<string>) {
    && denylist <= denylist' && rules'.tokensPerMinuteCap == rules.tokensPerMinuteCap
    && (forall n :: n in rules.blockedTools ==> n in rules'.blockedTools)
    && (forall t :: t in rules.blockedMethodSubstrings ==> t in rules'.blockedMethodSubstrings)
  }

  /** Adding deny entries never turns a block into a pass, and leaves the budget alone. */
  lemma StricterBlocksMore(w: B.Window, req: Request, rules: R.Rules, denylist: set<string>,
                           rules': R.Rules, denylist': set<string>, now: int)
    requires Stricter(rules, denylist, rules', denylist')
    ensures var (w1, v1), (w2, v2) := Decide(w, req, rules, denylist, now), Decide(w, req, rules', denylist', now);
            w1 == w2 && (v1.Block? ==> v2.Block?)
  {
    var tool := Lower(ExtractToolName(req));
    if NamedBlocked(rules, tool) {
      var i :| 0 <= i < |rules.blockedTools| && EqualFold(rules.blockedTools[i], tool);
      assert rules.blockedTools[i] in rules'.blockedTools;
    }
    if TermBlocked(rules, tool) {
      var i :| 0 <= i < |rules.blockedMethodSubstrings| && TermMatches(rules.blockedMethodSubstrings[i], tool);
      assert rules.blockedMethodSubstrings[i] in rules'.blockedMethodSubstrings;
    }
  }

  // ---- The handler ------------------------------------------------------------------

  // decoded is None when the body is not a JSON-RPC request.
  datatype Incoming = Incoming(authorized: bool, post: bool, bodyRead: bool, decoded: Option<Request>)

  datatype Config = Config(shadow: bool, failOpen: bool, denylist: set<string>)

  // mark: the reason put into the shadow-mode header.
  datatype Reply = Unauthorized | BadRequest | Unavailable | Denied(reason: string) | Forwarded(mark: Option<string>)

  datatype Snapshot = Snapshot(rules: R.Rules, ready: bool)

  predicate Inspected(cfg: Config, inc: Incoming, snap: Snapshot) {
    inc.authorized && inc.post && inc.bodyRead && inc.decoded.Some? && (snap.ready || cfg.failOpen)
  }

  function Handle(cfg: Config, w: B.Window, snap: Snapshot, inc: Incoming, now: int): (B.Window, Reply) {
    if !inc.authorized then (w, Unauthorized)
    else if !inc.post then (w, Forwarded(None))
    else if !inc.bodyRead then (w, BadRequest)
    else if inc.decoded.None? then (w, Forwarded(None))
    else if !snap.ready && !cfg.failOpen then (w, Unavailable)
    else
      var (w1, v) := Decide(w, inc.decoded.value, snap.rules, cfg.denylist, now);
      (w1, match v
           case Pass => Forwarded(None)
           case Block(reason) => if cfg.shadow then Forwarded(Some(reason)) else Denied(reason))
  }

  /**
   The handler's reply in each case: 401 without authorization, 400 for an unreadable body,
   503 for a decodable POST before the first rules in strict mode, 403 for a blocked call
   outside shadow mode; everything else is passed on, marked exactly when shadow mode let a
   blocked call through.
   */
  lemma ReplyMeans(cfg: Config, w: B.Window, snap: Snapshot, inc: Incoming, now: int)
    ensures var reply := Handle(cfg, w, snap, inc, now).1;
            var decodable := inc.authorized && inc.post && inc.bodyRead && inc.decoded.Some?;
            && (reply == Unauthorized <==> !inc.authorized)
            && (reply == BadRequest <==> inc.authorized && inc.post && !inc.bodyRead)
            && (reply == Unavailable <==> decodable && !snap.ready && !cfg.failOpen)
            && (forall reason :: reply == Denied(reason) <==>
                  decodable && (snap.ready || cfg.failOpen) && !cfg.shadow
                  && Decide(w, inc.decoded.value, snap.rules, cfg.denylist, now).1 == Block(reason))
            && (forall reason :: reply == Forwarded(Some(reason)) <==>
                  decodable && (snap.ready || cfg.failOpen) && cfg.shadow
                  && Decide(w, inc.decoded.value, snap.rules, cfg.denylist, now).1 == Block(reason))
            && (!(decodable && (snap.ready || cfg.failOpen)) ==> Handle(cfg, w, snap, inc, now).0 == w)
  {
  }

  // ---- Runs -------------------------------------------------------------------------

  // seen: how many exchanges with the control plane preceded the handler's snapshot.
  datatype Waiting = Waiting(inc: Incoming, snap: Snapshot, seen: nat)
  datatype Outcome = Outcome(inc: Incoming, snap: Snapshot, seen: nat, at: int, reply: Reply)

  datatype Plane = Plane(
    window: B.Window,
    cache: R.Cache,
    exchanges: seq<R.Exchange>,
    waiting: map<nat, Waiting>,
    outcomes: seq<Outcome>)

  // A handler reads the cache in one event and consults budget and rules in a later one.
  datatype Event = Sync(exchange: R.Exchange) | Arrive(id: nat, inc: Incoming) | Answer(id: nat, at: int)

  const START := Plane(B.NoWindow, R.COLD, [], map[], [])

  function Step(c: R.Codec, cfg: Config, p: Plane, e: Event): Plane {
    match e
    case Sync(x) =>
      p.(cache := R.SyncOnce(c, p.cache, x.response, x.at), exchanges := p.exchanges + [x])
    case Arrive(id, inc) =>
      if id in p.waiting then p
      else p.(waiting := p.waiting[id := Waiting(inc, Snapshot(p.cache.rules, p.cache.ready), |p.exchanges|)])
    case Answer(id, at) =>
      if id !in p.waiting then p
      else
        var h := p.waiting[id];
        var (w1, reply) := Handle(cfg, p.window, h.snap, h.inc, at);
        p.(window := w1, waiting := p.waiting - {id},
           outcomes := p.outcomes + [Outcome(h.inc, h.snap, h.seen, at, reply)])
  }

  function Run(c: R.Codec, cfg: Config, events: seq<Event>): Plane {
    if events == [] then START else Step(c, cfg, Run(c, cfg, events[..|events| - 1]), events[|events| - 1])
  }

  /** The snapshot is the cache after a whole number of exchanges: one set of rules, never a mixture. */
  predicate SnapshotOf(c: R.Codec, exchanges: seq<R.Exchange>, snap: Snapshot, seen: nat) {
    && seen <= |exchanges|
    && var cache := R.CacheAfter(c, R.COLD, exchanges[..seen]); snap == Snapshot(cache.rules, cache.ready)
  }

  /** Forwarded without a mark although it was inspected: nothing matched. */
  predicate ForwardedClean(cfg: Config, o: Outcome) {
    Inspected(cfg, o.inc, o.snap) && o.reply == Forwarded(None) && o.inc.decoded.value.rpcMethod == TOOLS_CALL ==>
      !DenyMatches(o.snap.rules, cfg.denylist, Lower(ExtractToolName(o.inc.decoded.value)))
  }

  ghost predicate Inv(c: R.Codec, cfg: Config, p: Plane) {
    && p.cache == R.CacheAfter(c, R.COLD, p.exchanges)
    && (forall id :: id in p.waiting ==> SnapshotOf(c, p.exchanges, p.waiting[id].snap, p.waiting[id].seen))
    && (forall o :: o in p.outcomes ==> SnapshotOf(c, p.exchanges, o.snap, o.seen))
    && (forall o :: o in p.outcomes ==> ForwardedClean(cfg, o))
    && (forall o :: o in p.outcomes ==> (o.reply.Forwarded? && o.reply.mark.Some? ==> cfg.shadow))
  }

  lemma SnapshotStays(c: R.Codec, exchanges: seq<R.Exchange>, x: R.Exchange, snap: Snapshot, seen: nat)
    requires SnapshotOf(c, exchanges, snap, seen)
    ensures SnapshotOf(c, exchanges + [x], snap, seen)
  {
    assert (exchanges + [x])[..seen] == exchanges[..seen];
  }

  lemma SyncKeepsInv(c: R.Codec, cfg: Config, p: Plane, x: R.Exchange)
    requires Inv(c, cfg, p)
    ensures Inv(c, cfg, Step(c, cfg, p, Sync(x)))
  {
    assert (p.exchanges + [x])[..|p.exchanges|] == p.exchanges;
    forall id | id in p.waiting
      ensures SnapshotOf(c, p.exchanges + [x], p.waiting[id].snap, p.waiting[id].seen)
    {
      SnapshotStays(c, p.exchanges, x, p.waiting[id].snap, p.waiting[id].seen);
    }
    forall o | o in p.outcomes ensures SnapshotOf(c, p.exchanges + [x], o.snap, o.seen) {
      SnapshotStays(c, p.exchanges, x, o.snap, o.seen);
    }
  }

  lemma ReplyIsClean(cfg: Config, w: B.Window, o: Outcome)
    requires o.reply == Handle(cfg, w, o.snap, o.inc, o.at).1
    ensures ForwardedClean(cfg, o) && (o.reply.Forwarded? && o.reply.mark.Some? ==> cfg.shadow)
  {
    if o.inc.decoded.Some? {
      BlockedIff(w, o.inc.decoded.value, o.snap.rules, cfg.denylist, o.at);
    }
  }

  lemma StepKeepsInv(c: R.Codec, cfg: Config, p: Plane, e: Event)
    requires Inv(c, cfg, p)
    ensures Inv(c, cfg, Step(c, cfg, p, e))
  {
    match e
    case Sync(x) => SyncKeepsInv(c, cfg, p, x);
    case Arrive(id, inc) =>
      assert p.exchanges[..|p.exchanges|] == p.exchanges;
    case Answer(id, at) =>
      if id in p.waiting {
        var h := p.waiting[id];
        var reply := Handle(cfg, p.window, h.snap, h.inc, at).1;
        ReplyIsClean(cfg, p.window, Outcome(h.inc, h.snap, h.seen, at, reply));
      }
  }

  /**
   In every run, however handlers and synchronisations interleave: each reply was computed
   from one set of rules, the one the control plane had last installed when the handler read
   the cache, and outside shadow mode a tools/call that is forwarded after inspection
   matched no deny rule of that set.
   */
  lemma {:induction false} ForwardedCallsMatchNoDenyRule(c: R.Codec, cfg: Config, events: seq<Event>)
    ensures var p := Run(c, cfg, events);
            Inv(c, cfg, p) &&
            forall o :: o in p.outcomes && !cfg.shadow && o.reply.Forwarded? ==>
              SnapshotOf(c, p.exchanges, o.snap, o.seen) && o.reply.mark == None && ForwardedClean(cfg, o)
  {
    if events != [] {
      ForwardedCallsMatchNoDenyRule(c, cfg, events[..|events| - 1]);
      StepKeepsInv(c, cfg, Run(c, cfg, events[..|events| - 1]), events[|events| - 1]);
    }
  }

  /**
   In every run: the rules that a handler worked with came from the last response, among the
   exchanges before it read the cache, that was a 200, passed the signature check and decoded;
   if there was none, it worked with no rules.
   */
  lemma SnapshotsWereDelivered(c: R.Codec, cfg: Config, events: seq<Event>, o: Outcome)
    requires o in Run(c, cfg, events).outcomes
    ensures var exchanges := Run(c, cfg, events).exchanges;
            && o.seen <= |exchanges|
            && (o.snap.ready ==> exists i: nat :: R.IsLastDelivery(c, exchanges[..o.seen], i, o.snap.rules))
            && (!o.snap.ready ==>
                  o.snap.rules == R.NO_RULES && forall e :: e in exchanges[..o.seen] ==> !R.DeliversSomething(c, e))
  {
    ForwardedCallsMatchNoDenyRule(c, cfg, events);
    R.CachedWasDelivered(c, Run(c, cfg, events).exchanges[..o.seen]);
  }

  /**
   In every run outside shadow mode: a tools/call that is forwarded although it could be
   inspected is not denied, under the rules the handler worked with, by the field that names
   its tool.  In strict mode every decodable POST that is forwarded came after a delivery.
   */
  lemma ForwardedByField(c: R.Codec, cfg: Config, events: seq<Event>, o: Outcome, field: string, tool: string)
    requires o in Run(c, cfg, events).outcomes && o.reply.Forwarded?
    requires o.inc.post && o.inc.decoded.Some? && Names(o.inc.decoded.value, field) && IsLowerOf(tool, field)
    ensures !cfg.shadow && o.inc.decoded.value.rpcMethod == "tools/call" ==>
              !IsDenied(o.snap.rules, cfg.denylist, tool)
    ensures !cfg.failOpen ==>
              o.seen <= |Run(c, cfg, events).exchanges|
              && exists e :: e in Run(c, cfg, events).exchanges[..o.seen] && R.Delivers(c, e, o.snap.rules)
  {
    SnapshotsWereDelivered(c, cfg, events, o);
    ForwardedWasInspected(c, cfg, events, o);
    ForwardedCallsMatchNoDenyRule(c, cfg, events);
    LowerMeans(field, tool);
    DeniedMeans(o.snap.rules, cfg.denylist, field);
    if !cfg.failOpen {
      var seen := Run(c, cfg, events).exchanges[..o.seen];
      var i: nat :| R.IsLastDelivery(c, seen, i, o.snap.rules);
      assert seen[i] in seen;
    }
  }

  /** A decodable POST is not forwarded uninspected. */
  lemma {:induction false} ForwardedWasInspected(c: R.Codec, cfg: Config, events: seq<Event>, o: Outcome)
    requires o in Run(c, cfg, events).outcomes && o.reply.Forwarded? && o.inc.post && o.inc.decoded.Some?
    ensures Inspected(cfg, o.inc, o.snap)
  {
    var before := events[..|events| - 1];
    if o in Run(c, cfg, before).outcomes {
      ForwardedWasInspected(c, cfg, before, o);
    }
  }

  // ---- The budget over whole runs ---------------------------------------------------

  /** The request reaches the budget check, under a positive cap. */
  predicate Budgeted(cfg: Config, inc: Incoming, snap: Snapshot) {
    Inspected(cfg, inc, snap) && inc.decoded.value.rpcMethod == "tools/call" && snap.rules.tokensPerMinuteCap > 0
  }

  /** The budget checks of a run, in the order of the mutex. */
  function Checks(cfg: Config, outcomes: seq<Outcome>): seq<B.Call> {
    if outcomes == [] then []
    else
      var o := outcomes[0];
      (if Budgeted(cfg, o.inc, o.snap) then [B.Call(o.at, o.snap.rules.tokensPerMinuteCap)] else [])
      + Checks(cfg, outcomes[1..])
  }

  /** Budgeted calls passed on to the server in [lo, hi]. */
  function ForwardedIn(cfg: Config, outcomes: seq<Outcome>, lo: int, hi: int): nat {
    if outcomes == [] then 0
    else
      var o := outcomes[0];
      (if Budgeted(cfg, o.inc, o.snap) && o.reply.Forwarded? && lo <= o.at <= hi then 1 else 0)
      + ForwardedIn(cfg, outcomes[1..], lo, hi)
  }

  /** Replies are what the handler gives from window w on. */
  predicate Replayed(cfg: Config, w: B.Window, outcomes: seq<Outcome>)
    decreases |outcomes|
  {
    outcomes == [] ||
    (var (w1, reply) := Handle(cfg, w, outcomes[0].snap, outcomes[0].inc, outcomes[0].at);
     outcomes[0].reply == reply && Replayed(cfg, w1, outcomes[1..]))
  }

  function WindowAfter(cfg: Config, w: B.Window, outcomes: seq<Outcome>): B.Window
    decreases |outcomes|
  {
    if outcomes == [] then w
    else WindowAfter(cfg, Handle(cfg, w, outcomes[0].snap, outcomes[0].inc, outcomes[0].at).0, outcomes[1..])
  }

  lemma {:induction false} ReplayedAppend(cfg: Config, w: B.Window, outcomes: seq<Outcome>, o: Outcome)
    requires Replayed(cfg, w, outcomes)
    requires o.reply == Handle(cfg, WindowAfter(cfg, w, outcomes), o.snap, o.inc, o.at).1
    ensures Replayed(cfg, w, outcomes + [o])
    ensures WindowAfter(cfg, w, outcomes + [o])
         == Handle(cfg, WindowAfter(cfg, w, outcomes), o.snap, o.inc, o.at).0
    decreases |outcomes|
  {
    var all := outcomes + [o];
    if outcomes == [] {
      assert all == [o] && all[1..] == [];
    } else {
      assert all[1..] == outcomes[1..] + [o];
      ReplayedAppend(cfg, Handle(cfg, w, outcomes[0].snap, outcomes[0].inc, outcomes[0].at).0, outcomes[1..], o);
    }
  }

  lemma {:induction false} RunReplays(c: R.Codec, cfg: Config, events: seq<Event>)
    ensures var p := Run(c, cfg, events);
            Replayed(cfg, B.NoWindow, p.outcomes) && p.window == WindowAfter(cfg, B.NoWindow, p.outcomes)
  {
    if events != [] {
      var p, e := Run(c, cfg, events[..|events| - 1]), events[|events| - 1];
      RunReplays(c, cfg, events[..|events| - 1]);
      if e.Answer? && e.id in p.waiting {
        var h := p.waiting[e.id];
        var reply := Handle(cfg, p.window, h.snap, h.inc, e.at).1;
        ReplayedAppend(cfg, B.NoWindow, p.outcomes, Outcome(h.inc, h.snap, h.seen, e.at, reply));
      }
    }
  }

  lemma {:induction false} ForwardedAreAdmitted(cfg: Config, w: B.Window, outcomes: seq<Outcome>, lo: int, hi: int)
    requires !cfg.shadow && Replayed(cfg, w, outcomes)
    ensures ForwardedIn(cfg, outcomes, lo, hi) <= B.AdmittedIn(w, Checks(cfg, outcomes), lo, hi)
    decreases |outcomes|
  {
    if outcomes != [] {
      var o := outcomes[0];
      var w1 := Handle(cfg, w, o.snap, o.inc, o.at).0;
      ForwardedAreAdmitted(cfg, w1, outcomes[1..], lo, hi);
      var checks := Checks(cfg, outcomes);
      if Budgeted(cfg, o.inc, o.snap) {
        assert checks[1..] == Checks(cfg, outcomes[1..]);
      } else {
        assert checks == Checks(cfg, outcomes[1..]);
      }
    }
  }

  /**
   Outside shadow mode no run, whatever rules are installed on the way, forwards more
   budgeted calls in an interval than the capacity of the largest cap.
   */
  lemma ForwardingIsRateLimited(c: R.Codec, cfg: Config, events: seq<Event>, from: int, lo: int, hi: int, m: int)
    requires !cfg.shadow && lo <= hi && m >= B.MIN_CALLS
    requires var checks := Checks(cfg, Run(c, cfg, events).outcomes);
             B.Chronological(from, checks) && B.CapsWithin(checks, m)
    ensures ForwardedIn(cfg, Run(c, cfg, events).outcomes, lo, hi) <= B.Capacity(m, hi - lo)
  {
    RunReplays(c, cfg, events);
    var outcomes := Run(c, cfg, events).outcomes;
    ForwardedAreAdmitted(cfg, B.NoWindow, outcomes, lo, hi);
    B.BurstBound(B.NoWindow, Checks(cfg, outcomes), from, lo, hi, m);
  }
}
