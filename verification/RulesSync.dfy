/**
 The rules cache of the data plane and the loop that keeps it in step with the control
 plane by conditional requests (RFC 9110, sections 13.1.2 and 15.4.5).
 */
module RulesSync {
  import opened Prelude
  import S = RulesSignature

  datatype Rules = Rules(blockedTools: seq<string>, blockedMethodSubstrings: seq<string>, tokensPerMinuteCap: int)

  const NO_RULES := Rules([], [], 0)

  datatype Cache = Cache(rules: Rules, etag: string, ready: bool, lastSyncAt: Option<int>)

  const COLD := Cache(NO_RULES, "", false, None)

  // body is None when reading it failed.
  datatype Response =
    | RequestError
    | TransportError
    | Http(status: int, body: Option<string>, signature: string, etag: string)

  /** Signature policy and JSON decoder. */
  datatype Codec = Codec(verifier: S.Verifier, decode: string -> Option<Rules>)

  /** The rules that a response installs, if it installs any. */
  function Installs(c: Codec, r: Response, now: int): Option<Rules> {
    if r.Http? && r.status == 200 && r.body.Some? && S.Validate(c.verifier, now, r.body.value, r.signature).Accepted?
    then c.decode(r.body.value)
    else None
  }

  function SyncOnce(c: Codec, cache: Cache, r: Response, now: int): Cache {
    var rules := Installs(c, r, now);
    if rules.None? then cache else Cache(rules.value, r.etag, true, Some(now))
  }

  /** The validator sent along: none before the first installation. */
  function IfNoneMatch(cache: Cache): Option<string> {
    if cache.etag != "" then Some(cache.etag) else None
  }

  class RulesCache {
    var rules: Rules
    var lastSyncAt: Option<int>
    var etag: string
    var ready: bool

    function Value(): Cache
      reads this
    {
      Cache(rules, etag, ready, lastSyncAt)
    }

    constructor ()
      ensures Value() == COLD
    {
      rules, etag, ready, lastSyncAt := NO_RULES, "", false, None;
    }

    method Set(r: Rules, newEtag: string, now: int)
      modifies this
      ensures Value() == Cache(r, newEtag, true, Some(now))
    {
      rules := r;
      etag := newEtag;
      lastSyncAt := Some(now);
      ready := true;
    }

    /** One synchronisation, once the response is in; every failure leaves the cache alone. */
    method Sync(c: Codec, r: Response, now: int)
      modifies this
      ensures Value() == SyncOnce(c, old(Value()), r, now)
    {
      if r.RequestError? || r.TransportError? {
        return;
      }
      if r.status == 304 {
        return;
      }
      if r.status != 200 {
        return;
      }
      if r.body.None? {
        return;
      }
      var verdict := S.Validate(c.verifier, now, r.body.value, r.signature);
      if verdict.Rejected? {
        return;
      }
      var decoded := c.decode(r.body.value);
      if decoded.None? {
        return;
      }
      Set(decoded.value, r.etag, now);
    }
  }

  // ---- Any server -------------------------------------------------------------------

  datatype Exchange = Exchange(response: Response, at: int)

  function CacheAfter(c: Codec, cache: Cache, log: seq<Exchange>): Cache {
    if log == [] then cache
    else SyncOnce(c, CacheAfter(c, cache, log[..|log| - 1]), log[|log| - 1].response, log[|log| - 1].at)
  }

  predicate Installing(c: Codec, e: Exchange) {
    Installs(c, e.response, e.at).Some?
  }

  /** Rules, ETag and time always come from one and the same response: the last that installs. */
  lemma {:induction false} LastInstallWins(c: Codec, log: seq<Exchange>, i: nat)
    requires i < |log| && Installing(c, log[i]) && forall j :: i < j < |log| ==> !Installing(c, log[j])
    ensures var e := log[i];
            var installed := Cache(Installs(c, e.response, e.at).value, e.response.etag, true, Some(e.at));
            CacheAfter(c, COLD, log) == installed
    decreases |log|
  {
    if i < |log| - 1 {
      var before := log[..|log| - 1];
      assert !Installing(c, log[|log| - 1]);
      LastInstallWins(c, before, i);
    }
  }

  /** Without an installing response the cache stays cold; with one it is ready ever after. */
  lemma {:induction false} ReadyIffInstalled(c: Codec, log: seq<Exchange>)
    ensures CacheAfter(c, COLD, log).ready <==> exists i :: 0 <= i < |log| && Installing(c, log[i])
    ensures !CacheAfter(c, COLD, log).ready ==> CacheAfter(c, COLD, log) == COLD
  {
    if log != [] {
      var before := log[..|log| - 1];
      ReadyIffInstalled(c, before);
      assert forall i :: 0 <= i < |before| ==> before[i] == log[i];
      if CacheAfter(c, COLD, log).ready && !Installing(c, log[|log| - 1]) {
        var i :| 0 <= i < |before| && Installing(c, before[i]);
        assert Installing(c, log[i]);
      }
    }
  }

  /** A 200 with a body that carries a valid signature, if one is called for, and decodes to these rules. */
  predicate Delivers(c: Codec, e: Exchange, rules: Rules) {
    && e.response.Http? && e.response.status == 200 && e.response.body.Some?
    && S.Validate(c.verifier, e.at, e.response.body.value, e.response.signature) == S.Accepted
    && c.decode(e.response.body.value) == Some(rules)
  }

  ghost predicate DeliversSomething(c: Codec, e: Exchange) {
    exists rules :: Delivers(c, e, rules)
  }

  /** A delivery replaces the whole cache; any other exchange leaves it as it is. */
  lemma OnlyDeliveriesInstall(c: Codec, cache: Cache, e: Exchange)
    ensures forall rules :: Delivers(c, e, rules) ==>
              SyncOnce(c, cache, e.response, e.at) == Cache(rules, e.response.etag, true, Some(e.at))
    ensures !DeliversSomething(c, e) ==> SyncOnce(c, cache, e.response, e.at) == cache
  {
    var rules := Installs(c, e.response, e.at);
    if rules.Some? {
      assert Delivers(c, e, rules.value);
    }
  }

  /** The last delivery of the log. */
  ghost predicate IsLastDelivery(c: Codec, log: seq<Exchange>, i: nat, rules: Rules) {
    i < |log| && Delivers(c, log[i], rules) && forall j :: i < j < |log| ==> !DeliversSomething(c, log[j])
  }

  /**
   For every log: a cache that is ready holds the rules, tag and time of the last response
   that was a 200, passed the signature check and decoded; one that is not is cold, and
   there was no such response.
   */
  lemma {:induction false} CachedWasDelivered(c: Codec, log: seq<Exchange>)
    ensures var cache := CacheAfter(c, COLD, log);
            && (cache.ready ==>
                  exists i: nat :: IsLastDelivery(c, log, i, cache.rules)
                    && cache.etag == log[i].response.etag && cache.lastSyncAt == Some(log[i].at))
            && (!cache.ready ==> cache == COLD && forall e :: e in log ==> !DeliversSomething(c, e))
  {
    if log != [] {
      var n := |log| - 1;
      var before := log[..n];
      var cache := CacheAfter(c, COLD, log);
      CachedWasDelivered(c, before);
      OnlyDeliveriesInstall(c, CacheAfter(c, COLD, before), log[n]);
      if DeliversSomething(c, log[n]) {
        var rules :| Delivers(c, log[n], rules);
        assert IsLastDelivery(c, log, n, rules);
      } else if cache.ready {
        var i: nat :| IsLastDelivery(c, before, i, cache.rules)
                        && cache.etag == before[i].response.etag && cache.lastSyncAt == Some(before[i].at);
        assert forall j :: i < j < n ==> log[j] == before[j];
        assert IsLastDelivery(c, log, i, cache.rules);
      } else {
        assert log == before + [log[n]];
      }
    }
  }

  // ---- A server that answers conditional requests as RFC 9110 asks ------------------

  /** How a server labels and signs the document it currently serves. */
  datatype Origin = Origin(tag: string -> string, sign: string -> string)

  datatype Event = Publish(body: string) | Poll(at: int) | Fault(response: Response, at: int)

  datatype World = World(current: string, cache: Cache)

  predicate Matches(o: Origin, w: World) {
    IfNoneMatch(w.cache) == Some(o.tag(w.current))
  }

  /** 304 when the validator matches the current document, the document otherwise. */
  function Answer(o: Origin, w: World): Response {
    if Matches(o, w) then Http(304, Some(""), "", o.tag(w.current))
    else Http(200, Some(w.current), o.sign(w.current), o.tag(w.current))
  }

  /** Faults: no answer, or an answer with a status other than 200 and 304. */
  predicate Possible(e: Event) {
    e.Fault? && e.response.Http? ==> e.response.status != 200 && e.response.status != 304
  }

  function Next(c: Codec, o: Origin, w: World, e: Event): World {
    match e
    case Publish(body) => w.(current := body)
    case Poll(at) => w.(cache := SyncOnce(c, w.cache, Answer(o, w), at))
    case Fault(response, at) => w.(cache := SyncOnce(c, w.cache, response, at))
  }

  function WorldAfter(c: Codec, o: Origin, w: World, events: seq<Event>): World {
    if events == [] then w
    else Next(c, o, WorldAfter(c, o, w, events[..|events| - 1]), events[|events| - 1])
  }

  predicate AllPossible(events: seq<Event>) {
    forall e :: e in events ==> Possible(e)
  }

  /** The cache holds what the current document decodes to. */
  predicate InStep(c: Codec, w: World) {
    w.cache.ready && c.decode(w.current) == Some(w.cache.rules)
  }

  predicate InstallableAt(c: Codec, o: Origin, body: string, at: int) {
    Installs(c, Http(200, Some(body), o.sign(body), o.tag(body)), at).Some?
  }

  /** A document that could be installed shares its tag only with documents that decode like it. */
  ghost predicate TagsTellApart(c: Codec, o: Origin) {
    forall body, at, other :: InstallableAt(c, o, body, at) && o.tag(body) != "" && o.tag(other) == o.tag(body) ==>
      c.decode(other) == c.decode(body)
  }

  /** The tag in the cache is that of a document that was installed. */
  ghost predicate TagKept(c: Codec, o: Origin, cache: Cache) {
    cache.etag != "" ==>
      cache.ready && exists body, at :: InstallableAt(c, o, body, at) && cache.etag == o.tag(body)
                       && c.decode(body) == Some(cache.rules)
  }

  lemma {:induction false} RunKeepsTag(c: Codec, o: Origin, start: string, events: seq<Event>)
    requires AllPossible(events)
    ensures TagKept(c, o, WorldAfter(c, o, World(start, COLD), events).cache)
  {
    if events != [] {
      var before, e := events[..|events| - 1], events[|events| - 1];
      assert e in events;
      RunKeepsTag(c, o, start, before);
      var w := WorldAfter(c, o, World(start, COLD), before);
      if e.Poll? && !Matches(o, w) && Installs(c, Answer(o, w), e.at).Some? {
        assert InstallableAt(c, o, w.current, e.at);
      }
    }
  }

  predicate NothingPublished(events: seq<Event>) {
    forall e :: e in events ==> !e.Publish?
  }

  /** Once the validator matches, polls and faults change nothing until something is published. */
  lemma {:induction false} MatchedStays(c: Codec, o: Origin, w: World, events: seq<Event>)
    requires Matches(o, w) && AllPossible(events) && NothingPublished(events)
    ensures WorldAfter(c, o, w, events) == w
  {
    if events != [] {
      MatchedStays(c, o, w, events[..|events| - 1]);
      assert events[|events| - 1] in events;
    }
  }

  /**
   Two documents that decode differently under one tag: after this run the cache is stale,
   and it stays so through any number of further polls and faults.
   */
  lemma StaleRun(c: Codec, o: Origin, body: string, at: int, other: string) returns (events: seq<Event>)
    requires InstallableAt(c, o, body, at) && o.tag(body) != "" && o.tag(other) == o.tag(body)
    requires c.decode(other) != c.decode(body)
    ensures AllPossible(events)
    ensures var w := WorldAfter(c, o, World("", COLD), events);
            && Matches(o, w) && !InStep(c, w)
            && forall more :: AllPossible(more) && NothingPublished(more) ==> WorldAfter(c, o, w, more) == w
  {
    var e1, e2, e3 := Publish(body), Poll(at), Publish(other);
    events := [e1, e2, e3];
    assert events[..2] == [e1, e2] && [e1, e2][..1] == [e1] && [e1][..0] == [];
    var w1 := WorldAfter(c, o, World("", COLD), [e1]);
    assert WorldAfter(c, o, World("", COLD), []) == World("", COLD);
    assert w1 == World(body, COLD);
    var w2 := WorldAfter(c, o, World("", COLD), [e1, e2]);
    assert w2.cache.etag == o.tag(body) && c.decode(body) == Some(w2.cache.rules);
    var w := WorldAfter(c, o, World("", COLD), events);
    forall more | AllPossible(more) && NothingPublished(more) ensures WorldAfter(c, o, w, more) == w {
      MatchedStays(c, o, w, more);
    }
  }

  /**
   After every run in which the validator matches, so that the next poll is answered 304
   and changes nothing, the cache is in step with the server: exactly when tags tell apart
   the documents that decode differently.
   */
  lemma NotModifiedMeansCurrent(c: Codec, o: Origin)
    ensures TagsTellApart(c, o) <==>
              forall start, events ::
                AllPossible(events) && Matches(o, WorldAfter(c, o, World(start, COLD), events)) ==>
                  InStep(c, WorldAfter(c, o, World(start, COLD), events))
  {
    if TagsTellApart(c, o) {
      forall start, events | AllPossible(events) && Matches(o, WorldAfter(c, o, World(start, COLD), events))
        ensures InStep(c, WorldAfter(c, o, World(start, COLD), events))
      {
        RunKeepsTag(c, o, start, events);
        var w := WorldAfter(c, o, World(start, COLD), events);
        var body, at :| InstallableAt(c, o, body, at) && w.cache.etag == o.tag(body)
                          && c.decode(body) == Some(w.cache.rules);
        assert c.decode(w.current) == c.decode(body);
      }
    } else {
      var body, at, other :| InstallableAt(c, o, body, at) && o.tag(body) != "" && o.tag(other) == o.tag(body)
                               && c.decode(other) != c.decode(body);
      var events := StaleRun(c, o, body, at, other);
      assert World("", COLD).current == "";
    }
  }

  /** After a poll, whatever its outcome: unchanged, or in step with the server. */
  lemma PollOutcome(c: Codec, o: Origin, w: World, at: int)
    ensures var w1 := Next(c, o, w, Poll(at));
            && w1.current == w.current
            && (w1.cache == w.cache || InStep(c, w1))
            && (!Matches(o, w) && InstallableAt(c, o, w.current, at) ==> InStep(c, w1))
  {
  }
}
