/**
 The in-memory result cache of the SOC API: entries expire, and an expired entry is removed
 by the read that finds it.  The reference is the log of operations, which removes nothing.
 */
module ResultCache {
  import opened Prelude

  datatype Entry<V> = Entry(data: V, expiresAt: int)

  datatype Op<V> = Get(key: string, at: int) | Set(key: string, data: V, ttl: int, at: int)
                 | Invalidate(key: string, at: int) | InvalidateAll(at: int)

  function Live<V>(store: map<string, Entry<V>>, key: string, now: int): Option<V> {
    if key in store && now <= store[key].expiresAt then Some(store[key].data) else None
  }

  function Apply<V>(store: map<string, Entry<V>>, op: Op<V>): map<string, Entry<V>> {
    match op
    case Get(key, at) => if Live(store, key, at).None? then store - {key} else store
    case Set(key, data, ttl, at) => store[key := Entry(data, at + ttl)]
    case Invalidate(key, _) => store - {key}
    case InvalidateAll(_) => map[]
  }

  class Cache<V(==)> {
    var store: map<string, Entry<V>>

    constructor ()
      ensures store == map[]
    {
      store := map[];
    }

    method Get(key: string, now: int) returns (r: Option<V>)
      modifies this
      ensures r == Live(old(store), key, now) && store == Apply(old(store), Op.Get(key, now))
    {
      if key !in store || now > store[key].expiresAt {
        store := store - {key};
        return None;
      }
      return Some(store[key].data);
    }

    method Set(key: string, data: V, ttl: int, now: int)
      modifies this
      ensures store == Apply(old(store), Op.Set(key, data, ttl, now))
    {
      store := store[key := Entry(data, now + ttl)];
    }

    method Invalidate(key: string, now: int)
      modifies this
      ensures store == Apply(old(store), Op.Invalidate(key, now))
    {
      store := store - {key};
    }

    method InvalidateAll(now: int)
      modifies this
      ensures store == Apply(old(store), Op.InvalidateAll(now))
    {
      store := map[];
    }
  }

  // ---- Runs -------------------------------------------------------------------------

  /** The store after a log of operations, oldest first. */
  function Store<V>(log: seq<Op<V>>): map<string, Entry<V>> {
    if log == [] then map[] else Apply(Store(log[..|log| - 1]), log[|log| - 1])
  }

  /** The last set of the key that no later operation invalidated; reads do not count. */
  function LastSet<V>(log: seq<Op<V>>, key: string): Option<Entry<V>> {
    if log == [] then None
    else
      match log[|log| - 1]
      case Set(k, data, ttl, at) =>
        if k == key then Some(Entry(data, at + ttl)) else LastSet(log[..|log| - 1], key)
      case Invalidate(k, _) => if k == key then None else LastSet(log[..|log| - 1], key)
      case InvalidateAll(_) => None
      case Get(_, _) => LastSet(log[..|log| - 1], key)
  }

  function Reference<V>(log: seq<Op<V>>, key: string, now: int): Option<V> {
    var e := LastSet(log, key);
    if e.Some? && now <= e.value.expiresAt then Some(e.value.data) else None
  }

  /** A read at time `now` returns what the reference says. */
  predicate Agrees<V(==)>(log: seq<Op<V>>, key: string, now: int) {
    Live(Store(log), key, now) == Reference(log, key, now)
  }

  /** A read of the key at time `at` found its entry expired and removed it. */
  predicate RemovedByRead<V>(log: seq<Op<V>>, key: string) {
    log != [] &&
    match log[|log| - 1]
    case Set(k, _, _, _) => k != key && RemovedByRead(log[..|log| - 1], key)
    case Invalidate(k, _) => k != key && RemovedByRead(log[..|log| - 1], key)
    case InvalidateAll(_) => false
    case Get(k, at) =>
      RemovedByRead(log[..|log| - 1], key) ||
      (k == key && LastSet(log[..|log| - 1], key).Some? && at > LastSet(log[..|log| - 1], key).value.expiresAt)
  }

  /** What the store holds, for any clock: the last set, unless a read removed it since. */
  lemma {:induction false} StoreHolds<V>(log: seq<Op<V>>, key: string)
    ensures if RemovedByRead(log, key) || LastSet(log, key).None? then key !in Store(log)
            else key in Store(log) && Store(log)[key] == LastSet(log, key).value
  {
    if log != [] {
      StoreHolds(log[..|log| - 1], key);
    }
  }

  /**
   For any clock: a read returns what the reference says unless an earlier read removed an
   entry that the reference still considers live.
   */
  lemma GetRefinesReference<V>(log: seq<Op<V>>, key: string, now: int)
    ensures Agrees(log, key, now) <==> !(RemovedByRead(log, key) && Reference(log, key, now).Some?)
  {
    StoreHolds(log, key);
  }

  // ---- The clock --------------------------------------------------------------------

  /** The log was made at these times. */
  predicate MadeAt<V>(log: seq<Op<V>>, times: seq<int>) {
    |log| == |times| && forall i :: 0 <= i < |log| ==> log[i].at == times[i]
  }

  /** After the first operation the clock was never ahead of now. */
  predicate NeverAhead(times: seq<int>, now: int) {
    forall i :: 1 <= i < |times| ==> times[i] <= now
  }

  lemma {:induction false} RemovedIsExpired<V>(log: seq<Op<V>>, key: string, times: seq<int>, now: int)
    requires RemovedByRead(log, key) && MadeAt(log, times) && NeverAhead(times, now)
    ensures Reference(log, key, now) == None
  {
    var n := |log| - 1;
    if RemovedByRead(log[..n], key) {
      RemovedIsExpired(log[..n], key, times[..n], now);
    } else {
      assert LastSet(log[..n], key).Some?;
      assert log[n].at == times[n];
    }
  }

  /** Operation i is a read that finds expired what operation 0 has set; the others read another key. */
  function BreakingLog<V>(times: seq<int>, now: int, key: string, data: V, i: nat): seq<Op<V>>
    requires i < |times|
  {
    seq(|times|, j requires 0 <= j < |times| =>
      if j == 0 then Op.Set(key, data, now - times[0], times[0])
      else Op.Get(if j == i then key else key + "'", times[j]))
  }

  lemma {:induction false} BreakingLogRemoves<V>(times: seq<int>, now: int, key: string, data: V, i: nat, n: nat)
    requires 1 <= i < |times| && times[i] > now && 1 <= n <= |times|
    ensures var log := BreakingLog(times, now, key, data, i)[..n];
            LastSet(log, key) == Some(Entry(data, now)) && (RemovedByRead(log, key) <==> i < n)
    decreases n
  {
    var log := BreakingLog(times, now, key, data, i)[..n];
    assert log[..n - 1] == BreakingLog(times, now, key, data, i)[..n - 1];
    assert |key + "'"| != |key|;
    if n > 1 {
      BreakingLogRemoves(times, now, key, data, i, n - 1);
    }
  }

  lemma NeverAheadAgrees<V>(log: seq<Op<V>>, key: string, times: seq<int>, now: int)
    requires MadeAt(log, times) && NeverAhead(times, now)
    ensures Agrees(log, key, now)
  {
    GetRefinesReference(log, key, now);
    if RemovedByRead(log, key) {
      RemovedIsExpired(log, key, times, now);
    }
  }

  /**
   For the times of the operations and the time of the read: every log made at those times
   agrees with the reference if and only if, after the first operation, the clock was never
   ahead of the read.
   */
  lemma AgreesIffNeverAhead<V(!new)>(times: seq<int>, key: string, now: int, data: V)
    ensures (forall log: seq<Op<V>> :: MadeAt(log, times) ==> Agrees(log, key, now)) <==> NeverAhead(times, now)
  {
    if NeverAhead(times, now) {
      forall log: seq<Op<V>> | MadeAt(log, times) ensures Agrees(log, key, now) {
        NeverAheadAgrees(log, key, times, now);
      }
    } else {
      var i :| 1 <= i < |times| && times[i] > now;
      var log := BreakingLog(times, now, key, data, i);
      BreakingLogRemoves(times, now, key, data, i, |times|);
      assert log[..|times|] == log;
      GetRefinesReference(log, key, now);
      assert MadeAt(log, times) && !Agrees(log, key, now);
    }
  }

  /** With a clock that does not go back, removal on read cannot be observed. */
  lemma RemovalUnobservable<V>(log: seq<Op<V>>, key: string, now: int)
    requires forall i :: 0 <= i < |log| ==> log[i].at <= now
    ensures Agrees(log, key, now)
  {
    NeverAheadAgrees(log, key, seq(|log|, i requires 0 <= i < |log| => log[i].at), now);
  }

  /** When the clock goes back, an entry that was found expired is missed while it is live. */
  lemma ClockGoingBackShows<V>(key: string, data: V)
    ensures var log := [Op.Set(key, data, 10, 0), Op.Get(key, 11)];
            Live(Store(log), key, 5) == None && Reference(log, key, 5) == Some(data)
  {
    var log := [Op.Set(key, data, 10, 0), Op.Get(key, 11)];
    var first: seq<Op<V>> := [Op.Set(key, data, 10, 0)];
    assert log[..1] == first && first[..0] == [];
    assert Store(first) == map[key := Entry(data, 10)] && LastSet(first, key) == Some(Entry(data, 10));
  }
}
