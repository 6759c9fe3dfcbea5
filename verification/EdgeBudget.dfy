/**
 The coarse call-rate guard of the Go data plane: one global window that is reopened by
 the first budgeted call more than a minute after it was opened, and one call counter.

 The window is NOT a sliding window, so the interesting question is how many calls an
 arbitrary interval can admit.  `BurstBound` answers it for every run and every interval,
 and `BurstBoundAttained` shows that the answer cannot be improved for any cap or length.
 */
module EdgeBudget {
  import opened Prelude

  // Times are integers, in nanoseconds, as in Go's time.Duration.
  const MINUTE: int := 60_000_000_000
  // Two windows open at least this far apart.
  const GAP: int := MINUTE + 1
  const MIN_CALLS: int := 10

  datatype Window = NoWindow | Open(start: int, calls: int)
  datatype Call = Call(at: int, cap: int)
  // Unbudgeted: the compiled rules carry no positive cap, so the guard is off.
  datatype Verdict = Unbudgeted | Admitted | Refused

  function MaxCalls(cap: int): int
    requires cap > 0
  {
    if cap / 500 < MIN_CALLS then MIN_CALLS else cap / 500
  }

  predicate Reopens(w: Window, now: int) {
    w.NoWindow? || now - w.start > MINUTE
  }

  function Step(w: Window, c: Call): (Window, Verdict) {
    if c.cap <= 0 then
      (w, Unbudgeted)
    else
      var w1 := if Reopens(w, c.at) then Open(c.at, 1) else Open(w.start, w.calls + 1);
      (w1, if w1.calls > MaxCalls(c.cap) then Refused else Admitted)
  }

  /** The two globals and the mutex-protected check. */
  class Guard {
    var windowStart: Option<int>
    var calls: int

    function Window(): Window
      reads this
    {
      if windowStart.None? then NoWindow else Open(windowStart.value, calls)
    }

    constructor ()
      ensures Window() == NoWindow
    {
      windowStart, calls := None, 0;
    }

    method Check(cap: int, now: int) returns (verdict: Verdict)
      modifies this
      ensures (Window(), verdict) == Step(old(Window()), Call(now, cap))
    {
      if cap <= 0 {
        return Unbudgeted;
      }
      if windowStart.None? || now - windowStart.value > MINUTE {
        windowStart := Some(now);
        calls := 0;
      }
      calls := calls + 1;
      var maxCalls := cap / 500;
      if maxCalls < MIN_CALLS {
        maxCalls := MIN_CALLS;
      }
      if calls > maxCalls {
        return Refused;
      }
      return Admitted;
    }
  }

  // ---- Runs -------------------------------------------------------------------------

  /** The clock read under the mutex never goes back. */
  predicate Chronological(from: int, calls: seq<Call>)
    decreases |calls|
  {
    calls == [] || (from <= calls[0].at && Chronological(calls[0].at, calls[1..]))
  }

  predicate CapsWithin(calls: seq<Call>, m: int) {
    forall c :: c in calls && c.cap > 0 ==> MaxCalls(c.cap) <= m
  }

  /** How many budgeted calls of the run are admitted at a time in [lo, hi]. */
  function AdmittedIn(w: Window, calls: seq<Call>, lo: int, hi: int): nat
    decreases |calls|
  {
    if calls == [] then 0
    else
      var (w1, v) := Step(w, calls[0]);
      (if v == Admitted && lo <= calls[0].at <= hi then 1 else 0) + AdmittedIn(w1, calls[1..], lo, hi)
  }

  /** What every state reached from `NoWindow` satisfies: the opening call was counted. */
  predicate Sound(w: Window, now: int) {
    w.Open? ==> w.start <= now && w.calls >= 1
  }

  /** The largest number of admissions in a closed interval of the given length. */
  function Capacity(m: int, length: int): int
    requires length >= 0
  {
    m * (length / GAP + 1) + if length % GAP == 0 then 0 else m - 1
  }

  // ---- Upper bound ------------------------------------------------------------------

  /** How many windows can open in [first, hi]. */
  function Openings(first: int, hi: int): nat {
    if first > hi then 0 else (hi - first) / GAP + 1
  }

  /** Admissions still possible by time hi when the next call comes at `now` or later. */
  function Slots(w: Window, now: int, hi: int, m: int): int {
    if Reopens(w, now) then m * Openings(now, hi)
    else (if w.calls < m then m - w.calls else 0) + m * Openings(w.start + GAP, hi)
  }

  lemma MulMonotone(m: int, a: int, b: int)
    requires m >= 0 && a <= b
    ensures m * a <= m * b
  {
  }

  lemma SlotsMonotone(w: Window, now: int, later: int, hi: int, m: int)
    requires now <= later && m >= 0
    ensures Slots(w, later, hi, m) <= Slots(w, now, hi, m)
  {
    if Reopens(w, now) {
      MulMonotone(m, Openings(later, hi), Openings(now, hi));
    } else if Reopens(w, later) {
      MulMonotone(m, Openings(later, hi), Openings(w.start + GAP, hi));
    }
  }

  lemma NoneAfter(w: Window, calls: seq<Call>, lo: int, hi: int)
    requires calls != [] ==> Chronological(calls[0].at, calls) && calls[0].at > hi
    ensures AdmittedIn(w, calls, lo, hi) == 0
    decreases |calls|
  {
    if calls != [] {
      var rest := calls[1..];
      assert rest != [] ==> Chronological(rest[0].at, rest);
      NoneAfter(Step(w, calls[0]).0, rest, lo, hi);
    }
  }

  /** One call uses up what it admits. */
  lemma StepUsesSlots(w: Window, c: Call, hi: int, m: int)
    requires Sound(w, c.at) && c.at <= hi && m >= MIN_CALLS
    requires c.cap > 0 ==> MaxCalls(c.cap) <= m
    ensures var (w1, v) := Step(w, c);
            Sound(w1, c.at) &&
            (if v == Admitted then 1 else 0) + Slots(w1, c.at, hi, m) <= Slots(w, c.at, hi, m)
  {
    if c.cap > 0 && Reopens(w, c.at) {
      assert Openings(c.at, hi) == Openings(c.at + GAP, hi) + 1;
      var k := Openings(c.at + GAP, hi);
      assert m * (k + 1) == m * k + m;
    }
  }

  lemma AdmittedWithinSlots(w: Window, calls: seq<Call>, now: int, lo: int, hi: int, m: int)
    requires Sound(w, now) && Chronological(now, calls) && CapsWithin(calls, m) && m >= MIN_CALLS
    ensures AdmittedIn(w, calls, lo, hi) <= Slots(w, now, hi, m)
    decreases |calls|
  {
    if calls == [] {
      MulMonotone(m, 0, Openings(now, hi));
      if w.Open? {
        MulMonotone(m, 0, Openings(w.start + GAP, hi));
      }
    } else {
      var c := calls[0];
      SlotsMonotone(w, now, c.at, hi, m);
      if c.at > hi {
        assert Chronological(c.at, calls);
        NoneAfter(w, calls, lo, hi);
        AdmittedWithinSlots(w, [], now, lo, hi, m);
      } else {
        assert c in calls;
        StepUsesSlots(w, c, hi, m);
        AdmittedWithinSlots(Step(w, c).0, calls[1..], c.at, lo, hi, m);
      }
    }
  }

  lemma SlotsWithinCapacity(w: Window, now: int, lo: int, hi: int, m: int)
    requires Sound(w, now) && lo <= now && lo <= hi && m >= MIN_CALLS
    ensures Slots(w, now, hi, m) <= Capacity(m, hi - lo)
  {
    var t := hi - lo;
    if Reopens(w, now) {
      MulMonotone(m, Openings(now, hi), t / GAP + 1);
    } else {
      var first := w.start + GAP;
      MulMonotone(m, 0, t / GAP + 1);
      if first > hi {
        MulMonotone(m, 1, t / GAP + 1);
      } else if t % GAP == 0 {
        assert Openings(first, hi) <= t / GAP;
        MulMonotone(m, Openings(first, hi), t / GAP);
        assert m * (t / GAP + 1) == m * (t / GAP) + m;
      } else {
        MulMonotone(m, Openings(first, hi), t / GAP + 1);
      }
    }
  }

  /**
   Every run, every interval: the calls may carry different caps, as long as none allows
   more than m calls a window, and calls without a cap may be mixed in.
   */
  lemma {:induction false} BurstBound(w: Window, calls: seq<Call>, now: int, lo: int, hi: int, m: int)
    requires Sound(w, now) && Chronological(now, calls) && CapsWithin(calls, m) && m >= MIN_CALLS
    requires lo <= hi
    ensures AdmittedIn(w, calls, lo, hi) <= Capacity(m, hi - lo)
    decreases |calls|
  {
    if calls == [] {
      MulMonotone(m, 0, (hi - lo) / GAP + 1);
    } else if calls[0].at < lo {
      var w1 := Step(w, calls[0]).0;
      assert Sound(w1, calls[0].at);
      BurstBound(w1, calls[1..], calls[0].at, lo, hi, m);
    } else {
      var first := calls[0].at;
      assert Chronological(first, calls);
      AdmittedWithinSlots(w, calls, first, lo, hi, m);
      SlotsWithinCapacity(w, first, lo, hi, m);
    }
  }

  /** In numbers: a window takes ten calls, or one for every full 500 tokens if that is more. */
  lemma MaxCallsInNumbers(cap: int)
    requires cap > 0
    ensures cap < 5500 ==> MaxCalls(cap) == 10
    ensures cap >= 5500 ==> 500 * MaxCalls(cap) <= cap < 500 * MaxCalls(cap) + 500
  {
    assert cap == cap / 500 * 500 + cap % 500;
  }

  lemma WindowMinuteBounds(calls: seq<Call>, now: int, lo: int, cap: int, minutes: nat)
    requires cap > 0 && Chronological(now, calls) && forall c :: c in calls ==> c.cap == cap
    ensures AdmittedIn(NoWindow, calls, lo, lo + MINUTE) <= 2 * MaxCalls(cap) - 1
    ensures AdmittedIn(NoWindow, calls, lo, lo + minutes * MINUTE) <= MaxCalls(cap) * (minutes + 1)
  {
    var m := MaxCalls(cap);
    BurstBound(NoWindow, calls, now, lo, lo + MINUTE, m);
    var length := minutes * MINUTE;
    BurstBound(NoWindow, calls, now, lo, lo + length, m);
    if minutes > 0 {
      assert length / GAP <= minutes - 1;
      MulMonotone(m, length / GAP + 1, minutes);
      assert m * (minutes + 1) == m * minutes + m;
    }
  }

  lemma Scale(admitted: int, m: int, n: nat, cap: int)
    requires admitted <= m * n && 500 * m <= cap
    ensures 500 * admitted <= cap * n
  {
    MulMonotone(n, 500 * m, cap);
    assert 500 * (m * n) == n * (500 * m);
  }

  /**
   In numbers, times in nanoseconds: a closed minute admits at most 19 calls, or fewer than
   2/500 of a cap from 5500 on; n minutes at most 10 (n + 1) calls, or (n + 1)/500 of the cap.
   */
  lemma MinuteBounds(calls: seq<Call>, now: int, lo: int, cap: int, minutes: nat)
    requires cap > 0 && Chronological(now, calls) && forall c :: c in calls ==> c.cap == cap
    ensures var admitted := AdmittedIn(NoWindow, calls, lo, lo + 60_000_000_000);
            if cap < 5500 then admitted <= 19 else 500 * (admitted + 1) <= 2 * cap
    ensures var admitted := AdmittedIn(NoWindow, calls, lo, lo + minutes * 60_000_000_000);
            if cap < 5500 then admitted <= 10 * (minutes + 1) else 500 * admitted <= cap * (minutes + 1)
  {
    MaxCallsInNumbers(cap);
    WindowMinuteBounds(calls, now, lo, cap, minutes);
    if cap >= 5500 {
      Scale(AdmittedIn(NoWindow, calls, lo, lo + minutes * MINUTE), MaxCalls(cap), minutes + 1, cap);
    }
  }

  // ---- Verdicts by history ----------------------------------------------------------

  /** The window after a run. */
  function WindowAfter(w: Window, calls: seq<Call>): Window
    decreases |calls|
  {
    if calls == [] then w else WindowAfter(Step(w, calls[0]).0, calls[1..])
  }

  /** The time at which the window of the last budgeted call of the run was opened. */
  function OpenedAt(calls: seq<Call>): Option<int> {
    if calls == [] then None
    else
      var before, c := OpenedAt(calls[..|calls| - 1]), calls[|calls| - 1];
      if c.cap <= 0 then before
      else if before.None? || c.at > before.value + 60_000_000_000 then Some(c.at)
      else before
  }

  /** How many budgeted calls, admitted or not, the run has made since then, that call included. */
  function SinceOpened(calls: seq<Call>): nat {
    if calls == [] then 0
    else
      var before, c := OpenedAt(calls[..|calls| - 1]), calls[|calls| - 1];
      if c.cap <= 0 then SinceOpened(calls[..|calls| - 1])
      else if OpenedAt(calls) == before then SinceOpened(calls[..|calls| - 1]) + 1
      else 1
  }

  lemma {:induction false} WindowAfterLast(w: Window, calls: seq<Call>)
    requires calls != []
    ensures WindowAfter(w, calls) == Step(WindowAfter(w, calls[..|calls| - 1]), calls[|calls| - 1]).0
    decreases |calls|
  {
    if |calls| > 1 {
      WindowAfterLast(Step(w, calls[0]).0, calls[1..]);
      assert calls[1..][..|calls| - 2] == calls[..|calls| - 1][1..];
    }
  }

  lemma {:induction false} WindowIsHistory(calls: seq<Call>)
    ensures WindowAfter(NoWindow, calls)
         == if OpenedAt(calls).None? then NoWindow else Open(OpenedAt(calls).value, SinceOpened(calls))
  {
    if calls != [] {
      WindowAfterLast(NoWindow, calls);
      WindowIsHistory(calls[..|calls| - 1]);
    }
  }

  /**
   Every verdict of every run from its history alone: a call without a cap is let through
   unbudgeted; one with a cap is refused exactly when, counting refused calls too, it is one
   too many since its window was opened.
   */
  lemma VerdictByHistory(calls: seq<Call>, c: Call)
    ensures var verdict, n := Step(WindowAfter(NoWindow, calls), c).1, SinceOpened(calls + [c]);
            && (c.cap <= 0 <==> verdict == Unbudgeted)
            && (c.cap > 0 ==> (verdict == Refused <==> n > 10 && 500 * n > c.cap))
  {
    var all := calls + [c];
    assert all[..|all| - 1] == calls && all[|all| - 1] == c;
    WindowIsHistory(calls);
    if c.cap > 0 {
      MaxCallsInNumbers(c.cap);
    }
  }

  /** A window is opened by a budgeted call of the run. */
  lemma {:induction false} WindowOpenedByCall(w: Window, calls: seq<Call>)
    ensures var r := WindowAfter(w, calls);
            r.Open? ==>
              (w.Open? && r.start == w.start) || exists c :: c in calls && c.cap > 0 && c.at == r.start
    decreases |calls|
  {
    if calls != [] {
      WindowOpenedByCall(Step(w, calls[0]).0, calls[1..]);
      assert calls[0] in calls && forall c :: c in calls[1..] ==> c in calls;
    }
  }

  lemma {:induction false} ChronologicalPrefix(from: int, calls: seq<Call>, i: nat, j: nat)
    requires Chronological(from, calls) && j <= i < |calls|
    ensures from <= calls[j].at <= calls[i].at
    decreases |calls|
  {
    if i > 0 {
      ChronologicalPrefix(calls[0].at, calls[1..], i - 1, if j > 0 then j - 1 else 0);
    }
  }

  /**
   In every run: a budgeted call more than a minute after the window was opened is admitted,
   whatever came before; so is one more than a minute after the budgeted call before it, and
   the first one.
   */
  lemma LateCallAdmitted(from: int, calls: seq<Call>, i: nat)
    requires Chronological(from, calls) && i < |calls| && calls[i].cap > 0
    ensures var w, c := WindowAfter(NoWindow, calls[..i]), calls[i];
            (w.Open? ==> c.at > w.start + MINUTE) ==> Step(w, c) == (Open(c.at, 1), Admitted)
    ensures (forall j :: 0 <= j < i && calls[j].cap > 0 && (forall k :: j < k < i ==> calls[k].cap <= 0) ==>
               calls[i].at > calls[j].at + MINUTE) ==>
            Step(WindowAfter(NoWindow, calls[..i]), calls[i]).1 == Admitted
  {
    var before := calls[..i];
    var w := WindowAfter(NoWindow, before);
    WindowOpenedByCall(NoWindow, before);
    if w.Open? {
      var c :| c in before && c.cap > 0 && c.at == w.start;
      var o :| 0 <= o < i && before[o] == c;
      var j := LastBudgeted(calls, o, i);
      ChronologicalPrefix(from, calls, j, o);
    }
  }

  /** The last budgeted call of calls[..i]. */
  lemma LastBudgeted(calls: seq<Call>, o: nat, i: nat) returns (j: nat)
    requires o < i <= |calls| && calls[o].cap > 0
    ensures o <= j < i && calls[j].cap > 0 && forall k :: j < k < i ==> calls[k].cap <= 0
    decreases i
  {
    if calls[i - 1].cap > 0 {
      j := i - 1;
    } else {
      j := LastBudgeted(calls, o, i - 1);
    }
  }

  // ---- The bound is attained --------------------------------------------------------

  function Burst(n: nat, c: Call): seq<Call> {
    if n == 0 then [] else [c] + Burst(n - 1, c)
  }

  /** k full windows, each opened as soon as the one before may be replaced. */
  function FullWindows(k: nat, at: int, cap: int): seq<Call>
    requires cap > 0
  {
    if k == 0 then [] else Burst(MaxCalls(cap), Call(at, cap)) + FullWindows(k - 1, at + GAP, cap)
  }

  lemma BurstChronological(n: nat, c: Call, rest: seq<Call>, from: int)
    requires from <= c.at && Chronological(c.at, rest)
    ensures Chronological(from, Burst(n, c) + rest)
    decreases n
  {
    if n == 0 {
      assert Burst(n, c) + rest == rest;
    } else {
      BurstChronological(n - 1, c, rest, c.at);
      assert (Burst(n, c) + rest)[1..] == Burst(n - 1, c) + rest;
    }
  }

  lemma FullWindowsChronological(k: nat, at: int, cap: int, from: int)
    requires cap > 0 && from <= at
    ensures Chronological(from, FullWindows(k, at, cap))
  {
    if k > 0 {
      FullWindowsChronological(k - 1, at + GAP, cap, at);
      BurstChronological(MaxCalls(cap), Call(at, cap), FullWindows(k - 1, at + GAP, cap), from);
    }
  }

  lemma {:induction false} BurstAdmitted(n: nat, w: Window, c: Call, rest: seq<Call>, lo: int, hi: int)
    requires c.cap > 0 && w.Open? && !Reopens(w, c.at) && w.calls + n <= MaxCalls(c.cap)
    requires lo <= c.at <= hi
    ensures AdmittedIn(w, Burst(n, c) + rest, lo, hi)
         == n + AdmittedIn(Open(w.start, w.calls + n), rest, lo, hi)
    decreases n
  {
    if n == 0 {
      assert Burst(n, c) + rest == rest;
    } else {
      assert (Burst(n, c) + rest)[1..] == Burst(n - 1, c) + rest;
      BurstAdmitted(n - 1, Open(w.start, w.calls + 1), c, rest, lo, hi);
    }
  }

  lemma {:induction false} FullWindowsAdmitted(k: nat, w: Window, at: int, cap: int, lo: int, hi: int)
    requires cap > 0 && Reopens(w, at) && lo <= at && at + (k - 1) * GAP <= hi
    ensures AdmittedIn(w, FullWindows(k, at, cap), lo, hi) == MaxCalls(cap) * k
    decreases k
  {
    if k > 0 {
      var m, c, rest := MaxCalls(cap), Call(at, cap), FullWindows(k - 1, at + GAP, cap);
      assert Burst(m, c) == [c] + Burst(m - 1, c);
      assert FullWindows(k, at, cap)[1..] == Burst(m - 1, c) + rest;
      assert at <= hi;
      BurstAdmitted(m - 1, Open(at, 1), c, rest, lo, hi);
      FullWindowsAdmitted(k - 1, Open(at, m), at + GAP, cap, lo, hi);
      assert m * k == m * (k - 1) + m;
    }
  }

  /** A run whose last window before `lo` was opened by one call, as early as it may be. */
  function StraddlingRun(windows: nat, cap: int): seq<Call>
    requires cap > 0
  {
    [Call(0, cap)] + (Burst(MaxCalls(cap) - 1, Call(MINUTE, cap)) + FullWindows(windows, GAP, cap))
  }

  lemma StraddlingRunAdmitted(windows: nat, cap: int, hi: int)
    requires cap > 0 && windows > 0 && windows * GAP <= hi
    ensures Chronological(0, StraddlingRun(windows, cap))
    ensures AdmittedIn(NoWindow, StraddlingRun(windows, cap), MINUTE, hi)
         == MaxCalls(cap) - 1 + MaxCalls(cap) * windows
  {
    var m, late, tail := MaxCalls(cap), Call(MINUTE, cap), FullWindows(windows, GAP, cap);
    FullWindowsChronological(windows, GAP, cap, MINUTE);
    BurstChronological(m - 1, late, tail, 0);
    assert StraddlingRun(windows, cap)[1..] == Burst(m - 1, late) + tail;
    BurstAdmitted(m - 1, Open(0, 1), late, tail, MINUTE, hi);
    FullWindowsAdmitted(windows, Open(0, m), GAP, cap, MINUTE, hi);
  }

  /** For every cap and every interval length some run admits exactly `Capacity` calls. */
  lemma BurstBoundAttained(cap: int, length: nat) returns (calls: seq<Call>, lo: int)
    requires cap > 0
    ensures Chronological(0, calls) && forall c :: c in calls ==> c.cap == cap
    ensures AdmittedIn(NoWindow, calls, lo, lo + length) == Capacity(MaxCalls(cap), length)
  {
    var windows := length / GAP + 1;
    if length % GAP == 0 {
      calls, lo := FullWindows(windows, 0, cap), 0;
      FullWindowsChronological(windows, 0, cap, 0);
      FullWindowsAdmitted(windows, NoWindow, 0, cap, lo, length);
      FullWindowsCap(windows, 0, cap);
    } else {
      calls, lo := StraddlingRun(windows, cap), MINUTE;
      StraddlingRunAdmitted(windows, cap, lo + length);
      FullWindowsCap(windows, GAP, cap);
      BurstCap(MaxCalls(cap) - 1, Call(MINUTE, cap));
    }
  }

  lemma BurstCap(n: nat, c: Call)
    ensures forall d :: d in Burst(n, c) ==> d == c
  {
  }

  lemma FullWindowsCap(k: nat, at: int, cap: int)
    requires cap > 0
    ensures forall d :: d in FullWindows(k, at, cap) ==> d.cap == cap
  {
    if k > 0 {
      BurstCap(MaxCalls(cap), Call(at, cap));
      FullWindowsCap(k - 1, at + GAP, cap);
    }
  }

  // ---- A bound linear in the length -------------------------------------------------

  predicate RunUnder(cap: int, now: int, calls: seq<Call>) {
    Chronological(now, calls) && forall c :: c in calls ==> c.cap == cap
  }

  /** At most the cap times (length in minutes + 1), without rounding the minutes. */
  predicate WithinLinear(calls: seq<Call>, lo: int, length: nat, m: int) {
    AdmittedIn(NoWindow, calls, lo, lo + length) * MINUTE <= m * (length + MINUTE)
  }

  lemma CapacityIsLinear(m: int, length: nat)
    requires m >= MIN_CALLS
    ensures Capacity(m, length) * MINUTE <= m * (length + MINUTE)
       <==> length % GAP == 0 || (m - 1) * MINUTE <= m * (length / GAP + length % GAP)
  {
    var q, r := length / GAP, length % GAP;
    assert length == q * GAP + r;
    assert m * (q * GAP + r + MINUTE) == m * (q + 1) * MINUTE + m * (q + r);
    if r == 0 {
      MulMonotone(m, 0, q);
    }
  }

  /**
   A rate of one cap a minute plus one cap in hand bounds every run of an interval length
   exactly when the length is a whole number of windows, or leaves a remainder in which the
   rate itself already allows all but one call.  An interval of one nanosecond is neither.
   */
  lemma LinearBoundIff(cap: int, length: nat)
    requires cap > 0
    ensures var m := MaxCalls(cap);
            (forall now, calls, lo :: RunUnder(cap, now, calls) ==> WithinLinear(calls, lo, length, m)) <==>
              length % GAP == 0 || (m - 1) * MINUTE <= m * (length / GAP + length % GAP)
  {
    var m := MaxCalls(cap);
    CapacityIsLinear(m, length);
    if Capacity(m, length) * MINUTE <= m * (length + MINUTE) {
      forall now, calls, lo | RunUnder(cap, now, calls) ensures WithinLinear(calls, lo, length, m) {
        BurstBound(NoWindow, calls, now, lo, lo + length, m);
      }
    } else {
      var calls, lo := BurstBoundAttained(cap, length);
      assert RunUnder(cap, 0, calls) && !WithinLinear(calls, lo, length, m);
    }
  }

  lemma LinearBoundFails(cap: int) returns (calls: seq<Call>, lo: int)
    requires cap > 0
    ensures RunUnder(cap, 0, calls) && !WithinLinear(calls, lo, 1, MaxCalls(cap))
  {
    calls, lo := BurstBoundAttained(cap, 1);
  }
}
