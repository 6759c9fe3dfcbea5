/**
 The 24-bucket sparklines of the executive summary, filled in place: calls, blocked calls
 and cost.
 */
module Sparklines {
  import opened Prelude

  const BUCKETS: nat := 24

  // at is None when the timestamp does not parse.
  datatype Record = Record(at: Option<int>, blocked: bool, cost: int)

  datatype Line = Calls | Blocked | Cost

  /** What a record adds to a line. */
  function Weight(line: Line, r: Record): int {
    match line
    case Calls => 1
    case Blocked => if r.blocked then 1 else 0
    case Cost => r.cost
  }

  /**
   Where the 24 buckets start, and how wide they are.  A window of zero days gives width 0,
   one of a negative number of days a negative width.
   */
  datatype Axis = Axis(start: int, width: int)

  /** A record is drawn when its distance from the start is in the direction of the buckets. */
  predicate IsDrawn(axis: Axis, r: Record) {
    && r.at.Some?
    && if axis.width > 0 then r.at.value >= axis.start
       else if axis.width < 0 then r.at.value <= axis.start
       else r.at.value > axis.start
  }

  // JavaScript's quotient, rounded down: for a zero width infinite, or NaN at the start itself.
  datatype Quotient = Finite(n: int) | PlusInfinity | MinusInfinity | NaN

  function FloorQuotient(d: int, width: int): Quotient {
    if width > 0 then Finite(d / width)
    else if width < 0 then Finite((-d) / (-width))
    else if d > 0 then PlusInfinity
    else if d < 0 then MinusInfinity
    else NaN
  }

  /** Math.min(23, q) as an index, None when the result is not at least 0. */
  function Clamped(q: Quotient): (i: Option<nat>)
    ensures i.Some? ==> i.value < BUCKETS
  {
    match q
    case Finite(n) => if n < 0 then None else Some(if n < BUCKETS - 1 then n else BUCKETS - 1)
    case PlusInfinity => Some(BUCKETS - 1)
    case MinusInfinity => None
    case NaN => None
  }

  /** The bucket of a record, later ones going to the last bucket; None when it is not drawn. */
  function Index(axis: Axis, r: Record): (i: Option<nat>)
    ensures i.Some? ==> i.value < BUCKETS
  {
    if r.at.None? then None else Clamped(FloorQuotient(r.at.value - axis.start, axis.width))
  }

  lemma DrawnIffIndexed(axis: Axis, r: Record)
    ensures Index(axis, r).Some? <==> IsDrawn(axis, r)
  {
    if r.at.Some? {
      var d := r.at.value - axis.start;
      if axis.width > 0 {
        FloorSign(d, axis.width);
      } else if axis.width < 0 {
        FloorSign(-d, -axis.width);
      }
    }
  }

  /** d lies in the stretch of the given width that starts at b widths; the last stretch is open. */
  predicate InStretch(d: int, width: int, b: nat) {
    b < BUCKETS && b * width <= d && (b < BUCKETS - 1 ==> d < (b + 1) * width)
  }

  lemma QuotientStretch(d: int, width: int, b: nat)
    requires width > 0
    ensures Clamped(Finite(d / width)) == Some(b) <==> InStretch(d, width, b)
  {
    var q := d / width;
    assert d == q * width + d % width;
    MulStep(q, b, width);
    MulStep(q, b + 1, width);
    if q < 0 {
      MulStep(q, 0, width);
    }
  }

  /**
   Which bucket: with buckets of positive width the one in whose stretch the time lies, or the
   last for all later times; with a negative width the same going back in time; with width
   zero the last, for times after the start.
   */
  lemma BucketByTime(axis: Axis, r: Record, b: nat)
    requires r.at.Some?
    ensures axis.width > 0 ==>
              (Index(axis, r) == Some(b) <==> InStretch(r.at.value - axis.start, axis.width, b))
    ensures axis.width < 0 ==>
              (Index(axis, r) == Some(b) <==> InStretch(axis.start - r.at.value, -axis.width, b))
    ensures axis.width == 0 ==>
              (Index(axis, r) == Some(b) <==> b == 23 && r.at.value > axis.start)
  {
    if axis.width > 0 {
      QuotientStretch(r.at.value - axis.start, axis.width, b);
    } else if axis.width < 0 {
      QuotientStretch(axis.start - r.at.value, -axis.width, b);
    }
  }

  function InBucket(axis: Axis, line: Line, records: seq<Record>, b: nat): int
  {
    if records == [] then 0
    else
      var r := records[|records| - 1];
      InBucket(axis, line, records[..|records| - 1], b) + if Index(axis, r) == Some(b) then Weight(line, r) else 0
  }

  /** A line holds, bucket by bucket, the weight of the records in it. */
  ghost predicate Shows(a: seq<int>, axis: Axis, line: Line, records: seq<Record>)
  {
    |a| == BUCKETS && forall b :: 0 <= b < BUCKETS ==> a[b] == InBucket(axis, line, records, b)
  }

  function Bumped(a: seq<int>, at: Option<nat>, n: int): seq<int>
    requires at.Some? ==> at.value < |a|
  {
    if at.None? then a else a[at.value := a[at.value] + n]
  }

  lemma BumpShows(a: seq<int>, axis: Axis, line: Line, records: seq<Record>, r: Record)
    requires Shows(a, axis, line, records)
    ensures Shows(Bumped(a, Index(axis, r), Weight(line, r)), axis, line, records + [r])
  {
    assert (records + [r])[..|records|] == records;
  }

  method Bump(a: array<int>, i: nat, n: int)
    requires i < a.Length
    modifies a
    ensures a[..] == Bumped(old(a[..]), Some(i), n)
  {
    a[i] := a[i] + n;
  }

  /** The body of the loop over the records. */
  method Draw(axis: Axis, r: Record, calls: array<int>, blocked: array<int>, cost: array<int>)
    requires calls.Length == BUCKETS && blocked.Length == BUCKETS && cost.Length == BUCKETS
    requires calls != blocked && blocked != cost && calls != cost
    modifies calls, blocked, cost
    ensures calls[..] == Bumped(old(calls[..]), Index(axis, r), Weight(Calls, r))
    ensures blocked[..] == Bumped(old(blocked[..]), Index(axis, r), Weight(Blocked, r))
    ensures cost[..] == Bumped(old(cost[..]), Index(axis, r), Weight(Cost, r))
  {
    if r.at.None? {
      return;
    }
    var bucket := Clamped(FloorQuotient(r.at.value - axis.start, axis.width));
    if bucket.Some? {
      Bump(calls, bucket.value, 1);
      if r.blocked {
        Bump(blocked, bucket.value, 1);
      }
      Bump(cost, bucket.value, r.cost);
    }
  }

  method Fill(axis: Axis, records: seq<Record>) returns (calls: array<int>, blocked: array<int>, cost: array<int>)
    ensures Shows(calls[..], axis, Calls, records) && Total(calls[..]) == Drawn(axis, Calls, records)
    ensures Shows(blocked[..], axis, Blocked, records) && Total(blocked[..]) == Drawn(axis, Blocked, records)
    ensures Shows(cost[..], axis, Cost, records) && Total(cost[..]) == Drawn(axis, Cost, records)
  {
    calls := new int[BUCKETS](_ => 0);
    blocked := new int[BUCKETS](_ => 0);
    cost := new int[BUCKETS](_ => 0);
    for i := 0 to |records|
      invariant calls.Length == BUCKETS && blocked.Length == BUCKETS && cost.Length == BUCKETS
      invariant calls != blocked && blocked != cost && calls != cost
      invariant Shows(calls[..], axis, Calls, records[..i])
      invariant Shows(blocked[..], axis, Blocked, records[..i])
      invariant Shows(cost[..], axis, Cost, records[..i])
    {
      BumpShows(calls[..], axis, Calls, records[..i], records[i]);
      BumpShows(blocked[..], axis, Blocked, records[..i], records[i]);
      BumpShows(cost[..], axis, Cost, records[..i], records[i]);
      Draw(axis, records[i], calls, blocked, cost);
      assert records[..i] + [records[i]] == records[..i + 1];
    }
    assert records[..|records|] == records;
    LinesConserve(calls[..], axis, Calls, records);
    LinesConserve(blocked[..], axis, Blocked, records);
    LinesConserve(cost[..], axis, Cost, records);
  }

  lemma FloorSign(d: int, width: int)
    requires width > 0
    ensures d / width >= 0 <==> d >= 0
  {
    var q := d / width;
    assert d == q * width + d % width;
    if q >= 0 {
      MulSign(q, width);
    } else {
      MulSign(-q - 1, width);
      assert (-q - 1) * width == -(q * width) - width;
    }
  }

  // ---- Conservation -----------------------------------------------------------------

  /** The sum of a line. */
  function Total(a: seq<int>): int {
    if a == [] then 0 else Total(a[..|a| - 1]) + a[|a| - 1]
  }

  /** The weight of all records that are drawn. */
  function Drawn(axis: Axis, line: Line, records: seq<Record>): int {
    if records == [] then 0
    else
      var r := records[|records| - 1];
      Drawn(axis, line, records[..|records| - 1]) + if IsDrawn(axis, r) then Weight(line, r) else 0
  }

  /** The weight of the records in the first n buckets. */
  function Sum(axis: Axis, line: Line, records: seq<Record>, n: nat): int {
    if n == 0 then 0 else Sum(axis, line, records, n - 1) + InBucket(axis, line, records, n - 1)
  }

  lemma {:induction false} SumPeel(axis: Axis, line: Line, records: seq<Record>, n: nat)
    requires records != []
    ensures var r := records[|records| - 1];
            var added := if Index(axis, r).Some? && Index(axis, r).value < n then Weight(line, r) else 0;
            Sum(axis, line, records, n) == Sum(axis, line, records[..|records| - 1], n) + added
  {
    if n > 0 {
      SumPeel(axis, line, records, n - 1);
    }
  }

  lemma {:induction false} SumIsDrawn(axis: Axis, line: Line, records: seq<Record>)
    ensures Sum(axis, line, records, BUCKETS) == Drawn(axis, line, records)
  {
    if records == [] {
      EmptySum(axis, line, BUCKETS);
    } else {
      SumPeel(axis, line, records, BUCKETS);
      SumIsDrawn(axis, line, records[..|records| - 1]);
      DrawnIffIndexed(axis, records[|records| - 1]);
    }
  }

  lemma {:induction false} EmptySum(axis: Axis, line: Line, n: nat)
    ensures Sum(axis, line, [], n) == 0
  {
    if n > 0 {
      EmptySum(axis, line, n - 1);
    }
  }

  lemma {:induction false} TotalIsSum(a: seq<int>, axis: Axis, line: Line, records: seq<Record>)
    requires forall b :: 0 <= b < |a| ==> a[b] == InBucket(axis, line, records, b)
    ensures Total(a) == Sum(axis, line, records, |a|)
  {
    if a != [] {
      TotalIsSum(a[..|a| - 1], axis, line, records);
    }
  }

  /** A filled line adds up to the weight of exactly the records drawn. */
  lemma LinesConserve(a: seq<int>, axis: Axis, line: Line, records: seq<Record>)
    requires Shows(a, axis, line, records)
    ensures Total(a) == Drawn(axis, line, records)
  {
    TotalIsSum(a, axis, line, records);
    SumIsDrawn(axis, line, records);
  }
}
