/**
 Thinning out a chart series: every step-th point, and the last one.
 */
module ChartSampling {
  import opened Prelude

  datatype Failure = DivisionByZero | IndexError

  /** points[::step] */
  function EveryNth<T>(points: seq<T>, step: int): seq<T>
    requires step > 0
    ensures |EveryNth(points, step)| == (|points| + step - 1) / step
  {
    var n := (|points| + step - 1) / step;
    seq(n, i requires 0 <= i < n => StrideInRange(|points|, step, i); points[i * step])
  }

  lemma StrideInRange(n: nat, step: int, i: nat)
    requires step > 0 && i < (n + step - 1) / step
    ensures i * step < n
  {
    var q := (n + step - 1) / step;
    assert q * step <= n + step - 1;
    assert (i + 1) * step <= q * step;
  }

  /** Python's floor division, which fails on a zero divisor. */
  function FloorDiv(a: int, b: int): int
    requires b != 0
  {
    if b > 0 then a / b else (-a) / (-b)
  }

  function Downsample<T(==)>(points: seq<T>, maxPts: int): Result<seq<T>, Failure> {
    if |points| <= maxPts then Ok(points)
    else if maxPts == 0 then Err(DivisionByZero)
    else
      var q := FloorDiv(|points|, maxPts);
      var step := if q < 1 then 1 else q;
      var out := EveryNth(points, step);
      // out[-1] of an empty list
      if out == [] then Err(IndexError)
      else if out[|out| - 1] != points[|points| - 1] then Ok(out + [points[|points| - 1]])
      else Ok(out)
  }

  predicate Increasing(indices: seq<nat>, n: nat) {
    && (forall i :: 0 <= i < |indices| ==> indices[i] < n)
    && (forall i, j :: 0 <= i < j < |indices| ==> indices[i] < indices[j])
  }

  /** The picked points, in order. */
  predicate Picks<T(==)>(points: seq<T>, indices: seq<nat>, out: seq<T>) {
    Increasing(indices, |points|) && |out| == |indices| && forall i :: 0 <= i < |out| ==> out[i] == points[indices[i]]
  }

  lemma MulMonotone(a: int, b: int, c: int)
    requires c >= 0
    ensures a <= b ==> a * c <= b * c
  {
  }

  lemma CountAtLeast(n: nat, m: nat, step: nat, count: nat)
    requires step >= 1 && step * m <= n <= count * step
    ensures m <= count
  {
    MulMonotone(count + 1, m, step);
    assert (count + 1) * step == count * step + step;
  }

  lemma CountAtMost(n: nat, m: nat, step: nat, count: nat)
    requires m >= 1 && step >= 2 && n < step * m + m && count * step <= n + step - 1
    ensures count + 1 <= 2 * m
  {
    MulMonotone(2 * m, count, step);
    assert 2 * m * step == m * step + m * step;
    MulMonotone(0, m - 1, step - 1);
    assert (m - 1) * (step - 1) == m * step - m - step + 1;
  }

  /** A stride of n/m takes at least m of n points, and fewer than 2m when points are skipped. */
  lemma StrideCount(n: nat, m: nat, step: nat)
    requires 1 <= m < n && step == n / m
    ensures step >= 1 && m <= (n + step - 1) / step
    ensures (n + step - 1) / step + (if step > 1 then 1 else 0) <= 2 * m
  {
    Quotient(n, m);
    MulMonotone(step, 0, m);
    var count := (n + step - 1) / step;
    Quotient(n + step - 1, step);
    CountAtLeast(n, m, step, count);
    if step > 1 {
      CountAtMost(n, m, step, count);
    }
  }

  lemma Quotient(a: int, b: int)
    requires b > 0
    ensures a / b * b <= a < a / b * b + b
  {
    assert a == a / b * b + a % b;
  }

  lemma PositiveFloorDiv(n: nat, m: nat)
    requires 1 <= m < n
    ensures n / m >= 1 && FloorDiv(n, m) == n / m
  {
    StrideCount(n, m, n / m);
  }

  lemma DownsampleUnfolds<T>(points: seq<T>, maxPts: nat)
    requires 1 <= maxPts < |points|
    ensures |points| / maxPts >= 1
    ensures var every := EveryNth(points, |points| / maxPts);
            every != [] && every[0] == points[0] && Downsample(points, maxPts) == Ok(Closed(points, every))
            && maxPts <= |every| && |Closed(points, every)| <= 2 * maxPts
  {
    StrideCount(|points|, maxPts, |points| / maxPts);
    PositiveFloorDiv(|points|, maxPts);
    StepOneComplete(points, |points| / maxPts);
  }

  /** The stride, with the last point added if it differs from the last one picked. */
  function Closed<T(==)>(points: seq<T>, every: seq<T>): seq<T>
    requires points != [] && every != []
  {
    if every[|every| - 1] != points[|points| - 1] then every + [points[|points| - 1]] else every
  }

  lemma ClosedPicks<T>(points: seq<T>, indices: seq<nat>, every: seq<T>) returns (all: seq<nat>)
    requires points != [] && every != [] && Picks(points, indices, every)
    ensures Picks(points, all, Closed(points, every))
    ensures all == if every[|every| - 1] == points[|points| - 1] then indices else indices + [|points| - 1]
  {
    var k, last := |indices|, |points| - 1;
    if every[|every| - 1] == points[last] {
      all := indices;
    } else {
      all := indices + [last];
      assert every[k - 1] == points[indices[k - 1]];
      assert indices[k - 1] < last;
      forall i, j | 0 <= i < j < |all| ensures all[i] < all[j] {
        assert i < k - 1 ==> indices[i] < indices[k - 1];
      }
      var out := Closed(points, every);
      forall i | 0 <= i < |out| ensures out[i] == points[all[i]] {
        assert i < k ==> out[i] == every[i];
      }
    }
  }

  lemma StrideEnds(n: nat, step: int, count: nat)
    requires step > 0 && n > 0 && count == (n + step - 1) / step
    ensures 1 <= count && (count - 1) * step < n <= count * step
  {
    Quotient(n + step - 1, step);
    MulMonotone(count, 0, step);
    assert (count - 1) * step == count * step - step;
  }

  /** The multiples of step below n, all of them, and then perhaps the last index. */
  predicate IsStride(indices: seq<nat>, step: int, count: nat, n: nat) {
    && step >= 1 && 1 <= count <= |indices| <= count + 1 && (count - 1) * step < n <= count * step
    && (forall i :: 0 <= i < count ==> indices[i] == i * step)
    && (|indices| > count ==> indices[count] == n - 1)
  }

  lemma CloseStride<T>(points: seq<T>, every: seq<T>, strides: seq<nat>, step: int) returns (indices: seq<nat>)
    requires points != [] && every != [] && Picks(points, strides, every) && step > 0
    requires (|strides| - 1) * step < |points| <= |strides| * step
    requires forall i :: 0 <= i < |strides| ==> strides[i] == i * step
    ensures Picks(points, indices, Closed(points, every))
    ensures IsStride(indices, step, |strides|, |points|)
    ensures |indices| > |strides| <==> points[indices[|strides| - 1]] != points[|points| - 1]
  {
    indices := ClosedPicks(points, strides, every);
    var last := |strides| - 1;
    assert every[last] == points[strides[last]];
  }

  /** The stride and the last point, as a selection. */
  lemma StrideSelection<T>(points: seq<T>, step: int) returns (indices: seq<nat>, count: nat)
    requires points != [] && step > 0
    ensures EveryNth(points, step) != [] && Picks(points, indices, Closed(points, EveryNth(points, step)))
    ensures IsStride(indices, step, count, |points|)
    ensures |indices| > count <==> points[indices[count - 1]] != points[|points| - 1]
  {
    var every := EveryNth(points, step);
    StrideEnds(|points|, step, |every|);
    var strides := StridePicks(points, step);
    count := |strides|;
    indices := CloseStride(points, every, strides, step);
  }

  /**
   For at least one point requested: a series that is short enough is returned as it is; of a
   longer one every step-th point is taken, step being its length divided by maxPts and
   rounded down, and the last point is added unless the last one taken equals it.
   */
  lemma DownsampleTakes<T>(points: seq<T>, maxPts: nat)
    requires 1 <= maxPts
    ensures |points| <= maxPts ==> Downsample(points, maxPts) == Ok(points)
    ensures |points| > maxPts ==>
              Downsample(points, maxPts).Ok? &&
              exists indices, step, count ::
                && step * maxPts <= |points| < step * maxPts + maxPts
                && IsStride(indices, step, count, |points|)
                && Picks(points, indices, Downsample(points, maxPts).value)
                && (|indices| > count <==> points[indices[count - 1]] != points[|points| - 1])
  {
    if |points| > maxPts {
      DownsampleUnfolds(points, maxPts);
      Quotient(|points|, maxPts);
      var indices, count := StrideSelection(points, |points| / maxPts);
    }
  }

  /**
   The result for a longer series starts with the first point, ends with a point equal to the
   last, is an in-order selection, and has between maxPts and 2 * maxPts points.
   */
  lemma DownsampleSelects<T>(points: seq<T>, maxPts: nat) returns (indices: seq<nat>)
    requires 1 <= maxPts < |points|
    ensures Downsample(points, maxPts).Ok?
    ensures var out := Downsample(points, maxPts).value;
            && Picks(points, indices, out)
            && maxPts <= |out| <= 2 * maxPts
            && out[0] == points[0] && out[|out| - 1] == points[|points| - 1]
  {
    DownsampleUnfolds(points, maxPts);
    var every := EveryNth(points, |points| / maxPts);
    indices := StridePicks(points, |points| / maxPts);
    indices := ClosedPicks(points, indices, every);
  }

  lemma StridePicks<T>(points: seq<T>, step: int) returns (indices: seq<nat>)
    requires step > 0
    ensures Picks(points, indices, EveryNth(points, step))
    ensures forall i :: 0 <= i < |indices| ==> indices[i] == i * step
  {
    var count := |EveryNth(points, step)|;
    indices := seq(count, i requires 0 <= i < count => i * step);
    forall i | 0 <= i < count ensures indices[i] < |points| {
      StrideInRange(|points|, step, i);
    }
    forall i, j | 0 <= i < j < count ensures indices[i] < indices[j] {
      assert (i + 1) * step <= j * step;
    }
  }

  /** With step 1 nothing is skipped, so the last point is there already. */
  lemma StepOneComplete<T>(points: seq<T>, step: int)
    requires points != [] && step >= 1
    ensures step == 1 ==> EveryNth(points, step) == points
  {
  }

  /**
   Exactly when thinning fails: a request for zero points of a non-empty list divides by
   zero, a negative request of an empty list indexes it.
   */
  lemma FailsIff<T>(points: seq<T>, maxPts: int)
    ensures Downsample(points, maxPts) == Err(DivisionByZero) <==> maxPts == 0 && points != []
    ensures Downsample(points, maxPts) == Err(IndexError) <==> maxPts < 0 && points == []
  {
    if 1 <= maxPts < |points| {
      DownsampleUnfolds(points, maxPts);
    } else if maxPts < 0 && points != [] {
      NonPositiveRequest(points, maxPts);
    }
  }

  /** Any request that is not positive: zero and an empty list, or negative and a non-empty one, return the list. */
  lemma NonPositiveRequest<T>(points: seq<T>, maxPts: int)
    requires maxPts <= 0
    ensures Downsample(points, maxPts)
         == if (maxPts == 0) == (points == []) then Ok(points)
            else if maxPts == 0 then Err(DivisionByZero)
            else Err(IndexError)
  {
    if maxPts < 0 {
      assert FloorDiv(|points|, maxPts) < 1;
      if points != [] {
        StepOneComplete(points, 1);
      }
    }
  }
}
