/** The accumulation loop of jma_ame_nrt/cartopy_jma_cumrain.py: one frame per
    hour from the start time up to and including the end time, each drawing
    the precipitation summed so far. */
module CumRain {
  import opened Base
  import opened StationDecode

  /** NaN-propagating addition of two decoded values. */
  function AddMeasure(a: Measure, b: Measure): (r: Measure)
    ensures r.Missing? <==> a.Missing? || b.Missing?
    ensures r.Value? ==> r.v == a.v + b.v
  {
    if a.Value? && b.Value? then Value(a.v + b.v) else Missing
  }

  /** numpy `a + b` on one-dimensional arrays: elementwise for equal lengths,
      a length-1 operand is broadcast, anything else raises ValueError. */
  function AddArrays(a: seq<Measure>, b: seq<Measure>): (r: Result<seq<Measure>>)
    ensures r.Ok? <==> |a| == |b| || |a| == 1 || |b| == 1
    ensures r.Ok? && |a| == |b| ==>
      (|r.value| == |a| && forall i :: 0 <= i < |a| ==> r.value[i] == AddMeasure(a[i], b[i]))
    ensures r.Ok? && |a| != |b| && |a| == 1 ==>
      (|r.value| == |b| && forall i :: 0 <= i < |b| ==> r.value[i] == AddMeasure(a[0], b[i]))
    ensures r.Ok? && |a| != |b| && |a| != 1 ==>
      (|r.value| == |a| && forall i :: 0 <= i < |a| ==> r.value[i] == AddMeasure(a[i], b[0]))
  {
    if |a| == |b| then Ok(seq(|a|, i requires 0 <= i < |a| => AddMeasure(a[i], b[i])))
    else if |a| == 1 then Ok(seq(|b|, i requires 0 <= i < |b| => AddMeasure(a[0], b[i])))
    else if |b| == 1 then Ok(seq(|a|, i requires 0 <= i < |a| => AddMeasure(a[i], b[0])))
    else Err(ValueError)
  }

  /** The array drawn at each frame: the first step's array, then the running
      sum `prep = prep + pr_i`. */
  function Accumulate(steps: seq<seq<Measure>>): (r: Result<seq<seq<Measure>>>)
    ensures r.Ok? ==> |r.value| == |steps|
    ensures r.Ok? && |steps| > 0 ==> r.value[0] == steps[0]
    decreases |steps|
  {
    if |steps| == 0 then Ok([])
    else if |steps| == 1 then Ok([steps[0]])
    else
      var front :- Accumulate(steps[..|steps| - 1]);
      var last :- AddArrays(front[|front| - 1], steps[|steps| - 1]);
      Ok(front + [last])
  }

  /** Reference definition: the total of station `i` over steps 0..k. */
  function Total(steps: seq<seq<Measure>>, k: nat, i: nat): Measure
    requires k < |steps|
    requires forall j :: 0 <= j <= k ==> i < |steps[j]|
  {
    if k == 0 then steps[0][i] else AddMeasure(Total(steps, k - 1, i), steps[k][i])
  }

  /** All steps hold the same stations. */
  predicate Aligned(steps: seq<seq<Measure>>, n: nat) {
    forall j :: 0 <= j < |steps| ==> |steps[j]| == n
  }

  /** With every step holding the same n stations the sum never fails, and
      frame k holds each station's total over steps 0..k. */
  lemma {:induction false} AccumulateTotals(steps: seq<seq<Measure>>, n: nat)
    requires Aligned(steps, n)
    ensures Accumulate(steps).Ok?
    ensures forall k :: 0 <= k < |steps| ==> |Accumulate(steps).value[k]| == n
    ensures forall k, i :: 0 <= k < |steps| && 0 <= i < n ==> Accumulate(steps).value[k][i] == Total(steps, k, i)
    decreases |steps|
  {
    if |steps| > 1 {
      var init := steps[..|steps| - 1];
      assert forall j :: 0 <= j < |init| ==> init[j] == steps[j];
      AccumulateTotals(init, n);
      TotalPrefix(steps, init, n);
      var front := Accumulate(init).value;
      var m := |steps| - 1;
      var last := AddArrays(front[m - 1], steps[m]);
      assert last.Ok?;
      assert Accumulate(steps).value == front + [last.value];
      forall i | 0 <= i < n ensures last.value[i] == Total(steps, m, i) {
        assert front[m - 1][i] == Total(steps, m - 1, i);
      }
    }
  }

  /** `Total` only looks at the steps up to k. */
  lemma TotalPrefix(steps: seq<seq<Measure>>, init: seq<seq<Measure>>, n: nat)
    requires Aligned(steps, n) && |steps| > 0 && init == steps[..|steps| - 1]
    ensures forall k, i :: 0 <= k < |init| && 0 <= i < n ==> Total(init, k, i) == Total(steps, k, i)
  {
    forall k, i | 0 <= k < |init| && 0 <= i < n
      ensures Total(init, k, i) == Total(steps, k, i)
    {
      TotalPrefixAt(steps, init, n, k, i);
    }
  }

  lemma {:induction false} TotalPrefixAt(steps: seq<seq<Measure>>, init: seq<seq<Measure>>, n: nat, k: nat, i: nat)
    requires Aligned(steps, n) && |steps| > 0 && init == steps[..|steps| - 1]
    requires k < |init| && i < n
    ensures Total(init, k, i) == Total(steps, k, i)
    decreases k
  {
    if k > 0 {
      TotalPrefixAt(steps, init, n, k - 1, i);
    }
  }

  /** A station that is NaN at any step stays NaN from then on, and a total is
      a value exactly when every step so far was a value. */
  lemma {:induction false} TotalMissing(steps: seq<seq<Measure>>, n: nat, k: nat, i: nat)
    requires Aligned(steps, n) && k < |steps| && i < n
    ensures Total(steps, k, i).Missing? <==> exists j :: 0 <= j <= k && steps[j][i].Missing?
    decreases k
  {
    if k > 0 {
      TotalMissing(steps, n, k - 1, i);
    }
  }

  /** Two steps of mismatched station counts (neither of length one) stop the loop. */
  lemma MismatchFails(a: seq<Measure>, b: seq<Measure>)
    requires |a| != |b| && |a| != 1 && |b| != 1
    ensures Accumulate([a, b]).Err?
  {
    assert [a, b][..1] == [a];
  }

  // ---------------------------------------------------------------------------
  // The hourly time loop

  /** Minutes in one step of `timedelta(hours=1)`. */
  const StepMinutes: int := 60

  /** The times the `while True` loop visits, in minutes: `start`, one step
      later, ... for as long as the time is not past `end`. */
  function Frames(start: int, end: int): (ts: seq<int>)
    ensures start > end ==> ts == []
    ensures start <= end ==> |ts| > 0 && ts[0] == start
    ensures forall k :: 0 <= k < |ts| ==> ts[k] == start + k * StepMinutes && ts[k] <= end
    ensures |ts| > 0 ==> ts[|ts| - 1] + StepMinutes > end
    decreases end - start
  {
    if start > end then [] else [start] + Frames(start + StepMinutes, end)
  }

  /** The number of frames is the number of whole steps that fit, plus one. */
  lemma FramesCount(start: int, end: int)
    requires start <= end
    ensures |Frames(start, end)| == (end - start) / StepMinutes + 1
  {
    var ts := Frames(start, end);
    var n := |ts|;
    assert ts[n - 1] == start + (n - 1) * StepMinutes;
    assert (n - 1) * StepMinutes <= end - start < n * StepMinutes;
    DivBetween(end - start, n - 1);
  }

  lemma DivBetween(d: int, q: nat)
    requires q * StepMinutes <= d < (q + 1) * StepMinutes
    ensures d / StepMinutes == q
  {
  }

  /** A start equal to the end draws exactly one frame. */
  lemma FramesSingle(t: int)
    ensures Frames(t, t) == [t]
  {
  }
}
