/** The y-axis limits of the station time-series plots: `plot` in
    jma_ame_prev/map_jma.py and `draw` in jma_ame_nrt/map_tvar_station.py.

    A series is a sequence of measures, NaN being `Missing`. The scripts
    reduce a series in three ways that treat NaN differently: Python's
    built-in `max`, whose comparisons with NaN are all false; the pandas
    `Series` methods, which skip NaN; and the numpy `ndarray` methods, which
    propagate it. `math.floor` and `math.ceil` raise ValueError on NaN. */
module AxisLimits {
  import opened Base
  import opened Numeric
  import opened StationDecode

  // ---------------------------------------------------------------------------
  // Reductions

  /** Which end of a series a reduction picks. */
  datatype Extreme = Largest | Smallest

  /** `a` is at least as far towards the chosen end as `b`. */
  predicate Beats(e: Extreme, a: real, b: real) {
    if e == Largest then a >= b else a <= b
  }

  /** The extreme of two measures, a NaN giving way to a number. */
  function SkipPair(e: Extreme, a: Measure, b: Measure): Measure {
    if a.Missing? then b
    else if b.Missing? then a
    else if Beats(e, a.v, b.v) then a else b
  }

  /** pandas `Series.max()` and `Series.min()`, which skip NaN: the result is
      NaN only for a series without a number, an empty one included. */
  function SkipExtreme(e: Extreme, xs: seq<Measure>): (r: Measure)
    ensures r.Missing? <==> forall i :: 0 <= i < |xs| ==> xs[i].Missing?
    ensures r.Value? ==> r in xs
    ensures r.Value? ==> forall i :: 0 <= i < |xs| && xs[i].Value? ==> Beats(e, r.v, xs[i].v)
    decreases |xs|
  {
    if |xs| == 0 then Missing
    else SkipPair(e, xs[0], SkipExtreme(e, xs[1..]))
  }

  /** numpy `ndarray.max()` and `ndarray.min()`: an empty array raises
      ValueError, and a single NaN makes the result NaN. */
  function NumpyExtreme(e: Extreme, xs: seq<Measure>): (r: Result<Measure>)
    ensures r.Err? <==> |xs| == 0
    ensures r.Err? ==> r.fault == ValueError
    ensures r.Ok? ==> (r.value.Missing? <==> exists i :: 0 <= i < |xs| && xs[i].Missing?)
    ensures r.Ok? && r.value.Value? ==> r.value == SkipExtreme(e, xs)
    decreases |xs|
  {
    if |xs| == 0 then Err(ValueError)
    else if |xs| == 1 then Ok(xs[0])
    else
      var rest := NumpyExtreme(e, xs[1..]).value;
      Ok(if xs[0].Missing? || rest.Missing? then Missing else SkipPair(e, xs[0], rest))
  }

  /** `a > b` on floats: false whenever either side is NaN. */
  predicate Greater(a: Measure, b: Measure) {
    a.Value? && b.Value? && a.v > b.v
  }

  /** The loop of built-in `max` from the running maximum `m` over the rest. */
  function RunningMax(m: Measure, xs: seq<Measure>): (r: Measure)
    ensures m.Missing? ==> r == Missing
    ensures m.Value? ==> r == SkipPair(Largest, m, SkipExtreme(Largest, xs))
    decreases |xs|
  {
    if |xs| == 0 then m
    else RunningMax(if Greater(xs[0], m) then xs[0] else m, xs[1..])
  }

  /** Python's built-in `max`: the first item starts the running maximum and a
      later item replaces it only when it compares greater. A leading NaN is
      therefore never replaced, and a later NaN never replaces anything. */
  function BuiltinMax(xs: seq<Measure>): (r: Result<Measure>)
    ensures r.Err? <==> |xs| == 0
    ensures r.Err? ==> r.fault == ValueError
    ensures r.Ok? && xs[0].Missing? ==> r.value == Missing
    ensures r.Ok? && xs[0].Value? ==> r.value == SkipExtreme(Largest, xs)
  {
    if |xs| == 0 then Err(ValueError) else Ok(RunningMax(xs[0], xs[1..]))
  }

  /** Appending a NaN changes no NaN-skipping extreme. */
  lemma {:induction false} SkipAppendMissing(e: Extreme, xs: seq<Measure>)
    ensures SkipExtreme(e, xs + [Missing]) == SkipExtreme(e, xs)
    decreases |xs|
  {
    if |xs| > 0 {
      assert (xs + [Missing])[1..] == xs[1..] + [Missing];
      SkipAppendMissing(e, xs[1..]);
    }
  }

  /** Built-in `max` depends on where a NaN stands: in front it is the result
      whatever follows; at the end it is passed over. */
  lemma BuiltinMaxNaN(xs: seq<Measure>)
    requires |xs| > 0
    ensures BuiltinMax([Missing] + xs) == Ok(Missing)
    ensures BuiltinMax(xs + [Missing]) == BuiltinMax(xs)
  {
    assert ([Missing] + xs)[0] == Missing;
    assert (xs + [Missing])[0] == xs[0];
    SkipAppendMissing(Largest, xs);
  }

  // ---------------------------------------------------------------------------
  // Upper limits of precipitation and snow depth (map_jma.py)

  /** `math.ceil(m - math.fmod(m, 10) + 50)`: fifty above the largest
      multiple of ten not beyond `m`, for large maxima. */
  function RoundedUpper(m: real): int
  {
    Ceil(m - Fmod(m, 10.0) + 50.0)
  }

  /** For a non-negative maximum the rounded limit is a multiple of ten
      between 40 and 50 above it. */
  lemma RoundedUpperBounds(m: real)
    requires m >= 0.0
    ensures RoundedUpper(m) % 10 == 0
    ensures m + 40.0 < RoundedUpper(m) as real <= m + 50.0
  {
    var t := Trunc(m / 10.0);
    FmodBounds(m, 10.0);
    assert m - Fmod(m, 10.0) + 50.0 == (10 * t + 50) as real;
    CeilOfInt(10 * t + 50);
  }

  lemma CeilOfInt(k: int)
    ensures Ceil(k as real) == k
  {
  }

  /** The precipitation limit for a maximum that is a number: the fmod rule
      from 40 mm up, then the fixed limits 50, 30 and 10. */
  function PrecipUpper(m: real): (r: int)
    ensures 20.0 <= m < 40.0 ==> r == 50
    ensures 10.0 <= m < 20.0 ==> r == 30
    ensures m < 10.0 ==> r == 10
  {
    if m >= 40.0 then RoundedUpper(m)
    else if m >= 20.0 then 50
    else if m >= 10.0 then 30
    else 10
  }

  /** The snow-depth limit for a maximum that is a number: the fmod rule
      from 140 cm up, then 150, 50 and 20. */
  function SnowUpper(m: real): (r: int)
    ensures 40.0 <= m < 140.0 ==> r == 150
    ensures 15.0 <= m < 40.0 ==> r == 50
    ensures m < 15.0 ==> r == 20
  {
    if m >= 140.0 then RoundedUpper(m)
    else if m >= 40.0 then 150
    else if m >= 15.0 then 50
    else 20
  }

  /** Neither limit cuts off a non-negative maximum, and both are multiples
      of ten. */
  lemma UpperLimitsCover(m: real)
    requires m >= 0.0
    ensures m < PrecipUpper(m) as real && PrecipUpper(m) % 10 == 0
    ensures m < SnowUpper(m) as real && SnowUpper(m) % 10 == 0
  {
    RoundedUpperBounds(m);
  }

  /** A larger maximum never gives a smaller precipitation limit. */
  lemma PrecipUpperMonotone(m1: real, m2: real)
    requires 0.0 <= m1 <= m2
    ensures PrecipUpper(m1) <= PrecipUpper(m2)
  {
    RoundedUpperBounds(m1);
    RoundedUpperBounds(m2);
    if m1 >= 40.0 {
      Trunc10Monotone(m1, m2);
    }
  }

  lemma Trunc10Monotone(m1: real, m2: real)
    requires 0.0 <= m1 <= m2
    ensures RoundedUpper(m1) <= RoundedUpper(m2)
  {
    FmodBounds(m1, 10.0);
    FmodBounds(m2, 10.0);
    var t1 := Trunc(m1 / 10.0);
    var t2 := Trunc(m2 / 10.0);
    assert m1 - Fmod(m1, 10.0) + 50.0 == (10 * t1 + 50) as real;
    assert m2 - Fmod(m2, 10.0) + 50.0 == (10 * t2 + 50) as real;
    CeilOfInt(10 * t1 + 50);
    CeilOfInt(10 * t2 + 50);
    assert t1 <= t2;
  }

  /** The precipitation axis `[0, upper]` of map_jma.py. The thresholds test
      the built-in `max(prep)`; the fmod rule reads pandas' `prep.max()`. */
  function PrecipAxis(prep: seq<Measure>): (r: Result<int>)
    ensures r.Err? <==> |prep| == 0
    ensures r.Ok? && prep[0].Missing? ==> r.value == 10
    ensures r.Ok? && prep[0].Value? ==> r.value == PrecipUpper(SkipExtreme(Largest, prep).v)
  {
    var m :- BuiltinMax(prep);
    if m.Missing? then Ok(10)
    else if m.v >= 40.0 then Ok(RoundedUpper(SkipExtreme(Largest, prep).v))
    else if m.v >= 20.0 then Ok(50)
    else if m.v >= 10.0 then Ok(30)
    else Ok(10)
  }

  /** The snow-depth axis `[0, upper]`, built the same way. */
  function SnowAxis(snowd: seq<Measure>): (r: Result<int>)
    ensures r.Err? <==> |snowd| == 0
    ensures r.Ok? && snowd[0].Missing? ==> r.value == 20
    ensures r.Ok? && snowd[0].Value? ==> r.value == SnowUpper(SkipExtreme(Largest, snowd).v)
  {
    var m :- BuiltinMax(snowd);
    if m.Missing? then Ok(20)
    else if m.v >= 140.0 then Ok(RoundedUpper(SkipExtreme(Largest, snowd).v))
    else if m.v >= 40.0 then Ok(150)
    else if m.v >= 15.0 then Ok(50)
    else Ok(20)
  }

  /** When the first hour is a number, every non-negative observation is
      inside its axis. */
  lemma AxesHoldData(xs: seq<Measure>)
    requires |xs| > 0 && xs[0].Value?
    requires forall i :: 0 <= i < |xs| && xs[i].Value? ==> xs[i].v >= 0.0
    ensures forall i :: 0 <= i < |xs| && xs[i].Value? ==> xs[i].v < PrecipAxis(xs).value as real
    ensures forall i :: 0 <= i < |xs| && xs[i].Value? ==> xs[i].v < SnowAxis(xs).value as real
  {
    var m := SkipExtreme(Largest, xs);
    assert xs[0].v >= 0.0;
    UpperLimitsCover(m.v);
  }

  /** When the first hour is NaN, the fixed limits clip any larger
      observation that follows. */
  lemma LeadingNaNClips(xs: seq<Measure>)
    requires |xs| > 0 && xs[0].Missing?
    ensures forall i :: 0 <= i < |xs| && xs[i].Value? && xs[i].v > 10.0
              ==> PrecipAxis(xs).value as real < xs[i].v
    ensures forall i :: 0 <= i < |xs| && xs[i].Value? && xs[i].v > 20.0
              ==> SnowAxis(xs).value as real < xs[i].v
  {
  }

  // ---------------------------------------------------------------------------
  // Temperature and pressure

  /** `[math.floor(lo - 1), math.ceil(hi) + 2]` from a reduced minimum and
      maximum; NaN in either raises ValueError. */
  function TempLimits(lo: Measure, hi: Measure): (r: Result<(int, int)>)
    ensures r.Err? <==> lo.Missing? || hi.Missing?
    ensures r.Err? ==> r.fault == ValueError
    ensures r.Ok? ==> r.value.0 as real + 1.0 <= lo.v && hi.v + 2.0 <= r.value.1 as real
  {
    if lo.Missing? || hi.Missing? then Err(ValueError)
    else Ok((Floor(lo.v - 1.0), Ceil(hi.v) + 2))
  }

  /** The temperature axis of map_jma.py, from pandas' NaN-skipping
      `temp.min()` and `temp.max()`. */
  function TempAxis(temp: seq<Measure>): (r: Result<(int, int)>)
    ensures r.Err? <==> forall i :: 0 <= i < |temp| ==> temp[i].Missing?
    ensures r.Err? ==> r.fault == ValueError
  {
    TempLimits(SkipExtreme(Smallest, temp), SkipExtreme(Largest, temp))
  }

  /** The temperature axis of map_tvar_station.py, from numpy's `temp.min()`
      and `temp.max()`. */
  function StationTempAxis(temp: seq<Measure>): (r: Result<(int, int)>)
    ensures r.Err? <==> |temp| == 0 || exists i :: 0 <= i < |temp| && temp[i].Missing?
    ensures r.Err? ==> r.fault == ValueError
  {
    var lo :- NumpyExtreme(Smallest, temp);
    TempLimits(lo, NumpyExtreme(Largest, temp).value)
  }

  /** Wherever map_tvar_station.py draws its temperature axis, map_jma.py
      draws the same one; a NaN makes only the former fail. */
  lemma TempAxesAgree(temp: seq<Measure>)
    ensures StationTempAxis(temp).Ok? ==> StationTempAxis(temp) == TempAxis(temp)
  {
  }

  /** The drawn temperature axis is never empty and holds every observation
      with at least one degree to spare below and two above. */
  lemma TempAxisHoldsData(temp: seq<Measure>)
    requires TempAxis(temp).Ok?
    ensures var (lo, hi) := TempAxis(temp).value;
      lo < hi && forall i :: 0 <= i < |temp| && temp[i].Value? ==>
        lo as real + 1.0 <= temp[i].v && temp[i].v + 2.0 <= hi as real
  {
    var top := SkipExtreme(Largest, temp);
    var j :| 0 <= j < |temp| && temp[j] == top;
  }

  /** The pressure axis of map_jma.py: both ends shifted by `fmod(min, 5)` and
      widened by five, from pandas' NaN-skipping `min` and `max`. */
  function PressureAxis(ps: seq<Measure>): (r: Result<(int, int)>)
    ensures r.Err? <==> forall i :: 0 <= i < |ps| ==> ps[i].Missing?
    ensures r.Err? ==> r.fault == ValueError
  {
    var lo := SkipExtreme(Smallest, ps);
    var hi := SkipExtreme(Largest, ps);
    if lo.Missing? || hi.Missing? then Err(ValueError)
    else
      var f := Fmod(lo.v, 5.0);
      Ok((Floor(lo.v - f - 5.0), Ceil(hi.v - f) + 5))
  }

  /** Whatever the sign of the data, the drawn pressure axis strictly
      contains every observation. */
  lemma PressureAxisHoldsData(ps: seq<Measure>)
    requires PressureAxis(ps).Ok?
    ensures var (lo, hi) := PressureAxis(ps).value;
      forall i :: 0 <= i < |ps| && ps[i].Value? ==> lo as real < ps[i].v < hi as real
  {
    var lo := SkipExtreme(Smallest, ps);
    FmodBounds(lo.v, 5.0);
  }

  // ---------------------------------------------------------------------------
  // Precipitation of map_tvar_station.py

  /** The precipitation limit of map_tvar_station.py for a maximum that is a
      number: `ceil(m + fmod(m, 10)) + 1`. */
  function StationPrecipUpper(m: real): int
  {
    Ceil(m + Fmod(m, 10.0)) + 1
  }

  /** For a non-negative maximum the limit lies between one and twelve above it. */
  lemma StationPrecipUpperBounds(m: real)
    requires m >= 0.0
    ensures m + 1.0 <= StationPrecipUpper(m) as real < m + 12.0
  {
    FmodBounds(m, 10.0);
  }

  /** The precipitation axis of map_tvar_station.py, from numpy's `prep.max()`:
      an empty series raises in numpy, a NaN raises in `math.ceil`. */
  function StationPrecipAxis(prep: seq<Measure>): (r: Result<int>)
    ensures r.Err? <==> |prep| == 0 || exists i :: 0 <= i < |prep| && prep[i].Missing?
    ensures r.Err? ==> r.fault == ValueError
    ensures r.Ok? ==> r.value == StationPrecipUpper(SkipExtreme(Largest, prep).v)
  {
    var m :- NumpyExtreme(Largest, prep);
    if m.Missing? then Err(ValueError) else Ok(StationPrecipUpper(m.v))
  }

  /** A drawn axis of non-negative precipitation holds every observation with
      at least one millimetre to spare. */
  lemma StationPrecipAxisHoldsData(prep: seq<Measure>)
    requires StationPrecipAxis(prep).Ok?
    requires forall i :: 0 <= i < |prep| && prep[i].Value? ==> prep[i].v >= 0.0
    ensures forall i :: 0 <= i < |prep| ==>
      prep[i].Value? && prep[i].v + 1.0 <= StationPrecipAxis(prep).value as real
  {
    var m := SkipExtreme(Largest, prep);
    assert prep[0].Value?;
    StationPrecipUpperBounds(m.v);
  }

  // ---------------------------------------------------------------------------
  // Hour positions

  /** The x positions of map_jma.py: `np.arange(n) + 1`. */
  function HourIndex(n: nat): (r: seq<int>)
    ensures |r| == n
    ensures forall i :: 0 <= i < n ==> r[i] == i + 1
  {
    seq(n, i => i + 1)
  }

  /** The positions are 1..n in order without gaps. */
  lemma HourIndexRange(n: nat)
    ensures forall i :: 0 <= i < n ==> 1 <= HourIndex(n)[i] <= n
    ensures forall i :: 0 < i < n ==> HourIndex(n)[i] == HourIndex(n)[i - 1] + 1
  {
  }
}
