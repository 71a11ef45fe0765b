/** Colour selection for station markers.

    `val2col.conv` (jma_ame_nrt/utils/cbar.py) and its copies `temp2col.conv`
    map a value to an index into a colour map of N entries, clamped into
    [0, N]. `collevs` maps a value to the colour of the band of levels it
    falls in. The colour map itself is a library object; only its size N
    enters the model. */
module ColourScale {
  import opened Base
  import opened Numeric

  // ---------------------------------------------------------------------------
  // Continuous scale: `val2col.conv` and `temp2col.conv`

  function MinR(a: real, b: real): real { if b < a then b else a }
  function MaxR(a: real, b: real): real { if b > a then b else a }

  /** The colour-map index of `val` for range [tmin, tmax] and N colours:
      `int(max(min((val - tmin) / (tmax - tmin) * N, N), 0))`.

      Every caller passes an element of a numpy float64 array that is not
      NaN, so an empty range does not raise ZeroDivisionError: float64
      division gives +inf or -inf, which the clamp turns into N or 0, and
      0/0 gives NaN. An infinity times N = 0 is NaN as well. The built-in
      `min` and `max` keep NaN, and `int(nan)` raises ValueError. */
  function ColourIndex(val: real, tmin: real, tmax: real, n: nat): (r: Result<nat>)
    ensures r.Err? <==> tmin == tmax && (val == tmin || n == 0)
    ensures r.Err? ==> r.fault == ValueError
    ensures r.Ok? ==> r.value <= n
  {
    if tmax == tmin then
      if val == tmin || n == 0 then Err(ValueError)
      else if val > tmin then Ok(n)
      else Ok(0)
    else
      var x := (val - tmin) / (tmax - tmin) * n as real;
      var c := MaxR(MinR(x, n as real), 0.0);
      Ok(Floor(c))
  }

  /** The position of `val` within the range, scaled to N. */
  function Scaled(val: real, tmin: real, tmax: real, n: nat): real
    requires tmin < tmax
  {
    (val - tmin) / (tmax - tmin) * n as real
  }

  /** At or below the bottom of the range the first colour, at or above the
      top the index N. */
  lemma ColourIndexEnds(val: real, tmin: real, tmax: real, n: nat)
    requires tmin < tmax
    ensures val <= tmin ==> ColourIndex(val, tmin, tmax, n) == Ok(0)
    ensures val >= tmax ==> ColourIndex(val, tmin, tmax, n) == Ok(n)
  {
    var d := tmax - tmin;
    var q := (val - tmin) / d;
    if val <= tmin {
      QuotientSign(val - tmin, d);
      MulNonPos(q, n as real);
    }
    if val >= tmax {
      QuotientAtLeastOne(val - tmin, d);
      MulAtLeast(q, n as real);
    }
  }

  /** An empty range [t, t] classifies a value as any proper range that ends
      at t (for a value above it) or starts at t (for a value below it) does;
      only the value t itself fails. */
  lemma EmptyRangeIndex(val: real, t: real, n: nat)
    requires n > 0
    ensures val > t ==> ColourIndex(val, t, t, n) == ColourIndex(val, t - 1.0, t, n) == Ok(n)
    ensures val < t ==> ColourIndex(val, t, t, n) == ColourIndex(val, t, t + 1.0, n) == Ok(0)
    ensures ColourIndex(t, t, t, n) == Err(ValueError)
  {
    ColourIndexEnds(val, t - 1.0, t, n);
    ColourIndexEnds(val, t, t + 1.0, n);
  }

  /** Inside the range the index is the band of width (tmax - tmin) / N that
      holds the value. */
  lemma ColourIndexBand(val: real, tmin: real, tmax: real, n: nat)
    requires tmin < tmax && tmin <= val < tmax
    ensures var i := ColourIndex(val, tmin, tmax, n).value;
      i as real <= Scaled(val, tmin, tmax, n) < i as real + 1.0
  {
    var d := tmax - tmin;
    var q := (val - tmin) / d;
    QuotientSign(val - tmin, d);
    QuotientBelowOne(val - tmin, d);
    MulBelow(q, n as real);
  }

  /** A larger value never gets a smaller index (for an increasing range). */
  lemma ColourIndexMonotone(v1: real, v2: real, tmin: real, tmax: real, n: nat)
    requires tmin < tmax && v1 <= v2
    ensures ColourIndex(v1, tmin, tmax, n).value <= ColourIndex(v2, tmin, tmax, n).value
  {
    var d := tmax - tmin;
    DivMono(v1 - tmin, v2 - tmin, d);
    MulMono((v1 - tmin) / d, (v2 - tmin) / d, n as real);
  }

  lemma QuotientSign(a: real, d: real)
    requires d > 0.0
    ensures a <= 0.0 ==> a / d <= 0.0
    ensures a >= 0.0 ==> a / d >= 0.0
  {
  }

  lemma QuotientAtLeastOne(a: real, d: real)
    requires d > 0.0 && a >= d
    ensures a / d >= 1.0
  {
  }

  lemma QuotientBelowOne(a: real, d: real)
    requires d > 0.0 && a < d
    ensures a / d < 1.0
  {
  }

  lemma MulNonPos(q: real, m: real)
    requires q <= 0.0 && m >= 0.0
    ensures q * m <= 0.0
  {
  }

  lemma MulAtLeast(q: real, m: real)
    requires q >= 1.0 && m >= 0.0
    ensures q * m >= m
  {
    assert q * m == m + (q - 1.0) * m;
  }

  lemma MulBelow(q: real, m: real)
    requires 0.0 <= q < 1.0 && m >= 0.0
    ensures 0.0 <= q * m <= m
  {
    assert m - q * m == (1.0 - q) * m;
  }

  lemma DivMono(a: real, b: real, d: real)
    requires d > 0.0 && a <= b
    ensures a / d <= b / d
  {
    assert b / d - a / d == (b - a) / d;
  }

  lemma MulMono(a: real, b: real, m: real)
    requires a <= b && m >= 0.0
    ensures a * m <= b * m
  {
    assert b * m - a * m == (b - a) * m;
  }

  // ---------------------------------------------------------------------------
  // The basemap copy: the colour map is created only by `conv`

  /** A `temp2col` object of basemap_jma_temp+wind.py: `cm` is absent until
      the first `conv`. */
  datatype LazyScale = LazyScale(tmin: real, tmax: real, cmapSize: nat, cm: Option<nat>)

  /** `temp2col(tmin, tmax, tstep, cmap)` for a colour map of `cmapSize` entries. */
  function NewLazyScale(tmin: real, tmax: real, cmapSize: nat): (s: LazyScale)
    ensures s.cm.None?
  {
    LazyScale(tmin, tmax, cmapSize, None)
  }

  /** `conv` stores the colour map, then computes the index as every copy does. */
  function LazyConv(s: LazyScale, val: real): (out: (LazyScale, Result<nat>))
    ensures out.0.cm == Some(s.cmapSize)
    ensures out.1 == ColourIndex(val, s.tmin, s.tmax, s.cmapSize)
  {
    var s' := s.(cm := Some(s.cmapSize));
    (s', ColourIndex(val, s.tmin, s.tmax, s.cmapSize))
  }

  /** The message `colorbar` raises when called without a figure. */
  const FigNeeded: string := "fig is needed"

  /** The size of colour map `colorbar` draws. Called without a figure it
      raises before anything else; with one, reading `self.cm` before any
      `conv` is an AttributeError. */
  function LazyColorbar(s: LazyScale, figGiven: bool): (r: Result<nat>)
    ensures r.Err? <==> !figGiven || s.cm.None?
    ensures !figGiven ==> r == Err(Raised(FigNeeded))
    ensures figGiven && r.Err? ==> r.fault == AttributeError
  {
    if !figGiven then Err(Raised(FigNeeded))
    else if s.cm.None? then Err(AttributeError)
    else Ok(s.cm.value)
  }

  /** `colorbar(fig)` straight after construction fails; after a `conv` it
      works. Without a figure it fails even then. */
  lemma ColorbarNeedsConv(tmin: real, tmax: real, cmapSize: nat, val: real)
    ensures LazyColorbar(NewLazyScale(tmin, tmax, cmapSize), true) == Err(AttributeError)
    ensures LazyColorbar(LazyConv(NewLazyScale(tmin, tmax, cmapSize), val).0, true) == Ok(cmapSize)
    ensures LazyColorbar(LazyConv(NewLazyScale(tmin, tmax, cmapSize), val).0, false) == Err(Raised(FigNeeded))
  {
  }

  // ---------------------------------------------------------------------------
  // Discrete levels: `collevs`

  /** A `collevs` object: boundaries and the colours between them. */
  datatype Levels = Levels(clevs: seq<real>, ccols: seq<string>)

  predicate Consistent(l: Levels) {
    |l.clevs| == |l.ccols| + 1
  }

  /** The constructor: `clevs[0]` is read first, so an empty list fails with
      IndexError before the length check raises `mismatch`. */
  function NewLevels(clevs: seq<real>, ccols: seq<string>, mismatch: Fault): (r: Result<Levels>)
    ensures |clevs| == 0 ==> r == Err(IndexError)
    ensures |clevs| > 0 && |clevs| != |ccols| + 1 ==> r == Err(mismatch)
    ensures r.Ok? <==> |clevs| == |ccols| + 1
    ensures r.Ok? ==> Consistent(r.value) && r.value.clevs == clevs && r.value.ccols == ccols
  {
    if |clevs| == 0 then Err(IndexError)
    else if |clevs| != |ccols| + 1 then Err(mismatch)
    else Ok(Levels(clevs, ccols))
  }

  /** jma_ame_nrt/utils/cbar.py raises ValueError on a length mismatch. */
  function NewLevelsCbar(clevs: seq<real>, ccols: seq<string>): (r: Result<Levels>)
    ensures r.Ok? <==> |clevs| == |ccols| + 1
    ensures |clevs| > 0 && r.Err? ==> r.fault == ValueError
  {
    NewLevels(clevs, ccols, ValueError)
  }

  /** The copy in cartopy_jma_rain3h.py raises a plain Exception. */
  const MismatchMessage: string := "len(clevs) must be len(ccols)+1"

  function NewLevelsRain3h(clevs: seq<real>, ccols: seq<string>): (r: Result<Levels>)
    ensures r.Ok? <==> |clevs| == |ccols| + 1
    ensures |clevs| > 0 && r.Err? ==> r.fault == Raised(MismatchMessage)
  {
    NewLevels(clevs, ccols, Raised(MismatchMessage))
  }

  /** Value `val` lies in band n: clevs[n] <= val < clevs[n + 1]. */
  predicate InBand(l: Levels, val: real, n: nat)
    requires Consistent(l) && n < |l.ccols|
  {
    l.clevs[n] <= val < l.clevs[n + 1]
  }

  /** The `for n in np.arange(len(ccols))` loop from band `n` on, with `col`
      the colour assigned so far. */
  function ScanBands(l: Levels, val: real, n: nat, col: Option<string>): (r: Option<string>)
    requires Consistent(l) && n <= |l.ccols|
    ensures r == col || (r.Some? && r.value in l.ccols[n..])
    decreases |l.ccols| - n
  {
    if n == |l.ccols| then col
    else ScanBands(l, val, n + 1, if InBand(l, val, n) then Some(l.ccols[n]) else col)
  }

  /** `conv`: `'gray'` is assigned below the lowest level, every matching
      band overwrites it, and a never-assigned `col` raises UnboundLocalError. */
  function LevelColour(l: Levels, val: real): (r: Result<string>)
    requires Consistent(l)
    ensures r.Err? ==> r.fault == UnboundLocalError
    ensures r.Ok? ==> r.value == "gray" || r.value in l.ccols
  {
    var start := if val < l.clevs[0] then Some("gray") else None;
    match ScanBands(l, val, 0, start)
    case None => Err(UnboundLocalError)
    case Some(c) => Ok(c)
  }

  /** Reference definition: the highest band below `k` that holds `val`. */
  function LastBandBelow(l: Levels, val: real, k: nat): (r: Option<nat>)
    requires Consistent(l) && k <= |l.ccols|
    ensures r.Some? ==> (r.value < k && InBand(l, val, r.value)
                         && forall m :: r.value < m < k ==> !InBand(l, val, m))
    ensures r.None? ==> forall m :: 0 <= m < k ==> !InBand(l, val, m)
  {
    if k == 0 then None
    else if InBand(l, val, k - 1) then Some(k - 1)
    else LastBandBelow(l, val, k - 1)
  }

  /** The loop keeps the colour of the last matching band. */
  lemma {:induction false} ScanBandsLast(l: Levels, val: real, n: nat, col: Option<string>)
    requires Consistent(l) && n <= |l.ccols|
    requires col == (match LastBandBelow(l, val, n) case Some(b) => Some(l.ccols[b]) case None => col)
    ensures ScanBands(l, val, n, col)
         == (match LastBandBelow(l, val, |l.ccols|) case Some(b) => Some(l.ccols[b]) case None => col)
    decreases |l.ccols| - n
  {
    if n < |l.ccols| {
      var col' := if InBand(l, val, n) then Some(l.ccols[n]) else col;
      ScanBandsLast(l, val, n + 1, col');
    }
  }

  /** `conv` against the reference: the last matching band's colour; without
      a match, `'gray'` below the lowest level and UnboundLocalError otherwise. */
  lemma LevelColourSpec(l: Levels, val: real)
    requires Consistent(l)
    ensures var b := LastBandBelow(l, val, |l.ccols|);
      LevelColour(l, val) == (if b.Some? then Ok(l.ccols[b.value])
                              else if val < l.clevs[0] then Ok("gray")
                              else Err(UnboundLocalError))
  {
    var start := if val < l.clevs[0] then Some("gray") else None;
    ScanBandsLast(l, val, 0, start);
  }

  predicate StrictlyIncreasing(xs: seq<real>) {
    forall i, j :: 0 <= i < j < |xs| ==> xs[i] < xs[j]
  }

  /** With strictly increasing levels: below the lowest level `'gray'`, in band
      n exactly the colour n, at or above the highest level UnboundLocalError. */
  lemma IncreasingLevels(l: Levels, val: real)
    requires Consistent(l) && StrictlyIncreasing(l.clevs)
    ensures val < l.clevs[0] ==> LevelColour(l, val) == Ok("gray")
    ensures forall n :: 0 <= n < |l.ccols| && InBand(l, val, n) ==> LevelColour(l, val) == Ok(l.ccols[n])
    ensures val >= l.clevs[|l.clevs| - 1] ==> LevelColour(l, val) == Err(UnboundLocalError)
  {
    LevelColourSpec(l, val);
    var b := LastBandBelow(l, val, |l.ccols|);
    if val < l.clevs[0] || val >= l.clevs[|l.clevs| - 1] {
      assert b.None?;
    }
    forall n | 0 <= n < |l.ccols| && InBand(l, val, n) ensures LevelColour(l, val) == Ok(l.ccols[n]) {
      BandUnique(l, val, n, b.value);
    }
  }

  /** Increasing levels leave at most one matching band. */
  lemma BandUnique(l: Levels, val: real, n: nat, m: nat)
    requires Consistent(l) && StrictlyIncreasing(l.clevs)
    requires n < |l.ccols| && m < |l.ccols| && InBand(l, val, n) && InBand(l, val, m)
    ensures n == m
  {
  }

  /** Overlapping levels show the last-match-wins order: the later band's
      colour is returned even though the earlier band also holds the value. */
  lemma OverlapLastWins()
    ensures LevelColour(Levels([0.0, 10.0, 5.0, 20.0], ["a", "b", "c"]), 7.0) == Ok("c")
  {
    var l := Levels([0.0, 10.0, 5.0, 20.0], ["a", "b", "c"]);
    LevelColourSpec(l, 7.0);
    assert InBand(l, 7.0, 2);
  }

  /** The eight marker colours of the precipitation maps. */
  const RainColours: seq<string> :=
    ["lavender", "paleturquoise", "dodgerblue", "b", "gold", "darkorange", "r", "firebrick"]

  /** Levels of cartopy_jma_rain3h.py (mm per 3 hours). */
  const Rain3hLevels: seq<real> := [0.5, 10.0, 20.0, 50.0, 80.0, 100.0, 120.0, 150.0, 2000.0]

  /** Levels of cartopy_jma_cumrain.py (accumulated mm). */
  const CumRainLevels: seq<real> := [20.0, 50.0, 100.0, 200.0, 300.0, 400.0, 600.0, 800.0, 2000.0]

  /** Both level tables construct, are strictly increasing, and classify:
      no rain is gray, 15 mm in 3 hours is the second colour, and 2000 mm
      or more raises. */
  lemma RainTables()
    ensures NewLevelsRain3h(Rain3hLevels, RainColours).Ok?
    ensures NewLevelsCbar(CumRainLevels, RainColours).Ok?
    ensures StrictlyIncreasing(Rain3hLevels) && StrictlyIncreasing(CumRainLevels)
    ensures LevelColour(Levels(Rain3hLevels, RainColours), 0.0) == Ok("gray")
    ensures LevelColour(Levels(Rain3hLevels, RainColours), 15.0) == Ok("paleturquoise")
    ensures LevelColour(Levels(Rain3hLevels, RainColours), 2000.0) == Err(UnboundLocalError)
  {
    RainTablesIncrease();
    Rain3hEnds();
    Rain3hSecondBand();
  }

  lemma RainTablesIncrease()
    ensures |Rain3hLevels| == |RainColours| + 1 && |CumRainLevels| == |RainColours| + 1
    ensures StrictlyIncreasing(Rain3hLevels) && StrictlyIncreasing(CumRainLevels)
  {
  }

  lemma Rain3hEnds()
    ensures LevelColour(Levels(Rain3hLevels, RainColours), 0.0) == Ok("gray")
    ensures LevelColour(Levels(Rain3hLevels, RainColours), 2000.0) == Err(UnboundLocalError)
  {
    RainTablesIncrease();
    var l := Levels(Rain3hLevels, RainColours);
    IncreasingLevels(l, 0.0);
    IncreasingLevels(l, 2000.0);
  }

  lemma Rain3hSecondBand()
    ensures LevelColour(Levels(Rain3hLevels, RainColours), 15.0) == Ok("paleturquoise")
  {
    RainTablesIncrease();
    var l := Levels(Rain3hLevels, RainColours);
    assert InBand(l, 15.0, 1);
    IncreasingLevels(l, 15.0);
  }
}
