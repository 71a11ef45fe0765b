/** The wind-profiler reader of jma_wpr/get_wpr_json.py (`WprStation.retrieve`
    and `_divide`): the observations of one station at the requested times
    become fixed-width rows of east-west, north-south and vertical wind, padded
    with NaN above the highest level, together with the heights of the tallest
    profile and its number of levels.

    The downloaded file is a JSON object from observation time to the list of
    level records; a record maps a key such as "u" or "height" to a number or
    to null (NaN). */
module WindProfiler {
  import opened Base
  import opened StationDecode

  /** Height slots in every output row (`size = (50, )`). */
  const Size: nat := 50

  /** One JSON object of a profile. */
  type Record = map<string, Measure>

  /** The decoded file: observation time to its list of level records. */
  type Document = map<string, seq<Record>>

  /** `np.ones(size) * np.nan`. */
  function Nans(n: nat): (r: seq<Measure>)
    ensures |r| == n
    ensures forall i :: 0 <= i < n ==> r[i] == Missing
  {
    seq(n, _ => Missing)
  }

  // ---------------------------------------------------------------------------
  // `DataFrame(d[tinfo])` and `_divide`

  /** pandas makes a column of every key that some record has. */
  predicate HasKey(records: seq<Record>, key: string) {
    exists i :: 0 <= i < |records| && key in records[i]
  }

  /** The entry a record gives a column: NaN where the record lacks the key. */
  function Entry(rec: Record, key: string): Measure {
    if key in rec then rec[key] else Missing
  }

  /** `df.loc[:, key]`: one entry per record, or KeyError when no record has
      the key (an empty list gives a frame without columns). */
  function Column(records: seq<Record>, key: string): (r: Result<seq<Measure>>)
    ensures r.Err? <==> !HasKey(records, key)
    ensures r.Err? ==> r.fault == KeyError(key)
    ensures r.Ok? ==> |r.value| == |records|
    ensures r.Ok? ==> forall i :: 0 <= i < |records| ==> r.value[i] == Entry(records[i], key)
  {
    if HasKey(records, key) then Ok(Entries(records, key)) else Err(KeyError(key))
  }

  function Entries(records: seq<Record>, key: string): (r: seq<Measure>)
    ensures |r| == |records|
    ensures forall i :: 0 <= i < |records| ==> r[i] == Entry(records[i], key)
  {
    if records == [] then [] else [Entry(records[0], key)] + Entries(records[1..], key)
  }

  /** The four columns `_divide` returns. */
  datatype Profile = Profile(u: seq<Measure>, v: seq<Measure>, w: seq<Measure>, height: seq<Measure>)

  /** `_divide(df)`: the columns u, v, w and height, looked up in that order,
      so the first one missing is the key of the error. */
  function Divide(records: seq<Record>): (r: Result<Profile>)
    ensures r.Ok? <==> HasKey(records, "u") && HasKey(records, "v") && HasKey(records, "w") && HasKey(records, "height")
    ensures !HasKey(records, "u") ==> r == Err(KeyError("u"))
    ensures HasKey(records, "u") && !HasKey(records, "v") ==> r == Err(KeyError("v"))
    ensures HasKey(records, "u") && HasKey(records, "v") && !HasKey(records, "w") ==> r == Err(KeyError("w"))
    ensures HasKey(records, "u") && HasKey(records, "v") && HasKey(records, "w") && !HasKey(records, "height")
      ==> r == Err(KeyError("height"))
    ensures r.Ok? ==> 0 < |records| && |r.value.u| == |r.value.v| == |r.value.w| == |r.value.height| == |records|
  {
    var u :- Column(records, "u");
    var v :- Column(records, "v");
    var w :- Column(records, "w");
    var z :- Column(records, "height");
    Ok(Profile(u, v, w, z))
  }

  // ---------------------------------------------------------------------------
  // One time of the loop

  /** `row[0:len(xs)] = xs` on a fresh all-NaN row. Past `Size` numpy cannot
      broadcast the longer value into the clipped slice and raises. */
  function Fill(xs: seq<Measure>): (r: Result<seq<Measure>>)
    ensures r.Ok? <==> |xs| <= Size
    ensures r.Err? ==> r.fault == ValueError
    ensures r.Ok? ==> |r.value| == Size && r.value[..|xs|] == xs
    ensures r.Ok? ==> forall i :: |xs| <= i < Size ==> r.value[i] == Missing
  {
    if |xs| <= Size then Ok(xs + Nans(Size - |xs|)) else Err(ValueError)
  }

  /** The three rows of one time and `z_i`, the heights it contributes. */
  datatype Slot = Slot(u: seq<Measure>, v: seq<Measure>, w: seq<Measure>, heights: seq<Measure>)

  /** The time is in the file, `_divide` finds its columns and it has no
      more levels than a row holds. */
  predicate Fits(d: Document, t: string) {
    t in d && Divide(d[t]).Ok? && |d[t]| <= Size
  }

  /** The body of the `try` for one time. Any exception keeps whatever rows
      were already filled and sets `z_i = []`. */
  function ReadTime(d: Document, t: string): (r: Slot)
    ensures |r.u| == Size && |r.v| == Size && |r.w| == Size && |r.heights| <= Size
    ensures !Fits(d, t) ==> r == Slot(Nans(Size), Nans(Size), Nans(Size), [])
    ensures Fits(d, t) ==>
              && |r.heights| == |d[t]|
              && r.u == Divide(d[t]).value.u + Nans(Size - |d[t]|)
              && r.v == Divide(d[t]).value.v + Nans(Size - |d[t]|)
              && r.w == Divide(d[t]).value.w + Nans(Size - |d[t]|)
              && r.heights == Divide(d[t]).value.height
  {
    var blank := Nans(Size);
    if t !in d then Slot(blank, blank, blank, [])
    else
      match Divide(d[t])
      case Err(_) => Slot(blank, blank, blank, [])
      case Ok(p) =>
        match Fill(p.u)
        case Err(_) => Slot(blank, blank, blank, [])
        case Ok(uo) =>
          match Fill(p.v)
          case Err(_) => Slot(uo, blank, blank, [])
          case Ok(vo) =>
            match Fill(p.w)
            case Err(_) => Slot(uo, vo, blank, [])
            case Ok(wo) => Slot(uo, vo, wo, p.height)
  }

  /** `len(z_i)`, the level count printed as "zlevs". */
  function Levels(d: Document, t: string): nat {
    |ReadTime(d, t).heights|
  }

  /** A time counts levels exactly when it fits; it then counts its records. */
  lemma LevelsSpec(d: Document, t: string)
    ensures Levels(d, t) > 0 <==> Fits(d, t)
    ensures Fits(d, t) ==> Levels(d, t) == |d[t]|
    ensures Levels(d, t) <= Size
  {
  }

  /** A profile that fits fills the first slots of each row from its records,
      level by level, and leaves the slots above it NaN. */
  lemma FilledFromRecords(d: Document, t: string, i: nat)
    requires Fits(d, t) && i < Size
    ensures i < |d[t]| ==>
              && ReadTime(d, t).u[i] == Entry(d[t][i], "u")
              && ReadTime(d, t).v[i] == Entry(d[t][i], "v")
              && ReadTime(d, t).w[i] == Entry(d[t][i], "w")
              && ReadTime(d, t).heights[i] == Entry(d[t][i], "height")
    ensures |d[t]| <= i ==>
              && ReadTime(d, t).u[i] == Missing
              && ReadTime(d, t).v[i] == Missing
              && ReadTime(d, t).w[i] == Missing
  {
    var p := Divide(d[t]).value;
    var k := |d[t]|;
    if i < k {
      assert ReadTime(d, t).u[i] == (p.u + Nans(Size - k))[i] == p.u[i];
      assert ReadTime(d, t).v[i] == (p.v + Nans(Size - k))[i] == p.v[i];
      assert ReadTime(d, t).w[i] == (p.w + Nans(Size - k))[i] == p.w[i];
    } else {
      assert ReadTime(d, t).u[i] == (p.u + Nans(Size - k))[i] == Nans(Size - k)[i - k];
      assert ReadTime(d, t).v[i] == (p.v + Nans(Size - k))[i] == Nans(Size - k)[i - k];
      assert ReadTime(d, t).w[i] == (p.w + Nans(Size - k))[i] == Nans(Size - k)[i - k];
    }
  }

  // ---------------------------------------------------------------------------
  // `WprStation.retrieve`

  /** `u, v, w, z, zmax` as returned: one row of each wind component per
      requested time, the heights row and the largest level count. */
  datatype Retrieval = Retrieval(u: seq<seq<Measure>>, v: seq<seq<Measure>>, w: seq<seq<Measure>>,
                                 z: seq<Measure>, zmax: nat)

  /** A heights row: `xs` in the lowest slots, NaN above. */
  function Pad(xs: seq<Measure>): (r: seq<Measure>)
    requires |xs| <= Size
    ensures |r| == Size && r[..|xs|] == xs
    ensures forall i :: |xs| <= i < Size ==> r[i] == Missing
  {
    xs + Nans(Size - |xs|)
  }

  /** The loop over `time_list`. Iterating the default `None` raises. The
      heights row is overwritten only by a profile strictly taller than every
      earlier one, so it holds the first tallest profile. */
  method Retrieve(d: Document, timeList: Option<seq<string>>) returns (r: Result<Retrieval>)
    ensures r.Err? <==> timeList.None?
    ensures r.Err? ==> r.fault == TypeError
    ensures r.Ok? ==> |r.value.u| == |r.value.v| == |r.value.w| == |timeList.value|
    ensures r.Ok? ==> forall i :: 0 <= i < |timeList.value| ==>
      var s := ReadTime(d, timeList.value[i]);
      r.value.u[i] == s.u && r.value.v[i] == s.v && r.value.w[i] == s.w
    ensures r.Ok? ==> forall i :: 0 <= i < |timeList.value| ==> Levels(d, timeList.value[i]) <= r.value.zmax
    ensures r.Ok? ==> |r.value.z| == Size && r.value.zmax <= Size
    ensures r.Ok? && r.value.zmax == 0 ==> r.value.z == Nans(Size)
    ensures r.Ok? && r.value.zmax > 0 ==>
              exists k :: 0 <= k < |timeList.value|
                && Levels(d, timeList.value[k]) == r.value.zmax
                && (forall j :: 0 <= j < k ==> Levels(d, timeList.value[j]) < r.value.zmax)
                && r.value.z == Pad(ReadTime(d, timeList.value[k]).heights)
  {
    if timeList.None? {
      return Err(TypeError);
    }
    var slots := ReadTimes(d, timeList.value);
    var out := Gather(slots);
    return Ok(out);
  }

  /** The `try` block of every requested time, in order. */
  function ReadTimes(d: Document, times: seq<string>): (r: seq<Slot>)
    ensures |r| == |times|
    ensures forall i :: 0 <= i < |times| ==> r[i] == ReadTime(d, times[i])
  {
    Each(times, t => ReadTime(d, t))
  }

  function Each<A, B>(xs: seq<A>, f: A -> B): (r: seq<B>)
    ensures |r| == |xs|
    ensures forall i :: 0 <= i < |xs| ==> r[i] == f(xs[i])
  {
    if xs == [] then [] else [f(xs[0])] + Each(xs[1..], f)
  }

  /** Rows of `Size` slots and at most `Size` heights, as `ReadTime` makes them. */
  predicate Shaped(s: Slot) {
    |s.u| == Size && |s.v| == Size && |s.w| == Size && |s.heights| <= Size
  }

  /** The accumulation of the loop: append the rows of each time; keep the
      heights of a profile taller than all before it. */
  method Gather(slots: seq<Slot>) returns (out: Retrieval)
    requires forall i :: 0 <= i < |slots| ==> Shaped(slots[i])
    ensures |out.u| == |out.v| == |out.w| == |slots|
    ensures forall i :: 0 <= i < |slots| ==> out.u[i] == slots[i].u && out.v[i] == slots[i].v && out.w[i] == slots[i].w
    ensures forall i :: 0 <= i < |slots| ==> |slots[i].heights| <= out.zmax
    ensures |out.z| == Size && out.zmax <= Size
    ensures out.zmax == 0 ==> out.z == Nans(Size)
    ensures out.zmax > 0 ==>
              exists k :: 0 <= k < |slots|
                && |slots[k].heights| == out.zmax
                && (forall j :: 0 <= j < k ==> |slots[j].heights| < out.zmax)
                && out.z == Pad(slots[k].heights)
  {
    var u, v, w := [], [], [];
    var z := Nans(Size);
    var zmax: nat := 0;
    ghost var best := 0;
    ghost var hs: seq<Measure> := [];
    assert z == Pad(hs);
    var n := 0;
    while n < |slots|
      invariant 0 <= n <= |slots|
      invariant |u| == n && |v| == n && |w| == n
      invariant forall i :: 0 <= i < n ==> u[i] == slots[i].u && v[i] == slots[i].v && w[i] == slots[i].w
      invariant forall i :: 0 <= i < n ==> |slots[i].heights| <= zmax
      invariant |hs| == zmax <= Size && z == Pad(hs)
      invariant zmax > 0 ==>
                  && best < n
                  && hs == slots[best].heights
                  && (forall j :: 0 <= j < best ==> |slots[j].heights| < zmax)
    {
      var s := slots[n];
      if |s.heights| > zmax {
        // `z[0:w_i.shape[0]] = z_i`; the columns share one length
        var k := |s.heights|;
        PadOver(hs, s.heights);
        z := s.heights + z[k..];
        zmax := k;
        best := n;
        hs := s.heights;
      }
      u, v, w := u + [s.u], v + [s.v], w + [s.w];
      n := n + 1;
    }
    if zmax == 0 {
      assert z == Nans(Size);
    }
    out := Retrieval(u, v, w, z, zmax);
  }

  /** Writing a taller profile over a padded row gives that profile padded. */
  lemma PadOver(low: seq<Measure>, high: seq<Measure>)
    requires |low| <= |high| <= Size
    ensures high + Pad(low)[|high|..] == Pad(high)
  {
  }
}
