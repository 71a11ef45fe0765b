/** The two batch policies that turn a table of station records into arrays.

    Per-field (jma_ame_nrt/map_latest_cartopy.py, cartopy_jma_rain3h.py,
    cartopy_jma_cumrain.py, map_tvar_station.py): every row yields one station;
    a malformed coordinate aborts the whole read, any other decode failure
    leaves NaN in that field only.

    All-or-skip (both cartopy_jma_temp+wind.py files and
    basemap_jma_temp+wind.py): temperature and wind share one `try`, so a
    failure in either drops the station from every output.

    The six (or five) arrays the scripts return are the columns of the
    sequence of decoded stations returned here. */
module StationBatch {
  import opened Base
  import opened Text
  import opened StationDecode

  /** A CSV file as pandas reads it: named columns of one common height. */
  datatype Table = Table(columns: map<string, seq<Cell>>, height: nat)

  predicate WellFormed(t: Table) {
    forall k :: k in t.columns ==> |t.columns[k]| == t.height
  }

  /** `df.loc[:, name]`. */
  function Column(t: Table, name: string): (r: Result<seq<Cell>>)
    ensures r.Err? <==> name !in t.columns
    ensures r.Err? ==> r.fault == KeyError(name)
    ensures WellFormed(t) && r.Ok? ==> |r.value| == t.height
  {
    if name in t.columns then Ok(t.columns[name]) else Err(KeyError(name))
  }

  function Min(a: nat, b: nat): nat {
    if a <= b then a else b
  }

  /** The six cells `zip` hands to one iteration of the loop. */
  datatype RawRow = RawRow(lon: Cell, lat: Cell, temp: Cell, wd: Cell, ws: Cell, prep: Cell)

  /** `zip` stops at the shortest of its arguments. */
  function Zip(lon: seq<Cell>, lat: seq<Cell>, temp: seq<Cell>, wd: seq<Cell>, ws: seq<Cell>, prep: seq<Cell>): (r: seq<RawRow>)
    ensures |r| <= |lon| && |r| <= |lat| && |r| <= |temp| && |r| <= |wd| && |r| <= |ws| && |r| <= |prep|
    ensures |r| == |lon| || |r| == |lat| || |r| == |temp| || |r| == |wd| || |r| == |ws| || |r| == |prep|
    ensures forall i :: 0 <= i < |r| ==> r[i] == RawRow(lon[i], lat[i], temp[i], wd[i], ws[i], prep[i])
  {
    var n := Min(Min(Min(|lon|, |lat|), Min(|temp|, |wd|)), Min(|ws|, |prep|));
    seq(n, i requires 0 <= i < n => RawRow(lon[i], lat[i], temp[i], wd[i], ws[i], prep[i]))
  }

  // ---------------------------------------------------------------------------
  // Per-field policy

  /** One decoded station of the per-field scripts. */
  datatype Station = Station(lon: real, lat: real, temp: Measure, u: Measure, v: Measure, prep: Measure)

  /** One loop iteration: coordinates first, outside any `try`; then three
      independent `try` blocks. */
  function DecodeRow(row: RawRow, trig: Trig): (r: Result<Station>)
    ensures r.Ok? <==> DecodeCoordinate(row.lon).Ok? && DecodeCoordinate(row.lat).Ok?
    ensures r.Ok? ==> r.value.lon == DecodeCoordinate(row.lon).value && r.value.lat == DecodeCoordinate(row.lat).value
    ensures r.Ok? ==> (r.value.u.Missing? <==> r.value.v.Missing?)
    ensures r.Ok? ==> r.value.u == WindField(row.wd, row.ws, trig).u && r.value.v == WindField(row.wd, row.ws, trig).v
    ensures r.Ok? ==> r.value.temp == FlaggedField(row.temp) && r.value.prep == FlaggedField(row.prep)
    ensures r.Ok? ==> forall x :: Accepted(row.temp, x) ==> r.value.temp == Value(x)
    ensures r.Ok? ==> forall x :: Accepted(row.prep, x) ==> r.value.prep == Value(x)
    ensures r.Ok? && r.value.temp.Value? ==> Accepted(row.temp, r.value.temp.v)
    ensures r.Ok? && r.value.prep.Value? ==> Accepted(row.prep, r.value.prep.v)
  {
    var lonT :- CoordinateTokens(row.lon);
    var latT :- CoordinateTokens(row.lat);
    var lon :- DegreesMinutes(lonT);
    var lat :- DegreesMinutes(latT);
    var w := WindField(row.wd, row.ws, trig);
    Ok(Station(lon, lat, FlaggedField(row.temp), w.u, w.v, FlaggedField(row.prep)))
  }

  /** `f` applied to every element, stopping at the first failure. */
  function TryAll<A, B>(xs: seq<A>, f: A -> Result<B>): (r: Result<seq<B>>)
    ensures r.Ok? <==> forall i :: 0 <= i < |xs| ==> f(xs[i]).Ok?
    ensures r.Ok? ==> |r.value| == |xs|
    ensures r.Ok? ==> forall i :: 0 <= i < |xs| ==> r.value[i] == f(xs[i]).value
    decreases |xs|
  {
    if |xs| == 0 then Ok([])
    else
      var y :- f(xs[0]);
      var rest :- TryAll(xs[1..], f);
      Ok([y] + rest)
  }

  /** The failure is that of the first element that fails. */
  lemma {:induction false} TryAllFirstError<A, B>(xs: seq<A>, f: A -> Result<B>)
    ensures TryAll(xs, f).Err? ==>
      exists i :: (0 <= i < |xs| && f(xs[i]) == Err(TryAll(xs, f).fault)
                   && forall j :: 0 <= j < i ==> f(xs[j]).Ok?)
    decreases |xs|
  {
    if |xs| > 0 && f(xs[0]).Ok? && TryAll(xs, f).Err? {
      TryAllFirstError(xs[1..], f);
      var i :| 0 <= i < |xs[1..]| && f(xs[1..][i]) == Err(TryAll(xs[1..], f).fault)
               && forall j :: 0 <= j < i ==> f(xs[1..][j]).Ok?;
      assert f(xs[i + 1]) == Err(TryAll(xs, f).fault);
      assert forall j :: 0 <= j < i + 1 ==> f(xs[j]).Ok? by {
        forall j | 0 <= j < i + 1
          ensures f(xs[j]).Ok?
        {
          if j > 0 {
            assert xs[j] == xs[1..][j - 1];
          }
        }
      }
    }
  }

  /** The loop of `read_data` under the per-field policy: all stations, or the
      exception of the first row whose coordinates do not decode. */
  function DecodeAll(rows: seq<RawRow>, trig: Trig): (r: Result<seq<Station>>)
    ensures r.Ok? <==> forall i :: 0 <= i < |rows| ==> DecodeRow(rows[i], trig).Ok?
    ensures r.Ok? ==> |r.value| == |rows|
    ensures r.Ok? ==> forall i :: 0 <= i < |rows| ==> r.value[i] == DecodeRow(rows[i], trig).value
  {
    TryAll(rows, row => DecodeRow(row, trig))
  }

  /** The exception is that of the first row that fails. */
  lemma DecodeAllFirstError(rows: seq<RawRow>, trig: Trig)
    ensures DecodeAll(rows, trig).Err? ==>
      exists i :: (0 <= i < |rows| && DecodeRow(rows[i], trig) == Err(DecodeAll(rows, trig).fault)
                   && forall j :: 0 <= j < i ==> DecodeRow(rows[j], trig).Ok?)
  {
    TryAllFirstError(rows, row => DecodeRow(row, trig));
  }

  /** `read_data` of the per-field scripts, with the precipitation column named. */
  function ReadStations(t: Table, precipColumn: string, trig: Trig): (r: Result<seq<Station>>)
    ensures "lon" !in t.columns ==> r == Err(KeyError("lon"))
    ensures precipColumn !in t.columns ==> r.Err?
    ensures WellFormed(t) && r.Ok? ==> |r.value| == t.height
    ensures r.Ok? ==> precipColumn in t.columns && |r.value| <= |t.columns[precipColumn]|
    ensures r.Ok? ==> forall i :: 0 <= i < |r.value| ==> r.value[i].prep == FlaggedField(t.columns[precipColumn][i])
  {
    var lon :- Column(t, "lon");
    var lat :- Column(t, "lat");
    var temp :- Column(t, "temp");
    var wd :- Column(t, "windDirection");
    var ws :- Column(t, "wind");
    var prep :- Column(t, precipColumn);
    DecodeAll(Zip(lon, lat, temp, wd, ws, prep), trig)
  }

  /** The default precipitation interval of `read_data` in map_latest_cartopy.py. */
  const DefaultRainstep: string := "1h"

  /** map_latest_cartopy.py: precipitation from `"precipitation" + rainstep`. */
  function ReadLatest(t: Table, rainstep: string, trig: Trig): (r: Result<seq<Station>>)
    ensures "lon" !in t.columns ==> r == Err(KeyError("lon"))
    ensures "precipitation" + rainstep !in t.columns ==> r.Err?
    ensures r.Ok? ==> "precipitation" + rainstep in t.columns && |r.value| <= |t.columns["precipitation" + rainstep]|
    ensures r.Ok? ==> forall i :: 0 <= i < |r.value| ==> r.value[i].prep == FlaggedField(t.columns["precipitation" + rainstep][i])
  {
    ReadStations(t, "precipitation" + rainstep, trig)
  }

  /** cartopy_jma_rain3h.py: precipitation from the fixed column `"precipitation3h"`. */
  function ReadRain3h(t: Table, trig: Trig): (r: Result<seq<Station>>)
    ensures "lon" !in t.columns ==> r == Err(KeyError("lon"))
    ensures "precipitation3h" !in t.columns ==> r.Err?
    ensures r.Ok? ==> "precipitation3h" in t.columns && |r.value| <= |t.columns["precipitation3h"]|
    ensures r.Ok? ==> forall i :: 0 <= i < |r.value| ==> r.value[i].prep == FlaggedField(t.columns["precipitation3h"][i])
  {
    ReadStations(t, "precipitation3h", trig)
  }

  /** cartopy_jma_cumrain.py: precipitation from the fixed column `"precipitation1h"`. */
  function ReadCumRain(t: Table, trig: Trig): (r: Result<seq<Station>>)
    ensures "lon" !in t.columns ==> r == Err(KeyError("lon"))
    ensures "precipitation1h" !in t.columns ==> r.Err?
    ensures r.Ok? ==> "precipitation1h" in t.columns && |r.value| <= |t.columns["precipitation1h"]|
    ensures r.Ok? ==> forall i :: 0 <= i < |r.value| ==> r.value[i].prep == FlaggedField(t.columns["precipitation1h"][i])
  {
    ReadStations(t, "precipitation1h", trig)
  }

  /** The three copies agree: the default rain step reads what the cumulative
      script reads, and rain step `"3h"` reads what the 3-hour script reads. */
  lemma ReadLatestAgrees(t: Table, trig: Trig)
    ensures ReadLatest(t, DefaultRainstep, trig) == ReadCumRain(t, trig)
    ensures ReadLatest(t, "3h", trig) == ReadRain3h(t, trig)
  {
    assert "precipitation" + DefaultRainstep == "precipitation1h";
    assert "precipitation" + "3h" == "precipitation3h";
  }

  /** With well-formed coordinates in every row, the read never fails and
      keeps one station per row, in row order. */
  lemma ReadStationsTotal(t: Table, precipColumn: string, trig: Trig)
    requires WellFormed(t)
    requires "lon" in t.columns && "lat" in t.columns && "temp" in t.columns
    requires "windDirection" in t.columns && "wind" in t.columns && precipColumn in t.columns
    requires forall i :: 0 <= i < t.height ==>
      DecodeCoordinate(t.columns["lon"][i]).Ok? && DecodeCoordinate(t.columns["lat"][i]).Ok?
    ensures ReadStations(t, precipColumn, trig).Ok?
    ensures var r := ReadStations(t, precipColumn, trig).value;
      |r| == t.height && forall i :: 0 <= i < t.height ==>
        r[i].lon == DecodeCoordinate(t.columns["lon"][i]).value
        && r[i].lat == DecodeCoordinate(t.columns["lat"][i]).value
        && r[i].temp == FlaggedField(t.columns["temp"][i])
        && r[i].prep == FlaggedField(t.columns[precipColumn][i])
        && r[i].u == WindField(t.columns["windDirection"][i], t.columns["wind"][i], trig).u
        && r[i].v == WindField(t.columns["windDirection"][i], t.columns["wind"][i], trig).v
  {
    var rows := Zip(t.columns["lon"], t.columns["lat"], t.columns["temp"],
                    t.columns["windDirection"], t.columns["wind"], t.columns[precipColumn]);
    assert |rows| == t.height;
    forall i | 0 <= i < |rows| ensures DecodeRow(rows[i], trig).Ok? {
      assert rows[i].lon == t.columns["lon"][i];
    }
  }

  // ---------------------------------------------------------------------------
  // All-or-skip policy

  /** One decoded station of the temperature-and-wind scripts. */
  datatype WindStation = WindStation(lon: real, lat: real, temp: Measure, u: Measure, v: Measure)

  /** The cells of one row of the temperature-and-wind scripts. */
  datatype WindRow = WindRow(lon: Cell, lat: Cell, temp: Cell, wd: Cell, ws: Cell)

  function ZipWind(lon: seq<Cell>, lat: seq<Cell>, temp: seq<Cell>, wd: seq<Cell>, ws: seq<Cell>): (r: seq<WindRow>)
    ensures |r| <= |lon| && |r| <= |lat| && |r| <= |temp| && |r| <= |wd| && |r| <= |ws|
    ensures |r| == |lon| || |r| == |lat| || |r| == |temp| || |r| == |wd| || |r| == |ws|
    ensures forall i :: 0 <= i < |r| ==> r[i] == WindRow(lon[i], lat[i], temp[i], wd[i], ws[i])
  {
    var n := Min(Min(Min(|lon|, |lat|), Min(|temp|, |wd|)), |ws|);
    seq(n, i requires 0 <= i < n => WindRow(lon[i], lat[i], temp[i], wd[i], ws[i]))
  }

  /** The shared `try` of temperature and wind: both fields, or None when
      either decode raises. */
  function SharedTry(temp: Cell, wd: Cell, ws: Cell, trig: Trig): (r: Option<(Measure, Wind)>)
    ensures r.Some? <==> DecodeFlagged(temp).Ok? && DecodeWind(wd, ws, trig).Ok?
    ensures r.Some? ==> r.value.0 == FlaggedField(temp) && r.value.1 == WindField(wd, ws, trig)
  {
    var t := DecodeFlagged(temp);
    var w := DecodeWind(wd, ws, trig);
    if t.Ok? && w.Ok? then Some((t.value, w.value)) else None
  }

  /** One loop iteration: `Err` when the coordinates abort the read, `None`
      when the shared `try` fails and the station is skipped. */
  function DecodeOrSkip(row: WindRow, trig: Trig): (r: Result<Option<WindStation>>)
    ensures r.Ok? <==> DecodeCoordinate(row.lon).Ok? && DecodeCoordinate(row.lat).Ok?
    ensures r.Ok? ==> (r.value.Some? <==> SharedTry(row.temp, row.wd, row.ws, trig).Some?)
    ensures r.Ok? && r.value.Some? ==>
      var w := WindField(row.wd, row.ws, trig);
      r.value.value == WindStation(DecodeCoordinate(row.lon).value, DecodeCoordinate(row.lat).value,
                                   FlaggedField(row.temp), w.u, w.v)
  {
    var lonT :- CoordinateTokens(row.lon);
    var latT :- CoordinateTokens(row.lat);
    var lon :- DegreesMinutes(lonT);
    var lat :- DegreesMinutes(latT);
    var fields := SharedTry(row.temp, row.wd, row.ws, trig);
    Ok(if fields.Some? then Some(WindStation(lon, lat, fields.value.0, fields.value.1.u, fields.value.1.v)) else None)
  }

  /** A temperature flag other than `"0"` raises nothing: the station is kept
      with NaN temperature. */
  lemma FlaggedTemperatureKept(lt: string, at: string, vt: string, qt: string, wd: Cell, ws: Cell, trig: Trig)
    requires DecodeCoordinate(Str(lt)).Ok? && DecodeCoordinate(Str(at)).Ok?
    requires PlainWord(vt) && PlainWord(qt) && qt != "0"
    requires DecodeWind(wd, ws, trig).Ok?
    ensures var r := DecodeOrSkip(WindRow(Str(lt), Str(at), Str(PairText(vt, qt)), wd, ws), trig);
      r.Ok? && r.value.Some? && r.value.value.temp == Missing
  {
    DecodeFlaggedIgnoresValue(vt, qt);
  }

  /** A station whose wind cell is not a string is dropped from every output. */
  lemma NonStringWindSkipped(row: WindRow, trig: Trig)
    requires DecodeCoordinate(row.lon).Ok? && DecodeCoordinate(row.lat).Ok?
    requires row.wd == NonString || row.ws == NonString
    ensures DecodeOrSkip(row, trig) == Ok(None)
  {
  }

  /** The outcome of one loop iteration of the all-or-skip read. */
  type RowOutcome = Result<Option<WindStation>>

  /** The loop of `read_data` under the all-or-skip policy, over the outcomes
      of the rows in order; the five arrays are appended together, so one
      station sequence describes them all. */
  function DecodeKept(ds: seq<RowOutcome>): (r: Result<seq<WindStation>>)
    ensures r.Ok? <==> forall i :: 0 <= i < |ds| ==> ds[i].Ok?
    ensures r.Ok? ==> |r.value| <= |ds|
    decreases |ds|
  {
    if |ds| == 0 then Ok([])
    else
      var init := ds[..|ds| - 1];
      assert forall i :: 0 <= i < |init| ==> init[i] == ds[i];
      var front :- DecodeKept(init);
      var last :- ds[|ds| - 1];
      Ok(if last.Some? then front + [last.value] else front)
  }

  /** A failed read raises the exception of the first row that aborts it:
      every row before that one was decoded or skipped. */
  lemma {:induction false} DecodeKeptFirstError(ds: seq<RowOutcome>)
    ensures DecodeKept(ds).Err? ==>
      exists i :: 0 <= i < |ds| && ds[i] == Err(DecodeKept(ds).fault)
                  && forall j :: 0 <= j < i ==> ds[j].Ok?
    decreases |ds|
  {
    if |ds| > 0 && DecodeKept(ds).Err? {
      var init := ds[..|ds| - 1];
      assert forall i :: 0 <= i < |init| ==> init[i] == ds[i];
      if DecodeKept(init).Err? {
        DecodeKeptFirstError(init);
        var i :| 0 <= i < |init| && init[i] == Err(DecodeKept(init).fault)
                 && forall j :: 0 <= j < i ==> init[j].Ok?;
        assert ds[i] == Err(DecodeKept(ds).fault);
      } else {
        assert ds[|ds| - 1] == Err(DecodeKept(ds).fault);
      }
    }
  }

  function CountTrue(m: seq<bool>): nat
    decreases |m|
  {
    if |m| == 0 then 0 else CountTrue(m[..|m| - 1]) + (if m[|m| - 1] then 1 else 0)
  }

  /** The positions holding `true`, in increasing order. */
  function TrueIndices(m: seq<bool>): (ks: seq<nat>)
    ensures |ks| == CountTrue(m)
    ensures forall k :: 0 <= k < |ks| ==> ks[k] < |m| && m[ks[k]]
    decreases |m|
  {
    if |m| == 0 then []
    else
      var front := TrueIndices(m[..|m| - 1]);
      if m[|m| - 1] then front + [|m| - 1] else front
  }

  /** The positions come in increasing order and miss no `true`. */
  lemma {:induction false} TrueIndicesComplete(m: seq<bool>)
    ensures var ks := TrueIndices(m);
      (forall k, l :: 0 <= k < l < |ks| ==> ks[k] < ks[l])
      && (forall i :: 0 <= i < |m| && m[i] ==> i in ks)
    decreases |m|
  {
    if |m| > 0 {
      var n := |m| - 1;
      TrueIndicesComplete(m[..n]);
      var front := TrueIndices(m[..n]);
      forall i | 0 <= i < n && m[i]
        ensures i in front
      {
        assert m[..n][i];
      }
    }
  }

  /** Which rows survive the shared `try`. */
  function KeepMask(ds: seq<RowOutcome>): (m: seq<bool>)
    ensures |m| == |ds|
    ensures forall i :: 0 <= i < |ds| ==> (m[i] <==> ds[i].Ok? && ds[i].value.Some?)
  {
    seq(|ds|, i requires 0 <= i < |ds| => ds[i].Ok? && ds[i].value.Some?)
  }

  /** The all-or-skip read keeps exactly the surviving rows, in input order:
      the k-th station comes from the k-th surviving row. */
  lemma {:induction false} DecodeKeptSelects(ds: seq<RowOutcome>)
    requires DecodeKept(ds).Ok?
    ensures var r := DecodeKept(ds).value; var ks := TrueIndices(KeepMask(ds));
      |r| == |ks| && forall k :: 0 <= k < |ks| ==> ds[ks[k]] == Ok(Some(r[k]))
    decreases |ds|
  {
    if |ds| > 0 {
      var n := |ds| - 1;
      var init := ds[..n];
      DecodeKeptLast(ds);
      DecodeKeptSelects(init);
      var front := DecodeKept(init).value;
      var ksi := TrueIndices(KeepMask(init));
      assert forall k :: 0 <= k < |ksi| ==> ksi[k] < n && ds[ksi[k]] == Ok(Some(front[k])) by {
        forall k | 0 <= k < |ksi|
          ensures ksi[k] < n && ds[ksi[k]] == Ok(Some(front[k]))
        {
          assert init[ksi[k]] == ds[ksi[k]];
        }
      }
      KeepMaskPrefix(ds);
      if ds[n].value.Some? {
        KeptStep(ds, front, ksi);
      }
    }
  }

  /** The last outcome either adds its station or nothing. */
  lemma DecodeKeptLast(ds: seq<RowOutcome>)
    requires |ds| > 0 && DecodeKept(ds).Ok?
    ensures DecodeKept(ds[..|ds| - 1]).Ok? && ds[|ds| - 1].Ok?
    ensures ds[|ds| - 1].value.Some? ==>
      DecodeKept(ds).value == DecodeKept(ds[..|ds| - 1]).value + [ds[|ds| - 1].value.value]
    ensures ds[|ds| - 1].value.None? ==> DecodeKept(ds).value == DecodeKept(ds[..|ds| - 1]).value
  {
  }

  /** The mask of the outcomes but the last, and whether the last is kept. */
  lemma KeepMaskPrefix(ds: seq<RowOutcome>)
    requires |ds| > 0
    ensures var m := KeepMask(ds); var n := |ds| - 1;
      TrueIndices(m) == if ds[n].Ok? && ds[n].value.Some? then TrueIndices(KeepMask(ds[..n])) + [n]
                        else TrueIndices(KeepMask(ds[..n]))
  {
    assert KeepMask(ds)[..|ds| - 1] == KeepMask(ds[..|ds| - 1]);
  }

  /** A kept last row adds its station and its position. */
  lemma KeptStep(ds: seq<RowOutcome>, front: seq<WindStation>, ksi: seq<nat>)
    requires |ds| > 0 && ds[|ds| - 1].Ok? && ds[|ds| - 1].value.Some? && |front| == |ksi|
    requires forall k :: 0 <= k < |ksi| ==> ksi[k] < |ds| - 1 && ds[ksi[k]] == Ok(Some(front[k]))
    ensures var r := front + [ds[|ds| - 1].value.value]; var ks := ksi + [|ds| - 1];
      forall k :: 0 <= k < |ks| ==> ds[ks[k]] == Ok(Some(r[k]))
  {
  }

  /** The per-row outcomes of a table's rows. */
  function Outcomes(rows: seq<WindRow>, trig: Trig): (ds: seq<RowOutcome>)
    ensures |ds| == |rows|
    ensures forall i :: 0 <= i < |rows| ==> ds[i] == DecodeOrSkip(rows[i], trig)
  {
    seq(|rows|, i requires 0 <= i < |rows| => DecodeOrSkip(rows[i], trig))
  }

  /** `read_data` of the temperature-and-wind scripts. */
  function ReadWindStations(t: Table, trig: Trig): (r: Result<seq<WindStation>>)
    ensures "lon" !in t.columns ==> r == Err(KeyError("lon"))
    ensures WellFormed(t) && r.Ok? ==> |r.value| <= t.height
  {
    var lon :- Column(t, "lon");
    var lat :- Column(t, "lat");
    var temp :- Column(t, "temp");
    var wd :- Column(t, "windDirection");
    var ws :- Column(t, "wind");
    DecodeKept(Outcomes(ZipWind(lon, lat, temp, wd, ws), trig))
  }

  /** With the five columns present, a failed read raises the exception of
      the first table row whose coordinates abort it. */
  lemma ReadWindStationsFirstError(t: Table, trig: Trig)
    requires "lon" in t.columns && "lat" in t.columns && "temp" in t.columns
    requires "windDirection" in t.columns && "wind" in t.columns
    ensures var rows := ZipWind(t.columns["lon"], t.columns["lat"], t.columns["temp"],
                                t.columns["windDirection"], t.columns["wind"]);
      ReadWindStations(t, trig).Err? ==>
        exists i :: 0 <= i < |rows| && DecodeOrSkip(rows[i], trig) == Err(ReadWindStations(t, trig).fault)
                    && forall j :: 0 <= j < i ==> DecodeOrSkip(rows[j], trig).Ok?
  {
    var rows := ZipWind(t.columns["lon"], t.columns["lat"], t.columns["temp"],
                        t.columns["windDirection"], t.columns["wind"]);
    DecodeKeptFirstError(Outcomes(rows, trig));
  }

  // ---------------------------------------------------------------------------
  // Single-station series (map_tvar_station.py)

  /** `df[df.loc[:, 'enName'] == sta]` as a row mask; a non-string cell never matches. */
  function Matches(names: seq<Cell>, sta: string): (m: seq<bool>)
    ensures |m| == |names|
    ensures forall i :: 0 <= i < |m| ==> (m[i] <==> names[i] == Str(sta))
  {
    seq(|names|, i requires 0 <= i < |names| => names[i] == Str(sta))
  }

  /** The cells of a column at the masked positions, in order. */
  function Select(col: seq<Cell>, m: seq<bool>): (r: seq<Cell>)
    requires |col| == |m|
    ensures |r| == CountTrue(m)
    ensures forall c :: c in r ==> exists i :: 0 <= i < |m| && m[i] && col[i] == c
    decreases |m|
  {
    if |m| == 0 then []
    else
      var front := Select(col[..|m| - 1], m[..|m| - 1]);
      assert forall i :: 0 <= i < |m| - 1 ==> col[..|m| - 1][i] == col[i] && m[..|m| - 1][i] == m[i];
      if m[|m| - 1] then front + [col[|m| - 1]] else front
  }

  /** The rows of a table that the mask selects. */
  function Filter(t: Table, m: seq<bool>): (f: Table)
    requires WellFormed(t) && |m| == t.height
    ensures WellFormed(f) && f.height == CountTrue(m)
    ensures f.columns.Keys == t.columns.Keys
  {
    Table(map k | k in t.columns :: Select(t.columns[k], m), CountTrue(m))
  }

  /** A column that may be absent: `[nan]` in its place, one non-string cell. */
  function ColumnOrNaN(t: Table, name: string): (r: seq<Cell>)
    ensures name !in t.columns ==> r == [NonString]
  {
    if name in t.columns then t.columns[name] else [NonString]
  }

  predicate AllFieldColumns(t: Table) {
    "temp" in t.columns && "windDirection" in t.columns && "wind" in t.columns && "precipitation1h" in t.columns
  }

  /** `read_data(input_filename, sta)` of map_tvar_station.py. */
  function ReadStationSeries(t: Table, sta: string, trig: Trig): (r: Result<seq<Station>>)
    requires WellFormed(t)
    ensures "enName" !in t.columns ==> r == Err(KeyError("enName"))
    ensures r.Ok? ==> |r.value| <= CountTrue(Matches(t.columns["enName"], sta))
    ensures r.Ok? && !AllFieldColumns(t) ==> |r.value| <= 1
  {
    var names :- Column(t, "enName");
    var rows :- SeriesRows(Filter(t, Matches(names, sta)));
    DecodeAll(rows, trig)
  }

  /** A field whose column is absent decodes to NaN for every station. */
  lemma ReadStationSeriesMissingColumns(t: Table, sta: string, trig: Trig)
    requires WellFormed(t)
    ensures var r := ReadStationSeries(t, sta, trig);
      && (r.Ok? && "temp" !in t.columns ==> forall i :: 0 <= i < |r.value| ==> r.value[i].temp == Missing)
      && (r.Ok? && "precipitation1h" !in t.columns ==> forall i :: 0 <= i < |r.value| ==> r.value[i].prep == Missing)
      && (r.Ok? && ("windDirection" !in t.columns || "wind" !in t.columns) ==>
            forall i :: 0 <= i < |r.value| ==> r.value[i].u == Missing && r.value[i].v == Missing)
  {
    if "enName" in t.columns {
      var f := Filter(t, Matches(t.columns["enName"], sta));
      var rows := SeriesRows(f);
      if rows.Ok? && DecodeAll(rows.value, trig).Ok? {
        var r := DecodeAll(rows.value, trig).value;
        forall i | 0 <= i < |r|
          ensures "temp" !in t.columns ==> r[i].temp == Missing
          ensures "precipitation1h" !in t.columns ==> r[i].prep == Missing
          ensures ("windDirection" !in t.columns || "wind" !in t.columns) ==> r[i].u == Missing && r[i].v == Missing
        {
          NonStringFieldsMissing(rows.value[i], trig);
        }
      }
    }
  }

  /** The rows of the selected station: lon and lat must exist; a missing
      field column becomes the one-cell `[nan]`, which also cuts the `zip`
      to at most one row. */
  function SeriesRows(f: Table): (r: Result<seq<RawRow>>)
    requires WellFormed(f)
    ensures r.Ok? ==> |r.value| <= f.height
    ensures r.Ok? && !AllFieldColumns(f) ==> |r.value| <= 1
    ensures r.Ok? && "temp" !in f.columns ==> forall i :: 0 <= i < |r.value| ==> r.value[i].temp == NonString
    ensures r.Ok? && "precipitation1h" !in f.columns ==> forall i :: 0 <= i < |r.value| ==> r.value[i].prep == NonString
    ensures r.Ok? && ("windDirection" !in f.columns || "wind" !in f.columns) ==>
      forall i :: 0 <= i < |r.value| ==> r.value[i].wd == NonString && r.value[i].ws == NonString
  {
    var lon :- Column(f, "lon");
    var lat :- Column(f, "lat");
    var temp := ColumnOrNaN(f, "temp");
    var windPresent := "windDirection" in f.columns && "wind" in f.columns;
    var wd := if windPresent then f.columns["windDirection"] else [NonString];
    var ws := if windPresent then f.columns["wind"] else [NonString];
    var prep := ColumnOrNaN(f, "precipitation1h");
    Ok(Zip(lon, lat, temp, wd, ws, prep))
  }

  /** With every field column present, the station series is the per-field
      read of exactly the rows whose `enName` is the station, one entry each. */
  lemma ReadStationSeriesFilters(t: Table, sta: string, trig: Trig)
    requires WellFormed(t) && "enName" in t.columns && AllFieldColumns(t)
    ensures var f := Filter(t, Matches(t.columns["enName"], sta));
      ReadStationSeries(t, sta, trig) == ReadStations(f, "precipitation1h", trig)
    ensures ReadStationSeries(t, sta, trig).Ok? ==>
      |ReadStationSeries(t, sta, trig).value| == CountTrue(Matches(t.columns["enName"], sta))
  {
  }

  /** The fallback `[nan]` cell always decodes to NaN. */
  lemma NonStringFieldsMissing(row: RawRow, trig: Trig)
    requires DecodeRow(row, trig).Ok?
    ensures row.temp == NonString ==> DecodeRow(row, trig).value.temp == Missing
    ensures row.prep == NonString ==> DecodeRow(row, trig).value.prep == Missing
    ensures row.wd == NonString || row.ws == NonString ==>
      DecodeRow(row, trig).value.u == Missing && DecodeRow(row, trig).value.v == Missing
  {
  }

  /** The module-level station of map_tvar_station.py. */
  const DefaultStation: string := "Hiroshima"

  /** What `main` returns: the six arrays, or six NaNs when no time is given. */
  datatype Series = Decoded(stations: seq<Station>) | AllMissing

  /** `main(tinfo, tinfof, sta)`: `sta` is only checked for None; `read_data`
      is called without it and so reads the module-level station. */
  function StationSeriesMain(tinfof: Option<string>, sta: Option<string>, files: string -> Table, trig: Trig): (r: Result<Series>)
    requires forall name :: WellFormed(files(name))
    ensures sta.None? ==> r == Err(Raised("sta is needed"))
    ensures sta.Some? && tinfof.None? ==> r == Ok(AllMissing)
  {
    if sta.None? then Err(Raised("sta is needed"))
    else if tinfof.None? then Ok(AllMissing)
    else
      var stations :- ReadStationSeries(files(tinfof.value + ".csv"), DefaultStation, trig);
      Ok(Decoded(stations))
  }

  /** The station argument never selects the station: any non-None value
      reads the default station's rows. */
  lemma StationSeriesIgnoresStation(tinfof: string, sta: string, files: string -> Table, trig: Trig)
    requires forall name :: WellFormed(files(name))
    ensures StationSeriesMain(Some(tinfof), Some(sta), files, trig)
         == StationSeriesMain(Some(tinfof), Some(DefaultStation), files, trig)
    ensures ReadStationSeries(files(tinfof + ".csv"), DefaultStation, trig).Ok? ==>
      StationSeriesMain(Some(tinfof), Some(sta), files, trig)
        == Ok(Decoded(ReadStationSeries(files(tinfof + ".csv"), DefaultStation, trig).value))
  {
  }
}
