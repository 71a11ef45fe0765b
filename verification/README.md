# jma_draw core rules in Dafny

jma_draw is a set of Python scripts. They download Japan Meteorological
Agency (JMA) observations and draw them:

- AMeDAS surface-station maps and time series;
- monthly, daily and hourly station statistics;
- Himawari satellite tiles;
- wind-profiler (WPR) cross sections.

This project models the pure rules inside those scripts as immutable Dafny
data and functions, and proves what the scripts promise about them.

Python exceptions become a `Result` whose error carries a `Fault`: the
exception class, or the message of a bare `raise Exception(...)`. `quit()`
is the fault `Exit`. A pandas NaN is `Measure.Missing`. A CSV cell is either
`Str(text)` or `NonString`, the float NaN pandas reads from an empty cell.

The modules are:

- `Base` holds `Result`, `Option` and `Fault`.
- `Text` covers the string built-ins the scripts use:
  - `str.split()` and `str.split(sep)`;
  - `str.replace`;
  - `str.strip`;
  - `str(int)`;
  - `float()`, over a decimal grammar.
- `Numeric` covers `math.floor`, `math.ceil`, `int()` truncation and `math.fmod`.
- `LookupTable` is the chain of `if name == ...` assignments, as an ordered list of keyed entries.
- `StationDecode` covers `str_rep` and the per-cell decoding of one AMeDAS record: coordinates, flagged values and wind.
- `StationBatch` covers the `read_data` loops:
  - the per-field policy: a failing field becomes NaN;
  - the all-or-skip policy: a failing field drops the station;
  - the station-name filter of map_tvar_station.py.
- `StationTable` covers the station table of `jmaloc/amedas.py`: `_convert` and `get_staloc`.
- `CumRain` covers the running precipitation sum and the hourly frame loop.
- `ColourScale` covers `val2col`/`temp2col` (a clamped colour index) and `collevs` (banded levels).
- `AxisLimits` covers the piecewise y-axis rules of map_jma.py and map_tvar_station.py, and the three ways the scripts reduce a record that may hold NaN:
  - the built-in `max`, whose result depends on where a NaN sits;
  - pandas `min`/`max`, which skip NaN;
  - numpy `min`/`max`, which propagate it.
- `Options` covers the `--temprange` option and the output file names.
- `MapRegion` covers the region table of `jmaloc/radar.py` and the two-area `draw` checks.
- `AmeSta` covers the station and variable code tables, the missing-value cleanup, the compass-name replacement and `retrieve_stat`.
- `Himawari` covers `check_tile`, the band table, the image address and the tile pair `draw_jp` requests.
- `UtilsCli` covers `get_gridloc`, the ImageMagick and ffmpeg argument lists, and the `parse_command` defaults.
- `WindProfiler` covers `WprStation.retrieve` and `_divide`: the fixed 50-level rows and the choice of heights.

`read_data` and `str_rep` are copied into eight scripts. Each modelled
function cites the copy in jma_ame_nrt/map_latest_cartopy.py, or in
jma_ame_nrt/cartopy_jma_temp+wind.py for the all-or-skip policy. The other
copies are the same code:

- cartopy_jma_rain3h.py and cartopy_jma_cumrain.py differ only in the
  precipitation column. `StationBatch.ReadLatestAgrees` states this.
- The two jma_ame_nrt_map scripts have the same shared `try`.

## Model

| member | source | states |
|---|---|---|
| Text.SplitWsKeepsText | jma_ame_nrt/map_latest_cartopy.py:113-115 | `str.split()` loses only the whitespace: its pieces put together are the text with spaces removed |
| Text.SplitWsAtSpace | jma_ame_nrt/map_latest_cartopy.py:115 | splitting at a whitespace character splits the two sides independently |
| Text.SplitOnJoin | jma_ame_nrt/map_latest_cartopy.py:425 | the pieces of `s.split(sep)`, joined with `sep`, give back `s` |
| Text.JoinSplitOn | jma_ame_nrt/map_latest_cartopy.py:425 | splitting a join of separator-free pieces gives the pieces back |
| Text.ReplaceDeletes | jma_ame_nrt/map_latest_cartopy.py:114 | replacing one character by the empty string deletes exactly its occurrences |
| Text.IntToStringRoundTrip | jma_sat/get_jma_jp.py:118 | `str(i)` of an integer reads back as the same integer |
| Text.ParseFloatPadded | jma_ame_nrt/map_latest_cartopy.py:157 | `float()` ignores surrounding whitespace: a padded decimal reads as the bare one |
| Text.ParseFloatInt | jma_ame_nrt/map_latest_cartopy.py:426 | `float(str(i))` is `i` |
| Numeric.Floor | jma_ame_prev/map_jma.py:115 | `math.floor(x)` is the integer `r` with r <= x < r + 1 |
| Numeric.Ceil | jma_ame_prev/map_jma.py:102 | `math.ceil(x)` is the integer `r` with x <= r < x + 1 |
| Numeric.Trunc | jma_ame_nrt/map_latest_cartopy.py:431 | `int(x)` truncates toward zero: below x for positive x, above it for negative x, within one |
| Numeric.FmodBounds | jma_ame_prev/map_jma.py:100-102 | `math.fmod(x, y)` for y of 10 or 5 has the sign of x and lies within y of zero; x = trunc(x/y)·y + fmod(x, y) |
| Numeric.FmodAgainstMod | jma_ame_nrt/map_tvar_station.py:145 | for y of 10 or 5, `math.fmod(x, y)` agrees with Python's `%` on non-negative dividends; on a negative non-multiple it is one divisor below `%` and negative; both are zero for the same dividends |
| LookupTable.LookupSpec | jma_ame_nrt/jmaloc/radar.py:7-204 | an unknown name leaves the attributes unset; in a table with distinct names, a listed name gets its own entry |
| StationDecode.StripDelimitersDeletes | jma_ame_nrt/map_latest_cartopy.py:114 | the first step of `str_rep` deletes every `[`, `]` and `,` and keeps every other character |
| StationDecode.StrRepTokens | jma_ame_nrt/map_latest_cartopy.py:113-115 | `str_rep` tokens are non-empty and hold no space, bracket or comma; together they are the input without delimiters and spaces |
| StationDecode.StrRepPair | jma_ame_nrt/map_latest_cartopy.py:113-115 | the list text `"[a, b]"` of two plain words gives exactly the tokens a and b |
| StationDecode.StrRepGlued | jma_ame_nrt/map_latest_cartopy.py:113-115 | without a space after the comma the two numbers glue into one token: `"[a,b]"` gives `[a + b]` |
| StationDecode.CoordinateTokens | jma_ame_nrt/map_latest_cartopy.py:155-156 | tokenizing a coordinate cell fails exactly for a non-string cell |
| StationDecode.DegreesMinutes | jma_ame_nrt/map_latest_cartopy.py:157-158 | succeeds iff there are two tokens that both parse; the value is degrees plus minutes/60 |
| StationDecode.DecodeCoordinatePair | jma_ame_nrt/map_latest_cartopy.py:155-158 | the cell `"[d, m]"` decodes to d + m/60 |
| StationDecode.DecodeCoordinateFails | jma_ame_nrt/map_latest_cartopy.py:155-158 | a non-string cell or a cell with fewer than two tokens aborts the coordinate decode |
| StationDecode.DecodeFlagged | jma_ame_nrt/map_latest_cartopy.py:164-170 | non-string cell is AttributeError, fewer than two tokens IndexError; flag exactly `"0"` parses the value, any other flag is NaN without parsing |
| StationDecode.OrMissing | jma_ame_nrt/map_latest_cartopy.py:172-173 | an exception in the field's `try` stores NaN, success stores the value |
| StationDecode.FlaggedField | jma_ame_nrt/map_latest_cartopy.py:162-173 | a field is a number exactly when the cell's tokens are that number and the flag `"0"`; otherwise NaN |
| StationDecode.DecodeFlaggedPair | jma_ame_nrt/map_latest_cartopy.py:166-169 | `"[v, q]"` decodes to v when q is `"0"` and to NaN otherwise |
| StationDecode.DecodeFlaggedIgnoresValue | jma_ame_nrt/map_latest_cartopy.py:166-169 | with a flag other than `"0"` even an unparsable value gives NaN, not an exception; `"0.0"` is such a flag |
| StationDecode.DecodeWind | jma_ame_nrt/map_latest_cartopy.py:177-189 | a non-string direction or speed cell raises AttributeError; u and v are NaN together or not at all |
| StationDecode.WindField | jma_ame_nrt/map_latest_cartopy.py:175-195 | the stored wind is the vector of the accepted code and speed, and NaN in both components otherwise |
| StationDecode.DecodeWindPair | jma_ame_nrt/map_latest_cartopy.py:181-189 | with both flags `"0"` the wind is the vector of code·22.5 degrees and the speed; otherwise both NaN |
| StationDecode.DecodeWindShortCircuit | jma_ame_nrt/map_latest_cartopy.py:179-186 | a direction flagged other than `"0"` gives NaN wind whatever the speed text, even one without a flag token |
| StationDecode.WindVector | jma_ame_nrt/map_latest_cartopy.py:188-189 | an accepted wind gives numbers in both components |
| StationDecode.WindVectorKeepsSpeed | jma_ame_nrt/map_latest_cartopy.py:188-189 | the (u, v) vector has the speed as its length |
| StationDecode.WindFromSouth | jma_ame_nrt/map_latest_cartopy.py:182-189 | code 8 (south, 180 degrees) at 5 m/s blows northward: u = 0, v = 5 |
| StationBatch.Column | jma_ame_nrt/map_latest_cartopy.py:146-151 | `df.loc[:, name]` is KeyError(name) for an absent column and has one cell per row otherwise |
| StationBatch.Zip | jma_ame_nrt/map_latest_cartopy.py:152-153 | `zip` stops at the shortest column and pairs the cells of each row index |
| StationBatch.DecodeRow | jma_ame_nrt/map_latest_cartopy.py:154-206 | a row fails only on its coordinates; temperature and precipitation are each the flagged reading of their cell, the accepted number or NaN; u and v are the wind field of the direction and speed cells, NaN together |
| StationBatch.DecodeAll | jma_ame_nrt/map_latest_cartopy.py:152-208 | the loop succeeds iff every row decodes, with one station per row in row order |
| StationBatch.DecodeAllFirstError | jma_ame_nrt/map_latest_cartopy.py:152-158 | a failed read raises the exception of the first row that fails |
| StationBatch.ReadStations | jma_ame_nrt/map_latest_cartopy.py:146-208 | an absent `lon` column is KeyError("lon"); an absent precipitation column fails; a result has at most one station per row, each holding the flagged reading of its row's precipitation cell |
| StationBatch.ReadLatest | jma_ame_nrt/map_latest_cartopy.py:117-151 | reads precipitation from the column `"precipitation" + rainstep`: absent `lon` is KeyError("lon"), an absent rain column fails, each station holds its row's reading of that column |
| StationBatch.ReadRain3h | jma_ame_nrt/cartopy_jma_rain3h.py:135-150 | reads precipitation from `"precipitation3h"`: absent `lon` is KeyError("lon"), an absent rain column fails, each station holds its row's reading of that column |
| StationBatch.ReadCumRain | jma_ame_nrt/cartopy_jma_cumrain.py:26-49 | reads precipitation from `"precipitation1h"`: absent `lon` is KeyError("lon"), an absent rain column fails, each station holds its row's reading of that column |
| StationBatch.ReadLatestAgrees | jma_ame_nrt/map_latest_cartopy.py:151 | rain step `"1h"` (the default) reads what the cumulative script reads; `"3h"` reads what the 3-hour script reads |
| StationBatch.ReadStationsTotal | jma_ame_nrt/map_latest_cartopy.py:152-208 | with all columns present and decodable coordinates, the read succeeds with one station per row: its coordinates, the flagged temperature and precipitation of its cells, and the wind field of its direction and speed |
| StationBatch.ZipWind | jma_ame_nrt/cartopy_jma_temp+wind.py:92 | the five-column `zip` stops at the shortest column and keeps row order |
| StationBatch.SharedTry | jma_ame_nrt/cartopy_jma_temp+wind.py:99-121 | the shared `try` succeeds iff temperature and wind both raise nothing; it then yields the per-field values |
| StationBatch.DecodeOrSkip | jma_ame_nrt/cartopy_jma_temp+wind.py:94-129 | bad coordinates abort the read; otherwise the station is kept exactly when the shared `try` succeeds, with its decoded fields |
| StationBatch.FlaggedTemperatureKept | jma_ame_nrt/cartopy_jma_temp+wind.py:103-106 | a temperature flag other than `"0"` keeps the station, with NaN temperature |
| StationBatch.NonStringWindSkipped | jma_ame_nrt/cartopy_jma_temp+wind.py:109-110 | an empty wind cell raises in the shared `try` and the station is dropped |
| StationBatch.DecodeKept | jma_ame_nrt/cartopy_jma_temp+wind.py:123-127 | the read fails iff some row aborts; otherwise at most one station per row |
| StationBatch.DecodeKeptFirstError | jma_ame_nrt/cartopy_jma_temp+wind.py:92-97 | a failed read raises the exception of the first row whose coordinates abort it |
| StationBatch.KeepMask | jma_ame_nrt/cartopy_jma_temp+wind.py:99-129 | the rows that reach the appends are exactly those whose shared `try` succeeded |
| StationBatch.DecodeKeptSelects | jma_ame_nrt/cartopy_jma_temp+wind.py:123-127 | the outputs are the decoded kept rows, one each, in input order |
| StationBatch.Outcomes | jma_ame_nrt/cartopy_jma_temp+wind.py:92-129 | one loop outcome per zipped row, in order |
| StationBatch.ReadWindStations | jma_ame_nrt/cartopy_jma_temp+wind.py:86-135 | an absent `lon` column is KeyError("lon"); there are never more stations than rows |
| StationBatch.ReadWindStationsFirstError | jma_ame_nrt/cartopy_jma_temp+wind.py:86-135 | with all five columns present, a failed read raises the exception of the first table row that aborts it |
| StationBatch.Matches | jma_ame_nrt/map_tvar_station.py:51 | the row mask is true exactly where `enName` equals the station name |
| StationBatch.Filter | jma_ame_nrt/map_tvar_station.py:51 | the filtered table keeps every column and has one row per match |
| StationBatch.ColumnOrNaN | jma_ame_nrt/map_tvar_station.py:55-68 | an absent column is replaced by the one-cell list `[nan]` |
| StationBatch.SeriesRows | jma_ame_nrt/map_tvar_station.py:53-70 | at most one row per match; with a column absent at most one row, with that field's cell non-string |
| StationBatch.ReadStationSeries | jma_ame_nrt/map_tvar_station.py:41-70 | an absent `enName` is KeyError; at most one station per matching row; at most one station when a field column is absent |
| StationBatch.NonStringFieldsMissing | jma_ame_nrt/map_tvar_station.py:80-126 | a non-string temperature, wind or precipitation cell decodes to NaN in that field |
| StationBatch.ReadStationSeriesMissingColumns | jma_ame_nrt/map_tvar_station.py:55-126 | a field whose column is absent is NaN for every station read |
| StationBatch.ReadStationSeriesFilters | jma_ame_nrt/map_tvar_station.py:49-70 | with every column present, the series is the per-field read of exactly the rows of that station, one entry each |
| StationBatch.StationSeriesMain | jma_ame_nrt/map_tvar_station.py:197-209 | no station raises "sta is needed"; no time gives the all-NaN result |
| StationBatch.StationSeriesIgnoresStation | jma_ame_nrt/map_tvar_station.py:197-204 | the station given to `main` does not affect the result: `read_data` reads the module-level default station |
| StationTable.RawTokensPair | jma_ame_nrt/jmaloc/amedas.py:68-71 | `_str_rep(str(cell))` of the list `[a, b]` gives the tokens a and b |
| StationTable.Decode | jma_ame_nrt/jmaloc/amedas.py:98-103 | longitude and latitude are degrees plus minutes/60 of the cell's tokens; the other fields are copied |
| StationTable.DecodePairs | jma_ame_nrt/jmaloc/amedas.py:98-101 | cells `[d, m]` decode to d + m/60 for both coordinates |
| StationTable.DegreesMinutesPair | jma_ame_nrt/jmaloc/amedas.py:100-101 | two numeric tokens give degrees plus minutes/60 |
| StationTable.Position | jma_ame_nrt/jmaloc/amedas.py:110-120 | each column has a position of the seven-column table |
| StationTable.ConvertRow | jma_ame_nrt/jmaloc/amedas.py:97-108 | a row converts iff both coordinates decode, longitude failing first; the seven fields land in their columns |
| StationTable.Convert | jma_ame_nrt/jmaloc/amedas.py:94-108 | the table converts iff every row does; the rows stay aligned and in order |
| StationTable.ConvertFirstError | jma_ame_nrt/jmaloc/amedas.py:94-101 | a failed conversion raises the fault of the first failing row |
| StationTable.Matching | jma_ame_nrt/jmaloc/amedas.py:43-47 | the selected rows all carry the name, and none is selected exactly when no row does |
| StationTable.MatchingHead | jma_ame_nrt/jmaloc/amedas.py:47-49 | the first selected row is the first row carrying the name |
| StationTable.GetStaloc | jma_ame_nrt/jmaloc/amedas.py:40-41 | with no name given, `get_staloc` raises its message |
| StationTable.NamePriority | jma_ame_nrt/jmaloc/amedas.py:42-47 | the English name overrides the kanji name, which overrides the kana name |
| StationTable.PositionsAreCoordinates | jma_ame_nrt/jmaloc/amedas.py:49-50 | positions 4 and 5 read back by `get_staloc` are longitude and latitude |
| StationTable.StalocUnknown | jma_ame_nrt/jmaloc/amedas.py:47-49 | a name no row carries fails on `iloc[0, 4]` with IndexError |
| StationTable.StalocFound | jma_ame_nrt/jmaloc/amedas.py:47-51 | a name gives the decoded coordinates of its first row |
| CumRain.AddMeasure | jma_ame_nrt/cartopy_jma_cumrain.py:315 | the sum is NaN iff either term is, else the sum of the numbers |
| CumRain.AddArrays | jma_ame_nrt/cartopy_jma_cumrain.py:315 | numpy `+` succeeds iff the lengths agree or one side has length 1, which broadcasts |
| CumRain.Accumulate | jma_ame_nrt/cartopy_jma_cumrain.py:311-315 | one frame per step; the first frame is the first step's array |
| CumRain.AccumulateTotals | jma_ame_nrt/cartopy_jma_cumrain.py:311-315 | with aligned steps the sum never fails, and frame k holds each station's total over steps 0..k |
| CumRain.TotalMissing | jma_ame_nrt/cartopy_jma_cumrain.py:311-315 | a running total is NaN iff some step up to it was NaN for that station |
| CumRain.TotalPrefix | jma_ame_nrt/cartopy_jma_cumrain.py:311-315 | adding a later step does not change the earlier frames |
| CumRain.MismatchFails | jma_ame_nrt/cartopy_jma_cumrain.py:315 | two steps of different lengths, neither of length 1, make the sum fail |
| CumRain.Frames | jma_ame_nrt/cartopy_jma_cumrain.py:301-331 | the loop visits start, start + 1h, … up to and including end; nothing when start is after end |
| CumRain.FramesCount | jma_ame_nrt/cartopy_jma_cumrain.py:301-331 | there are (end - start) / 1h + 1 frames |
| CumRain.FramesSingle | jma_ame_nrt/cartopy_jma_cumrain.py:304-305 | equal start and end draw one frame |
| ColourScale.ColourIndex | jma_ame_nrt/utils/cbar.py:51-53 | the clamped index lies in [0, N]; with tmin = tmax the float division gives ±inf or nan, so it fails (ValueError from `int(nan)`) exactly when the value is tmin or N is 0 |
| ColourScale.ColourIndexEnds | jma_ame_nrt/utils/cbar.py:51-53 | at or below tmin the index is 0, at or above tmax it is N |
| ColourScale.EmptyRangeIndex | jma_ame_nrt/utils/cbar.py:51-53 | with tmin = tmax a value above it gets N and one below it 0, as in a proper range ending or starting there; the value tmin itself raises ValueError |
| ColourScale.ColourIndexBand | jma_ame_nrt/utils/cbar.py:51-53 | inside the range the index is the whole part of the scaled position |
| ColourScale.ColourIndexMonotone | jma_ame_nrt/utils/cbar.py:51-53 | a larger value never gets a smaller index |
| ColourScale.LazyConv | jma_ame_nrt_map/basemap_jma_temp+wind.py:24-28 | `conv` creates the colour map and computes the same clamped index |
| ColourScale.LazyColorbar | jma_ame_nrt_map/basemap_jma_temp+wind.py:30-34 | without a figure it raises "fig is needed" first; with one, reading `self.cm` before it exists raises AttributeError |
| ColourScale.ColorbarNeedsConv | jma_ame_nrt_map/basemap_jma_temp+wind.py:18-34 | `colorbar` right after construction fails; after one `conv` it works when given a figure, and still raises "fig is needed" without one |
| ColourScale.NewLevels | jma_ame_nrt/utils/cbar.py:149-155 | an empty `clevs` fails on `clevs[0]` before the length check; otherwise it succeeds iff len(clevs) = len(ccols) + 1 |
| ColourScale.NewLevelsCbar | jma_ame_nrt/utils/cbar.py:149-155 | `collevs` of utils/cbar.py constructs iff len(clevs) = len(ccols) + 1; a non-empty mismatched `clevs` raises ValueError |
| ColourScale.NewLevelsRain3h | jma_ame_nrt/cartopy_jma_rain3h.py:43-49 | the copy in cartopy_jma_rain3h.py constructs under the same condition; a non-empty mismatched `clevs` raises a bare Exception with the length message |
| ColourScale.LevelColour | jma_ame_nrt/utils/cbar.py:171-177 | `conv` fails only with UnboundLocalError, and otherwise gives `'gray'` or a colour of the table |
| ColourScale.LastBandBelow | jma_ame_nrt/utils/cbar.py:174-176 | reference: the highest band below k holding the value, or none |
| ColourScale.LevelColourSpec | jma_ame_nrt/utils/cbar.py:171-177 | `conv` gives the colour of the last matching band; without one, `'gray'` below clevs[0] and UnboundLocalError otherwise |
| ColourScale.IncreasingLevels | jma_ame_nrt/utils/cbar.py:171-177 | with increasing levels: gray below, colour n in band n, UnboundLocalError from the top level up |
| ColourScale.BandUnique | jma_ame_nrt/utils/cbar.py:174-176 | increasing levels leave at most one matching band |
| ColourScale.OverlapLastWins | jma_ame_nrt/utils/cbar.py:174-176 | with overlapping bands the later band's colour wins |
| ColourScale.RainTables | jma_ame_nrt/cartopy_jma_rain3h.py:311-317 | the 3-hour and cumulative tables construct, increase, and classify 0, 15 and 2000 mm as gray, paleturquoise and an error |
| AxisLimits.SkipExtreme | jma_ame_prev/map_jma.py:115 | pandas `min`/`max` skip NaN: the result is NaN exactly when no entry is a number, and otherwise one of the numbers, no worse than any other |
| AxisLimits.NumpyExtreme | jma_ame_nrt/map_tvar_station.py:145 | numpy `max`/`min`: an empty array raises ValueError, any NaN makes the result NaN, and otherwise it is the extreme number |
| AxisLimits.RunningMax | jma_ame_prev/map_jma.py:100 | the built-in `max` loop replaces its current item only by a larger one: a NaN current item stays, a numeric one ends as the larger of it and the largest remaining number |
| AxisLimits.BuiltinMax | jma_ame_prev/map_jma.py:100 | built-in `max`: an empty array raises ValueError; a leading NaN is the result; a leading number gives the largest number, skipping later NaNs |
| AxisLimits.BuiltinMaxNaN | jma_ame_prev/map_jma.py:100 | built-in `max` depends on order: a NaN in front makes the result NaN, a NaN at the end is ignored |
| AxisLimits.RoundedUpperBounds | jma_ame_prev/map_jma.py:102 | ceil(m - fmod(m, 10) + 50) is a multiple of 10 between m + 40 and m + 50 for m from 40 up |
| AxisLimits.PrecipUpper | jma_ame_prev/map_jma.py:100-108 | 50 from 20 mm, 30 from 10 mm, else 10 |
| AxisLimits.SnowUpper | jma_ame_prev/map_jma.py:176-185 | 150 from 40 cm, 50 from 15 cm, else 20 |
| AxisLimits.UpperLimitsCover | jma_ame_prev/map_jma.py:100-108 | for non-negative maxima both upper limits exceed the maximum and are multiples of 10 |
| AxisLimits.PrecipUpperMonotone | jma_ame_prev/map_jma.py:100-108 | a larger maximum never lowers the precipitation limit |
| AxisLimits.PrecipAxis | jma_ame_prev/map_jma.py:100-108 | fails only on an empty record; a leading NaN makes every comparison false and gives 10; a leading number gives the rule applied to the largest number |
| AxisLimits.SnowAxis | jma_ame_prev/map_jma.py:176-185 | fails only on an empty record; a leading NaN gives 20; a leading number gives the rule applied to the largest number |
| AxisLimits.AxesHoldData | jma_ame_prev/map_jma.py:100-108 | when the first entry is a number, every non-negative precipitation or snow value lies below its axis limit |
| AxisLimits.LeadingNaNClips | jma_ame_prev/map_jma.py:100-108 | when the first entry is NaN, the limits stay 10 and 20, so any value above them is drawn off the axis |
| AxisLimits.TempLimits | jma_ame_prev/map_jma.py:115 | `math.floor` or `math.ceil` of a NaN extreme raises ValueError; otherwise the floor is at least 1 below the minimum and the top at least 2 above the maximum |
| AxisLimits.TempAxis | jma_ame_prev/map_jma.py:115 | with pandas reductions it fails, with ValueError, exactly when no temperature is a number, the empty record included |
| AxisLimits.TempAxisHoldsData | jma_ame_prev/map_jma.py:115 | lower < upper, with every temperature at least 1 above the floor and 2 below the top |
| AxisLimits.StationTempAxis | jma_ame_nrt/map_tvar_station.py:156 | with numpy reductions it fails, with ValueError, exactly when the record is empty or holds a NaN |
| AxisLimits.TempAxesAgree | jma_ame_nrt/map_tvar_station.py:156 | whenever the numpy form succeeds it gives the same limits as the pandas form |
| AxisLimits.PressureAxis | jma_ame_prev/map_jma.py:199-202 | fails, with ValueError, exactly when no pressure is a number |
| AxisLimits.PressureAxisHoldsData | jma_ame_prev/map_jma.py:199-202 | every pressure lies strictly inside the axis, whatever its sign |
| AxisLimits.StationPrecipUpperBounds | jma_ame_nrt/map_tvar_station.py:145 | for a non-negative maximum m the limit lies in [m + 1, m + 12) |
| AxisLimits.StationPrecipAxis | jma_ame_nrt/map_tvar_station.py:145 | fails, with ValueError, exactly when the record is empty or holds a NaN; otherwise the limit of the largest value |
| AxisLimits.StationPrecipAxisHoldsData | jma_ame_nrt/map_tvar_station.py:145 | every entry is a number, and each non-negative one lies at least 1 below the limit |
| AxisLimits.HourIndex | jma_ame_prev/map_jma.py:66 | the x positions are 1..n |
| AxisLimits.HourIndexRange | jma_ame_prev/map_jma.py:66 | positions lie in 1..n and rise by one |
| Options.ParseTempRange | jma_ame_nrt/map_latest_cartopy.py:424-433 | succeeds iff the option is given with at least two parsable fields and a parsable third when present; tmin, tmax, then tstep or int((tmax - tmin)/10); every failure is ValueError |
| Options.TempRangeTwoFields | jma_ame_nrt/map_latest_cartopy.py:425-431 | `"a,b"` reads back as a..b with the default step |
| Options.TempRangeThreeFields | jma_ame_nrt/map_latest_cartopy.py:425-429 | `"a,b,c"` reads back as a..b with step c |
| Options.DefaultStepSign | jma_ame_nrt/map_latest_cartopy.py:431 | the default step truncates toward zero, so a reversed range gets a non-positive step |
| Options.PathJoin | jma_ame_nrt/cartopy_jma_cumrain.py:317-318 | an absolute name replaces the directory; otherwise the path ends with the name |
| Options.TempMapName | jma_ame_nrt/map_latest_cartopy.py:453-458 | the temperature map name ends with `_temp+wind_` (with barbs) or `_temp_` (without), the time and `.png` |
| Options.Rain3hName | jma_ame_nrt/cartopy_jma_rain3h.py:362-363 | the 3-hour map name ends with `_rain3h_`, the time and `.png` |
| Options.CumRainName | jma_ame_nrt/cartopy_jma_cumrain.py:317-318 | each cumulative frame name ends with `_cumrain_`, the time and `.png` |
| Options.AreaTempWindName | jma_ame_nrt_map/cartopy_jma_temp+wind.py:243-244 | the map name ends with `_temp+wind_`, the time and `.png` |
| Options.BasemapName | jma_ame_nrt_map/basemap_jma_temp+wind.py:227 | the name ends with `_`, the time and `.png`, and stays in the working directory when area and time hold no `/` |
| Options.NameLayout | jma_ame_nrt/cartopy_jma_temp+wind.py:275-280 | a slash-free area gives `dir/` + area + infix + time + `.png`, the file name being the last path component |
| Options.CumRainNamesDistinct | jma_ame_nrt/cartopy_jma_cumrain.py:317-318 | frames with different time stamps get different file names |
| Options.TempMapNamesDiffer | jma_ame_nrt/cartopy_jma_temp+wind.py:275-280 | the map with barbs and the one without get different names |
| MapRegion.EntriesDistinct | jma_ame_nrt/jmaloc/radar.py:16-204 | each name is matched by one branch only, so branch order does not matter |
| MapRegion.RegionFound | jma_ame_nrt/jmaloc/radar.py:16-204 | every listed name gets its own box |
| MapRegion.RegionUnknown | jma_ame_nrt/jmaloc/radar.py:7-13 | an unlisted name leaves all six attributes None |
| MapRegion.KantoAliases | jma_ame_nrt/jmaloc/radar.py:64-70 | Tokyo and Kanto share a box |
| MapRegion.TyugokuAliases | jma_ame_nrt/jmaloc/radar.py:142-148 | Okayama, Hiroshima and Tyugoku share a box |
| MapRegion.BoxesNonEmpty | jma_ame_nrt/jmaloc/radar.py:16-204 | every box has lon_min < lon_max and lat_min < lat_max |
| MapRegion.StepsSquare | jma_ame_nrt/jmaloc/radar.py:16-204 | longitude and latitude steps are equal and one of 0.5, 1 and 5 |
| MapRegion.JapanStep | jma_ame_nrt/jmaloc/radar.py:16-22 | the step is 5 exactly for Japan |
| MapRegion.ZoomSteps | jma_ame_nrt/jmaloc/radar.py:72-204 | the step is 0.5 exactly for Tokyo_a, Tokyo_b, Chiba and Shizuoka_a |
| MapRegion.LatitudeSpans | jma_ame_nrt/jmaloc/radar.py:24-204 | every step-1 box spans 5 degrees of latitude |
| MapRegion.LongitudeSpans | jma_ame_nrt/jmaloc/radar.py:24-204 | every step-1 box spans 7 degrees of longitude, except Nagoya, Shizuoka and Tokai at 8 |
| MapRegion.CartopyArea | jma_ame_nrt_map/cartopy_jma_temp+wind.py:142-168 | only "Japan" and "Tokyo" are drawn; any other area exits |
| MapRegion.BasemapArea | jma_ame_nrt_map/basemap_jma_temp+wind.py:123-173 | only "Japan" and "Tokyo" are drawn; any other area exits |
| MapRegion.DrawAreasAgree | jma_ame_nrt_map/basemap_jma_temp+wind.py:123-159 | both drawing scripts use the same boxes; Tokyo lies inside Japan and equals the Chiba region |
| AmeSta.StationCodesSpec | jma_ame_prev/amesta/amedas.py:23-148 | unset codes exactly for an unlisted name; a listed station's codes are well formed |
| AmeSta.StationFound | jma_ame_prev/amesta/amedas.py:29-148 | every listed station gets its own codes |
| AmeSta.StationsWellFormed | jma_ame_prev/amesta/amedas.py:29-148 | precno is the first two digits of stacode, areacode is "000", blockno is five digits starting "47" |
| AmeSta.StationsDistinct | jma_ame_prev/amesta/amedas.py:29-148 | each station name has one branch only |
| AmeSta.VariableCodeSpec | jma_ame_prev/amesta/amedas.py:166-209 | an unknown variable keeps the empty code and unit; a listed one gets its own |
| AmeSta.PrecipitationSharesSnowCode | jma_ame_prev/amesta/amedas.py:204-209 | "prep" and "snowd" share code p5 and differ in unit; no other two variables share a code |
| AmeSta.MonthlyUrl | jma_ame_prev/amesta/amedas.py:211-212 | an unlisted station fails with TypeError; otherwise the address starts with the page and the station's prefecture number and ends with the variable code |
| AmeSta.MonthlyUrlPieces | jma_ame_prev/amesta/amedas.py:211-212 | the address splits at `&` into the page with the prefecture number, `block_no=` with the block number, the three empty date fields and `view=` with the variable code |
| AmeSta.Cleanup | jma_ame_prev/amesta/amedas.py:220-226 | no `]`, `)` or `×` survives the cleanup |
| AmeSta.CleanupKeepsPlain | jma_ame_prev/amesta/amedas.py:220-226 | a cell with none of the marks' characters is unchanged |
| AmeSta.CleanupMarks | jma_ame_prev/amesta/amedas.py:222-224 | the marks `×`, `--` and `///` each become "NaN" |
| AmeSta.CleanupMark | jma_ame_prev/amesta/amedas.py:225-226 | a number followed by `]` or `)` loses the bracket |
| AmeSta.CleanupJoinsDashes | jma_ame_prev/amesta/amedas.py:223-225 | the chain does not rescan: deleting a bracket can join two dashes into a `--` that stays |
| AmeSta.CleanRow | jma_ame_prev/amesta/amedas.py:266-273 | only the first n cells of a row are cleaned, the rest kept |
| AmeSta.CleanRowRemoves | jma_ame_prev/amesta/amedas.py:314-321 | the cleaned cells are free of `]`, `)` and `×` |
| AmeSta.CompassExact | jma_ame_prev/amesta/amedas.py:323-329 | each exact name becomes its replacement: calm is "NaN", 北北東 is "22.5" and not "北45.0" |
| AmeSta.Compass | jma_ame_prev/amesta/amedas.py:323-329 | a cell of ASCII text passes the seventeen replacements unchanged |
| AmeSta.CompassAngles | jma_ame_prev/amesta/amedas.py:325-326 | each direction's replacement is the one-decimal text of its sector's angle (sector times 22.5 degrees) |
| AmeSta.TenthsAngle | jma_ame_prev/amesta/amedas.py:325-326 | the one-decimal text of any sector's angle reads back through `float` as sector times 22.5 degrees, so every replacement reads as its angle |
| AmeSta.CompassSectorsCover | jma_ame_prev/amesta/amedas.py:323-326 | the sixteen names cover the sixteen sectors once each |
| AmeSta.ShortNameFirstSplits | jma_ame_prev/amesta/amedas.py:323-324 | replacing the two-character names first would turn 北北東 into "北45.0" |
| AmeSta.SplitRecord | jma_ame_prev/amesta/amedas.py:372 | at least one piece, none holding `(` or `)` |
| AmeSta.SplitRecordPair | jma_ame_prev/amesta/amedas.py:372 | `value(date)` splits into value and date |
| AmeSta.SplitRecordJoins | jma_ame_prev/amesta/amedas.py:372 | the pieces joined with `(` give the cell without `)` |
| AmeSta.RetrieveStat | jma_ame_prev/amesta/amedas.py:368-373 | the result has the station as its only key, holding the split of row 4 (whole year) or row 3 (a month) of column 1 |
| Himawari.CheckTileSpec | jma_sat/get_jma_jp.py:82-93 | a tile is valid iff its zoom is 3 to 5, y lies on the grid and x in the eastern part of it |
| Himawari.CheckTileBounds | jma_sat/get_jma_jp.py:82-93 | a valid tile has zoom 3, 4 or 5 and 0 <= x, y <= 2^z - 1 |
| Himawari.TileNameRoundTrip | jma_sat/get_jma_jp.py:118 | the tile name splits at `/` into the three numbers, which read back |
| Himawari.BandOfSpec | jma_sat/get_jma_jp.py:58-69 | the five image types give their band and product; any other exits |
| Himawari.GetJpg | jma_sat/get_jma_jp.py:55-76 | a bad image type exits first; a missing time gives None; otherwise the address of the image |
| Himawari.TrueColourBand | jma_sat/get_jma_jp.py:64-65 | "tc" is band REP, product ETC |
| Himawari.UrlBaseHost | jma_sat/get_jma_jp.py:57 | the site address is its path pieces `https:`, the empty piece, `www.jma.go.jp`, `bosai`, `himawari`, `data` and `satimg` joined by `/`, with a trailing `/` |
| Himawari.ImageUrlPieces | jma_sat/get_jma_jp.py:73 | the address splits into host, base time, "fd", valid time, band, product and the tile's z, x and y |
| Himawari.DrawJp | jma_sat/get_jma_jp.py:99-127 | no time raises; otherwise tiles x and x + 1 are requested in order until one fails `check_tile`, which raises "invalid tile" |
| Himawari.DrawJpAddresses | jma_sat/get_jma_jp.py:117-122 | each requested tile is fetched as true colour from the address of that tile |
| Himawari.DrawJpSucceeds | jma_sat/get_jma_jp.py:99-127 | the pair is drawn iff both x and x + 1 are valid tiles |
| Himawari.DefaultPair | jma_sat/get_jma_jp.py:99 | the default tiles 27 and 28 of row 12 at zoom 5 are drawn |
| UtilsCli.GetGridloc | jma_ame_nrt/utils/__init__.py:25-33 | the first index nearest to `loc` among points closer than 360; 0 when there is none |
| UtilsCli.GifArgs | jma_ame_nrt/utils/__init__.py:72-75 | `convert -delay d`, the input files in order, then the output |
| UtilsCli.GifArgsInjective | jma_ame_nrt/utils/__init__.py:72-75 | different inputs, delay or output never give the same argument list |
| UtilsCli.Mp4Args | jma_ame_nrt/utils/__init__.py:91-96 | the fourteen fixed ffmpeg arguments, then the output |
| UtilsCli.Mp4ArgsOptions | jma_ame_nrt/utils/__init__.py:91-96 | the input rate, input pattern and output rate follow the options that name them, and the output comes last |
| UtilsCli.Mp4ArgsInjective | jma_ame_nrt/utils/__init__.py:91-96 | different values never give the same argument list |
| UtilsCli.FillDefaults | jma_ame_nrt/utils/__init__.py:155-165 | input_dir "retrieve" and fcst_time 36 only when absent; level 850 only when asked for and absent; the rest kept |
| UtilsCli.FillDefaultsComplete | jma_ame_nrt/utils/__init__.py:155-165 | after the fill the directory and hour are set, and the level when asked for; supplied values are unchanged |
| UtilsCli.FillDefaultsIdempotent | jma_ame_nrt/utils/__init__.py:155-165 | filling twice is filling once |
| UtilsCli.FillDefaultsKeepsGiven | jma_ame_nrt/utils/__init__.py:155-165 | a namespace with every option given is returned as it is |
| WindProfiler.Nans | jma_wpr/get_wpr_json.py:60-62 | `np.ones(50) * nan` is fifty NaNs |
| WindProfiler.Column | jma_wpr/get_wpr_json.py:84-87 | `df.loc[:, key]` is KeyError(key) when no record has the key; otherwise each record's value, NaN where absent |
| WindProfiler.Divide | jma_wpr/get_wpr_json.py:82-88 | succeeds iff u, v, w and height all occur; otherwise KeyError of the first missing one; columns as long as the profile |
| WindProfiler.Fill | jma_wpr/get_wpr_json.py:66-68 | a profile of at most 50 levels fills the first slots and leaves NaN above; a longer one raises ValueError |
| WindProfiler.ReadTime | jma_wpr/get_wpr_json.py:60-70 | rows of 50; a missing time, a missing key or a profile over 50 levels gives NaN rows and no heights; otherwise the profile padded with NaN |
| WindProfiler.LevelsSpec | jma_wpr/get_wpr_json.py:63-71 | a time has levels iff its profile fits, then as many as records, never more than 50 |
| WindProfiler.FilledFromRecords | jma_wpr/get_wpr_json.py:63-68 | slot i of a fitted profile holds record i's values, and NaN above the profile |
| WindProfiler.Pad | jma_wpr/get_wpr_json.py:49 | the heights written into the 50 NaN slots |
| WindProfiler.Retrieve | jma_wpr/get_wpr_json.py:54-80 | a missing time list raises TypeError; one row per time in order; zmax is the largest level count; heights come from the first time reaching it, NaN when there is none |
| WindProfiler.ReadTimes | jma_wpr/get_wpr_json.py:58-70 | one slot per time, in order |
| WindProfiler.Gather | jma_wpr/get_wpr_json.py:57-80 | the rows in order; zmax bounds every level count and is reached first by the slot whose heights fill z |
| WindProfiler.PadOver | jma_wpr/get_wpr_json.py:72-73 | writing a taller profile over the padded heights gives that profile padded |

## Left out

- Network and file I/O are not modelled: downloads, retries, caching, `read_csv`, `read_html`, JSON loading and `to_csv`. This includes jma_wpr/get_wpr_json.py:40-52. The parsed table or JSON document is a parameter instead.
- Plotting is not modelled: matplotlib, cartopy and basemap drawing, colour bars, and the whole of jma_wpr/map_wpr.py. The colour map enters `ColourScale` only as its size N, and `plt.get_cmap` is not part of this model.
- Trigonometry is a parameter: `cos` and `sin` are a `Trig` record supplied by the caller. `StationDecode.WindVectorKeepsSpeed` and `StationDecode.WindFromSouth` assume it satisfies cos² + sin² = 1 and the values at 90 degrees.
- StationDecode.WindVector: states only that both components are numbers. Their values depend on the caller-supplied trigonometry.
- Date and time handling is not modelled: `pd.to_datetime`, `strftime` and time zones. `CumRain.Frames` counts time in integer minutes, and `tinfof` stays an opaque string.
- `argparse` parsing itself is not modelled. `UtilsCli.FillDefaults` starts from the parsed namespace.
- `float()` is modelled over a decimal grammar: an optional sign, digits, an optional point and fraction, and surrounding whitespace. Exponents, `inf`, `nan` and underscores are not accepted, and there is no IEEE rounding: reals are exact.
- Wrap-around is not modelled: Python integers are unbounded, and so are the model's.
- UtilsCli.GetGridloc: NaN points are not modelled. Distances are exact reals, and a NaN in `loc_list` is never chosen by the source either.
- Numeric.FmodBounds: proved only for the divisors 10 and 5, the only ones the scripts pass to `math.fmod`.
- Numeric.FmodAgainstMod: proved only for the divisors 10 and 5, for the same reason.
- The WPR JSON document is modelled only as a map from time to a list of records with real-or-missing values. The other shapes `DataFrame(d[tinfo])` accepts are not modelled: dict of columns, scalars and nested data. `wpr_time` and `wpr_location` are I/O.
- In `WindProfiler.ReadTime`, the stale `w_i` of line 73 cannot matter. That line runs only when this time's profile has more levels than any before, which needs this time's `_divide` to have succeeded.
- pandas mechanics are not modelled: dtype inference, index alignment, transposes and `DataFrame` construction. Columns are aligned sequences of cells, and a non-string cell is the float NaN pandas gives an empty field.
- StationTable.Decode: the altitude is taken as an already parsed number. A `float(alt)` failure (jma_ame_nrt/jmaloc/amedas.py:104) is not modelled. The `dtype='unicode'` round trip of the built table is not modelled either: `get_staloc` reads the numbers back through `float`.
- The AMeDAS station table of `jmaloc/amedas.py` is a parameter. Its download and CSV cache (jma_ame_nrt/jmaloc/amedas.py:53-66) are I/O.
- `mktheta` of jma_ame_nrt/utils/__init__.py is not modelled, because it is exponentials and powers over floats. `os_mkdir`, `subprocess.run` and `os.remove` are side effects and are not modelled either.
- The command-line entry points are modelled only through their pure parts: the time loop, the option parsing and the file names.
- jma_ame_prev/data_stat.py, jma_ame_nrt/utils/common.py, jma_ame_nrt/jmaloc/__init__.py and the get_jma_json*.py downloaders are not modelled. They hold no logic beyond I/O and configuration.
- The Japan extents differ between the two tables: 20–50 N in the drawing scripts, 22.4–47.5 N in radar.py. Both are modelled as written. No containment of the regions in the Japan box is claimed, since Miyakojima reaches 22 N.
