/** The AMeDAS station table of jma_ame_nrt/jmaloc/amedas.py: the JSON
    station list converted to seven aligned columns, and the lookup of a
    station's position by one of its three names. */
module StationTable {
  import opened Base
  import opened Text
  import opened StationDecode

  /** A `lat`/`lon` value of the JSON table as Python holds it: a list of
      numbers (given by their `str` texts) or any other scalar. */
  datatype Raw = List(items: seq<string>) | Scalar(text: string)

  /** `", ".join(items)`. */
  function JoinCommaSpace(items: seq<string>): string
  {
    if |items| == 0 then ""
    else if |items| == 1 then items[0]
    else items[0] + ", " + JoinCommaSpace(items[1..])
  }

  /** `str(inp)`: a list prints as `[a, b, ...]`. */
  function RawText(r: Raw): string
  {
    match r
    case List(items) => "[" + JoinCommaSpace(items) + "]"
    case Scalar(t) => t
  }

  /** `_str_rep`: unlike the decoders of the map scripts, every value is
      converted with `str` first, so no value raises AttributeError. */
  function RawTokens(r: Raw): seq<string>
  {
    StrRep(RawText(r))
  }

  /** A two-number list tokenizes to its two numbers. */
  lemma RawTokensPair(a: string, b: string)
    requires PlainWord(a) && PlainWord(b)
    ensures RawTokens(List([a, b])) == [a, b]
  {
    assert JoinCommaSpace([a, b]) == a + ", " + b;
    assert RawText(List([a, b])) == PairText(a, b);
    StrRepPair(a, b);
  }

  /** One station of the JSON table: `lon`, `lat`, `alt`, its id (the
      index) and its kanji, kana and English names. */
  datatype Station = Station(lon: Raw, lat: Raw, alt: real,
                             staid: string, kjName: string, knName: string, enName: string)

  /** A station with its coordinates decoded: what the loop body works on. */
  datatype Source = Source(lon: Result<real>, lat: Result<real>, alt: real,
                           staid: string, kjName: string, knName: string, enName: string)

  /** Longitude and latitude of a station: degrees plus minutes/60 of the
      first two tokens of `_str_rep`. */
  function Decode(st: Station): (src: Source)
    ensures src.lon == DegreesMinutes(RawTokens(st.lon)) && src.lat == DegreesMinutes(RawTokens(st.lat))
    ensures src.alt == st.alt && src.staid == st.staid
    ensures src.kjName == st.kjName && src.knName == st.knName && src.enName == st.enName
  {
    Source(DegreesMinutes(RawTokens(st.lon)), DegreesMinutes(RawTokens(st.lat)), st.alt,
           st.staid, st.kjName, st.knName, st.enName)
  }

  /** A station listed as `[deg, min]` pairs of plain numbers decodes to
      degrees plus minutes/60 in both coordinates. */
  lemma DecodePairs(st: Station, lonDeg: string, lonMin: string, latDeg: string, latMin: string,
                    x: real, xm: real, y: real, ym: real)
    requires st.lon == List([lonDeg, lonMin]) && st.lat == List([latDeg, latMin])
    requires PlainWord(lonDeg) && PlainWord(lonMin) && PlainWord(latDeg) && PlainWord(latMin)
    requires ParseDecimal(lonDeg) == Some(x) && ParseDecimal(lonMin) == Some(xm)
    requires ParseDecimal(latDeg) == Some(y) && ParseDecimal(latMin) == Some(ym)
    ensures Decode(st).lon == Ok(x + xm / 60.0) && Decode(st).lat == Ok(y + ym / 60.0)
  {
    DecodePair(lonDeg, lonMin, x, xm);
    DecodePair(latDeg, latMin, y, ym);
  }

  lemma DecodePair(dt: string, mt: string, d: real, m: real)
    requires PlainWord(dt) && PlainWord(mt)
    requires ParseDecimal(dt) == Some(d) && ParseDecimal(mt) == Some(m)
    ensures DegreesMinutes(RawTokens(List([dt, mt]))) == Ok(d + m / 60.0)
  {
    RawTokensPair(dt, mt);
    DegreesMinutesPair(dt, mt, d, m);
  }

  lemma DegreesMinutesPair(dt: string, mt: string, d: real, m: real)
    requires ParseDecimal(dt) == Some(d) && ParseDecimal(mt) == Some(m)
    ensures DegreesMinutes([dt, mt]) == Ok(d + m / 60.0)
  {
  }

  /** A cell of the converted table. The frame is built with
      `dtype='unicode'`, so pandas holds the numbers as their text; `float`
      reads that text back exactly, so the number is kept here. */
  datatype Field = Text(s: string) | Number(x: real)

  type Row = seq<Field>

  /** The seven columns of the converted table. */
  datatype Column = StaId | KjName | KnName | EnName | Longitude | Latitude | Altitude

  /** The column labels. */
  function Label(c: Column): string
  {
    match c
    case StaId => "staid"
    case KjName => "kjname"
    case KnName => "knname"
    case EnName => "enname"
    case Longitude => "longitude"
    case Latitude => "latitude"
    case Altitude => "altitude"
  }

  /** The column order of the converted table. */
  const Columns: seq<Column> := [StaId, KjName, KnName, EnName, Longitude, Latitude, Altitude]

  /** The position of a column. */
  function Position(c: Column): (k: nat)
    ensures k < |Columns| && Columns[k] == c
  {
    match c
    case StaId => 0
    case KjName => 1
    case KnName => 2
    case EnName => 3
    case Longitude => 4
    case Latitude => 5
    case Altitude => 6
  }

  /** `df.loc[row, label]`. */
  function At(row: Row, c: Column): Field
    requires |row| == |Columns|
  {
    row[Position(c)]
  }

  /** One iteration of the `_convert` loop: longitude first, then latitude,
      then `float(alt)`; each column receives the station's own value. */
  function ConvertRow(src: Source): (r: Result<Row>)
    ensures r.Ok? <==> src.lon.Ok? && src.lat.Ok?
    ensures src.lon.Err? ==> r == Err(src.lon.fault)
    ensures src.lon.Ok? && src.lat.Err? ==> r == Err(src.lat.fault)
    ensures r.Ok? ==> |r.value| == |Columns|
    ensures r.Ok? ==> At(r.value, StaId) == Text(src.staid) && At(r.value, KjName) == Text(src.kjName)
    ensures r.Ok? ==> At(r.value, KnName) == Text(src.knName) && At(r.value, EnName) == Text(src.enName)
    ensures r.Ok? ==> At(r.value, Longitude) == Number(src.lon.value) && At(r.value, Latitude) == Number(src.lat.value)
    ensures r.Ok? ==> At(r.value, Altitude) == Number(src.alt)
  {
    var x :- src.lon;
    var y :- src.lat;
    Ok([Text(src.staid), Text(src.kjName), Text(src.knName), Text(src.enName),
        Number(x), Number(y), Number(src.alt)])
  }

  /** `_convert`: the loop converts the stations in order; the first station
      that fails aborts the whole conversion with its error. */
  function Convert(srcs: seq<Source>): (r: Result<seq<Row>>)
    ensures r.Ok? <==> forall i :: 0 <= i < |srcs| ==> ConvertRow(srcs[i]).Ok?
    ensures r.Ok? ==> Converted(srcs, r.value)
  {
    if |srcs| == 0 then Ok([])
    else
      var row :- ConvertRow(srcs[0]);
      var rest :- Convert(srcs[1..]);
      assert forall i :: 1 <= i < |srcs| ==> srcs[i] == srcs[1..][i - 1];
      Ok([row] + rest)
  }

  /** A failed conversion reports the error of the first station that fails. */
  lemma {:induction false} ConvertFirstError(srcs: seq<Source>, i: nat)
    requires i < |srcs| && ConvertRow(srcs[i]).Err?
    requires forall j :: 0 <= j < i ==> ConvertRow(srcs[j]).Ok?
    ensures Convert(srcs) == Err(ConvertRow(srcs[i]).fault)
  {
    if i > 0 {
      var rest := srcs[1..];
      assert forall j :: 0 <= j < i - 1 ==> rest[j] == srcs[j + 1];
      assert rest[i - 1] == srcs[i];
      ConvertFirstError(rest, i - 1);
      assert ConvertRow(srcs[0]).Ok?;
    }
  }

  // ---------------------------------------------------------------------------
  // `get_staloc`

  /** The message of the exception raised when no name is given. */
  const NoNameMessage: string := "either kn_name or kj_name or en_name is needed"

  /** The column and name `get_staloc` filters on: each given name replaces
      the filter of the ones compared before it, so en_name wins over kj_name,
      which wins over kn_name. */
  function NameFilter(kn: Option<string>, kj: Option<string>, en: Option<string>): Option<(Column, string)>
  {
    if en.Some? then Some((EnName, en.value))
    else if kj.Some? then Some((KjName, kj.value))
    else if kn.Some? then Some((KnName, kn.value))
    else None
  }

  /** `float(x)` of a table cell. */
  function FieldFloat(f: Field): Result<real>
  {
    match f
    case Number(x) => Ok(x)
    case Text(s) => if ParseFloat(s).Some? then Ok(ParseFloat(s).value) else Err(ValueError)
  }

  /** `df[df[col] == name]`: the rows whose column holds that name, in order. */
  function Matching(rows: seq<Row>, col: Column, name: string): (m: seq<Row>)
    requires forall i :: 0 <= i < |rows| ==> |rows[i]| == |Columns|
    ensures forall i :: 0 <= i < |m| ==> |m[i]| == |Columns| && At(m[i], col) == Text(name)
    ensures |m| == 0 <==> forall i :: 0 <= i < |rows| ==> At(rows[i], col) != Text(name)
  {
    if |rows| == 0 then []
    else
      var rest := Matching(rows[1..], col, name);
      assert forall i :: 1 <= i < |rows| ==> rows[i] == rows[1..][i - 1];
      if At(rows[0], col) == Text(name) then [rows[0]] + rest else rest
  }

  /** The first row of the selection is the first row holding the name. */
  lemma {:induction false} MatchingHead(rows: seq<Row>, col: Column, name: string, i: nat)
    requires forall k :: 0 <= k < |rows| ==> |rows[k]| == |Columns|
    requires i < |rows| && At(rows[i], col) == Text(name)
    requires forall j :: 0 <= j < i ==> At(rows[j], col) != Text(name)
    ensures |Matching(rows, col, name)| > 0 && Matching(rows, col, name)[0] == rows[i]
  {
    if i > 0 {
      assert forall j :: 0 <= j < i - 1 ==> rows[1..][j] == rows[j + 1];
      MatchingHead(rows[1..], col, name, i - 1);
    }
  }

  /** `get_staloc`: `float` of positions 4 and 5 of the first matching row.
      No name raises; no matching row fails on `iloc[0, ...]`. */
  function GetStaloc(rows: seq<Row>, kn: Option<string>, kj: Option<string>, en: Option<string>): (r: Result<(real, real)>)
    requires forall i :: 0 <= i < |rows| ==> |rows[i]| == |Columns|
    ensures kn.None? && kj.None? && en.None? ==> r == Err(Raised(NoNameMessage))
  {
    match NameFilter(kn, kj, en)
    case None => Err(Raised(NoNameMessage))
    case Some((col, name)) =>
      var m := Matching(rows, col, name);
      if |m| == 0 then Err(IndexError)
      else
        var lon :- FieldFloat(m[0][4]);
        var lat :- FieldFloat(m[0][5]);
        Ok((lon, lat))
  }

  /** Only the highest-priority name given matters. */
  lemma NamePriority(rows: seq<Row>, kn: Option<string>, kj: Option<string>, en: Option<string>)
    requires forall i :: 0 <= i < |rows| ==> |rows[i]| == |Columns|
    ensures en.Some? ==> GetStaloc(rows, kn, kj, en) == GetStaloc(rows, None, None, en)
    ensures en.None? && kj.Some? ==> GetStaloc(rows, kn, kj, en) == GetStaloc(rows, None, kj, None)
  {
  }

  /** Positions 4 and 5 that `get_staloc` reads are the columns named
      longitude and latitude. */
  lemma PositionsAreCoordinates()
    ensures Position(Longitude) == 4 && Position(Latitude) == 5
    ensures Label(Columns[4]) == "longitude" && Label(Columns[5]) == "latitude"
  {
  }

  /** `rows` holds the converted row of each station, in order: what a
      successful `Convert` returns. */
  predicate Converted(srcs: seq<Source>, rows: seq<Row>) {
    |rows| == |srcs| && forall i :: 0 <= i < |srcs| ==> ConvertRow(srcs[i]) == Ok(rows[i])
  }

  /** On a converted table, looking a station up by an English name no
      station has fails with IndexError. */
  lemma StalocUnknown(srcs: seq<Source>, rows: seq<Row>, name: string)
    requires Converted(srcs, rows)
    requires forall i :: 0 <= i < |srcs| ==> srcs[i].enName != name
    ensures GetStaloc(rows, None, None, Some(name)) == Err(IndexError)
  {
    assert forall i :: 0 <= i < |rows| ==> At(rows[i], EnName) != Text(name);
  }

  /** On a converted table, looking a station up by its English name gives
      the coordinates decoded for the first station of that name. */
  lemma StalocFound(srcs: seq<Source>, rows: seq<Row>, name: string, i: nat)
    requires Converted(srcs, rows)
    requires i < |srcs| && srcs[i].enName == name
    requires forall j :: 0 <= j < i ==> srcs[j].enName != name
    ensures GetStaloc(rows, None, None, Some(name)) == Ok((srcs[i].lon.value, srcs[i].lat.value))
  {
    assert forall j :: 0 <= j < i ==> At(rows[j], EnName) != Text(name);
    assert At(rows[i], EnName) == Text(name);
    MatchingHead(rows, EnName, name, i);
    assert rows[i][4] == At(rows[i], Longitude);
    assert rows[i][5] == At(rows[i], Latitude);
  }
}
