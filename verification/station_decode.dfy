/** Decoding of one AMeDAS station record, as copied into every reading script
    (jma_ame_nrt/map_latest_cartopy.py, cartopy_jma_rain3h.py,
    cartopy_jma_cumrain.py, map_tvar_station.py, both cartopy_jma_temp+wind.py
    and basemap_jma_temp+wind.py).

    A field arrives as text such as `"[139, 45]"` (degrees, minutes) or
    `"[23.4, 0]"` (value, quality flag). Delimiters are deleted, the rest is
    split on whitespace, and a value counts only when its flag token is exactly
    the string `"0"`. */
module StationDecode {
  import opened Base
  import opened Text

  /** A CSV cell as pandas hands it over: text, or a float NaN for an empty cell. */
  datatype Cell = Str(text: string) | NonString

  /** A decoded quantity; `Missing` is the NaN the scripts store. */
  datatype Measure = Value(v: real) | Missing

  /** cos, sin and pi of the numerical library, which the model does not interpret. */
  datatype Trig = Trig(cos: real -> real, sin: real -> real, pi: real)

  /** East-west and north-south wind components. */
  datatype Wind = Wind(u: Measure, v: Measure)

  /** Degrees per compass point of the direction code. */
  const DegreesPerPoint: real := 22.5

  // ---------------------------------------------------------------------------
  // The tokenizer `str_rep`

  /** `inp.replace("[", "").replace("]", "").replace(",", "")`. */
  function StripDelimiters(inp: string): string
  {
    Replace(Replace(Replace(inp, "[", ""), "]", ""), ",", "")
  }

  /** `str_rep`: delete the delimiters, then `split()`. */
  function StrRep(inp: string): seq<string>
  {
    SplitWs(StripDelimiters(inp))
  }

  lemma StripDelimitersDeletes(inp: string)
    ensures StripDelimiters(inp) == Without(Without(Without(inp, '['), ']'), ',')
  {
    ReplaceDeletes(inp, '[');
    ReplaceDeletes(Without(inp, '['), ']');
    ReplaceDeletes(Without(Without(inp, '['), ']'), ',');
  }

  /** Every token is a non-empty word free of `[`, `]`, `,` and whitespace, and
      together the tokens hold every other character of the input in order. */
  lemma StrRepTokens(inp: string)
    ensures forall k :: 0 <= k < |StrRep(inp)| ==>
      IsWord(StrRep(inp)[k]) && '[' !in StrRep(inp)[k] && ']' !in StrRep(inp)[k] && ',' !in StrRep(inp)[k]
    ensures Concat(StrRep(inp)) == WithoutSpaces(Without(Without(Without(inp, '['), ']'), ','))
  {
    var d := StripDelimiters(inp);
    StripDelimitersDeletes(inp);
    WithoutRemoves(inp, '[');
    WithoutRemoves(Without(inp, '['), ']');
    WithoutRemoves(Without(Without(inp, '['), ']'), ',');
    assert '[' !in d && ']' !in d && ',' !in d;
    SplitWsKeepsText(d);
    var r := SplitWs(d);
    forall k | 0 <= k < |r|
      ensures '[' !in r[k] && ']' !in r[k] && ',' !in r[k]
    {
      forall c | c in r[k] ensures c in d { TokenCharInText(d, k, c); }
    }
  }

  lemma TokenCharInText(d: string, k: nat, c: char)
    requires k < |SplitWs(d)| && c in SplitWs(d)[k]
    ensures c in d
  {
    var r := SplitWs(d);
    SplitWsKeepsText(d);
    ConcatHas(r, k, c);
    WithoutSpacesSub(d, c);
  }

  lemma {:induction false} ConcatHas(ts: seq<string>, k: nat, c: char)
    requires k < |ts| && c in ts[k]
    ensures c in Concat(ts)
    decreases k
  {
    if k > 0 {
      ConcatHas(ts[1..], k - 1, c);
    }
  }

  lemma {:induction false} WithoutSpacesSub(d: string, c: char)
    requires c in WithoutSpaces(d)
    ensures c in d
    decreases |d|
  {
    if c != d[0] {
      WithoutSpacesSub(d[1..], c);
    }
  }

  /** A word free of delimiters. */
  predicate PlainWord(t: string) {
    IsWord(t) && '[' !in t && ']' !in t && ',' !in t
  }

  /** The wire form `"[a, b]"` of a two-component field. */
  function PairText(a: string, b: string): string
  {
    "[" + a + ", " + b + "]"
  }

  /** `str_rep` recovers both components of `"[a, b]"`. */
  lemma StrRepPair(a: string, b: string)
    requires PlainWord(a) && PlainWord(b)
    ensures StrRep(PairText(a, b)) == [a, b]
  {
    var x := a + ", " + b;
    var p := PairText(a, b);
    assert p == ['['] + (x + [']']);
    StripDelimitersDeletes(p);
    DropLeading(x + [']'], '[');
    assert Without(p, '[') == x + [']'];
    DropTrailing(x, ']');
    assert Without(Without(p, '['), ']') == x;
    CommaToSpace(a, b);
    assert StripDelimiters(p) == a + [' '] + b;
    SplitWsAtSpace(a, ' ', b);
    SplitWsWord(a);
    SplitWsWord(b);
  }

  lemma DropLeading(x: string, c: char)
    requires c !in x
    ensures Without([c] + x, c) == x
  {
    assert ([c] + x)[1..] == x;
    WithoutAbsent(x, c);
  }

  lemma DropTrailing(x: string, c: char)
    requires c !in x
    ensures Without(x + [c], c) == x
  {
    WithoutAppend(x, [c], c);
    WithoutAbsent(x, c);
    assert Without([c], c) == "";
  }

  lemma CommaToSpace(a: string, b: string)
    requires ',' !in a && ',' !in b
    ensures Without(a + ", " + b, ',') == a + [' '] + b
  {
    WithoutAppend(a + ", ", b, ',');
    WithoutAppend(a, ", ", ',');
    WithoutAbsent(a, ',');
    WithoutAbsent(b, ',');
    assert Without(", ", ',') == " ";
  }

  /** Without a space after the comma the components are glued into one token. */
  lemma StrRepGlued(a: string, b: string)
    requires PlainWord(a) && PlainWord(b)
    ensures StrRep("[" + a + [','] + b + "]") == [a + b]
  {
    var x := a + [','] + b;
    assert "[" + a + [','] + b + "]" == "[" + (x + "]");
    StripDelimitersDeletes("[" + (x + "]"));
    DropLeading(x + "]", '[');
    DropTrailing(x, ']');
    CommaGlue(a, b);
    assert forall i :: 0 <= i < |a + b| ==> (a + b)[i] in a || (a + b)[i] in b;
    SplitWsWord(a + b);
  }

  lemma CommaGlue(a: string, b: string)
    requires ',' !in a && ',' !in b
    ensures Without(a + [','] + b, ',') == a + b
  {
    WithoutAppend(a + [','], b, ',');
    WithoutAbsent(b, ',');
    DropTrailing(a, ',');
  }

  // ---------------------------------------------------------------------------
  // Fields

  /** Coordinate tokens: `str_rep` of the cell, which must be a string. */
  function CoordinateTokens(cell: Cell): (r: Result<seq<string>>)
    ensures r.Ok? <==> cell.Str?
  {
    match cell
    case NonString => Err(AttributeError)
    case Str(s) => Ok(StrRep(s))
  }

  /** `float(t[0]) + float(t[1]) / 60.0`, evaluated left to right. */
  function DegreesMinutes(t: seq<string>): (r: Result<real>)
    ensures r.Ok? <==> |t| >= 2 && ParseDecimal(t[0]).Some? && ParseDecimal(t[1]).Some?
    ensures r.Ok? ==> r.value == ParseDecimal(t[0]).value + ParseDecimal(t[1]).value / 60.0
  {
    if |t| == 0 then Err(IndexError)
    else match ParseDecimal(t[0])
      case None => Err(ValueError)
      case Some(deg) =>
        if |t| < 2 then Err(IndexError)
        else match ParseDecimal(t[1])
          case None => Err(ValueError)
          case Some(min) => Ok(deg + min / 60.0)
  }

  /** A coordinate cell decoded to decimal degrees; no quality flag is consulted. */
  function DecodeCoordinate(cell: Cell): Result<real>
  {
    var t :- CoordinateTokens(cell);
    DegreesMinutes(t)
  }

  /** `[D, M]` with decimal components decodes to D + M/60, and any further
      tokens would be ignored. */
  lemma DecodeCoordinatePair(dt: string, mt: string, d: real, m: real)
    requires PlainWord(dt) && PlainWord(mt)
    requires ParseDecimal(dt) == Some(d) && ParseDecimal(mt) == Some(m)
    ensures DecodeCoordinate(Str(PairText(dt, mt))) == Ok(d + m / 60.0)
  {
    StrRepPair(dt, mt);
    assert CoordinateTokens(Str(PairText(dt, mt))) == Ok([dt, mt]);
    assert DegreesMinutes([dt, mt]) == Ok(d + m / 60.0);
  }

  /** Too few tokens or a non-string cell is an error, not a value. */
  lemma DecodeCoordinateFails(cell: Cell)
    requires cell.NonString? || |StrRep(cell.text)| < 2
    ensures DecodeCoordinate(cell).Err?
  {
  }

  /** The value-with-flag decode of temperature and precipitation: the value
      when the flag token is exactly `"0"`, else Missing; the value token is
      parsed only when the flag is `"0"`. */
  function DecodeFlagged(cell: Cell): (r: Result<Measure>)
    ensures cell.NonString? ==> r == Err(AttributeError)
    ensures cell.Str? && |StrRep(cell.text)| < 2 ==> r == Err(IndexError)
    ensures cell.Str? && |StrRep(cell.text)| >= 2 ==>
      var t := StrRep(cell.text);
      if t[1] != "0" then r == Ok(Missing)
      else if ParseDecimal(t[0]).None? then r == Err(ValueError)
      else r == Ok(Value(ParseDecimal(t[0]).value))
  {
    match cell
    case NonString => Err(AttributeError)    // `isdecimal` on a float
    case Str(s) =>
      var t := StrRep(s);
      if |t| < 2 then Err(IndexError)
      else if t[1] == "0" then
        (match ParseDecimal(t[0])
         case None => Err(ValueError)
         case Some(x) => Ok(Value(x)))
      else Ok(Missing)
  }

  /** The per-field policy: an exception leaves NaN for that field only. */
  function OrMissing(r: Result<Measure>): (m: Measure)
    ensures r.Err? ==> m == Missing
    ensures r.Ok? ==> m == r.value
  {
    if r.Ok? then r.value else Missing
  }

  /** A value-with-flag cell the decoder accepts with value `x`: a string
      whose second token is exactly `"0"` and whose first token reads as `x`. */
  predicate Accepted(cell: Cell, x: real) {
    cell.Str? && |StrRep(cell.text)| >= 2 && StrRep(cell.text)[1] == "0"
    && ParseDecimal(StrRep(cell.text)[0]) == Some(x)
  }

  /** The per-field decode of temperature or precipitation: a value exactly
      for the accepted cells, NaN for everything else. */
  function FlaggedField(cell: Cell): (m: Measure)
    ensures m.Value? ==> Accepted(cell, m.v)
    ensures forall x :: Accepted(cell, x) ==> m == Value(x)
  {
    OrMissing(DecodeFlagged(cell))
  }

  /** The value round trip: `"[V, Q]"` decodes to V when Q is `"0"` and to
      Missing for any other flag token (`"0.0"` and `"1"` included). */
  lemma DecodeFlaggedPair(vt: string, qt: string, x: real)
    requires PlainWord(vt) && PlainWord(qt) && ParseDecimal(vt) == Some(x)
    ensures DecodeFlagged(Str(PairText(vt, qt))) == if qt == "0" then Ok(Value(x)) else Ok(Missing)
  {
    StrRepPair(vt, qt);
  }

  /** A flag other than `"0"` never parses the value, so even a non-numeric
      value token gives Missing rather than an error. */
  lemma DecodeFlaggedIgnoresValue(vt: string, qt: string)
    requires PlainWord(vt) && PlainWord(qt) && qt != "0"
    ensures DecodeFlagged(Str(PairText(vt, qt))) == Ok(Missing)
  {
    StrRepPair(vt, qt);
  }

  /** The wind vector from a direction code (compass points) and a speed. */
  function WindVector(code: real, speed: real, trig: Trig): (w: Wind)
    ensures w.u.Value? && w.v.Value?
  {
    var deg := code * DegreesPerPoint;
    var angle := (270.0 - deg) / 180.0 * trig.pi;
    Wind(Value(speed * trig.cos(angle)), Value(speed * trig.sin(angle)))
  }

  /** Both flags must be `"0"`; any other flag makes both components Missing.
      The speed flag is not examined when the direction flag already fails. */
  function DecodeWind(wd: Cell, ws: Cell, trig: Trig): (r: Result<Wind>)
    ensures r.Ok? ==> (r.value.u.Missing? <==> r.value.v.Missing?)
    ensures wd.NonString? || ws.NonString? ==> r == Err(AttributeError)
  {
    if wd.NonString? || ws.NonString? then Err(AttributeError)
    else
      var td := StrRep(wd.text);
      var ts := StrRep(ws.text);
      if |td| < 2 then Err(IndexError)
      else if td[1] != "0" then Ok(Wind(Missing, Missing))
      else if |ts| < 2 then Err(IndexError)
      else if ts[1] != "0" then Ok(Wind(Missing, Missing))
      else match ParseDecimal(td[0])
        case None => Err(ValueError)
        case Some(code) =>
          match ParseDecimal(ts[0])
          case None => Err(ValueError)
          case Some(speed) => Ok(WindVector(code, speed, trig))
  }

  /** Both wind cells are strings with flag `"0"` and readable numbers. */
  predicate WindAccepted(wd: Cell, ws: Cell, code: real, speed: real) {
    Accepted(wd, code) && Accepted(ws, speed)
  }

  /** The per-field wind decode: a vector exactly for accepted cells, and
      otherwise both components NaN, never just one. */
  function WindField(wd: Cell, ws: Cell, trig: Trig): (w: Wind)
    ensures w.u.Missing? <==> w.v.Missing?
    ensures forall code, speed :: WindAccepted(wd, ws, code, speed) ==> w == WindVector(code, speed, trig)
    ensures w.u.Value? ==> exists code, speed :: WindAccepted(wd, ws, code, speed)
  {
    var r := DecodeWind(wd, ws, trig);
    if r.Ok? then r.value else Wind(Missing, Missing)
  }

  /** The wind round trip over wire texts: a vector exactly when both flag
      tokens are `"0"`, built from direction code × 22.5 degrees. */
  lemma DecodeWindPair(ct: string, q1: string, st: string, q2: string, code: real, speed: real, trig: Trig)
    requires PlainWord(ct) && PlainWord(q1) && PlainWord(st) && PlainWord(q2)
    requires ParseDecimal(ct) == Some(code) && ParseDecimal(st) == Some(speed)
    ensures DecodeWind(Str(PairText(ct, q1)), Str(PairText(st, q2)), trig)
         == if q1 == "0" && q2 == "0" then Ok(WindVector(code, speed, trig)) else Ok(Wind(Missing, Missing))
  {
    StrRepPair(ct, q1);
    StrRepPair(st, q2);
  }

  /** A flagged direction yields Missing whatever the speed cell holds, as
      long as it is a string: `and` never reaches the speed tokens. */
  lemma DecodeWindShortCircuit(ct: string, q1: string, ws: string, trig: Trig)
    requires PlainWord(ct) && PlainWord(q1) && q1 != "0"
    ensures DecodeWind(Str(PairText(ct, q1)), Str(ws), trig) == Ok(Wind(Missing, Missing))
  {
    StrRepPair(ct, q1);
  }

  /** With a trigonometry satisfying cos² + sin² = 1 the vector keeps the speed. */
  lemma WindVectorKeepsSpeed(code: real, speed: real, trig: Trig)
    requires forall a :: trig.cos(a) * trig.cos(a) + trig.sin(a) * trig.sin(a) == 1.0
    ensures var w := WindVector(code, speed, trig);
      w.u.v * w.u.v + w.v.v * w.v.v == speed * speed
  {
    var angle := (270.0 - code * DegreesPerPoint) / 180.0 * trig.pi;
    var c := trig.cos(angle);
    var s := trig.sin(angle);
    assert c * c + s * s == 1.0;
    calc {
      (speed * c) * (speed * c) + (speed * s) * (speed * s);
      speed * speed * (c * c + s * s);
      speed * speed;
    }
  }

  /** Direction code 8 (south, 180°) at 5 m/s: the wind blows northward. */
  lemma WindFromSouth(trig: Trig)
    requires trig.cos(90.0 / 180.0 * trig.pi) == 0.0 && trig.sin(90.0 / 180.0 * trig.pi) == 1.0
    ensures WindVector(8.0, 5.0, trig) == Wind(Value(0.0), Value(5.0))
  {
  }
}
