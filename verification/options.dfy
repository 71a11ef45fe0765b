/** Command-line values the drawing scripts derive in their `__main__` blocks:
    the temperature range option of jma_ame_nrt/map_latest_cartopy.py and the
    output file names of the map scripts. */
module Options {
  import opened Base
  import opened Text
  import opened Numeric

  // ---------------------------------------------------------------------------
  // `--temprange "tmin,tmax[,tstep]"`

  /** The colour range of the temperature map and its tick step. */
  datatype TempRange = TempRange(tmin: real, tmax: real, tstep: real)

  /** The step used when the option gives none: `int((tmax - tmin) / 10.)`. */
  function DefaultStep(tmin: real, tmax: real): real
  {
    Trunc((tmax - tmin) / 10.0) as real
  }

  /** The temprange parse. Every failure inside the outer `try`, a missing
      option (`None.split`) included, surfaces as ValueError; a missing third
      field is the one IndexError caught inside, and selects the default step.
      Fields after the third are ignored. */
  function ParseTempRange(arg: Option<string>): (r: Result<TempRange>)
    ensures arg.None? ==> r == Err(ValueError)
    ensures r.Err? ==> r == Err(ValueError)
    ensures r.Ok? <==> arg.Some? && var tr := SplitOn(arg.value, ',');
      |tr| >= 2 && ParseFloat(tr[0]).Some? && ParseFloat(tr[1]).Some?
      && (|tr| >= 3 ==> ParseFloat(tr[2]).Some?)
    ensures r.Ok? ==> var tr := SplitOn(arg.value, ',');
      r.value.tmin == ParseFloat(tr[0]).value && r.value.tmax == ParseFloat(tr[1]).value
      && r.value.tstep == (if |tr| >= 3 then ParseFloat(tr[2]).value else DefaultStep(r.value.tmin, r.value.tmax))
  {
    if arg.None? then Err(ValueError)
    else
      var tr := SplitOn(arg.value, ',');
      match ParseFloat(tr[0])
      case None => Err(ValueError)
      case Some(tmin) =>
        if |tr| < 2 then Err(ValueError)
        else match ParseFloat(tr[1])
          case None => Err(ValueError)
          case Some(tmax) =>
            if |tr| < 3 then Ok(TempRange(tmin, tmax, DefaultStep(tmin, tmax)))
            else match ParseFloat(tr[2])
              case None => Err(ValueError)
              case Some(step) => Ok(TempRange(tmin, tmax, step))
  }

  /** The text of an integer never holds a comma. */
  lemma IntToStringNoComma(i: int)
    ensures ',' !in IntToString(i)
  {
    var n: nat := if i < 0 then -i else i;
    var d := NatToString(n);
    assert forall j :: 0 <= j < |d| ==> d[j] != ',' by {
      assert forall j :: 0 <= j < |d| ==> IsDigit(d[j]);
    }
    if i < 0 {
      assert IntToString(i) == "-" + d;
      assert forall j :: 1 <= j < |"-" + d| ==> ("-" + d)[j] == d[j - 1];
    }
  }

  /** `"a,b"` of two integers reads back as range a..b with the default step. */
  lemma TempRangeTwoFields(a: int, b: int)
    ensures ParseTempRange(Some(IntToString(a) + [','] + IntToString(b)))
         == Ok(TempRange(a as real, b as real, DefaultStep(a as real, b as real)))
  {
    var ps := [IntToString(a), IntToString(b)];
    IntToStringNoComma(a);
    IntToStringNoComma(b);
    assert JoinWith(ps[1..], ',') == IntToString(b);
    JoinSplitOn(ps, ',');
    ParseFloatInt(a);
    ParseFloatInt(b);
  }

  /** `"a,b,c"` of three integers reads back as range a..b with step c. */
  lemma TempRangeThreeFields(a: int, b: int, c: int)
    ensures ParseTempRange(Some(IntToString(a) + [','] + IntToString(b) + [','] + IntToString(c)))
         == Ok(TempRange(a as real, b as real, c as real))
  {
    var ps := [IntToString(a), IntToString(b), IntToString(c)];
    IntToStringNoComma(a);
    IntToStringNoComma(b);
    IntToStringNoComma(c);
    assert ps[1..][1..] == [IntToString(c)];
    assert JoinWith(ps[1..], ',') == IntToString(b) + [','] + IntToString(c);
    assert JoinWith(ps, ',') == IntToString(a) + [','] + IntToString(b) + [','] + IntToString(c);
    JoinSplitOn(ps, ',');
    ParseFloatInt(a);
    ParseFloatInt(b);
    ParseFloatInt(c);
  }

  /** The default step truncates toward zero, so a reversed range gets a
      non-positive step. */
  lemma DefaultStepSign(tmin: real, tmax: real)
    ensures tmin <= tmax ==> DefaultStep(tmin, tmax) >= 0.0
    ensures tmax < tmin ==> DefaultStep(tmin, tmax) <= 0.0
    ensures DefaultStep(0.0, 35.0) == 3.0 && DefaultStep(35.0, 0.0) == -3.0
  {
    assert Trunc(35.0 / 10.0) == 3;
    assert Trunc(-35.0 / 10.0) == -3;
  }

  // ---------------------------------------------------------------------------
  // Output file names

  /** `os.path.join(dir, name)` on POSIX: an absolute name replaces the
      directory; otherwise one `/` separates them unless the directory is
      empty or already ends with one. */
  function PathJoin(dir: string, name: string): (r: string)
    ensures |name| > 0 && name[0] == '/' ==> r == name
    ensures !(|name| > 0 && name[0] == '/') ==> |r| >= |name| && r[|r| - |name|..] == name
  {
    if |name| > 0 && name[0] == '/' then name
    else if |dir| == 0 || dir[|dir| - 1] == '/' then dir + name
    else dir + "/" + name
  }

  /** The text that `PathJoin` puts before a relative name. */
  function JoinPrefix(dir: string): string
  {
    if |dir| == 0 || dir[|dir| - 1] == '/' then dir else dir + "/"
  }

  lemma PathJoinRelative(dir: string, name: string)
    requires !(|name| > 0 && name[0] == '/')
    ensures PathJoin(dir, name) == JoinPrefix(dir) + name
  {
  }

  predicate EndsWith(s: string, suffix: string) {
    |suffix| <= |s| && s[|s| - |suffix|..] == suffix
  }

  /** Whatever the directory and the area, the joined path ends with the
      script's tag, the time stamp and `.png`. */
  lemma TagEndsPath(dir: string, area: string, tag: string)
    ensures EndsWith(PathJoin(dir, area + tag), tag)
  {
    var name := area + tag;
    var r := PathJoin(dir, name);
    assert name[|name| - |tag|..] == tag;
    if !(|name| > 0 && name[0] == '/') {
      assert r[|r| - |tag|..] == r[|r| - |name|..][|name| - |tag|..];
    }
  }

  /** The temperature map name of map_latest_cartopy.py and
      jma_ame_nrt/cartopy_jma_temp+wind.py. */
  function TempMapName(outputDir: string, area: string, tinfof: string, barbs: bool): (r: string)
    ensures EndsWith(r, (if barbs then "_temp+wind_" else "_temp_") + tinfof + ".png")
  {
    var tag := (if barbs then "_temp+wind_" else "_temp_") + tinfof + ".png";
    TagEndsPath(outputDir, area, tag);
    PathJoin(outputDir, area + tag)
  }

  /** cartopy_jma_rain3h.py. */
  function Rain3hName(outputDir: string, area: string, tinfof: string): (r: string)
    ensures EndsWith(r, "_rain3h_" + tinfof + ".png")
  {
    var tag := "_rain3h_" + tinfof + ".png";
    TagEndsPath(outputDir, area, tag);
    PathJoin(outputDir, area + tag)
  }

  /** cartopy_jma_cumrain.py, one file per hourly frame. */
  function CumRainName(outputDir: string, area: string, tinfof: string): (r: string)
    ensures EndsWith(r, "_cumrain_" + tinfof + ".png")
  {
    var tag := "_cumrain_" + tinfof + ".png";
    TagEndsPath(outputDir, area, tag);
    PathJoin(outputDir, area + tag)
  }

  /** jma_ame_nrt_map/cartopy_jma_temp+wind.py. */
  function AreaTempWindName(outputDir: string, area: string, tinfof: string): (r: string)
    ensures EndsWith(r, "_temp+wind_" + tinfof + ".png")
  {
    var tag := "_temp+wind_" + tinfof + ".png";
    TagEndsPath(outputDir, area, tag);
    PathJoin(outputDir, area + tag)
  }

  /** jma_ame_nrt_map/basemap_jma_temp+wind.py writes into the working directory. */
  function BasemapName(area: string, tinfof: string): (r: string)
    ensures EndsWith(r, "_" + tinfof + ".png")
    ensures '/' !in area + tinfof ==> '/' !in r
  {
    area + ("_" + tinfof + ".png")
  }

  /** A relative, slash-free area gives `dir/area<infix>tinfof.png`, and the
      final path component is the file name itself. */
  lemma NameLayout(outputDir: string, area: string, infix: string, tinfof: string)
    requires |area| > 0 && '/' !in area && '/' !in infix && '/' !in tinfof
    ensures var file := area + infix + tinfof + ".png";
      PathJoin(outputDir, file) == JoinPrefix(outputDir) + file && '/' !in file
  {
    var file := area + infix + tinfof + ".png";
    assert file[0] == area[0];
    assert forall j :: 0 <= j < |file| ==> file[j] != '/' by {
      forall j | 0 <= j < |file| ensures file[j] != '/' {
        if j < |area| { assert file[j] == area[j]; }
        else if j < |area| + |infix| { assert file[j] == infix[j - |area|]; }
        else if j < |area| + |infix| + |tinfof| { assert file[j] == tinfof[j - |area| - |infix|]; }
        else { assert file[j] == ".png"[j - |area| - |infix| - |tinfof|]; }
      }
    }
  }

  /** Frames of different times never overwrite each other: the name
      determines the time stamp. */
  lemma CumRainNamesDistinct(outputDir: string, area: string, t1: string, t2: string)
    requires |area| > 0 && area[0] != '/'
    requires CumRainName(outputDir, area, t1) == CumRainName(outputDir, area, t2)
    ensures t1 == t2
  {
    var n1 := area + ("_cumrain_" + t1 + ".png");
    var n2 := area + ("_cumrain_" + t2 + ".png");
    assert n1[0] == area[0] && n2[0] == area[0];
    PathJoinRelative(outputDir, n1);
    PathJoinRelative(outputDir, n2);
    var p := JoinPrefix(outputDir);
    assert n1 == (p + n1)[|p|..];
    assert n2 == (p + n2)[|p|..];
    var k := |area| + |"_cumrain_"|;
    assert |t1| == |t2|;
    assert t1 == n1[k..k + |t1|];
    assert t2 == n2[k..k + |t2|];
  }

  /** With or without wind barbs the two temperature maps get different names. */
  lemma TempMapNamesDiffer(outputDir: string, area: string, tinfof: string)
    requires |area| > 0 && area[0] != '/'
    ensures TempMapName(outputDir, area, tinfof, true) != TempMapName(outputDir, area, tinfof, false)
  {
    var n1 := area + ("_temp+wind_" + tinfof + ".png");
    var n2 := area + ("_temp_" + tinfof + ".png");
    assert n1[0] == area[0] && n2[0] == area[0];
    PathJoinRelative(outputDir, n1);
    PathJoinRelative(outputDir, n2);
    assert |n1| != |n2|;
  }
}
