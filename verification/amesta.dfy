/** The AMeDAS station archive reader of jma_ame_prev/amesta/amedas.py: the
    fixed table of station codes, the variable codes of the monthly page,
    the missing-value cleanup of the scraped tables, the compass-name
    replacement of the hourly wind direction, and the split of the record
    cell of the statistics page. */
module AmeSta {
  import opened Base
  import opened Text
  import opened LookupTable

  // ---------------------------------------------------------------------------
  // Station codes (`AmedasStation.__init__`)

  /** The five codes of a station: the station number, area code, group
      code, prefecture number and WMO block number. */
  datatype Codes = Codes(stacode: string, areacode: string, groupcode: string,
                         precno: string, blockno: string)

  /** The stations of the `if sta == ...` blocks, in source order. */
  const Stations: seq<Keyed<Codes>> := [
    Keyed("Sapporo", Codes("14163", "000", "12", "14", "47412")),
    Keyed("Aomori", Codes("31312", "000", "20", "31", "47575")),
    Keyed("Akita", Codes("32402", "000", "21", "32", "47582")),
    Keyed("Sendai", Codes("34392", "000", "23", "34", "47590")),
    Keyed("Yamagata", Codes("35426", "000", "24", "35", "47588")),
    Keyed("Kumagaya", Codes("43056", "000", "29", "43", "47626")),
    Keyed("Tokyo", Codes("44132", "000", "30", "44", "47662")),
    Keyed("Yokohama", Codes("46106", "000", "32", "46", "47670")),
    Keyed("Nagoya", Codes("51106", "000", "36", "51", "47636")),
    Keyed("Niigata", Codes("54232", "000", "39", "54", "47604")),
    Keyed("Toyama", Codes("55102", "000", "40", "55", "47607")),
    Keyed("Kanazawa", Codes("56227", "000", "41", "56", "47605")),
    Keyed("Fukui", Codes("57066", "000", "42", "57", "47616")),
    Keyed("Kyoto", Codes("61286", "000", "44", "61", "47759")),
    Keyed("Osaka", Codes("62078", "000", "45", "62", "47772")),
    Keyed("Okayama", Codes("66408", "000", "49", "66", "47768")),
    Keyed("Hiroshima", Codes("67437", "000", "50", "67", "47765")),
    Keyed("Matsue", Codes("68132", "000", "51", "68", "47741")),
    Keyed("Fukuoka", Codes("82182", "000", "58", "82", "47807")),
    Keyed("Kagoshima", Codes("88317", "000", "64", "88", "47827"))
  ]

  /** The codes `AmedasStation(sta)` ends with; None stands for the five
      attributes left None. */
  function StationCodes(sta: string): Option<Codes>
  {
    Lookup(Stations, sta)
  }

  /** The shape every code of the table has: a five-digit station number
      whose first two digits are the prefecture number, area code "000",
      and a five-digit block number in the Japanese WMO block 47. */
  predicate WellFormed(c: Codes) {
    |c.stacode| == 5 && AllDigits(c.stacode)
    && c.precno == c.stacode[..2]
    && c.areacode == "000"
    && |c.blockno| == 5 && AllDigits(c.blockno) && c.blockno[..2] == "47"
  }

  lemma StationsWellFormed()
    ensures forall k :: 0 <= k < |Stations| ==> WellFormed(Stations[k].value)
  {
    StationsWellFormedFrom(0);
    StationsWellFormedFrom(5);
    StationsWellFormedFrom(10);
    StationsWellFormedFrom(15);
  }

  lemma StationsWellFormedFrom(lo: nat)
    requires lo in {0, 5, 10, 15}
    ensures forall k :: lo <= k < lo + 5 ==> WellFormed(Stations[k].value)
  {
    if lo == 0 { WellFormedChunk0(); }
    else if lo == 5 { WellFormedChunk5(); }
    else if lo == 10 { WellFormedChunk10(); }
    else { WellFormedChunk15(); }
  }

  lemma WellFormedChunk0()
    ensures forall k :: 0 <= k < 5 ==> WellFormed(Stations[k].value)
  {
  }

  lemma WellFormedChunk5()
    ensures forall k :: 5 <= k < 10 ==> WellFormed(Stations[k].value)
  {
  }

  lemma WellFormedChunk10()
    ensures forall k :: 10 <= k < 15 ==> WellFormed(Stations[k].value)
  {
  }

  lemma WellFormedChunk15()
    ensures forall k :: 15 <= k < 20 ==> WellFormed(Stations[k].value)
  {
  }

  /** The table names each station once. */
  lemma StationsDistinct()
    ensures Distinct(Stations)
  {
    StationsDistinctFrom0();
    StationsDistinctFrom2();
    StationsDistinctFrom4();
    StationsDistinctFrom9();
  }

  lemma StationsDistinctFrom0()
    ensures DistinctFrom(Stations, 0, 2)
  {
  }

  lemma StationsDistinctFrom2()
    ensures DistinctFrom(Stations, 2, 4)
  {
  }

  lemma StationsDistinctFrom4()
    ensures DistinctFrom(Stations, 4, 9)
  {
  }

  lemma StationsDistinctFrom9()
    ensures DistinctFrom(Stations, 9, 20)
  {
  }

  /** Every listed station gets its own codes. */
  lemma StationFound(j: nat)
    requires j < |Stations|
    ensures StationCodes(Stations[j].name) == Some(Stations[j].value)
  {
    StationsDistinct();
    LookupSpec(Stations, Stations[j].name);
  }

  /** Whatever the name, the codes are either all unset or well formed, and
      all unset exactly for a name the table does not list. */
  lemma StationCodesSpec(sta: string)
    ensures StationCodes(sta).None? <==> forall k :: 0 <= k < |Stations| ==> Stations[k].name != sta
    ensures StationCodes(sta).Some? ==> WellFormed(StationCodes(sta).value)
  {
    LookupSpec(Stations, sta);
    if j :| 0 <= j < |Stations| && Stations[j].name == sta {
      StationFound(j);
      StationsWellFormed();
    }
  }

  // ---------------------------------------------------------------------------
  // Variable codes (`retrieve_mon`)

  /** The `view=` code of the monthly page and the unit of the variable. */
  datatype VarCode = VarCode(vno: string, unit: string)

  const Variables: seq<Keyed<VarCode>> := [
    Keyed("tave", VarCode("a1", "C")),
    Keyed("tmax", VarCode("a2", "C")),
    Keyed("tmin", VarCode("a3", "C")),
    Keyed("wind", VarCode("a4", "m/s")),
    Keyed("slp", VarCode("a5", "hPa")),
    Keyed("ps", VarCode("a6", "hPa")),
    Keyed("RH", VarCode("a7", "%")),
    Keyed("es", VarCode("a8", "hPa")),
    Keyed("ccover", VarCode("a9", "")),
    Keyed("sr", VarCode("p2", "%")),
    Keyed("sunf", VarCode("p3", "MJ/m2")),
    Keyed("sun", VarCode("p4", "h")),
    Keyed("prep", VarCode("p5", "mm")),
    Keyed("snowd", VarCode("p5", "cm"))
  ]

  /** `vno` and `uni` start empty and every matching block assigns them. */
  function VariableCode(v: string): VarCode
  {
    match Lookup(Variables, v)
    case None => VarCode("", "")
    case Some(c) => c
  }

  lemma VariablesDistinct()
    ensures Distinct(Variables)
  {
    VariablesDistinctFrom0();
    VariablesDistinctFrom5();
  }

  lemma VariablesDistinctFrom0()
    ensures DistinctFrom(Variables, 0, 5)
  {
  }

  lemma VariablesDistinctFrom5()
    ensures DistinctFrom(Variables, 5, 14)
  {
  }

  /** An unknown variable keeps the empty code and unit; a listed one gets
      its own. */
  lemma VariableCodeSpec(v: string)
    ensures (forall k :: 0 <= k < |Variables| ==> Variables[k].name != v) ==> VariableCode(v) == VarCode("", "")
    ensures forall k :: 0 <= k < |Variables| && Variables[k].name == v ==> VariableCode(v) == Variables[k].value
  {
    VariablesDistinct();
    LookupSpec(Variables, v);
  }

  /** Precipitation and snow depth read the same page column and differ
      only in unit; every other listed variable has a code of its own. */
  lemma PrecipitationSharesSnowCode()
    ensures VariableCode("prep") == VarCode("p5", "mm")
    ensures VariableCode("snowd") == VarCode("p5", "cm")
    ensures forall i, j :: 0 <= i < j < |Variables| && Variables[i].value.vno == Variables[j].value.vno
              ==> i == 12 && j == 13
  {
    VariableCodeSpec("prep");
    VariableCodeSpec("snowd");
    assert Variables[12].name == "prep" && Variables[13].name == "snowd";
    CodesApartLow();
    CodesApartHigh();
  }

  lemma CodesApartLow()
    ensures forall i, j :: 0 <= i < 6 && i < j < |Variables| ==> Variables[i].value.vno != Variables[j].value.vno
  {
  }

  lemma CodesApartHigh()
    ensures forall i, j :: 6 <= i < j < |Variables| && Variables[i].value.vno == Variables[j].value.vno
              ==> i == 12 && j == 13
  {
  }

  // ---------------------------------------------------------------------------
  // Monthly page address (`retrieve_mon`)

  const EtrnTop: string := "http://www.data.jma.go.jp/obd/stats/etrn/view/"
  const MonthlyQuery: string := "monthly_s3.php?prec_no="

  /** The monthly page address. `str + None` raises TypeError, so a station
      the table does not list fails here, before any request. */
  function MonthlyUrl(sta: string, v: string): (r: Result<string>)
    ensures r.Err? <==> StationCodes(sta).None?
    ensures r.Err? ==> r.fault == TypeError
    ensures r.Ok? ==> var pre := EtrnTop + MonthlyQuery + StationCodes(sta).value.precno;
      |pre| <= |r.value| && r.value[..|pre|] == pre
    ensures r.Ok? ==> var post := "&view=" + VariableCode(v).vno;
      |post| <= |r.value| && r.value[|r.value| - |post|..] == post
  {
    match StationCodes(sta)
    case None => Err(TypeError)
    case Some(c) =>
      var pre := EtrnTop + MonthlyQuery + c.precno;
      var post := "&view=" + VariableCode(v).vno;
      var url := pre + ("&block_no=" + c.blockno + "&year=&month=&day=") + post;
      assert url[..|pre|] == pre;
      assert url[|url| - |post|..] == post;
      Ok(url)
  }

  /** The address splits at `&` into the page with its prefecture number,
      the block number, the three empty date fields and the variable code:
      the station and variable can be read back from it. */
  lemma MonthlyUrlPieces(sta: string, v: string)
    requires StationCodes(sta).Some?
    ensures var c := StationCodes(sta).value;
      SplitOn(MonthlyUrl(sta, v).value, '&')
        == [EtrnTop + MonthlyQuery + c.precno, "block_no=" + c.blockno,
            "year=", "month=", "day=", "view=" + VariableCode(v).vno]
  {
    var c := StationCodes(sta).value;
    StationCodesSpec(sta);
    DigitsNoAmp(c.stacode);
    DigitsNoAmp(c.blockno);
    VariableCodeNoAmp(v);
    TopNoAmp();
    QueryPieces(EtrnTop + MonthlyQuery + c.precno, c.blockno, VariableCode(v).vno);
  }

  /** The shape of the address, whatever the codes. */
  lemma QueryPieces(pre: string, block: string, vno: string)
    requires '&' !in pre && '&' !in block && '&' !in vno
    ensures SplitOn(pre + ("&block_no=" + block + "&year=&month=&day=") + ("&view=" + vno), '&')
      == [pre, "block_no=" + block, "year=", "month=", "day=", "view=" + vno]
  {
    QueryLiterals();
    QueryLayout(pre, block, vno);
    AppendNoAmp("block_no=", block);
    AppendNoAmp("view=", vno);
    SixPieces(pre, "block_no=" + block, "year=", "month=", "day=", "view=" + vno, '&');
  }

  lemma QueryLiterals()
    ensures '&' !in "year=" && '&' !in "month=" && '&' !in "day=" && '&' !in "block_no=" && '&' !in "view="
  {
  }

  /** The address as six pieces joined by `&`. */
  lemma QueryLayout(pre: string, block: string, vno: string)
    ensures pre + ("&block_no=" + block + "&year=&month=&day=") + ("&view=" + vno)
      == pre + ['&'] + (("block_no=" + block) + ['&'] + ("year=" + ['&'] + ("month=" + ['&']
         + ("day=" + ['&'] + ("view=" + vno)))))
  {
  }

  lemma AppendNoAmp(a: string, b: string)
    requires '&' !in a && '&' !in b
    ensures '&' !in a + b
  {
  }

  /** Six separator-free pieces joined by the separator split back apart. */
  lemma SixPieces(p0: string, p1: string, p2: string, p3: string, p4: string, p5: string, sep: char)
    requires sep !in p0 && sep !in p1 && sep !in p2 && sep !in p3 && sep !in p4 && sep !in p5
    ensures SplitOn(p0 + [sep] + (p1 + [sep] + (p2 + [sep] + (p3 + [sep] + (p4 + [sep] + p5)))), sep)
      == [p0, p1, p2, p3, p4, p5]
  {
    SplitOnWord(p5, sep);
    PieceCons(p4, p5, sep);
    PieceCons(p3, p4 + [sep] + p5, sep);
    PieceCons(p2, p3 + [sep] + (p4 + [sep] + p5), sep);
    PieceCons(p1, p2 + [sep] + (p3 + [sep] + (p4 + [sep] + p5)), sep);
    PieceCons(p0, p1 + [sep] + (p2 + [sep] + (p3 + [sep] + (p4 + [sep] + p5))), sep);
  }

  lemma TopNoAmp()
    ensures '&' !in EtrnTop + MonthlyQuery
  {
    var j := "http://www." + "data.jma.go.jp/" + "obd/stats/" + "etrn/view/";
    TopSpelled(j);
    assert EtrnTop == j;
    assert '&' !in "http://www.";
    assert '&' !in "data.jma.go.jp/";
    assert '&' !in "obd/stats/";
    assert '&' !in "etrn/view/";
    assert '&' !in MonthlyQuery;
  }

  /** Compared letter by letter, the page address is its four pieces. */
  lemma TopSpelled(j: string)
    requires j == "http://www." + "data.jma.go.jp/" + "obd/stats/" + "etrn/view/"
    ensures |j| == |EtrnTop| && forall i :: 0 <= i < |j| ==> EtrnTop[i] == j[i]
  {
  }

  lemma DigitsNoAmp(t: string)
    requires AllDigits(t)
    ensures '&' !in t
  {
    assert forall i :: 0 <= i < |t| ==> IsDigit(t[i]);
  }

  lemma VariableCodeNoAmp(v: string)
    ensures '&' !in VariableCode(v).vno
  {
    VariableCodeSpec(v);
    if k :| 0 <= k < |Variables| && Variables[k].name == v {
      VariableCodesShort(k);
      assert VariableCode(v).vno == Variables[k].value.vno;
    }
  }

  lemma VariableCodesShort(k: nat)
    requires k < |Variables|
    ensures |Variables[k].value.vno| == 2
    ensures Variables[k].value.vno[0] in "ap" && IsDigit(Variables[k].value.vno[1])
  {
  }

  // ---------------------------------------------------------------------------
  // Missing-value cleanup

  /** The replacement chain applied to each cleaned cell: the three missing
      marks become "NaN", then `]` and `)` are deleted. No `]`, `)` or `×`
      survives it. */
  function Cleanup(s: string): (r: string)
    ensures ']' !in r && ')' !in r && '×' !in r
  {
    var a := Replace(s, "×", "NaN");
    var b := Replace(a, "--", "NaN");
    var c := Replace(b, "///", "NaN");
    var d := Replace(c, "]", "");
    ReplaceRemovesChar(s, '×', "NaN");
    ReplaceKeepsOut(a, "--", "NaN", '×');
    ReplaceKeepsOut(b, "///", "NaN", '×');
    ReplaceKeepsOut(c, "]", "", '×');
    ReplaceKeepsOut(d, ")", "", '×');
    ReplaceRemovesChar(c, ']', "");
    ReplaceKeepsOut(d, ")", "", ']');
    ReplaceRemovesChar(d, ')', "");
    Replace(d, ")", "")
  }

  /** A cell with none of the marks' characters passes unchanged. */
  lemma CleanupKeepsPlain(s: string)
    requires '×' !in s && '-' !in s && '/' !in s && ']' !in s && ')' !in s
    ensures Cleanup(s) == s
  {
    ReplaceLeadAbsent(s, "×", "NaN");
    ReplaceLeadAbsent(s, "--", "NaN");
    ReplaceLeadAbsent(s, "///", "NaN");
    ReplaceLeadAbsent(s, "]", "");
    ReplaceLeadAbsent(s, ")", "");
  }

  /** A pattern whose first character is absent does not occur. */
  lemma ReplaceLeadAbsent(s: string, pat: string, rep: string)
    requires |pat| > 0 && pat[0] !in s
    ensures Replace(s, pat, rep) == s
  {
    forall k | 0 <= k <= |s| - |pat|
      ensures !OccursAt(s, pat, k)
    {
      assert s[k..k + |pat|][0] == s[k];
    }
    ReplaceAbsent(s, pat, rep);
  }

  /** "NaN" passes every later step of the chain unchanged. */
  lemma NaNStays()
    ensures Replace("NaN", "--", "NaN") == "NaN" && Replace("NaN", "///", "NaN") == "NaN"
    ensures Replace("NaN", "]", "") == "NaN" && Replace("NaN", ")", "") == "NaN"
  {
    ReplaceLeadAbsent("NaN", "--", "NaN");
    ReplaceLeadAbsent("NaN", "///", "NaN");
    ReplaceLeadAbsent("NaN", "]", "");
    ReplaceLeadAbsent("NaN", ")", "");
  }

  /** Each of the three missing-value marks the page uses reads "NaN". */
  lemma CleanupMarks()
    ensures Cleanup("×") == "NaN" && Cleanup("--") == "NaN" && Cleanup("///") == "NaN"
  {
    NaNStays();
    ReplaceWhole("×", "NaN");
    ReplaceLeadAbsent("--", "×", "NaN");
    ReplaceWhole("--", "NaN");
    ReplaceLeadAbsent("///", "×", "NaN");
    ReplaceLeadAbsent("///", "--", "NaN");
    ReplaceWhole("///", "NaN");
  }

  /** A number followed by a closing bracket loses the bracket. */
  lemma CleanupMark(t: string, c: char)
    requires c == ']' || c == ')'
    requires '×' !in t && '-' !in t && '/' !in t && ']' !in t && ')' !in t
    ensures Cleanup(t + [c]) == t
  {
    var s := t + [c];
    ReplaceLeadAbsent(s, "×", "NaN");
    ReplaceLeadAbsent(s, "--", "NaN");
    ReplaceLeadAbsent(s, "///", "NaN");
    ReplaceDeletes(s, c);
    WithoutAppend(t, [c], c);
    WithoutAbsent(t, c);
    var other := if c == ']' then ')' else ']';
    ReplaceLeadAbsent(t, [other], "");
    assert Without([c], c) == [];
    if c == ']' {
      assert Replace(s, "]", "") == t;
    } else {
      ReplaceLeadAbsent(s, "]", "");
      assert Replace(s, ")", "") == t;
    }
  }

  /** The replacements do not rescan their own output: deleting a bracket
      can join two dashes into a "--" that stays. */
  lemma CleanupJoinsDashes()
    ensures Cleanup("-]-") == "--"
  {
    ReplaceLeadAbsent("-]-", "×", "NaN");
    ReplaceLeadAbsent("-]-", "///", "NaN");
    ReplaceDeletes("-]-", ']');
    ReplaceLeadAbsent("--", ")", "");
  }

  /** The cleanup of one table row: only the first `n` cells are cleaned
      (`range(num_cols - 5)` for the daily page, `range(num_cols - 1)` for the
      hourly one, every column for the monthly one); a negative count cleans
      nothing. */
  function CleanRow(row: seq<string>, n: int): (r: seq<string>)
    ensures |r| == |row|
    ensures forall i :: 0 <= i < |row| && i < n ==> r[i] == Cleanup(row[i])
    ensures forall i :: 0 <= i < |row| && i >= n ==> r[i] == row[i]
  {
    seq(|row|, i requires 0 <= i < |row| => if i < n then Cleanup(row[i]) else row[i])
  }

  /** The cleaned columns are free of `]`, `)` and `×`. */
  lemma CleanRowRemoves(row: seq<string>, n: int)
    ensures forall i :: 0 <= i < |row| && i < n ==>
      ']' !in CleanRow(row, n)[i] && ')' !in CleanRow(row, n)[i] && '×' !in CleanRow(row, n)[i]
  {
  }

  // ---------------------------------------------------------------------------
  // Compass names of the hourly wind direction

  /** `list_org`: calm first, then the three-character names, the
      two-character ones and the single characters. */
  const CompassNames: seq<string> := [
    "静穏", "北北東", "東北東", "東南東", "南南東", "南南西", "西南西",
    "西北西", "北北西", "北東", "南東", "南西", "北西", "北", "東", "南", "西"]

  /** `list_new`: the replacement of each name. */
  const CompassValues: seq<string> := [
    "NaN", "22.5", "67.5", "112.5", "157.5", "202.5", "247.5",
    "292.5", "337.5", "45.0", "135.0", "225.0", "315.0", "0.0", "90.0", "180.0", "270.0"]

  /** The sector of each direction name, clockwise from north in steps of
      22.5 degrees (the calm entry has none). */
  const CompassSectors: seq<nat> := [0, 1, 3, 5, 7, 9, 11, 13, 15, 2, 6, 10, 14, 0, 4, 8, 12]

  /** The replacements applied in list order, from position `k` on. */
  function ReplaceFrom(s: string, names: seq<string>, values: seq<string>, k: nat): string
    requires |names| == |values| && k <= |names|
    decreases |names| - k
  {
    if k == |names| then s else ReplaceFrom(Replace(s, names[k], values[k]), names, values, k + 1)
  }

  /** The wind-direction column after the seventeen replacements. Every name
      starts with a non-ASCII character, so a cell of ASCII text (an angle
      already, "NaN", a number) passes unchanged. */
  function Compass(s: string): (r: string)
    ensures Ascii(s) ==> r == s
  {
    CompassKeepsAscii(s);
    ReplaceFrom(s, CompassNames, CompassValues, 0)
  }

  lemma CompassKeepsAscii(s: string)
    ensures Ascii(s) ==> ReplaceFrom(s, CompassNames, CompassValues, 0) == s
  {
    if Ascii(s) {
      CompassTable();
      forall j | 0 <= j < |CompassNames|
        ensures |CompassNames[j]| > 0 && CompassNames[j][0] !in s
      {
        assert CompassNames[j][0] as int >= 128;
      }
      ReplaceFromMiss(s, CompassNames, CompassValues, 0);
    }
  }

  /** A pattern longer than the text, or as long but different, leaves it. */
  lemma ReplaceNoFit(s: string, pat: string, rep: string)
    requires |pat| > 0 && (|pat| > |s| || (|pat| == |s| && pat != s))
    ensures Replace(s, pat, rep) == s
  {
    if |pat| == |s| {
      assert s[..|pat|] == s;
      ReplaceShort(s[1..], pat, rep);
      assert s == [s[0]] + s[1..];
    }
  }

  /** A pattern that is the whole text becomes the replacement. */
  lemma ReplaceWhole(s: string, rep: string)
    requires |s| > 0
    ensures Replace(s, s, rep) == rep
  {
    assert s[..|s|] == s;
    assert s[|s|..] == [];
  }

  /** The reference for one name: if no earlier pattern changes it, it
      is replaced whole, and if no later pattern starts with a character of
      the replacement, nothing touches the result again. */
  lemma {:induction false} ReplaceFromHit(s: string, names: seq<string>, values: seq<string>, k: nat, i: nat)
    requires |names| == |values| && k <= i < |names| && names[i] == s && |s| > 0
    requires forall j :: k <= j < i ==> Replace(s, names[j], values[j]) == s
    requires forall j :: i < j < |names| ==> |names[j]| > 0 && names[j][0] !in values[i]
    ensures ReplaceFrom(s, names, values, k) == values[i]
    decreases i - k
  {
    if k < i {
      ReplaceFromHit(s, names, values, k + 1, i);
    } else {
      ReplaceWhole(s, values[i]);
      ReplaceFromMiss(values[i], names, values, i + 1);
    }
  }

  /** Patterns whose first character is absent leave the text alone. */
  lemma {:induction false} ReplaceFromMiss(s: string, names: seq<string>, values: seq<string>, k: nat)
    requires |names| == |values| && k <= |names|
    requires forall j :: k <= j < |names| ==> |names[j]| > 0 && names[j][0] !in s
    ensures ReplaceFrom(s, names, values, k) == s
    decreases |names| - k
  {
    if k < |names| {
      ReplaceLeadAbsent(s, names[k], values[k]);
      ReplaceFromMiss(s, names, values, k + 1);
    }
  }

  /** The replacements hold only ASCII digits, '.', 'N' and 'a'. */
  predicate Ascii(t: string) {
    forall c :: c in t ==> c as int < 128
  }

  lemma CompassTable()
    ensures |CompassNames| == |CompassValues| == |CompassSectors| == 17
    ensures forall j :: 0 <= j < 17 ==> |CompassNames[j]| > 0 && CompassNames[j][0] as int >= 128
    ensures forall j :: 0 <= j < 17 ==> Ascii(CompassValues[j])
    ensures forall j :: 0 <= j < 17 ==> |CompassNames[j]| == (if j == 0 then 2 else if j < 9 then 3 else if j < 13 then 2 else 1)
  {
  }

  /** No earlier name occurs inside a later one: calm shares no character
      with a direction, and the other names come longest first. */
  lemma EarlierLeaves(i: nat, j: nat)
    requires j < i < 17
    ensures Replace(CompassNames[i], CompassNames[j], CompassValues[j]) == CompassNames[i]
  {
    CompassTable();
    if j == 0 {
      CalmApart(i);
      ReplaceLeadAbsent(CompassNames[i], CompassNames[0], CompassValues[0]);
    } else {
      CompassNamesDistinct(j, i);
      ReplaceNoFit(CompassNames[i], CompassNames[j], CompassValues[j]);
    }
  }

  lemma CalmApart(i: nat)
    requires 0 < i < 17
    ensures '静' !in CompassNames[i]
  {
  }

  lemma CompassNamesDistinct(j: nat, i: nat)
    requires j < i < 17
    ensures CompassNames[j] != CompassNames[i]
  {
    CompassDistinctChunk();
  }

  lemma CompassDistinctChunk()
    ensures forall j, i :: 0 <= j < i < 17 ==> CompassNames[j] != CompassNames[i]
  {
  }

  /** Each exact name becomes its own replacement: calm becomes "NaN" and a
      direction its angle; 北北東 becomes "22.5", not "北45.0". */
  lemma CompassExact(i: nat)
    requires i < 17
    ensures Compass(CompassNames[i]) == CompassValues[i]
  {
    CompassTable();
    var s := CompassNames[i];
    forall j | 0 <= j < i
      ensures Replace(s, CompassNames[j], CompassValues[j]) == s
    {
      EarlierLeaves(i, j);
    }
    forall j | i < j < 17
      ensures |CompassNames[j]| > 0 && CompassNames[j][0] !in CompassValues[i]
    {
      assert Ascii(CompassValues[i]);
    }
    ReplaceFromHit(s, CompassNames, CompassValues, 0, i);
  }

  /** `str(x)` for a non-negative multiple `x` of 0.1 given as `n` tenths:
      the whole part, a point and the tenths digit. */
  function Tenths(n: nat): string
  {
    NatToString(n / 10) + "." + [DigitChar(n % 10)]
  }

  /** `float` reads the text back as the number of tenths it was made from. */
  lemma TenthsValue(n: nat)
    ensures ParseDecimal(Tenths(n)) == Some(n as real / 10.0)
  {
    var ip := NatToString(n / 10);
    var f := DigitChar(n % 10);
    NatToStringValue(n / 10);
    assert IsDigit(f) && DigitValue(f) == n % 10;
    DecimalText(ip, f);
    assert (n / 10) as real + (n % 10) as real / 10.0 == n as real / 10.0;
  }

  /** Each direction's replacement is the angle of its sector, 22.5 degrees
      apart, written with one decimal place. */
  lemma CompassTenths(i: nat)
    requires 1 <= i < 17
    ensures CompassValues[i] == Tenths(CompassSectors[i] * 225)
  {
    if i < 5 { Tenths1(i); } else if i < 9 { Tenths5(i); } else if i < 13 { Tenths9(i); } else { Tenths13(i); }
  }

  lemma Tenths1(i: nat)
    requires 1 <= i < 5
    ensures CompassValues[i] == Tenths(CompassSectors[i] * 225)
  {
    assert Tenths(225) == "22.5";
    assert Tenths(675) == "67.5";
    assert Tenths(1125) == "112.5";
    assert Tenths(1575) == "157.5";
  }

  lemma Tenths5(i: nat)
    requires 5 <= i < 9
    ensures CompassValues[i] == Tenths(CompassSectors[i] * 225)
  {
    assert Tenths(2025) == "202.5";
    assert Tenths(2475) == "247.5";
    assert Tenths(2925) == "292.5";
    assert Tenths(3375) == "337.5";
  }

  lemma Tenths9(i: nat)
    requires 9 <= i < 13
    ensures CompassValues[i] == Tenths(CompassSectors[i] * 225)
  {
    assert Tenths(450) == "45.0";
    assert Tenths(1350) == "135.0";
    assert Tenths(2250) == "225.0";
    assert Tenths(3150) == "315.0";
  }

  lemma Tenths13(i: nat)
    requires 13 <= i < 17
    ensures CompassValues[i] == Tenths(CompassSectors[i] * 225)
  {
    assert Tenths(0) == "0.0";
    assert Tenths(900) == "90.0";
    assert Tenths(1800) == "180.0";
    assert Tenths(2700) == "270.0";
  }

  /** The replacement of a direction is the one-decimal text of its angle,
      which `TenthsAngle` reads back as sector times 22.5 degrees. */
  lemma CompassAngles()
    ensures forall i :: 1 <= i < 17 ==> CompassValues[i] == Tenths(CompassSectors[i] * 225)
  {
    forall i | 1 <= i < 17
      ensures CompassValues[i] == Tenths(CompassSectors[i] * 225)
    {
      CompassTenths(i);
    }
  }

  /** The one-decimal text of a sector's angle reads back through `float`
      as the sector times 22.5 degrees. */
  lemma TenthsAngle(v: string, sector: nat)
    requires v == Tenths(sector * 225)
    ensures ParseDecimal(v) == Some(sector as real * 22.5)
  {
    var n := sector * 225;
    TenthsValue(n);
    var x := n as real / 10.0;
    assert ParseDecimal(v) == Some(x);
    SectorDegrees(sector, n);
    assert x == sector as real * 22.5;
  }

  lemma SectorDegrees(sector: nat, n: nat)
    requires n == sector * 225
    ensures n as real / 10.0 == sector as real * 22.5
  {
  }

  /** One decimal place. */
  lemma DecimalText(ip: string, f: char)
    requires |ip| > 0 && AllDigits(ip) && IsDigit(f)
    ensures ParseDecimal(ip + "." + [f]) == Some(DigitsValue(ip) as real + DigitValue(f) as real / 10.0)
  {
    ParseDecimalFixed(ip, [f]);
    OnePlace(ip, f);
  }

  lemma OnePlace(ip: string, f: char)
    requires |ip| > 0 && AllDigits(ip) && IsDigit(f)
    ensures FixedPoint(ip, [f]) == Some(DigitsValue(ip) as real + DigitValue(f) as real / 10.0)
  {
    OneDigit(f);
    assert Pow10(1) == 10;
  }

  lemma OneDigit(f: char)
    requires IsDigit(f)
    ensures DigitsValue([f]) == DigitValue(f)
  {
    assert [f][..0] == [];
  }

  /** The sixteen direction names cover the sixteen sectors once each. */
  lemma CompassSectorsCover()
    ensures forall k: nat :: k < 16 ==> k in CompassSectors[1..]
    ensures forall i, j :: 1 <= i < j < 17 ==> CompassSectors[i] != CompassSectors[j]
  {
    assert CompassSectors[13] == 0 && CompassSectors[1] == 1 && CompassSectors[9] == 2;
    assert CompassSectors[2] == 3 && CompassSectors[14] == 4 && CompassSectors[3] == 5;
    assert CompassSectors[10] == 6 && CompassSectors[4] == 7 && CompassSectors[15] == 8;
    assert CompassSectors[5] == 9 && CompassSectors[11] == 10 && CompassSectors[6] == 11;
    assert CompassSectors[16] == 12 && CompassSectors[7] == 13 && CompassSectors[12] == 14;
    assert CompassSectors[8] == 15;
  }

  /** The order matters: replacing the two-character names first would turn
      北北東 into "北45.0". */
  lemma ShortNameFirstSplits()
    ensures Replace("北北東", "北東", "45.0") == "北45.0"
  {
    var s := "北北東";
    assert s[..2][1] != "北東"[1];
    assert s[1..][..2] == "北東";
    assert s[1..][2..] == [];
  }

  // ---------------------------------------------------------------------------
  // The record cell of the statistics page (`retrieve_stat`)

  /** `work.replace(")", "").split("(")`. */
  function SplitRecord(work: string): (r: seq<string>)
    ensures |r| >= 1
    ensures forall k :: 0 <= k < |r| ==> ')' !in r[k] && '(' !in r[k]
  {
    var t := Replace(work, ")", "");
    ReplaceRemovesChar(work, ')', "");
    SplitOnKeeps(t, '(', ')');
    SplitOn(t, '(')
  }

  /** A value followed by its date in brackets splits into the two. */
  lemma SplitRecordPair(v: string, d: string)
    requires '(' !in v && ')' !in v && '(' !in d && ')' !in d
    ensures SplitRecord(v + "(" + d + ")") == [v, d]
  {
    var w := v + "(" + d + ")";
    ReplaceDeletes(w, ')');
    WithoutAppend(v + "(" + d, ")", ')');
    WithoutAppend(v + "(", d, ')');
    WithoutAppend(v, "(", ')');
    WithoutAbsent(v, ')');
    WithoutAbsent(d, ')');
    assert Without("(", ')') == "(";
    assert Without(")", ')') == "";
    assert Replace(w, ")", "") == v + "(" + d;
    JoinSplitOn([v, d], '(');
    assert JoinWith([v, d], '(') == v + "(" + d by {
      JoinCons2(v, d, '(');
    }
  }

  lemma JoinCons2(a: string, b: string, sep: char)
    ensures JoinWith([a, b], sep) == a + [sep] + b
  {
    assert [a, b][1..] == [b];
  }

  /** The pieces joined back with "(" give the cell without ")". */
  lemma SplitRecordJoins(work: string)
    ensures JoinWith(SplitRecord(work), '(') == Replace(work, ")", "")
  {
    SplitOnJoin(Replace(work, ")", ""), '(');
  }

  /** The pieces of a split never contain a character absent from the text. */
  lemma SplitOnKeeps(t: string, sep: char, c: char)
    requires c !in t
    ensures forall k :: 0 <= k < |SplitOn(t, sep)| ==> c !in SplitOn(t, sep)[k]
  {
    SplitOnJoin(t, sep);
    var ps := SplitOn(t, sep);
    forall k | 0 <= k < |ps| ensures c !in ps[k] {
      if c in ps[k] {
        JoinHasPiece(ps, sep, k, c);
      }
    }
  }

  lemma {:induction false} JoinHasPiece(ps: seq<string>, sep: char, k: nat, c: char)
    requires k < |ps| && c in ps[k]
    ensures c in JoinWith(ps, sep)
    decreases |ps|
  {
    if k == 0 {
      JoinStartsWith(ps, sep);
    } else {
      JoinHasPiece(ps[1..], sep, k - 1, c);
      JoinTail(ps, sep);
    }
  }

  lemma JoinStartsWith(ps: seq<string>, sep: char)
    requires |ps| > 0
    ensures |ps[0]| <= |JoinWith(ps, sep)| && JoinWith(ps, sep)[..|ps[0]|] == ps[0]
  {
  }

  lemma JoinTail(ps: seq<string>, sep: char)
    requires |ps| > 1
    ensures JoinWith(ps, sep) == ps[0] + [sep] + JoinWith(ps[1..], sep)
  {
  }

  /** `retrieve_stat`: row 4 of column 1 for the whole year, row 3 for a
      month; a page without that cell fails on `iloc`. The result is keyed by
      the station name alone. */
  function RetrieveStat(sta: string, month: Option<int>, page: seq<seq<string>>): (r: Result<map<string, seq<string>>>)
    ensures r.Ok? ==> r.value.Keys == {sta}
    ensures var row := if month.None? then 4 else 3;
      r.Ok? <==> row < |page| && 1 < |page[row]|
    ensures r.Ok? ==> r.value[sta] == SplitRecord(page[if month.None? then 4 else 3][1])
  {
    var row := if month.None? then 4 else 3;
    if row < |page| && 1 < |page[row]| then Ok(map[sta := SplitRecord(page[row][1])])
    else Err(IndexError)
  }
}
