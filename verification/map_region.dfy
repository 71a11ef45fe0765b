/** Map extents: the `MapRegion` table of jma_ame_nrt/jmaloc/radar.py (one box
    per radar-nowcast region, looked up by name) and the two areas the
    jma_ame_nrt_map scripts can draw. */
module MapRegion {
  import opened Base
  import opened LookupTable

  /** Grid-line steps and the bounding box, in degrees. */
  datatype Box = Box(lonStep: real, lonMin: real, lonMax: real,
                     latStep: real, latMin: real, latMax: real)

  /** The boxes of the `if` blocks of `MapRegion.__init__`, in source order. */
  const JapanBox := Box(5.0, 120.0, 150.0, 5.0, 22.4, 47.5)
  const RumoiBox := Box(1.0, 139.0, 146.0, 1.0, 41.0, 46.0)
  const AbashiriBox := Box(1.0, 141.0, 148.0, 1.0, 41.0, 46.0)
  const SapporoBox := Box(1.0, 138.0, 145.0, 1.0, 40.0, 45.0)
  const TohokuNorthBox := Box(1.0, 138.0, 145.0, 1.0, 37.0, 42.0)
  const TohokuSouthBox := Box(1.0, 137.0, 144.0, 1.0, 35.0, 40.0)
  const KantoBox := Box(1.0, 136.0, 143.0, 1.0, 33.0, 38.0)
  const TokyoABox := Box(0.5, 138.2, 141.2, 0.5, 33.8, 36.8)
  const TokyoBBox := Box(0.5, 138.7, 140.7, 0.5, 34.4, 36.4)
  const ChibaBox := Box(0.5, 139.2, 141.2, 0.5, 34.8, 36.8)
  const KousinBox := Box(1.0, 135.0, 142.0, 1.0, 34.0, 39.0)
  const NiigataBox := Box(1.0, 135.0, 142.0, 1.0, 35.0, 40.0)
  const HokurikuWestBox := Box(1.0, 134.0, 141.0, 1.0, 34.0, 39.0)
  const TokaiBox := Box(1.0, 135.0, 143.0, 1.0, 32.0, 37.0)
  const ShizuokaABox := Box(0.5, 137.0, 140.0, 0.5, 34.0, 37.0)
  const KinkiBox := Box(1.0, 132.0, 139.0, 1.0, 32.0, 37.0)
  const TyugokuBox := Box(1.0, 130.0, 137.0, 1.0, 33.0, 38.0)
  const ShikokuBox := Box(1.0, 130.0, 137.0, 1.0, 31.0, 36.0)
  const KyushuNorthBox := Box(1.0, 127.0, 134.0, 1.0, 31.0, 36.0)
  const KyushuSouthBox := Box(1.0, 127.0, 134.0, 1.0, 29.0, 34.0)
  const AmamiBox := Box(1.0, 126.0, 133.0, 1.0, 26.0, 31.0)
  const OkinawaBox := Box(1.0, 124.0, 131.0, 1.0, 24.0, 29.0)
  const DaitojimaBox := Box(1.0, 126.0, 133.0, 1.0, 24.0, 29.0)
  const MiyakojimaBox := Box(1.0, 121.0, 128.0, 1.0, 22.0, 27.0)

  type Entry = Keyed<Box>

  /** The names in the order the blocks compare them. */
  const Entries: seq<Entry> := [
    Keyed("Japan", JapanBox),
    Keyed("Rumoi", RumoiBox),
    Keyed("Abashiri", AbashiriBox),
    Keyed("Sapporo", SapporoBox),
    Keyed("Akita", TohokuNorthBox),
    Keyed("Morioka", TohokuNorthBox),
    Keyed("Tohoku_n", TohokuNorthBox),
    Keyed("Sendai", TohokuSouthBox),
    Keyed("Fukushima", TohokuSouthBox),
    Keyed("Yamagata", TohokuSouthBox),
    Keyed("Tohoku_s", TohokuSouthBox),
    Keyed("Tokyo", KantoBox),
    Keyed("Kanto", KantoBox),
    Keyed("Tokyo_a", TokyoABox),
    Keyed("Tokyo_b", TokyoBBox),
    Keyed("Chiba", ChibaBox),
    Keyed("Kofu", KousinBox),
    Keyed("Kousin", KousinBox),
    Keyed("Niigata", NiigataBox),
    Keyed("Kanazawa", HokurikuWestBox),
    Keyed("Fukui", HokurikuWestBox),
    Keyed("Toyama", HokurikuWestBox),
    Keyed("Nagoya", TokaiBox),
    Keyed("Shizuoka", TokaiBox),
    Keyed("Tokai", TokaiBox),
    Keyed("Shizuoka_a", ShizuokaABox),
    Keyed("Osaka", KinkiBox),
    Keyed("Kinki", KinkiBox),
    Keyed("Okayama", TyugokuBox),
    Keyed("Hiroshima", TyugokuBox),
    Keyed("Tyugoku", TyugokuBox),
    Keyed("Kochi", ShikokuBox),
    Keyed("Shikoku", ShikokuBox),
    Keyed("Fukuoka", KyushuNorthBox),
    Keyed("Kagoshima", KyushuSouthBox),
    Keyed("Naze", AmamiBox),
    Keyed("Amami", AmamiBox),
    Keyed("Naha", OkinawaBox),
    Keyed("Okinawa", OkinawaBox),
    Keyed("Daitojima", DaitojimaBox),
    Keyed("Miyakojima", MiyakojimaBox)
  ]

  /** `MapRegion(sta)`: the six attributes start as None and every matching
      block assigns them. */
  function Region(sta: string): Option<Box>
  {
    Lookup(Entries, sta)
  }

  /** The table of radar.py names each region once. */
  lemma EntriesDistinct()
    ensures Distinct(Entries)
  {
    DistinctFrom0();
    DistinctFrom1();
    DistinctFrom2();
    DistinctFrom4();
    DistinctFrom6();
    DistinctFrom8();
    DistinctFrom10();
    DistinctFrom12();
    DistinctFrom14();
    DistinctFrom16();
    DistinctFrom19();
    DistinctFrom22();
    DistinctFrom26();
    DistinctFrom30();
    DistinctFrom35();
  }

  lemma DistinctFrom0()
    ensures DistinctFrom(Entries, 0, 1)
  {
  }

  lemma DistinctFrom1()
    ensures DistinctFrom(Entries, 1, 2)
  {
  }

  lemma DistinctFrom2()
    ensures DistinctFrom(Entries, 2, 4)
  {
  }

  lemma DistinctFrom4()
    ensures DistinctFrom(Entries, 4, 6)
  {
  }

  lemma DistinctFrom6()
    ensures DistinctFrom(Entries, 6, 8)
  {
  }

  lemma DistinctFrom8()
    ensures DistinctFrom(Entries, 8, 10)
  {
  }

  lemma DistinctFrom10()
    ensures DistinctFrom(Entries, 10, 12)
  {
  }

  lemma DistinctFrom12()
    ensures DistinctFrom(Entries, 12, 14)
  {
  }

  lemma DistinctFrom14()
    ensures DistinctFrom(Entries, 14, 16)
  {
  }

  lemma DistinctFrom16()
    ensures DistinctFrom(Entries, 16, 19)
  {
  }

  lemma DistinctFrom19()
    ensures DistinctFrom(Entries, 19, 22)
  {
  }

  lemma DistinctFrom22()
    ensures DistinctFrom(Entries, 22, 26)
  {
  }

  lemma DistinctFrom26()
    ensures DistinctFrom(Entries, 26, 30)
  {
  }

  lemma DistinctFrom30()
    ensures DistinctFrom(Entries, 30, 35)
  {
  }

  lemma DistinctFrom35()
    ensures DistinctFrom(Entries, 35, 41)
  {
  }

  /** Every name of the table finds its own box. */
  lemma RegionFound(j: nat)
    requires j < |Entries|
    ensures Region(Entries[j].name) == Some(Entries[j].value)
  {
    EntriesDistinct();
    LookupSpec(Entries, Entries[j].name);
  }

  /** A name the table does not list leaves all six attributes None. */
  lemma RegionUnknown(sta: string)
    requires forall m :: 0 <= m < |Entries| ==> Entries[m].name != sta
    ensures Region(sta) == None
  {
    LookupSpec(Entries, sta);
  }

  /** Names of one block are aliases of one box: Tokyo and Kanto. */
  lemma KantoAliases()
    ensures Entries[11].name == "Tokyo" && Entries[12].name == "Kanto"
    ensures Region(Entries[11].name) == Region(Entries[12].name) == Some(KantoBox)
  {
    RegionFound(11);
    RegionFound(12);
  }

  /** Okayama, Hiroshima and Tyugoku share one box. */
  lemma TyugokuAliases()
    ensures Entries[28].name == "Okayama" && Entries[29].name == "Hiroshima" && Entries[30].name == "Tyugoku"
    ensures Region(Entries[28].name) == Region(Entries[29].name) == Region(Entries[30].name) == Some(TyugokuBox)
  {
    RegionFound(28);
    RegionFound(29);
    RegionFound(30);
  }

  predicate NonEmptyBox(b: Box) {
    b.lonMin < b.lonMax && b.latMin < b.latMax
  }

  /** Every box is non-empty. */
  lemma BoxesNonEmpty()
    ensures forall k :: 0 <= k < |Entries| ==> NonEmptyBox(Entries[k].value)
  {
  }

  /** Grid lines are equally spaced in both directions, 0.5, 1 or 5 degrees. */
  lemma StepsSquare()
    ensures forall k :: 0 <= k < |Entries| ==> Entries[k].value.lonStep == Entries[k].value.latStep
    ensures forall k :: 0 <= k < |Entries| ==> Entries[k].value.lonStep in {0.5, 1.0, 5.0}
  {
  }

  /** The step is 5 for Japan only. */
  lemma JapanStep()
    ensures Entries[0].name == "Japan"
    ensures forall k :: 0 <= k < |Entries| ==> (Entries[k].value.lonStep == 5.0 <==> k == 0)
  {
  }

  /** The step is 0.5 exactly for the zoomed areas Tokyo_a, Tokyo_b, Chiba
      and Shizuoka_a. */
  lemma ZoomSteps()
    ensures [Entries[13].name, Entries[14].name, Entries[15].name, Entries[25].name]
         == ["Tokyo_a", "Tokyo_b", "Chiba", "Shizuoka_a"]
    ensures forall k :: 0 <= k < |Entries| ==> (Entries[k].value.lonStep == 0.5 <==> k in {13, 14, 15, 25})
  {
  }

  /** Every one-degree box spans five degrees of latitude. */
  lemma LatitudeSpans()
    ensures forall k :: 0 <= k < |Entries| && Entries[k].value.lonStep == 1.0 ==>
      Entries[k].value.latMax - Entries[k].value.latMin == 5.0
  {
  }

  /** Every one-degree box spans seven degrees of longitude, except the
      Tokai group's (Nagoya, Shizuoka, Tokai), which spans eight. */
  lemma LongitudeSpans()
    ensures [Entries[22].name, Entries[23].name, Entries[24].name] == ["Nagoya", "Shizuoka", "Tokai"]
    ensures forall k :: 0 <= k < |Entries| && Entries[k].value.lonStep == 1.0 ==>
      Entries[k].value.lonMax - Entries[k].value.lonMin == (if k in {22, 23, 24} then 8.0 else 7.0)
  {
  }

  // ---------------------------------------------------------------------------
  // The areas of jma_ame_nrt_map/{cartopy,basemap}_jma_temp+wind.py

  /** Marker size, barb length and width, grid steps, projection centre and
      extent chosen by `draw`. */
  datatype DrawArea = DrawArea(markerSize: real, barbLength: real, barbWidth: real,
                               gridStep: real, lon0: real, lat0: real,
                               lonMin: real, lonMax: real, latMin: real, latMax: real)

  const JapanArea := DrawArea(1.0, 4.0, 0.6, 5.0, 135.0, 35.0, 120.0, 150.0, 20.0, 50.0)
  const TokyoArea := DrawArea(6.0, 7.0, 1.5, 0.5, 140.0, 35.0, 139.2, 141.2, 34.8, 36.8)

  /** The area chosen by the cartopy script; anything but "Japan" or "Tokyo"
      prints a message and quits. */
  function CartopyArea(area: string): (r: Result<DrawArea>)
    ensures r.Ok? <==> area == "Japan" || area == "Tokyo"
    ensures r.Err? ==> r.fault == Exit
  {
    if area == "Japan" then Ok(JapanArea)
    else if area == "Tokyo" then Ok(TokyoArea)
    else Err(Exit)
  }

  /** The area of the basemap script: the same two choices, given as
      Lambert-projection corners and grid-line steps. */
  function BasemapArea(area: string): (r: Result<DrawArea>)
    ensures r.Ok? <==> area == "Japan" || area == "Tokyo"
    ensures r.Err? ==> r.fault == Exit
  {
    if area == "Japan" then Ok(DrawArea(1.0, 4.0, 0.6, 5.0, 135.0, 35.0, 120.0, 150.0, 20.0, 50.0))
    else if area == "Tokyo" then Ok(DrawArea(6.0, 7.0, 1.5, 0.5, 140.0, 35.0, 139.2, 141.2, 34.8, 36.8))
    else Err(Exit)
  }

  /** The two scripts draw the same areas; each area is a non-empty box around
      its projection centre, and Tokyo's zoom is the radar table's Chiba box
      inside Japan's. */
  lemma DrawAreasAgree(area: string)
    ensures CartopyArea(area) == BasemapArea(area)
    ensures CartopyArea(area).Ok? ==>
      (var a := CartopyArea(area).value;
       a.lonMin < a.lon0 < a.lonMax && a.latMin < a.lat0 < a.latMax)
    ensures JapanArea.lonMin <= TokyoArea.lonMin && TokyoArea.lonMax <= JapanArea.lonMax
    ensures JapanArea.latMin <= TokyoArea.latMin && TokyoArea.latMax <= JapanArea.latMax
    ensures ChibaBox.lonMin == TokyoArea.lonMin && ChibaBox.lonMax == TokyoArea.lonMax
    ensures ChibaBox.latMin == TokyoArea.latMin && ChibaBox.latMax == TokyoArea.latMax
  {
  }
}
