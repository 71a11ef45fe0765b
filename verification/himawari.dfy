/** The Himawari tile reader of jma_sat/get_jma_jp.py: which web-map tiles
    exist, the band and product of each image type, the image address, and
    the two tiles a panel pair requests. */
module Himawari {
  import opened Base
  import opened Text
  import opened LookupTable

  // ---------------------------------------------------------------------------
  // Tiles (`check_tile`)

  function Pow2(z: nat): (r: nat)
    ensures r >= 1
  {
    if z == 0 then 1 else 2 * Pow2(z - 1)
  }

  /** `check_tile(z, x, y)`: the zoom levels 3 to 5, each with its own range
      of columns; every row of the level. */
  predicate CheckTile(z: int, x: int, y: int) {
    if z == 5 then 0 <= y <= 31 && 19 <= x <= 31
    else if z == 4 then 0 <= y <= 15 && 9 <= x <= 15
    else if z == 3 then 0 <= y <= 7 && 4 <= x <= 7
    else false
  }

  /** The tiles the image service covers, described by the grid: zoom 3 to 5,
      any row of the 2^z, and the columns from three fifths of the way across
      (rounded down) to the eastern edge. */
  predicate Covered(z: int, x: int, y: int) {
    3 <= z <= 5 && 0 <= y < Pow2(z) && 3 * Pow2(z) / 5 <= x < Pow2(z)
  }

  lemma CheckTileSpec(z: int, x: int, y: int)
    ensures CheckTile(z, x, y) <==> Covered(z, x, y)
  {
    if 3 <= z <= 5 {
      assert Pow2(3) == 8 && Pow2(4) == 16 && Pow2(5) == 32;
    }
  }

  /** A valid tile is a tile of its zoom level's grid. */
  lemma CheckTileBounds(z: int, x: int, y: int)
    requires CheckTile(z, x, y)
    ensures z in {3, 4, 5}
    ensures 0 <= x <= Pow2(z) - 1 && 0 <= y <= Pow2(z) - 1
  {
    CheckTileSpec(z, x, y);
  }

  /** The tile name `str(z) + "/" + str(x) + "/" + str(y)`. */
  function TileName(z: int, x: int, y: int): string
  {
    IntToString(z) + "/" + IntToString(x) + "/" + IntToString(y)
  }

  /** The tile name splits back into the three numbers it was made from. */
  lemma TileNameRoundTrip(z: int, x: int, y: int)
    ensures SplitOn(TileName(z, x, y), '/') == [IntToString(z), IntToString(x), IntToString(y)]
    ensures ParseInt(IntToString(z)) == Some(z) && ParseInt(IntToString(x)) == Some(x)
            && ParseInt(IntToString(y)) == Some(y)
  {
    NoSlash(z);
    NoSlash(x);
    NoSlash(y);
    var zs, xs, ys := IntToString(z), IntToString(x), IntToString(y);
    SplitOnSep(zs, xs + "/" + ys, '/');
    SplitOnSep(xs, ys, '/');
    SplitOnWord(zs, '/');
    SplitOnWord(xs, '/');
    SplitOnWord(ys, '/');
    assert TileName(z, x, y) == zs + ['/'] + (xs + ['/'] + ys);
    IntToStringRoundTrip(z);
    IntToStringRoundTrip(x);
    IntToStringRoundTrip(y);
  }

  lemma NoSlash(i: int)
    ensures '/' !in IntToString(i)
  {
    IntToStringAlphabet(i);
  }


  // ---------------------------------------------------------------------------
  // Image types (`get_jpg`)

  /** The band directory and product directory of an image type. */
  datatype Band = Band(channel: string, product: string)

  /** The `if/elif` chain of `get_jpg`: infrared, visible, water vapour,
      true colour and cloud-top enhanced. */
  const Bands: seq<Keyed<Band>> := [
    Keyed("l", Band("B13", "TBB")),
    Keyed("s", Band("B03", "ALBD")),
    Keyed("v", Band("B08", "TBB")),
    Keyed("tc", TrueColour),
    Keyed("ct", Band("SND", "ETC"))
  ]

  /** The band of an image type; any other type prints a message and quits. */
  function BandOf(mtype: string): Result<Band>
  {
    match Lookup(Bands, mtype)
    case Some(b) => Ok(b)
    case None => Err(Exit)
  }

  lemma BandsDistinct()
    ensures Distinct(Bands)
  {
  }

  /** Exactly the five listed types are accepted, each with its own band
      (the first matching `elif` and the last matching entry agree because
      no type is listed twice). */
  lemma BandOfSpec(mtype: string)
    ensures BandOf(mtype).Err? <==> forall k :: 0 <= k < |Bands| ==> Bands[k].name != mtype
    ensures BandOf(mtype).Err? ==> BandOf(mtype).fault == Exit
    ensures forall k :: 0 <= k < |Bands| && Bands[k].name == mtype ==> BandOf(mtype) == Ok(Bands[k].value)
  {
    BandsDistinct();
    LookupSpec(Bands, mtype);
  }

  /** No band directory name contains a `/`, so each adds two path pieces. */
  lemma BandsPlain()
    ensures forall k :: 0 <= k < |Bands| ==> '/' !in Bands[k].value.channel && '/' !in Bands[k].value.product
  {
  }


  /** The address `urlbase + basetime + "/fd/" + validtime + "/" + band_prod
      + "/" + tile + ".jpg"`. */
  function ImageUrl(basetime: string, validtime: string, band: Band, tile: string): string
  {
    Address(UrlBase, basetime, validtime, band, tile)
  }

  /** The same address under any site prefix. */
  function Address(base: string, basetime: string, validtime: string, band: Band, tile: string): string
  {
    base + basetime + "/fd/" + validtime + "/" + band.channel + "/" + band.product + "/" + tile + ".jpg"
  }

  /** `get_jpg` up to the request: the type is checked first (an unknown one
      quits even without times), then a missing time gives None, else the
      address of the image it fetches. */
  function GetJpg(basetime: Option<string>, validtime: Option<string>, mtype: string, tile: string): (r: Result<Option<string>>)
    ensures r.Err? <==> BandOf(mtype).Err?
    ensures r.Err? ==> r.fault == Exit
    ensures r.Ok? ==> (r.value.None? <==> basetime.None? || validtime.None?)
    ensures r.Ok? && r.value.Some? ==> r.value.value == ImageUrl(basetime.value, validtime.value, BandOf(mtype).value, tile)
  {
    var band :- BandOf(mtype);
    if basetime.None? || validtime.None? then Ok(None)
    else Ok(Some(ImageUrl(basetime.value, validtime.value, band, tile)))
  }

  /** `urlbase`: the site the images live under. */
  const UrlBase: string := "https://www.jma.go.jp/bosai/himawari/data/satimg/"

  /** The path pieces of `urlbase`. */
  const Host: seq<string> := ["https:", "", "www.jma.go.jp", "bosai", "himawari", "data", "satimg"]

  /** `urlbase` is its pieces joined by `/`, with a trailing `/`. */
  lemma UrlBaseHost()
    ensures UrlBase == JoinWith(Host, '/') + "/"
  {
    HostJoined();
    UrlBaseSpelled(JoinWith(Host, '/') + "/");
  }

  lemma HostJoined()
    ensures JoinWith(Host, '/') == "https:" + "/" + ("" + "/" + ("www.jma.go.jp" + "/" + ("bosai" + "/" + ("himawari" + "/" + ("data" + "/" + "satimg")))))
  {
    assert Host[1..][1..][1..][1..][1..][1..] == ["satimg"];
  }

  /** Compared letter by letter, `urlbase` is the joined pieces. */
  lemma UrlBaseSpelled(j: string)
    requires j == "https:" + "/" + ("" + "/" + ("www.jma.go.jp" + "/" + ("bosai" + "/" + ("himawari" + "/" + ("data" + "/" + "satimg"))))) + "/"
    ensures |j| == |UrlBase| && forall i :: 0 <= i < |j| ==> UrlBase[i] == j[i]
  {
  }

  /** The band `draw_jp` asks for, type "tc". */
  const TrueColour: Band := Band("REP", "ETC")

  lemma TrueColourBand()
    ensures BandOf("tc") == Ok(TrueColour)
  {
    BandOfSpec("tc");
    assert Bands[3].name == "tc";
  }

  lemma HostPieces()
    ensures SplitOn(JoinWith(Host, '/'), '/') == Host
  {
    assert forall k :: 0 <= k < |Host| ==> '/' !in Host[k];
    JoinSplitOn(Host, '/');
  }

  /** `str(z)/str(x)/str(y).jpg` splits into the three numbers. */
  lemma TilePieces(z: int, x: int, y: int)
    ensures SplitOn(TileName(z, x, y) + ".jpg", '/') == [IntToString(z), IntToString(x), IntToString(y) + ".jpg"]
  {
    var zs, xs, ys := IntToString(z), IntToString(x), IntToString(y);
    NoSlash(z);
    NoSlash(x);
    NoSlash(y);
    assert TileName(z, x, y) + ".jpg" == zs + ['/'] + (xs + ['/'] + (ys + ".jpg"));
    SplitOnWord(ys + ".jpg", '/');
    PieceCons(xs, ys + ".jpg", '/');
    PieceCons(zs, xs + ['/'] + (ys + ".jpg"), '/');
  }

  /** The address of a tile image splits at `/` into the site, the two
      times, the band and product directories and the three tile numbers:
      the times, type and tile can all be read back from it. */
  lemma ImageUrlPieces(basetime: string, validtime: string, band: Band, z: int, x: int, y: int)
    requires '/' !in basetime && '/' !in validtime
    requires '/' !in band.channel && '/' !in band.product
    ensures SplitOn(ImageUrl(basetime, validtime, band, TileName(z, x, y)), '/')
      == Host + [basetime, "fd", validtime, band.channel, band.product,
                 IntToString(z), IntToString(x), IntToString(y) + ".jpg"]
  {
    UrlBaseHost();
    HostPieces();
    AddressPieces(JoinWith(Host, '/'), basetime, validtime, band, z, x, y);
  }

  lemma AddressPieces(site: string, basetime: string, validtime: string, band: Band, z: int, x: int, y: int)
    requires '/' !in basetime && '/' !in validtime
    requires '/' !in band.channel && '/' !in band.product
    ensures SplitOn(Address(site + "/", basetime, validtime, band, TileName(z, x, y)), '/')
      == SplitOn(site, '/') + [basetime, "fd", validtime, band.channel, band.product,
                 IntToString(z), IntToString(x), IntToString(y) + ".jpg"]
  {
    var zs, xs, last := IntToString(z), IntToString(x), IntToString(y) + ".jpg";
    NoSlash(z);
    NoSlash(x);
    NoSlash(y);
    TileShape(z, x, y);
    AddressShape(site, basetime, validtime, band, TileName(z, x, y));
    PathPieces(site, basetime, validtime, band.channel, band.product, zs, xs, last);
  }

  /** The path after the site, piece by piece. */
  lemma PathPieces(site: string, b: string, v: string, ch: string, pr: string, zs: string, xs: string, last: string)
    requires '/' !in b && '/' !in v && '/' !in ch && '/' !in pr && '/' !in zs && '/' !in xs && '/' !in last
    ensures SplitOn(site + ['/'] + (b + ['/'] + ("fd" + ['/'] + (v + ['/'] + (ch + ['/'] + (pr + ['/'] + (zs + ['/'] + (xs + ['/'] + last))))))), '/')
      == SplitOn(site, '/') + [b, "fd", v, ch, pr, zs, xs, last]
  {
    var tail := xs + ['/'] + last;
    var mid := ch + ['/'] + (pr + ['/'] + (zs + ['/'] + tail));
    var top := b + ['/'] + ("fd" + ['/'] + (v + ['/'] + mid));
    SplitOnSep(site, top, '/');
    ThreePieces(b, "fd", v, mid, '/');
    ThreePieces(ch, pr, zs, tail, '/');
    SplitOnWord(last, '/');
    PieceCons(xs, last, '/');
    assert SplitOn(top, '/') == [b, "fd", v] + ([ch, pr, zs] + [xs, last]);
    assert [b, "fd", v] + ([ch, pr, zs] + [xs, last]) == [b, "fd", v, ch, pr, zs, xs, last];
  }

  /** The address with its pieces grouped from the right. */
  lemma AddressShape(site: string, basetime: string, validtime: string, band: Band, tile: string)
    ensures Address(site + "/", basetime, validtime, band, tile)
      == site + ['/'] + (basetime + ['/'] + ("fd" + ['/'] +
           (validtime + ['/'] + (band.channel + ['/'] + (band.product + ['/'] + (tile + ".jpg"))))))
  {
  }

  lemma TileShape(z: int, x: int, y: int)
    ensures TileName(z, x, y) + ".jpg"
      == IntToString(z) + ['/'] + (IntToString(x) + ['/'] + (IntToString(y) + ".jpg"))
  {
  }

  /** Three leading pieces without the separator come off whole. */
  lemma ThreePieces(a: string, b: string, c: string, rest: string, sep: char)
    requires sep !in a && sep !in b && sep !in c
    ensures SplitOn(a + [sep] + (b + [sep] + (c + [sep] + rest)), sep) == [a, b, c] + SplitOn(rest, sep)
  {
    PieceCons(c, rest, sep);
    PieceCons(b, c + [sep] + rest, sep);
    PieceCons(a, b + [sep] + (c + [sep] + rest), sep);
  }

  // ---------------------------------------------------------------------------
  // Panel pairs (`draw_jp`)

  /** A web-map tile: zoom level, column and row. */
  datatype Tile = Tile(z: int, x: int, y: int)

  /** What `draw_jp` does before plotting: the tiles whose true-colour image
      it requests, in order, and the exception that stops it, if any. A
      failed request is caught and only leaves its panel empty, so it is not
      a fault. */
  datatype Panels = Panels(requests: seq<Tile>, fault: Option<Fault>)

  const TimesRequired: string := "basetime & validtime are required"
  const InvalidTile: string := "invalid tile"

  /** Tiles `x` and `x + 1` of row `y`; a tile `check_tile` refuses raises
      before its request. */
  function DrawJp(z: int, y: int, x: int, basetime: Option<string>, validtime: Option<string>): (r: Panels)
    ensures basetime.None? || validtime.None? ==> r == Panels([], Some(Raised(TimesRequired)))
    ensures basetime.Some? && validtime.Some? ==>
      (r.fault.None? <==> CheckTile(z, x, y) && CheckTile(z, x + 1, y))
      && (r.fault.Some? ==> r.fault.value == Raised(InvalidTile))
      && |r.requests| == (if !CheckTile(z, x, y) then 0 else if !CheckTile(z, x + 1, y) then 1 else 2)
      && forall n :: 0 <= n < |r.requests| ==> r.requests[n] == Tile(z, x + n, y)
  {
    if basetime.None? || validtime.None? then Panels([], Some(Raised(TimesRequired)))
    else PanelsFrom(z, y, x, 0)
  }

  /** Panels `n` and on of the pair. */
  function PanelsFrom(z: int, y: int, x: int, n: nat): (r: Panels)
    requires n <= 2
    ensures r.fault.None? <==> (n == 0 ==> CheckTile(z, x, y)) && (n <= 1 ==> CheckTile(z, x + 1, y))
    ensures r.fault.Some? ==> r.fault.value == Raised(InvalidTile)
    ensures |r.requests| == (if n == 2 || !CheckTile(z, x + n, y) then 0
                             else if n == 1 || !CheckTile(z, x + n + 1, y) then 1 else 2)
    ensures forall k :: 0 <= k < |r.requests| ==> r.requests[k] == Tile(z, x + n + k, y)
    decreases 2 - n
  {
    if n == 2 then Panels([], None)
    else if !CheckTile(z, x + n, y) then Panels([], Some(Raised(InvalidTile)))
    else
      var rest := PanelsFrom(z, y, x, n + 1);
      Panels([Tile(z, x + n, y)] + rest.requests, rest.fault)
  }

  /** The image `get_jpg` fetches for a requested tile: type "tc" with the
      tile's name, so the address carries the tile's numbers. */
  lemma DrawJpAddresses(z: int, y: int, x: int, basetime: string, validtime: string, n: nat)
    requires '/' !in basetime && '/' !in validtime
    requires n < |DrawJp(z, y, x, Some(basetime), Some(validtime)).requests|
    ensures var t := DrawJp(z, y, x, Some(basetime), Some(validtime)).requests[n];
      GetJpg(Some(basetime), Some(validtime), "tc", TileName(t.z, t.x, t.y))
        == Ok(Some(ImageUrl(basetime, validtime, TrueColour, TileName(z, x + n, y))))
    ensures SplitOn(ImageUrl(basetime, validtime, TrueColour, TileName(z, x + n, y)), '/')
      == Host + [basetime, "fd", validtime, "REP", "ETC", IntToString(z), IntToString(x + n), IntToString(y) + ".jpg"]
  {
    TrueColourBand();
    ImageUrlPieces(basetime, validtime, TrueColour, z, x + n, y);
  }

  /** The pair is drawn in full exactly when the tile and its eastern
      neighbour are both covered. */
  lemma DrawJpSucceeds(z: int, y: int, x: int, basetime: string, validtime: string)
    ensures DrawJp(z, y, x, Some(basetime), Some(validtime)).fault.None?
      <==> 3 <= z <= 5 && 0 <= y < Pow2(z) && 3 * Pow2(z) / 5 <= x <= Pow2(z) - 2
  {
    CheckTileSpec(z, x, y);
    CheckTileSpec(z, x + 1, y);
  }

  /** The script's own pair, tiles 27 and 28 of row 12 at zoom 5, is drawn. */
  lemma DefaultPair(basetime: string, validtime: string)
    ensures DrawJp(5, 12, 27, Some(basetime), Some(validtime)).fault.None?
    ensures |DrawJp(5, 12, 27, Some(basetime), Some(validtime)).requests| == 2
  {
  }
}
