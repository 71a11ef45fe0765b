/** The helpers of jma_ame_nrt/utils/__init__.py: the nearest grid point,
    the command lines handed to ImageMagick and ffmpeg, and the defaults
    filled into the parsed options. */
module UtilsCli {
  import opened Base
  import opened Numeric

  // ---------------------------------------------------------------------------
  // `get_gridloc(loc_list, loc)`

  /** The first position whose distance to `loc` is smallest, among those
      closer than 360 (the initial `r`); 0 when there is none. The loop keeps
      the best distance so far and replaces it only on a strictly smaller
      one, so ties go to the earlier point. */
  method GetGridloc(locs: seq<real>, loc: real) returns (iloc: nat)
    ensures (forall j :: 0 <= j < |locs| ==> Abs(locs[j] - loc) >= 360.0) ==> iloc == 0
    ensures (exists j :: 0 <= j < |locs| && Abs(locs[j] - loc) < 360.0) ==>
      iloc < |locs| && Abs(locs[iloc] - loc) < 360.0
      && (forall j :: 0 <= j < |locs| ==> Abs(locs[iloc] - loc) <= Abs(locs[j] - loc))
      && (forall j :: 0 <= j < iloc ==> Abs(locs[iloc] - loc) < Abs(locs[j] - loc))
  {
    var r := 360.0;
    iloc := 0;
    var n := 0;
    while n < |locs|
      invariant 0 <= n <= |locs|
      invariant r <= 360.0
      invariant r < 360.0 ==> iloc < n && r == Abs(locs[iloc] - loc)
      invariant r == 360.0 ==> iloc == 0 && forall j :: 0 <= j < n ==> Abs(locs[j] - loc) >= 360.0
      invariant forall j :: 0 <= j < n ==> r <= Abs(locs[j] - loc)
      invariant forall j :: 0 <= j < iloc ==> r < Abs(locs[j] - loc)
    {
      var d := Abs(locs[n] - loc);
      if d < r {
        r := d;
        iloc := n;
      }
      n := n + 1;
    }
  }

  // ---------------------------------------------------------------------------
  // Command lines (`convert_png2gif`, `convert_png2mp4`)

  const GifDelay: string := "80"
  const GifOutput: string := "output.gif"

  /** `["convert", "-delay", delay] + input_filenames + [output_filename]`. */
  function GifArgs(inputs: seq<string>, delay: string, output: string): (r: seq<string>)
    ensures |r| == |inputs| + 4
    ensures r[..3] == ["convert", "-delay", delay]
    ensures r[3..|r| - 1] == inputs
    ensures r[|r| - 1] == output
  {
    var args := ["convert", "-delay", delay] + inputs + [output];
    assert args[3..|args| - 1] == inputs;
    args
  }

  /** The command line determines the call: different frames, delay or
      output never give the same argv. */
  lemma GifArgsInjective(i1: seq<string>, d1: string, o1: string, i2: seq<string>, d2: string, o2: string)
    requires GifArgs(i1, d1, o1) == GifArgs(i2, d2, o2)
    ensures i1 == i2 && d1 == d2 && o1 == o2
  {
    var a := GifArgs(i1, d1, o1);
    assert a[..3][2] == d1;
    assert GifArgs(i2, d2, o2)[..3][2] == d2;
  }

  const Mp4Input: string := "input_%02d.png"
  const Mp4InputRate: string := "1"
  const Mp4MovieRate: string := "30"
  const Mp4Output: string := "output.mp4"

  /** The fourteen fixed arguments of ffmpeg: read numbered PNG frames at
      `pfrate` files a second, write `mfrate` frames a second of silent
      H.264 in the yuv420p pixel format. */
  function Mp4Prefix(input: string, pfrate: string, mfrate: string): seq<string>
  {
    ["ffmpeg", "-f", "image2", "-framerate", pfrate, "-i", input, "-r",
     mfrate, "-an", "-vcodec", "libx264", "-pix_fmt", "yuv420p"]
  }

  /** The prefix followed by the output file. */
  function Mp4Args(input: string, pfrate: string, mfrate: string, output: string): (r: seq<string>)
    ensures |r| == 15 && r[..14] == Mp4Prefix(input, pfrate, mfrate) && r[14] == output
  {
    Mp4Prefix(input, pfrate, mfrate) + [output]
  }

  /** Each caller-supplied value follows the option that names it, and the
      output comes last. */
  lemma Mp4ArgsOptions(input: string, pfrate: string, mfrate: string, output: string)
    ensures var r := Mp4Args(input, pfrate, mfrate, output);
      r[0] == "ffmpeg" && r[3] == "-framerate" && r[4] == pfrate && r[5] == "-i" && r[6] == input
      && r[7] == "-r" && r[8] == mfrate && r[|r| - 1] == output
  {
  }

  lemma Mp4ArgsInjective(in1: string, p1: string, m1: string, o1: string, in2: string, p2: string, m2: string, o2: string)
    requires Mp4Args(in1, p1, m1, o1) == Mp4Args(in2, p2, m2, o2)
    ensures in1 == in2 && p1 == p2 && m1 == m2 && o1 == o2
  {
    Mp4ArgsOptions(in1, p1, m1, o1);
    Mp4ArgsOptions(in2, p2, m2, o2);
  }

  // ---------------------------------------------------------------------------
  // `parse_command(args, opt_lev)`

  /** `--level` is declared as text, but its default is the number 850. */
  datatype Level = LevelText(text: string) | LevelNumber(hpa: int)

  /** The namespace argparse returns; None is an option not given. `level`
      is None also when the parser was built without `--level`. */
  datatype Namespace = Namespace(fcstDate: Option<string>, fcstTime: Option<int>, sta: Option<string>,
                                 level: Option<Level>, inputDir: Option<string>)

  const InputDirDefault: string := "retrieve"
  const FcstTimeDefault: int := 36
  const LevelDefault: int := 850

  /** The defaults `parse_command` fills in after parsing. */
  function FillDefaults(ns: Namespace, optLev: bool): (r: Namespace)
    ensures r.fcstDate == ns.fcstDate && r.sta == ns.sta
    ensures r.inputDir == (if ns.inputDir.None? then Some(InputDirDefault) else ns.inputDir)
    ensures r.fcstTime == (if ns.fcstTime.None? then Some(FcstTimeDefault) else ns.fcstTime)
    ensures r.level == (if optLev && ns.level.None? then Some(LevelNumber(LevelDefault)) else ns.level)
  {
    var inputDir := if ns.inputDir.None? then Some(InputDirDefault) else ns.inputDir;
    var fcstTime := if ns.fcstTime.None? then Some(FcstTimeDefault) else ns.fcstTime;
    var level := if optLev && ns.level.None? then Some(LevelNumber(LevelDefault)) else ns.level;
    ns.(inputDir := inputDir, fcstTime := fcstTime, level := level)
  }

  /** After the fill the directory and forecast hour are always set, and the
      level too when it was asked for; what was given is kept. */
  lemma FillDefaultsComplete(ns: Namespace, optLev: bool)
    ensures FillDefaults(ns, optLev).inputDir.Some? && FillDefaults(ns, optLev).fcstTime.Some?
    ensures optLev ==> FillDefaults(ns, optLev).level.Some?
    ensures !optLev ==> FillDefaults(ns, optLev).level == ns.level
    ensures ns.inputDir.Some? ==> FillDefaults(ns, optLev).inputDir == ns.inputDir
    ensures ns.fcstTime.Some? ==> FillDefaults(ns, optLev).fcstTime == ns.fcstTime
    ensures ns.level.Some? ==> FillDefaults(ns, optLev).level == ns.level
  {
  }

  /** Filling twice is filling once. */
  lemma FillDefaultsIdempotent(ns: Namespace, optLev: bool)
    ensures FillDefaults(FillDefaults(ns, optLev), optLev) == FillDefaults(ns, optLev)
  {
  }

  /** A namespace with every option given is returned as it is. */
  lemma FillDefaultsKeepsGiven(ns: Namespace, optLev: bool)
    requires ns.inputDir.Some? && ns.fcstTime.Some? && ns.level.Some?
    ensures FillDefaults(ns, optLev) == ns
  {
  }
}
