/**
 * The GDAL wrappers of geotiff/utils/gdal.py: the commands they build and the
 * reprojection pass over the working directory. Running a command is not
 * modelled; whether a command succeeds is an oracle, and the directory is the
 * set of names it holds.
 */
module Gdal {
  import opened Wrappers
  import opened PyStr
  import opened ParseInputs

  // ---------------------------------------------------------------------------
  // Output names: `name.strip('.tif')` followed by a suffix.
  // ---------------------------------------------------------------------------

  /** The characters `str.strip('.tif')` removes from both ends. */
  const TifChars: set<char> := {'.', 't', 'i', 'f'}

  /** `name.strip('.tif')`: a character-set strip, not removal of the ".tif" suffix. */
  function StripTif(name: string): (r: string)
    ensures |r| <= |name|
    ensures r == [] || (r[0] !in TifChars && r[|r| - 1] !in TifChars)
    ensures forall k :: 0 <= k < |name| && name[k] !in TifChars ==> name[k] in r
  {
    StripIsTrim(name, TifChars);
    var r := Strip(name, TifChars);
    var i := |name| - |LStrip(name, TifChars)|;
    assert forall k :: i <= k < i + |r| ==> name[k] == r[k - i];
    r
  }

  /** Stripping an already stripped name changes nothing. */
  lemma StripTifIdempotent(name: string)
    ensures StripTif(StripTif(name)) == StripTif(name)
  {
    StripIdempotent(name, TifChars);
  }

  /** The usual case: the ".tif" suffix goes. */
  lemma StripTifPlainName()
    ensures StripTif("scene.tif") == "scene"
  {
    assert LStrip("scene.tif", TifChars) == "scene.tif";
    assert "scene.tif"[..8] == "scene.ti";
    assert "scene.ti"[..7] == "scene.t";
    assert "scene.t"[..6] == "scene.";
    assert "scene."[..5] == "scene";
  }

  /** More than the suffix goes when the stem ends in one of '.', 't', 'i', 'f'. */
  lemma StripTifEatsStem()
    ensures StripTif("out.tif") == "ou"
  {
    assert LStrip("out.tif", TifChars) == "out.tif";
    assert "out.tif"[..6] == "out.ti";
    assert "out.ti"[..5] == "out.t";
    assert "out.t"[..4] == "out.";
    assert "out."[..3] == "out";
    assert "out"[..2] == "ou";
  }

  /** A stem made only of those characters vanishes, leaving just the directory. */
  lemma StripTifEatsFileName()
    ensures StripTif("/home/u/fit.tif") == "/home/u/"
  {
    assert LStrip("/home/u/fit.tif", TifChars) == "/home/u/fit.tif";
    assert "/home/u/fit.tif"[..14] == "/home/u/fit.ti";
    assert "/home/u/fit.ti"[..13] == "/home/u/fit.t";
    assert "/home/u/fit.t"[..12] == "/home/u/fit.";
    assert "/home/u/fit."[..11] == "/home/u/fit";
    assert "/home/u/fit"[..10] == "/home/u/fi";
    assert "/home/u/fi"[..9] == "/home/u/f";
    assert "/home/u/f"[..8] == "/home/u/";
  }

  /** The strip is case-sensitive and works at both ends: an upper-case suffix stays, a leading 'i' goes. */
  lemma StripTifBothEnds()
    ensures StripTif("image.TIF") == "mage.TIF"
  {
    assert "image.TIF"[1..] == "mage.TIF";
    assert LStrip("mage.TIF", TifChars) == "mage.TIF";
  }

  // ---------------------------------------------------------------------------
  // reproject_resample
  // ---------------------------------------------------------------------------

  /** The optional flag groups of the final gdalwarp call. */
  datatype WarpFlags =
    | CutlineFlags(cutline: string)
    | ResolutionFlags(resolution: Resolution, resample: Option<string>)
    | SrsFlags(srs: string)
    | ThreadFlags(workers: int)
    | MemoryFlags(megabytes: int)

  /** The fixed position of each group on the command line. */
  function Rank(g: WarpFlags): nat {
    match g
    case CutlineFlags(_) => 0
    case ResolutionFlags(_, _) => 1
    case SrsFlags(_) => 2
    case ThreadFlags(_) => 3
    case MemoryFlags(_) => 4
  }

  /**
   * Whether reproject_resample appends group `g`: a truthy cutline, a truthy
   * resolution (with the resample algorithm beside it), a truthy SRS, more than
   * one worker, a truthy memory budget; each group carries the argument values.
   */
  predicate Selected(
    g: WarpFlags, cutline: Option<string>, resolution: Option<Resolution>, resample: Option<string>,
    srs: Option<string>, numWorkers: int, gdalMem: Option<int>)
  {
    match g
    case CutlineFlags(c) => StrTruthy(cutline) && c == cutline.value
    case ResolutionFlags(r, a) => ResolutionTruthy(resolution) && r == resolution.value && a == resample
    case SrsFlags(t) => StrTruthy(srs) && t == srs.value
    case ThreadFlags(n) => numWorkers > 1 && n == numWorkers
    case MemoryFlags(m) => IntTruthy(gdalMem) && m == gdalMem.value
  }

  /**
   * The groups reproject_resample appends: exactly the selected ones, each
   * once, in the fixed order of Rank.
   */
  function WarpFlagGroups(
    cutline: Option<string>, resolution: Option<Resolution>, resample: Option<string>,
    srs: Option<string>, numWorkers: int, gdalMem: Option<int>): (gs: seq<WarpFlags>)
    ensures forall i, j :: 0 <= i < j < |gs| ==> Rank(gs[i]) < Rank(gs[j])
    ensures forall g :: g in gs <==> Selected(g, cutline, resolution, resample, srs, numWorkers, gdalMem)
  {
    var c := if StrTruthy(cutline) then [CutlineFlags(cutline.value)] else [];
    var r := if ResolutionTruthy(resolution) then [ResolutionFlags(resolution.value, resample)] else [];
    var s := if StrTruthy(srs) then [SrsFlags(srs.value)] else [];
    var t := if numWorkers > 1 then [ThreadFlags(numWorkers)] else [];
    var m := if IntTruthy(gdalMem) then [MemoryFlags(gdalMem.value)] else [];
    assert forall g :: g in c + r + s + t + m <==> g in c || g in r || g in s || g in t || g in m;
    c + r + s + t + m
  }

  /** `'{}'.format(x)` of an optional string: None prints as "None". */
  function FormatOptional(s: Option<string>): string {
    match s
    case None => "None"
    case Some(v) => v
  }

  /** The text one group adds to the command, with its leading space. */
  function RenderFlags(g: WarpFlags): string {
    match g
    case CutlineFlags(c) => " -cutline " + c + " -crop_to_cutline"
    case ResolutionFlags(r, s) => " -tr " + r.text + " " + r.text + " -r " + FormatOptional(s)
    case SrsFlags(s) => " -t_srs \"" + s + "\""
    case ThreadFlags(n) => " -multi -wo NUM_THREADS=" + IntToString(n)
    case MemoryFlags(m) => " --config GDAL_CACHEMAX " + IntToString(m) + " -wm " + IntToString(m)
  }

  /** The text of the groups, in order: the command is extended group by group. */
  function RenderAll(gs: seq<WarpFlags>): string {
    Concat(seq(|gs|, i requires 0 <= i < |gs| => RenderFlags(gs[i])))
  }

  /** The part of the gdalwarp command that never changes but for the nodata value. */
  function WarpPrefix(nodata: int): string {
    "gdalwarp -co COMPRESS=LZW -co BIGTIFF=YES -srcnodata " + IntToString(nodata) + " -dstalpha"
  }

  /** `tif_file.strip('.tif') + '_warp.tif'`. */
  function WarpOutput(tifFile: string): string {
    StripTif(tifFile) + "_warp.tif"
  }

  /** The three commands reproject_resample issues: warp, remove the input, rename the output. */
  datatype Reprojection = Reprojection(warp: string, remove: string, move: string)

  /**
   * reproject_resample: the warp command is the fixed prefix, the selected flag
   * groups in order, then the input and output files; the input is then removed
   * and the output renamed to it.
   */
  function ReprojectResample(
    tifFile: string, nodata: int, cutline: Option<string>, resolution: Option<Resolution>,
    resample: Option<string>, srs: Option<string>, numWorkers: int, gdalMem: Option<int>)
    : (r: Reprojection)
    ensures StartsWith(r.warp, WarpPrefix(nodata))
    ensures EndsWith(r.warp, " " + tifFile + " " + WarpOutput(tifFile))
    ensures r.warp == WarpPrefix(nodata)
                      + (RenderAll(WarpFlagGroups(cutline, resolution, resample, srs, numWorkers, gdalMem))
                         + (" " + tifFile + " " + WarpOutput(tifFile)))
    ensures r.remove == JoinWords(["rm", tifFile])
    ensures r.move == JoinWords(["mv", WarpOutput(tifFile), tifFile])
  {
    var flags := RenderAll(WarpFlagGroups(cutline, resolution, resample, srs, numWorkers, gdalMem));
    var tail := " " + tifFile + " " + WarpOutput(tifFile);
    var warp := WarpPrefix(nodata) + (flags + tail);
    ConcatStartsWith(WarpPrefix(nodata), flags + tail);
    ConcatEndsWith(flags, tail);
    EndsWithPrepend(WarpPrefix(nodata), flags + tail, tail);
    Reprojection(warp, JoinWords(["rm", tifFile]), JoinWords(["mv", WarpOutput(tifFile), tifFile]))
  }

  /** Every flag group whose guard holds appears, with its values, in the warp command. */
  lemma SelectedFlagsRendered(
    tifFile: string, nodata: int, cutline: Option<string>, resolution: Option<Resolution>,
    resample: Option<string>, srs: Option<string>, numWorkers: int, gdalMem: Option<int>, g: WarpFlags)
    requires Selected(g, cutline, resolution, resample, srs, numWorkers, gdalMem)
    ensures Contains(ReprojectResample(tifFile, nodata, cutline, resolution, resample, srs, numWorkers, gdalMem).warp,
                     RenderFlags(g))
  {
    var gs := WarpFlagGroups(cutline, resolution, resample, srs, numWorkers, gdalMem);
    var i :| 0 <= i < |gs| && gs[i] == g;
    ConcatContains(seq(|gs|, i requires 0 <= i < |gs| => RenderFlags(gs[i])), i);
    ContainsInfix(WarpPrefix(nodata), RenderAll(gs), " " + tifFile + " " + WarpOutput(tifFile), RenderFlags(g));
  }

  /** Groups strictly ordered by Rank, hence at most one group of each kind. */
  predicate RankOrdered(gs: seq<WarpFlags>) {
    forall i, j :: 0 <= i < j < |gs| ==> Rank(gs[i]) < Rank(gs[j])
  }

  /** Rank-ordered sequences holding the same groups start with the same group. */
  lemma RankOrderedHeads(xs: seq<WarpFlags>, ys: seq<WarpFlags>)
    requires RankOrdered(xs) && RankOrdered(ys) && xs != [] && ys != []
    requires forall g :: g in xs <==> g in ys
    ensures xs[0] == ys[0]
  {
    assert xs[0] in ys && ys[0] in xs;
  }

  /** ... and, past that group, hold the same groups. */
  lemma RankOrderedTails(xs: seq<WarpFlags>, ys: seq<WarpFlags>)
    requires RankOrdered(xs) && RankOrdered(ys) && xs != [] && ys != [] && xs[0] == ys[0]
    requires forall g :: g in xs <==> g in ys
    ensures forall g :: g in xs[1..] <==> g in ys[1..]
  {
    forall g | g in xs[1..]
      ensures g in ys[1..]
    {
      var i :| 1 <= i < |xs| && xs[i] == g;
      assert Rank(xs[0]) < Rank(g) && g in ys;
      var l :| 0 <= l < |ys| && ys[l] == g;
      assert ys[1..][l - 1] == g;
    }
    forall g | g in ys[1..]
      ensures g in xs[1..]
    {
      var i :| 1 <= i < |ys| && ys[i] == g;
      assert Rank(ys[0]) < Rank(g) && g in xs;
      var l :| 0 <= l < |xs| && xs[l] == g;
      assert xs[1..][l - 1] == g;
    }
  }

  /** Sequences holding the same groups are empty together. */
  lemma SameGroupsBothEmpty(xs: seq<WarpFlags>, ys: seq<WarpFlags>)
    requires forall g :: g in xs <==> g in ys
    ensures xs == [] <==> ys == []
  {
    if xs != [] {
      assert xs[0] in xs;
    }
    if ys != [] {
      assert ys[0] in ys;
    }
  }

  /** Two rank-ordered sequences holding the same groups are the same sequence. */
  lemma {:induction false} RankOrderedUnique(xs: seq<WarpFlags>, ys: seq<WarpFlags>)
    requires RankOrdered(xs) && RankOrdered(ys)
    requires forall g :: g in xs <==> g in ys
    ensures xs == ys
    decreases |xs|
  {
    SameGroupsBothEmpty(xs, ys);
    if xs != [] {
      RankOrderedHeads(xs, ys);
      RankOrderedTails(xs, ys);
      RankOrderedUnique(xs[1..], ys[1..]);
      assert xs == [xs[0]] + xs[1..] && ys == [ys[0]] + ys[1..];
    }
  }

  /**
   * The warp command is determined by which groups are selected: between the
   * fixed prefix and the input/output tail stand exactly the selected groups,
   * in Rank order, and nothing else.
   */
  lemma WarpCommandOfSelection(
    tifFile: string, nodata: int, cutline: Option<string>, resolution: Option<Resolution>,
    resample: Option<string>, srs: Option<string>, numWorkers: int, gdalMem: Option<int>, gs: seq<WarpFlags>)
    requires RankOrdered(gs)
    requires forall g :: g in gs <==> Selected(g, cutline, resolution, resample, srs, numWorkers, gdalMem)
    ensures ReprojectResample(tifFile, nodata, cutline, resolution, resample, srs, numWorkers, gdalMem).warp
            == WarpPrefix(nodata) + (RenderAll(gs) + (" " + tifFile + " " + WarpOutput(tifFile)))
  {
    RankOrderedUnique(gs, WarpFlagGroups(cutline, resolution, resample, srs, numWorkers, gdalMem));
  }

  /**
   * The remove command, split into arguments, deletes the input file, when
   * the path holds no whitespace.
   */
  lemma ReprojectRemovesInput(
    tifFile: string, nodata: int, cutline: Option<string>, resolution: Option<Resolution>,
    resample: Option<string>, srs: Option<string>, numWorkers: int, gdalMem: Option<int>)
    requires IsWord(tifFile)
    ensures Split(ReprojectResample(tifFile, nodata, cutline, resolution, resample, srs, numWorkers, gdalMem).remove)
            == ["rm", tifFile]
  {
    SplitJoinWords(["rm", tifFile]);
  }

  /**
   * The rename command, split into arguments, moves the warp output onto the
   * input's name, when the path holds no whitespace.
   */
  lemma ReprojectReplacesInput(
    tifFile: string, nodata: int, cutline: Option<string>, resolution: Option<Resolution>,
    resample: Option<string>, srs: Option<string>, numWorkers: int, gdalMem: Option<int>)
    requires IsWord(tifFile)
    ensures Split(ReprojectResample(tifFile, nodata, cutline, resolution, resample, srs, numWorkers, gdalMem).move)
            == ["mv", WarpOutput(tifFile), tifFile]
  {
    WarpOutputIsWord(tifFile);
    SplitJoinWords(["mv", WarpOutput(tifFile), tifFile]);
  }

  /** The warp output of a whitespace-free path is whitespace-free. */
  lemma WarpOutputIsWord(tifFile: string)
    requires NoSpace(tifFile)
    ensures IsWord(WarpOutput(tifFile))
  {
    StripNoSpace(tifFile, TifChars);
    assert NoSpace("_warp.tif");
    NoSpaceConcat(StripTif(tifFile), "_warp.tif");
  }

  /**
   * For an absolute input path, the warp output lands in the input's own
   * directory: the strip never reaches past the last `/`.
   */
  lemma {:induction false} WarpOutputInSameDirectory(tifFile: string, slash: nat)
    requires StartsWith(tifFile, "/")
    requires slash < |tifFile| && tifFile[slash] == '/'
    ensures StartsWith(WarpOutput(tifFile), tifFile[..slash + 1])
  {
    StripKeepsUpTo(tifFile, TifChars, slash);
    var s := StripTif(tifFile);
    assert (s + "_warp.tif")[..slash + 1] == s[..slash + 1];
  }

  // ---------------------------------------------------------------------------
  // build_mosaic and merge_tifs
  // ---------------------------------------------------------------------------

  /** The manifest project_wgs writes and gdalbuildvrt reads, inside the working directory. */
  const ManifestName: string := "files.txt"

  /** The virtual mosaic gdalbuildvrt writes and gdal_translate reads. */
  const MosaicName: string := "mosaic.vrt"

  /** build_mosaic's gdalbuildvrt arguments: a VRT over the files listed in the manifest. */
  function BuildMosaicArgv(inputDir: string, nodata: int): seq<string> {
    ["gdalbuildvrt", "-srcnodata", IntToString(nodata),
     "-input_file_list", JoinPath(inputDir, ManifestName), JoinPath(inputDir, MosaicName)]
  }

  /** The fixed words of build_mosaic's command hold no whitespace. */
  lemma BuildMosaicWords()
    ensures IsWord("gdalbuildvrt") && IsWord("-srcnodata") && IsWord("-input_file_list")
    ensures NoSpace(ManifestName) && NoSpace(MosaicName)
  {
    NoSpaceOfChars("gdalbuildvrt");
    NoSpaceOfChars("-srcnodata");
    NoSpaceOfChars("-input_file_list");
    NoSpaceOfChars(ManifestName);
    NoSpaceOfChars(MosaicName);
  }

  /**
   * build_mosaic's command line. `cmd.split()` hands gdalbuildvrt its
   * arguments unchanged when the directory path holds no whitespace: it reads
   * the manifest project_wgs writes in `inputDir` and writes the mosaic there.
   */
  function BuildMosaicCommand(inputDir: string, nodata: int): (cmd: string)
    ensures NoSpace(inputDir) ==> Split(cmd) == BuildMosaicArgv(inputDir, nodata)
  {
    var argv := BuildMosaicArgv(inputDir, nodata);
    assert NoSpace(inputDir) ==> Split(JoinWords(argv)) == argv by {
      if NoSpace(inputDir) {
        BuildMosaicWords();
        assert IsWord(JoinPath(inputDir, ManifestName)) && IsWord(JoinPath(inputDir, MosaicName));
        SplitJoinWords(argv);
      }
    }
    JoinWords(argv)
  }

  /** merge_tifs' gdal_translate arguments: materialise the VRT into the output GeoTIFF. */
  function MergeArgv(inputDir: string, tifFile: string): seq<string> {
    ["gdal_translate", "-co", "COMPRESS=LZW", "-co", "BIGTIFF=YES", JoinPath(inputDir, MosaicName), tifFile]
  }

  /** The fixed words of merge_tifs' command hold no whitespace. */
  lemma MergeWords()
    ensures IsWord("gdal_translate") && IsWord("-co") && IsWord("COMPRESS=LZW") && IsWord("BIGTIFF=YES")
    ensures NoSpace(MosaicName)
  {
    NoSpaceOfChars("gdal_translate");
    NoSpaceOfChars("-co");
    NoSpaceOfChars("COMPRESS=LZW");
    NoSpaceOfChars("BIGTIFF=YES");
    NoSpaceOfChars(MosaicName);
  }

  /**
   * merge_tifs' command line. `cmd.split()` hands gdal_translate its
   * arguments unchanged when the paths hold no whitespace: it reads the
   * mosaic build_mosaic wrote in `inputDir` and writes `tifFile`.
   */
  function MergeCommand(inputDir: string, tifFile: string): (cmd: string)
    ensures NoSpace(inputDir) && IsWord(tifFile) ==> Split(cmd) == MergeArgv(inputDir, tifFile)
  {
    var argv := MergeArgv(inputDir, tifFile);
    assert NoSpace(inputDir) && IsWord(tifFile) ==> Split(JoinWords(argv)) == argv by {
      if NoSpace(inputDir) && IsWord(tifFile) {
        MergeWords();
        assert IsWord(JoinPath(inputDir, MosaicName));
        SplitJoinWords(argv);
      }
    }
    JoinWords(argv)
  }

  // ---------------------------------------------------------------------------
  // project_wgs: reproject every .tif-like entry of the directory to WGS84.
  // ---------------------------------------------------------------------------

  /** The entries project_wgs processes: names ending in "tif" (not only ".tif"). */
  predicate Reprojected(name: string) {
    EndsWith(name, "tif")
  }

  /** `name.strip('.tif') + '_wgs.tif'`. */
  function WgsOutputName(name: string): (out: string)
    ensures EndsWith(out, "_wgs.tif")
  {
    StripTif(name) + "_wgs.tif"
  }

  /** The gdalwarp arguments for one entry of `dir`: warp it to EPSG:4326 beside itself. */
  function WgsArgv(dir: string, name: string): seq<string> {
    ["gdalwarp", "-r", "cubic", "-t_srs", "EPSG:4326", "-co", "COMPRESS=LZW",
     JoinPath(dir, name), JoinPath(dir, WgsOutputName(name))]
  }

  /** The fixed words of the gdalwarp call hold no whitespace. */
  lemma WgsWords()
    ensures IsWord("gdalwarp") && IsWord("-r") && IsWord("cubic") && IsWord("-t_srs")
    ensures IsWord("EPSG:4326") && IsWord("-co") && IsWord("COMPRESS=LZW") && NoSpace("_wgs.tif")
  {
    NoSpaceOfChars("gdalwarp");
    NoSpaceOfChars("-r");
    NoSpaceOfChars("cubic");
    NoSpaceOfChars("-t_srs");
    NoSpaceOfChars("EPSG:4326");
    NoSpaceOfChars("-co");
    NoSpaceOfChars("COMPRESS=LZW");
    NoSpaceOfChars("_wgs.tif");
  }

  /**
   * The gdalwarp call for one entry of `dir`. For a processed entry and a
   * directory without whitespace, `cmd.split()` hands gdalwarp the entry's
   * path and its output's path in the same directory.
   */
  function WgsCommand(dir: string, name: string): (cmd: string)
    ensures Reprojected(name) && NoSpace(dir) && NoSpace(name) ==> Split(cmd) == WgsArgv(dir, name)
  {
    var argv := WgsArgv(dir, name);
    assert Reprojected(name) && NoSpace(dir) && NoSpace(name) ==> Split(JoinWords(argv)) == argv by {
      if Reprojected(name) && NoSpace(dir) && NoSpace(name) {
        WgsWords();
        StripNoSpace(name, TifChars);
        NoSpaceConcat(StripTif(name), "_wgs.tif");
        assert IsWord(JoinPath(dir, name)) && IsWord(JoinPath(dir, WgsOutputName(name)));
        SplitJoinWords(argv);
      }
    }
    JoinWords(argv)
  }

  /**
   * What one project_wgs pass depends on besides the listing: the `verbose`
   * flag, how an entry's output is named, and which entries' gdalwarp calls
   * (WgsCommand) succeed. The properties below hold for any naming that ends
   * its outputs in "_wgs.tif"; ProjectWgs uses WgsOutputName.
   */
  datatype WgsPass = WgsPass(verbose: bool, outName: string -> string, warpSucceeds: string -> bool)

  /** The pass ProjectWgs performs. */
  function ProjectWgsPass(verbose: bool, warpSucceeds: string -> bool): (p: WgsPass)
    ensures MarksOutputs(p)
  {
    WgsPass(verbose, WgsOutputName, warpSucceeds)
  }

  /** Every output name ends in "_wgs.tif". */
  ghost predicate MarksOutputs(p: WgsPass) {
    forall x :: EndsWith(p.outName(x), "_wgs.tif")
  }

  /** The entry is processed and its gdalwarp call succeeds. */
  predicate Warped(name: string, p: WgsPass) {
    Reprojected(name) && p.warpSucceeds(name)
  }

  /** A directory listing: no name twice, and exactly the names in `entries`. */
  ghost predicate IsListing(listing: seq<string>, entries: set<string>) {
    && (forall i, j :: 0 <= i < j < |listing| ==> listing[i] != listing[j])
    && (forall n :: n in listing <==> n in entries)
  }

  /** The directory after processing one entry: the output appears if the warp succeeded, the input goes. */
  function WgsStep(entries: set<string>, name: string, p: WgsPass): set<string> {
    if !Reprojected(name) then entries
    else if p.warpSucceeds(name) then (entries + {p.outName(name)}) - {name}
    else entries - {name}
  }

  /** The directory after processing the first `n` entries of `listing` in order. */
  function EntriesAfterWgs(entries: set<string>, listing: seq<string>, n: nat, p: WgsPass): set<string>
    requires n <= |listing|
  {
    if n == 0 then entries
    else WgsStep(EntriesAfterWgs(entries, listing, n - 1, p), listing[n - 1], p)
  }

  /**
   * The output one entry records in files.txt: only a successful warp, and
   * only when verbose. (The line is the output's path inside the directory; see InDir.)
   */
  function ManifestLine(name: string, p: WgsPass): seq<string> {
    if Warped(name, p) && p.verbose then [p.outName(name)] else []
  }

  /** The outputs recorded in files.txt after processing the first `n` entries of `listing` in order. */
  function ManifestAfterWgs(listing: seq<string>, n: nat, p: WgsPass): seq<string>
    requires n <= |listing|
  {
    if n == 0 then [] else ManifestAfterWgs(listing, n - 1, p) + ManifestLine(listing[n - 1], p)
  }

  /** The lines written for outputs `names`: each joined onto the directory. */
  function InDir(dir: string, names: seq<string>): (paths: seq<string>)
    ensures |paths| == |names|
    decreases |names|
  {
    if names == [] then []
    else InDir(dir, names[..|names| - 1]) + [JoinPath(dir, names[|names| - 1])]
  }

  /** One output gives one line. */
  lemma InDirSingle(dir: string, name: string)
    ensures InDir(dir, [name]) == [JoinPath(dir, name)]
  {
    assert [name][..0] == [];
  }

  /** Joining onto the directory works line by line. */
  lemma {:induction false} InDirConcat(dir: string, a: seq<string>, b: seq<string>)
    ensures InDir(dir, a + b) == InDir(dir, a) + InDir(dir, b)
    decreases |b|
  {
    if b == [] {
      assert a + b == a;
    } else {
      var front := b[..|b| - 1];
      assert (a + b)[..|a + b| - 1] == a + front;
      InDirConcat(dir, a, front);
    }
  }

  /** The working directory: the names it holds and the lines written to its files.txt. */
  class TempDir {
    const path: string
    var entries: set<string>
    var manifest: seq<string>

    constructor (path: string, entries: set<string>)
      ensures this.path == path && this.entries == entries && manifest == []
    {
      this.path := path;
      this.entries := entries;
      manifest := [];
    }

    /**
     * project_wgs over a listing of the directory taken before files.txt is
     * opened (and so created and emptied): each entry ending in "tif" is warped
     * and then removed whatever the outcome; the output path is written to
     * files.txt only when the warp succeeded and `verbose` is set.
     */
    method ProjectWgs(listing: seq<string>, verbose: bool, warpSucceeds: string -> bool)
      requires IsListing(listing, entries)
      modifies this
      ensures var p := ProjectWgsPass(verbose, warpSucceeds);
              && entries == EntriesAfterWgs(old(entries) + {ManifestName}, listing, |listing|, p)
              && manifest == InDir(path, ManifestAfterWgs(listing, |listing|, p))
    {
      ghost var p := ProjectWgsPass(verbose, warpSucceeds);
      ghost var initial := entries + {ManifestName};
      entries := entries + {ManifestName};
      manifest := [];
      var i := 0;
      while i < |listing|
        invariant 0 <= i <= |listing|
        invariant entries == EntriesAfterWgs(initial, listing, i, p)
        invariant manifest == InDir(path, ManifestAfterWgs(listing, i, p))
        invariant forall j :: i <= j < |listing| ==> listing[j] in entries
      {
        WarpEntry(listing[i], verbose, warpSucceeds);
        InDirConcat(path, ManifestAfterWgs(listing, i, p), ManifestLine(listing[i], p));
        i := i + 1;
      }
    }

    /**
     * One iteration of project_wgs: an entry ending in "tif" is warped, its
     * output path written to files.txt when the warp succeeded and `verbose` is
     * set, and the entry removed; os.remove requires it to be there.
     */
    method WarpEntry(name: string, verbose: bool, warpSucceeds: string -> bool)
      requires Reprojected(name) ==> name in entries
      modifies this
      ensures var p := ProjectWgsPass(verbose, warpSucceeds);
              && entries == WgsStep(old(entries), name, p)
              && manifest == old(manifest) + InDir(path, ManifestLine(name, p))
    {
      ghost var p := ProjectWgsPass(verbose, warpSucceeds);
      if EndsWith(name, "tif") {
        var out := WgsOutputName(name);
        var outfile := JoinPath(path, out);
        if warpSucceeds(name) {
          entries := entries + {out};
          if verbose {
            manifest := manifest + [outfile];
            assert ManifestLine(name, p) == [out];
            InDirSingle(path, out);
          } else {
            assert ManifestLine(name, p) == [];
          }
        } else {
          assert ManifestLine(name, p) == [];
        }
        entries := entries - {name};
      } else {
        assert ManifestLine(name, p) == [];
      }
    }
  }

  // ---------------------------------------------------------------------------
  // What project_wgs promises about files.txt and the directory.
  // ---------------------------------------------------------------------------

  /** Without `verbose`, files.txt stays empty whatever the warps do. */
  lemma {:induction false} ManifestEmptyUnlessVerbose(listing: seq<string>, n: nat, p: WgsPass)
    requires n <= |listing| && !p.verbose
    ensures |ManifestAfterWgs(listing, n, p)| == 0
  {
    if n > 0 {
      ManifestEmptyUnlessVerbose(listing, n - 1, p);
    }
  }

  /**
   * With `verbose`, files.txt holds the output path of exactly the entries
   * whose warp succeeded, in listing order: line i belongs to entry idx[i],
   * the indices increase, and every successful entry has its line.
   */
  lemma {:induction false} ManifestInListingOrder(listing: seq<string>, n: nat, p: WgsPass)
    returns (idx: seq<nat>)
    requires n <= |listing| && p.verbose
    ensures |idx| == |ManifestAfterWgs(listing, n, p)|
    ensures forall i :: 0 <= i < |idx| ==>
              idx[i] < n && Warped(listing[idx[i]], p)
              && ManifestAfterWgs(listing, n, p)[i] == p.outName(listing[idx[i]])
    ensures forall i, j :: 0 <= i < j < |idx| ==> idx[i] < idx[j]
    ensures forall k :: 0 <= k < n && Warped(listing[k], p) ==> k in idx
  {
    if n > 0 {
      var prev := ManifestInListingOrder(listing, n - 1, p);
      var before := ManifestAfterWgs(listing, n - 1, p);
      assert ManifestAfterWgs(listing, n, p) == before + ManifestLine(listing[n - 1], p);
      if Warped(listing[n - 1], p) {
        assert ManifestAfterWgs(listing, n, p) == before + [p.outName(listing[n - 1])];
        idx := prev + [n - 1];
      } else {
        assert ManifestAfterWgs(listing, n, p) == before;
        idx := prev;
      }
    } else {
      idx := [];
    }
  }

  /** Entries not ending in "tif" (files.txt among them) are left in place. */
  lemma {:induction false} OtherEntriesUntouched(
    entries: set<string>, listing: seq<string>, n: nat, p: WgsPass, name: string)
    requires n <= |listing|
    requires name in entries && !Reprojected(name)
    ensures name in EntriesAfterWgs(entries, listing, n, p)
  {
    if n > 0 {
      OtherEntriesUntouched(entries, listing, n - 1, p, name);
    }
  }

  /**
   * A processed entry is gone afterwards, whether or not its warp succeeded,
   * unless its own name ends in "_wgs.tif" (an output may re-create it).
   */
  lemma {:induction false} ProcessedEntriesRemoved(
    entries: set<string>, listing: seq<string>, n: nat, p: WgsPass, k: nat)
    requires k < n <= |listing| && MarksOutputs(p)
    requires Reprojected(listing[k]) && !EndsWith(listing[k], "_wgs.tif")
    ensures listing[k] !in EntriesAfterWgs(entries, listing, n, p)
  {
    if k < n - 1 {
      ProcessedEntriesRemoved(entries, listing, n - 1, p, k);
      assert EndsWith(p.outName(listing[n - 1]), "_wgs.tif");
    }
  }

  /** Nothing appears in the directory but the outputs of successful warps. */
  lemma {:induction false} OnlyOutputsAppear(
    entries: set<string>, listing: seq<string>, n: nat, p: WgsPass, name: string)
    requires n <= |listing|
    requires name in EntriesAfterWgs(entries, listing, n, p)
    ensures name in entries || exists k :: 0 <= k < n && Warped(listing[k], p) && name == p.outName(listing[k])
  {
    if n > 0 {
      if name in EntriesAfterWgs(entries, listing, n - 1, p) {
        OnlyOutputsAppear(entries, listing, n - 1, p, name);
      } else {
        assert Warped(listing[n - 1], p) && name == p.outName(listing[n - 1]);
      }
    }
  }

  /**
   * The output of a successful warp stays, unless an entry of that very name
   * is processed from then on (os.remove deletes it).
   */
  lemma {:induction false} OutputsKept(
    entries: set<string>, listing: seq<string>, n: nat, p: WgsPass, k: nat)
    requires k < n <= |listing|
    requires Warped(listing[k], p)
    requires forall j :: k <= j < n ==> listing[j] != p.outName(listing[k])
    ensures p.outName(listing[k]) in EntriesAfterWgs(entries, listing, n, p)
  {
    if k < n - 1 {
      OutputsKept(entries, listing, n - 1, p, k);
    }
  }

  /** Two entries can share an output name: "fit.tif" and "if.tif" both become "_wgs.tif". */
  lemma SharedOutputName()
    ensures WgsOutputName("fit.tif") == "_wgs.tif"
    ensures WgsOutputName("if.tif") == "_wgs.tif"
  {
    StripAll("fit.tif", TifChars);
    StripAll("if.tif", TifChars);
  }

  /**
   * So the second warp writes into the same file as the first and, with `verbose`,
   * files.txt lists that one path twice.
   */
  lemma SharedOutputListedTwice(dir: string, warpSucceeds: string -> bool)
    requires warpSucceeds("fit.tif") && warpSucceeds("if.tif")
    ensures InDir(dir, ManifestAfterWgs(["fit.tif", "if.tif"], 2, ProjectWgsPass(true, warpSucceeds)))
            == [JoinPath(dir, "_wgs.tif"), JoinPath(dir, "_wgs.tif")]
  {
    SharedOutputName();
    var listing := ["fit.tif", "if.tif"];
    var p := ProjectWgsPass(true, warpSucceeds);
    assert Warped(listing[0], p) && Warped(listing[1], p);
    assert ManifestAfterWgs(listing, 1, p) == ["_wgs.tif"];
    assert ManifestAfterWgs(listing, 2, p) == ["_wgs.tif", "_wgs.tif"];
  }
}
