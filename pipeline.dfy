/**
 * The command-line entry point of geotiff/__init__.py: every argument is
 * checked in a fixed order, then the scenes or tiles are dumped into ~/tmp,
 * reprojected to WGS84, mosaicked, merged into the output GeoTIFF, the working
 * directory is removed, and the result is optionally reprojected or resampled
 * and copied to a bucket.
 *
 * The external effects are recorded as a trace of steps; whether a step
 * raises (a failed download, a non-zero exit of a checked command, a failed
 * directory removal) is an oracle. An uncaught exception ends the run.
 */
module Geotiff {
  import opened Wrappers
  import opened PyStr
  import opened ParseInputs
  import opened Gdal

  /** The parsed command line. */
  datatype Args = Args(
    tifFile: string,
    productId: string,
    bands: Option<seq<string>>,
    startDatetime: Option<string>,
    endDatetime: Option<string>,
    geojson: Option<string>,
    resolution: Option<Resolution>,
    tilesize: Option<int>,
    resample: Option<string>,
    numWorkers: int,
    nodata: int,
    srs: Option<string>,
    gdalMem: Option<int>,
    cutline: Option<string>,
    gsBucket: Option<string>,
    removeLocal: bool,
    verbose: bool)

  /** What the checks look up outside the process. */
  datatype Env = Env(
    home: string,
    loadGeojson: string -> Option<map<string, Json>>,
    productExists: bool,
    productBands: Option<seq<string>>,
    derivedBands: Option<seq<string>>,
    parses: (string, DateFormat) -> bool,
    cutlineExists: bool)

  /** The values main goes on with once every check has passed. */
  datatype Config = Config(
    tifFile: string,
    area: Area,
    productId: string,
    bands: Option<seq<string>>,
    startDatetime: Option<string>,
    endDatetime: Option<string>,
    resolution: Option<Resolution>,
    resample: Option<string>,
    tilesize: Option<int>,
    numWorkers: int,
    nodata: int,
    srs: Option<string>,
    gdalMem: Option<int>,
    cutline: Option<string>,
    gsBucket: Option<string>,
    removeLocal: bool,
    verbose: bool)

  // ---------------------------------------------------------------------------
  // The checks, in the order main runs them.
  // ---------------------------------------------------------------------------

  /** The exception a check raised, if any. */
  function ErrorOf<T>(r: Result<T, Error>): Option<Error> {
    match r
    case Success(_) => None
    case Failure(e) => Some(e)
  }

  /** The verdicts of the checks that can raise. The other checks accept every value. */
  datatype Checks = Checks(
    tifFile: Result<string, Error>,
    area: Result<Area, Error>,
    productBands: Result<(string, Option<seq<string>>), Error>,
    datetimes: Result<(Option<string>, Option<string>), Error>,
    resolutionResample: Result<(Option<Resolution>, Option<string>), Error>,
    cutline: Result<Option<string>, Error>,
    gsBucket: Result<Option<string>, Error>)

  /** What each check that can raise answers for these arguments. */
  function RunChecks(args: Args, env: Env): Checks {
    Checks(
      CheckTifFile(args.tifFile, env.home),
      CheckGeojson(args.geojson, env.loadGeojson),
      CheckProductsBands(args.productId, args.bands, env.productExists, env.productBands, env.derivedBands),
      CheckDatetimes(args.startDatetime, args.endDatetime, env.parses),
      CheckResolutionResample(args.resolution, args.resample),
      CheckCutline(args.cutline, env.cutlineExists),
      CheckGsBucket(args.gsBucket))
  }

  /**
   * The verdicts in main's order: output file, GeoJSON, product and bands,
   * datetimes, resolution and resampler, cutline, bucket.
   */
  function Verdicts(k: Checks): seq<Option<Error>> {
    [ ErrorOf(k.tifFile), ErrorOf(k.area), ErrorOf(k.productBands), ErrorOf(k.datetimes),
      ErrorOf(k.resolutionResample), ErrorOf(k.cutline), ErrorOf(k.gsBucket) ]
  }

  /** No check raised. */
  predicate AllPass(k: Checks) {
    && k.tifFile.Success? && k.area.Success? && k.productBands.Success? && k.datetimes.Success?
    && k.resolutionResample.Success? && k.cutline.Success? && k.gsBucket.Success?
  }

  /**
   * main's lines 111-124 given the verdicts: the first check that raises ends
   * the run; otherwise the checked values and the arguments the other checks
   * pass through make up the configuration.
   */
  function Assemble(args: Args, k: Checks): (r: Result<Config, Error>)
    ensures r.Success? <==> AllPass(k)
    ensures r.Success? ==>
              && r.value.tifFile == k.tifFile.value && r.value.area == k.area.value
              && (r.value.productId, r.value.bands) == k.productBands.value
              && (r.value.startDatetime, r.value.endDatetime) == k.datetimes.value
              && (r.value.resolution, r.value.resample) == k.resolutionResample.value
              && r.value.cutline == k.cutline.value && r.value.gsBucket == k.gsBucket.value
              && r.value.tilesize == args.tilesize && r.value.numWorkers == args.numWorkers
              && r.value.nodata == args.nodata && r.value.srs == args.srs && r.value.gdalMem == args.gdalMem
              && r.value.removeLocal == args.removeLocal && r.value.verbose == args.verbose
  {
    var tifFile :- k.tifFile;
    var area :- k.area;
    var (productId, bands) :- k.productBands;
    var (startDatetime, endDatetime) :- k.datetimes;
    var (resolution, resample) :- k.resolutionResample;
    var tilesize := CheckTilesize(args.tilesize);
    var numWorkers := CheckNumWorkers(args.numWorkers);
    var nodata := CheckNodata(args.nodata);
    var srs := CheckSrs(args.srs).srs;
    var gdalMem := CheckGdalMem(args.gdalMem);
    var cutline :- k.cutline;
    var gsBucket :- k.gsBucket;
    var removeLocal := CheckRemoveLocal(args.removeLocal);
    var verbose := CheckVerbose(args.verbose);
    Success(Config(tifFile, area, productId, bands, startDatetime, endDatetime, resolution, resample,
                   tilesize, numWorkers, nodata, srs, gdalMem, cutline, gsBucket, removeLocal, verbose))
  }

  /**
   * The checks of main, lines 111-124. On success the output path is placed
   * under the home directory, the area is the unwrapped geometry when a
   * GeoJSON was given, and every other value is the argument unchanged.
   */
  function Validate(args: Args, env: Env): (r: Result<Config, Error>)
    ensures r.Success? ==>
              && r.value.tifFile == JoinPath(env.home, args.tifFile)
              && EndsWith(r.value.tifFile, ".tif")
              && CheckGeojson(args.geojson, env.loadGeojson).Success?
              && r.value.area == CheckGeojson(args.geojson, env.loadGeojson).value
              && (r.value.area.Shape? <==> StrTruthy(args.geojson))
              && r.value.productId == args.productId && r.value.bands == args.bands
              && r.value.startDatetime == args.startDatetime && r.value.endDatetime == args.endDatetime
              && r.value.resolution == args.resolution && r.value.resample == args.resample
              && r.value.tilesize == args.tilesize && r.value.numWorkers == args.numWorkers
              && r.value.nodata == args.nodata && r.value.srs == args.srs && r.value.gdalMem == args.gdalMem
              && r.value.cutline == args.cutline && r.value.gsBucket == args.gsBucket
              && r.value.removeLocal == args.removeLocal && r.value.verbose == args.verbose
  {
    Assemble(args, RunChecks(args, env))
  }

  /** The first exception among verdicts from position i on, if any. */
  function FirstError(v: seq<Option<Error>>, i: nat): Option<Error>
    requires i <= |v|
    decreases |v| - i
  {
    if i == |v| then None
    else if v[i].Some? then v[i]
    else FirstError(v, i + 1)
  }

  /**
   * FirstError finds nothing exactly when no verdict from position i on is an
   * exception, and otherwise an exception preceded only by passing verdicts.
   */
  lemma {:induction false} FirstErrorIsFirst(v: seq<Option<Error>>, i: nat)
    requires i <= |v|
    ensures FirstError(v, i).None? <==> forall j :: i <= j < |v| ==> v[j].None?
    ensures FirstError(v, i).Some? ==>
              exists j :: i <= j < |v| && v[j] == FirstError(v, i) && forall l :: i <= l < j ==> v[l].None?
    decreases |v| - i
  {
    if i < |v| && v[i].None? {
      FirstErrorIsFirst(v, i + 1);
    }
  }

  /**
   * The configuration is built exactly when no check raises, and otherwise
   * the exception is that of the first check, in main's order, that raises.
   */
  lemma {:induction false} AssembleReportsFirstFailure(args: Args, k: Checks)
    ensures Assemble(args, k).Success? <==> FirstError(Verdicts(k), 0).None?
    ensures Assemble(args, k).Failure? ==> FirstError(Verdicts(k), 0) == Some(Assemble(args, k).error)
  {
    var v := Verdicts(k);
    var r := Assemble(args, k);
    if v[0].Some? {
      assert r == Failure(v[0].value);
      assert FirstError(v, 0) == v[0];
    } else if v[1].Some? {
      assert r == Failure(v[1].value);
      assert FirstError(v, 0) == FirstError(v, 1) == v[1];
    } else if v[2].Some? {
      assert r == Failure(v[2].value);
      assert FirstError(v, 0) == FirstError(v, 1) == FirstError(v, 2) == v[2];
    } else if v[3].Some? {
      assert r == Failure(v[3].value);
      assert FirstError(v, 0) == FirstError(v, 1) == FirstError(v, 2) == FirstError(v, 3) == v[3];
    } else if v[4].Some? {
      assert r == Failure(v[4].value);
      assert FirstError(v, 0) == FirstError(v, 1) == FirstError(v, 2) == FirstError(v, 3) == FirstError(v, 4) == v[4];
    } else if v[5].Some? {
      assert r == Failure(v[5].value);
      assert FirstError(v, 0) == FirstError(v, 1) == FirstError(v, 2) == FirstError(v, 3) == FirstError(v, 4) == FirstError(v, 5) == v[5];
    } else if v[6].Some? {
      assert r == Failure(v[6].value);
      assert FirstError(v, 0) == FirstError(v, 1) == FirstError(v, 2) == FirstError(v, 3) == FirstError(v, 4) == FirstError(v, 5) == FirstError(v, 6) == v[6];
    } else {
      assert r.Success?;
      assert FirstError(v, 0) == FirstError(v, 1) == FirstError(v, 2) == FirstError(v, 3) == FirstError(v, 4) == FirstError(v, 5) == FirstError(v, 6) == FirstError(v, 7) == None;
    }
  }

  /** ValidateReportsFirstFailure: main reports the exception of the first check that raises. */
  lemma ValidateReportsFirstFailure(args: Args, env: Env)
    ensures Validate(args, env).Success? <==> FirstError(Verdicts(RunChecks(args, env)), 0).None?
    ensures Validate(args, env).Failure? ==>
              FirstError(Verdicts(RunChecks(args, env)), 0) == Some(Validate(args, env).error)
  {
    AssembleReportsFirstFailure(args, RunChecks(args, env));
  }

  // ---------------------------------------------------------------------------
  // The steps of a run.
  // ---------------------------------------------------------------------------

  /** What main asks the platform for: the imagery, its time range and area, and the download parallelism. */
  datatype Query = Query(
    productId: string,
    bands: Option<seq<string>>,
    startDatetime: Option<string>,
    endDatetime: Option<string>,
    geometry: Area,
    numWorkers: int)

  /**
   * An external effect of main, with the arguments main passes. `verbose` is
   * recorded only where it changes the effect (the manifest of project_wgs);
   * elsewhere it only controls printing.
   */
  datatype Step =
    | MakeTempDir(dir: string)
    | DumpScenes(query: Query, dir: string)
    | DumpTiles(query: Query, resolution: Option<Resolution>, tilesize: int, dir: string)
    | ProjectWgsStep(dir: string, verbose: bool)
    | BuildMosaicStep(dir: string, nodata: int)
    | MergeTifsStep(dir: string, tifFile: string)
    | RemoveTempDir(dir: string)
    | ReprojectStep(tifFile: string, nodata: int, cutline: Option<string>, resolution: Option<Resolution>,
                    resample: Option<string>, srs: Option<string>, numWorkers: int, gdalMem: Option<int>)
    | CopyToGs(tifFile: string, bucket: string, removeLocal: bool)

  /** The position of each kind of step in main. */
  function Stage(s: Step): nat {
    match s
    case MakeTempDir(_) => 0
    case DumpScenes(_, _) => 1
    case DumpTiles(_, _, _, _) => 1
    case ProjectWgsStep(_, _) => 2
    case BuildMosaicStep(_, _) => 3
    case MergeTifsStep(_, _) => 4
    case RemoveTempDir(_) => 5
    case ReprojectStep(_, _, _, _, _, _, _, _) => 6
    case CopyToGs(_, _, _) => 7
  }

  /** The working directory: ~/tmp. */
  function TempDirOf(home: string): string {
    JoinPath(home, "tmp")
  }

  /** The query main passes to dump_scenes and dump_tiles. */
  function QueryOf(c: Config): Query {
    Query(c.productId, c.bands, c.startDatetime, c.endDatetime, c.area, c.numWorkers)
  }

  /** Scenes are dumped without a tile size, tiles (at the resolution) with one. */
  function DumpOf(c: Config, dir: string): Step {
    if c.tilesize.None? then DumpScenes(QueryOf(c), dir) else DumpTiles(QueryOf(c), c.resolution, c.tilesize.value, dir)
  }

  /** The final reprojection, with the values main passes to reproject_resample. */
  function ReprojectionOf(c: Config): Step {
    ReprojectStep(c.tifFile, c.nodata, c.cutline, c.resolution, c.resample, c.srs, c.numWorkers, c.gdalMem)
  }

  /**
   * Whether main performs step `s`, and with these arguments: the directory
   * is created only when missing; scenes are dumped without a tile size and
   * tiles with one; the WGS84 pass, the mosaic, the merge and the removal of
   * the directory always run; the final reprojection runs for a truthy
   * resolution or SRS, the copy for a truthy bucket.
   */
  predicate Planned(s: Step, c: Config, dir: string, tmpExists: bool) {
    match s
    case MakeTempDir(d) => !tmpExists && d == dir
    case DumpScenes(q, d) => c.tilesize.None? && q == QueryOf(c) && d == dir
    case DumpTiles(q, r, t, d) => c.tilesize == Some(t) && q == QueryOf(c) && r == c.resolution && d == dir
    case ProjectWgsStep(d, v) => d == dir && v == c.verbose
    case BuildMosaicStep(d, n) => d == dir && n == c.nodata
    case MergeTifsStep(d, t) => d == dir && t == c.tifFile
    case RemoveTempDir(d) => d == dir
    case ReprojectStep(_, _, _, _, _, _, _, _) => (ResolutionTruthy(c.resolution) || StrTruthy(c.srs)) && s == ReprojectionOf(c)
    case CopyToGs(t, b, rm) => StrTruthy(c.gsBucket) && t == c.tifFile && b == c.gsBucket.value && rm == c.removeLocal
  }

  /** The steps of a run in which nothing raises, in main's order. */
  function Plan(c: Config, dir: string, tmpExists: bool): (plan: seq<Step>)
    ensures forall i :: 0 <= i < |plan| - 1 ==> Stage(plan[i]) < Stage(plan[i + 1])
  {
    (if tmpExists then [] else [MakeTempDir(dir)])
    + [DumpOf(c, dir)]
    + [ProjectWgsStep(dir, c.verbose), BuildMosaicStep(dir, c.nodata), MergeTifsStep(dir, c.tifFile), RemoveTempDir(dir)]
    + FinalSteps(c)
  }

  /** The optional last steps: the reprojection for a truthy resolution or SRS, then the copy for a truthy bucket. */
  function FinalSteps(c: Config): seq<Step> {
    (if ResolutionTruthy(c.resolution) || StrTruthy(c.srs) then [ReprojectionOf(c)] else [])
    + (if StrTruthy(c.gsBucket) then [CopyToGs(c.tifFile, c.gsBucket.value, c.removeLocal)] else [])
  }

  /** A run that does not raise performs exactly the planned steps. */
  lemma PlanContents(c: Config, dir: string, tmpExists: bool)
    ensures forall s :: s in Plan(c, dir, tmpExists) <==> Planned(s, c, dir, tmpExists)
  {
    PlanPerformsPlanned(c, dir, tmpExists);
    PlanPerformsOnlyPlanned(c, dir, tmpExists);
  }

  /** PlanContents, one direction: every planned step is performed. */
  lemma PlanPerformsPlanned(c: Config, dir: string, tmpExists: bool)
    ensures forall s :: Planned(s, c, dir, tmpExists) ==> s in Plan(c, dir, tmpExists)
  {
    var make := if tmpExists then [] else [MakeTempDir(dir)];
    var dump := [DumpOf(c, dir)];
    var mosaic := [ProjectWgsStep(dir, c.verbose), BuildMosaicStep(dir, c.nodata), MergeTifsStep(dir, c.tifFile), RemoveTempDir(dir)];
    var reproject := if ResolutionTruthy(c.resolution) || StrTruthy(c.srs) then [ReprojectionOf(c)] else [];
    var copy := if StrTruthy(c.gsBucket) then [CopyToGs(c.tifFile, c.gsBucket.value, c.removeLocal)] else [];
    var plan := Plan(c, dir, tmpExists);
    assert plan == make + dump + mosaic + reproject + copy;
    forall s | Planned(s, c, dir, tmpExists)
      ensures s in plan
    {
      assert s in make || s in dump || s in mosaic || s in reproject || s in copy;
    }
  }

  /** PlanContents, other direction: nothing unplanned is performed. */
  lemma PlanPerformsOnlyPlanned(c: Config, dir: string, tmpExists: bool)
    ensures forall s :: s in Plan(c, dir, tmpExists) ==> Planned(s, c, dir, tmpExists)
  {
    var make := if tmpExists then [] else [MakeTempDir(dir)];
    var dump := [DumpOf(c, dir)];
    var mosaic := [ProjectWgsStep(dir, c.verbose), BuildMosaicStep(dir, c.nodata), MergeTifsStep(dir, c.tifFile), RemoveTempDir(dir)];
    var reproject := if ResolutionTruthy(c.resolution) || StrTruthy(c.srs) then [ReprojectionOf(c)] else [];
    var copy := if StrTruthy(c.gsBucket) then [CopyToGs(c.tifFile, c.gsBucket.value, c.removeLocal)] else [];
    var plan := Plan(c, dir, tmpExists);
    assert plan == make + dump + mosaic + reproject + copy;
    forall s | s in plan
      ensures Planned(s, c, dir, tmpExists)
    {
      assert s in make || s in dump || s in mosaic || s in reproject || s in copy;
    }
  }

  /** The planned steps come in the order of their stages. */
  lemma {:induction false} PlanOrdered(c: Config, dir: string, tmpExists: bool, i: nat, j: nat)
    requires i < j < |Plan(c, dir, tmpExists)|
    ensures Stage(Plan(c, dir, tmpExists)[i]) < Stage(Plan(c, dir, tmpExists)[j])
    decreases j - i
  {
    if i + 1 < j {
      PlanOrdered(c, dir, tmpExists, i + 1, j);
    }
  }

  /** How a run ends. */
  datatype Outcome =
    | Done
    | Invalid(error: Error)   // a check raised before anything was done
    | Crashed(at: Step)       // a step raised; nothing after it ran

  /**
   * Performing `plan` from step k on, when no earlier step raised: the steps
   * performed up to and including the first that raises, and how the run ends.
   */
  function Execute(plan: seq<Step>, raises: Step -> bool, k: nat): (r: (seq<Step>, Outcome))
    requires k <= |plan|
    ensures k <= |r.0| && r.0 <= plan && !r.1.Invalid?
    decreases |plan| - k
  {
    if k == |plan| then (plan, Done)
    else if raises(plan[k]) then (plan[..k + 1], Crashed(plan[k]))
    else Execute(plan, raises, k + 1)
  }

  /**
   * An uncaught exception ends the run: the steps performed are a prefix of
   * the plan, none but the last raised, the run is done exactly when the
   * whole plan ran without raising, and it crashed exactly at a last step
   * that raised.
   */
  lemma {:induction false} ExecuteStopsAtFirstRaise(plan: seq<Step>, raises: Step -> bool, k: nat)
    requires k <= |plan|
    requires forall i :: 0 <= i < k ==> !raises(plan[i])
    ensures var (trace, outcome) := Execute(plan, raises, k);
            && k <= |trace| && trace <= plan
            && (forall i :: 0 <= i < |trace| - 1 ==> !raises(trace[i]))
            && (outcome == Done <==> trace == plan && forall i :: 0 <= i < |trace| ==> !raises(trace[i]))
            && (outcome.Crashed? <==> trace != [] && raises(trace[|trace| - 1]))
            && (outcome.Crashed? ==> outcome.at == trace[|trace| - 1])
            && !outcome.Invalid?
    decreases |plan| - k
  {
    if k < |plan| && !raises(plan[k]) {
      ExecuteStopsAtFirstRaise(plan, raises, k + 1);
    }
  }

  /**
   * One call of main into the outside world: step `step`, the k-th of the
   * plan, is performed and raises or returns.
   */
  method Perform(ghost plan: seq<Step>, ghost k: nat, trace: seq<Step>, step: Step, raises: Step -> bool)
    returns (trace': seq<Step>, raised: bool)
    requires k < |plan| && plan[k] == step && trace == plan[..k]
    ensures trace' == plan[..k + 1] && raised == raises(step)
    ensures raised ==> Execute(plan, raises, k) == (trace', Crashed(step))
    ensures !raised ==> Execute(plan, raises, k) == Execute(plan, raises, k + 1)
  {
    trace' := trace + [step];
    raised := raises(step);
  }

  /**
   * The steps of main after the checks, lines 126-211: each external call in
   * turn, an exception ending the run.
   */
  method RunPlan(c: Config, dir: string, tmpExists: bool, raises: Step -> bool)
    returns (trace: seq<Step>, outcome: Outcome)
    ensures (trace, outcome) == Execute(Plan(c, dir, tmpExists), raises, 0)
  {
    ghost var plan := Plan(c, dir, tmpExists);
    ghost var k := 0;
    var raised;
    trace := [];

    if !tmpExists {
      trace, raised := Perform(plan, k, trace, MakeTempDir(dir), raises);
      if raised {
        return trace, Crashed(MakeTempDir(dir));
      }
      k := k + 1;
    }
    assert trace == plan[..k] && Execute(plan, raises, 0) == Execute(plan, raises, k);
    var dump := DumpOf(c, dir);
    trace, raised := Perform(plan, k, trace, dump, raises);
    if raised {
      return trace, Crashed(dump);
    }
    var steps := [ProjectWgsStep(dir, c.verbose), BuildMosaicStep(dir, c.nodata),
                  MergeTifsStep(dir, c.tifFile), RemoveTempDir(dir)];
    for n := 0 to 4
      invariant trace == plan[..k + 1 + n] && Execute(plan, raises, 0) == Execute(plan, raises, k + 1 + n)
    {
      trace, raised := Perform(plan, k + 1 + n, trace, steps[n], raises);
      if raised {
        return trace, Crashed(steps[n]);
      }
    }
    k := k + 5;
    assert plan[k..] == FinalSteps(c);
    trace, outcome := RunFinalSteps(c, plan, k, trace, raises);
  }

  /** The end of main, lines 187-211: the optional reprojection, then the optional copy. */
  method RunFinalSteps(c: Config, ghost plan: seq<Step>, ghost k: nat, trace: seq<Step>, raises: Step -> bool)
    returns (trace': seq<Step>, outcome: Outcome)
    requires k <= |plan| && trace == plan[..k] && plan[k..] == FinalSteps(c)
    ensures (trace', outcome) == Execute(plan, raises, k)
  {
    ghost var j := k;
    var raised;
    trace' := trace;
    if ResolutionTruthy(c.resolution) || StrTruthy(c.srs) {
      var step := ReprojectionOf(c);
      assert plan[j] == plan[k..][0];
      trace', raised := Perform(plan, j, trace', step, raises);
      if raised {
        return trace', Crashed(step);
      }
      j := j + 1;
    }
    if StrTruthy(c.gsBucket) {
      var step := CopyToGs(c.tifFile, c.gsBucket.value, c.removeLocal);
      assert plan[j] == plan[k..][j - k];
      trace', raised := Perform(plan, j, trace', step, raises);
      if raised {
        return trace', Crashed(step);
      }
      j := j + 1;
    }
    assert j == |plan| && trace' == plan;
    outcome := Done;
  }

  /**
   * main: the checks, and when they all pass the steps of the plan for the
   * working directory ~/tmp. `tmpExists` is whether ~/tmp exists at the
   * start; `raises` says which steps raise.
   */
  method Run(args: Args, env: Env, tmpExists: bool, raises: Step -> bool)
    returns (trace: seq<Step>, outcome: Outcome)
    ensures Validate(args, env).Failure? ==> trace == [] && outcome == Invalid(Validate(args, env).error)
    ensures Validate(args, env).Success? ==>
              (trace, outcome) == Execute(Plan(Validate(args, env).value, TempDirOf(env.home), tmpExists), raises, 0)
  {
    var checked := Validate(args, env);
    if checked.Failure? {
      return [], Invalid(checked.error);
    }
    trace, outcome := RunPlan(checked.value, TempDirOf(env.home), tmpExists, raises);
  }

  // ---------------------------------------------------------------------------
  // What the order of main promises.
  // ---------------------------------------------------------------------------

  /**
   * A run that stops before the directory removal (a failed dump, WGS84 pass,
   * mosaic or merge) leaves ~/tmp in place: no prefix of the plan that ends
   * before stage 5 removes it.
   */
  lemma {:induction false} CrashKeepsTempDir(c: Config, dir: string, tmpExists: bool, trace: seq<Step>)
    requires trace <= Plan(c, dir, tmpExists) && trace != []
    requires Stage(trace[|trace| - 1]) < 5
    ensures forall i :: 0 <= i < |trace| ==> !trace[i].RemoveTempDir?
  {
    var plan := Plan(c, dir, tmpExists);
    forall i | 0 <= i < |trace|
      ensures !trace[i].RemoveTempDir?
    {
      if i < |trace| - 1 {
        assert Stage(plan[i]) < Stage(plan[|trace| - 1]);
      }
    }
  }

  /**
   * The merge writes the output file before any step that reads it: the
   * final reprojection and the copy come after the merge in every plan.
   */
  lemma {:induction false} OutputWrittenBeforeUse(c: Config, dir: string, tmpExists: bool, i: nat)
    requires i < |Plan(c, dir, tmpExists)|
    requires Plan(c, dir, tmpExists)[i].ReprojectStep? || Plan(c, dir, tmpExists)[i].CopyToGs?
    ensures exists j :: 0 <= j < i && Plan(c, dir, tmpExists)[j].MergeTifsStep?
  {
    var plan := Plan(c, dir, tmpExists);
    var m := if tmpExists then 3 else 4;
    assert plan[m] == MergeTifsStep(dir, c.tifFile);
    assert forall k :: 0 <= k <= m + 1 ==> !plan[k].ReprojectStep? && !plan[k].CopyToGs?;
  }
}
