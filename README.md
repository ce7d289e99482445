# dl-geotiff in Dafny

A model of the core of dl-geotiff, a command-line tool. It downloads imagery
as scenes or tiles into a working directory `~/tmp`. It then:

- reprojects every GeoTIFF there to WGS84;
- mosaics them with `gdalbuildvrt` and merges them into one output GeoTIFF with
  `gdal_translate`;
- removes the working directory;
- optionally reprojects, resamples or cuts the output with `gdalwarp`;
- optionally copies the output to a Google Storage bucket.

The model covers three parts:

- **The input checks** of `geotiff/utils/parse_inputs.py` (`parse_inputs.dfy`,
  module `ParseInputs`).
  - Each check is a function returning a `Result`; a raised `ValueError` is a
    `Failure`.
  - Python truthiness is spelled out: `None`, `0`, `0.0`, `""` and `[]` are
    false.
  - What a check looks up outside the process is a parameter. That covers the
    home directory, the GeoJSON file or place lookup, product and cutline
    existence, the band lists, and whether `strptime` accepts a string in a
    given format.
- **The GDAL wrappers** of `geotiff/utils/gdal.py` (`gdal.dfy`, module `Gdal`).
  - `reproject_resample`, `build_mosaic` and `merge_tifs` become the command
    strings they build. Lemmas state what those commands contain and what
    `cmd.split()` hands each tool.
  - `project_wgs` becomes the class `TempDir`, with the directory's names and
    the lines of its `files.txt` as fields, and the method `ProjectWgs` looping
    over a listing of the directory.
  - Output names use `str.strip('.tif')`, a *character-set* strip: it removes
    any of `.`, `t`, `i`, `f` from both ends, not the `.tif` suffix. The model
    keeps this, and it shows the consequences:
    - `out.tif` becomes `ou`;
    - `/home/u/fit.tif` becomes `/home/u/`;
    - `fit.tif` and `if.tif` share the output `_wgs.tif`, so with `verbose`
      `files.txt` lists that path twice.
  - `project_wgs` writes a line to `files.txt` only when `verbose` is set
    (`gdal.py:124-127`). Without `verbose` the list that `gdalbuildvrt` reads is
    empty. The model keeps this as written.
  - `project_wgs` processes the entries ending in `tif`, not only `.tif`, and
    removes each one whether or not its warp succeeded.
- **The sequencing in `main`** of `geotiff/__init__.py` (`pipeline.dfy`, module
  `Geotiff`).
  - `Validate` runs the checks in `main`'s order; the first that raises ends
    the run.
  - `Plan` is the list of external steps of a run in which nothing raises, with
    the arguments `main` passes. `verbose` is kept only for `project_wgs`,
    where it decides what `files.txt` holds; elsewhere it only controls
    printing.
  - The method `Run` performs those steps until one raises and returns the
    trace and how the run ended. It is proved equal to `Execute` over the plan,
    and lemmas state what that means: the trace is a prefix of the plan, the run
    stops at the first step that raises, and so on.
  - Whether a step raises is an oracle: a failed download, a non-zero exit of a
    checked command, a failed removal.
  - `reproject_resample` runs its `gdalwarp` through `os.system`, which does not
    raise on failure (`gdal.py:45`). A failed warp is therefore not noticed
    there: the input is still removed, and only the following `mv` raises. In
    the trace this whole call is the single step `ReprojectStep`.

`pystr.dfy` (module `PyStr`) holds the Python string semantics the core relies
on:

- `startswith`, `endswith` and the substring test `in`;
- `str.strip(chars)`;
- POSIX `os.path.join`;
- `str.split()` over ASCII whitespace;
- `' '.join`, `''.join` and `str(int)`.

`wrappers.dfy` holds `Option` and `Result`.

## Model

| member | source | states |
|---|---|---|
| ParseInputs.CheckTifFile | geotiff/utils/parse_inputs.py:15-23 | Succeeds exactly when the name ends in ".tif", else raises BadTifName; the result is the name joined onto the home directory: it ends with the name, an absolute name is kept as it is, a relative one follows home after exactly one `/` (none when home is empty or already ends in `/`) |
| ParseInputs.CheckTifFileIdempotent | geotiff/utils/parse_inputs.py:15-23 | With an absolute home directory, checking an already checked path again returns the same path |
| ParseInputs.UnwrapGeometry | geotiff/utils/parse_inputs.py:34-45 | With "features": the first feature's "geometry", and a failure exactly when "features" is not a non-empty list whose first item is an object holding "geometry"; else with "geometry": that value; else the dictionary itself |
| ParseInputs.UnwrapAgreesOnWrappers | geotiff/utils/parse_inputs.py:34-45 | A bare geometry, a Feature around it and a FeatureCollection whose first feature is that Feature all unwrap to the same geometry |
| ParseInputs.CheckGeojson | geotiff/utils/parse_inputs.py:26-47 | A falsy argument is returned unchanged; a GeoJSON that is neither a readable file nor a known place raises; otherwise the result is the unwrapped geometry or the unwrapping error |
| ParseInputs.CheckResolutionResample | geotiff/utils/parse_inputs.py:50-70 | Succeeds exactly when the resolution is falsy or the resampler is one of the twelve listed (None is not one); on success both arguments come back unchanged |
| ParseInputs.CheckProductsBands | geotiff/utils/parse_inputs.py:77-98 | A missing product raises ProductNotFound; falsy bands pass; truthy bands pass exactly when both band lookups succeed and every band is a product or derived band name; on success both arguments come back unchanged |
| ParseInputs.FormatFor | geotiff/utils/parse_inputs.py:103-107 | The date-and-time format is chosen exactly when the string contains "T" |
| ParseInputs.CheckDatetimes | geotiff/utils/parse_inputs.py:101-124 | Succeeds exactly when each truthy datetime parses in the format chosen for it; the original strings are returned, not parsed values |
| ParseInputs.CheckDatetimesUnordered | geotiff/utils/parse_inputs.py:101-124 | Start and end are never compared: swapping them does not change the verdict |
| ParseInputs.CheckSrs | geotiff/utils/parse_inputs.py:135-144 | Never raises and returns the SRS unchanged; it warns exactly when the SRS is truthy and contains neither "EPSG" nor "proj" |
| ParseInputs.CheckCutline | geotiff/utils/parse_inputs.py:151-158 | Succeeds exactly when the cutline is falsy or the file exists, returning it unchanged |
| ParseInputs.CheckGsBucket | geotiff/utils/parse_inputs.py:161-168 | Succeeds exactly when the bucket is falsy or starts with "gs://", returning it unchanged |
| ParseInputs.CheckTilesize | geotiff/utils/parse_inputs.py:73-74 | Accepts every tile size and returns it unchanged |
| ParseInputs.CheckNodata | geotiff/utils/parse_inputs.py:127-128 | Accepts every nodata value and returns it unchanged |
| ParseInputs.CheckNumWorkers | geotiff/utils/parse_inputs.py:131-132 | Accepts every worker count and returns it unchanged |
| ParseInputs.CheckGdalMem | geotiff/utils/parse_inputs.py:147-148 | Accepts every memory budget and returns it unchanged |
| ParseInputs.CheckRemoveLocal | geotiff/utils/parse_inputs.py:171-172 | Accepts the flag and returns it unchanged |
| ParseInputs.CheckVerbose | geotiff/utils/parse_inputs.py:175-176 | Accepts the flag and returns it unchanged |
| PyStr.JoinPath | geotiff/utils/parse_inputs.py:21 | os.path.join: the result ends with the second part; an absolute second part replaces the first; otherwise the result starts with the first part; paths without whitespace give one without whitespace |
| PyStr.JoinPathPlacesIn | geotiff/utils/parse_inputs.py:21 | os.path.join of a relative second part: the first part, exactly one `/` unless the first part is empty or ends in one, then the second part |
| PyStr.PlacedInUnique | geotiff/utils/parse_inputs.py:21 | That description of a joined path fixes the path: two strings that both meet it are equal |
| PyStr.StripIsTrim | geotiff/utils/gdal.py:41 | str.strip(chars) returns a contiguous piece of the string whose first and last characters are not in the set, and everything cut off at either end is in the set |
| PyStr.StripIdempotent | geotiff/utils/gdal.py:41 | Stripping twice is stripping once |
| PyStr.StripAll | geotiff/utils/gdal.py:118 | A string made only of characters in the set strips to the empty string |
| PyStr.StripKeepsUpTo | geotiff/utils/gdal.py:41 | The strip keeps every character up to any position holding a character outside the set, when the string's first character is outside the set too |
| PyStr.SplitJoinWords | geotiff/utils/gdal.py:52 | cmd.split() of words without whitespace joined by single spaces gives back exactly those words |
| PyStr.IntToString | geotiff/utils/gdal.py:28 | str(int) is a run of decimal digits, after a minus sign for a negative number, that reads back as the number |
| PyStr.NatToStringRoundTrip | geotiff/utils/gdal.py:28 | Printing a natural number in decimal and reading it back gives the number |
| Gdal.StripTif | geotiff/utils/gdal.py:41 | strip('.tif') is never longer than the name, neither starts nor ends with '.', 't', 'i' or 'f', and keeps every character of the name that is not one of those |
| Gdal.StripTifIdempotent | geotiff/utils/gdal.py:41 | strip('.tif') applied to its own result changes nothing |
| Gdal.StripTifPlainName | geotiff/utils/gdal.py:41 | "scene.tif" strips to "scene" |
| Gdal.StripTifEatsStem | geotiff/utils/gdal.py:41 | "out.tif" strips to "ou": the strip eats into the stem |
| Gdal.StripTifEatsFileName | geotiff/utils/gdal.py:41 | "/home/u/fit.tif" strips to "/home/u/": the whole file name vanishes |
| Gdal.StripTifBothEnds | geotiff/utils/gdal.py:41 | "image.TIF" strips to "mage.TIF": case-sensitive, and characters go from the front too |
| Gdal.WarpFlagGroups | geotiff/utils/gdal.py:30-39 | A flag group is appended exactly when its guard holds (truthy cutline, truthy resolution, truthy SRS, more than one worker, truthy memory), carrying the argument values, and the groups come in the fixed order cutline, resolution, SRS, threads, memory |
| Gdal.ReprojectResample | geotiff/utils/gdal.py:28-57 | The warp command is the fixed gdalwarp prefix with the nodata value, then the rendering of exactly the flag groups WarpFlagGroups selects, in their order, then the input file and the stripped "_warp.tif" output; then the input is removed and the output is moved onto the input's name |
| Gdal.RankOrderedUnique | geotiff/utils/gdal.py:30-39 | Two sequences of flag groups in the fixed order holding the same groups are equal, so the order and the selection fix the flags |
| Gdal.WarpCommandOfSelection | geotiff/utils/gdal.py:28-44 | Any sequence of groups in the fixed order that holds exactly the selected groups, rendered between the prefix and the input/output, is the warp command: no unselected group appears and none is repeated |
| Gdal.SelectedFlagsRendered | geotiff/utils/gdal.py:30-39 | Every flag group whose guard holds appears with its values in the warp command |
| Gdal.ReprojectRemovesInput | geotiff/utils/gdal.py:51-52 | The remove command splits into exactly rm and the input file |
| Gdal.ReprojectReplacesInput | geotiff/utils/gdal.py:56-57 | The move command splits into exactly mv, the warp output and the input file |
| Gdal.WarpOutputIsWord | geotiff/utils/gdal.py:41 | The warp output name of a path without whitespace is a single word |
| Gdal.WarpOutputInSameDirectory | geotiff/utils/gdal.py:41 | For an absolute input path the warp output keeps the input's directory part: the strip never reaches past a slash |
| Gdal.BuildMosaicCommand | geotiff/utils/gdal.py:90-95 | For a directory without whitespace, `cmd.split()` hands gdalbuildvrt exactly -srcnodata with the nodata value, -input_file_list with dir/files.txt (the list project_wgs writes), and dir/mosaic.vrt as the mosaic it writes |
| Gdal.MergeCommand | geotiff/utils/gdal.py:71-74 | For paths without whitespace, `cmd.split()` hands gdal_translate exactly the compression options, dir/mosaic.vrt (the mosaic build_mosaic wrote) and the output file |
| Gdal.WgsCommand | geotiff/utils/gdal.py:117-123 | For an entry ending in "tif" and paths without whitespace, `cmd.split()` hands gdalwarp the cubic resampling and EPSG:4326 options, the entry's path and its output's path in the same directory |
| Gdal.WgsOutputName | geotiff/utils/gdal.py:118 | Every WGS84 output name ends in "_wgs.tif" |
| Gdal.ProjectWgsPass | geotiff/utils/gdal.py:118 | The pass project_wgs performs names every output with a "_wgs.tif" ending |
| Gdal.TempDir.ProjectWgs | geotiff/utils/gdal.py:103-134 | After the pass the directory holds files.txt plus the result of processing the listing entry by entry. files.txt holds one line per successful warp, made only with verbose, in listing order: the output name joined onto the directory |
| Gdal.TempDir.WarpEntry | geotiff/utils/gdal.py:116-131 | An entry ending in "tif" is removed and its output added when the warp succeeded; its output path is appended to files.txt only when the warp succeeded and verbose is set; other entries change nothing |
| Gdal.ManifestEmptyUnlessVerbose | geotiff/utils/gdal.py:122-127 | Without verbose, files.txt stays empty whatever the warps do |
| Gdal.ManifestInListingOrder | geotiff/utils/gdal.py:115-129 | With verbose, files.txt lists the output of exactly the entries whose warp succeeded, in listing order: line i belongs to the entry at an increasing index idx[i] |
| Gdal.OtherEntriesUntouched | geotiff/utils/gdal.py:115-116 | Entries whose names do not end in "tif" stay in the directory |
| Gdal.ProcessedEntriesRemoved | geotiff/utils/gdal.py:116-131 | A processed entry is gone afterwards whether or not its warp succeeded, unless its name is itself a "_wgs.tif" output name |
| Gdal.OnlyOutputsAppear | geotiff/utils/gdal.py:115-131 | Every name in the directory afterwards was there before or is the output of a successful warp |
| Gdal.OutputsKept | geotiff/utils/gdal.py:115-131 | The output of a successful warp stays unless a later entry of that same name is processed |
| Gdal.SharedOutputName | geotiff/utils/gdal.py:118 | "fit.tif" and "if.tif" both get the output name "_wgs.tif" |
| Gdal.SharedOutputListedTwice | geotiff/utils/gdal.py:115-127 | With verbose and both warps succeeding, files.txt for the listing fit.tif, if.tif holds the same path, `<dir>/_wgs.tif`, twice |
| Geotiff.Assemble | geotiff/__init__.py:111-124 | The configuration is built exactly when no check raised; it then holds each check's returned values, and the arguments of the checks that cannot raise unchanged |
| Geotiff.Validate | geotiff/__init__.py:111-124 | When every check passes, the configuration holds the output path joined onto home ending in ".tif", the area check_geojson returned (a geometry exactly when a GeoJSON was given), and every other argument unchanged |
| Geotiff.FirstErrorIsFirst | geotiff/__init__.py:111-124 | The first exception among the verdicts is absent exactly when every verdict passes, and otherwise is the verdict of a check that every earlier check passed |
| Geotiff.AssembleReportsFirstFailure | geotiff/__init__.py:111-124 | From any verdicts of the checks, the configuration is built exactly when none raised, and otherwise the error is that of the first check, in main's order, that raised |
| Geotiff.ValidateReportsFirstFailure | geotiff/__init__.py:111-124 | main goes on exactly when no check raises, and otherwise reports the exception of the first check, in main's order, that raises |
| Geotiff.Plan | geotiff/__init__.py:126-211 | The steps of a run in which nothing raises come in main's order: make directory, dump, WGS84 pass, mosaic, merge, remove directory, reproject, copy |
| Geotiff.PlanContents | geotiff/__init__.py:126-211 | A step is performed exactly when main's condition for it holds, with the arguments main passes: the directory is made only when missing, scenes without a tile size and tiles with one, both with the product, bands, datetimes, checked area and worker count, tiles also with the resolution and tile size, the WGS84 pass, mosaic, merge and removal always, the reprojection exactly for a truthy resolution or SRS, the copy exactly for a truthy bucket |
| Geotiff.PlanPerformsPlanned | geotiff/__init__.py:126-211 | Every step whose condition holds is in the plan |
| Geotiff.PlanPerformsOnlyPlanned | geotiff/__init__.py:126-211 | Every step in the plan is one whose condition holds |
| Geotiff.PlanOrdered | geotiff/__init__.py:126-211 | Any earlier step of the plan belongs to a strictly earlier stage of main |
| Geotiff.Execute | geotiff/__init__.py:126-211 | Performing the plan from a step on gives a trace that is a plan prefix covering the steps before it, and never a failed check |
| Geotiff.ExecuteStopsAtFirstRaise | geotiff/__init__.py:108-211 | An uncaught exception ends the run: the steps performed are a prefix of the plan, none but the last raised, the run is done exactly when the whole plan ran without raising, and it crashed exactly at a last step that raised |
| Geotiff.Perform | geotiff/__init__.py:165-208 | One external call appends the step to the trace, and either ends the run there or leaves the rest of the plan to run |
| Geotiff.RunPlan | geotiff/__init__.py:126-211 | The steps after the checks perform the plan until the first step that raises |
| Geotiff.RunFinalSteps | geotiff/__init__.py:187-211 | The optional reprojection, then the optional copy, perform the rest of the plan until a step raises |
| Geotiff.Run | geotiff/__init__.py:108-211 | A raising check ends the run before any step with that check's exception; otherwise the run performs the plan for ~/tmp until the first step that raises |
| Geotiff.CrashKeepsTempDir | geotiff/__init__.py:126-183 | A run that stops before the removal stage (a failed dump, WGS84 pass, mosaic or merge) has not removed ~/tmp |
| Geotiff.OutputWrittenBeforeUse | geotiff/__init__.py:181-208 | The final reprojection and the copy come after the merge that writes the output file |

## Left out

- `geotiff/utils/platform.py` is not part of this model. `dump_scenes`, `dump_tiles` and `copy_to_gs` are steps in the trace. Their downloads, worker pools and `gsutil` call are not modelled.
- Running processes is not modelled: `check_output`, `os.system`, `os.makedirs`, `os.remove` and `shutil.rmtree`. Commands are strings, and whether a command or a step succeeds is an oracle parameter.
- Argument parsing (`get_parsed_args`) is not modelled; `Run` starts from the parsed values.
- Geotiff.Validate: it evaluates every check and then picks the first failure. `main` stops at the first failure instead. The checks are pure over their oracles, so the result is the same.
- ParseInputs.CheckDatetimes: calendar validation inside `strptime` is the oracle `parses`. Only the choice of format is modelled.
- ParseInputs.CheckGeojson: reading the file and the `dl.places.shape` fallback become one loader oracle, where `None` means both failed.
- ParseInputs.UnwrapGeometry: a loaded document is modelled as a JSON object. A top-level array or scalar is not modelled. The KeyError, IndexError or TypeError of a malformed "features" value is the single error `MalformedGeojson`.
- ParseInputs.CheckProductsBands: the product and band lookups are parameters. A failed band lookup is `None`.
- Float formatting: a resolution carries its printed text beside its value. Python's float-to-string conversion is not modelled.
- Error messages, `print`, and the warning printed by `check_srs` and `check_geojson` are not modelled. The model keeps only whether `check_srs` warns.
- PyStr.Split: it treats only ASCII whitespace as separators. Python's `str.split()` also splits on other Unicode whitespace.
- Gdal.TempDir.ProjectWgs: the listing is a parameter, and the model records the lines written to `files.txt`, not the file's bytes. A failed warp is assumed to leave no output file. An entry whose name ends in `tif` but is a directory makes `os.remove` raise; that is not modelled.
- Gdal.ReprojectResample: the three commands are modelled, not their effects. A failed `gdalwarp` there is not detected, because `os.system` does not raise. In `Run`, the whole call is one step that may raise.
- Gdal.StripTif: its own contract states the ends and the characters kept. That everything cut off is one of '.', 't', 'i', 'f' is stated by PyStr.StripIsTrim.
- `verbose` is passed to every step by `main` but only printed by most of them; the steps record it only for `project_wgs`.
- `setup.py` is packaging metadata and is not modelled.
