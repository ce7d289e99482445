/**
 * The command-line input checks of geotiff/utils/parse_inputs.py. Each check
 * returns its arguments (the output path and the area of interest transformed)
 * or raises; the exception is the Failure of a Result. Python truthiness is
 * spelled out: None, 0, 0.0, "" and [] are false.
 *
 * What the checks look up outside the process is passed in: the home
 * directory, the GeoJSON loader (file or named place), whether the product and
 * the cutline exist, the band lists of the product and the derived bands, and
 * whether `datetime.strptime` accepts a string in a format.
 */
module ParseInputs {
  import opened Wrappers
  import opened PyStr

  /** The exception a check raises. */
  datatype Error =
    | BadTifName               // ValueError: output file must end in .tif
    | GeojsonUnavailable       // neither a readable JSON file nor a known place
    | MalformedGeojson         // "features" is not a list whose first item has a "geometry"
    | ProductNotFound          // ValueError: product lookup failed
    | BadBands                 // ValueError: bands not all available, or band lookup failed
    | BadDatetimes             // ValueError: a datetime does not parse
    | BadResolutionResample    // ValueError: resolution given with an unknown resampler
    | CutlineMissing           // ValueError: cutline file does not exist
    | BadBucket                // ValueError: bucket does not start with gs://

  // ---------------------------------------------------------------------------
  // Truthiness of the argument types.
  // ---------------------------------------------------------------------------

  predicate StrTruthy(o: Option<string>) {
    o.Some? && o.value != ""
  }

  predicate IntTruthy(o: Option<int>) {
    o.Some? && o.value != 0
  }

  predicate ListTruthy<T>(o: Option<seq<T>>) {
    o.Some? && o.value != []
  }

  /**
   * A resolution in meters (a Python float). Only its truthiness is computed
   * with; in commands it appears as `text`, the way Python prints it.
   */
  datatype Resolution = Resolution(meters: real, text: string)

  predicate ResolutionTruthy(o: Option<Resolution>) {
    o.Some? && o.value.meters != 0.0
  }

  // ---------------------------------------------------------------------------
  // check_tif_file
  // ---------------------------------------------------------------------------

  /**
   * The output file must end in ".tif"; a relative name is then placed in the
   * home directory (one `/` between them), an absolute one is kept.
   */
  function CheckTifFile(tifFile: string, home: string): (r: Result<string, Error>)
    ensures r.Success? <==> EndsWith(tifFile, ".tif")
    ensures r.Failure? ==> r.error == BadTifName
    ensures r.Success? ==> EndsWith(r.value, tifFile) && EndsWith(r.value, ".tif")
    ensures r.Success? && StartsWith(tifFile, "/") ==> r.value == tifFile
    ensures r.Success? && !StartsWith(tifFile, "/") ==> PlacedIn(r.value, home, tifFile)
  {
    if !EndsWith(tifFile, ".tif") then Failure(BadTifName)
    else if StartsWith(tifFile, "/") then Success(JoinPath(home, tifFile))
    else
      JoinPathPlacesIn(home, tifFile);
      Success(JoinPath(home, tifFile))
  }

  /** With an absolute home directory, a checked path passes the check again unchanged. */
  lemma CheckTifFileIdempotent(tifFile: string, home: string)
    requires StartsWith(home, "/")
    requires CheckTifFile(tifFile, home).Success?
    ensures CheckTifFile(CheckTifFile(tifFile, home).value, home) == CheckTifFile(tifFile, home)
  {
    var p := CheckTifFile(tifFile, home).value;
    assert StartsWith(p, "/");
  }

  // ---------------------------------------------------------------------------
  // check_geojson
  // ---------------------------------------------------------------------------

  /** A JSON value as `json.load` returns it. */
  datatype Json =
    | JNull
    | JBool(b: bool)
    | JNumber(n: real)
    | JString(s: string)
    | JArray(items: seq<Json>)
    | JObject(fields: map<string, Json>)

  /** The area argument after the check: left as given when falsy, else the geometry found. */
  datatype Area = Unset(raw: Option<string>) | Shape(geometry: Json)

  /**
   * The dictionary part of check_geojson: the first feature's geometry of a
   * feature collection, else the geometry of a feature, else the dictionary.
   */
  function UnwrapGeometry(d: map<string, Json>): (r: Result<Json, Error>)
    ensures "features" in d ==>
              (r.Success? <==> (&& d["features"].JArray?
                                && |d["features"].items| > 0
                                && d["features"].items[0].JObject?
                                && "geometry" in d["features"].items[0].fields))
    ensures "features" in d && r.Success? ==> r.value == d["features"].items[0].fields["geometry"]
    ensures "features" in d && r.Failure? ==> r.error == MalformedGeojson
    ensures "features" !in d && "geometry" in d ==> r == Success(d["geometry"])
    ensures "features" !in d && "geometry" !in d ==> r == Success(JObject(d))
  {
    if "features" in d then
      match d["features"]
      case JArray(items) =>
        if |items| > 0 && items[0].JObject? && "geometry" in items[0].fields then
          Success(items[0].fields["geometry"])
        else
          Failure(MalformedGeojson)
      case _ => Failure(MalformedGeojson)
    else if "geometry" in d then Success(d["geometry"])
    else Success(JObject(d))
  }

  /** A GeoJSON Feature object around geometry `g`. */
  function Feature(g: Json): map<string, Json> {
    map["type" := JString("Feature"), "geometry" := g]
  }

  /** A GeoJSON FeatureCollection with the given features. */
  function FeatureCollection(features: seq<map<string, Json>>): map<string, Json> {
    map["type" := JString("FeatureCollection"),
        "features" := JArray(seq(|features|, i requires 0 <= i < |features| => JObject(features[i])))]
  }

  /**
   * A geometry, a Feature around it and a FeatureCollection whose first
   * feature is that Feature all reduce to the same geometry (a bare geometry
   * object carries neither "features" nor "geometry").
   */
  lemma UnwrapAgreesOnWrappers(g: map<string, Json>, others: seq<map<string, Json>>)
    requires "features" !in g && "geometry" !in g
    ensures UnwrapGeometry(g) == Success(JObject(g))
    ensures UnwrapGeometry(Feature(JObject(g))) == Success(JObject(g))
    ensures UnwrapGeometry(FeatureCollection([Feature(JObject(g))] + others)) == Success(JObject(g))
  {
    var fs := [Feature(JObject(g))] + others;
    var fc := FeatureCollection(fs);
    assert fc["features"].items[0] == JObject(Feature(JObject(g)));
  }

  /**
   * check_geojson: a falsy argument is returned as it is; otherwise the loaded
   * dictionary (None when it can be neither read as a file nor looked up as
   * a place) is unwrapped.
   */
  function CheckGeojson(geojson: Option<string>, load: string -> Option<map<string, Json>>)
    : (r: Result<Area, Error>)
    ensures !StrTruthy(geojson) ==> r == Success(Unset(geojson))
    ensures StrTruthy(geojson) && load(geojson.value).None? ==> r == Failure(GeojsonUnavailable)
    ensures StrTruthy(geojson) && load(geojson.value).Some? ==>
              match UnwrapGeometry(load(geojson.value).value)
              case Success(g) => r == Success(Shape(g))
              case Failure(e) => r == Failure(e)
  {
    if !StrTruthy(geojson) then Success(Unset(geojson))
    else
      match load(geojson.value)
      case None => Failure(GeojsonUnavailable)
      case Some(d) =>
        var g :- UnwrapGeometry(d);
        Success(Shape(g))
  }

  // ---------------------------------------------------------------------------
  // check_resolution_resample
  // ---------------------------------------------------------------------------

  /** The GDAL resampling algorithms the tool accepts. */
  const ResampleAlgorithms: seq<string> :=
    ["near", "bilinear", "cubic", "cubicspline", "lanczos", "average",
     "mode", "max", "min", "med", "q1", "q3"]

  /**
   * A truthy resolution needs one of the twelve resamplers (None is not one);
   * without a resolution any resampler, None included, is let through.
   */
  function CheckResolutionResample(resolution: Option<Resolution>, resample: Option<string>)
    : (r: Result<(Option<Resolution>, Option<string>), Error>)
    ensures r.Success? <==>
              (!ResolutionTruthy(resolution) || (resample.Some? && resample.value in ResampleAlgorithms))
    ensures r.Success? ==> r.value == (resolution, resample)
    ensures r.Failure? ==> r.error == BadResolutionResample
  {
    if ResolutionTruthy(resolution) && !(resample.Some? && resample.value in ResampleAlgorithms) then
      Failure(BadResolutionResample)
    else
      Success((resolution, resample))
  }

  // ---------------------------------------------------------------------------
  // check_products_bands
  // ---------------------------------------------------------------------------

  /**
   * The product must exist. Truthy bands must all be names of the product's
   * bands or of the derived bands; a failed band-list lookup (None) counts as
   * invalid bands. Falsy bands are not looked at.
   */
  function CheckProductsBands(
    productId: string, bands: Option<seq<string>>, productExists: bool,
    productBands: Option<seq<string>>, derivedBands: Option<seq<string>>)
    : (r: Result<(string, Option<seq<string>>), Error>)
    ensures !productExists ==> r == Failure(ProductNotFound)
    ensures productExists && !ListTruthy(bands) ==> r == Success((productId, bands))
    ensures productExists && ListTruthy(bands) ==>
              (r.Success? <==> (&& productBands.Some? && derivedBands.Some?
                                && forall b :: b in bands.value ==>
                                     b in productBands.value || b in derivedBands.value))
    ensures r.Success? ==> r.value == (productId, bands)
    ensures productExists && r.Failure? ==> r.error == BadBands
  {
    if !productExists then Failure(ProductNotFound)
    else if !ListTruthy(bands) then Success((productId, bands))
    else if productBands.None? || derivedBands.None? then Failure(BadBands)
    else
      var available := productBands.value + derivedBands.value;
      var wanted := set b | b in bands.value;
      if wanted <= (set a | a in available) then
        assert forall b :: b in bands.value ==> b in wanted;
        Success((productId, bands))
      else
        Failure(BadBands)
  }

  // ---------------------------------------------------------------------------
  // check_datetimes
  // ---------------------------------------------------------------------------

  /** The two `strptime` formats. */
  datatype DateFormat = DateOnly | DateAndTime {
    function Pattern(): string {
      match this
      case DateOnly => "%Y-%m-%d"
      case DateAndTime => "%Y-%m-%dT%H:%M:%S"
    }
  }

  /** A string containing "T" is read with a time of day, any other as a date. */
  function FormatFor(s: string): (f: DateFormat)
    ensures f == DateAndTime <==> Contains(s, "T")
  {
    if 'T' in s then
      var i :| 0 <= i < |s| && s[i] == 'T';
      assert OccursAt(s, "T", i);
      DateAndTime
    else
      assert forall i :: OccursAt(s, "T", i) ==> s[i] == 'T';
      DateOnly
  }

  /**
   * One datetime argument is acceptable: falsy, or it parses in the format
   * chosen for it. `parses(s, f)` is whether `datetime.strptime(s, f.Pattern())`
   * succeeds; the calendar rules of strptime are not modelled.
   */
  predicate DatetimeOk(d: Option<string>, parses: (string, DateFormat) -> bool) {
    !StrTruthy(d) || parses(d.value, FormatFor(d.value))
  }

  /**
   * Both datetimes must parse (falsy ones are skipped); the original strings
   * are returned, not the parsed values.
   */
  function CheckDatetimes(start: Option<string>, end: Option<string>, parses: (string, DateFormat) -> bool)
    : (r: Result<(Option<string>, Option<string>), Error>)
    ensures r.Success? <==> DatetimeOk(start, parses) && DatetimeOk(end, parses)
    ensures r.Success? ==> r.value == (start, end)
    ensures r.Failure? ==> r.error == BadDatetimes
  {
    if StrTruthy(start) && !parses(start.value, FormatFor(start.value)) then Failure(BadDatetimes)
    else if StrTruthy(end) && !parses(end.value, FormatFor(end.value)) then Failure(BadDatetimes)
    else Success((start, end))
  }

  /** The start is never compared with the end: swapping them does not change the verdict. */
  lemma CheckDatetimesUnordered(start: Option<string>, end: Option<string>, parses: (string, DateFormat) -> bool)
    ensures CheckDatetimes(start, end, parses).Success? == CheckDatetimes(end, start, parses).Success?
  {
  }

  // ---------------------------------------------------------------------------
  // check_srs
  // ---------------------------------------------------------------------------

  /** The SRS, returned unchanged, and whether the check printed its warning. */
  datatype SrsCheck = SrsCheck(srs: Option<string>, warned: bool)

  /** Never raises: an SRS naming neither "EPSG" nor "proj" only draws a warning. */
  function CheckSrs(srs: Option<string>): (r: SrsCheck)
    ensures r.srs == srs
    ensures r.warned <==> StrTruthy(srs) && !Contains(srs.value, "EPSG") && !Contains(srs.value, "proj")
  {
    SrsCheck(srs, StrTruthy(srs) && !(Contains(srs.value, "EPSG") || Contains(srs.value, "proj")))
  }

  // ---------------------------------------------------------------------------
  // check_cutline, check_gs_bucket
  // ---------------------------------------------------------------------------

  /** A truthy cutline must name an existing file. */
  function CheckCutline(cutline: Option<string>, fileExists: bool): (r: Result<Option<string>, Error>)
    ensures r.Success? <==> !StrTruthy(cutline) || fileExists
    ensures r.Success? ==> r.value == cutline
    ensures r.Failure? ==> r.error == CutlineMissing
  {
    if StrTruthy(cutline) && !fileExists then Failure(CutlineMissing) else Success(cutline)
  }

  /** A truthy bucket must be a gs:// URI; a falsy one passes. */
  function CheckGsBucket(gsBucket: Option<string>): (r: Result<Option<string>, Error>)
    ensures r.Success? <==> !StrTruthy(gsBucket) || StartsWith(gsBucket.value, "gs://")
    ensures r.Success? ==> r.value == gsBucket
    ensures r.Failure? ==> r.error == BadBucket
  {
    if StrTruthy(gsBucket) && !StartsWith(gsBucket.value, "gs://") then Failure(BadBucket)
    else Success(gsBucket)
  }

  // ---------------------------------------------------------------------------
  // The checks that accept every value.
  // ---------------------------------------------------------------------------

  function CheckTilesize(tilesize: Option<int>): (r: Option<int>)
    ensures r == tilesize
  {
    tilesize
  }

  function CheckNodata(nodata: int): (r: int)
    ensures r == nodata
  {
    nodata
  }

  function CheckNumWorkers(numWorkers: int): (r: int)
    ensures r == numWorkers
  {
    numWorkers
  }

  function CheckGdalMem(gdalMem: Option<int>): (r: Option<int>)
    ensures r == gdalMem
  {
    gdalMem
  }

  function CheckRemoveLocal(removeLocal: bool): (r: bool)
    ensures r == removeLocal
  {
    removeLocal
  }

  function CheckVerbose(verbose: bool): (r: bool)
    ensures r == verbose
  {
    verbose
  }
}
