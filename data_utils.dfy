/**
 * Data utilities: parsing "HH:MM" time strings, validating and normalising a
 * user table into the internal stop schema, and building the distance and
 * travel-time matrices.
 */
module DataUtils {
  import opened Wrappers
  import opened Text

  /** One cell of a user table, as pandas holds it. */
  datatype Cell =
    | Null                          // Python None
    | NaN                           // a missing float
    | Int(i: int)
    | Num(x: real, printed: string) // a float, with the form str() prints for it
    | Str(s: string)
    | Flag(b: bool)

  /** A stop after normalisation: one row of the internal schema. */
  datatype Stop = Stop(
    stopId: string,
    lat: real,
    lon: real,
    isDepot: bool,
    demand: real,
    earliest: Option<int>,   // minutes from midnight
    latest: Option<int>,
    serviceTime: real)

  /** A user table: a row count and named columns of that many cells each. */
  datatype Frame = Frame(nRows: nat, columns: map<string, seq<Cell>>)

  ghost predicate WellFormed(df: Frame) {
    forall name :: name in df.columns ==> |df.columns[name]| == df.nRows
  }

  /** Internal column name -> user column name (or None). */
  type ColumnMapping = map<string, Option<string>>

  // ---------------------------------------------------------------------
  // parse_time_window
  // ---------------------------------------------------------------------

  /**
   * "H:M" to minutes from midnight. Missing values, non-strings, the empty
   * string, anything that does not split on ':' into exactly two parts, and
   * parts that `int()` rejects all give None.
   */
  function ParseTimeWindow(c: Cell): Option<int> {
    match c
    case Str(s) =>
      if s == "" then None
      else
        var parts := Split(s, ':');
        if |parts| == 2 then
          match (ParseInt(parts[0]), ParseInt(parts[1]))
          case (Some(h), Some(m)) => Some(h * 60 + m)
          case _ => None
        else None
    case _ => None
  }

  /** Only strings are ever parsed; missing values and other types give None. */
  lemma ParseTimeWindowNonString(c: Cell)
    requires !c.Str?
    ensures ParseTimeWindow(c) == None
  {
  }

  /** A string "a:b" whose parts parse as integers h and m gives h*60 + m. */
  lemma ParseTimeWindowParts(a: string, b: string, h: int, m: int)
    requires ':' !in a && ':' !in b
    requires ParseInt(a) == Some(h) && ParseInt(b) == Some(m)
    ensures ParseTimeWindow(Str(a + ":" + b)) == Some(h * 60 + m)
  {
    SplitTwo(a, ':', b);
  }

  /** A parsed time window came from a string with exactly one ':'. */
  lemma ParseTimeWindowOneColon(s: string)
    requires ParseTimeWindow(Str(s)).Some?
    ensures multiset(s)[':'] == 1
  {
    SplitCount(s, ':');
  }

  /** Round trip: the strings f"{h:02d}:00" parse back to h*60 minutes. */
  lemma ParseTimeWindowOfHour(h: nat)
    ensures ParseTimeWindow(Str(ZeroPad2(h) + ":00")) == Some(h * 60)
  {
    var hh := ZeroPad2(h);
    assert ParseInt(hh) == Some(h) by { ParseIntOfZeroPad2(h); }
    assert ParseInt("00") == Some(0) by {
      ParseIntOfZeroPad2(0);
      assert ZeroPad2(0) == "00";
    }
    assert ':' !in hh by {
      assert AllDigits(hh);
    }
    ParseTimeWindowParts(hh, "00", h, 0);
    assert hh + ":" + "00" == hh + ":00";
  }

  // ---------------------------------------------------------------------
  // pandas conversions used by normalize_dataframe
  // ---------------------------------------------------------------------

  function Pow10(k: nat): (r: nat)
    ensures r >= 1
  {
    if k == 0 then 1 else 10 * Pow10(k - 1)
  }

  /** A decimal literal without sign: digits, optionally with one '.', at least one digit. */
  function ParseUnsigned(s: string): Option<real> {
    var parts := Split(s, '.');
    if |parts| == 1 && s != "" && AllDigits(s) then Some(DigitsValue(s) as real)
    else if |parts| == 2 && |parts[0]| + |parts[1]| > 0 && AllDigits(parts[0]) && AllDigits(parts[1]) then
      Some(DigitsValue(parts[0]) as real + DigitsValue(parts[1]) as real / Pow10(|parts[1]|) as real)
    else None
  }

  /** The number a string coerces to under `pd.to_numeric(errors='coerce')`, None for NaN. */
  function ParseNumber(s: string): Option<real> {
    if |s| > 0 && (s[0] == '-' || s[0] == '+') then
      match ParseUnsigned(s[1..])
      case Some(v) => Some(if s[0] == '-' then -v else v)
      case None => None
    else ParseUnsigned(s)
  }

  /** `pd.to_numeric(cell, errors='coerce')`; None stands for the NaN it yields. */
  function ToNumeric(c: Cell): Option<real> {
    match c
    case Null => None
    case NaN => None
    case Int(i) => Some(i as real)
    case Num(x, _) => Some(x)
    case Str(s) => ParseNumber(s)
    case Flag(b) => Some(if b then 1.0 else 0.0)
  }

  /** `.astype(str)` of one cell. */
  function AsText(c: Cell): string {
    match c
    case Null => "None"
    case NaN => "nan"
    case Int(i) => IntToString(i)
    case Num(_, printed) => printed
    case Str(s) => s
    case Flag(b) => if b then "True" else "False"
  }

  /** `.astype(bool)` of one cell: NaN is truthy, None is not. */
  function AsBool(c: Cell): bool {
    match c
    case Null => false
    case NaN => true
    case Int(i) => i != 0
    case Num(x, _) => x != 0.0
    case Str(s) => s != ""
    case Flag(b) => b
  }

  function Abs(x: real): real {
    if x < 0.0 then -x else x
  }

  // ---------------------------------------------------------------------
  // normalize_dataframe
  // ---------------------------------------------------------------------

  const StopIdRequired := "Stop ID column mapping is required"
  const LatRequired := "Latitude column mapping is required"
  const LonRequired := "Longitude column mapping is required"
  const InvalidCoordinates := "Invalid latitude or longitude values found"
  const CoordinatesOutOfRange := "Latitude must be between -90 and 90, longitude between -180 and 180"
  const NoDepot := "At least one depot must be specified"
  const TooFewCustomers := "At least 2 customer stops are required"

  /** The outcome of normalisation; `MissingColumn` is the KeyError pandas raises. */
  datatype Normalized =
    | Normalized(stops: seq<Stop>)
    | Rejected(message: string)
    | MissingColumn(column: string)

  /** A required mapping is present unless absent or None (an empty name passes). */
  predicate Required(m: ColumnMapping, key: string) {
    key in m && m[key].Some?
  }

  /** An optional mapping is used only when its name is truthy. */
  predicate Mapped(m: ColumnMapping, key: string) {
    key in m && m[key].Some? && m[key].value != ""
  }

  function CountFalse(flags: seq<bool>): nat {
    if flags == [] then 0 else CountFalse(flags[..|flags| - 1]) + (if flags[|flags| - 1] then 0 else 1)
  }

  datatype Column<T> = Column(values: seq<T>) | Missing(name: string)

  /**
   * The is_depot flags: the mapped column as booleans, else stop_id equal to
   * the explicit depot id, else only row 0 (on an empty table, the `.loc[0]`
   * assignment adds that row).
   */
  function DepotFlags(df: Frame, m: ColumnMapping, depotStopId: Option<string>, ids: seq<string>): (r: Column<bool>)
    requires WellFormed(df) && |ids| == df.nRows
    ensures r.Column? ==> |r.values| == if df.nRows == 0 && !Mapped(m, "is_depot") && (depotStopId.None? || depotStopId.value == "") then 1 else df.nRows
  {
    if Mapped(m, "is_depot") then
      var name := m["is_depot"].value;
      if name !in df.columns then Missing(name)
      else Column(seq(df.nRows, i requires 0 <= i < df.nRows => AsBool(df.columns[name][i])))
    else if depotStopId.Some? && depotStopId.value != "" then
      Column(seq(df.nRows, i requires 0 <= i < df.nRows => ids[i] == depotStopId.value))
    else if df.nRows == 0 then Column([true])
    else Column(seq(df.nRows, i => i == 0))
  }

  /** A numeric optional column coerced with NaN filled by 0, or 0 when unmapped. */
  function NumericOrZero(df: Frame, m: ColumnMapping, key: string): (r: Column<real>)
    requires WellFormed(df)
    ensures r.Column? ==> |r.values| == df.nRows
  {
    if !Mapped(m, key) then Column(seq(df.nRows, _ => 0.0))
    else
      var name := m[key].value;
      if name !in df.columns then Missing(name)
      else Column(seq(df.nRows, i requires 0 <= i < df.nRows => ToNumeric(df.columns[name][i]).GetOr(0.0)))
  }

  /** A time-window column parsed with ParseTimeWindow, or all None when unmapped. */
  function TimesOrNone(df: Frame, m: ColumnMapping, key: string): (r: Column<Option<int>>)
    requires WellFormed(df)
    ensures r.Column? ==> |r.values| == df.nRows
  {
    if !Mapped(m, key) then Column(seq(df.nRows, _ => None))
    else
      var name := m[key].value;
      if name !in df.columns then Missing(name)
      else Column(seq(df.nRows, i requires 0 <= i < df.nRows => ParseTimeWindow(df.columns[name][i])))
  }

  /** The optional columns, read in the source's order after validation succeeded. */
  function AssembleStops(df: Frame, m: ColumnMapping, ids: seq<string>, lats: seq<real>, lons: seq<real>, flags: seq<bool>): (r: Normalized)
    requires WellFormed(df)
    requires |ids| == |lats| == |lons| == |flags| == df.nRows
    ensures r.Normalized? ==> |r.stops| == df.nRows
  {
    var demand := NumericOrZero(df, m, "demand");
    if demand.Missing? then MissingColumn(demand.name) else
    var earliest := TimesOrNone(df, m, "earliest_time");
    if earliest.Missing? then MissingColumn(earliest.name) else
    var latest := TimesOrNone(df, m, "latest_time");
    if latest.Missing? then MissingColumn(latest.name) else
    var service := NumericOrZero(df, m, "service_time");
    if service.Missing? then MissingColumn(service.name) else
    Normalized(seq(df.nRows, i requires 0 <= i < df.nRows =>
      Stop(ids[i], lats[i], lons[i], flags[i], demand.values[i], earliest.values[i], latest.values[i], service.values[i])))
  }

  /** The column a required mapping names, coerced cell by cell. */
  function Coerced<T>(df: Frame, name: string, f: Cell -> T): (r: seq<T>)
    requires WellFormed(df) && name in df.columns
    ensures |r| == df.nRows
  {
    seq(df.nRows, i requires 0 <= i < df.nRows => f(df.columns[name][i]))
  }

  predicate AllNumeric(xs: seq<Option<real>>) {
    forall i :: 0 <= i < |xs| ==> xs[i].Some?
  }

  function Values(xs: seq<Option<real>>): (r: seq<real>)
    requires AllNumeric(xs)
    ensures |r| == |xs|
  {
    seq(|xs|, i requires 0 <= i < |xs| => xs[i].value)
  }

  /**
   * normalize_dataframe: the checks run in the source's order and the first
   * failing one decides the result.
   */
  function NormalizeDataframe(df: Frame, m: ColumnMapping, depotStopId: Option<string>): (r: Normalized)
    requires WellFormed(df)
    ensures !Required(m, "stop_id") ==> r == Rejected(StopIdRequired)
    ensures Required(m, "stop_id") && m["stop_id"].value !in df.columns ==> r == MissingColumn(m["stop_id"].value)
    ensures Required(m, "stop_id") && m["stop_id"].value in df.columns && !Required(m, "lat") ==> r == Rejected(LatRequired)
    ensures (Required(m, "stop_id") && m["stop_id"].value in df.columns && Required(m, "lat") && m["lat"].value in df.columns
             && !Required(m, "lon")) ==> r == Rejected(LonRequired)
    ensures (Required(m, "stop_id") && m["stop_id"].value in df.columns && Required(m, "lat")
             && m["lat"].value !in df.columns) ==> r == MissingColumn(m["lat"].value)
    ensures (Required(m, "stop_id") && m["stop_id"].value in df.columns && Required(m, "lat") && m["lat"].value in df.columns
             && Required(m, "lon") && m["lon"].value !in df.columns) ==> r == MissingColumn(m["lon"].value)
  {
    if !Required(m, "stop_id") then Rejected(StopIdRequired) else
    var idName := m["stop_id"].value;
    if idName !in df.columns then MissingColumn(idName) else
    var ids := Coerced(df, idName, AsText);
    if !Required(m, "lat") then Rejected(LatRequired) else
    var latName := m["lat"].value;
    if latName !in df.columns then MissingColumn(latName) else
    var lats := Coerced(df, latName, ToNumeric);
    if !Required(m, "lon") then Rejected(LonRequired) else
    var lonName := m["lon"].value;
    if lonName !in df.columns then MissingColumn(lonName) else
    var lons := Coerced(df, lonName, ToNumeric);
    if !AllNumeric(lats) || !AllNumeric(lons) then Rejected(InvalidCoordinates) else
    var lat, lon := Values(lats), Values(lons);
    if exists i :: 0 <= i < df.nRows && (Abs(lat[i]) > 90.0 || Abs(lon[i]) > 180.0) then Rejected(CoordinatesOutOfRange) else
    var flags := DepotFlags(df, m, depotStopId, ids);
    if flags.Missing? then MissingColumn(flags.name) else
    if !(exists i :: 0 <= i < |flags.values| && flags.values[i]) then Rejected(NoDepot) else
    if CountFalse(flags.values) < 2 then Rejected(TooFewCustomers) else
    var r := AssembleStops(df, m, ids, lat, lon, flags.values);
    assert r.Normalized? ==> seq(|r.stops|, i requires 0 <= i < |r.stops| => r.stops[i].isDepot) == flags.values;
    r
  }

  /**
   * A table that passes: every row is kept, ids are text, coordinates are the
   * numeric values of their cells and in range, some row is a depot and at
   * least two are not.
   */
  lemma NormalizeAccepted(df: Frame, m: ColumnMapping, depotStopId: Option<string>)
    requires WellFormed(df)
    requires NormalizeDataframe(df, m, depotStopId).Normalized?
    ensures var r := NormalizeDataframe(df, m, depotStopId);
              && Required(m, "stop_id") && Required(m, "lat") && Required(m, "lon")
              && m["stop_id"].value in df.columns && m["lat"].value in df.columns && m["lon"].value in df.columns
              && |r.stops| == df.nRows
              && (forall i :: 0 <= i < |r.stops| ==>
                    && r.stops[i].stopId == AsText(df.columns[m["stop_id"].value][i])
                    && ToNumeric(df.columns[m["lat"].value][i]) == Some(r.stops[i].lat)
                    && ToNumeric(df.columns[m["lon"].value][i]) == Some(r.stops[i].lon)
                    && Abs(r.stops[i].lat) <= 90.0 && Abs(r.stops[i].lon) <= 180.0)
              && (exists i :: 0 <= i < |r.stops| && r.stops[i].isDepot)
              && CountFalse(seq(|r.stops|, i requires 0 <= i < |r.stops| => r.stops[i].isDepot)) >= 2
  {
    assert Required(m, "stop_id") && Required(m, "lat") && Required(m, "lon");
    var idName, latName, lonName := m["stop_id"].value, m["lat"].value, m["lon"].value;
    assert idName in df.columns && latName in df.columns && lonName in df.columns;
    var ids := Coerced(df, idName, AsText);
    var lats, lons := Coerced(df, latName, ToNumeric), Coerced(df, lonName, ToNumeric);
    assert AllNumeric(lats) && AllNumeric(lons);
    var flags := DepotFlags(df, m, depotStopId, ids);
    assert flags.Column?;
    var r := AssembleStops(df, m, ids, Values(lats), Values(lons), flags.values);
    assert NormalizeDataframe(df, m, depotStopId) == r;
    assert seq(|r.stops|, i requires 0 <= i < |r.stops| => r.stops[i].isDepot) == flags.values;
  }

  /** Once the three required columns are found, non-numeric coordinates are rejected before out-of-range ones. */
  lemma NormalizeLaterChecks(df: Frame, m: ColumnMapping, depotStopId: Option<string>)
    requires WellFormed(df)
    requires Required(m, "stop_id") && Required(m, "lat") && Required(m, "lon")
    requires m["stop_id"].value in df.columns && m["lat"].value in df.columns && m["lon"].value in df.columns
    ensures var lats := Coerced(df, m["lat"].value, ToNumeric);
            var lons := Coerced(df, m["lon"].value, ToNumeric);
            var r := NormalizeDataframe(df, m, depotStopId);
            && (!AllNumeric(lats) || !AllNumeric(lons) ==> r == Rejected(InvalidCoordinates))
            && (AllNumeric(lats) && AllNumeric(lons) ==>
                  ((exists i :: 0 <= i < df.nRows && (Abs(Values(lats)[i]) > 90.0 || Abs(Values(lons)[i]) > 180.0))
                    ==> r == Rejected(CoordinatesOutOfRange)))
  {
  }

  /** A mapped optional column, when it is used, names a column of the table. */
  predicate OptionalPresent(df: Frame, m: ColumnMapping, key: string) {
    Mapped(m, key) ==> m[key].value in df.columns
  }

  predicate OptionalColumnsPresent(df: Frame, m: ColumnMapping) {
    && OptionalPresent(df, m, "demand") && OptionalPresent(df, m, "earliest_time")
    && OptionalPresent(df, m, "latest_time") && OptionalPresent(df, m, "service_time")
  }

  /** Every coordinate is within its range. */
  predicate InRangeCoordinates(lat: seq<real>, lon: seq<real>)
    requires |lat| == |lon|
  {
    forall i :: 0 <= i < |lat| ==> Abs(lat[i]) <= 90.0 && Abs(lon[i]) <= 180.0
  }

  /**
   * With the coordinates accepted, the depot checks decide: a missing flag
   * column is a KeyError, no depot is rejected, fewer than two customers is
   * rejected, and a table passing both is normalised once its mapped
   * optional columns exist.
   */
  lemma NormalizeFinalChecks(df: Frame, m: ColumnMapping, depotStopId: Option<string>)
    requires WellFormed(df)
    requires Required(m, "stop_id") && Required(m, "lat") && Required(m, "lon")
    requires m["stop_id"].value in df.columns && m["lat"].value in df.columns && m["lon"].value in df.columns
    requires AllNumeric(Coerced(df, m["lat"].value, ToNumeric)) && AllNumeric(Coerced(df, m["lon"].value, ToNumeric))
    requires InRangeCoordinates(Values(Coerced(df, m["lat"].value, ToNumeric)), Values(Coerced(df, m["lon"].value, ToNumeric)))
    ensures var flags := DepotFlags(df, m, depotStopId, Coerced(df, m["stop_id"].value, AsText));
            var r := NormalizeDataframe(df, m, depotStopId);
            && (flags.Missing? ==> r == MissingColumn(flags.name))
            && (flags.Column? && !(exists i :: 0 <= i < |flags.values| && flags.values[i]) ==> r == Rejected(NoDepot))
            && ((flags.Column? && (exists i :: 0 <= i < |flags.values| && flags.values[i]) && CountFalse(flags.values) < 2)
                ==> r == Rejected(TooFewCustomers))
            && ((flags.Column? && (exists i :: 0 <= i < |flags.values| && flags.values[i]) && CountFalse(flags.values) >= 2)
                ==> (r.Normalized? <==> OptionalColumnsPresent(df, m)))
  {
    var lat, lon := Values(Coerced(df, m["lat"].value, ToNumeric)), Values(Coerced(df, m["lon"].value, ToNumeric));
    assert !(exists i :: 0 <= i < df.nRows && (Abs(lat[i]) > 90.0 || Abs(lon[i]) > 180.0));
  }

  /** Which rows become depots: the mapped flag column, else the explicit id, else row 0. */
  lemma NormalizeDepotRule(df: Frame, m: ColumnMapping, depotStopId: Option<string>)
    requires WellFormed(df)
    requires NormalizeDataframe(df, m, depotStopId).Normalized?
    ensures var stops := NormalizeDataframe(df, m, depotStopId).stops;
            && (Mapped(m, "is_depot") ==>
                  m["is_depot"].value in df.columns &&
                  forall i :: 0 <= i < |stops| ==> stops[i].isDepot == AsBool(df.columns[m["is_depot"].value][i]))
            && (!Mapped(m, "is_depot") && depotStopId.Some? && depotStopId.value != "" ==>
                  forall i :: 0 <= i < |stops| ==> stops[i].isDepot == (stops[i].stopId == depotStopId.value))
            && (!Mapped(m, "is_depot") && (depotStopId.None? || depotStopId.value == "") ==>
                  forall i :: 0 <= i < |stops| ==> stops[i].isDepot == (i == 0))
  {
  }

  /** Unmapped optional columns take their defaults; mapped time columns are parsed. */
  lemma NormalizeDefaults(df: Frame, m: ColumnMapping, depotStopId: Option<string>)
    requires WellFormed(df)
    requires NormalizeDataframe(df, m, depotStopId).Normalized?
    ensures var stops := NormalizeDataframe(df, m, depotStopId).stops;
            && (!Mapped(m, "demand") ==> forall i :: 0 <= i < |stops| ==> stops[i].demand == 0.0)
            && (!Mapped(m, "service_time") ==> forall i :: 0 <= i < |stops| ==> stops[i].serviceTime == 0.0)
            && (!Mapped(m, "earliest_time") ==> forall i :: 0 <= i < |stops| ==> stops[i].earliest.None?)
            && (!Mapped(m, "latest_time") ==> forall i :: 0 <= i < |stops| ==> stops[i].latest.None?)
            && (Mapped(m, "earliest_time") ==>
                  m["earliest_time"].value in df.columns &&
                  forall i :: 0 <= i < |stops| ==> stops[i].earliest == ParseTimeWindow(df.columns[m["earliest_time"].value][i]))
            && (Mapped(m, "latest_time") ==>
                  m["latest_time"].value in df.columns &&
                  forall i :: 0 <= i < |stops| ==> stops[i].latest == ParseTimeWindow(df.columns[m["latest_time"].value][i]))
  {
  }

  // ---------------------------------------------------------------------
  // build_distance_matrix and build_time_matrix
  // ---------------------------------------------------------------------

  /** A square matrix indexed by stop position. */
  type Matrix = seq<seq<real>>

  ghost predicate IsSquare(mat: Matrix, n: nat) {
    |mat| == n && forall i :: 0 <= i < n ==> |mat[i]| == n
  }

  /** Great-circle distance in km between (lat1, lon1) and (lat2, lon2); the formula is not modelled. */
  type Haversine = (real, real, real, real) -> real

  /** The matrix build_distance_matrix produces: zero on the diagonal, haversine elsewhere. */
  function DistanceMatrix(stops: seq<Stop>, hav: Haversine): (d: Matrix)
    ensures |d| == |stops|
  {
    seq(|stops|, i requires 0 <= i < |stops| =>
      seq(|stops|, j requires 0 <= j < |stops| =>
        if i == j then 0.0 else hav(stops[i].lat, stops[i].lon, stops[j].lat, stops[j].lon)))
  }

  lemma DistanceMatrixShape(stops: seq<Stop>, hav: Haversine)
    ensures IsSquare(DistanceMatrix(stops, hav), |stops|)
    ensures forall i :: 0 <= i < |stops| ==> DistanceMatrix(stops, hav)[i][i] == 0.0
    ensures forall i, j :: 0 <= i < |stops| && 0 <= j < |stops| && i != j ==>
              DistanceMatrix(stops, hav)[i][j] == hav(stops[i].lat, stops[i].lon, stops[j].lat, stops[j].lon)
  {
  }

  /** A distance that does not depend on the order of its two points gives a symmetric matrix. */
  lemma DistanceMatrixSymmetric(stops: seq<Stop>, hav: Haversine)
    requires forall a, b, c, d :: hav(a, b, c, d) == hav(c, d, a, b)
    ensures forall i, j :: 0 <= i < |stops| && 0 <= j < |stops| ==>
              DistanceMatrix(stops, hav)[i][j] == DistanceMatrix(stops, hav)[j][i]
  {
  }

  /** build_distance_matrix: a zeroed n-by-n array filled off the diagonal in a double loop. */
  method BuildDistanceMatrix(stops: seq<Stop>, hav: Haversine) returns (mat: array2<real>)
    ensures fresh(mat)
    ensures mat.Length0 == |stops| && mat.Length1 == |stops|
    ensures forall i, j :: 0 <= i < |stops| && 0 <= j < |stops| ==> mat[i, j] == DistanceMatrix(stops, hav)[i][j]
  {
    var n := |stops|;
    mat := new real[n, n]((_, _) => 0.0);
    for i := 0 to n
      invariant forall a, b :: 0 <= a < i && 0 <= b < n ==> mat[a, b] == DistanceMatrix(stops, hav)[a][b]
      invariant forall a, b :: i <= a < n && 0 <= b < n ==> mat[a, b] == 0.0
    {
      for j := 0 to n
        invariant forall a, b :: 0 <= a < i && 0 <= b < n ==> mat[a, b] == DistanceMatrix(stops, hav)[a][b]
        invariant forall b :: 0 <= b < j ==> mat[i, b] == DistanceMatrix(stops, hav)[i][b]
        invariant forall a, b :: i <= a < n && 0 <= b < n && (a > i || b >= j) ==> mat[a, b] == 0.0
      {
        if i != j {
          mat[i, j] := hav(stops[i].lat, stops[i].lon, stops[j].lat, stops[j].lon);
        }
      }
    }
  }

  /** build_time_matrix: minutes of travel at `speed` km/h, entry by entry. */
  function BuildTimeMatrix(d: Matrix, speed: real): (t: Matrix)
    requires speed != 0.0
    ensures |t| == |d| && forall i :: 0 <= i < |d| ==> |t[i]| == |d[i]|
  {
    seq(|d|, i requires 0 <= i < |d| => seq(|d[i]|, j requires 0 <= j < |d[i]| => (d[i][j] / speed) * 60.0))
  }

  /** The time matrix keeps the distance matrix's shape, zero diagonal and symmetry, and converts back. */
  lemma TimeMatrixProperties(d: Matrix, speed: real, n: nat)
    requires speed != 0.0 && IsSquare(d, n)
    ensures IsSquare(BuildTimeMatrix(d, speed), n)
    ensures forall i, j :: 0 <= i < n && 0 <= j < n ==> BuildTimeMatrix(d, speed)[i][j] * speed / 60.0 == d[i][j]
    ensures (forall i :: 0 <= i < n ==> d[i][i] == 0.0) ==> forall i :: 0 <= i < n ==> BuildTimeMatrix(d, speed)[i][i] == 0.0
    ensures (forall i, j :: 0 <= i < n && 0 <= j < n ==> d[i][j] == d[j][i]) ==>
              forall i, j :: 0 <= i < n && 0 <= j < n ==> BuildTimeMatrix(d, speed)[i][j] == BuildTimeMatrix(d, speed)[j][i]
  {
  }
}
