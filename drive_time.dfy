/** The resumable drive-time stage (2_get_drive_time.py): every listing gets
    its coordinates, its drive time and its distance to the fixed destination,
    reusing the answers of a previous run's output file where they are
    trustworthy. */
module DriveTime {
  import opened Text
  import opened Tables
  import opened Enrichment

  /** The record has the four address fields the stage reads; reading a
      missing one raises KeyError. */
  predicate Addressed(row: Row) {
    "Street" in row && "City" in row && "State" in row && "ZIP Code" in row
  }

  predicate AllAddressed(rows: seq<Row>) {
    forall i :: 0 <= i < |rows| ==> Addressed(rows[i])
  }

  /** "Street, City, State ZIP": both the cache key and the text sent to the geocoder. */
  function AddressKey(row: Row): (k: string)
    requires Addressed(row)
    ensures StartsWith(k, row["Street"] + ", ") && EndsWith(k, " " + row["ZIP Code"])
  {
    row["Street"] + ", " + row["City"] + ", " + row["State"] + " " + row["ZIP Code"]
  }

  /** The three saved enrichment values of one earlier output record. */
  datatype Saved = Saved(coordinates: string, driveTime: string, distance: string)

  /** What the cache keeps of a record; a column the earlier file lacks reads as "". */
  function SavedOf(row: Row): Saved {
    Saved(GetOr(row, CoordinatesColumn, ""), GetOr(row, DriveTimeColumn, ""), GetOr(row, DistanceColumn, ""))
  }

  /** The cache after reading the records in order: a later record overwrites an earlier one with the same key. */
  function CacheOf(rows: seq<Row>): map<string, Saved>
    requires AllAddressed(rows)
  {
    if rows == [] then map[] else CacheOf(Init(rows))[AddressKey(Last(rows)) := SavedOf(Last(rows))]
  }

  function PreviousRows(previous: Option<Table>): seq<Row> {
    if previous.Some? then previous.value.rows else []
  }

  /** A saved result is reused only when all three values are present and
      neither the drive time nor the distance is a failure sentinel. */
  predicate Reusable(s: Saved) {
    && s.coordinates != ""
    && s.driveTime != "" && s.driveTime != GeocodingFailed && s.driveTime != RoutingFailed
    && s.distance != "" && s.distance != GeocodingFailed && s.distance != RoutingFailed
  }

  predicate Hit(cache: map<string, Saved>, key: string) {
    key in cache && Reusable(cache[key])
  }

  /** The three values a fresh lookup of origin yields. */
  function Fresh(geocode: string -> Option<LatLon>, route: (LatLon, LatLon) -> Option<Route>,
                 dest: LatLon, origin: string): Saved
  {
    match geocode(origin)
    case None => Saved(GeocodingFailed, GeocodingFailed, GeocodingFailed)
    case Some(p) =>
      match route(p, dest)
      case None => Saved(CoordinatesText(p), RoutingFailed, RoutingFailed)
      case Some(r) => Saved(CoordinatesText(p), r.minutes, r.miles)
  }

  /** The three values written for one record. */
  function Outcome(cache: map<string, Saved>, geocode: string -> Option<LatLon>,
                   route: (LatLon, LatLon) -> Option<Route>, dest: LatLon, row: Row): Saved
    requires Addressed(row)
  {
    var key := AddressKey(row);
    if Hit(cache, key) then cache[key] else Fresh(geocode, route, dest, key)
  }

  /** The record as written. */
  function EnrichRow(cache: map<string, Saved>, geocode: string -> Option<LatLon>,
                     route: (LatLon, LatLon) -> Option<Route>, dest: LatLon, row: Row): Row
    requires Addressed(row)
  {
    var o := Outcome(cache, geocode, route, dest, row);
    WithResult(row, o.coordinates, o.driveTime, o.distance)
  }

  /** The requests made while processing one record. */
  function RowLookups(cache: map<string, Saved>, geocode: string -> Option<LatLon>, dest: LatLon, row: Row): seq<Lookup>
    requires Addressed(row)
  {
    var key := AddressKey(row);
    if Hit(cache, key) then []
    else match geocode(key)
      case None => [GeocodeRequest(key)]
      case Some(p) => [GeocodeRequest(key), RouteRequest(p, dest)]
  }

  /** The requests made while processing the first n records, in order. */
  function RunLookups(cache: map<string, Saved>, geocode: string -> Option<LatLon>, dest: LatLon,
                      rows: seq<Row>, n: nat): seq<Lookup>
    requires AllAddressed(rows) && n <= |rows|
  {
    if n == 0 then [] else RunLookups(cache, geocode, dest, rows, n - 1) + RowLookups(cache, geocode, dest, rows[n - 1])
  }

  /** The first n records as the stage writes them, given the cache it loaded. */
  function EnrichRows(cache: map<string, Saved>, geocode: string -> Option<LatLon>,
                      route: (LatLon, LatLon) -> Option<Route>, dest: LatLon, rows: seq<Row>, n: nat): (out: seq<Row>)
    requires AllAddressed(rows) && n <= |rows|
    ensures |out| == n
    ensures forall i :: 0 <= i < n ==> out[i] == EnrichRow(cache, geocode, route, dest, rows[i])
  {
    if n == 0 then []
    else EnrichRows(cache, geocode, route, dest, rows, n - 1) + [EnrichRow(cache, geocode, route, dest, rows[n - 1])]
  }

  /** Rebuilds the cache from the previous output file, if there is one. */
  method LoadCache(previous: Option<Table>) returns (existing: map<string, Saved>)
    requires previous.Some? ==> WellFormed(previous.value) && AllAddressed(previous.value.rows)
    ensures existing == CacheOf(PreviousRows(previous))
  {
    existing := map[];
    if previous.Some? {
      var rows := previous.value.rows;
      for i := 0 to |rows|
        invariant existing == CacheOf(rows[..i])
      {
        var row := rows[i];
        var key := AddressKey(row);
        existing := existing[key := SavedOf(row)];
        assert Init(rows[..i + 1]) == rows[..i];
      }
      assert rows[..|rows|] == rows;
    }
  }

  /** One pass of the stage's loop: reuse the saved values on a hit, otherwise
      geocode the record's address and route from there to the destination. */
  method ProcessRow(existing: map<string, Saved>, geocode: string -> Option<LatLon>,
                    route: (LatLon, LatLon) -> Option<Route>, dest: LatLon, input: Row)
    returns (row: Row, ghost calls: seq<Lookup>)
    requires Addressed(input)
    ensures row == EnrichRow(existing, geocode, route, dest, input)
    ensures calls == RowLookups(existing, geocode, dest, input)
  {
    row := input;
    calls := [];
    var origin := AddressKey(row);
    if origin in existing && existing[origin].coordinates != "" {
      var saved := existing[origin];
      if saved.driveTime != "" && saved.driveTime !in [GeocodingFailed, RoutingFailed] &&
         saved.distance != "" && saved.distance !in [GeocodingFailed, RoutingFailed]
      {
        row := row[CoordinatesColumn := saved.coordinates];
        row := row[DriveTimeColumn := saved.driveTime];
        row := row[DistanceColumn := saved.distance];
        return;
      }
    }
    var originCoords := geocode(origin);
    calls := calls + [GeocodeRequest(origin)];
    if originCoords.Some? {
      row := row[CoordinatesColumn := CoordinatesText(originCoords.value)];
      var r := route(originCoords.value, dest);
      calls := calls + [RouteRequest(originCoords.value, dest)];
      if r.Some? {
        row := row[DriveTimeColumn := r.value.minutes];
        row := row[DistanceColumn := r.value.miles];
      } else {
        row := row[DriveTimeColumn := RoutingFailed];
        row := row[DistanceColumn := RoutingFailed];
      }
    } else {
      row := row[CoordinatesColumn := GeocodingFailed];
      row := row[DriveTimeColumn := GeocodingFailed];
      row := row[DistanceColumn := GeocodingFailed];
    }
  }

  /** The stage's loop over the records, in file order. */
  method EnrichAll(existing: map<string, Saved>, geocode: string -> Option<LatLon>,
                   route: (LatLon, LatLon) -> Option<Route>, dest: LatLon, rows: seq<Row>)
    returns (written: seq<Row>, ghost lookups: seq<Lookup>)
    requires AllAddressed(rows)
    ensures written == EnrichRows(existing, geocode, route, dest, rows, |rows|)
    ensures lookups == RunLookups(existing, geocode, dest, rows, |rows|)
  {
    written, lookups := [], [];
    var i := 0;
    while i < |rows|
      invariant 0 <= i <= |rows|
      invariant written == EnrichRows(existing, geocode, route, dest, rows, i)
      invariant lookups == RunLookups(existing, geocode, dest, rows, i)
    {
      var row, calls := ProcessRow(existing, geocode, route, dest, rows[i]);
      assert EnrichRows(existing, geocode, route, dest, rows, i + 1) == written + [row];
      assert RunLookups(existing, geocode, dest, rows, i + 1) == lookups + calls;
      written := written + [row];
      lookups := lookups + calls;
      i := i + 1;
    }
  }

  /** The stage: load the cache, geocode the destination (or give up before
      writing anything), then write one enriched record per input record. */
  method CalculateFreeDriveTimes(input: Table, previous: Option<Table>,
                                 geocode: string -> Option<LatLon>,
                                 route: (LatLon, LatLon) -> Option<Route>)
    returns (result: RunResult, ghost lookups: seq<Lookup>)
    requires WellFormed(input)
    requires geocode(Destination).Some? ==> AllAddressed(input.rows)
    requires previous.Some? ==> WellFormed(previous.value) && AllAddressed(previous.value.rows)
    ensures result.DestinationNotFound? <==> geocode(Destination).None?
    ensures result.DestinationNotFound? ==> lookups == [GeocodeRequest(Destination)]
    ensures result.Written? ==>
              var cache := CacheOf(PreviousRows(previous));
              var dest := geocode(Destination).value;
              && result.output.header == input.header + AddedColumns
              && result.output.rows == EnrichRows(cache, geocode, route, dest, input.rows, |input.rows|)
              && lookups == [GeocodeRequest(Destination)] + RunLookups(cache, geocode, dest, input.rows, |input.rows|)
  {
    var existing := LoadCache(previous);
    lookups := [GeocodeRequest(Destination)];
    var destCoords := geocode(Destination);
    if destCoords.None? {
      return DestinationNotFound, lookups;
    }
    var dest := destCoords.value;
    var written, calls := EnrichAll(existing, geocode, route, dest, input.rows);
    lookups := lookups + calls;
    result := Written(Table(input.header + AddedColumns, written));
  }

  // ---------------------------------------------------------------------------
  // Properties

  /** Position of the last record with the given key, or -1 when there is none. */
  function LastIndexOf(rows: seq<Row>, key: string): (r: int)
    requires AllAddressed(rows)
    ensures -1 <= r < |rows|
    ensures r >= 0 ==> AddressKey(rows[r]) == key
    ensures forall j :: r < j < |rows| ==> AddressKey(rows[j]) != key
  {
    if rows == [] then -1
    else if AddressKey(Last(rows)) == key then |rows| - 1
    else LastIndexOf(Init(rows), key)
  }

  /** A key is cached exactly when some record produced it, and the cache then
      holds the values of the LAST such record: later records overwrite earlier ones. */
  lemma {:induction false} CacheOfLastWins(rows: seq<Row>, key: string)
    requires AllAddressed(rows)
    ensures var last := LastIndexOf(rows, key);
            && (key in CacheOf(rows) <==> last >= 0)
            && (last >= 0 ==> CacheOf(rows)[key] == SavedOf(rows[last]))
  {
    if rows != [] && AddressKey(Last(rows)) != key {
      CacheOfLastWins(Init(rows), key);
    }
  }

  /** Enrichment leaves the address fields alone, so the output record yields
      the same key as the input record it came from. */
  lemma EnrichedKeepsKey(cache: map<string, Saved>, geocode: string -> Option<LatLon>,
                         route: (LatLon, LatLon) -> Option<Route>, dest: LatLon, row: Row)
    requires Addressed(row)
    ensures var out := EnrichRow(cache, geocode, route, dest, row);
            Addressed(out) && AddressKey(out) == AddressKey(row)
            && SavedOf(out) == Outcome(cache, geocode, route, dest, row)
  {
  }

  /** A cache hit reuses exactly the three saved values and makes no request;
      a miss always asks the geocoder for the record's address first. */
  lemma HitMakesNoLookup(cache: map<string, Saved>, geocode: string -> Option<LatLon>,
                         route: (LatLon, LatLon) -> Option<Route>, dest: LatLon, row: Row)
    requires Addressed(row)
    ensures var key := AddressKey(row);
            && (RowLookups(cache, geocode, dest, row) == [] <==> Hit(cache, key))
            && (Hit(cache, key) ==> Outcome(cache, geocode, route, dest, row) == cache[key])
            && (!Hit(cache, key) ==> RowLookups(cache, geocode, dest, row)[0] == GeocodeRequest(key))
  {
  }

  /** An earlier failure is never reused: the record is looked up again. */
  lemma FailureIsRetried(cache: map<string, Saved>, geocode: string -> Option<LatLon>, dest: LatLon, row: Row)
    requires Addressed(row) && AddressKey(row) in cache
    requires cache[AddressKey(row)].driveTime in [GeocodingFailed, RoutingFailed]
          || cache[AddressKey(row)].distance in [GeocodingFailed, RoutingFailed]
    ensures RowLookups(cache, geocode, dest, row) != []
  {
  }

  /** On a miss where the origin cannot be geocoded, all three fields carry "Geocoding failed". */
  lemma GeocodeFailureFields(cache: map<string, Saved>, geocode: string -> Option<LatLon>,
                             route: (LatLon, LatLon) -> Option<Route>, dest: LatLon, row: Row)
    requires Addressed(row) && !Hit(cache, AddressKey(row)) && geocode(AddressKey(row)).None?
    ensures var out := EnrichRow(cache, geocode, route, dest, row);
            && out[CoordinatesColumn] == GeocodingFailed
            && out[DriveTimeColumn] == GeocodingFailed
            && out[DistanceColumn] == GeocodingFailed
            && RowLookups(cache, geocode, dest, row) == [GeocodeRequest(AddressKey(row))]
  {
  }

  /** On a miss where geocoding succeeds but routing fails, the coordinates are
      written as "lat, lon" and both other fields carry "Routing failed". */
  lemma RoutingFailureFields(cache: map<string, Saved>, geocode: string -> Option<LatLon>,
                             route: (LatLon, LatLon) -> Option<Route>, dest: LatLon, row: Row)
    requires Addressed(row) && !Hit(cache, AddressKey(row))
    requires geocode(AddressKey(row)).Some? && route(geocode(AddressKey(row)).value, dest).None?
    ensures var p := geocode(AddressKey(row)).value;
            var out := EnrichRow(cache, geocode, route, dest, row);
            && out[CoordinatesColumn] == p.lat + ", " + p.lon
            && out[DriveTimeColumn] == RoutingFailed
            && out[DistanceColumn] == RoutingFailed
  {
  }

  /** Every input field other than the three appended ones is written unchanged. */
  lemma OriginalFieldsKept(cache: map<string, Saved>, geocode: string -> Option<LatLon>,
                           route: (LatLon, LatLon) -> Option<Route>, dest: LatLon, row: Row, k: string)
    requires Addressed(row) && k in row && k !in AddedColumns
    ensures EnrichRow(cache, geocode, route, dest, row)[k] == row[k]
  {
  }

  /** Resuming is stable: running the stage again on the same input, with the
      first run's output as the previous file and the services answering as
      before, writes the same records; a record whose first-run result is
      trustworthy costs no request the second time. */
  lemma RerunReproducesOutput(cache: map<string, Saved>, geocode: string -> Option<LatLon>,
                              route: (LatLon, LatLon) -> Option<Route>, dest: LatLon, rows: seq<Row>)
    requires AllAddressed(rows)
    ensures var first := EnrichRows(cache, geocode, route, dest, rows, |rows|);
            && AllAddressed(first)
            && EnrichRows(CacheOf(first), geocode, route, dest, rows, |rows|) == first
            && forall i :: 0 <= i < |rows| ==>
                 (RowLookups(CacheOf(first), geocode, dest, rows[i]) == [] <==>
                  Reusable(Outcome(cache, geocode, route, dest, rows[i])))
  {
    var first := EnrichRows(cache, geocode, route, dest, rows, |rows|);
    forall i | 0 <= i < |rows|
      ensures Addressed(first[i]) && AddressKey(first[i]) == AddressKey(rows[i])
      ensures SavedOf(first[i]) == Outcome(cache, geocode, route, dest, rows[i])
    {
      EnrichedKeepsKey(cache, geocode, route, dest, rows[i]);
    }
    var again := EnrichRows(CacheOf(first), geocode, route, dest, rows, |rows|);
    forall i | 0 <= i < |rows|
      ensures again[i] == first[i]
      ensures RowLookups(CacheOf(first), geocode, dest, rows[i]) == [] <==>
              Reusable(Outcome(cache, geocode, route, dest, rows[i]))
    {
      RerunRow(cache, geocode, route, dest, rows, first, i);
    }
    assert again == first;
  }

  /** One record of the rerun: the reloaded cache holds, under the record's key,
      the outcome the first run gave every record with that key, so the rerun
      gives the record the same outcome. */
  lemma RerunRow(cache: map<string, Saved>, geocode: string -> Option<LatLon>,
                 route: (LatLon, LatLon) -> Option<Route>, dest: LatLon,
                 rows: seq<Row>, first: seq<Row>, i: nat)
    requires AllAddressed(rows) && AllAddressed(first) && |first| == |rows| && i < |rows|
    requires forall j :: 0 <= j < |rows| ==> AddressKey(first[j]) == AddressKey(rows[j])
    requires forall j :: 0 <= j < |rows| ==> SavedOf(first[j]) == Outcome(cache, geocode, route, dest, rows[j])
    ensures Outcome(CacheOf(first), geocode, route, dest, rows[i]) == Outcome(cache, geocode, route, dest, rows[i])
    ensures RowLookups(CacheOf(first), geocode, dest, rows[i]) == [] <==>
            Reusable(Outcome(cache, geocode, route, dest, rows[i]))
  {
    var key := AddressKey(rows[i]);
    var o := Outcome(cache, geocode, route, dest, rows[i]);
    ReloadedEntry(cache, geocode, route, dest, rows, first, i);
    if !Reusable(o) {
      assert !Hit(cache, key);
    }
    HitMakesNoLookup(CacheOf(first), geocode, route, dest, rows[i]);
  }

  /** The reloaded cache holds, under a record's key, that record's first-run outcome. */
  lemma ReloadedEntry(cache: map<string, Saved>, geocode: string -> Option<LatLon>,
                      route: (LatLon, LatLon) -> Option<Route>, dest: LatLon,
                      rows: seq<Row>, first: seq<Row>, i: nat)
    requires AllAddressed(rows) && AllAddressed(first) && |first| == |rows| && i < |rows|
    requires forall j :: 0 <= j < |rows| ==> AddressKey(first[j]) == AddressKey(rows[j])
    requires forall j :: 0 <= j < |rows| ==> SavedOf(first[j]) == Outcome(cache, geocode, route, dest, rows[j])
    ensures AddressKey(rows[i]) in CacheOf(first)
    ensures CacheOf(first)[AddressKey(rows[i])] == Outcome(cache, geocode, route, dest, rows[i])
  {
    var key := AddressKey(rows[i]);
    CacheOfLastWins(first, key);
    var j := LastIndexOf(first, key);
    assert AddressKey(first[i]) == key;
    assert AddressKey(rows[j]) == key;
    assert Outcome(cache, geocode, route, dest, rows[j]) == Outcome(cache, geocode, route, dest, rows[i]);
  }
}
