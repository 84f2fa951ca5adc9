/** The non-resuming drive-time script (find_drive_time.py): a departure-time
    rule, an OpenStreetMap-style geocoder that retries once with the city
    replaced by New Orleans, and a stage that enriches every record afresh,
    writing the numbers with unit suffixes. */
module FindDriveTime {
  import opened Text
  import opened Tables
  import opened Enrichment
  import DriveTime

  // ---------------------------------------------------------------------------
  // Next Monday at 08:20

  const MicrosPerDay: int := 86_400_000_000

  /** 08:20:00.000000 as microseconds since midnight. */
  const DepartureMicros: int := (8 * 60 + 20) * 60 * 1_000_000

  /** A naive local date and time: the proleptic Gregorian day number
      (date.toordinal(), day 1 being 0001-01-01) and the microsecond of that day. */
  datatype DateTime = DateTime(day: int, micros: int)

  predicate ValidTime(t: DateTime) { 0 <= t.micros < MicrosPerDay }

  /** date.weekday(): Monday is 0; day 1 was a Monday. */
  function Weekday(day: int): int { (day + 6) % 7 }

  /** Microseconds since the start of day 0, for comparing instants. */
  function Instant(t: DateTime): int { t.day * MicrosPerDay + t.micros }

  /** The next departure: today at 08:20 if today is a Monday before 08:20,
      otherwise 08:20 on the Monday 1 to 7 days ahead. (0 - w) % 7 is Python's
      floored remainder; for a positive divisor Dafny's agrees with it. */
  function NextMonday0820(now: DateTime): (r: DateTime)
    requires ValidTime(now)
    ensures ValidTime(r) && r.micros == DepartureMicros
    ensures now.day <= r.day <= now.day + 7
  {
    if Weekday(now.day) == 0 && now.micros < DepartureMicros then DateTime(now.day, DepartureMicros)
    else
      var daysAhead := (0 - Weekday(now.day)) % 7;
      DateTime(now.day + (if daysAhead == 0 then 7 else daysAhead), DepartureMicros)
  }

  /** The days to add to reach the next departure. */
  lemma NextMondayOffset(now: DateTime)
    requires ValidTime(now)
    ensures var r := NextMonday0820(now);
            && (Weekday(now.day) == 0 && now.micros < DepartureMicros ==> r.day == now.day)
            && (Weekday(now.day) == 0 && now.micros >= DepartureMicros ==> r.day == now.day + 7)
            && (Weekday(now.day) != 0 ==> r.day == now.day + 7 - Weekday(now.day))
  {
  }

  lemma WeekdayShift(day: int, k: int)
    ensures Weekday(day + k) == (Weekday(day) + k) % 7
  {
    var q := (day + 6) / 7;
    assert day + 6 == 7 * q + Weekday(day);
    assert day + k + 6 == 7 * q + (Weekday(day) + k);
    ModShift(Weekday(day) + k, q);
  }

  lemma ModShift(a: int, q: int)
    ensures (7 * q + a) % 7 == a % 7
  {
  }

  /** The result is a Monday at exactly 08:20:00.000000, after now by more than
      nothing and by at most seven days. */
  lemma NextMondayIsNextDeparture(now: DateTime)
    requires ValidTime(now)
    ensures var r := NextMonday0820(now);
            && Weekday(r.day) == 0 && r.micros == DepartureMicros
            && Instant(now) < Instant(r) <= Instant(now) + 7 * MicrosPerDay
  {
    var r := NextMonday0820(now);
    var w := Weekday(now.day);
    NextMondayOffset(now);
    WeekdayShift(now.day, r.day - now.day);
    if w != 0 {
      assert r.day - now.day == 7 - w;
    }
    assert Instant(r) - Instant(now) == (r.day - now.day) * MicrosPerDay + (DepartureMicros - now.micros);
  }

  /** No Monday 08:20 lies strictly between now and the result: it is the earliest. */
  lemma NextMondayIsEarliest(now: DateTime, t: DateTime)
    requires ValidTime(now)
    requires Weekday(t.day) == 0 && t.micros == DepartureMicros && Instant(now) < Instant(t)
    ensures Instant(NextMonday0820(now)) <= Instant(t)
  {
    var r := NextMonday0820(now);
    var w := Weekday(now.day);
    var k, m := r.day - now.day, t.day - now.day;
    NextMondayIsNextDeparture(now);
    NextMondayOffset(now);
    // t is not on an earlier day than now, and on the same day only if now is before 08:20
    assert (t.day + 1) * MicrosPerDay > now.day * MicrosPerDay;
    assert m >= 0;
    assert m == 0 ==> now.micros < DepartureMicros;
    // both r and t are Mondays, so they are whole weeks apart
    WeekdayShift(now.day, k);
    WeekdayShift(now.day, m);
    WeeksApart(w, k, m);
    assert k == 0 || (k == 7 && w == 0 && now.micros >= DepartureMicros) || 1 <= k < 7;
    assert k <= m;
    assert Instant(t) - Instant(r) == (m - k) * MicrosPerDay;
  }

  lemma WeeksApart(w: int, k: int, m: int)
    requires (w + k) % 7 == 0 && (w + m) % 7 == 0
    ensures (m - k) % 7 == 0
    ensures k <= m || m <= k - 7
  {
    var a, b := (w + k) / 7, (w + m) / 7;
    assert w + k == 7 * a && w + m == 7 * b;
    assert m - k == 7 * (b - a);
    ModShift(0, b - a);
  }

  // ---------------------------------------------------------------------------
  // Geocoding with the New Orleans fallback

  /** The search service's answer: a first hit, an empty list, or a failure
      (transport error, unreadable reply). */
  datatype SearchReply = Found(place: LatLon) | NoMatch | SearchError

  /** The retry query: the text before the first comma, stripped, then
      ", New Orleans, LA", then the third and later comma-separated parts. */
  function FallbackQuery(address: string): (q: Option<string>)
    ensures q.Some? <==> ',' in address
  {
    SplitHasSeveralParts(address, ',');
    var parts := Split(address, ',');
    if |parts| >= 2 then
      Some(Strip(parts[0]) + ", New Orleans, LA" + (if |parts| > 2 then "," + Join(",", parts[2..]) else ""))
    else None
  }

  /** There is a retry query exactly when the address has a comma; it keeps the
      first part, puts ", New Orleans, LA" in place of the second and keeps
      everything from the second comma on. */
  lemma FallbackQueryRewrite(address: string)
    ensures FallbackQuery(address).Some? <==> ',' in address
    ensures ',' in address && ',' !in AfterFirst(address, ',') ==>
              FallbackQuery(address).value == Strip(BeforeFirst(address, ',')) + ", New Orleans, LA"
    ensures ',' in address && ',' in AfterFirst(address, ',') ==>
              FallbackQuery(address).value ==
                Strip(BeforeFirst(address, ',')) + ", New Orleans, LA" + ("," + AfterFirst(AfterFirst(address, ','), ','))
  {
    SplitHasSeveralParts(address, ',');
    if ',' in address {
      var rest := AfterFirst(address, ',');
      var parts := Split(address, ',');
      assert parts[0] == BeforeFirst(address, ',') && parts[1..] == Split(rest, ',') by {
        SplitAtFirst(address, ',');
      }
      KeptTail(rest);
      if ',' in rest {
        assert Join(",", parts[2..]) == AfterFirst(rest, ',') by {
          assert parts[2..] == parts[1..][1..];
        }
      } else {
        assert |parts| == 2;
      }
    }
  }

  /** What the retry query keeps of the text after the first comma: everything
      after the next comma, if there is one. */
  lemma KeptTail(rest: string)
    ensures ',' !in rest ==> |Split(rest, ',')| == 1
    ensures ',' in rest ==>
              |Split(rest, ',')| > 1 && Join(",", Split(rest, ',')[1..]) == AfterFirst(rest, ',')
  {
    SplitHasSeveralParts(rest, ',');
    if ',' in rest {
      var i := IndexOf(rest, ',');
      var tail := Split(rest[i + 1..], ',');
      assert AfterFirst(rest, ',') == rest[i + 1..];
      assert Split(rest, ',')[1..] == tail by {
        SplitAtFirst(rest, ',');
        assert ([rest[..i]] + tail)[1..] == tail;
      }
      JoinSplit(rest[i + 1..], ',');
      assert "," == [','];
    }
  }

  /** For a "street, city, state zip" address the retry keeps the street,
      puts ", New Orleans, LA" in place of the city and keeps the rest, state
      included (the destination's own retry reads "..., New Orleans, LA, LA 70112"). */
  lemma FallbackOfThreeParts(street: string, city: string, rest: string)
    requires ',' !in street && ',' !in city
    requires street != [] && !IsSpace(street[0]) && !IsSpace(street[|street| - 1])
    ensures FallbackQuery(street + [','] + city + [','] + rest) == Some(street + ", New Orleans, LA" + ("," + rest))
  {
    var tail := city + [','] + rest;
    var address := street + [','] + tail;
    assert street + [','] + city + [','] + rest == address;
    assert ',' in address && BeforeFirst(address, ',') == street && AfterFirst(address, ',') == tail by {
      IndexOfAfterPrefix(street, ',', tail);
    }
    assert ',' in tail && AfterFirst(tail, ',') == rest by {
      IndexOfAfterPrefix(city, ',', rest);
    }
    TrimUntrimmed(IsSpace, street);
    FallbackQueryRewrite(address);
  }

  /** geocode_address: the first hit for the address; on an empty answer, the
      first hit for the retry query if the address has a comma; None otherwise. */
  function Geocode(search: string -> SearchReply, address: string): (r: Option<LatLon>)
    ensures search(address).Found? ==> r == Some(search(address).place)
    ensures search(address).SearchError? || ',' !in address ==> r.Some? ==> search(address).Found?
    ensures r.Some? && !search(address).Found? ==>
              FallbackQuery(address).Some? && search(FallbackQuery(address).value) == Found(r.value)
  {
    match search(address)
    case Found(p) => Some(p)
    case SearchError => None
    case NoMatch =>
      match FallbackQuery(address)
      case None => None
      case Some(q) => if search(q).Found? then Some(search(q).place) else None
  }

  /** The queries geocode_address sends, in order. */
  function GeocodeQueries(search: string -> SearchReply, address: string): seq<string> {
    if search(address).NoMatch? && FallbackQuery(address).Some? then [address, FallbackQuery(address).value]
    else [address]
  }

  /** The retry is sent only when the first answer is empty and the address has a comma. */
  lemma RetryOnlyOnEmptyAnswer(search: string -> SearchReply, address: string)
    ensures GeocodeQueries(search, address)[0] == address
    ensures |GeocodeQueries(search, address)| == 2 <==> search(address).NoMatch? && ',' in address
    ensures |GeocodeQueries(search, address)| <= 2
    ensures Geocode(search, address).Some? <==>
              search(address).Found? ||
              (search(address).NoMatch? && ',' in address && search(FallbackQuery(address).value).Found?)
  {
    FallbackQueryRewrite(address);
  }

  // ---------------------------------------------------------------------------
  // The stage

  const AddressColumn := "Address"

  predicate AllHaveAddress(rows: seq<Row>) {
    forall i :: 0 <= i < |rows| ==> AddressColumn in rows[i]
  }

  function Requests(queries: seq<string>): (r: seq<Lookup>)
    ensures |r| == |queries|
  {
    if queries == [] then [] else [GeocodeRequest(queries[0])] + Requests(queries[1..])
  }

  /** The record as written: coordinates, then minutes and miles with their unit suffixes. */
  function EnrichRow(search: string -> SearchReply, route: (LatLon, LatLon) -> Option<Route>,
                     dest: LatLon, row: Row): Row
    requires AddressColumn in row
  {
    match Geocode(search, row[AddressColumn])
    case None => WithResult(row, GeocodingFailed, GeocodingFailed, GeocodingFailed)
    case Some(p) =>
      match route(p, dest)
      case None => WithResult(row, CoordinatesText(p), RoutingFailed, RoutingFailed)
      case Some(r) => WithResult(row, CoordinatesText(p), r.minutes + " mins", r.miles + " miles")
  }

  /** The requests made for one record. */
  function RowLookups(search: string -> SearchReply, dest: LatLon, row: Row): seq<Lookup>
    requires AddressColumn in row
  {
    var address := row[AddressColumn];
    Requests(GeocodeQueries(search, address)) +
    (if Geocode(search, address).Some? then [RouteRequest(Geocode(search, address).value, dest)] else [])
  }

  function EnrichRows(search: string -> SearchReply, route: (LatLon, LatLon) -> Option<Route>,
                      dest: LatLon, rows: seq<Row>, n: nat): (out: seq<Row>)
    requires AllHaveAddress(rows) && n <= |rows|
    ensures |out| == n
  {
    if n == 0 then [] else EnrichRows(search, route, dest, rows, n - 1) + [EnrichRow(search, route, dest, rows[n - 1])]
  }

  /** Record i of the output is record i of the input, enriched. */
  lemma {:induction false} EnrichRowsAt(search: string -> SearchReply, route: (LatLon, LatLon) -> Option<Route>,
                                        dest: LatLon, rows: seq<Row>, n: nat, i: nat)
    requires AllHaveAddress(rows) && i < n <= |rows|
    ensures EnrichRows(search, route, dest, rows, n)[i] == EnrichRow(search, route, dest, rows[i])
  {
    if i < n - 1 {
      EnrichRowsAt(search, route, dest, rows, n - 1, i);
    }
  }

  function RunLookups(search: string -> SearchReply, dest: LatLon, rows: seq<Row>, n: nat): seq<Lookup>
    requires AllHaveAddress(rows) && n <= |rows|
  {
    if n == 0 then [] else RunLookups(search, dest, rows, n - 1) + RowLookups(search, dest, rows[n - 1])
  }

  /** geocode_address as a method: one search, and the retry when the first answer is empty. */
  method GeocodeAddress(search: string -> SearchReply, address: string)
    returns (result: Option<LatLon>, ghost queries: seq<string>)
    ensures result == Geocode(search, address)
    ensures queries == GeocodeQueries(search, address)
  {
    queries := [address];
    var response := search(address);
    if response.Found? {
      return Some(response.place), queries;
    }
    result := None;
    if response.NoMatch? {
      var parts := Split(address, ',');
      if |parts| >= 2 {
        var newAddress := Strip(parts[0]) + ", New Orleans, LA" +
                          (if |parts| > 2 then "," + Join(",", parts[2..]) else "");
        queries := queries + [newAddress];
        response := search(newAddress);
        if response.Found? {
          result := Some(response.place);
        }
      }
    }
  }

  /** One pass of the stage's loop. */
  method ProcessRow(search: string -> SearchReply, route: (LatLon, LatLon) -> Option<Route>,
                    dest: LatLon, input: Row)
    returns (row: Row, ghost calls: seq<Lookup>)
    requires AddressColumn in input
    ensures row == EnrichRow(search, route, dest, input)
    ensures calls == RowLookups(search, dest, input)
  {
    row := input;
    var origin := row[AddressColumn];
    var originCoords, queries := GeocodeAddress(search, origin);
    calls := Requests(queries);
    if originCoords.Some? {
      row := row[CoordinatesColumn := CoordinatesText(originCoords.value)];
      var r := route(originCoords.value, dest);
      calls := calls + [RouteRequest(originCoords.value, dest)];
      if r.Some? {
        row := row[DriveTimeColumn := r.value.minutes + " mins"];
        row := row[DistanceColumn := r.value.miles + " miles"];
      } else {
        row := row[DriveTimeColumn := RoutingFailed];
        row := row[DistanceColumn := RoutingFailed];
      }
    } else {
      row := row[CoordinatesColumn := GeocodingFailed];
      row := row[DriveTimeColumn := GeocodingFailed];
      row := row[DistanceColumn := GeocodingFailed];
    }
  }

  /** The stage's loop over the records, in file order. */
  method EnrichAll(search: string -> SearchReply, route: (LatLon, LatLon) -> Option<Route>,
                   dest: LatLon, rows: seq<Row>)
    returns (written: seq<Row>, ghost lookups: seq<Lookup>)
    requires AllHaveAddress(rows)
    ensures written == EnrichRows(search, route, dest, rows, |rows|)
    ensures lookups == RunLookups(search, dest, rows, |rows|)
  {
    written, lookups := [], [];
    var i := 0;
    while i < |rows|
      invariant 0 <= i <= |rows|
      invariant written == EnrichRows(search, route, dest, rows, i)
      invariant lookups == RunLookups(search, dest, rows, i)
    {
      var row, calls := ProcessRow(search, route, dest, rows[i]);
      assert EnrichRows(search, route, dest, rows, i + 1) == written + [row];
      assert RunLookups(search, dest, rows, i + 1) == lookups + calls;
      written := written + [row];
      lookups := lookups + calls;
      i := i + 1;
    }
  }

  /** The stage: geocode the destination (or give up before writing anything),
      then write one enriched record per input record. */
  method CalculateFreeDriveTimes(input: Table, search: string -> SearchReply,
                                 route: (LatLon, LatLon) -> Option<Route>)
    returns (result: RunResult, ghost lookups: seq<Lookup>)
    requires WellFormed(input)
    requires Geocode(search, Destination).Some? ==> AllHaveAddress(input.rows)
    ensures result.DestinationNotFound? <==> Geocode(search, Destination).None?
    ensures result.DestinationNotFound? ==> lookups == Requests(GeocodeQueries(search, Destination))
    ensures result.Written? ==>
              var dest := Geocode(search, Destination).value;
              && result.output.header == input.header + AddedColumns
              && result.output.rows == EnrichRows(search, route, dest, input.rows, |input.rows|)
              && lookups == Requests(GeocodeQueries(search, Destination)) + RunLookups(search, dest, input.rows, |input.rows|)
  {
    var destCoords, queries := GeocodeAddress(search, Destination);
    lookups := Requests(queries);
    if destCoords.None? {
      return DestinationNotFound, lookups;
    }
    var dest := destCoords.value;
    var written, calls := EnrichAll(search, route, dest, input.rows);
    lookups := lookups + calls;
    result := Written(Table(input.header + AddedColumns, written));
  }

  // ---------------------------------------------------------------------------
  // Properties

  /** Success is written with " mins" / " miles"; failures carry the same
      sentinels, on the same fields, as the resumable stage: the record is
      the resumable stage's fresh lookup (with this geocoder) plus the suffixes. */
  lemma AgreesWithResumableStage(search: string -> SearchReply, route: (LatLon, LatLon) -> Option<Route>,
                                 dest: LatLon, row: Row)
    requires AddressColumn in row
    ensures var address := row[AddressColumn];
            var f := DriveTime.Fresh(a => Geocode(search, a), route, dest, address);
            var p := Geocode(search, address);
            EnrichRow(search, route, dest, row) ==
              if p.Some? && route(p.value, dest).Some?
              then WithResult(row, f.coordinates, f.driveTime + " mins", f.distance + " miles")
              else WithResult(row, f.coordinates, f.driveTime, f.distance)
  {
    var geocode := a => Geocode(search, a);
    assert geocode(row[AddressColumn]) == Geocode(search, row[AddressColumn]);
  }
}
