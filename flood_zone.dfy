/** The flood-zone stage (3_get_flood_zone.py): every record's Coordinates cell
    is classified as missing, unreadable or a point; a point is looked up in the
    FEMA flood-hazard layer, and the answer is turned into a label that goes
    into a new "Flood Zone" column. The FEMA service is a parameter. */
module FloodZone {
  import opened Text
  import opened Tables
  import opened Decimals
  import opened Enrichment

  const FloodZoneColumn := "Flood Zone"
  const MissingCoordinates := "Missing coordinates"
  const InvalidCoordinates := "Invalid coordinates"
  const NotMapped := "Not in mapped flood zone"

  /** A query point in the service's geometry order: x is the longitude, y the latitude. */
  datatype Point = Point(x: Decimal, y: Decimal)

  /** What the service gives back: the attributes of the first intersecting
      feature (a JSON null read as None), no feature at all, or an exception
      (transport, HTTP status, unreadable reply) with its message. */
  datatype FemaReply =
    | FirstFeature(attributes: map<string, Option<string>>)
    | NoFeature
    | Failure(message: string)

  /** How a Coordinates cell is read: no comma (or not text at all), a comma
      but not two numbers, or a point. */
  datatype Reading = NoComma | Unreadable | Located(point: Point)

  /** str() of an attribute value; None prints as "None". */
  function Printed(v: Option<string>): string {
    if v.Some? then v.value else "None"
  }

  /** dict.get(key) on the attributes: an absent attribute reads as None. */
  function Attribute(attrs: map<string, Option<string>>, key: string): Option<string> {
    if key in attrs then attrs[key] else None
  }

  /** get_flood_zone's result: "ZONE (SUBTYPE)" for a feature, with "N/A" for
      an absent subtype; a fixed text when no feature intersects; the message
      of any exception, never the exception itself. */
  function ZoneLabel(reply: FemaReply): string {
    match reply
    case FirstFeature(attrs) =>
      Printed(Attribute(attrs, "FLD_ZONE")) + " (" +
      (if "ZONE_SUBTY" in attrs then Printed(attrs["ZONE_SUBTY"]) else "N/A") + ")"
    case NoFeature => NotMapped
    case Failure(m) => "Error: " + m
  }

  /** The cell is text with a comma; its stripped text is split at commas, and
      two parts that float() accepts are latitude then longitude. Any other
      split raises ValueError. */
  function Classify(coord: string): (r: Reading)
    ensures r.NoComma? <==> ',' !in coord
  {
    if ',' !in coord then NoComma else ReadParts(Split(Strip(coord), ','))
  }

  /** lat, lon = map(float, parts) */
  function ReadParts(parts: seq<string>): Reading {
    if |parts| == 2 then ReadPair(ParseNumber(parts[0]), ParseNumber(parts[1])) else Unreadable
  }

  function ReadPair(lat: Option<Decimal>, lon: Option<Decimal>): Reading {
    if lat.Some? && lon.Some? then Located(Point(lon.value, lat.value)) else Unreadable
  }

  /** The zone value recorded for one Coordinates cell. */
  function ZoneOf(fema: Point -> FemaReply, coord: string): string {
    match Classify(coord)
    case NoComma => MissingCoordinates
    case Unreadable => InvalidCoordinates
    case Located(p) => ZoneLabel(fema(p))
  }

  /** The zone values of the first n cells, in order. */
  function Zones(fema: Point -> FemaReply, coords: seq<string>, n: nat): (zs: seq<string>)
    requires n <= |coords|
    ensures |zs| == n
  {
    if n == 0 then [] else Zones(fema, coords, n - 1) + [ZoneOf(fema, coords[n - 1])]
  }

  /** The points sent to the service for the first n cells, in order. */
  function Queries(coords: seq<string>, n: nat): seq<Point>
    requires n <= |coords|
  {
    if n == 0 then []
    else Queries(coords, n - 1) + (if Classify(coords[n - 1]).Located? then [Classify(coords[n - 1]).point] else [])
  }

  /** df[name] = values: every record gets the value at its position; the
      column is appended to the header unless it is already there. */
  function WithColumn(t: Table, name: string, values: seq<string>): (r: Table)
    requires |values| == |t.rows|
    ensures |r.rows| == |t.rows|
  {
    Table(if name in t.header then t.header else t.header + [name],
          seq(|t.rows|, i requires 0 <= i < |t.rows| => t.rows[i][name := values[i]]))
  }

  /** The loop over the Coordinates column: one zone value per cell, in order. */
  method FloodZones(fema: Point -> FemaReply, coords: seq<string>)
    returns (zones: seq<string>, ghost queries: seq<Point>)
    ensures zones == Zones(fema, coords, |coords|)
    ensures queries == Queries(coords, |coords|)
  {
    zones, queries := [], [];
    for i := 0 to |coords|
      invariant zones == Zones(fema, coords, i)
      invariant queries == Queries(coords, i)
    {
      var zone: string;
      match Classify(coords[i]) {
        case NoComma =>
          zone := MissingCoordinates;
        case Unreadable =>
          zone := InvalidCoordinates;
        case Located(p) =>
          queries := queries + [p];
          zone := ZoneLabel(fema(p));
      }
      zones := zones + [zone];
    }
  }

  /** The stage: read the Coordinates column, look every point up, and store
      the labels in the Flood Zone column. */
  method GetFloodZones(fema: Point -> FemaReply, t: Table)
    returns (out: Table, ghost queries: seq<Point>)
    requires HasColumns(t, {CoordinatesColumn})
    ensures var coords := seq(|t.rows|, i requires 0 <= i < |t.rows| => t.rows[i][CoordinatesColumn]);
            && out == WithColumn(t, FloodZoneColumn, Zones(fema, coords, |coords|))
            && queries == Queries(coords, |coords|)
  {
    var coords := seq(|t.rows|, i requires 0 <= i < |t.rows| => t.rows[i][CoordinatesColumn]);
    var zones;
    zones, queries := FloodZones(fema, coords);
    out := WithColumn(t, FloodZoneColumn, zones);
  }

  // ---------------------------------------------------------------------------
  // Properties

  /** Zone value i belongs to cell i. */
  lemma {:induction false} ZonesAt(fema: Point -> FemaReply, coords: seq<string>, n: nat, i: nat)
    requires i < n <= |coords|
    ensures Zones(fema, coords, n)[i] == ZoneOf(fema, coords[i])
  {
    if i < n - 1 {
      ZonesAt(fema, coords, n - 1, i);
    }
  }

  /** Only the new column changes: the header gains the column unless it was
      already there, every record gains that key and keeps every other field,
      and a well-formed file stays well-formed. */
  lemma WithColumnKeepsOthers(t: Table, name: string, values: seq<string>)
    requires |values| == |t.rows|
    ensures var r := WithColumn(t, name, values);
            && r.header == (if name in t.header then t.header else t.header + [name])
            && |r.rows| == |t.rows|
            && (forall i :: 0 <= i < |t.rows| ==> r.rows[i].Keys == t.rows[i].Keys + {name})
            && (forall i, k :: 0 <= i < |t.rows| && k in t.rows[i] && k != name ==> r.rows[i][k] == t.rows[i][k])
            && (forall i :: 0 <= i < |t.rows| ==> r.rows[i][name] == values[i])
            && (WellFormed(t) ==> WellFormed(r))
  {
  }

  /** A cell with a comma is a point exactly when its stripped text has a single
      comma with a number on either side; the number before the comma is the
      latitude (y) and the one after it the longitude (x). */
  lemma ClassifyByPartition(coord: string)
    requires ',' in coord
    ensures var t := Strip(coord);
            && ',' in t
            && (Classify(coord).Located? <==>
                  ',' !in AfterFirst(t, ',') &&
                  ParseNumber(BeforeFirst(t, ',')).Some? && ParseNumber(AfterFirst(t, ',')).Some?)
            && (Classify(coord).Located? ==>
                  Classify(coord).point ==
                    Point(ParseNumber(AfterFirst(t, ',')).value, ParseNumber(BeforeFirst(t, ',')).value))
  {
    TrimKeepsOthers(IsSpace, coord, ',');
    SplitInTwo(Strip(coord), ',');
  }

  /** A Coordinates cell as the drive-time stage writes it ("lat, lon") is read
      back as the point with those numbers, longitude first. */
  lemma CoordinatesRoundTrip(lat: Decimal, lon: Decimal)
    ensures Classify(CoordinatesText(LatLon(Show(lat), Show(lon)))) == Located(Point(lon, lat))
  {
    var a, b := Show(lat), Show(lon);
    var coord := a + [','] + (" " + b);
    CoordinatesShape(lat, lon);
    assert ParseNumber(a) == Some(lat) by {
      ParseShow(lat);
    }
    assert ParseNumber(" " + b) == Some(lon) by {
      TrimLeadingSpace(IsCSpace, b);
      ParseShow(lon);
    }
    ClassifyByPartition(coord);
  }

  /** The cell written for two canonical numbers is already stripped, and its
      one comma separates the latitude from the space and the longitude. */
  lemma CoordinatesShape(lat: Decimal, lon: Decimal)
    ensures var a, b := Show(lat), Show(lon);
            var coord := a + [','] + (" " + b);
            && CoordinatesText(LatLon(a, b)) == coord
            && Strip(coord) == coord
            && ',' in coord
            && BeforeFirst(coord, ',') == a && AfterFirst(coord, ',') == " " + b
            && ',' !in " " + b
  {
    var a, b := Show(lat), Show(lon);
    ShowUntrimmed(lat);
    ShowUntrimmed(lon);
    JoinedUntrimmed(a, b);
    ShowAlphabet(lat, ',');
    ShowAlphabet(lon, ',');
    JoinedHalves(a, b);
  }

  /** Joining two untrimmed texts around ", " leaves nothing to strip. */
  lemma JoinedUntrimmed(a: string, b: string)
    requires a != [] && !IsSpace(a[0]) && b != [] && !IsSpace(b[|b| - 1])
    ensures CoordinatesText(LatLon(a, b)) == a + [','] + (" " + b)
    ensures Strip(a + [','] + (" " + b)) == a + [','] + (" " + b)
  {
    var coord := a + [','] + (" " + b);
    assert coord[0] == a[0];
    assert coord[|coord| - 1] == b[|b| - 1];
    TrimUntrimmed(IsSpace, coord);
  }

  /** When neither text holds a comma, the first comma of the joined cell
      splits it back into the two texts. */
  lemma JoinedHalves(a: string, b: string)
    requires ',' !in a && ',' !in b
    ensures ',' in a + [','] + (" " + b)
    ensures BeforeFirst(a + [','] + (" " + b), ',') == a
    ensures AfterFirst(a + [','] + (" " + b), ',') == " " + b
    ensures ',' !in " " + b
  {
    IndexOfAfterPrefix(a, ',', " " + b);
  }

  /** A label starts with "AE" exactly when a feature was found whose zone
      attribute starts with "AE"; no fixed text and no error text does. */
  lemma ZoneLabelAE(reply: FemaReply)
    ensures StartsWith(ZoneLabel(reply), "AE") <==>
              reply.FirstFeature? && Attribute(reply.attributes, "FLD_ZONE").Some? &&
              StartsWith(Attribute(reply.attributes, "FLD_ZONE").value, "AE")
  {
    match reply
    case FirstFeature(attrs) =>
      var zone := Printed(Attribute(attrs, "FLD_ZONE"));
      var text := ZoneLabel(reply);
      assert text == zone + " (" + (if "ZONE_SUBTY" in attrs then Printed(attrs["ZONE_SUBTY"]) else "N/A") + ")";
      assert StartsWith(text, "AE") <==> StartsWith(zone, "AE") by {
        if |zone| >= 2 {
          assert text[..2] == zone[..2];
        } else {
          assert text[|zone|] == ' ';
        }
      }
      assert "None"[1] == 'o';
    case NoFeature =>
      assert NotMapped[1] == 'o';
    case Failure(m) =>
      assert ("Error: " + m)[0] == 'E';
  }

  /** The recorded zone value starts with "AE" exactly when the cell was read as
      a point and the service put it in a zone whose name starts with "AE". */
  lemma ZoneOfAE(fema: Point -> FemaReply, coord: string)
    ensures StartsWith(ZoneOf(fema, coord), "AE") <==>
              Classify(coord).Located? && StartsWith(ZoneLabel(fema(Classify(coord).point)), "AE")
  {
    assert MissingCoordinates[0] == 'M' && InvalidCoordinates[0] == 'I';
  }

  /** A feature's label reads back as its parts: up to the first '(' the zone
      and a space, then the subtype text and a closing ')'. The subtype text is
      "N/A" for an absent ZONE_SUBTY, and also for one whose value is "N/A".
      The label is never the fixed text for no feature. */
  lemma FeatureLabelParts(attrs: map<string, Option<string>>)
    requires '(' !in Printed(Attribute(attrs, "FLD_ZONE"))
    ensures '(' in ZoneLabel(FirstFeature(attrs)) && ZoneLabel(FirstFeature(attrs)) != NotMapped
    ensures BeforeFirst(ZoneLabel(FirstFeature(attrs)), '(') == Printed(Attribute(attrs, "FLD_ZONE")) + " "
    ensures var rest := AfterFirst(ZoneLabel(FirstFeature(attrs)), '(');
            && rest != [] && rest[|rest| - 1] == ')'
            && ("ZONE_SUBTY" in attrs ==> rest[..|rest| - 1] == Printed(attrs["ZONE_SUBTY"]))
            && ("ZONE_SUBTY" !in attrs ==> rest[..|rest| - 1] == "N/A")
  {
    var zone := Printed(Attribute(attrs, "FLD_ZONE"));
    var sub := if "ZONE_SUBTY" in attrs then Printed(attrs["ZONE_SUBTY"]) else "N/A";
    assert ZoneLabel(FirstFeature(attrs)) == zone + " (" + sub + ")";
    ParenthesizedParts(zone, sub);
    var text := ZoneLabel(FirstFeature(attrs));
    assert text[|text| - 1] == ')' && NotMapped[|NotMapped| - 1] == 'e';
  }

  /** "zone (sub)" splits at its first '(' into "zone " and "sub)". */
  lemma ParenthesizedParts(zone: string, sub: string)
    requires '(' !in zone
    ensures var text := zone + " (" + sub + ")";
            && '(' in text
            && BeforeFirst(text, '(') == zone + " "
            && AfterFirst(text, '(') == sub + ")"
  {
    var text := zone + " (" + sub + ")";
    assert text == (zone + " ") + ['('] + (sub + ")");
    IndexOfAfterPrefix(zone + " ", '(', sub + ")");
  }

  /** Only cells read as points reach the service, each once, in order. */
  lemma {:induction false} QueriesArePoints(coords: seq<string>, n: nat)
    requires n <= |coords|
    ensures |Queries(coords, n)| <= n
    ensures forall q :: q in Queries(coords, n) ==>
              exists i :: 0 <= i < n && Classify(coords[i]) == Located(q)
  {
    if n > 0 {
      QueriesArePoints(coords, n - 1);
    }
  }
}
