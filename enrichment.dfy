/** What the two drive-time scripts share: the three appended columns, the
    failure sentinels, the fixed destination, and the shape of the answers the
    geocoding and routing services give. The services themselves are
    parameters (oracles) of the stages. */
module Enrichment {
  import opened Tables

  const CoordinatesColumn := "Coordinates"
  const DriveTimeColumn := "Drive Time (mins)"
  const DistanceColumn := "Distance (miles)"

  /** Appended, in this order, to the input header. */
  const AddedColumns := [CoordinatesColumn, DriveTimeColumn, DistanceColumn]

  const GeocodingFailed := "Geocoding failed"
  const RoutingFailed := "Routing failed"

  /** The single destination every drive time is measured to. */
  const Destination := "781 Lasalle St, New Orleans, LA 70112"

  /** A geocoded point: latitude and longitude as Python prints the two floats. */
  datatype LatLon = LatLon(lat: string, lon: string)

  /** A route as the routing helper returns it: minutes and miles, already rounded
      to one decimal and printed. */
  datatype Route = Route(minutes: string, miles: string)

  /** One request sent to an outside service. */
  datatype Lookup =
    | GeocodeRequest(query: string)
    | RouteRequest(origin: LatLon, destination: LatLon)

  /** How a drive-time run ends: it gives up before writing anything when the
      destination cannot be geocoded, and otherwise writes the whole file. */
  datatype RunResult = DestinationNotFound | Written(output: Table)

  /** The Coordinates cell: f"{lat}, {lon}". */
  function CoordinatesText(p: LatLon): (s: string)
    ensures s != []
  {
    p.lat + ", " + p.lon
  }

  /** The row after its three enrichment fields are assigned; every other field
      is left as it was. */
  function WithResult(row: Row, coordinates: string, driveTime: string, distance: string): Row {
    row[CoordinatesColumn := coordinates][DriveTimeColumn := driveTime][DistanceColumn := distance]
  }

  /** The three appended fields hold the given values; every other field keeps its value. */
  lemma WithResultFields(row: Row, coordinates: string, driveTime: string, distance: string)
    ensures var r := WithResult(row, coordinates, driveTime, distance);
            && r.Keys == row.Keys + {CoordinatesColumn, DriveTimeColumn, DistanceColumn}
            && r[CoordinatesColumn] == coordinates
            && r[DriveTimeColumn] == driveTime
            && r[DistanceColumn] == distance
            && forall k :: k in row && k !in AddedColumns ==> r[k] == row[k]
  {
  }
}
