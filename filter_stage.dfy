/** The filter stage (4_filter_properties.py): records in an "AE" flood zone are
    dropped first, then records whose drive time is more than 25 minutes; the
    rest are written unchanged, in order, under the same header. A drive time
    that float() rejects raises ValueError and ends the stage. */
module FilterStage {
  import opened Text
  import opened Tables
  import opened Decimals
  import opened Enrichment
  import opened FloodZone

  const MaxDriveMinutes := 25

  /** What the loop does with one record. */
  datatype Verdict = Keep | Drop | Unparseable

  /** How the stage ends: it went through every record, or float() raised at
      record `row`. Either way the output file holds the header and the records
      written so far. */
  datatype Outcome = Finished(output: Table) | Raised(row: nat, output: Table)

  /** The record has the fields the loop reads: the flood zone always, the
      drive time only outside the "AE" zones (an "AE" record is skipped before
      its drive time is read). A missing field raises KeyError. */
  predicate Readable(row: Row) {
    FloodZoneColumn in row && (!StartsWith(row[FloodZoneColumn], "AE") ==> DriveTimeColumn in row)
  }

  predicate Filterable(rows: seq<Row>) {
    forall i :: 0 <= i < |rows| ==> Readable(rows[i])
  }

  /** The flood-zone test comes first, so the drive time of an "AE" record is never read. */
  function VerdictOf(row: Row): Verdict
    requires Readable(row)
  {
    if StartsWith(row[FloodZoneColumn], "AE") then Drop
    else
      match ParseNumber(row[DriveTimeColumn])
      case None => Unparseable
      case Some(minutes) => if GreaterThan(minutes, MaxDriveMinutes) then Drop else Keep
  }

  /** The record passes both tests. */
  predicate Keeps(row: Row) {
    Readable(row) && VerdictOf(row) == Keep
  }

  /** The records written after the first n have been read (none of them raising). */
  function Kept(rows: seq<Row>, n: nat): seq<Row>
    requires n <= |rows|
  {
    Select(Keeps, rows, n)
  }

  /** None of the first n records makes float() raise. */
  predicate ParsedUpTo(rows: seq<Row>, n: nat)
    requires Filterable(rows) && n <= |rows|
  {
    forall i :: 0 <= i < n ==> VerdictOf(rows[i]) != Unparseable
  }

  method FilterProperties(input: Table) returns (outcome: Outcome)
    requires WellFormed(input) && Filterable(input.rows)
    ensures outcome.output.header == input.header
    ensures outcome.Finished? ==>
              ParsedUpTo(input.rows, |input.rows|) && outcome.output.rows == Kept(input.rows, |input.rows|)
    ensures outcome.Raised? ==>
              && outcome.row < |input.rows|
              && ParsedUpTo(input.rows, outcome.row)
              && VerdictOf(input.rows[outcome.row]) == Unparseable
              && outcome.output.rows == Kept(input.rows, outcome.row)
  {
    var rows := input.rows;
    var written: seq<Row> := [];
    for i := 0 to |rows|
      invariant written == Kept(rows, i)
      invariant ParsedUpTo(rows, i)
    {
      var row := rows[i];
      if StartsWith(row[FloodZoneColumn], "AE") {
        continue;
      }
      var driveTime := ParseNumber(row[DriveTimeColumn]);
      if driveTime.None? {
        return Raised(i, Table(input.header, written));
      }
      if GreaterThan(driveTime.value, MaxDriveMinutes) {
        continue;
      }
      written := written + [row];
    }
    outcome := Finished(Table(input.header, written));
  }

  // ---------------------------------------------------------------------------
  // Properties

  /** The records written are an order-preserving selection of those read, and
      a record is written exactly when its verdict is Keep. */
  lemma KeptIsOrderedSelection(rows: seq<Row>, n: nat)
    requires Filterable(rows) && n <= |rows|
    ensures IsSubsequence(Kept(rows, n), rows[..n])
    ensures forall r :: r in Kept(rows, n) ==> Readable(r) && DriveTimeColumn in r && VerdictOf(r) == Keep
    ensures forall i :: 0 <= i < n && VerdictOf(rows[i]) == Keep ==> rows[i] in Kept(rows, n)
  {
    SelectIsSubsequence(Keeps, rows, n);
    SelectExactly(Keeps, rows, n);
  }

  /** Filtering the output again raises nowhere and writes the same records:
      the filter is idempotent. */
  lemma FilterIdempotent(rows: seq<Row>)
    requires Filterable(rows)
    ensures var out := Kept(rows, |rows|);
            && Filterable(out)
            && ParsedUpTo(out, |out|)
            && Kept(out, |out|) == out
  {
    var out := Kept(rows, |rows|);
    SelectExactly(Keeps, rows, |rows|);
    assert forall i :: 0 <= i < |out| ==> out[i] in out;
    SelectAll(Keeps, out, |out|);
    assert out[..|out|] == out;
  }

  /** A record outside the "AE" zones whose drive time float() reads is
      dropped exactly when the number read is greater than 25. */
  lemma DriveTimeThreshold(row: Row, minutes: Decimal)
    requires FloodZoneColumn in row && DriveTimeColumn in row
    requires !StartsWith(row[FloodZoneColumn], "AE") && ParseNumber(row[DriveTimeColumn]) == Some(minutes)
    ensures VerdictOf(row) == Drop <==> Value(minutes) > MaxDriveMinutes as real
    ensures VerdictOf(row) == Keep <==> Value(minutes) <= MaxDriveMinutes as real
  {
    GreaterThanValue(minutes, MaxDriveMinutes);
  }

  /** The comparison is strict: 25 minutes, written with any number of decimals, is kept. */
  lemma ExactlyTwentyFiveKept(row: Row, places: nat)
    requires FloodZoneColumn in row && DriveTimeColumn in row
    requires !StartsWith(row[FloodZoneColumn], "AE")
    requires row[DriveTimeColumn] == Show(Decimal(25 * Pow10(places), places))
    ensures VerdictOf(row) == Keep
  {
    ParseShow(Decimal(25 * Pow10(places), places));
  }

  /** Only a record outside the "AE" zones can raise, and then only because its
      drive time is not a number: an "AE" record is dropped whatever its drive
      time holds, and even when it has no drive-time field. */
  lemma RaisesOnlyOnUnreadDriveTime(row: Row)
    requires Readable(row)
    ensures VerdictOf(row) == Unparseable <==>
              !StartsWith(row[FloodZoneColumn], "AE") && ParseNumber(row[DriveTimeColumn]).None?
    ensures StartsWith(row[FloodZoneColumn], "AE") ==> VerdictOf(row) == Drop
  {
  }
}
