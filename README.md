# Property-Searcher, modelled in Dafny

Property-Searcher is a chain of batch scripts and a small viewer. They work on
lists of houses for sale in New Orleans:

- `2_get_drive_time.py` (resumable) and `find_drive_time.py` (one-shot) add
  each listing's coordinates, its drive time and its driving distance to a
  fixed destination (781 Lasalle St). The resumable stage reuses trustworthy
  answers from an earlier output file.
- `3_get_flood_zone.py` reads each listing's coordinates and adds its FEMA
  flood-zone label.
- `4_filter_properties.py` keeps the listings that are outside an "AE" zone
  and at most 25 minutes away.
- `ui.py` is a Tk table and photo gallery. Its non-graphical rules are
  modelled: which columns are shown, the sort toggle, the photo folder of a
  listing and the image files shown.

A CSV file is a `Table`: an ordered header and one `map<string, string>` per
record, as `csv.DictReader` yields them. Every network service is a function
parameter:

- the geocoders, the router and the FEMA layer;
- the folder listing and the image loader of the viewer.

Each stage also returns a ghost trace of the requests it makes, so "a cache
hit makes no request" and "the run aborts after one request" can be stated.

Modules:

- `Text`: Python's `startswith`, `endswith`, `in`, `lower`, `strip`,
  `rstrip`, `split` and `join` on ASCII text. `strip` drops the ten ASCII
  characters `str.isspace()` accepts, \x1c to \x1f among them; `float()`
  skips only the six C whitespace characters, so trimming takes the
  character set as a parameter.
- `Tables`: records, `dict.get`, ordered subsequences and `Select`, the
  records a loop keeps when it skips the others.
- `Decimals`: `float()` on a restricted decimal grammar, read exactly as a
  scaled integer. Its partner is a canonical printer `Show`, with the
  round-trip `ParseShow`.
- `Enrichment`: the three appended columns, the failure sentinels, and the
  oracle result types shared by the two drive-time stages.
- `DriveTime` (`2_get_drive_time.py`) and `FindDriveTime`
  (`find_drive_time.py`).
- `FloodZone` (`3_get_flood_zone.py`) and `FilterStage`
  (`4_filter_properties.py`).
- `Ordering`: the stable sort pandas performs with `kind='mergesort'`, on
  Python's string order.
- `Viewer`: `ui.py`, with the class `PropertyViewer`.

Where the stages change state they are methods with loops. Each method is
proved equal to a specification function: `EnrichRows`, `Zones`, `Kept`,
`SortBy` or `Loaded`. The lemmas state the promised properties of those
functions.

The drive-time stages differ in these ways:

- The resumable stage sends "Street, City, State ZIP" to the geocoder, and
  that string is also its cache key.
- The one-shot stage sends the `Address` cell. When the first answer is
  empty, it retries once with a rewritten address.
- Only the one-shot stage adds " mins" and " miles" to successful results.

## Model

| member | source | states |
|---|---|---|
| DriveTime.AddressKey | 2_get_drive_time.py:56 | The key (and the geocoder query) starts with the street and ", " and ends with " " and the ZIP code |
| DriveTime.Reusable | 2_get_drive_time.py:85-88 | Defines a trustworthy saved result: coordinates present, and a drive time and a distance that are present and are neither failure text; DriveTime.FailureIsRetried states what follows |
| DriveTime.Hit | 2_get_drive_time.py:83-88 | Defines a cache hit: the key is cached with a trustworthy result; DriveTime.HitMakesNoLookup states what follows |
| DriveTime.CacheOf | 2_get_drive_time.py:50-61 | Defines the cache read from the previous file's records in order; DriveTime.CacheOfLastWins states which values it holds |
| DriveTime.Fresh | 2_get_drive_time.py:98-112 | Defines the three values of a fresh lookup; DriveTime.GeocodeFailureFields and DriveTime.RoutingFailureFields state its failure cases |
| DriveTime.Outcome | 2_get_drive_time.py:79-112 | Defines a record's saved values: the cached ones on a hit, a fresh lookup otherwise; DriveTime.HitMakesNoLookup and DriveTime.FailureIsRetried state its properties |
| DriveTime.EnrichRow | 2_get_drive_time.py:77-114 | Defines the written record; DriveTime.OriginalFieldsKept and DriveTime.EnrichedKeepsKey state its properties |
| DriveTime.LoadCache | 2_get_drive_time.py:50-61 | The cache is built from the previous file's records in file order, keyed by "Street, City, State ZIP"; it is empty when there is no previous file |
| DriveTime.CacheOfLastWins | 2_get_drive_time.py:54-61 | A key is cached exactly when some earlier record has it, and the cache then holds the three values of the last such record (missing columns read as "") |
| DriveTime.EnrichedKeepsKey | 2_get_drive_time.py:56-80 | The key is built the same way when loading and when reading input; the written record has the same key as its input record, and its saved values are that record's outcome |
| DriveTime.HitMakesNoLookup | 2_get_drive_time.py:83-98 | A record makes no request exactly on a cache hit; a hit takes exactly the three cached values, and a miss starts with a geocode request for the record's address |
| DriveTime.FailureIsRetried | 2_get_drive_time.py:85-88 | A cached drive time or distance equal to "Geocoding failed" or "Routing failed" is never reused: the record is looked up again |
| DriveTime.GeocodeFailureFields | 2_get_drive_time.py:109-112 | On a miss whose origin does not geocode, all three fields are "Geocoding failed", and only the one geocode request is made |
| DriveTime.RoutingFailureFields | 2_get_drive_time.py:100-108 | On a miss that geocodes but does not route, Coordinates is "lat, lon" and both other fields are "Routing failed" |
| DriveTime.OriginalFieldsKept | 2_get_drive_time.py:77-114 | Every input field other than the three appended columns is written unchanged |
| DriveTime.EnrichRows | 2_get_drive_time.py:77-114 | One output record per input record, in input order; record i is record i enriched |
| DriveTime.ProcessRow | 2_get_drive_time.py:79-114 | One pass of the loop writes the enriched record and makes exactly that record's requests (none on a hit, geocode then route on a miss) |
| DriveTime.EnrichAll | 2_get_drive_time.py:77-114 | The loop writes the enriched records in order, and its requests are those of each record, concatenated in order |
| DriveTime.CalculateFreeDriveTimes | 2_get_drive_time.py:48-114 | The run aborts exactly when the destination does not geocode, having made only that request and written nothing; otherwise the header gains exactly the three columns and the records are the enriched input records |
| DriveTime.RerunReproducesOutput | 2_get_drive_time.py:50-114 | A second run with the first run's output as the previous file writes the same records, and a record makes no request exactly when its first-run result was trustworthy |
| DriveTime.ReloadedEntry | 2_get_drive_time.py:54-61 | After reloading the first run's output, each record's key maps to that record's first-run outcome |
| Enrichment.WithResultFields | 2_get_drive_time.py:91-112 | The written record has the three appended fields set to the given values, and every other field keeps its value |
| FindDriveTime.NextMonday0820 | find_drive_time.py:5-15 | The departure is at exactly 08:20:00.000000 on a day from today to seven days ahead; the lemmas below pin the day down |
| FindDriveTime.FallbackQuery | find_drive_time.py:27-29 | A retry address exists exactly when the address has a comma |
| FindDriveTime.Geocode | find_drive_time.py:17-38 | A first answer with a place is the result. After an error, or without a comma, there is a result only from the first answer. Any other result is the place the retry query found |
| FindDriveTime.NextMondayOffset | find_drive_time.py:8-15 | Monday before 08:20 gives the same day, Monday at or after 08:20 gives 7 days later, and any other weekday w gives 7 - w days later |
| FindDriveTime.NextMondayIsNextDeparture | find_drive_time.py:5-15 | The result is a Monday at exactly 08:20:00.000000, strictly after now and at most seven days after it |
| FindDriveTime.NextMondayIsEarliest | find_drive_time.py:8-15 | No Monday 08:20 that is later than now comes before the result |
| FindDriveTime.FallbackQueryRewrite | find_drive_time.py:27-29 | A retry address exists exactly when the address has a comma. With one comma, it is the stripped first part + ", New Orleans, LA". With more, "," and the text after the second comma, verbatim, are appended; the second part is dropped |
| FindDriveTime.KeptTail | find_drive_time.py:29 | Joining all parts but the first with "," gives back the text after the first comma |
| FindDriveTime.FallbackOfThreeParts | find_drive_time.py:27-29 | For "street,city,rest" with a clean street, the retry address is street + ", New Orleans, LA," + rest |
| FindDriveTime.RetryOnlyOnEmptyAnswer | find_drive_time.py:22-35 | The first query is the address. A second query is sent exactly when the first answer is empty and the address has a comma. A result exists exactly when one of the queries finds a place |
| FindDriveTime.GeocodeAddress | find_drive_time.py:17-38 | The lookup returns the first place found, and it sends exactly the one or two queries above |
| FindDriveTime.EnrichRow | find_drive_time.py:77-95 | Defines the written record; FindDriveTime.AgreesWithResumableStage states how it relates to the resumable stage's |
| FindDriveTime.EnrichRowsAt | find_drive_time.py:76-95 | Output record i is input record i enriched |
| FindDriveTime.ProcessRow | find_drive_time.py:77-95 | One pass of the loop writes the enriched record and makes that record's requests |
| FindDriveTime.EnrichAll | find_drive_time.py:76-95 | The loop writes one enriched record per input record, in order, with the requests concatenated in order |
| FindDriveTime.CalculateFreeDriveTimes | find_drive_time.py:61-95 | The run aborts exactly when the destination does not geocode, having made only that lookup's queries and written nothing; otherwise the header gains exactly the three columns and the records are the enriched input records |
| FindDriveTime.AgreesWithResumableStage | find_drive_time.py:79-93 | The fields and sentinels are the resumable stage's fresh outcome for the same geocoder, except that a successful route is written with " mins" and " miles" |
| FloodZone.ZoneLabel | 3_get_flood_zone.py:11-31 | Defines the label of an answer; FloodZone.FeatureLabelParts and FloodZone.ZoneLabelAE state its properties |
| FloodZone.WithColumn | 3_get_flood_zone.py:48 | The table keeps its number of records; FloodZone.WithColumnKeepsOthers states the rest |
| FloodZone.Classify | 3_get_flood_zone.py:36-43 | A cell is "missing" exactly when it has no comma |
| FloodZone.ClassifyByPartition | 3_get_flood_zone.py:36-41 | A cell with a comma is a point exactly when the stripped cell has one comma and both sides parse as numbers. The point is then (second number, first number): lat,lon is read and lon,lat is queried |
| FloodZone.CoordinatesRoundTrip | 3_get_flood_zone.py:11-39 | A Coordinates cell "lat, lon" whose two numbers are in canonical decimal text is read back as the query point (lon, lat) |
| FloodZone.FeatureLabelParts | 3_get_flood_zone.py:25-27 | When the zone text has no '(', a feature's label splits at its first '(' into the zone and a space, then the subtype text and ')'. The subtype text is the attribute's printed value, or "N/A" when it is absent. The label is never "Not in mapped flood zone" |
| FloodZone.ZoneLabelAE | 3_get_flood_zone.py:25-31 | A label starts with "AE" exactly when a feature was found whose FLD_ZONE starts with "AE"; "Not in mapped flood zone" and "Error: ..." never do |
| FloodZone.ZoneOfAE | 3_get_flood_zone.py:34-44 | A cell's zone starts with "AE" exactly when the cell is read as a point and the label of the service's answer for that point starts with "AE" |
| FloodZone.ZoneOf | 3_get_flood_zone.py:35-44 | Defines the zone value of one cell; FloodZone.ZoneOfAE states when it starts with "AE" |
| FloodZone.Zones | 3_get_flood_zone.py:34-44 | One zone value per cell read so far; FloodZone.ZonesAt states which value each is |
| FloodZone.ZonesAt | 3_get_flood_zone.py:34-44 | Zone i is the zone of cell i |
| FloodZone.QueriesArePoints | 3_get_flood_zone.py:36-44 | Only cells read as points reach the service, at most one query per cell |
| FloodZone.FloodZones | 3_get_flood_zone.py:34-44 | The loop produces one zone per cell, in order, and queries the service for exactly the cells read as points |
| FloodZone.WithColumnKeepsOthers | 3_get_flood_zone.py:48 | Assigning the column sets it in every record and keeps every other field. Each record's keys gain exactly the name, and the number of records is unchanged. The header gains the name at the end if it was absent and is unchanged otherwise |
| FloodZone.GetFloodZones | 3_get_flood_zone.py:34-48 | The output table is the input with a "Flood Zone" column holding each record's zone |
| FilterStage.VerdictOf | 4_filter_properties.py:15-21 | Defines the outcome for one record; FilterStage.RaisesOnlyOnUnreadDriveTime and FilterStage.DriveTimeThreshold state its properties |
| FilterStage.FilterProperties | 4_filter_properties.py:3-24 | The header is unchanged. A finished run writes exactly the kept records. A run that raises stops at the first non-AE record whose drive time float() rejects, having written the records kept before it |
| FilterStage.Kept | 4_filter_properties.py:12-24 | Defines the records written after the first n are read; FilterStage.KeptIsOrderedSelection and FilterStage.FilterIdempotent state its properties |
| FilterStage.KeptIsOrderedSelection | 4_filter_properties.py:12-24 | The written records are an order-preserving subsequence of the input, and they are exactly the records that pass both tests |
| FilterStage.FilterIdempotent | 4_filter_properties.py:12-24 | Filtering the output again writes the same records and never raises |
| FilterStage.RaisesOnlyOnUnreadDriveTime | 4_filter_properties.py:15-19 | A record raises exactly when it is not in an AE zone and its drive time does not parse; an AE record is dropped without its drive time being read, even when it has no drive-time field |
| FilterStage.DriveTimeThreshold | 4_filter_properties.py:19-21 | A non-AE record whose drive time float() reads as m is dropped exactly when the value of m exceeds 25, and kept otherwise |
| FilterStage.ExactlyTwentyFiveKept | 4_filter_properties.py:20 | A drive time of exactly 25, with any number of zero decimals, is kept |
| Decimals.ParseNumber | 4_filter_properties.py:19 | Defines `float()` on decimal text; Decimals.ParseShow states its round trip |
| Decimals.ParseShow | 4_filter_properties.py:19 | float() reads the canonical text of a number back as that number |
| Text.SplitInTwo | 3_get_flood_zone.py:38 | split(",") gives two parts exactly when there is one comma; they are the text before it and the text after it |
| Ordering.SortBy | ui.py:164 | Defines the stable sort; Ordering.SortByCorrect states its properties |
| Ordering.SortByCorrect | ui.py:164 | The sort gives an ordered permutation of the records (ascending, or descending when asked), and it is stable: records with equal keys keep their order |
| Viewer.CleanFilename | ui.py:148-149 | Defines clean_filename; the two lemmas below state its properties |
| Viewer.CleanFilenameKeepsAllowed | ui.py:148-149 | clean_filename keeps, in order, exactly the letters, digits, spaces, '_' and '-', then drops a run of trailing spaces; the result does not end in a space |
| Viewer.CleanFilenameIdempotent | ui.py:148-149 | Cleaning a cleaned name changes nothing |
| Viewer.FolderName | ui.py:97 | Defines the photo folder of a record; Viewer.FolderNameOfStreet states its properties |
| Viewer.FolderNameOfStreet | ui.py:97 | The street part of the photo folder "Photos/zip_street" holds no '/', and cleaning the street first gives the same folder |
| Viewer.DisplayColumns | ui.py:23-26 | Defines the shown columns; Viewer.DisplayColumnsSelect states which they are |
| Viewer.DisplayColumnsSelect | ui.py:23-26 | The shown columns are, in their original order, exactly the columns whose lower-cased name has none of "url", "link", "http", "image" |
| Viewer.FirstContaining | ui.py:27-28 | Defines `next(..., None)` over the matching columns; Viewer.FirstContainingFinds states what it finds |
| Viewer.FirstContainingFinds | ui.py:27-28 | The zip (street) column is the first column whose lower-cased name contains "zip" ("street"); there is none exactly when no column matches |
| Viewer.NextSortState | ui.py:157-162 | The clicked column becomes current. A click on another column sorts ascending, and a click on the current column flips the direction |
| Viewer.RepeatedClicks | ui.py:157-162 | After clicks on one heading, that column is current. From another column, an odd number of clicks sorts ascending and an even number descending. On the current column, each click flips the direction |
| Viewer.SortedRowsWellFormed | ui.py:164 | Reordering the records keeps each record's fields |
| Viewer.ImageFiles | ui.py:109 | Defines the gallery's file list; Viewer.ImageFilesSorted states which files, in which order |
| Viewer.ImageFilesSorted | ui.py:109 | The gallery files are exactly the listed names ending in .jpg, .jpeg or .png (any case), each as often as listed, in ascending name order |
| Viewer.Loaded | ui.py:114-128 | Defines the paths kept after the first n files are tried; Viewer.LoadedPaths states which they are |
| Viewer.Shown | ui.py:100-128 | Defines the gallery of a folder; Viewer.ShownAreImages states what it holds |
| Viewer.LoadedPaths | ui.py:114-128 | Every photo kept is a file of the list joined to the folder, and it loaded |
| Viewer.ShownAreImages | ui.py:100-128 | A folder that is not a directory shows nothing; every photo shown is an image file of its listing that loaded |
| Viewer.PropertyViewer.constructor | ui.py:11-20 | A new viewer has the file's columns and records, no sort column, ascending order and no photos, and its column choices are made |
| Viewer.PropertyViewer.FilterUrlColumns | ui.py:23-28 | Sets the shown columns and the zip and street columns from the header, and changes nothing else |
| Viewer.PropertyViewer.SortByColumn | ui.py:157-166 | The sort state takes one heading-click step, and the records are stably sorted by that column in the new direction; the columns and the column choices are unchanged |
| Viewer.PropertyViewer.DisplayGallery | ui.py:100-130 | The gallery is cleared, then holds the folder's image files that load, in name order; nothing else changes |
| Viewer.PropertyViewer.OnSelect | ui.py:85-98 | Selecting a record shows the gallery of "Photos/" + zip + "_" + clean_filename(street), with both values taken from that record |

## Left out

- Network services (the ArcGIS, Nominatim, OSRM and FEMA lookups) are
  function parameters. Each answer is given as already decoded: coordinates
  and route figures are strings, and the rounding of the route's minutes and
  miles is not modelled.
- `time.sleep`, `datetime.now()` and the printed progress messages are left
  out. The current time is a parameter: a proleptic day number, whose weekday
  follows from it, and the microsecond of that day.
- CSV and pandas reading and writing, quoting and file handles are left out.
  A file is a header plus records, and an existing output file is an
  `Option<Table>`.
- A record without a field the loop reads raises `KeyError` in the source.
  The `requires` of the drive-time and filter stages exclude exactly that.
  In the drive-time stages, every record has the address fields ("Address"
  in the one-shot stage), but only when the destination geocodes: otherwise
  the run ends before the input is read. In the filter stage, every record
  has "Flood Zone", and every record outside an AE zone has
  "Drive Time (mins)". A file without records needs no such column.
  FloodZone.GetFloodZones requires the "Coordinates" column in the header,
  because pandas raises `KeyError` for a missing column even on an empty
  file.
- Decimals.ParseNumber models `float()` only on decimal text. Exponents,
  "inf", "nan" and underscores are not accepted, so the model reports such a
  cell as unreadable where Python would read it.
- Decimals.ParseNumber reads a number exactly, while `float()` rounds it to
  a double. A text with more digits than a double holds can give another
  verdict: "25.0000000000000001" reads as 25.0 in Python and is kept, but
  the model finds it greater than 25 and drops it. `float()` also accepts
  non-ASCII decimal digits (such as full-width "２５") and non-ASCII
  whitespace; the model reports those cells as unreadable.
- FloodZone.Classify does not model non-string cells. pandas gives an empty
  cell as NaN, which has no comma, and the model already reports a cell
  without a comma as missing.
- Viewer.PropertyViewer.SortByColumn compares every cell as text.
  - pandas sorts a numeric column by value.
  - pandas places missing values last.
- Text.IsAlnum, Text.IsSpace and Text.Lower cover ASCII only. Python's
  `isalnum`, `strip` and `lower` are defined on all of Unicode, so a
  non-ASCII letter or space is treated differently.
- Viewer.PropertyViewer.DisplayGallery keeps the loaded file paths, not the
  Tk photo objects. Thumbnails, labels, click handlers and `open_image_popup`
  are left out.
- The details text, the tree widget, `load_treeview_data` and
  `auto_fit_columns` are not modelled, because they only draw the screen.
- Viewer.PropertyViewer.OnSelect takes the selected index and requires a zip
  and a street column. The source returns when nothing is selected and fails
  when either column is missing. The folder name uses the cell's text,
  where the source uses `str()` of the pandas value, so a numeric zip code
  read by pandas (say 70112.0 when the column has a gap) is not modelled.
- `1_get_properties.py` and `get_properties.py` (page scraping) are not part
  of this model.
