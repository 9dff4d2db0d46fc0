# Ticket analysis, modelled in Dafny

`TicketAnalysis` reads a JSON document of flight tickets. It keeps the tickets
flying from VVO (Vladivostok) to TLV (Tel Aviv) and groups their flight times
by carrier. It then reports the shortest flight time of each carrier, the mean
ticket price, the median ticket price and the mean minus the median.

This project models that analysis from the point where the tickets are parsed
records. Each ticket's departure and arrival are given as millisecond instants.

- `Tickets` (tickets.dfy): the ticket record and the fixed route filter. It has
  the flight-time arithmetic: a millisecond difference divided by 60000 with
  Java's truncating `long` division. It also has Java's 32-bit `int`
  wrap-around and the byte-order-mark strip of the loader.
- `ListOps` (list_ops.dfy): `Collections.min`, `Collections.sort`, the
  integer sum inside `IntStream.average`, and a maximum used to state bounds.
  It proves that an ascending arrangement of a list is unique. So the model's
  insertion sort gives the same list as any correct library sort.
- `CarrierTimes` (carrier_times.dfy): the `flightTimes` map from carrier to
  flight times, its `putIfAbsent` and `add` steps, and the per-carrier minimum.
- `PriceStats` (price_stats.dfy): the `prices` list as a class (`PriceList`).
  The main loop appends to it and `calculateMedian` sorts it in place. The
  module also holds `calculateAverage` and `calculateMedian`. Means and medians
  are exact `real`s.
- `TicketAnalysis` (ticket_analysis.dfy): the filter-and-group loop
  (`CollectMatching`) and the whole run (`Run`). `Run` is proved equal to a
  functional specification (`Analyze`). The module also proves what the
  report means.
- `Results` (results.dfy): the run's one uncaught exception, and a `Result`
  type for the operations that can raise it.

Three behaviours of the code shape the model:

- With no matching ticket the run crashes. `calculateMedian` takes the even
  branch for an empty list and calls `get(-1)`. No `catch` clause of `main`
  handles the resulting `IndexOutOfBoundsException`. `Analyze` fails exactly
  in this case.
- `Collections.sort` reorders the caller's list in place, so after
  `calculateMedian` the `prices` list of `main` is sorted (`CalculateMedian`
  ensures this).
- The even-count median adds the two middle prices as `int`, with
  wrap-around, before dividing by `2.0`. `MedianBounds` assumes that sum fits
  in 32 bits. `MedianWrapsOnOverflow` gives an input where the median falls
  below every price.

## Model

| member | source | states |
|---|---|---|
| Tickets.Wrap32 | src/main/java/TicketAnalysis.java:89 | `int + int` gives the exact sum whenever the sum fits in 32 bits |
| Tickets.Wrap32Congruent | src/main/java/TicketAnalysis.java:89 | an overflowing `int` sum differs from the exact sum by a multiple of 2^32 |
| Tickets.StripBom | src/main/java/TicketAnalysis.java:22-24 | one leading U+FEFF is removed; content without one is unchanged |
| Tickets.IsMatching | src/main/java/TicketAnalysis.java:35 | the definition of the route filter: origin VVO and destination TLV; no contract of its own, it is used by `MatchingExact` and `GroupedByCarrier` |
| Tickets.TruncDiv | src/main/java/TicketAnalysis.java:78 | `long` division by a positive divisor truncates toward zero, for negative dividends too |
| Tickets.FlightTime | src/main/java/TicketAnalysis.java:73-79 | the whole minutes between departure and arrival, truncated toward zero; negative exactly when arrival is at least a minute before departure (no sign check) |
| Tickets.Duration | src/main/java/TicketAnalysis.java:37-40 | the definition of one ticket's flight time: `FlightTime` of its departure and arrival instants, whose contract characterises it |
| Tickets.FlightTimeSwap | src/main/java/TicketAnalysis.java:78 | swapping departure and arrival negates the flight time |
| ListOps.Min | src/main/java/TicketAnalysis.java:51 | `Collections.min` on a non-empty list returns an element of the list that is no larger than any element |
| ListOps.Sort | src/main/java/TicketAnalysis.java:86 | the sorted list is ascending and has the same elements, counted with multiplicity |
| ListOps.SortedPermutationUnique | src/main/java/TicketAnalysis.java:86 | two ascending lists with the same elements are equal, so any correct sort gives the same list |
| ListOps.Sum | src/main/java/TicketAnalysis.java:82 | the definition of the exact sum the mean divides; no contract of its own, `PriceStats.Average` and `SumBounds` characterise it |
| ListOps.SumBounds | src/main/java/TicketAnalysis.java:82 | the sum of n prices bounded by lo and hi lies between n·lo and n·hi |
| CarrierTimes.PutIfAbsent | src/main/java/TicketAnalysis.java:42 | a missing carrier gets an empty list; an existing list and every other entry are unchanged |
| CarrierTimes.AddTo | src/main/java/TicketAnalysis.java:43 | the flight time is appended to that carrier's list only; the key set and every other list are unchanged |
| CarrierTimes.MinTimes | src/main/java/TicketAnalysis.java:50-53 | one value per carrier, which is an element of that carrier's list and no larger than any of its elements |
| CarrierTimes.TotalLengthAppend | src/main/java/TicketAnalysis.java:42-43 | putIfAbsent followed by add puts exactly one more flight time in the map |
| PriceStats.PriceList.constructor | src/main/java/TicketAnalysis.java:30 | the new price list is empty |
| PriceStats.PriceList.Add | src/main/java/TicketAnalysis.java:45 | the price is appended at the end |
| PriceStats.PriceList.Get | src/main/java/TicketAnalysis.java:89-91 | an index inside the list yields that element; any other index yields IndexOutOfBounds for that index |
| PriceStats.PriceList.Sort | src/main/java/TicketAnalysis.java:86 | afterwards the list is ascending and holds the same prices as before |
| PriceStats.Average | src/main/java/TicketAnalysis.java:81-83 | exactly 0 for an empty list; otherwise mean times count equals the price sum |
| PriceStats.AverageBounds | src/main/java/TicketAnalysis.java:82 | the mean of a non-empty list lies between its least and greatest price |
| PriceStats.MedianOfSorted | src/main/java/TicketAnalysis.java:87-92 | reading the middle of a sorted list fails exactly when the list is empty |
| PriceStats.MedianOf | src/main/java/TicketAnalysis.java:85-93 | the median fails exactly on an empty list, with IndexOutOfBounds(-1) |
| PriceStats.CalculateMedian | src/main/java/TicketAnalysis.java:85-93 | the caller's list becomes an ascending arrangement of its old prices, and the result is the median of the old contents |
| PriceStats.MedianFromSorted | src/main/java/TicketAnalysis.java:86-92 | for any ascending arrangement of the prices, the median is the middle element (odd count) or the wrapped int sum of the two middle elements over 2.0 (even count) |
| PriceStats.MedianPermutationInvariant | src/main/java/TicketAnalysis.java:86 | the median depends only on which prices there are, not on their order |
| PriceStats.MedianBounds | src/main/java/TicketAnalysis.java:86-92 | for a non-empty list whose two middle prices add up within `int`, the median lies between the least and greatest price |
| PriceStats.MedianWrapsOnOverflow | src/main/java/TicketAnalysis.java:89 | two prices of 2147483647 give a median of -1.0, below every price |
| TicketAnalysis.Matching | src/main/java/TicketAnalysis.java:32-35 | the definition of the tickets the loop keeps, in input order; no contract of its own, `MatchingExact` and `MatchingConcat` characterise it |
| TicketAnalysis.MatchingExact | src/main/java/TicketAnalysis.java:32-35 | every ticket of the route is kept as often as it occurs, and no other ticket is kept |
| TicketAnalysis.MatchingConcat | src/main/java/TicketAnalysis.java:32-35 | filtering the concatenation of two inputs concatenates their filtered tickets, in order |
| TicketAnalysis.OfCarrierExact | src/main/java/TicketAnalysis.java:35-43 | each matching ticket of a carrier is counted for that carrier as often as it occurs in the input, and no other ticket is counted |
| TicketAnalysis.Grouped | src/main/java/TicketAnalysis.java:32-47 | every list in the map after the loop is non-empty, so `Collections.min` never gets an empty list |
| TicketAnalysis.CollectMatching | src/main/java/TicketAnalysis.java:29-47 | the loop leaves the map of grouped flight times and the prices of the matching tickets, in input order, in a fresh list |
| TicketAnalysis.VisitStep | src/main/java/TicketAnalysis.java:35-45 | visiting one more ticket changes the map and the price list only if it matches; then it adds one flight time for its carrier and one price |
| TicketAnalysis.GroupedByCarrier | src/main/java/TicketAnalysis.java:42-43 | a carrier is a key exactly when it has a matching ticket; its list is the flight times of exactly those tickets, in input order |
| TicketAnalysis.CarrierKeys | src/main/java/TicketAnalysis.java:35-43 | a carrier is a key of the map exactly when some matching ticket has that carrier |
| TicketAnalysis.TotalLengthIsPriceCount | src/main/java/TicketAnalysis.java:42-45 | the map's lists hold as many flight times in all as the price list holds prices |
| TicketAnalysis.GroupedOfMatching | src/main/java/TicketAnalysis.java:35-43 | the map is built from the matching tickets alone |
| TicketAnalysis.NonMatchingTicketIgnored | src/main/java/TicketAnalysis.java:35 | inserting a ticket of another route anywhere in the input changes neither the map, nor the prices, nor the report |
| TicketAnalysis.Analyze | src/main/java/TicketAnalysis.java:29-57 | the run fails exactly when no ticket matches, with IndexOutOfBounds(-1) |
| TicketAnalysis.Run | src/main/java/TicketAnalysis.java:29-57 | the run's outcome is the one `Analyze` specifies |
| TicketAnalysis.ReportedMinimum | src/main/java/TicketAnalysis.java:50-53 | the report has one minimum per carrier with a matching ticket; it is one of that carrier's flight times and no larger than any of them |
| TicketAnalysis.ReportedPrices | src/main/java/TicketAnalysis.java:55-57 | the report's mean is `calculateAverage` of the matching prices; its median is read from any ascending arrangement of them; its difference is mean minus median |
| TicketAnalysis.TwoTicketExample | src/main/java/TicketAnalysis.java:29-57 | two tickets of carrier A, of 150 and 60 minutes at prices 100 and 200, report A: 60, mean 150, median 150 and difference 0 |

## Left out

- Reading the file (`BufferedReader`, the trim-and-concatenate loop) and its `IOException` handler: this is I/O. Only the byte-order-mark strip is modelled.
- JSON parsing with `org.json` (`JSONObject`, `getJSONArray`, `getString`, `getInt`) and its `JSONException` handler: this is a foreign library. Tickets are given as already-parsed records.
- Date parsing with `SimpleDateFormat("dd.MM.yy HH:mm")` and its `ParseException` handler: the parser is lenient and depends on the default time zone and the two-digit-year pivot. Departure and arrival are given as millisecond instants.
- Tickets.FlightTime: does not model 64-bit `long` overflow of `arrival - departure`, because the instants are unbounded integers here. Parsed two-digit-year dates stay far inside the `long` range.
- PriceStats.Average: uses the exact sum. The library adds into a `long`, which could only overflow with more than 2^32 tickets.
- Console output: the `printf` lines, the `%.2f` formatting, the Russian messages and the `System.err` handlers.
- `HashMap` iteration order: it is unspecified, so the report holds the per-carrier minima as a map, not as an ordered list of lines.
- IEEE-754 rounding of the `double` mean, median and difference: they are exact reals here.
- The `flightTimes` map is modelled as a value whose lists are reassigned, not as a `HashMap` of mutable `ArrayList` objects. No list is shared, so no aliasing is lost.
- ListOps.Sort: is an insertion sort, not the library's TimSort. `PriceList.Sort` promises only what the library promises (ascending, same elements). `SortedPermutationUnique` shows the result is the same list either way.
