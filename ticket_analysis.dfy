/** The analysis run by `main`: one pass over the tickets that keeps those of
    the VVO to TLV route, groups their flight times by carrier and collects
    their prices; then the per-carrier minimum, the mean, the median and the
    mean minus the median. */
module TicketAnalysis {
  import opened Results
  import opened Tickets
  import opened ListOps
  import opened CarrierTimes
  import opened PriceStats

  /** The tickets that pass the route filter, in input order. */
  function Matching(tickets: seq<Ticket>): seq<Ticket>
    decreases |tickets|
  {
    if tickets == [] then []
    else
      var last := tickets[|tickets| - 1];
      var rest := Matching(tickets[..|tickets| - 1]);
      if IsMatching(last) then rest + [last] else rest
  }

  /** Each matching ticket is kept as often as it occurs in the input, and
      nothing else is kept: no ticket is lost or counted twice. */
  lemma {:induction false} MatchingExact(tickets: seq<Ticket>)
    ensures forall t :: multiset(Matching(tickets))[t] == if IsMatching(t) then multiset(tickets)[t] else 0
    decreases |tickets|
  {
    if tickets != [] {
      var prefix, last := tickets[..|tickets| - 1], tickets[|tickets| - 1];
      assert tickets == prefix + [last];
      MatchingExact(prefix);
    }
  }

  /** The matching tickets of one carrier, in input order. */
  function OfCarrier(tickets: seq<Ticket>, carrier: string): (kept: seq<Ticket>)
    ensures forall t :: t in kept <==> t in tickets && IsMatching(t) && t.carrier == carrier
    decreases |tickets|
  {
    if tickets == [] then []
    else
      var last := tickets[|tickets| - 1];
      var rest := OfCarrier(tickets[..|tickets| - 1], carrier);
      assert tickets == tickets[..|tickets| - 1] + [last];
      if IsMatching(last) && last.carrier == carrier then rest + [last] else rest
  }

  /** Each matching ticket of the carrier is kept as often as it occurs in
      the input, and nothing else is kept. */
  lemma {:induction false} OfCarrierExact(tickets: seq<Ticket>, carrier: string)
    ensures forall t ::
      multiset(OfCarrier(tickets, carrier))[t] == if IsMatching(t) && t.carrier == carrier then multiset(tickets)[t] else 0
    decreases |tickets|
  {
    if tickets != [] {
      var prefix, last := tickets[..|tickets| - 1], tickets[|tickets| - 1];
      assert tickets == prefix + [last];
      OfCarrierExact(prefix, carrier);
    }
  }

  /** The flight time of each ticket, in order. */
  function Durations(tickets: seq<Ticket>): (times: seq<int>)
    ensures |times| == |tickets|
    ensures forall i :: 0 <= i < |tickets| ==> times[i] == Duration(tickets[i])
  {
    seq(|tickets|, i requires 0 <= i < |tickets| => Duration(tickets[i]))
  }

  /** The price of each ticket, in order. */
  function PricesOf(tickets: seq<Ticket>): (prices: seq<int>)
    ensures |prices| == |tickets|
    ensures forall i :: 0 <= i < |tickets| ==> prices[i] == tickets[i].price
  {
    seq(|tickets|, i requires 0 <= i < |tickets| => tickets[i].price)
  }

  /** The `flightTimes` map once the loop has visited `tickets`: each matching
      ticket does putIfAbsent then add for its carrier. Every list in it is
      non-empty, so `Collections.min` never sees an empty list. */
  function Grouped(tickets: seq<Ticket>): (flightTimes: FlightTimes)
    ensures forall c :: c in flightTimes ==> flightTimes[c] != []
    decreases |tickets|
  {
    if tickets == [] then map[]
    else
      var last := tickets[|tickets| - 1];
      var before := Grouped(tickets[..|tickets| - 1]);
      if IsMatching(last) then
        AddTo(PutIfAbsent(before, last.carrier), last.carrier, Duration(last))
      else before
  }

  /** The filter-and-group loop of `main`. */
  method CollectMatching(tickets: seq<Ticket>) returns (flightTimes: FlightTimes, prices: PriceList)
    ensures fresh(prices)
    ensures flightTimes == Grouped(tickets)
    ensures prices.elems == PricesOf(Matching(tickets))
  {
    flightTimes := map[];
    prices := new PriceList();
    for i := 0 to |tickets|
      invariant flightTimes == Grouped(tickets[..i])
      invariant prices.elems == PricesOf(Matching(tickets[..i]))
    {
      var ticket := tickets[i];
      VisitStep(tickets, i);
      if IsMatching(ticket) {
        var carrier := ticket.carrier;
        var flightTime := Duration(ticket);
        flightTimes := PutIfAbsent(flightTimes, carrier);
        flightTimes := AddTo(flightTimes, carrier, flightTime);
        prices.Add(ticket.price);
      }
    }
    assert tickets[..|tickets|] == tickets;
  }

  /** One more ticket visited: the map and the price list change only if it
      matches, and then by one putIfAbsent-and-add and one price. */
  lemma VisitStep(tickets: seq<Ticket>, i: nat)
    requires i < |tickets|
    ensures var t := tickets[i];
      && Grouped(tickets[..i + 1]) ==
           (if IsMatching(t) then AddTo(PutIfAbsent(Grouped(tickets[..i]), t.carrier), t.carrier, Duration(t))
            else Grouped(tickets[..i]))
      && PricesOf(Matching(tickets[..i + 1])) ==
           PricesOf(Matching(tickets[..i])) + (if IsMatching(t) then [t.price] else [])
  {
    assert tickets[..i + 1][..i] == tickets[..i];
    var t := tickets[i];
    if IsMatching(t) {
      var kept := Matching(tickets[..i]);
      assert Matching(tickets[..i + 1]) == kept + [t];
      assert PricesOf(kept + [t]) == PricesOf(kept) + [t.price];
    }
  }

  /** What a completed run reports. */
  datatype Report = Report(
    minFlightTimes: map<string, int>,
    averagePrice: real,
    medianPrice: real,
    priceDifference: real)

  /** The whole analysis. It fails exactly when no ticket matches: the
      median of the empty price list reads index -1. */
  function Analyze(tickets: seq<Ticket>): (r: Result<Report>)
    ensures r.Failure? <==> Matching(tickets) == []
    ensures r.Failure? ==> r.error == IndexOutOfBounds(-1)
  {
    var flightTimes := Grouped(tickets);
    var prices := PricesOf(Matching(tickets));
    var averagePrice := Average(prices);
    var medianPrice :- MedianOf(prices);
    Success(Report(MinTimes(flightTimes), averagePrice, medianPrice, averagePrice - medianPrice))
  }

  /** `main` from the parsed ticket array on: the loop, the per-carrier
      minimum, then `calculateAverage` and `calculateMedian` on the price list. */
  method Run(tickets: seq<Ticket>) returns (r: Result<Report>)
    ensures r == Analyze(tickets)
  {
    var flightTimes, prices := CollectMatching(tickets);
    var minFlightTimes := MinTimes(flightTimes);
    var averagePrice := Average(prices.elems);
    var median := CalculateMedian(prices);
    if median.Failure? {
      return Failure(median.error);
    }
    var medianPrice := median.value;
    var priceDifference := averagePrice - medianPrice;
    r := Success(Report(minFlightTimes, averagePrice, medianPrice, priceDifference));
  }

  lemma DurationsAppend(tickets: seq<Ticket>, t: Ticket)
    ensures Durations(tickets + [t]) == Durations(tickets) + [Duration(t)]
  {
  }

  /** The map holds a key exactly for the carriers of matching tickets, and
      under it the flight times of exactly that carrier's matching tickets,
      in input order; so each list has one entry per such ticket. */
  lemma {:induction false} GroupedByCarrier(tickets: seq<Ticket>)
    ensures forall c :: c in Grouped(tickets) <==> OfCarrier(tickets, c) != []
    ensures forall c :: c in Grouped(tickets) ==> Grouped(tickets)[c] == Durations(OfCarrier(tickets, c))
    decreases |tickets|
  {
    if tickets != [] {
      var prefix := tickets[..|tickets| - 1];
      var last := tickets[|tickets| - 1];
      GroupedByCarrier(prefix);
      forall c | true
        ensures c in Grouped(tickets) <==> OfCarrier(tickets, c) != []
        ensures c in Grouped(tickets) ==> Grouped(tickets)[c] == Durations(OfCarrier(tickets, c))
      {
        if IsMatching(last) && last.carrier == c {
          DurationsAppend(OfCarrier(prefix, c), last);
        }
      }
    }
  }

  /** Only matching tickets reach the map: a carrier is a key exactly when
      some matching ticket has it. */
  lemma CarrierKeys(tickets: seq<Ticket>)
    ensures forall c :: c in Grouped(tickets) <==>
      exists t :: t in tickets && IsMatching(t) && t.carrier == c
  {
    GroupedByCarrier(tickets);
    forall c ensures OfCarrier(tickets, c) != [] <==>
      exists t :: t in tickets && IsMatching(t) && t.carrier == c
    {
      var kept := OfCarrier(tickets, c);
      if kept != [] {
        assert kept[0] in kept;
      }
    }
  }

  /** The lists of the map hold as many flight times in all as there are
      prices. */
  lemma {:induction false} TotalLengthIsPriceCount(tickets: seq<Ticket>)
    ensures TotalLength(Grouped(tickets)) == |PricesOf(Matching(tickets))|
    decreases |tickets|
  {
    if tickets == [] {
      assert Grouped(tickets) == map[];
    } else {
      var prefix := tickets[..|tickets| - 1];
      var last := tickets[|tickets| - 1];
      TotalLengthIsPriceCount(prefix);
      if IsMatching(last) {
        TotalLengthAppend(Grouped(prefix), last.carrier, Duration(last));
      }
    }
  }

  /** Filtering distributes over concatenation and keeps order. */
  lemma {:induction false} MatchingConcat(a: seq<Ticket>, b: seq<Ticket>)
    ensures Matching(a + b) == Matching(a) + Matching(b)
    decreases |b|
  {
    if b == [] {
      assert a + b == a;
    } else {
      var b' := b[..|b| - 1];
      assert (a + b)[..|a + b| - 1] == a + b';
      MatchingConcat(a, b');
    }
  }

  /** The map is built from the matching tickets alone. */
  lemma {:induction false} GroupedOfMatching(tickets: seq<Ticket>)
    ensures Grouped(tickets) == Grouped(Matching(tickets))
    decreases |tickets|
  {
    if tickets != [] {
      var prefix := tickets[..|tickets| - 1];
      var last := tickets[|tickets| - 1];
      GroupedOfMatching(prefix);
      if IsMatching(last) {
        var kept := Matching(prefix) + [last];
        assert kept[..|kept| - 1] == Matching(prefix);
      }
    }
  }

  /** Inserting a ticket of another route anywhere in the input changes
      neither the map nor the price list, and so not the report. */
  lemma NonMatchingTicketIgnored(a: seq<Ticket>, t: Ticket, b: seq<Ticket>)
    requires !IsMatching(t)
    ensures Matching(a + [t] + b) == Matching(a + b)
    ensures Grouped(a + [t] + b) == Grouped(a + b)
    ensures Analyze(a + [t] + b) == Analyze(a + b)
  {
    var with, without := a + [t] + b, a + b;
    MatchingSkip(a, t, b);
    GroupedOfMatching(with);
    GroupedOfMatching(without);
    AnalyzeFromParts(with, without);
  }

  /** The report depends on the input only through the map and the matching
      tickets. */
  lemma AnalyzeFromParts(x: seq<Ticket>, y: seq<Ticket>)
    requires Grouped(x) == Grouped(y) && Matching(x) == Matching(y)
    ensures Analyze(x) == Analyze(y)
  {
  }

  lemma MatchingSkip(a: seq<Ticket>, t: Ticket, b: seq<Ticket>)
    requires !IsMatching(t)
    ensures Matching(a + [t] + b) == Matching(a + b)
  {
    MatchingConcat(a + [t], b);
    MatchingConcat(a, [t]);
    MatchingConcat(a, b);
    assert [t][..0] == [];
    assert Matching([t]) == [];
  }

  /** In a successful report the carriers are those of the matching tickets,
      and each carrier's figure is the least flight time among its matching
      tickets. */
  lemma ReportedMinimum(tickets: seq<Ticket>)
    requires Analyze(tickets).Success?
    ensures var mins := Analyze(tickets).value.minFlightTimes;
      && (forall c :: c in mins <==> OfCarrier(tickets, c) != [])
      && (forall c :: c in mins ==> mins[c] in Durations(OfCarrier(tickets, c)))
      && (forall c, x :: c in mins && x in Durations(OfCarrier(tickets, c)) ==> mins[c] <= x)
  {
    GroupedByCarrier(tickets);
    assert Analyze(tickets).value.minFlightTimes == MinTimes(Grouped(tickets));
  }

  /** In a successful report the mean is `calculateAverage` of the matching
      tickets' prices, the median is read from any ascending arrangement of
      those prices, and the difference is mean minus median. */
  lemma ReportedPrices(tickets: seq<Ticket>, sorted: seq<int>)
    requires Matching(tickets) != []
    requires SortedAsc(sorted) && multiset(sorted) == multiset(PricesOf(Matching(tickets)))
    ensures Analyze(tickets).Success?
    ensures var report, n := Analyze(tickets).value, |sorted|;
      && n == |Matching(tickets)|
      && report.averagePrice == Average(PricesOf(Matching(tickets)))
      && (n % 2 == 1 ==> report.medianPrice == sorted[n / 2] as real)
      && (n % 2 == 0 ==> report.medianPrice == Wrap32(sorted[n / 2 - 1] + sorted[n / 2]) as real / 2.0)
      && report.priceDifference == report.averagePrice - report.medianPrice
  {
    var prices := PricesOf(Matching(tickets));
    MedianFromSorted(prices, sorted);
    var report := Analyze(tickets).value;
    assert report.averagePrice == Average(prices);
    assert report.medianPrice == MedianOf(prices).value;
  }

  /** Two tickets of carrier A: 150 minutes for 100, then, a day later,
      60 minutes for 200. */
  const ExampleTickets: seq<Ticket> := [
    Ticket("VVO", "TLV", "A", 0, 9_000_000, 100),
    Ticket("VVO", "TLV", "A", 79_200_000, 82_800_000, 200)]

  lemma ExampleFirst()
    ensures Matching(ExampleTickets[..1]) == ExampleTickets[..1]
    ensures Grouped(ExampleTickets[..1]) == map["A" := [150]]
  {
    var t1 := ExampleTickets[0];
    assert ExampleTickets[..1] == [t1];
    assert [t1][..0] == [];
    assert Duration(t1) == 150;
    assert Grouped([t1][..0]) == map[];
    var empty: seq<int> := [];
    assert Grouped([t1]) == AddTo(map["A" := empty], "A", 150);
    assert empty + [150] == [150];
  }

  lemma ExampleGrouped()
    ensures Matching(ExampleTickets) == ExampleTickets
    ensures Grouped(ExampleTickets) == map["A" := [150, 60]]
  {
    ExampleFirst();
    var t2 := ExampleTickets[1];
    assert ExampleTickets[..|ExampleTickets| - 1] == ExampleTickets[..1];
    assert Duration(t2) == 60;
    assert Grouped(ExampleTickets) == AddTo(map["A" := [150]], "A", 60);
    assert [150] + [60] == [150, 60];
  }

  /** The example's report: A: 60 minutes, mean 150, median 150, difference 0. */
  lemma TwoTicketExample()
    ensures Analyze(ExampleTickets) == Success(Report(map["A" := 60], 150.0, 150.0, 0.0))
  {
    ExampleGrouped();
    ExamplePrices();
    assert MinTimes(map["A" := [150, 60]]) == map["A" := 60];
    assert PricesOf(ExampleTickets) == [100, 200];
  }

  lemma ExamplePrices()
    ensures Average([100, 200]) == 150.0
    ensures MedianOf([100, 200]) == Success(150.0)
  {
    assert [100, 200][1..] == [200];
    assert Sum([200]) == 200;
    assert Sum([100, 200]) == 300;
    MedianFromSorted([100, 200], [100, 200]);
    assert MedianOfSorted([100, 200]) == Success(Wrap32(300) as real / 2.0);
  }
}
