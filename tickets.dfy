/** Ticket records as they come out of the JSON document, the fixed route
    filter, the flight-time arithmetic and Java's 32-bit `int`. */
module Tickets {

  /** Java `int`. */
  type Int32 = x: int | -0x8000_0000 <= x < 0x8000_0000

  /** Two's-complement wrap-around of an exact integer to Java `int`,
      as `int + int` does on overflow. */
  function Wrap32(x: int): (r: Int32)
    ensures -0x8000_0000 <= x < 0x8000_0000 ==> r == x
  {
    (x + 0x8000_0000) % 0x1_0000_0000 - 0x8000_0000
  }

  /** The wrapped value differs from the exact one by a multiple of 2^32. */
  lemma Wrap32Congruent(x: int)
    ensures (x - Wrap32(x)) % 0x1_0000_0000 == 0
  {
  }

  /** One entry of the `tickets` array. The departure and arrival instants are
      the milliseconds that `SimpleDateFormat.parse(...).getTime()` yields for
      "<date> <time>"; the price is read with `getInt`. */
  datatype Ticket = Ticket(
    origin: string,
    destination: string,
    carrier: string,
    departure: int,
    arrival: int,
    price: Int32)

  const Origin: string := "VVO"
  const Destination: string := "TLV"
  const MillisPerMinute: int := 1000 * 60

  /** The route filter of the main loop. */
  predicate IsMatching(t: Ticket) {
    t.origin == Origin && t.destination == Destination
  }

  /** The byte-order mark the loader strips from the front of the file. */
  const ByteOrderMark: char := '\U{FEFF}'

  /** Drops one leading byte-order mark, if there is one. */
  function StripBom(content: string): (r: string)
    ensures |content| > 0 && content[0] == ByteOrderMark ==> content == [ByteOrderMark] + r
    ensures (|content| == 0 || content[0] != ByteOrderMark) ==> r == content
  {
    if |content| > 0 && content[0] == ByteOrderMark then content[1..] else content
  }

  /** Java `long` division by a positive divisor: the quotient is truncated
      toward zero, not floored. */
  function TruncDiv(a: int, d: int): (q: int)
    requires d > 0
    ensures a >= 0 ==> q * d <= a < (q + 1) * d
    ensures a < 0 ==> (q - 1) * d < a <= q * d
  {
    if a >= 0 then a / d else -((-a) / d)
  }

  /** Whole minutes between two instants, truncated toward zero; negative
      when the arrival instant precedes the departure instant. */
  function FlightTime(departure: int, arrival: int): (minutes: int)
    ensures arrival >= departure ==>
      minutes * 60000 <= arrival - departure < (minutes + 1) * 60000
    ensures arrival < departure ==>
      (minutes - 1) * 60000 < arrival - departure <= minutes * 60000
    ensures minutes < 0 <==> arrival - departure <= -60000
  {
    TruncDiv(arrival - departure, MillisPerMinute)
  }

  /** Swapping the two instants negates the flight time: truncation toward
      zero is symmetric, where flooring division would not be. */
  lemma FlightTimeSwap(departure: int, arrival: int)
    ensures FlightTime(arrival, departure) == -FlightTime(departure, arrival)
  {
  }

  /** The flight time of one ticket, from its departure and arrival. */
  function Duration(t: Ticket): int {
    FlightTime(t.departure, t.arrival)
  }
}
