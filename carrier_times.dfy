/** The `flightTimes` map of `main`: carrier name to the list of flight times
    of that carrier's matching tickets, in the order the tickets came. */
module CarrierTimes {
  import opened ListOps

  type FlightTimes = map<string, seq<int>>

  /** `flightTimes.putIfAbsent(carrier, new ArrayList<>())`: the carrier gets
      an empty list unless it already has one; no other entry changes. */
  function PutIfAbsent(m: FlightTimes, carrier: string): (m': FlightTimes)
    ensures m'.Keys == m.Keys + {carrier}
    ensures carrier !in m ==> m'[carrier] == []
    ensures forall k :: k in m ==> m'[k] == m[k]
  {
    if carrier in m then m else m[carrier := []]
  }

  /** `flightTimes.get(carrier).add(time)`: appends to the carrier's list,
      which must be present (`get` would return null otherwise); every other
      list is unchanged. */
  function AddTo(m: FlightTimes, carrier: string, time: int): (m': FlightTimes)
    requires carrier in m
    ensures m'.Keys == m.Keys
    ensures m'[carrier] == m[carrier] + [time]
    ensures forall k :: k in m && k != carrier ==> m'[k] == m[k]
  {
    m[carrier := m[carrier] + [time]]
  }

  /** The per-carrier `Collections.min` of the report loop: one minimum per
      key, an element of that key's list and no larger than any of them. */
  function MinTimes(m: FlightTimes): (mins: map<string, int>)
    requires forall c :: c in m ==> m[c] != []
    ensures mins.Keys == m.Keys
    ensures forall c :: c in mins ==> mins[c] in m[c]
    ensures forall c, x :: c in mins && x in m[c] ==> mins[c] <= x
  {
    map c | c in m :: Min(m[c])
  }

  /** The number of flight times held in the map, over all carriers. */
  ghost function TotalLength(m: FlightTimes): nat
    decreases |m.Keys|
  {
    if m == map[] then 0
    else
      var k :| k in m;
      assert (m - {k}).Keys < m.Keys;
      |m[k]| + TotalLength(m - {k})
  }

  /** TotalLength does not depend on the key it happens to pick first. */
  lemma {:induction false} TotalLengthWithout(m: FlightTimes, k: string)
    requires k in m
    ensures TotalLength(m) == |m[k]| + TotalLength(m - {k})
    decreases |m.Keys|
  {
    var j :| j in m && TotalLength(m) == |m[j]| + TotalLength(m - {j});
    if j != k {
      assert (m - {j}).Keys < m.Keys;
      assert (m - {k}).Keys < m.Keys;
      TotalLengthWithout(m - {j}, k);
      TotalLengthWithout(m - {k}, j);
      assert m - {j} - {k} == m - {k} - {j};
    }
  }

  /** putIfAbsent followed by add puts exactly one more flight time in the map. */
  lemma {:induction false} TotalLengthAppend(m: FlightTimes, carrier: string, time: int)
    ensures TotalLength(AddTo(PutIfAbsent(m, carrier), carrier, time)) == TotalLength(m) + 1
  {
    var m' := AddTo(PutIfAbsent(m, carrier), carrier, time);
    TotalLengthWithout(m', carrier);
    if carrier in m {
      TotalLengthWithout(m, carrier);
      assert m' - {carrier} == m - {carrier};
    } else {
      assert m' - {carrier} == m;
    }
  }
}
