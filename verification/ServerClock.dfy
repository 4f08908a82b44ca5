/** Server-assigned timestamps: strictly increasing whatever the wall clock does. */
module ServerClock {
  /** The timestamp for a wall-clock reading, given the last one assigned. */
  function Next(last: int, reading: int): int {
    if reading <= last then last + 1 else reading
  }

  /** The timestamps assigned to a sequence of readings. The cell starts at 0. */
  function Assigned(readings: seq<int>): (out: seq<int>)
    ensures |out| == |readings|
  {
    if readings == [] then []
    else
      var n := |readings| - 1;
      var before := Assigned(readings[..n]);
      before + [Next(if n == 0 then 0 else before[n - 1], readings[n])]
  }

  function Latest(readings: seq<int>): int
    requires readings != []
  {
    var n := |readings| - 1;
    if n == 0 then readings[0]
    else
      var m := Latest(readings[..n]);
      if readings[n] > m then readings[n] else m
  }

  class Clock {
    var last: int
    ghost var readings: seq<int>

    ghost predicate Valid()
      reads this
    {
      last == if readings == [] then 0 else Assigned(readings)[|readings| - 1]
    }

    constructor ()
      ensures Valid() && readings == []
    {
      last, readings := 0, [];
    }

    /** The locked section of `to_rows`. */
    method Assign(reading: int) returns (ts: int)
      requires Valid()
      modifies this
      ensures Valid() && readings == old(readings) + [reading]
      ensures ts == Assigned(readings)[|readings| - 1] && ts > old(last) && last == ts && ts >= reading
    {
      ts := reading;
      if ts <= last {
        ts := last + 1;
      }
      assert (readings + [reading])[..|readings|] == readings;
      last, readings := ts, readings + [reading];
    }
  }

  ghost predicate Increasing(a: seq<int>) {
    forall i, j :: 0 <= i < j < |a| ==> a[i] < a[j]
  }

  ghost predicate NotEarlier(a: seq<int>, readings: seq<int>) {
    |a| == |readings| && forall i :: 0 <= i < |a| ==> a[i] > 0 && a[i] >= readings[i]
  }

  /** One timestamp more, later than the last and not before its reading. */
  lemma Extended(before: seq<int>, a: seq<int>, readings: seq<int>)
    requires |a| == |readings| == |before| + 1 && a[..|before|] == before
    requires Increasing(before) && NotEarlier(before, readings[..|before|])
    requires var n := |before|; a[n] > 0 && a[n] >= readings[n] && (n > 0 ==> a[n] > before[n - 1])
    ensures Increasing(a) && NotEarlier(a, readings)
  {
    assert forall i :: 0 <= i < |before| ==> a[i] == before[i] && readings[i] == readings[..|before|][i];
  }

  /** Assigned timestamps strictly increase, for every sequence of readings, including a
      clock that stands still or runs backwards; none is earlier than its reading. */
  lemma {:induction false} StrictlyIncreasing(readings: seq<int>)
    ensures Increasing(Assigned(readings)) && NotEarlier(Assigned(readings), readings)
  {
    if readings != [] {
      var n := |readings| - 1;
      StrictlyIncreasing(readings[..n]);
      Extended(Assigned(readings[..n]), Assigned(readings), readings);
    }
  }

  /** Drift: once the clock has read a positive time, the n-th timestamp is ahead of the
      largest reading so far by less than n nanoseconds. */
  lemma {:induction false} DriftBounded(readings: seq<int>)
    requires readings != []
    ensures var n := |readings|; var t := Assigned(readings)[n - 1];
            if Latest(readings) > 0 then t - Latest(readings) < n else t == n
  {
    var n := |readings| - 1;
    if n > 0 {
      DriftBounded(readings[..n]);
    }
  }
}
