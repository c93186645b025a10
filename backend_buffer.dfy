/**
  The smoothing buffer of backend.py (`RSSIBuffer`). The first reading fills
  the buffer with `size` copies of itself; that assignment replaces the bounded
  deque by a plain list, so every later reading is appended and none is ever
  evicted.
*/
module BackendBuffer {
  import opened Wrappers
  import opened Stats

  /** The buffer after one `add_rssi`. */
  function Added(buffer: seq<int>, rssi: int, size: nat): seq<int>
  {
    if |buffer| == 0 then Repeat(rssi, size) else buffer + [rssi]
  }

  /** The buffer after `add_rssi` of each reading of `readings`, in order. */
  function AddedAll(buffer: seq<int>, readings: seq<int>, size: nat): seq<int>
    decreases |readings|
  {
    if readings == [] then buffer
    else AddedAll(Added(buffer, readings[0], size), readings[1..], size)
  }

  /** `calculate_median` on a non-empty buffer: the median, floored. */
  function FloorMedian(buffer: seq<int>): int
    requires |buffer| > 0
  {
    IntMedian(buffer).Floor
  }

  class RSSIBuffer {
    var buffer: seq<int>
    const size: nat

    constructor (maxLen: nat)
      ensures buffer == [] && size == maxLen
    {
      buffer := [];
      size := maxLen;
    }

    method AddRssi(rssi: int)
      modifies this
      ensures buffer == Added(old(buffer), rssi, size)
    {
      if |buffer| == 0 {
        for i := 0 to size
          invariant buffer == if i == 0 then [] else Repeat(rssi, size)
        {
          buffer := Repeat(rssi, size);
        }
      } else {
        buffer := buffer + [rssi];
      }
    }

    method CalculateMedian() returns (r: Result<int>)
      ensures buffer == [] ==> r == Failure(EmptyBuffer)
      ensures buffer != [] ==> r == Success(FloorMedian(buffer))
    {
      if |buffer| > 0 {
        r := Success(IntMedian(buffer).Floor);
      } else {
        r := Failure(EmptyBuffer);
      }
    }
  }

  /** The first reading leaves exactly `size` copies of itself, so the smoothed value is that reading. */
  lemma FirstAddFills(rssi: int, size: nat)
    requires size > 0
    ensures |Added([], rssi, size)| == size
    ensures FloorMedian(Added([], rssi, size)) == rssi
  {
    IntMedianOfConstant(Added([], rssi, size), rssi);
  }

  /** Once the buffer holds something, readings are only ever appended. */
  lemma {:induction false} AddedAllAppends(buffer: seq<int>, readings: seq<int>, size: nat)
    requires |buffer| > 0
    ensures AddedAll(buffer, readings, size) == buffer + readings
    decreases |readings|
  {
    if readings != [] {
      AddedAllAppends(buffer + [readings[0]], readings[1..], size);
      assert buffer + [readings[0]] + readings[1..] == buffer + readings;
    }
  }

  /**
    No reading is ever evicted: after the readings x0, x1, ..., x(k-1) the
    buffer is `size` copies of x0 followed by x1 ... x(k-1), so its length is
    size + k - 1.
  */
  lemma GrowsWithoutEviction(readings: seq<int>, size: nat)
    requires size > 0 && |readings| > 0
    ensures AddedAll([], readings, size) == Repeat(readings[0], size) + readings[1..]
    ensures |AddedAll([], readings, size)| == size + |readings| - 1
  {
    AddedAllAppends(Repeat(readings[0], size), readings[1..], size);
  }

  /** With a buffer size of 0 nothing is ever stored, so every median read fails. */
  lemma {:induction false} ZeroSizeStaysEmpty(readings: seq<int>)
    ensures AddedAll([], readings, 0) == []
    decreases |readings|
  {
    if readings != [] {
      ZeroSizeStaysEmpty(readings[1..]);
    }
  }
}
