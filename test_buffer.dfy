/**
  The stand-alone smoothing buffer of test.py: a `deque(maxlen=size)` whose
  first reading is spread over all `size` slots with `extend`, after which each
  reading is appended and the oldest one drops out.
*/
module TestBuffer {
  import opened Wrappers
  import opened Stats
  import opened Deque

  /** The buffer after one `add_rssi`. */
  function Added(buffer: seq<int>, rssi: int, size: nat): seq<int>
  {
    if |buffer| == 0 then Bounded(buffer + Repeat(rssi, size), size)
    else Bounded(buffer + [rssi], size)
  }

  /** The buffer after `add_rssi` of each reading of `readings`, in order. */
  function AddedAll(buffer: seq<int>, readings: seq<int>, size: nat): seq<int>
    decreases |readings|
  {
    if readings == [] then buffer
    else AddedAll(Added(buffer, readings[0], size), readings[1..], size)
  }

  class RSSIBuffer {
    var buffer: seq<int>
    const size: nat

    /** The deque never holds more than its `maxlen`. */
    ghost predicate Valid()
      reads this
    {
      |buffer| <= size
    }

    constructor (maxLen: nat)
      ensures Valid() && buffer == [] && size == maxLen
    {
      buffer := [];
      size := maxLen;
    }

    method AddRssi(rssi: int)
      requires Valid()
      modifies this
      ensures Valid()
      ensures buffer == Added(old(buffer), rssi, size)
    {
      if |buffer| == 0 {
        buffer := Bounded(buffer + Repeat(rssi, size), size);
      } else {
        buffer := Bounded(buffer + [rssi], size);
      }
    }

    method CalculateMedian() returns (r: Result<int>)
      ensures buffer == [] ==> r == Failure(EmptyBuffer)
      ensures buffer != [] ==> r == Success(IntMedian(buffer).Floor)
    {
      if |buffer| > 0 {
        r := Success(IntMedian(buffer).Floor);
      } else {
        r := Failure(EmptyBuffer);
      }
    }
  }

  /** The first reading fills the buffer with exactly `size` copies of itself. */
  lemma FirstAddFills(rssi: int, size: nat)
    ensures Added([], rssi, size) == Repeat(rssi, size)
    ensures size > 0 ==> IntMedian(Added([], rssi, size)).Floor == rssi
  {
    if size > 0 {
      IntMedianOfConstant(Repeat(rssi, size), rssi);
    }
  }

  /** A later reading goes in on the right and, once the buffer is full, pushes the oldest out. */
  lemma AppendEvictsOldest(buffer: seq<int>, rssi: int, size: nat)
    requires |buffer| == size > 0
    ensures Added(buffer, rssi, size) == buffer[1..] + [rssi]
  {
  }

  /**
    Whatever the readings, the buffer never grows past `size`, and from the
    first reading on it holds exactly `size` of them.
  */
  lemma {:induction false} LengthStaysAtSize(buffer: seq<int>, readings: seq<int>, size: nat)
    requires |buffer| == size || buffer == []
    ensures |AddedAll(buffer, readings, size)| <= size
    ensures buffer != [] || |readings| > 0 ==> |AddedAll(buffer, readings, size)| == size
    decreases |readings|
  {
    if readings != [] {
      LengthStaysAtSize(Added(buffer, readings[0], size), readings[1..], size);
    }
  }

  /** k equal readings into a full buffer push its k oldest entries out. */
  lemma {:induction false} SameReadingsShiftIn(buffer: seq<int>, v: int, k: nat)
    requires |buffer| > 0 && k <= |buffer|
    ensures AddedAll(buffer, Repeat(v, k), |buffer|) == buffer[k..] + Repeat(v, k)
    decreases k
  {
    if k > 0 {
      var n := |buffer|;
      var next := buffer[1..] + [v];
      assert Added(buffer, v, n) == next;
      assert Repeat(v, k)[1..] == Repeat(v, k - 1);
      SameReadingsShiftIn(next, v, k - 1);
      assert next[k - 1..] == buffer[k..] + [v];
      assert buffer[k..] + [v] + Repeat(v, k - 1) == buffer[k..] + Repeat(v, k);
    }
  }

  /** After `size` further equal readings no earlier reading remains, and the smoothed value is that reading. */
  lemma FlushedBySameReadings(buffer: seq<int>, v: int)
    requires |buffer| > 0
    ensures AddedAll(buffer, Repeat(v, |buffer|), |buffer|) == Repeat(v, |buffer|)
    ensures IntMedian(AddedAll(buffer, Repeat(v, |buffer|), |buffer|)).Floor == v
  {
    SameReadingsShiftIn(buffer, v, |buffer|);
    assert buffer[|buffer|..] == [];
    IntMedianOfConstant(Repeat(v, |buffer|), v);
  }

  /** The worked trace with three slots: -48, -48, -6, -6 leaves [-48, -6, -6]. */
  lemma TraceWithThreeSlots()
    ensures AddedAll([], [-48], 3) == [-48, -48, -48]
    ensures AddedAll([], [-48, -48], 3) == [-48, -48, -48]
    ensures AddedAll([], [-48, -48, -6], 3) == [-48, -48, -6]
    ensures AddedAll([], [-48, -48, -6, -6], 3) == [-48, -6, -6]
  {
    var s0 := Added([], -48, 3);
    assert s0 == [-48, -48, -48];
    var s1 := Added(s0, -48, 3);
    assert s1 == [-48, -48, -48];
    var s2 := Added(s1, -6, 3);
    assert s2 == [-48, -48, -6];
    var s3 := Added(s2, -6, 3);
    assert s3 == [-48, -6, -6];
    assert [-48, -48, -6, -6][1..] == [-48, -6, -6];
    assert [-48, -6, -6][1..] == [-6, -6];
    assert [-6, -6][1..] == [-6];
    assert [-48, -48, -6][1..] == [-48, -6];
    assert [-48, -6][1..] == [-6];
    assert [-48, -48][1..] == [-48];
  }
}
