/**
  The smoothing buffer of ClientApp.py (`RSSIBuffer`): a `deque(maxlen=size)`
  whose first-reading branch calls `add_rssi` again instead of appending. The
  buffer is still empty when that call arrives, so it takes the same branch,
  and the recursion only ends when Python's call-stack budget runs out.
*/
module ClientAppBuffer {
  import opened Wrappers
  import opened Stats
  import opened Deque

  class RSSIBuffer {
    var buffer: seq<int>
    const size: nat

    ghost predicate Valid()
      reads this
    {
      |buffer| <= size
    }

    constructor (maxLen: nat)
      ensures Valid() && buffer == [] && size == maxLen
    {
      buffer := [];
      size := maxLen;
    }

    /**
      `add_rssi` with `depth` frames of call stack left. On an empty buffer
      with at least one slot the call never appends: it fails for every
      budget, leaving the buffer as it was. Otherwise the reading is appended,
      the oldest dropping out of a full deque.
    */
    method AddRssi(rssi: int, depth: nat) returns (ok: bool)
      requires Valid()
      modifies this
      ensures Valid()
      ensures ok <==> old(buffer) != [] || size == 0
      ensures old(buffer) != [] ==> buffer == Bounded(old(buffer) + [rssi], size)
      ensures old(buffer) == [] ==> buffer == []
      decreases depth
    {
      if |buffer| == 0 {
        ok := true;
        var i := 0;
        // The loop stops at the first call that raises: the exception propagates.
        while i < size && ok
          invariant 0 <= i <= size
          invariant buffer == []
          invariant ok == (i == 0)
        {
          if depth == 0 {
            ok := false;
          } else {
            ok := AddRssi(rssi, depth - 1);
          }
          i := i + 1;
        }
      } else {
        buffer := Bounded(buffer + [rssi], size);
        ok := true;
      }
    }

    /** `calculate_median`: the median itself, not floored; an empty buffer raises. */
    method CalculateMedian() returns (r: Result<real>)
      ensures buffer == [] ==> r == Failure(EmptyBuffer)
      ensures buffer != [] ==> r == Success(IntMedian(buffer))
    {
      if |buffer| > 0 {
        r := Success(IntMedian(buffer));
      } else {
        r := Failure(EmptyBuffer);
      }
    }
  }

  /** Unlike the floored variants, the median of two neighbouring readings is fractional. */
  lemma UnflooredMedianExample()
    ensures IntMedian([-48, -47]) == -47.5
  {
    assert ToReals([-48, -47]) == [-48.0, -47.0];
    assert Sort([-47.0]) == [-47.0];
    assert [-48.0, -47.0][1..] == [-47.0];
    assert Sort([-48.0, -47.0]) == Insert(-48.0, [-47.0]) == [-48.0, -47.0];
  }
}
