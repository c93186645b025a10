/**
  The distance estimator of ClientApp.py (`rssi_to_dist`): exact matches only,
  averaged with `statistics.mean`.
*/
module ClientAppCalibration {
  import opened Wrappers
  import opened Stats
  import opened CalibrationSheet

  /**
    The distances of the rows whose RSSI equals the signal, in sheet order. The
    signal is a median and may be fractional; it is compared with the sheet's
    integer RSSI as Python compares an int with a float.
  */
  function Matching(rows: seq<Row>, signal: real): seq<real>
  {
    if rows == [] then []
    else
      var last := rows[|rows| - 1];
      Matching(rows[..|rows| - 1], signal) + (if last.rssi as real == signal then [last.distance] else [])
  }

  /**
    `rssi_to_dist`: collects the distances of the matching rows and returns
    their mean; `statistics.mean` of an empty list raises, so a signal no row
    was measured at is an error.
  */
  method RssiToDist(rows: seq<Row>, signal: real) returns (r: Result<real>)
    ensures Matching(rows, signal) == [] ==> r == Failure(NoData)
    ensures Matching(rows, signal) != [] ==> r == Success(Mean(Matching(rows, signal)))
  {
    var found: seq<real> := [];
    for i := 0 to |rows|
      invariant found == Matching(rows[..i], signal)
    {
      assert rows[..i + 1][..i] == rows[..i];
      if rows[i].rssi as real == signal {
        found := found + [rows[i].distance];
      }
    }
    assert rows[..|rows|] == rows;
    if |found| == 0 {
      return Failure(NoData);
    }
    return Success(Mean(found));
  }

  /** The averaged distances are exactly those measured at the signal's RSSI. */
  lemma {:induction false} MatchingExactly(rows: seq<Row>, signal: real, d: real)
    ensures d in Matching(rows, signal) <==>
      exists i :: 0 <= i < |rows| && rows[i].rssi as real == signal && rows[i].distance == d
  {
    if rows != [] {
      var front := rows[..|rows| - 1];
      MatchingExactly(front, signal, d);
      if exists i :: 0 <= i < |front| && front[i].rssi as real == signal && front[i].distance == d {
        var i :| 0 <= i < |front| && front[i].rssi as real == signal && front[i].distance == d;
        assert rows[i] == front[i];
      }
      if exists i :: 0 <= i < |rows| && rows[i].rssi as real == signal && rows[i].distance == d {
        var i :| 0 <= i < |rows| && rows[i].rssi as real == signal && rows[i].distance == d;
        if i < |front| {
          assert front[i] == rows[i];
        }
      }
    }
  }

  /** The estimate fails exactly when no row of the sheet has the signal's RSSI. */
  lemma FailsWithoutExactRow(rows: seq<Row>, signal: real)
    ensures Matching(rows, signal) == [] <==> forall i :: 0 <= i < |rows| ==> rows[i].rssi as real != signal
  {
    if Matching(rows, signal) != [] {
      MatchingExactly(rows, signal, Matching(rows, signal)[0]);
    }
    forall i | 0 <= i < |rows| && rows[i].rssi as real == signal
      ensures Matching(rows, signal) != []
    {
      MatchingExactly(rows, signal, rows[i].distance);
    }
  }

  /** For a whole-numbered signal the averaged distances are that RSSI's bucket of the grouped sheet. */
  lemma {:induction false} MatchingIsBucket(rows: seq<Row>, k: int)
    ensures Matching(rows, k as real) == Bucket(rows, k)
  {
    if rows != [] {
      MatchingIsBucket(rows[..|rows| - 1], k);
    }
  }

  /** A fractional signal, such as the median of an even buffer, matches no row at all. */
  lemma {:induction false} FractionalSignalMatchesNothing(rows: seq<Row>, signal: real)
    requires signal != signal.Floor as real
    ensures Matching(rows, signal) == []
  {
    if rows != [] {
      FractionalSignalMatchesNothing(rows[..|rows| - 1], signal);
    }
  }
}
