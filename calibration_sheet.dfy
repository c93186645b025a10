/**
  The calibration sheet both generations read: one row per measurement, with
  the distance in metres at which it was taken and the RSSI observed there.
*/
module CalibrationSheet {

  datatype Row = Row(distance: real, rssi: int)

  /** The distances measured at RSSI `k`, in sheet order. */
  function Bucket(rows: seq<Row>, k: int): seq<real>
  {
    if rows == [] then []
    else
      var last := rows[|rows| - 1];
      Bucket(rows[..|rows| - 1], k) + (if last.rssi == k then [last.distance] else [])
  }

  function RssiValues(rows: seq<Row>): set<int>
  {
    set i | 0 <= i < |rows| :: rows[i].rssi
  }

  /** `groupby(RSSI)[Distancia].apply(list).to_dict()`. */
  function Grouped(rows: seq<Row>): map<int, seq<real>>
  {
    map k | k in RssiValues(rows) :: Bucket(rows, k)
  }

  /** A bucket holds a distance exactly when some row measured it at that RSSI. */
  lemma {:induction false} BucketMembers(rows: seq<Row>, k: int, d: real)
    ensures d in Bucket(rows, k) <==> exists i :: 0 <= i < |rows| && rows[i].rssi == k && rows[i].distance == d
  {
    if rows != [] {
      var front := rows[..|rows| - 1];
      BucketMembers(front, k, d);
      if exists i :: 0 <= i < |front| && front[i].rssi == k && front[i].distance == d {
        var i :| 0 <= i < |front| && front[i].rssi == k && front[i].distance == d;
        assert rows[i] == front[i];
      }
      if exists i :: 0 <= i < |rows| && rows[i].rssi == k && rows[i].distance == d {
        var i :| 0 <= i < |rows| && rows[i].rssi == k && rows[i].distance == d;
        if i < |front| {
          assert front[i] == rows[i];
        }
      }
    }
  }

  /** Grouping yields one non-empty bucket per RSSI value in the sheet. */
  lemma GroupedBucketsNonEmpty(rows: seq<Row>)
    ensures Grouped(rows).Keys == RssiValues(rows)
    ensures forall k :: k in Grouped(rows) ==> |Grouped(rows)[k]| > 0
  {
    forall k | k in Grouped(rows)
      ensures |Grouped(rows)[k]| > 0
    {
      var i :| 0 <= i < |rows| && rows[i].rssi == k;
      BucketMembers(rows, k, rows[i].distance);
    }
  }
}
