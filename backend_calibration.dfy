/**
  The distance estimator of backend.py (`rssi_to_dist`): the calibration sheet,
  grouped by RSSI, turned into a step function from signal strength to metres.
*/
module BackendCalibration {
  import opened Wrappers
  import opened Stats

  /**
    The calibration sheet after `groupby(RSSI)[Distancia].apply(list)`: every
    measured RSSI maps to the distances measured at it. Reading the sheet is
    not modelled; the table is given.
  */
  type Table = map<int, seq<real>>

  /** Grouping never produces an empty bucket. */
  predicate WellFormed(table: Table)
  {
    forall k :: k in table ==> |table[k]| > 0
  }

  predicate UpperBound(m: int, s: set<int>)
  {
    forall x :: x in s ==> x <= m
  }

  predicate LowerBound(m: int, s: set<int>)
  {
    forall x :: x in s ==> m <= x
  }

  lemma HasElement(s: set<int>)
    requires s != {}
    ensures exists y :: y in s
  {
    if forall y :: y !in s {
      assert false;
    }
  }

  lemma {:induction false} MaxExists(s: set<int>)
    requires s != {}
    ensures exists m :: m in s && UpperBound(m, s)
  {
    HasElement(s);
    var y :| y in s;
    if s == {y} {
      assert UpperBound(y, s);
    } else {
      MaxExists(s - {y});
      var m :| m in s - {y} && UpperBound(m, s - {y});
      var b := if y > m then y else m;
      forall x | x in s
        ensures x <= b
      {
        if x != y {
          assert x in s - {y};
        }
      }
      assert b in s && UpperBound(b, s);
    }
  }

  lemma {:induction false} MinExists(s: set<int>)
    requires s != {}
    ensures exists m :: m in s && LowerBound(m, s)
  {
    HasElement(s);
    var y :| y in s;
    if s == {y} {
      assert LowerBound(y, s);
    } else {
      MinExists(s - {y});
      var m :| m in s - {y} && LowerBound(m, s - {y});
      var b := if y < m then y else m;
      forall x | x in s
        ensures b <= x
      {
        if x != y {
          assert x in s - {y};
        }
      }
      assert b in s && LowerBound(b, s);
    }
  }

  /** The strongest RSSI of a non-empty set of keys. */
  function SetMax(s: set<int>): (m: int)
    requires s != {}
    ensures m in s && forall x :: x in s ==> x <= m
  {
    MaxExists(s);
    var m :| m in s && UpperBound(m, s);
    m
  }

  /** The weakest RSSI of a non-empty set of keys. */
  function SetMin(s: set<int>): (m: int)
    requires s != {}
    ensures m in s && forall x :: x in s ==> m <= x
  {
    MinExists(s);
    var m :| m in s && LowerBound(m, s);
    m
  }

  /** `sorted(keys, reverse=True)`: the keys, strongest first. */
  function SortedDesc(s: set<int>): (r: seq<int>)
    ensures |r| == |s|
    ensures forall x :: x in r <==> x in s
    ensures forall i, j :: 0 <= i < j < |r| ==> r[i] > r[j]
    decreases s
  {
    if s == {} then []
    else
      var m := SetMax(s);
      [m] + SortedDesc(s - {m})
  }

  /** `min(sorted_rssi)`. */
  function SeqMin(s: seq<int>): (m: int)
    requires |s| > 0
    ensures m in s && forall x :: x in s ==> m <= x
  {
    if |s| == 1 then s[0]
    else
      var rest := SeqMin(s[1..]);
      assert forall x :: x in s ==> x == s[0] || x in s[1..];
      if s[0] <= rest then s[0] else rest
  }

  /**
    The lookup rule the loop of `rssi_to_dist` implements. A signal at least as
    strong as the strongest calibrated RSSI uses that bucket; a signal equal to
    a calibrated RSSI uses its own bucket; every other signal, including one
    lying between two calibrated values, uses the weakest bucket. An empty
    table gives `None`.
  */
  function Lookup(table: Table, signal: int): Option<real>
    requires WellFormed(table)
  {
    if table == map[] then None else Some(Median(table[LookupKey(table, signal)]))
  }

  /** `keys` lists the table's calibrated RSSIs, strongest first, each once. */
  ghost predicate DescKeys(table: Table, keys: seq<int>)
  {
    && (forall x :: x in keys <==> x in table)
    && forall i, j :: 0 <= i < j < |keys| ==> keys[i] > keys[j]
  }

  /** The calibrated RSSI whose bucket `Lookup` takes. */
  function LookupKey(table: Table, signal: int): (k: int)
    requires table != map[]
    ensures k in table
  {
    var strongest := SetMax(table.Keys);
    if signal >= strongest then strongest
    else if signal in table then signal
    else SetMin(table.Keys)
  }

  /**
    `rssi_to_dist`: walks the keys strongest first and returns at the first one
    the signal reaches; on the first key that it does not reach, a signal that
    is not itself a key falls back to the weakest bucket.
  */
  method RssiToDist(table: Table, signal: int) returns (r: Option<real>)
    requires WellFormed(table)
    ensures r == Lookup(table, signal)
  {
    var sortedRssi := SortedDesc(table.Keys);
    assert DescKeys(table, sortedRssi);
    var i := 0;
    while i < |sortedRssi|
      invariant 0 <= i <= |sortedRssi|
      invariant forall j :: 0 <= j < i ==> signal < sortedRssi[j]
      invariant i > 0 ==> signal in table && signal in sortedRssi[i..]
    {
      var rssi := sortedRssi[i];
      assert rssi in table;
      if signal >= rssi {
        ReachedKey(table, sortedRssi, i, signal);
        return Some(Median(table[rssi]));
      }
      if signal !in sortedRssi {
        var fakeSignal := SeqMin(sortedRssi);
        FallsBack(table, sortedRssi, i, signal);
        return Some(Median(table[fakeSignal]));
      }
      StillAhead(sortedRssi, i, signal);
      i := i + 1;
    }
    return None;
  }

  /** The loop stops at the first key the signal reaches: that key is the strongest one, or the signal itself. */
  lemma ReachedKey(table: Table, keys: seq<int>, i: nat, signal: int)
    requires table != map[] && DescKeys(table, keys) && i < |keys|
    requires forall j :: 0 <= j < i ==> signal < keys[j]
    requires i > 0 ==> signal in table
    requires signal >= keys[i]
    ensures LookupKey(table, signal) == keys[i]
  {
    HeadIsMax(table, keys);
    if i > 0 {
      var p :| 0 <= p < |keys| && keys[p] == signal;
      assert !(p < i);
      DescOrder(keys, i, p);
    }
  }

  /** In a strictly descending sequence, an element at least as large as `keys[i]` comes no later. */
  lemma DescOrder(keys: seq<int>, i: nat, p: nat)
    requires forall a, b :: 0 <= a < b < |keys| ==> keys[a] > keys[b]
    requires i < |keys| && p < |keys| && keys[p] >= keys[i]
    ensures p <= i
  {
  }

  /** The strongest calibrated RSSI comes first. */
  lemma HeadIsMax(table: Table, keys: seq<int>)
    requires table != map[] && DescKeys(table, keys) && keys != []
    ensures keys[0] == SetMax(table.Keys)
  {
    assert keys[0] in keys;
    var top := SetMax(table.Keys);
    assert top in keys;
    var q :| 0 <= q < |keys| && keys[q] == top;
    DescOrder(keys, 0, q);
  }

  /** A signal below the current key that is no key at all takes the weakest bucket. */
  lemma FallsBack(table: Table, keys: seq<int>, i: nat, signal: int)
    requires table != map[] && DescKeys(table, keys) && i < |keys|
    requires forall j :: 0 <= j < i ==> signal < keys[j]
    requires signal < keys[i] && signal !in keys
    ensures LookupKey(table, signal) == SeqMin(keys)
  {
    HeadIsMax(table, keys);
    assert signal !in table;
    var a, b := SeqMin(keys), SetMin(table.Keys);
    assert b in keys && a in table;
    assert a <= b && b <= a;
  }

  /** A key the loop has not reached yet lies beyond the current, stronger position. */
  lemma StillAhead(keys: seq<int>, i: nat, signal: int)
    requires i < |keys| && signal in keys && signal < keys[i]
    requires forall j :: 0 <= j < i ==> signal < keys[j]
    ensures signal in keys[i + 1..]
  {
    var p :| 0 <= p < |keys| && keys[p] == signal;
    assert keys[i + 1..][p - i - 1] == signal;
  }

  /** The lookup fails exactly when there is no calibration data at all. */
  lemma LookupFailsOnlyWhenEmpty(table: Table, signal: int)
    requires WellFormed(table)
    ensures Lookup(table, signal) == None <==> table == map[]
  {
  }

  /** With calibration data, the estimate is always the median of one of the buckets. */
  lemma LookupIsBucketMedian(table: Table, signal: int)
    requires WellFormed(table) && table != map[]
    ensures exists k :: k in table && Lookup(table, signal) == Some(Median(table[k]))
  {
  }

  /** The estimate never leaves the range of distances that were measured. */
  lemma LookupWithinMeasured(table: Table, signal: int, lo: real, hi: real)
    requires WellFormed(table) && table != map[]
    requires forall k, i :: k in table && 0 <= i < |table[k]| ==> lo <= table[k][i] <= hi
    ensures Lookup(table, signal).Some?
    ensures lo <= Lookup(table, signal).value <= hi
  {
    LookupIsBucketMedian(table, signal);
    var k :| k in table && Lookup(table, signal) == Some(Median(table[k]));
    MedianBetween(table[k], lo, hi);
  }

  /**
    A signal strictly between two calibrated values that is not calibrated
    itself gets the weakest bucket's distance, not that of its nearest
    neighbour.
  */
  lemma BetweenKeysFallsToWeakest(table: Table, signal: int, below: int, above: int)
    requires WellFormed(table)
    requires below in table && above in table && below < signal < above
    requires signal !in table
    ensures Lookup(table, signal) == Some(Median(table[SetMin(table.Keys)]))
  {
  }

  /** The worked case: {-40: [1.0, 1.2], -30: [3.0]} at -35 gives 1.1. */
  lemma LookupExample()
    ensures Lookup(map[-40 := [1.0, 1.2], -30 := [3.0]], -35) == Some(1.1)
  {
    var table := map[-40 := [1.0, 1.2], -30 := [3.0]];
    assert table.Keys == {-40, -30};
    assert SetMax(table.Keys) == -30;
    assert SetMin(table.Keys) == -40;
    assert Sort([1.2]) == [1.2];
    assert [1.0, 1.2][1..] == [1.2];
    assert Sort([1.0, 1.2]) == Insert(1.0, [1.2]) == [1.0, 1.2];
  }
}
