/**
  The bookkeeping of backend.py's `AccessPoint` as functions on client values:
  which MACs become new clients, how the steady pass updates the rest, which
  departed clients feed the running averages, and the expected wait of each
  client. The `AccessPoint` class is proved against these.
*/
module BackendQueue {
  import opened Wrappers
  import opened Stats
  import opened Deque
  import opened Tracking
  import opened BackendCalibration
  import opened BackendBuffer
  import opened BackendClient

  /** How many of the latest clients the averages are taken over. */
  const AVG_NUMBER: nat := 3
  /** Metres of queue per person. */
  const DIST_TO_PEOPLE_RATIO: real := 0.6

  /** Client values produced by a pass, and the desk flag after it. */
  datatype Pass = Pass(views: seq<ClientView>, busy: bool)

  /** The snapshot's MACs that no examined-and-kept client carries, in snapshot order. */
  function NewMacs(macs: seq<Mac>, regulars: seq<Mac>): (r: seq<Mac>)
    ensures forall m :: m in r <==> m in macs && m !in regulars
    ensures |r| <= |macs|
    decreases |macs|
  {
    if macs == [] then []
    else
      var rest := NewMacs(macs[..|macs| - 1], regulars);
      assert macs == macs[..|macs| - 1] + [macs[|macs| - 1]];
      if macs[|macs| - 1] in regulars then rest else rest + [macs[|macs| - 1]]
  }

  /**
    The arrival pass: each MAC of the snapshot, in order, that is not a
    regular becomes a new client, updated at once with its reading and elapsed
    time 0; the desk flag threads through these updates.
  */
  function Arrivals(macs: seq<Mac>, rssi: map<Mac, int>, regulars: seq<Mac>, busy: bool, table: Table): Pass
    requires Calibrated(table)
    requires forall m :: m in macs ==> m in rssi
    decreases |macs|
  {
    if macs == [] then Pass([], busy)
    else
      var p := Arrivals(macs[..|macs| - 1], rssi, regulars, busy, table);
      var m := macs[|macs| - 1];
      if m in regulars then p
      else
        var (v, b) := Updated(NewView(m), p.busy, rssi[m], 0.0, table);
        Pass(p.views + [v], b)
  }

  /** One more MAC of the snapshot through the arrival pass. */
  lemma ArrivalsNext(macs: seq<Mac>, k: nat, rssi: map<Mac, int>, regulars: seq<Mac>, busy: bool, table: Table)
    requires Calibrated(table)
    requires k < |macs| && forall m :: m in macs ==> m in rssi
    ensures forall m :: m in macs[..k] ==> m in rssi
    ensures var p := Arrivals(macs[..k], rssi, regulars, busy, table);
      Arrivals(macs[..k + 1], rssi, regulars, busy, table) ==
        if macs[k] in regulars then p
        else
          var (v, b) := Updated(NewView(macs[k]), p.busy, rssi[macs[k]], 0.0, table);
          Pass(p.views + [v], b)
    ensures NewMacs(macs[..k + 1], regulars) ==
      if macs[k] in regulars then NewMacs(macs[..k], regulars) else NewMacs(macs[..k], regulars) + [macs[k]]
  {
    assert macs[..k + 1][..k] == macs[..k];
  }

  /**
    The steady pass over the active list, front to back: a client whose MAC is
    missing from the snapshot stops the pass with a KeyError; a client whose
    MAC arrived in this cycle is left alone; every other client is updated with
    its reading and the elapsed time.
  */
  function Steady(vs: seq<ClientView>, rssi: map<Mac, int>, newMacs: seq<Mac>, busy: bool, timePassed: real, table: Table): Result<Pass>
    requires Calibrated(table)
    decreases |vs|
  {
    if vs == [] then Success(Pass([], busy))
    else
      match Steady(vs[..|vs| - 1], rssi, newMacs, busy, timePassed, table)
      case Failure(e) => Failure(e)
      case Success(p) => SteadyRound(p, vs[|vs| - 1], rssi, newMacs, timePassed, table)
  }

  /** The steady pass on one more client `v`, after the pass `p` over the clients before it. */
  function SteadyRound(p: Pass, v: ClientView, rssi: map<Mac, int>, newMacs: seq<Mac>, timePassed: real, table: Table): Result<Pass>
    requires Calibrated(table)
  {
    if v.mac !in rssi then Failure(MissingStation)
    else if v.mac in newMacs then Success(Pass(p.views + [v], p.busy))
    else
      var (w, b) := Updated(v, p.busy, rssi[v.mac], timePassed, table);
      Success(Pass(p.views + [w], b))
  }

  /** A round fails exactly on a client whose MAC the snapshot lacks. */
  lemma SteadyRoundFails(p: Pass, v: ClientView, rssi: map<Mac, int>, newMacs: seq<Mac>, timePassed: real, table: Table)
    requires Calibrated(table)
    ensures SteadyRound(p, v, rssi, newMacs, timePassed, table).Failure? <==> v.mac !in rssi
  {
  }

  /** One more client through the steady pass. */
  lemma SteadyNext(vs: seq<ClientView>, k: nat, rssi: map<Mac, int>, newMacs: seq<Mac>, busy: bool, timePassed: real, table: Table)
    requires Calibrated(table) && k < |vs|
    ensures Steady(vs[..k + 1], rssi, newMacs, busy, timePassed, table) ==
      match Steady(vs[..k], rssi, newMacs, busy, timePassed, table)
      case Failure(e) => Failure(e)
      case Success(p) => SteadyRound(p, vs[k], rssi, newMacs, timePassed, table)
  {
    assert vs[..k + 1][..k] == vs[..k];
  }

  /**
    The steady loop's step on values: `before` is the list of client values
    after the first `k` rounds, `after` the list after round `k`.
  */
  lemma SteadyStep(vs: seq<ClientView>, k: nat, before: seq<ClientView>, after: seq<ClientView>, busy0: bool,
                   busyBefore: bool, busyAfter: bool, rssi: map<Mac, int>, newMacs: seq<Mac>, timePassed: real, table: Table)
    requires Calibrated(table) && k < |vs| == |before| == |after| && vs[k].mac in rssi
    requires Steady(vs[..k], rssi, newMacs, busy0, timePassed, table) == Success(Pass(before[..k], busyBefore))
    requires before[k..] == vs[k..]
    requires vs[k].mac in newMacs ==> after == before && busyAfter == busyBefore
    requires vs[k].mac !in newMacs ==>
      && (after[k], busyAfter) == Updated(before[k], busyBefore, rssi[vs[k].mac], timePassed, table)
      && after == before[k := after[k]]
    ensures Steady(vs[..k + 1], rssi, newMacs, busy0, timePassed, table) == Success(Pass(after[..k + 1], busyAfter))
    ensures after[k + 1..] == vs[k + 1..]
  {
    SteadyNext(vs, k, rssi, newMacs, busy0, timePassed, table);
    StepSeqs(vs, k, before, after);
    var p := Pass(before[..k], busyBefore);
    assert SteadyRound(p, vs[k], rssi, newMacs, timePassed, table) == Success(Pass(before[..k] + [after[k]], busyAfter));
  }

  /** The list shapes of one step of the steady loop, which changes at most element `k`. */
  lemma StepSeqs(vs: seq<ClientView>, k: nat, before: seq<ClientView>, after: seq<ClientView>)
    requires k < |vs| == |before| == |after| && before[k..] == vs[k..]
    requires after == before || after == before[k := after[k]]
    ensures before[k] == vs[k] && after[k + 1..] == vs[k + 1..]
    ensures after[..k + 1] == before[..k] + [after[k]]
  {
    assert before[k] == before[k..][0];
    assert after[k + 1..] == before[k + 1..] == before[k..][1..];
  }

  /** The steady loop stopping at a missing MAC. */
  lemma SteadyStops(vs: seq<ClientView>, k: nat, before: seq<ClientView>, busy0: bool, busyBefore: bool,
                    rssi: map<Mac, int>, newMacs: seq<Mac>, timePassed: real, table: Table)
    requires Calibrated(table) && k < |vs| == |before| && before[k].mac !in rssi
    requires Steady(vs[..k], rssi, newMacs, busy0, timePassed, table) == Success(Pass(before[..k], busyBefore))
    requires before[k..] == vs[k..]
    ensures Steady(vs[..k + 1], rssi, newMacs, busy0, timePassed, table).Failure?
  {
    SteadyNext(vs, k, rssi, newMacs, busy0, timePassed, table);
    assert before[k] == before[k..][0] == vs[k];
  }

  /** The steady loop running to the end of the list. */
  lemma SteadyComplete(vs: seq<ClientView>, after: seq<ClientView>, rssi: map<Mac, int>, newMacs: seq<Mac>,
                       busy0: bool, busy: bool, timePassed: real, table: Table)
    requires Calibrated(table) && |vs| == |after|
    requires Steady(vs[..|vs|], rssi, newMacs, busy0, timePassed, table) == Success(Pass(after[..|vs|], busy))
    ensures Steady(vs, rssi, newMacs, busy0, timePassed, table) == Success(Pass(after, busy))
  {
    assert vs[..|vs|] == vs && after[..|vs|] == after;
  }

  /** A steady pass that fails on a prefix of the active list fails on the whole list. */
  lemma SteadyFailureExtends(vs: seq<ClientView>, k: nat, rssi: map<Mac, int>, newMacs: seq<Mac>, busy: bool, timePassed: real, table: Table)
    requires Calibrated(table) && k <= |vs|
    requires Steady(vs[..k], rssi, newMacs, busy, timePassed, table).Failure?
    ensures Steady(vs, rssi, newMacs, busy, timePassed, table).Failure?
  {
    SteadyFailsIffMissing(vs[..k], rssi, newMacs, busy, timePassed, table);
    var i :| 0 <= i < k && vs[..k][i].mac !in rssi;
    SteadyFailsIffMissing(vs, rssi, newMacs, busy, timePassed, table);
    assert vs[i].mac !in rssi;
  }

  /** Which time counter an average is taken of. */
  datatype Counter = WaitingCounter | ServiceCounter

  function CounterOf(v: ClientView, k: Counter): real
  {
    match k
    case WaitingCounter => v.waiting
    case ServiceCounter => v.service
  }

  /** The clients an average is taken over: the latest past clients, or the latest active ones while nobody has left. */
  function Window(past: seq<ClientView>, active: seq<ClientView>): seq<ClientView>
  {
    if |past| > 0 then LastReversed(past, AVG_NUMBER) else LastReversed(active, AVG_NUMBER)
  }

  function CounterValues(vs: seq<ClientView>, k: Counter): (r: seq<real>)
    ensures |r| == |vs|
    ensures forall i :: 0 <= i < |vs| ==> r[i] == CounterOf(vs[i], k)
  {
    seq(|vs|, i requires 0 <= i < |vs| => CounterOf(vs[i], k))
  }

  /** `statistics.mean` of the window's counters; it raises on an empty window. */
  function WindowAverage(past: seq<ClientView>, active: seq<ClientView>, k: Counter): Result<real>
  {
    var w := Window(past, active);
    if |w| == 0 then Failure(NoData) else Success(Mean(CounterValues(w, k)))
  }

  /** People ahead of a client at `distance`: the distance over the per-person spacing, rounded half to even. */
  function PeopleAhead(distance: real): int
  {
    RoundHalfEven(distance / DIST_TO_PEOPLE_RATIO)
  }

  /** A client's expected wait: the people ahead times the average service time. */
  function ExpectedWait(distance: real, avgService: real): real
  {
    PeopleAhead(distance) as real * avgService
  }

  /** Every client with its expected wait set from its distance and the average service time. */
  function WithExpected(vs: seq<ClientView>, avgService: real): (r: seq<ClientView>)
    ensures |r| == |vs|
    ensures forall i :: 0 <= i < |vs| ==> r[i] == vs[i].(expected := ExpectedWait(vs[i].distance, avgService))
  {
    seq(|vs|, i requires 0 <= i < |vs| => vs[i].(expected := ExpectedWait(vs[i].distance, avgService)))
  }

  /** The desk flag is set exactly when some client is in service, and at most one is. */
  predicate SingleServer(servingElsewhere: bool, p: Phase)
  {
    (p.busy <==> servingElsewhere || p.state == Service) && !(servingElsewhere && p.state == Service)
  }

  /**
    One client update keeps the single-server invariant, whatever the other
    clients do not change: a client only enters service through a free desk and
    frees it on leaving.
  */
  lemma StepKeepsSingleServer(servingElsewhere: bool, p: Phase, distance: real, timePassed: real)
    requires SingleServer(servingElsewhere, p)
    ensures SingleServer(servingElsewhere, Step(p, distance, timePassed))
  {
  }

  /** The same for a whole `update_client`: new reading, new distance, one step. */
  lemma UpdatedKeepsSingleServer(servingElsewhere: bool, v: ClientView, busy: bool, rssi: int, timePassed: real, table: Table)
    requires Calibrated(table) && SingleServer(servingElsewhere, v.PhaseWith(busy))
    ensures var (w, b) := Updated(v, busy, rssi, timePassed, table); SingleServer(servingElsewhere, w.PhaseWith(b))
  {
    var samples := Added(v.samples, rssi, CLIENT_RSSI_BUFFER_SIZE);
    StepKeepsSingleServer(servingElsewhere, v.PhaseWith(busy), Lookup(table, FloorMedian(samples)).value, timePassed);
  }

  /** `v` is a client created for `mac` and updated once with the reading `r`. */
  ghost predicate FreshFrom(v: ClientView, mac: Mac, r: int, table: Table)
    requires Calibrated(table)
  {
    && v.mac == mac
    && v.samples == Repeat(r, CLIENT_RSSI_BUFFER_SIZE)
    && v.distance == Lookup(table, r).value
    && v.waiting == 0.0 && v.service == 0.0 && v.leaving == 0.0
    && v.expected == 0.0
    && v.state != Leaving
  }

  /** The clients `vs` were created for `newMacs`, in order, each updated once with its reading. */
  ghost predicate ArrivedFor(vs: seq<ClientView>, newMacs: seq<Mac>, rssi: map<Mac, int>, table: Table)
    requires Calibrated(table)
  {
    && |vs| == |newMacs|
    && forall i :: 0 <= i < |vs| ==> newMacs[i] in rssi && FreshFrom(vs[i], newMacs[i], rssi[newMacs[i]], table)
  }

  /**
    Every new client carries a MAC of the snapshot that is no regular, in
    snapshot order; it starts with a full buffer of its reading, the distance
    calibrated for it, zero counters, and is not leaving.
  */
  lemma {:induction false} ArrivalsShape(macs: seq<Mac>, rssi: map<Mac, int>, regulars: seq<Mac>, busy: bool, table: Table)
    requires Calibrated(table)
    requires forall m :: m in macs ==> m in rssi
    ensures ArrivedFor(Arrivals(macs, rssi, regulars, busy, table).views, NewMacs(macs, regulars), rssi, table)
    decreases |macs|
  {
    if macs != [] {
      var init, m := macs[..|macs| - 1], macs[|macs| - 1];
      assert forall x :: x in init ==> x in macs;
      ArrivalsShape(init, rssi, regulars, busy, table);
      var p := Arrivals(init, rssi, regulars, busy, table);
      if m !in regulars {
        FirstUpdate(m, p.busy, rssi[m], table);
        var v := Updated(NewView(m), p.busy, rssi[m], 0.0, table).0;
        assert FreshFrom(v, m, rssi[m], table);
        assert Arrivals(macs, rssi, regulars, busy, table).views == p.views + [v];
        assert NewMacs(macs, regulars) == NewMacs(init, regulars) + [m];
        ArrivedStep(p.views, v, NewMacs(init, regulars), m, rssi, table);
      }
    }
  }

  /** One more fresh client extends the arrivals. */
  lemma ArrivedStep(vs: seq<ClientView>, v: ClientView, newMacs: seq<Mac>, m: Mac, rssi: map<Mac, int>, table: Table)
    requires Calibrated(table) && ArrivedFor(vs, newMacs, rssi, table)
    requires m in rssi && FreshFrom(v, m, rssi[m], table)
    ensures ArrivedFor(vs + [v], newMacs + [m], rssi, table)
  {
    var after, macsAfter := vs + [v], newMacs + [m];
    forall i | 0 <= i < |vs|
      ensures after[i] == vs[i] && macsAfter[i] == newMacs[i]
    {
    }
  }

  /**
    A MAC in the snapshot that no examined-and-kept client carries gets a new
    client, even when a client with that MAC was just moved to the past list
    (a leaving client still in range comes back as a new, waiting one).
  */
  lemma UnclaimedMacArrives(macs: seq<Mac>, rssi: map<Mac, int>, regulars: seq<Mac>, busy: bool, table: Table, m: Mac)
    requires Calibrated(table)
    requires forall x :: x in macs ==> x in rssi
    requires m in macs && m !in regulars
    ensures var vs := Arrivals(macs, rssi, regulars, busy, table).views;
      exists i :: 0 <= i < |vs| && vs[i].mac == m && vs[i].state != Leaving
  {
    ArrivalsShape(macs, rssi, regulars, busy, table);
    var nm := NewMacs(macs, regulars);
    var i :| 0 <= i < |nm| && nm[i] == m;
    assert Arrivals(macs, rssi, regulars, busy, table).views[i].mac == m;
  }

  /** One more client makes the steady pass fail exactly when the pass before it failed or its MAC is missing. */
  lemma SteadyFailsStep(vs: seq<ClientView>, rssi: map<Mac, int>, newMacs: seq<Mac>, busy: bool, timePassed: real, table: Table)
    requires Calibrated(table) && vs != []
    ensures Steady(vs, rssi, newMacs, busy, timePassed, table).Failure? <==>
      Steady(vs[..|vs| - 1], rssi, newMacs, busy, timePassed, table).Failure? || vs[|vs| - 1].mac !in rssi
  {
    var s := Steady(vs[..|vs| - 1], rssi, newMacs, busy, timePassed, table);
    if s.Success? {
      SteadyRoundFails(s.value, vs[|vs| - 1], rssi, newMacs, timePassed, table);
    }
  }

  /** The steady pass fails exactly when some active client's MAC is missing from the snapshot. */
  lemma {:induction false} SteadyFailsIffMissing(vs: seq<ClientView>, rssi: map<Mac, int>, newMacs: seq<Mac>, busy: bool, timePassed: real, table: Table)
    requires Calibrated(table)
    ensures Steady(vs, rssi, newMacs, busy, timePassed, table).Failure? <==> exists i :: 0 <= i < |vs| && vs[i].mac !in rssi
    decreases |vs|
  {
    if vs != [] {
      var init := vs[..|vs| - 1];
      SteadyFailsIffMissing(init, rssi, newMacs, busy, timePassed, table);
      SteadyFailsStep(vs, rssi, newMacs, busy, timePassed, table);
      MissingStep(vs, init, rssi);
    }
  }

  lemma MissingStep(vs: seq<ClientView>, init: seq<ClientView>, rssi: map<Mac, int>)
    requires vs != [] && init == vs[..|vs| - 1]
    ensures (exists i :: 0 <= i < |vs| && vs[i].mac !in rssi) <==>
      (exists i :: 0 <= i < |init| && init[i].mac !in rssi) || vs[|vs| - 1].mac !in rssi
  {
    if exists i :: 0 <= i < |init| && init[i].mac !in rssi {
      var i :| 0 <= i < |init| && init[i].mac !in rssi;
      assert vs[i] == init[i];
    }
    if exists i :: 0 <= i < |vs| && vs[i].mac !in rssi {
      var i :| 0 <= i < |vs| && vs[i].mac !in rssi;
      if i < |init| {
        assert init[i] == vs[i];
      }
    }
  }

  /**
    A steady loop that met a missing MAC at `j`, with `after` the list it left:
    the pass raised, `j` is the first missing MAC, and `after` holds the
    clients before it updated and the rest untouched.
  */
  lemma SteadyStoppedAt(vs: seq<ClientView>, j: nat, after: seq<ClientView>, busy0: bool, busy: bool,
                        rssi: map<Mac, int>, newMacs: seq<Mac>, timePassed: real, table: Table)
    requires Calibrated(table) && j < |vs| == |after| && vs[j].mac !in rssi
    requires Steady(vs[..j], rssi, newMacs, busy0, timePassed, table) == Success(Pass(after[..j], busy))
    requires after[j..] == vs[j..]
    ensures Steady(vs, rssi, newMacs, busy0, timePassed, table).Failure?
    ensures FirstMissing(vs, rssi) == j
  {
    assert after[j] == after[j..][0];
    SteadyStops(vs, j, after, busy0, busy, rssi, newMacs, timePassed, table);
    SteadyFailureExtends(vs, j + 1, rssi, newMacs, busy0, timePassed, table);
    SteadyStopsAtFirstMissing(vs, j, rssi, newMacs, busy0, timePassed, table);
  }

  /** The position of the first client whose MAC the snapshot lacks, `|vs|` when every one is there. */
  function FirstMissing(vs: seq<ClientView>, rssi: map<Mac, int>): (j: nat)
    ensures j <= |vs|
    ensures forall i :: 0 <= i < j ==> vs[i].mac in rssi
    ensures j < |vs| ==> vs[j].mac !in rssi
    decreases |vs|
  {
    if vs == [] || vs[0].mac !in rssi then 0
    else
      var j := 1 + FirstMissing(vs[1..], rssi);
      assert forall i :: 1 <= i < |vs| ==> vs[i] == vs[1..][i - 1];
      j
  }

  /**
    A steady pass that got through the first `j` clients and meets a missing
    MAC at `j` stops at the first missing MAC.
  */
  lemma SteadyStopsAtFirstMissing(vs: seq<ClientView>, j: nat, rssi: map<Mac, int>, newMacs: seq<Mac>, busy: bool,
                                  timePassed: real, table: Table)
    requires Calibrated(table) && j < |vs| && vs[j].mac !in rssi
    requires Steady(vs[..j], rssi, newMacs, busy, timePassed, table).Success?
    ensures FirstMissing(vs, rssi) == j
  {
    SteadyFailsIffMissing(vs[..j], rssi, newMacs, busy, timePassed, table);
    forall i | 0 <= i < j
      ensures vs[i].mac in rssi
    {
      assert vs[..j][i] == vs[i];
    }
  }

  /**
    `out` is what the steady pass made of `vs`: the same clients in the same
    places, those that arrived in this cycle untouched, no state moved back.
  */
  ghost predicate KeptInPlace(vs: seq<ClientView>, out: seq<ClientView>, newMacs: seq<Mac>)
  {
    && |out| == |vs|
    && forall i :: 0 <= i < |vs| ==>
      && out[i].mac == vs[i].mac
      && (vs[i].mac in newMacs ==> out[i] == vs[i])
      && Rank(out[i].state) >= Rank(vs[i].state)
  }

  /**
    A successful steady pass keeps every client in its place and its MAC,
    leaves the clients that arrived in this cycle untouched, and never moves a
    client's state backwards.
  */
  lemma {:induction false} SteadyShape(vs: seq<ClientView>, rssi: map<Mac, int>, newMacs: seq<Mac>, busy: bool, timePassed: real, table: Table)
    requires Calibrated(table)
    requires Steady(vs, rssi, newMacs, busy, timePassed, table).Success?
    ensures KeptInPlace(vs, Steady(vs, rssi, newMacs, busy, timePassed, table).value.views, newMacs)
    decreases |vs|
  {
    if vs != [] {
      var init := vs[..|vs| - 1];
      SteadyShape(init, rssi, newMacs, busy, timePassed, table);
      var v := vs[|vs| - 1];
      var p := Steady(init, rssi, newMacs, busy, timePassed, table).value;
      var r := SteadyRound(p, v, rssi, newMacs, timePassed, table);
      assert Steady(vs, rssi, newMacs, busy, timePassed, table) == r;
      RoundShape(p, v, rssi, newMacs, timePassed, table);
      KeptStep(vs, p.views, r.value.views, newMacs);
    }
  }

  /** One more client, kept in place, extends a pass kept in place. */
  lemma KeptStep(vs: seq<ClientView>, before: seq<ClientView>, out: seq<ClientView>, newMacs: seq<Mac>)
    requires vs != [] && KeptInPlace(vs[..|vs| - 1], before, newMacs)
    requires |out| == |before| + 1 && out[..|before|] == before && out[|before|].mac == vs[|vs| - 1].mac
    requires vs[|vs| - 1].mac in newMacs ==> out[|before|] == vs[|vs| - 1]
    requires Rank(out[|before|].state) >= Rank(vs[|vs| - 1].state)
    ensures KeptInPlace(vs, out, newMacs)
  {
    var init := vs[..|vs| - 1];
    forall i | 0 <= i < |init|
      ensures out[i] == before[i] && vs[i] == init[i]
    {
      assert out[..|before|][i] == out[i];
    }
  }

  /** A round on a reported client appends one value with the same MAC, never moved backwards. */
  lemma RoundShape(p: Pass, v: ClientView, rssi: map<Mac, int>, newMacs: seq<Mac>, timePassed: real, table: Table)
    requires Calibrated(table) && v.mac in rssi
    ensures var r := SteadyRound(p, v, rssi, newMacs, timePassed, table);
      && r.Success? && |r.value.views| == |p.views| + 1 && r.value.views[..|p.views|] == p.views
      && r.value.views[|p.views|].mac == v.mac
      && (v.mac in newMacs ==> r.value.views[|p.views|] == v)
      && Rank(r.value.views[|p.views|].state) >= Rank(v.state)
  {
    if v.mac !in newMacs {
      NeverBackwards(v.PhaseWith(p.busy), Lookup(table, FloorMedian(Added(v.samples, rssi[v.mac], CLIENT_RSSI_BUFFER_SIZE))).value, timePassed);
    }
  }

  /**
    The window is never empty while someone has left or is active, and the
    average then lies between the smallest and the largest counter in it.
  */
  lemma WindowAverageBounds(past: seq<ClientView>, active: seq<ClientView>, k: Counter, lo: real, hi: real)
    requires forall v :: v in Window(past, active) ==> lo <= CounterOf(v, k) <= hi
    ensures WindowAverage(past, active, k).Failure? <==> past == [] && active == []
    ensures WindowAverage(past, active, k).Success? ==> lo <= WindowAverage(past, active, k).value <= hi
  {
    var w := Window(past, active);
    if |w| > 0 {
      var xs := CounterValues(w, k);
      forall i | 0 <= i < |xs|
        ensures lo <= xs[i] <= hi
      {
        assert w[i] in w;
      }
      MeanBetween(xs, lo, hi);
    }
  }

  /** Once somebody has left, only the (at most three) latest past clients count, the newest first. */
  lemma WindowIsLatestPast(past: seq<ClientView>, active: seq<ClientView>)
    requires |past| > 0
    ensures |Window(past, active)| == if |past| < AVG_NUMBER then |past| else AVG_NUMBER
    ensures Window(past, active)[0] == past[|past| - 1]
    ensures forall v :: v in Window(past, active) ==> v in past
  {
  }

  /** Farther from the counter never means a shorter expected wait, and no wait is negative. */
  lemma ExpectedWaitMonotone(near: real, far: real, avgService: real)
    requires 0.0 <= near <= far
    requires avgService >= 0.0
    ensures 0.0 <= ExpectedWait(near, avgService) <= ExpectedWait(far, avgService)
  {
    var a, b := PeopleAhead(near), PeopleAhead(far);
    assert near / DIST_TO_PEOPLE_RATIO <= far / DIST_TO_PEOPLE_RATIO;
    assert 0 <= a <= b;
    assert (b as real - a as real) * avgService >= 0.0;
    assert a as real * avgService >= 0.0;
    assert a as real * avgService <= b as real * avgService;
  }

  /** Two departed clients with service times 30 and 50 give an average service time of 40. */
  lemma WindowAverageExample(a: ClientView, b: ClientView, active: seq<ClientView>)
    requires a.service == 30.0 && b.service == 50.0
    ensures WindowAverage([a, b], active, ServiceCounter) == Success(40.0)
  {
    var xs := CounterValues(Window([a, b], active), ServiceCounter);
    assert xs == [50.0, 30.0];
    assert xs[..1] == [50.0] && [50.0][..0] == [];
    assert Sum(xs) == Sum([50.0]) + 30.0 == 80.0;
  }

  /** Past clients older than the latest three never reach the averages, and neither do active ones. */
  lemma WindowIgnoresOlder(older: seq<ClientView>, latest: seq<ClientView>, active: seq<ClientView>,
                           active': seq<ClientView>, k: Counter)
    requires |latest| >= AVG_NUMBER
    ensures WindowAverage(older + latest, active, k) == WindowAverage(latest, active', k)
  {
    var s := older + latest;
    forall i | 0 <= i < AVG_NUMBER
      ensures Window(s, active)[i] == Window(latest, active')[i]
    {
      assert s[|s| - 1 - i] == latest[|latest| - 1 - i];
    }
    assert Window(s, active) == Window(latest, active');
  }

  /** Setting the expected waits changes no time counter, so neither average moves. */
  lemma WindowIgnoresExpected(past: seq<ClientView>, active: seq<ClientView>, avgService: real, k: Counter)
    ensures WindowAverage(past, WithExpected(active, avgService), k) == WindowAverage(past, active, k)
  {
    var w, w' := Window(past, active), Window(past, WithExpected(active, avgService));
    assert CounterValues(w', k) == CounterValues(w, k);
  }
}
