/**
  A tracked device in backend.py (`Client`): its smoothing buffer, the distance
  estimated from it, and the waiting -> service -> leaving state machine with a
  time counter per state. The module-global `Service_Flag` becomes a
  `ServiceDesk` object that the tracker owns and hands to every update.
*/
module BackendClient {
  import opened Wrappers
  import opened Stats
  import opened Tracking
  import opened BackendCalibration
  import opened BackendBuffer

  const CLIENT_RSSI_BUFFER_SIZE: nat := 10
  /** Closer than this (metres), a waiting client is at the counter. */
  const SERVICE_DIST: real := 1.0
  /** Farther than this (metres), a client being served is leaving. */
  const LEAVING_DIST: real := 2.0

  /** The single-server occupancy flag (`Service_Flag`). */
  class ServiceDesk {
    var busy: bool

    constructor ()
      ensures !busy
    {
      busy := false;
    }
  }

  /** What `__update_state` reads and writes: the state, the three counters and the flag. */
  datatype Phase = Phase(state: State, waiting: real, service: real, leaving: real, busy: bool)

  /** One run of `__update_state` at the given distance, `timePassed` after the previous one. */
  function Step(p: Phase, distance: real, timePassed: real): Phase
  {
    match p.state
    case Waiting =>
      if distance < SERVICE_DIST && !p.busy then p.(state := Service, busy := true)
      else p.(waiting := p.waiting + timePassed)
    case Service =>
      if distance > LEAVING_DIST then p.(state := Leaving, busy := false)
      else p.(service := p.service + timePassed)
    case Leaving =>
      p.(leaving := p.leaving + timePassed)
  }

  /** Everything a client holds, as one value. */
  datatype ClientView = ClientView(
    mac: Mac, distance: real, samples: seq<int>,
    waiting: real, service: real, leaving: real, expected: real, state: State)
  {
    function PhaseWith(busy: bool): Phase
    {
      Phase.Phase(state, waiting, service, leaving, busy)
    }
  }

  /** A client as `Client(mac)` creates it. */
  function NewView(mac: Mac): ClientView
  {
    ClientView(mac, 0.0, [], 0.0, 0.0, 0.0, 0.0, Waiting)
  }

  predicate Calibrated(table: Table)
  {
    WellFormed(table) && table != map[]
  }

  /**
    `update_client(rssi, time_passed)`: the reading goes into the buffer, the
    floored median is looked up in the calibration table, and the state
    machine runs at that distance. Returns the new client and the new flag.
  */
  function Updated(v: ClientView, busy: bool, rssi: int, timePassed: real, table: Table): (ClientView, bool)
    requires Calibrated(table)
  {
    var samples := Added(v.samples, rssi, CLIENT_RSSI_BUFFER_SIZE);
    var distance := Lookup(table, FloorMedian(samples)).value;
    var p := Step(v.PhaseWith(busy), distance, timePassed);
    (v.(distance := distance, samples := samples, waiting := p.waiting, service := p.service,
        leaving := p.leaving, state := p.state), p.busy)
  }

  class Client {
    const mac: Mac
    var distance: real
    const rssiBuffer: RSSIBuffer
    var waitingTime: real
    var serviceTime: real
    var leavingTime: real
    var expectedWaitTime: real
    var state: State

    predicate Valid()
    {
      rssiBuffer.size == CLIENT_RSSI_BUFFER_SIZE
    }

    ghost function View(): ClientView
      reads this, rssiBuffer
    {
      ClientView(mac, distance, rssiBuffer.buffer, waitingTime, serviceTime, leavingTime,
                 expectedWaitTime, state)
    }

    constructor (mac: Mac)
      ensures Valid() && fresh(rssiBuffer)
      ensures View() == NewView(mac)
    {
      this.mac := mac;
      distance := 0.0;
      rssiBuffer := new RSSIBuffer(CLIENT_RSSI_BUFFER_SIZE);
      waitingTime, serviceTime, leavingTime, expectedWaitTime := 0.0, 0.0, 0.0, 0.0;
      state := Waiting;
    }

    /** `__update_rssi`: buffer the reading and re-estimate the distance. */
    method UpdateRssi(rssi: int, table: Table)
      requires Valid() && Calibrated(table)
      modifies this, rssiBuffer
      ensures rssiBuffer.buffer == Added(old(rssiBuffer.buffer), rssi, CLIENT_RSSI_BUFFER_SIZE)
      ensures distance == Lookup(table, FloorMedian(rssiBuffer.buffer)).value
      ensures waitingTime == old(waitingTime) && serviceTime == old(serviceTime)
      ensures leavingTime == old(leavingTime) && expectedWaitTime == old(expectedWaitTime)
      ensures state == old(state)
    {
      rssiBuffer.AddRssi(rssi);
      var median := rssiBuffer.CalculateMedian();
      var d := RssiToDist(table, median.value);
      distance := d.value;
    }

    /** `__update_state`: one step of the state machine against the shared flag. */
    method UpdateState(timePassed: real, desk: ServiceDesk)
      modifies this, desk
      ensures Phase(state, waitingTime, serviceTime, leavingTime, desk.busy)
        == Step(old(Phase(state, waitingTime, serviceTime, leavingTime, desk.busy)), distance, timePassed)
      ensures distance == old(distance) && expectedWaitTime == old(expectedWaitTime)
    {
      match state
      case Waiting =>
        if distance < SERVICE_DIST && !desk.busy {
          state := Service;
          desk.busy := true;
        } else {
          waitingTime := waitingTime + timePassed;
        }
      case Service =>
        if distance > LEAVING_DIST {
          state := Leaving;
          desk.busy := false;
        } else {
          serviceTime := serviceTime + timePassed;
        }
      case Leaving =>
        leavingTime := leavingTime + timePassed;
    }

    /** `update_client`. */
    method UpdateClient(rssi: int, timePassed: real, table: Table, desk: ServiceDesk)
      requires Valid() && Calibrated(table)
      modifies this, rssiBuffer, desk
      ensures (View(), desk.busy) == Updated(old(View()), old(desk.busy), rssi, timePassed, table)
    {
      UpdateRssi(rssi, table);
      UpdateState(timePassed, desk);
    }

    /** `set_expected_time`. */
    method SetExpectedTime(expectedTime: real)
      modifies this
      ensures View() == old(View()).(expected := expectedTime)
    {
      expectedWaitTime := expectedTime;
    }
  }

  /** A waiting client moves to service exactly when it is close enough and the desk is free, and then occupies it. */
  lemma EnterService(p: Phase, distance: real, timePassed: real)
    requires p.state == Waiting
    ensures Step(p, distance, timePassed).state == Service <==> distance < SERVICE_DIST && !p.busy
    ensures Step(p, distance, timePassed).state == Service ==> Step(p, distance, timePassed).busy
    ensures Step(p, distance, timePassed).state != Leaving
  {
  }

  /** A client being served leaves exactly when it is farther than LEAVING_DIST, and then frees the desk. */
  lemma LeaveService(p: Phase, distance: real, timePassed: real)
    requires p.state == Service
    ensures Step(p, distance, timePassed).state == Leaving <==> distance > LEAVING_DIST
    ensures Step(p, distance, timePassed).state == Leaving ==> !Step(p, distance, timePassed).busy
    ensures Step(p, distance, timePassed).state != Waiting
  {
  }

  /** One update moves a client at most one state forward, and never out of `leaving`. */
  lemma NeverBackwards(p: Phase, distance: real, timePassed: real)
    ensures Rank(p.state) <= Rank(Step(p, distance, timePassed).state) <= Rank(p.state) + 1
    ensures p.state == Leaving ==> Step(p, distance, timePassed).state == Leaving
  {
  }

  /** The desk flag changes only when a client enters or leaves service. */
  lemma FlagFollowsTransitions(p: Phase, distance: real, timePassed: real)
    ensures var q := Step(p, distance, timePassed);
      q.busy != p.busy <==>
        (p.state == Waiting && q.state == Service) || (p.state == Service && q.state == Leaving && p.busy)
  {
  }

  /**
    An update that changes state adds no time; any other update adds
    `timePassed` to the counter of the current state only.
  */
  lemma TimeAccounting(p: Phase, distance: real, timePassed: real)
    ensures var q := Step(p, distance, timePassed);
      && (q.state != p.state ==> q.waiting == p.waiting && q.service == p.service && q.leaving == p.leaving)
      && (q.state == p.state ==>
            && q.busy == p.busy
            && q.waiting == p.waiting + (if p.state == Waiting then timePassed else 0.0)
            && q.service == p.service + (if p.state == Service then timePassed else 0.0)
            && q.leaving == p.leaving + (if p.state == Leaving then timePassed else 0.0))
  {
  }

  /** The two close clients of one cycle: the first takes the free desk, the second keeps waiting. */
  lemma SecondClientKeepsWaiting(a: Phase, b: Phase, distance: real, timePassed: real)
    requires a.state == Waiting && b.state == Waiting && !a.busy
    requires distance < SERVICE_DIST
    ensures Step(a, distance, timePassed).state == Service
    ensures Step(b.(busy := Step(a, distance, timePassed).busy), distance, timePassed).state == Waiting
  {
  }

  /** A sequence of updates: one (distance, time passed) pair per cycle. */
  function Run(p: Phase, inputs: seq<(real, real)>): Phase
    decreases |inputs|
  {
    if inputs == [] then p else Run(Step(p, inputs[0].0, inputs[0].1), inputs[1..])
  }

  /**
    Over any run, the state never moves backwards, `leaving` is never left, and
    with non-negative elapsed times no counter decreases.
  */
  lemma {:induction false} RunIsMonotone(p: Phase, inputs: seq<(real, real)>)
    ensures Rank(Run(p, inputs).state) >= Rank(p.state)
    ensures p.state == Leaving ==> Run(p, inputs).state == Leaving
    ensures (forall i :: 0 <= i < |inputs| ==> inputs[i].1 >= 0.0) ==>
      && Run(p, inputs).waiting >= p.waiting
      && Run(p, inputs).service >= p.service
      && Run(p, inputs).leaving >= p.leaving
    decreases |inputs|
  {
    if inputs != [] {
      RunIsMonotone(Step(p, inputs[0].0, inputs[0].1), inputs[1..]);
    }
  }

  /** A new client starts waiting, with every distance and time at zero. */
  lemma NewClientStartsWaiting(mac: Mac)
    ensures NewView(mac).state == Waiting
    ensures NewView(mac).distance == 0.0 && NewView(mac).waiting == 0.0 && NewView(mac).service == 0.0
    ensures NewView(mac).leaving == 0.0 && NewView(mac).expected == 0.0
  {
  }

  /**
    A new client's first update (elapsed time 0) fills its buffer with the
    reading, takes the distance calibrated for that reading, and leaves every
    counter at zero.
  */
  lemma FirstUpdate(mac: Mac, busy: bool, rssi: int, table: Table)
    requires Calibrated(table)
    ensures var (v, _) := Updated(NewView(mac), busy, rssi, 0.0, table);
      && v.samples == Repeat(rssi, CLIENT_RSSI_BUFFER_SIZE)
      && v.distance == Lookup(table, rssi).value
      && v.waiting == 0.0 && v.service == 0.0 && v.leaving == 0.0
      && v.state != Leaving
  {
    FirstAddFills(rssi, CLIENT_RSSI_BUFFER_SIZE);
  }
}
