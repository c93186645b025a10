/**
  A tracked device in ClientApp.py (`Client`): the earlier variant of the
  client, whose state machine has no shared occupancy flag, whose leaving
  threshold is 3 metres, and whose smoothing buffer is the recursive one of
  `ClientAppBuffer`.
*/
module ClientAppClient {
  import opened Wrappers
  import opened Stats
  import opened Deque
  import opened Tracking
  import opened CalibrationSheet
  import opened ClientAppCalibration
  import opened ClientAppBuffer

  const CLIENT_RSSI_BUFFER_SIZE: nat := 10
  /** Closer than this (metres), a waiting client is at the counter. */
  const SERVICE_DIST: real := 1.0
  /** Farther than this (metres), a client being served is leaving. */
  const LEAVING_DIST: real := 3.0

  /** What `__update_state` reads and writes: the state and the three counters. */
  datatype Timers = Timers(state: State, waiting: real, service: real, leaving: real)

  /** One run of `__update_state` at the given distance, `timePassed` after the previous one. */
  function Step(t: Timers, distance: real, timePassed: real): Timers
  {
    match t.state
    case Waiting =>
      if distance < SERVICE_DIST then t.(state := Service)
      else t.(waiting := t.waiting + timePassed)
    case Service =>
      if distance > LEAVING_DIST then t.(state := Leaving)
      else t.(service := t.service + timePassed)
    case Leaving =>
      t.(leaving := t.leaving + timePassed)
  }

  /** Everything a client holds, as one value. */
  datatype ClientView = ClientView(
    mac: Mac, distance: real, samples: seq<int>,
    waiting: real, service: real, leaving: real, expected: real, state: State)
  {
    function Timing(): Timers
    {
      Timers(state, waiting, service, leaving)
    }
  }

  /** A client as `Client(mac)` creates it. */
  function NewView(mac: Mac): ClientView
  {
    ClientView(mac, 0.0, [], 0.0, 0.0, 0.0, 0.0, Waiting)
  }

  /**
    `update_client(rssi, time_passed)` against the calibration sheet `rows`:
    the client as the call leaves it, however far it got, and the exception
    it raised, if any. An empty buffer never takes the reading (the recursion
    of `add_rssi`); a median no sheet row was measured at leaves the reading
    buffered but the distance and the state as they were.
  */
  function Updated(v: ClientView, rssi: int, timePassed: real, rows: seq<Row>): (ClientView, Option<Error>)
  {
    if v.samples == [] then (v, Some(RecursionLimit))
    else
      var samples := Bounded(v.samples + [rssi], CLIENT_RSSI_BUFFER_SIZE);
      var found := Matching(rows, IntMedian(samples));
      if found == [] then (v.(samples := samples), Some(NoData))
      else
        var distance := Mean(found);
        var t := Step(v.Timing(), distance, timePassed);
        (v.(distance := distance, samples := samples, waiting := t.waiting, service := t.service,
            leaving := t.leaving, state := t.state), None)
  }

  class Client {
    const mac: Mac
    var distance: real
    const rssiBuffer: RSSIBuffer
    var waitingTime: real
    var serviceTime: real
    var leavingTime: real
    var expectedWaitTime: real
    var state: State

    ghost predicate Valid()
      reads this, rssiBuffer
    {
      rssiBuffer.Valid() && rssiBuffer.size == CLIENT_RSSI_BUFFER_SIZE
    }

    ghost function View(): ClientView
      reads this, rssiBuffer
    {
      ClientView(mac, distance, rssiBuffer.buffer, waitingTime, serviceTime, leavingTime,
                 expectedWaitTime, state)
    }

    constructor (mac: Mac)
      ensures Valid() && fresh(rssiBuffer)
      ensures View() == NewView(mac)
    {
      this.mac := mac;
      distance := 0.0;
      rssiBuffer := new RSSIBuffer(CLIENT_RSSI_BUFFER_SIZE);
      waitingTime, serviceTime, leavingTime, expectedWaitTime := 0.0, 0.0, 0.0, 0.0;
      state := Waiting;
    }

    /**
      `__update_rssi` with `depth` frames of call stack left: buffer the
      reading, then estimate the distance from the unfloored median. Returns
      the exception raised, if any.
    */
    method UpdateRssi(rssi: int, rows: seq<Row>, depth: nat) returns (err: Option<Error>)
      requires Valid()
      modifies this, rssiBuffer
      ensures Valid()
      ensures old(rssiBuffer.buffer) == [] ==> err == Some(RecursionLimit) && rssiBuffer.buffer == []
      ensures old(rssiBuffer.buffer) != [] ==>
        rssiBuffer.buffer == Bounded(old(rssiBuffer.buffer) + [rssi], CLIENT_RSSI_BUFFER_SIZE)
      ensures old(rssiBuffer.buffer) != [] ==>
        var found := Matching(rows, IntMedian(rssiBuffer.buffer));
          && (found == [] ==> err == Some(NoData) && distance == old(distance))
          && (found != [] ==> err == None && distance == Mean(found))
      ensures old(rssiBuffer.buffer) == [] ==> distance == old(distance)
      ensures waitingTime == old(waitingTime) && serviceTime == old(serviceTime)
      ensures leavingTime == old(leavingTime) && expectedWaitTime == old(expectedWaitTime)
      ensures state == old(state)
    {
      var added := rssiBuffer.AddRssi(rssi, depth);
      if !added {
        return Some(RecursionLimit);
      }
      var median := rssiBuffer.CalculateMedian();
      var d := RssiToDist(rows, median.value);
      if d.Failure? {
        return Some(d.error);
      }
      distance := d.value;
      err := None;
    }

    /** `__update_state`: one step of the state machine; nothing else is consulted. */
    method UpdateState(timePassed: real)
      modifies this
      ensures Timers(state, waitingTime, serviceTime, leavingTime)
        == Step(old(Timers(state, waitingTime, serviceTime, leavingTime)), distance, timePassed)
      ensures distance == old(distance) && expectedWaitTime == old(expectedWaitTime)
    {
      match state
      case Waiting =>
        if distance < SERVICE_DIST {
          state := Service;
        } else {
          waitingTime := waitingTime + timePassed;
        }
      case Service =>
        if distance > LEAVING_DIST {
          state := Leaving;
        } else {
          serviceTime := serviceTime + timePassed;
        }
      case Leaving =>
        leavingTime := leavingTime + timePassed;
    }

    /** `update_client`: the state machine only runs when the distance update did not raise. */
    method UpdateClient(rssi: int, timePassed: real, rows: seq<Row>, depth: nat) returns (err: Option<Error>)
      requires Valid()
      modifies this, rssiBuffer
      ensures Valid()
      ensures (View(), err) == Updated(old(View()), rssi, timePassed, rows)
    {
      err := UpdateRssi(rssi, rows, depth);
      if err.None? {
        UpdateState(timePassed);
      }
    }
  }

  /** A waiting client moves to service exactly when it is close enough, whoever else is being served. */
  lemma EnterService(t: Timers, distance: real, timePassed: real)
    requires t.state == Waiting
    ensures Step(t, distance, timePassed).state == Service <==> distance < SERVICE_DIST
    ensures Step(t, distance, timePassed).state != Leaving
  {
  }

  /** A client being served leaves exactly when it is farther than LEAVING_DIST. */
  lemma LeaveService(t: Timers, distance: real, timePassed: real)
    requires t.state == Service
    ensures Step(t, distance, timePassed).state == Leaving <==> distance > LEAVING_DIST
    ensures Step(t, distance, timePassed).state != Waiting
  {
  }

  /**
    An update that changes state adds no time; any other update adds
    `timePassed` to the counter of the current state only, and a leaving
    client's counter keeps growing.
  */
  lemma TimeAccounting(t: Timers, distance: real, timePassed: real)
    ensures var u := Step(t, distance, timePassed);
      && Rank(t.state) <= Rank(u.state) <= Rank(t.state) + 1
      && (t.state == Leaving ==> u.state == Leaving && u.leaving == t.leaving + timePassed)
      && (u.state != t.state ==> u.waiting == t.waiting && u.service == t.service && u.leaving == t.leaving)
      && (u.state == t.state ==>
            && u.waiting == t.waiting + (if t.state == Waiting then timePassed else 0.0)
            && u.service == t.service + (if t.state == Service then timePassed else 0.0)
            && u.leaving == t.leaving + (if t.state == Leaving then timePassed else 0.0))
  {
  }

  /**
    Without an occupancy flag, any number of waiting clients close to the
    counter enter service in the same cycle.
  */
  lemma {:induction false} AllCloseClientsEnterService(ts: seq<Timers>, distances: seq<real>, timePassed: real)
    requires |ts| == |distances|
    requires forall i :: 0 <= i < |ts| ==> ts[i].state == Waiting && distances[i] < SERVICE_DIST
    ensures forall i :: 0 <= i < |ts| ==> Step(ts[i], distances[i], timePassed).state == Service
  {
    forall i | 0 <= i < |ts|
      ensures Step(ts[i], distances[i], timePassed).state == Service
    {
      EnterService(ts[i], distances[i], timePassed);
    }
  }

  /**
    A client's buffer never receives a reading: a new client starts with an
    empty one, and every update of a client with an empty buffer raises and
    leaves the client exactly as it was.
  */
  lemma NeverUpdated(mac: Mac, v: ClientView, rssi: int, timePassed: real, rows: seq<Row>)
    ensures NewView(mac).samples == [] && NewView(mac).state == Waiting
    ensures v.samples == [] ==> Updated(v, rssi, timePassed, rows) == (v, Some(RecursionLimit))
  {
  }

  /**
    With a non-empty buffer, an update either completes, moving the state
    machine at the distance calibrated for the new median, or raises for a
    median no sheet row was measured at, with only the buffer changed.
  */
  lemma UpdateOutcomes(v: ClientView, rssi: int, timePassed: real, rows: seq<Row>)
    requires v.samples != []
    ensures var (u, err) := Updated(v, rssi, timePassed, rows);
      && u.samples == Bounded(v.samples + [rssi], CLIENT_RSSI_BUFFER_SIZE)
      && u.samples != [] && u.mac == v.mac && u.expected == v.expected
      && (err == None <==> exists i :: 0 <= i < |rows| && rows[i].rssi as real == IntMedian(u.samples))
      && (err != None ==> err == Some(NoData) && u == v.(samples := u.samples))
      && (err == None ==> u.Timing() == Step(v.Timing(), u.distance, timePassed))
  {
    var samples := Bounded(v.samples + [rssi], CLIENT_RSSI_BUFFER_SIZE);
    FailsWithoutExactRow(rows, IntMedian(samples));
  }
}
