/**
  The access point of ClientApp.py (`AccessPoint`): the earlier tracker, whose
  departure pass only retires clients that are no longer reported, and whose
  clients take their first reading through the recursive `add_rssi`. Reading
  the station table and the clock are done by the caller, who passes the
  snapshot and the time in.

  Because a client's buffer starts empty and `add_rssi` never fills an empty
  one, every active client has an empty buffer (part of `Valid`), every new
  client's first update raises before the client is appended, and every
  update of an active client raises too.
*/
module ClientAppAccessPoint {
  import opened Wrappers
  import opened Stats
  import opened Deque
  import opened Tracking
  import opened CalibrationSheet
  import opened ClientAppBuffer
  import opened ClientAppClient

  /** How many of the latest past clients the averages are taken over. */
  const AVG_NUMBER: nat := 3

  function Macs(cs: seq<Client>): (r: seq<Mac>)
    ensures |r| == |cs|
    ensures forall i :: 0 <= i < |cs| ==> r[i] == cs[i].mac
  {
    seq(|cs|, i requires 0 <= i < |cs| => cs[i].mac)
  }

  function BufferSet(cs: seq<Client>): set<RSSIBuffer>
  {
    set c | c in cs :: c.rssiBuffer
  }

  /** The clients of a list as values. */
  ghost function Views(cs: seq<Client>): (r: seq<ClientView>)
    reads cs, BufferSet(cs)
    ensures |r| == |cs|
    ensures forall i {:trigger r[i]} :: 0 <= i < |cs| ==> r[i] == cs[i].View()
  {
    seq(|cs|, i requires 0 <= i < |cs| reads cs, BufferSet(cs) => cs[i].View())
  }

  /** The clients the departure pass moves out: those whose MAC the snapshot no longer reports. */
  function Gone(cs: seq<Client>, rssi: map<Mac, int>): set<Client>
  {
    set c | c in cs && c.mac !in rssi
  }

  function DepartureOf(cs: seq<Client>, rssi: map<Mac, int>): Departed<Client>
  {
    Departure(cs, Gone(cs, rssi), 0, [], [])
  }

  /**
    The departure pass retires only clients that are no longer reported, in
    any state: a reported client, even one in `leaving`, stays active, and
    nothing is lost or duplicated.
  */
  lemma DepartureRetiresOnlyAbsent(cs: seq<Client>, rssi: map<Mac, int>)
    ensures var d := DepartureOf(cs, rssi);
      && multiset(d.kept) + multiset(d.removed) == multiset(cs)
      && (forall x :: x in d.removed ==> x in cs && x.mac !in rssi)
      && (forall x :: x in cs && x.mac in rssi ==> x in d.kept)
      && (forall x :: x in d.kept ==> x in cs)
  {
    var d := DepartureOf(cs, rssi);
    DepartureConserves(cs, Gone(cs, rssi), 0, [], []);
    DepartureShape(cs, Gone(cs, rssi), 0, [], []);
    assert d.removed[0..] == d.removed;
    forall x | x in d.removed
      ensures x in cs && x.mac !in rssi
    {
      assert x in Gone(cs, rssi);
    }
    forall x | x in cs && x.mac in rssi
      ensures x in d.kept
    {
      assert x in multiset(d.kept) + multiset(d.removed);
      assert x !in d.removed;
    }
    forall x | x in d.kept
      ensures x in cs
    {
      assert x in multiset(d.kept) + multiset(d.removed);
    }
  }

  /**
    The exception the arrival pass raises: the first snapshot MAC that is no
    regular becomes a new client, and that client's first update raises.
  */
  function ArrivalError(macs: seq<Mac>, regulars: seq<Mac>): Option<Error>
  {
    if macs == [] then None
    else if macs[0] !in regulars then Some(RecursionLimit)
    else ArrivalError(macs[1..], regulars)
  }

  /** The arrival pass completes exactly when every reported MAC already belongs to a kept client. */
  lemma {:induction false} ArrivalErrorIff(macs: seq<Mac>, regulars: seq<Mac>)
    ensures ArrivalError(macs, regulars) == None <==> forall m :: m in macs ==> m in regulars
    ensures ArrivalError(macs, regulars) != None ==> ArrivalError(macs, regulars) == Some(RecursionLimit)
  {
    if macs != [] {
      ArrivalErrorIff(macs[1..], regulars);
      assert forall m :: m in macs ==> m == macs[0] || m in macs[1..];
    }
  }

  /**
    The exception the steady pass raises over the active MACs: a MAC the
    snapshot lacks raises `KeyError` before the membership test, and any
    other client that did not just arrive raises on its update.
  */
  function SteadyError(macs: seq<Mac>, newMacs: seq<Mac>, rssi: map<Mac, int>): Option<Error>
  {
    if macs == [] then None
    else if macs[0] !in rssi then Some(MissingStation)
    else if macs[0] !in newMacs then Some(RecursionLimit)
    else SteadyError(macs[1..], newMacs, rssi)
  }

  /** The steady pass completes exactly when every active client is reported and has just arrived. */
  lemma {:induction false} SteadyErrorIff(macs: seq<Mac>, newMacs: seq<Mac>, rssi: map<Mac, int>)
    ensures SteadyError(macs, newMacs, rssi) == None <==>
      forall m :: m in macs ==> m in rssi && m in newMacs
  {
    if macs != [] {
      SteadyErrorIff(macs[1..], newMacs, rssi);
      assert forall m :: m in macs ==> m == macs[0] || m in macs[1..];
    }
  }

  /** `update_client_list` after the departure pass: arrival, then the steady pass with nobody new. */
  function ListError(kept: seq<Mac>, regulars: seq<Mac>, snap: Snapshot): Option<Error>
  {
    var a := ArrivalError(snap.macs, regulars);
    if a.Some? then a else SteadyError(kept, [], snap.rssi)
  }

  /**
    The list update completes exactly when the departure pass left nobody
    active and the snapshot reports nobody new, that is, when the snapshot
    is empty: the tracker never gains a client.
  */
  lemma ListErrorIff(kept: seq<Mac>, regulars: seq<Mac>, snap: Snapshot)
    requires forall m :: m in regulars ==> m in kept
    ensures ListError(kept, regulars, snap) == None <==> kept == [] && snap.macs == []
  {
    ArrivalErrorIff(snap.macs, regulars);
    SteadyErrorIff(kept, [], snap.rssi);
    if kept != [] {
      assert kept[0] in kept;
    }
    if snap.macs != [] && kept == [] {
      assert snap.macs[0] in snap.macs;
    }
  }

  /** The MACs of the clients the departure pass examined and kept all belong to clients still active. */
  lemma RegularsAreKept(cs: seq<Client>, rssi: map<Mac, int>)
    ensures forall m :: m in Macs(DepartureOf(cs, rssi).visited) ==> m in Macs(DepartureOf(cs, rssi).kept)
  {
    var d := DepartureOf(cs, rssi);
    DepartureShape(cs, Gone(cs, rssi), 0, [], []);
    forall m | m in Macs(d.visited)
      ensures m in Macs(d.kept)
    {
      var i :| 0 <= i < |d.visited| && Macs(d.visited)[i] == m;
      assert d.visited[i] in d.visited;
      var j :| 0 <= j < |d.kept| && d.kept[j] == d.visited[i];
      assert Macs(d.kept)[j] == m;
    }
  }

  lemma BufferSetWithin(cs: seq<Client>, sub: seq<Client>)
    requires forall x :: x in sub ==> x in cs
    ensures BufferSet(sub) <= BufferSet(cs)
  {
  }

  datatype Counter = WaitingCounter | ServiceCounter

  function CounterValues(vs: seq<ClientView>, k: Counter): (r: seq<real>)
    ensures |r| == |vs|
    ensures forall i :: 0 <= i < |vs| ==> r[i] == (if k == WaitingCounter then vs[i].waiting else vs[i].service)
  {
    seq(|vs|, i requires 0 <= i < |vs| => if k == WaitingCounter then vs[i].waiting else vs[i].service)
  }

  /** The sum the averaging loop builds over the latest `AVG_NUMBER` past clients, newest first. */
  function WindowSum(past: seq<ClientView>, k: Counter): real
  {
    Sum(CounterValues(LastReversed(past, AVG_NUMBER), k))
  }

  /** One more step of the summing loop adds the next older client's counter. */
  lemma WindowGrows(past: seq<ClientView>, i: nat, k: Counter)
    requires i < |past| && i < AVG_NUMBER
    ensures var v := past[|past| - 1 - i];
      Sum(CounterValues(LastReversed(past, i + 1), k))
        == Sum(CounterValues(LastReversed(past, i), k)) + (if k == WaitingCounter then v.waiting else v.service)
  {
    var before := CounterValues(LastReversed(past, i), k);
    var after := CounterValues(LastReversed(past, i + 1), k);
    assert after[..|before|] == before;
  }

  class AccessPoint {
    var clients: seq<Client>
    var pastClients: seq<Client>
    var avgWaitingTime: real
    var avgServiceTime: real
    var stations: Snapshot
    /** The bounded deque of the two latest measurement times. */
    var times: seq<real>

    /**
      Every active client is well formed and has an empty buffer, and both
      averages keep their initial 0: no method ever stores one.
    */
    ghost predicate Valid()
      reads this, clients, BufferSet(clients)
    {
      && 1 <= |times| <= 2
      && avgWaitingTime == 0.0 && avgServiceTime == 0.0
      && forall i :: 0 <= i < |clients| ==>
           clients[i].rssiBuffer in BufferSet(clients) && clients[i].Valid() && clients[i].rssiBuffer.buffer == []
    }

    constructor ()
      ensures Valid()
      ensures clients == [] && pastClients == []
      ensures avgWaitingTime == 0.0 && avgServiceTime == 0.0
      ensures stations == Snapshot([], map[]) && times == [0.0]
    {
      clients, pastClients := [], [];
      avgWaitingTime, avgServiceTime := 0.0, 0.0;
      stations := Snapshot([], map[]);
      times := [0.0];
    }

    /** `measure_queue`, with the station table and the clock read by the caller. */
    method MeasureQueue(snap: Snapshot, now: real)
      requires Valid()
      modifies this
      ensures Valid()
      ensures stations == snap && times == Bounded(old(times) + [now], 2) && |times| == 2
      ensures clients == old(clients) && pastClients == old(pastClients)
      ensures avgWaitingTime == old(avgWaitingTime) && avgServiceTime == old(avgServiceTime)
    {
      stations := snap;
      times := Bounded(times + [now], 2);
    }

    /**
      The departure pass: clients no longer reported move to the past list,
      with Python's skip after each removal. Returns the MACs of the clients
      examined and kept.
    */
    method Depart() returns (regulars: seq<Mac>)
      requires Valid()
      modifies this
      ensures Valid()
      ensures var d := old(DepartureOf(clients, stations.rssi));
        && clients == d.kept && pastClients == old(pastClients) + d.removed
        && regulars == Macs(d.visited)
      ensures stations == old(stations) && times == old(times)
      ensures avgWaitingTime == old(avgWaitingTime) && avgServiceTime == old(avgServiceTime)
    {
      ghost var gone := Gone(clients, stations.rssi);
      ghost var d := DepartureOf(clients, stations.rssi);
      DepartureRetiresOnlyAbsent(clients, stations.rssi);
      var kept, removed, visited := clients, [], [];
      regulars := [];
      var i := 0;
      while i < |kept|
        invariant Departure(kept, gone, i, removed, visited) == d
        invariant forall x :: x in kept ==> x in clients
        invariant regulars == Macs(visited)
        decreases |kept| - i
      {
        var c := kept[i];
        if c.mac !in stations.rssi {
          removed := removed + [c];
          kept := kept[..i] + kept[i + 1..];
        } else {
          regulars := regulars + [c.mac];
          visited := visited + [c];
        }
        i := i + 1;
      }
      assert Departure(kept, gone, i, removed, visited) == Departed(kept, removed, visited);
      forall j | 0 <= j < |kept|
        ensures kept[j].rssiBuffer in BufferSet(kept) && kept[j].Valid() && kept[j].rssiBuffer.buffer == []
      {
        assert kept[j] in kept && kept[j] in clients;
        var p :| 0 <= p < |clients| && clients[p] == kept[j];
      }
      clients := kept;
      pastClients := pastClients + removed;
    }

    /**
      The arrival pass: the first reported MAC that is no regular becomes a
      new client, whose first update (elapsed time 0) raises before the
      client is appended. Returns the new MACs and the exception raised.
    */
    method Arrive(regulars: seq<Mac>, rows: seq<Row>, depth: nat) returns (newMacs: seq<Mac>, err: Option<Error>)
      requires Valid() && stations.Valid()
      modifies this
      ensures Valid()
      ensures err == ArrivalError(stations.macs, regulars) && newMacs == []
      ensures clients == old(clients) && pastClients == old(pastClients)
      ensures stations == old(stations) && times == old(times)
      ensures avgWaitingTime == old(avgWaitingTime) && avgServiceTime == old(avgServiceTime)
    {
      newMacs, err := [], None;
      var k := 0;
      while k < |stations.macs|
        invariant 0 <= k <= |stations.macs|
        invariant ArrivalError(stations.macs, regulars) == ArrivalError(stations.macs[k..], regulars)
        invariant newMacs == [] && err == None
        invariant clients == old(clients) && pastClients == old(pastClients)
        invariant stations == old(stations) && times == old(times)
        invariant avgWaitingTime == old(avgWaitingTime) && avgServiceTime == old(avgServiceTime)
      {
        assert stations.macs[k..][1..] == stations.macs[k + 1..];
        var mac := stations.macs[k];
        if mac !in regulars {
          var c := new Client(mac);
          // The new client's buffer is empty, so this update raises, and the
          // append that follows it in the source is never reached.
          err := c.UpdateClient(stations.rssi[mac], 0.0, rows, depth);
          return;
        }
        k := k + 1;
      }
    }

    /**
      The steady pass over the active clients: reading a MAC the snapshot
      lacks raises `KeyError`; a client not in `newMacs` is updated with the
      elapsed time, and that update raises. Nobody's value changes.
    */
    method SteadyPass(newMacs: seq<Mac>, timePassed: real, rows: seq<Row>, depth: nat) returns (err: Option<Error>)
      requires Valid()
      modifies clients, BufferSet(clients)
      ensures Valid()
      ensures err == SteadyError(Macs(clients), newMacs, stations.rssi)
      ensures Views(clients) == old(Views(clients))
    {
      ghost var vs := Views(clients);
      var k := 0;
      while k < |clients|
        invariant 0 <= k <= |clients|
        invariant SteadyError(Macs(clients), newMacs, stations.rssi) == SteadyError(Macs(clients)[k..], newMacs, stations.rssi)
        invariant Views(clients) == vs
        invariant Valid()
      {
        assert Macs(clients)[k..][1..] == Macs(clients)[k + 1..];
        var c := clients[k];
        if c.mac !in stations.rssi {
          return Some(MissingStation);
        }
        var rssi := stations.rssi[c.mac];
        if c.mac !in newMacs {
          assert c.View() == vs[k];
          err := c.UpdateClient(rssi, timePassed, rows, depth);
          if err.Some? {
            return;
          }
        }
        k := k + 1;
      }
      err := None;
    }

    /**
      `update_client_list` with the snapshot and the time passed in: measure,
      then the departure, arrival and steady passes, stopping at the first
      exception. The list update completes only when nobody is left active
      and nobody is reported.
    */
    method UpdateClientList(snap: Snapshot, now: real, rows: seq<Row>, depth: nat) returns (err: Option<Error>)
      requires Valid() && snap.Valid()
      modifies this, clients, BufferSet(clients)
      ensures Valid()
      ensures stations == snap && times == Bounded(old(times) + [now], 2)
      ensures var d := old(DepartureOf(clients, snap.rssi));
        && clients == d.kept && pastClients == old(pastClients) + d.removed
        && err == ListError(Macs(d.kept), Macs(d.visited), snap)
      ensures Views(clients) == old(Views(DepartureOf(clients, snap.rssi).kept))
      ensures err == None <==> clients == [] && snap.macs == []
      ensures avgWaitingTime == old(avgWaitingTime) && avgServiceTime == old(avgServiceTime)
    {
      ghost var cs0 := clients;
      DepartureRetiresOnlyAbsent(clients, snap.rssi);
      RegularsAreKept(clients, snap.rssi);
      BufferSetWithin(clients, DepartureOf(clients, snap.rssi).kept);
      MeasureQueue(snap, now);
      var regulars := Depart();
      assert forall i :: 0 <= i < |clients| ==> clients[i] in cs0 && clients[i].rssiBuffer in BufferSet(cs0);
      err := ArriveAndUpdate(regulars, rows, depth);
    }

    /** The arrival pass, then, if it did not raise, the steady pass with the measured elapsed time. */
    method ArriveAndUpdate(regulars: seq<Mac>, rows: seq<Row>, depth: nat) returns (err: Option<Error>)
      requires Valid() && stations.Valid() && |times| == 2
      requires forall m :: m in regulars ==> m in Macs(clients)
      modifies this, clients, BufferSet(clients)
      ensures Valid()
      ensures clients == old(clients) && pastClients == old(pastClients)
      ensures stations == old(stations) && times == old(times)
      ensures avgWaitingTime == old(avgWaitingTime) && avgServiceTime == old(avgServiceTime)
      ensures err == ListError(Macs(clients), regulars, stations)
      ensures err == None <==> clients == [] && stations.macs == []
      ensures Views(clients) == old(Views(clients))
    {
      ListErrorIff(Macs(clients), regulars, stations);
      var newMacs;
      newMacs, err := Arrive(regulars, rows, depth);
      if err.Some? {
        return;
      }
      err := SteadyPass(newMacs, times[1] - times[0], rows, depth);
    }

    /** The loop of both average updaters: the counter `k` summed over the latest past clients, newest first. */
    method CollectSum(k: Counter, ghost past: seq<ClientView>) returns (total: real)
      requires Views(pastClients) == past
      ensures total == WindowSum(past, k) && Views(pastClients) == past
    {
      total := 0.0;
      var i := 0;
      while i < |pastClients| && i < AVG_NUMBER
        invariant 0 <= i <= |pastClients| && i <= AVG_NUMBER
        invariant total == Sum(CounterValues(LastReversed(past, i), k))
      {
        var c := pastClients[|pastClients| - 1 - i];
        assert past[|past| - 1 - i] == c.View();
        WindowGrows(past, i, k);
        total := total + if k == WaitingCounter then c.waitingTime else c.serviceTime;
        i := i + 1;
      }
      assert LastReversed(past, i) == LastReversed(past, AVG_NUMBER);
    }

    /**
      `update_service_time`: the service times of the latest `AVG_NUMBER`
      past clients are added up, and `statistics.mean` of that single number
      raises a TypeError, so nothing is stored.
    */
    method UpdateServiceTime() returns (total: real, err: Option<Error>)
      requires Valid()
      ensures total == WindowSum(Views(pastClients), ServiceCounter)
      ensures err == Some(NotIterable)
    {
      ghost var past := Views(pastClients);
      total := CollectSum(ServiceCounter, past);
      err := Some(NotIterable);
    }

    /**
      `update_waiting_time`: the waiting times of the same clients are added
      up, and the mean of that sum, meant for the average service time,
      raises a TypeError as well.
    */
    method UpdateWaitingTime() returns (total: real, err: Option<Error>)
      requires Valid()
      ensures total == WindowSum(Views(pastClients), WaitingCounter)
      ensures err == Some(NotIterable)
    {
      ghost var past := Views(pastClients);
      total := CollectSum(WaitingCounter, past);
      err := Some(NotIterable);
    }

    /**
      `update_ap`: the list update, then the averagers. It always raises:
      either the list update does, or it completes and the first averager's
      `mean` raises, so the expected waits are never set.
    */
    method UpdateAp(snap: Snapshot, now: real, rows: seq<Row>, depth: nat) returns (err: Option<Error>)
      requires Valid() && snap.Valid()
      modifies this, clients, BufferSet(clients)
      ensures Valid()
      ensures stations == snap && times == Bounded(old(times) + [now], 2)
      ensures var d := old(DepartureOf(clients, snap.rssi));
        var e := ListError(Macs(d.kept), Macs(d.visited), snap);
        && clients == d.kept && pastClients == old(pastClients) + d.removed
        && err == if e.Some? then e else Some(NotIterable)
      ensures err.Some?
    {
      err := UpdateClientList(snap, now, rows, depth);
      if err.None? {
        var total;
        total, err := UpdateServiceTime();
      }
    }

    /** `find_client`: the first active client with that MAC, or `None`. */
    method FindClient(mac: Mac) returns (c: Client?)
      ensures c == null <==> mac !in Macs(clients)
      ensures c != null ==> c == clients[FirstIndex(Macs(clients), mac)]
    {
      var i := 0;
      while i < |clients|
        invariant 0 <= i <= |clients|
        invariant forall j :: 0 <= j < i ==> clients[j].mac != mac
      {
        if clients[i].mac == mac {
          return clients[i];
        }
        i := i + 1;
      }
      return null;
    }

    /** `get_ap_times`: the two averages, which are always 0 here. */
    method GetApTimes() returns (waiting: real, service: real)
      requires Valid()
      ensures waiting == avgWaitingTime && service == avgServiceTime
      ensures waiting == 0.0 && service == 0.0
    {
      return avgWaitingTime, avgServiceTime;
    }
  }
}
