/**
  The access point of backend.py (`AccessPoint`): the active and past client
  lists, the two running averages, the latest station snapshot and the two
  latest measurement times. Reading the station table and the clock are done
  by the caller, who passes the snapshot and the time in.
*/
module BackendAccessPoint {
  import opened Wrappers
  import opened Stats
  import opened Deque
  import opened Tracking
  import opened BackendCalibration
  import opened BackendBuffer
  import opened BackendClient
  import opened BackendQueue

  function Macs(cs: seq<Client>): (r: seq<Mac>)
    ensures |r| == |cs|
    ensures forall i :: 0 <= i < |cs| ==> r[i] == cs[i].mac
  {
    seq(|cs|, i requires 0 <= i < |cs| => cs[i].mac)
  }

  /** The time between the two measurements the deque of times holds. */
  function Elapsed(times: seq<real>): real
    requires |times| == 2
  {
    times[1] - times[0]
  }

  function BufferSet(cs: seq<Client>): set<RSSIBuffer>
  {
    set c | c in cs :: c.rssiBuffer
  }

  lemma InBufferSet(cs: seq<Client>, c: Client)
    requires c in cs
    ensures c.rssiBuffer in BufferSet(cs)
  {
  }

  /** The clients of a list as values. */
  ghost function Views(cs: seq<Client>): (r: seq<ClientView>)
    reads cs, BufferSet(cs)
    ensures |r| == |cs|
    ensures forall i {:trigger r[i]} :: 0 <= i < |cs| ==> r[i] == cs[i].View()
  {
    seq(|cs|, i requires 0 <= i < |cs| reads cs, BufferSet(cs) => cs[i].View())
  }

  /** The values of clients nobody touched are unchanged. */
  twostate lemma ViewsUnchanged(cs: seq<Client>)
    requires forall i :: 0 <= i < |cs| ==> unchanged(cs[i]) && unchanged(cs[i].rssiBuffer)
    ensures Views(cs) == old(Views(cs))
  {
    forall i | 0 <= i < |cs|
      ensures Views(cs)[i] == old(Views(cs))[i]
    {
    }
  }

  lemma SuffixAppend<T>(s: seq<T>, x: T, from: nat)
    requires from <= |s|
    ensures (s + [x])[from..] == s[from..] + [x]
  {
  }

  lemma AppendAssociates<T>(a: seq<T>, b: seq<T>, x: T)
    ensures (a + b) + [x] == a + (b + [x])
  {
  }

  lemma ViewsAppend(cs: seq<Client>, c: Client)
    ensures Views(cs + [c]) == Views(cs) + [c.View()]
  {
    ViewsConcat(cs, [c]);
  }

  lemma ViewsConcat(a: seq<Client>, b: seq<Client>)
    ensures Views(a + b) == Views(a) + Views(b)
  {
    assert forall i :: 0 <= i < |a| ==> (a + b)[i] == a[i];
    assert forall i :: 0 <= i < |b| ==> (a + b)[|a| + i] == b[i];
  }

  /** Clients drawn from `ys` carry MACs of `ys`. */
  lemma MacsWithin(xs: seq<Client>, ys: seq<Client>)
    requires forall x :: x in xs ==> x in ys
    ensures forall m :: m in Macs(xs) ==> m in Macs(ys)
  {
    forall m | m in Macs(xs)
      ensures m in Macs(ys)
    {
      var i :| 0 <= i < |xs| && Macs(xs)[i] == m;
      assert xs[i] in xs;
      var j :| 0 <= j < |ys| && ys[j] == xs[i];
      assert Macs(ys)[j] == m;
    }
  }

  /** Clients ending in values created for `newMacs` carry every MAC of `newMacs`. */
  lemma ArrivalsCovered(cs: seq<Client>, before: seq<ClientView>, p: Pass, newMacs: seq<Mac>, rssi: map<Mac, int>, table: Table)
    requires Calibrated(table) && Views(cs) == before + p.views && ArrivedFor(p.views, newMacs, rssi, table)
    ensures forall m :: m in newMacs ==> m in Macs(cs)
  {
    forall m | m in newMacs
      ensures m in Macs(cs)
    {
      var i :| 0 <= i < |newMacs| && newMacs[i] == m;
      assert Views(cs)[|before| + i] == p.views[i];
      assert Macs(cs)[|before| + i] == m;
    }
  }

  /** Clients whose values carry the MACs `newMacs`, in order, all have a MAC in `newMacs`. */
  lemma ArrivedAreNew(cs: seq<Client>, before: seq<ClientView>, p: Pass, newMacs: seq<Mac>)
    requires Views(cs) == before + p.views && |p.views| == |newMacs|
    requires forall i :: 0 <= i < |p.views| ==> p.views[i].mac == newMacs[i]
    ensures forall j :: |before| <= j < |cs| ==> cs[j].mac in newMacs
  {
    forall j | |before| <= j < |cs|
      ensures cs[j].mac in newMacs
    {
      assert Views(cs)[j] == cs[j].View();
      assert Views(cs)[j] == p.views[j - |before|];
    }
  }

  /** Where the other active clients and the past clients sit in the whole list. */
  lemma OthersOf<T>(cs: seq<T>, past: seq<T>, k: nat)
    requires k < |cs| && Distinct(cs + past)
    ensures forall j :: 0 <= j < |cs| && j != k ==> cs[j] in cs + past && cs[j] != cs[k]
    ensures forall a :: a in past ==> a in cs + past && a != cs[k]
  {
    assert forall j :: 0 <= j < |cs| ==> cs[j] == (cs + past)[j];
    assert forall j :: 0 <= j < |past| ==> past[j] == (cs + past)[|cs| + j];
  }

  /** The clients the departure pass moves out: out of range, or leaving. */
  ghost function Gone(cs: seq<Client>, rssi: map<Mac, int>): set<Client>
    reads cs
  {
    set c | c in cs && (c.mac !in rssi || c.state == Leaving)
  }

  ghost function DepartureOf(cs: seq<Client>, rssi: map<Mac, int>): Departed<Client>
    reads cs
  {
    Departure(cs, Gone(cs, rssi), 0, [], [])
  }

  /** The departure pass only rearranges the clients it is given. */
  lemma DepartureWithin(cs: seq<Client>, rssi: map<Mac, int>)
    ensures forall x :: x in DepartureOf(cs, rssi).removed ==> x in cs
    ensures forall x :: x in DepartureOf(cs, rssi).kept ==> x in cs
  {
    var d := DepartureOf(cs, rssi);
    DepartureConserves(cs, Gone(cs, rssi), 0, [], []);
    assert multiset(d.kept) + multiset(d.removed) == multiset(cs);
    forall x | x in d.removed
      ensures x in cs
    {
      assert x in multiset(d.kept) + multiset(d.removed);
      assert x in multiset(cs);
    }
    forall x | x in d.kept
      ensures x in cs
    {
      assert x in multiset(d.kept) + multiset(d.removed);
      assert x in multiset(cs);
    }
  }

  /**
    No client is listed twice or shares a buffer; the desk flag is set exactly
    when some listed client is in service, and at most one client is.
  */
  ghost predicate Consistent(all: seq<Client>, busy: bool)
    reads all
  {
    && Distinct(all)
    && (forall a, b :: a in all && b in all && a != b ==> a.rssiBuffer != b.rssiBuffer)
    && (forall a :: a in all ==> a.Valid())
    && (busy <==> exists a :: a in all && a.state == Service)
    && (forall a, b :: a in all && b in all && a.state == Service && b.state == Service ==> a == b)
  }

  /** Reordering the clients keeps them consistent. */
  lemma ConsistentPermutation(all: seq<Client>, all': seq<Client>, busy: bool)
    requires Consistent(all, busy)
    requires multiset(all) == multiset(all')
    ensures Consistent(all', busy)
  {
    DistinctPermutation(all, all');
    forall x
      ensures x in all' <==> x in all
    {
      assert x in all' <==> x in multiset(all');
      assert x in all <==> x in multiset(all);
    }
  }

  /**
    The `for` loop of the departure pass over the active list `cs`, removing
    as it goes. Returns the clients kept, those removed (in removal order), the
    MACs of the clients examined and kept, and those clients.
  */
  method DepartureLoop(cs: seq<Client>, rssi: map<Mac, int>)
    returns (kept: seq<Client>, removed: seq<Client>, regulars: seq<Mac>, ghost visited: seq<Client>)
    ensures kept == DepartureOf(cs, rssi).kept && removed == DepartureOf(cs, rssi).removed
    ensures regulars == Macs(DepartureOf(cs, rssi).visited) && visited == DepartureOf(cs, rssi).visited
  {
    ghost var gone := Gone(cs, rssi);
    kept, removed, regulars, visited := cs, [], [], [];
    var i := 0;
    while i < |kept|
      invariant Departure(kept, gone, i, removed, visited) == Departure(cs, gone, 0, [], [])
      invariant forall x :: x in kept ==> x in cs
      invariant regulars == Macs(visited)
      decreases |kept| - i
    {
      var c := kept[i];
      if c.mac !in rssi || c.state == Leaving {
        removed := removed + [c];
        kept := kept[..i] + kept[i + 1..];
      } else {
        regulars := regulars + [c.mac];
        visited := visited + [c];
      }
      i := i + 1;
    }
    assert Departure(kept, gone, i, removed, visited) == Departed(kept, removed, visited);
  }

  /** Moving some active clients to the end of the past list keeps them consistent. */
  lemma ConsistentAfterDeparture(cs: seq<Client>, past: seq<Client>, kept: seq<Client>, removed: seq<Client>, busy: bool)
    requires Consistent(cs + past, busy)
    requires multiset(kept) + multiset(removed) == multiset(cs)
    ensures Consistent(kept + (past + removed), busy)
    ensures forall x :: x in kept ==> x in cs
  {
    assert multiset(kept + (past + removed)) == multiset(cs + past);
    ConsistentPermutation(cs + past, kept + (past + removed), busy);
    forall x | x in kept
      ensures x in cs
    {
      assert x in multiset(kept);
      assert x in multiset(cs);
    }
  }

  /** A fresh client whose update kept the desk flag right can join consistent clients. */
  lemma ConsistentExtend(all: seq<Client>, c: Client, busy: bool, busy': bool)
    requires Consistent(all, busy)
    requires c !in all && c.Valid()
    requires forall a :: a in all ==> a.rssiBuffer != c.rssiBuffer
    requires SingleServer(busy, Phase(c.state, 0.0, 0.0, 0.0, busy'))
    ensures Consistent(all + [c], busy')
  {
    forall a | a in all + [c]
      ensures a in all || a == c
    {
    }
    if busy {
      var b :| b in all && b.state == Service;
      assert b in all + [c];
    }
    if busy' && c.state != Service {
      var b :| b in all && b.state == Service;
      assert b in all + [c];
    }
  }

  /** A new client joins the end of the active list. */
  lemma ConsistentAfterArrival(cs: seq<Client>, past: seq<Client>, c: Client, busy: bool, busy': bool)
    requires Consistent(cs + past, busy)
    requires c !in cs + past && c.Valid()
    requires forall a :: a in cs + past ==> a.rssiBuffer != c.rssiBuffer
    requires SingleServer(busy, Phase(c.state, 0.0, 0.0, 0.0, busy'))
    ensures Consistent((cs + [c]) + past, busy')
  {
    ConsistentExtend(cs + past, c, busy, busy');
    assert multiset(cs + past + [c]) == multiset((cs + [c]) + past);
    ConsistentPermutation(cs + past + [c], (cs + [c]) + past, busy');
  }

  /** Taking one client out of consistent clients leaves the rest consistent, with the flag set only if someone else serves. */
  lemma ConsistentSplit(others: seq<Client>, c: Client, busy: bool)
    requires Consistent(others + [c], busy)
    ensures Consistent(others, busy && c.state != Service)
    ensures c !in others && c.Valid()
    ensures forall a :: a in others ==> a.rssiBuffer != c.rssiBuffer
    ensures SingleServer(busy && c.state != Service, Phase(c.state, 0.0, 0.0, 0.0, busy))
  {
    assert (others + [c])[|others|] == c;
    assert forall i :: 0 <= i < |others| ==> (others + [c])[i] == others[i];
    forall a | a in others
      ensures a in others + [c] && a != c
    {
      var i :| 0 <= i < |others| && others[i] == a;
      assert (others + [c])[i] == a;
    }
    if busy && c.state != Service {
      var b :| b in others + [c] && b.state == Service;
      assert b in others;
    }
  }

  /** A new client after its first update; the desk flag stays right. */
  method NewClient(mac: Mac, rssi: int, table: Table, desk: ServiceDesk) returns (c: Client)
    requires Calibrated(table)
    modifies desk
    ensures fresh(c) && fresh(c.rssiBuffer) && c.Valid()
    ensures (c.View(), desk.busy) == Updated(NewView(mac), old(desk.busy), rssi, 0.0, table)
    ensures SingleServer(old(desk.busy), Phase(c.state, 0.0, 0.0, 0.0, desk.busy))
  {
    c := new Client(mac);
    ghost var p := c.View().PhaseWith(desk.busy);
    c.UpdateClient(rssi, 0.0, table, desk);
    StepKeepsSingleServer(old(desk.busy), p, c.distance, 0.0);
  }

  /**
    Taking the `k`-th active client out: the others stay consistent, with the
    flag set only if one of them serves.
  */
  lemma ConsistentWithout(cs: seq<Client>, past: seq<Client>, k: nat, busy: bool)
    requires k < |cs| && Consistent(cs + past, busy)
    ensures var others := cs[..k] + cs[k + 1..] + past;
      && Consistent(others, busy && cs[k].state != Service)
      && cs[k] !in others && cs[k].Valid() && Distinct(cs + past)
      && (forall a :: a in cs + past && a != cs[k] ==> a.rssiBuffer != cs[k].rssiBuffer)
      && (forall a :: a in others ==> a.rssiBuffer != cs[k].rssiBuffer)
      && SingleServer(busy && cs[k].state != Service, Phase(cs[k].state, 0.0, 0.0, 0.0, busy))
  {
    var others := cs[..k] + cs[k + 1..] + past;
    assert cs == cs[..k] + [cs[k]] + cs[k + 1..];
    assert multiset(cs + past) == multiset(others + [cs[k]]);
    ConsistentPermutation(cs + past, others + [cs[k]], busy);
    ConsistentSplit(others, cs[k], busy);
  }

  /** Putting the `k`-th active client back after its update. */
  lemma ConsistentWithBack(cs: seq<Client>, past: seq<Client>, k: nat, busy: bool)
    requires k < |cs| && Consistent(cs[..k] + cs[k + 1..] + past + [cs[k]], busy)
    ensures Consistent(cs + past, busy)
  {
    assert cs == cs[..k] + [cs[k]] + cs[k + 1..];
    assert multiset(cs + past) == multiset(cs[..k] + cs[k + 1..] + past + [cs[k]]);
    ConsistentPermutation(cs[..k] + cs[k + 1..] + past + [cs[k]], cs + past, busy);
  }

  /** Putting the `k`-th active client back after `update_client` keeps all clients consistent. */
  lemma ConsistentAfterUpdate(cs: seq<Client>, past: seq<Client>, k: nat, busy: bool, busy': bool, v: ClientView,
                              rssi: int, timePassed: real, table: Table)
    requires Calibrated(table) && k < |cs|
    requires var others := cs[..k] + cs[k + 1..] + past;
      && Consistent(others, busy && v.state != Service)
      && cs[k] !in others && cs[k].Valid()
      && (forall a :: a in others ==> a.rssiBuffer != cs[k].rssiBuffer)
    requires SingleServer(busy && v.state != Service, v.PhaseWith(busy))
    requires (cs[k].View(), busy') == Updated(v, busy, rssi, timePassed, table)
    ensures Consistent(cs + past, busy')
  {
    UpdatedKeepsSingleServer(busy && v.state != Service, v, busy, rssi, timePassed, table);
    ConsistentExtend(cs[..k] + cs[k + 1..] + past, cs[k], busy && v.state != Service, busy');
    ConsistentWithBack(cs, past, k, busy');
  }

  /**
    `update_client` on `c`, which leaves the clients `others` consistent and
    the values of the clients `past` unchanged.
  */
  method UpdateAmong(c: Client, past: seq<Client>, ghost others: seq<Client>, ghost servingElsewhere: bool,
                     rssi: int, timePassed: real, table: Table, desk: ServiceDesk)
    requires Calibrated(table) && c.Valid() && Consistent(others, servingElsewhere) && c !in others
    requires forall a :: a in past ==> a != c && a.rssiBuffer != c.rssiBuffer
    modifies c, c.rssiBuffer, desk
    ensures c.Valid() && Consistent(others, servingElsewhere)
    ensures (c.View(), desk.busy) == old(Updated(c.View(), desk.busy, rssi, timePassed, table))
    ensures Views(past) == old(Views(past))
  {
    c.UpdateClient(rssi, timePassed, table, desk);
  }

  /** `update_client` on the `k`-th of the active clients `cs`, which touches no other client. */
  method UpdateAt(cs: seq<Client>, past: seq<Client>, k: nat, rssi: int, timePassed: real, table: Table, desk: ServiceDesk,
                  ghost others: seq<Client>, ghost servingElsewhere: bool)
    requires k < |cs| && Distinct(cs + past) && Calibrated(table) && cs[k].Valid()
    requires Consistent(others, servingElsewhere) && cs[k] !in others
    requires forall a :: a in cs + past && a != cs[k] ==> a.rssiBuffer != cs[k].rssiBuffer
    modifies cs[k], cs[k].rssiBuffer, desk
    ensures cs[k].Valid() && Consistent(others, servingElsewhere)
    ensures (cs[k].View(), desk.busy) == old(Updated(cs[k].View(), desk.busy, rssi, timePassed, table))
    ensures Views(cs) == old(Views(cs))[k := cs[k].View()]
    ensures Views(past) == old(Views(past))
  {
    OthersOf(cs, past, k);
    UpdateAmong(cs[k], past, others, servingElsewhere, rssi, timePassed, table, desk);
  }

  /** The same update, keeping the single-server invariant over all clients. */
  method Touch(cs: seq<Client>, past: seq<Client>, k: nat, rssi: int, timePassed: real, table: Table, desk: ServiceDesk)
    requires k < |cs| && Calibrated(table) && Consistent(cs + past, desk.busy)
    modifies cs[k], cs[k].rssiBuffer, desk
    ensures Consistent(cs + past, desk.busy)
    ensures (cs[k].View(), desk.busy) == old(Updated(cs[k].View(), desk.busy, rssi, timePassed, table))
    ensures Views(cs) == old(Views(cs))[k := cs[k].View()]
    ensures Views(past) == old(Views(past))
  {
    var c := cs[k];
    ghost var busy := desk.busy;
    ghost var others := cs[..k] + cs[k + 1..] + past;
    ConsistentWithout(cs, past, k, busy);
    ghost var v := c.View();
    UpdateAt(cs, past, k, rssi, timePassed, table, desk, others, busy && v.state != Service);
    ConsistentAfterUpdate(cs, past, k, busy, desk.busy, v, rssi, timePassed, table);
  }

  class AccessPoint {
    var clients: seq<Client>
    var pastClients: seq<Client>
    var avgWaitingTime: real
    var avgServiceTime: real
    var stations: Snapshot
    /** The bounded deque of the two latest measurement times. */
    var times: seq<real>
    const desk: ServiceDesk

    ghost predicate Valid()
      reads this, desk, clients, pastClients
    {
      Consistent(clients + pastClients, desk.busy) && 1 <= |times| <= 2
    }

    constructor ()
      ensures Valid() && fresh(desk)
      ensures clients == [] && pastClients == []
      ensures avgWaitingTime == 0.0 && avgServiceTime == 0.0
      ensures stations == Snapshot([], map[]) && times == [0.0] && !desk.busy
    {
      clients, pastClients := [], [];
      avgWaitingTime, avgServiceTime := 0.0, 0.0;
      stations := Snapshot([], map[]);
      times := [0.0];
      desk := new ServiceDesk();
    }

    /** `measure_queue`, with the station table and the clock read by the caller. */
    method MeasureQueue(snap: Snapshot, now: real)
      requires Valid()
      modifies this
      ensures Valid()
      ensures stations == snap && times == Bounded(old(times) + [now], 2) && |times| == 2
      ensures clients == old(clients) && pastClients == old(pastClients)
      ensures avgWaitingTime == old(avgWaitingTime) && avgServiceTime == old(avgServiceTime)
    {
      stations := snap;
      times := Bounded(times + [now], 2);
    }

    /**
      The departure pass: clients out of range or leaving move to the past
      list, with Python's skip after each removal. Returns the MACs of the
      clients examined and kept.
    */
    method Depart() returns (regulars: seq<Mac>, ghost visited: seq<Client>)
      requires Valid()
      modifies this
      ensures Valid()
      ensures var d := old(DepartureOf(clients, stations.rssi));
        && clients == d.kept && pastClients == old(pastClients) + d.removed
        && visited == d.visited && regulars == Macs(d.visited)
      ensures forall x :: x in clients ==> x in old(clients)
      ensures stations == old(stations) && times == old(times)
      ensures avgWaitingTime == old(avgWaitingTime) && avgServiceTime == old(avgServiceTime)
    {
      ghost var cs0, past0 := clients, pastClients;
      ghost var d := DepartureOf(clients, stations.rssi);
      DepartureConserves(cs0, Gone(cs0, stations.rssi), 0, [], []);
      var kept, removed;
      kept, removed, regulars, visited := DepartureLoop(clients, stations.rssi);
      ConsistentAfterDeparture(cs0, past0, kept, removed, desk.busy);
      clients := kept;
      pastClients := pastClients + removed;
    }

    /**
      The arrival pass: every MAC of the snapshot that is no regular becomes a
      new client, updated at once with elapsed time 0 and appended. Returns the
      new MACs.
    */
    method Arrive(regulars: seq<Mac>, table: Table) returns (newMacs: seq<Mac>)
      requires Valid() && Calibrated(table) && stations.Valid()
      modifies this, desk
      ensures Valid()
      ensures pastClients == old(pastClients) && stations == old(stations) && times == old(times)
      ensures var p := Arrivals(stations.macs, stations.rssi, regulars, old(desk.busy), table);
        && |clients| == old(|clients|) + |p.views| && clients[..old(|clients|)] == old(clients)
        && Views(clients) == old(Views(clients)) + p.views && desk.busy == p.busy
      ensures Views(pastClients) == old(Views(pastClients))
      ensures newMacs == NewMacs(stations.macs, regulars)
      ensures avgWaitingTime == old(avgWaitingTime) && avgServiceTime == old(avgServiceTime)
      ensures forall j :: old(|clients|) <= j < |clients| ==> fresh(clients[j])
    {
      ghost var busy0 := desk.busy;
      ghost var added: seq<Client> := [];
      newMacs := [];
      var k := 0;
      while k < |stations.macs|
        invariant 0 <= k <= |stations.macs|
        invariant ArrivedSoFar(k, regulars, table, old(clients), added, busy0, newMacs)
        invariant Views(old(clients)) == old(Views(clients)) && Views(pastClients) == old(Views(pastClients))
        invariant pastClients == old(pastClients) && stations == old(stations) && times == old(times)
        invariant avgWaitingTime == old(avgWaitingTime) && avgServiceTime == old(avgServiceTime)
        invariant forall j :: old(|clients|) <= j < |clients| ==> fresh(clients[j])
      {
        newMacs, added := ArriveOne(k, regulars, table, old(clients), added, busy0, newMacs);
        k := k + 1;
      }
      assert stations.macs[..k] == stations.macs;
      ViewsConcat(old(clients), added);
    }

    /**
      The state of the arrival pass after the first `k` MACs of the snapshot:
      the clients created so far follow `before`, as `Arrivals` says.
    */
    ghost predicate ArrivedSoFar(k: nat, regulars: seq<Mac>, table: Table, before: seq<Client>, added: seq<Client>, busy0: bool, newMacs: seq<Mac>)
      reads this, desk, clients, pastClients, added, BufferSet(added)
    {
      && Valid() && Calibrated(table) && stations.Valid() && k <= |stations.macs|
      && clients == before + added
      && Views(added) == Arrivals(stations.macs[..k], stations.rssi, regulars, busy0, table).views
      && desk.busy == Arrivals(stations.macs[..k], stations.rssi, regulars, busy0, table).busy
      && newMacs == NewMacs(stations.macs[..k], regulars)
    }

    /** One round of the arrival loop: the `k`-th MAC of the snapshot becomes a new client unless it is a regular. */
    method ArriveOne(k: nat, regulars: seq<Mac>, table: Table, ghost before: seq<Client>, ghost added: seq<Client>, ghost busy0: bool, newMacs: seq<Mac>)
      returns (newMacs': seq<Mac>, ghost added': seq<Client>)
      requires k < |stations.macs|
      requires ArrivedSoFar(k, regulars, table, before, added, busy0, newMacs)
      modifies this, desk
      ensures ArrivedSoFar(k + 1, regulars, table, before, added', busy0, newMacs')
      ensures old(|clients|) <= |clients| && forall j :: 0 <= j < old(|clients|) ==> clients[j] == old(clients[j])
      ensures forall j :: old(|clients|) <= j < |clients| ==> fresh(clients[j])
      ensures Views(before) == old(Views(before)) && Views(pastClients) == old(Views(pastClients))
      ensures pastClients == old(pastClients) && stations == old(stations) && times == old(times)
      ensures avgWaitingTime == old(avgWaitingTime) && avgServiceTime == old(avgServiceTime)
    {
      var mac := stations.macs[k];
      ArrivalsNext(stations.macs, k, stations.rssi, regulars, busy0, table);
      newMacs', added' := newMacs, added;
      if mac !in regulars {
        label L:
        var c := Admit(mac, stations.rssi[mac], table);
        ViewsUnchanged@L(added);
        ViewsUnchanged@L(before);
        ViewsUnchanged@L(pastClients);
        ViewsAppend(added, c);
        AppendAssociates(before, added, c);
        newMacs', added' := newMacs + [mac], added + [c];
      }
    }

    /** `Client(mac)` followed by `update_client(rssi, 0)`, appended to the active list. */
    method Admit(mac: Mac, rssi: int, table: Table) returns (c: Client)
      requires Valid() && Calibrated(table)
      modifies this, desk
      ensures Valid()
      ensures clients == old(clients) + [c] && c !in old(clients) && fresh(c)
      ensures (c.View(), desk.busy) == Updated(NewView(mac), old(desk.busy), rssi, 0.0, table)
      ensures pastClients == old(pastClients) && stations == old(stations) && times == old(times)
      ensures avgWaitingTime == old(avgWaitingTime) && avgServiceTime == old(avgServiceTime)
    {
      ghost var busy := desk.busy;
      ghost var all := clients + pastClients;
      ghost var buffers := BufferSet(all);
      c := NewClient(mac, rssi, table, desk);
      assert c !in all && c.rssiBuffer !in buffers;
      forall a | a in all
        ensures a.rssiBuffer != c.rssiBuffer
      {
        InBufferSet(all, a);
      }
      ConsistentAfterArrival(clients, pastClients, c, busy, desk.busy);
      clients := clients + [c];
    }

    /**
      The steady pass: every active client whose MAC did not arrive in this
      cycle is updated with its reading and the elapsed time; a client whose
      MAC is missing from the snapshot raises a KeyError (`ok` false), leaving
      the clients before it updated. Only the first `n` clients can need an
      update: every later one arrived in this cycle.
    */
    method SteadyPass(n: nat, newMacs: seq<Mac>, timePassed: real, table: Table, ghost owner: seq<Client>,
                      ghost vs: seq<ClientView>, ghost busy: bool, ghost rssi: map<Mac, int>, ghost arrived: seq<Mac>,
                      ghost past: seq<ClientView>)
      returns (ok: bool)
      requires Valid() && Calibrated(table)
      requires n <= |clients| && forall j :: n <= j < |clients| ==> clients[j].mac in newMacs
      requires forall j :: 0 <= j < n ==> clients[j] in owner
      requires Views(clients) == vs && desk.busy == busy && stations.rssi == rssi && newMacs == arrived
      requires Views(pastClients) == past
      requires |times| == 2 && timePassed == Elapsed(times)
      modifies desk, owner, BufferSet(owner)
      ensures Valid()
      ensures clients == old(clients) && pastClients == old(pastClients) && stations == old(stations) && times == old(times)
      ensures avgWaitingTime == old(avgWaitingTime) && avgServiceTime == old(avgServiceTime)
      ensures Views(pastClients) == past
      ensures |times| == 2 && Elapsed(times) == timePassed
      ensures var s := Steady(vs, rssi, arrived, busy, timePassed, table);
        && (ok <==> s.Success?)
        && (ok ==> Views(clients) == s.value.views && desk.busy == s.value.busy)
      ensures !ok ==> var j := FirstMissing(vs, rssi);
        && j < |vs|
        && Steady(vs[..j], rssi, arrived, busy, timePassed, table) == Success(Pass(Views(clients)[..j], desk.busy))
        && Views(clients)[j..] == vs[j..]
    {
      ghost var vs0, busy0, past0 := Views(clients), desk.busy, Views(pastClients);
      ok := true;
      var k := 0;
      while k < |clients| && ok
        invariant 0 <= k <= |clients|
        invariant SteadySoFar(k, ok, n, vs0, busy0, past0, newMacs, timePassed, table)
      {
        ok := SteadyOne(k, n, vs0, busy0, past0, newMacs, timePassed, table, owner);
        k := k + 1;
      }
      if ok {
        SteadyComplete(vs0, Views(clients), stations.rssi, newMacs, busy0, desk.busy, timePassed, table);
      } else {
        SteadyStoppedAt(vs0, k - 1, Views(clients), busy0, desk.busy, stations.rssi, newMacs, timePassed, table);
      }
    }

    /**
      The arrival pass and then the steady pass of `update_client_list`, after
      a departure pass that kept the clients `kept` and visited the MACs
      `visited`.
    */
    static ghost function ListOutcome(kept: seq<ClientView>, visited: seq<Mac>, busy: bool, snap: Snapshot,
                                      timePassed: real, table: Table): Result<Pass>
      requires Calibrated(table) && snap.Valid()
    {
      var a := Arrivals(snap.macs, snap.rssi, visited, busy, table);
      Steady(kept + a.views, snap.rssi, NewMacs(snap.macs, visited), a.busy, timePassed, table)
    }

    /**
      The steady pass after the first `k` active clients; once a KeyError was
      raised (`ok` false), on the `k`-th, the clients before it are updated and
      the rest untouched.
    */
    ghost predicate SteadySoFar(k: nat, ok: bool, n: nat, vs0: seq<ClientView>, busy0: bool, past0: seq<ClientView>,
                                newMacs: seq<Mac>, timePassed: real, table: Table)
      reads this, desk, clients, pastClients, BufferSet(clients), BufferSet(pastClients)
    {
      && Valid() && Calibrated(table) && k <= |clients| && |vs0| == |clients|
      && n <= |clients| && (forall j :: n <= j < |clients| ==> clients[j].mac in newMacs)
      && Views(pastClients) == past0
      && (ok ==>
            && Steady(vs0[..k], stations.rssi, newMacs, busy0, timePassed, table) == Success(Pass(Views(clients)[..k], desk.busy))
            && Views(clients)[k..] == vs0[k..])
      && (!ok ==>
            && 0 < k && vs0[k - 1].mac !in stations.rssi
            && Steady(vs0[..k - 1], stations.rssi, newMacs, busy0, timePassed, table) == Success(Pass(Views(clients)[..k - 1], desk.busy))
            && Views(clients)[k - 1..] == vs0[k - 1..])
    }

    /** One round of the steady loop, on the `k`-th active client. */
    method SteadyOne(k: nat, n: nat, ghost vs0: seq<ClientView>, ghost busy0: bool, ghost past0: seq<ClientView>,
                     newMacs: seq<Mac>, timePassed: real, table: Table, ghost owner: seq<Client>) returns (ok: bool)
      requires k < |clients| && SteadySoFar(k, true, n, vs0, busy0, past0, newMacs, timePassed, table)
      requires forall j :: 0 <= j < n ==> clients[j] in owner
      modifies desk, owner, BufferSet(owner)
      ensures SteadySoFar(k + 1, ok, n, vs0, busy0, past0, newMacs, timePassed, table)
    {
      var c := clients[k];
      if c.mac !in stations.rssi {
        assert vs0[k] == Views(clients)[k..][0] == c.View();
        ok := false;
      } else {
        ok := true;
        if c.mac !in newMacs {
          SteadyAdvance(k, n, vs0, busy0, past0, newMacs, timePassed, table, owner);
        } else {
          SteadyStep(vs0, k, Views(clients), Views(clients), busy0, desk.busy, desk.busy, stations.rssi, newMacs, timePassed, table);
        }
      }
    }

    /** The round of the steady loop that updates the `k`-th active client. */
    method SteadyAdvance(k: nat, n: nat, ghost vs0: seq<ClientView>, ghost busy0: bool, ghost past0: seq<ClientView>,
                         newMacs: seq<Mac>, timePassed: real, table: Table, ghost owner: seq<Client>)
      requires k < |clients| && SteadySoFar(k, true, n, vs0, busy0, past0, newMacs, timePassed, table)
      requires clients[k].mac in stations.rssi && clients[k].mac !in newMacs
      requires forall j :: 0 <= j < n ==> clients[j] in owner
      modifies desk, owner, BufferSet(owner)
      ensures SteadySoFar(k + 1, true, n, vs0, busy0, past0, newMacs, timePassed, table)
    {
      ghost var before, busyBefore := Views(clients), desk.busy;
      InBufferSet(owner, clients[k]);
      Advance(k, stations.rssi[clients[k].mac], timePassed, table);
      SteadyStep(vs0, k, before, Views(clients), busy0, busyBefore, desk.busy, stations.rssi, newMacs, timePassed, table);
    }

    /** `update_client` on the `k`-th active client. */
    method Advance(k: nat, rssi: int, timePassed: real, table: Table)
      requires Valid() && Calibrated(table) && k < |clients|
      modifies clients[k], clients[k].rssiBuffer, desk
      ensures Valid()
      ensures (clients[k].View(), desk.busy) == old(Updated(clients[k].View(), desk.busy, rssi, timePassed, table))
      ensures Views(clients) == old(Views(clients))[k := clients[k].View()]
      ensures Views(pastClients) == old(Views(pastClients))
    {
      Touch(clients, pastClients, k, rssi, timePassed, table, desk);
    }

    /**
      The outcome of `update_client_list`: the departure pass `d` over the
      old active list, the arrival pass `a` over the snapshot, then the steady
      pass `s` over the kept clients followed by the new ones. When `s` raised,
      the clients before the first missing MAC are updated as `s` updated them
      and the rest are as the arrival pass left them.
    */
    twostate predicate ClientListUpdated(snap: Snapshot, table: Table, ok: bool)
      requires Calibrated(table) && snap.Valid()
      reads this, desk, clients, pastClients, BufferSet(clients), BufferSet(pastClients)
    {
      var d := old(DepartureOf(clients, snap.rssi));
      var a := Arrivals(snap.macs, snap.rssi, Macs(d.visited), old(desk.busy), table);
      && |times| == 2
      && pastClients == old(pastClients) + d.removed
      && Views(pastClients) == old(Views(pastClients)) + old(Views(d.removed))
      && |clients| == |d.kept| + |a.views| && clients[..|d.kept|] == d.kept
      && (var s := ListOutcome(old(Views(d.kept)), Macs(d.visited), old(desk.busy), snap, Elapsed(times), table);
          && (ok <==> s.Success?)
          && (ok ==> Views(clients) == s.value.views && desk.busy == s.value.busy))
      && (var vs := old(Views(d.kept)) + a.views;
          var j := FirstMissing(vs, snap.rssi);
          !ok ==>
            && j < |vs|
            && Steady(vs[..j], snap.rssi, NewMacs(snap.macs, Macs(d.visited)), a.busy, Elapsed(times), table)
               == Success(Pass(Views(clients)[..j], desk.busy))
            && Views(clients)[j..] == vs[j..])
    }

    /**
      `update_client_list`: take the snapshot and the time, move departed
      clients to the past list, admit the new MACs, then update every client
      that did not just arrive. `ok` is false when the steady pass raised a
      KeyError; the departure and arrival passes have then taken effect, and
      so have the updates of the clients before the missing one.
    */
    method UpdateClientList(snap: Snapshot, now: real, table: Table) returns (ok: bool)
      requires Valid() && Calibrated(table) && snap.Valid()
      modifies this, desk, clients, BufferSet(clients)
      ensures Valid()
      ensures stations == snap && times == Bounded(old(times) + [now], 2)
      ensures avgWaitingTime == old(avgWaitingTime) && avgServiceTime == old(avgServiceTime)
      ensures ClientListUpdated(snap, table, ok)
      ensures forall m :: m in snap.macs ==> m in Macs(clients)
      ensures forall i :: 0 <= i < |clients| ==> clients[i] in old(clients) || fresh(clients[i])
    {
      ghost var d := old(DepartureOf(clients, snap.rssi));
      ghost var kept, busy0 := old(Views(d.kept)), old(desk.busy);
      var n, newMacs, vs, past := Refresh(snap, now, table);
      var timePassed := Elapsed(times);
      ghost var s := ListOutcome(kept, Macs(d.visited), busy0, snap, timePassed, table);
      assert s == Steady(vs, snap.rssi, newMacs, desk.busy, timePassed, table);
      ok := SteadyPass(n, newMacs, timePassed, table, old(clients), vs, desk.busy, snap.rssi, newMacs, past);
    }

    /** The first half of `update_client_list`: the measurement, the departure pass and the arrival pass. */
    method Refresh(snap: Snapshot, now: real, table: Table)
      returns (n: nat, newMacs: seq<Mac>, ghost vs: seq<ClientView>, ghost past: seq<ClientView>)
      requires Valid() && Calibrated(table) && snap.Valid()
      modifies this, desk
      ensures Valid()
      ensures stations == snap && times == Bounded(old(times) + [now], 2)
      ensures avgWaitingTime == old(avgWaitingTime) && avgServiceTime == old(avgServiceTime)
      ensures var d := old(DepartureOf(clients, snap.rssi));
        var a := Arrivals(snap.macs, snap.rssi, Macs(d.visited), old(desk.busy), table);
        && pastClients == old(pastClients) + d.removed
        && n == |d.kept| && |clients| == n + |a.views| && clients[..n] == d.kept
        && Views(clients) == vs && vs == old(Views(d.kept)) + a.views && desk.busy == a.busy
        && newMacs == NewMacs(snap.macs, Macs(d.visited))
        && (forall j :: n <= j < |clients| ==> clients[j].mac in newMacs)
        && (forall j :: 0 <= j < n ==> clients[j] in old(clients))
        && (forall j :: n <= j < |clients| ==> fresh(clients[j]))
        && Views(pastClients) == past && past == old(Views(pastClients)) + old(Views(d.removed))
      ensures forall m :: m in snap.macs ==> m in Macs(clients)
    {
      var regulars := Settle(snap, now);
      n := |clients|;
      ghost var settled := clients;
      ghost var busy1, kept := desk.busy, Views(clients);
      newMacs := Arrive(regulars, table);
      ghost var a := Arrivals(snap.macs, snap.rssi, regulars, busy1, table);
      ArrivalsShape(snap.macs, snap.rssi, regulars, busy1, table);
      ArrivedAreNew(clients, kept, a, newMacs);
      assert forall x :: x in settled ==> x in clients[..n];
      MacsWithin(settled, clients);
      ArrivalsCovered(clients, kept, a, newMacs, snap.rssi, table);
      vs, past := Views(clients), Views(pastClients);
    }

    /** The measurement and the departure pass of `update_client_list`. */
    method Settle(snap: Snapshot, now: real) returns (regulars: seq<Mac>)
      requires Valid()
      modifies this
      ensures Valid()
      ensures stations == snap && times == Bounded(old(times) + [now], 2)
      ensures avgWaitingTime == old(avgWaitingTime) && avgServiceTime == old(avgServiceTime)
      ensures var d := old(DepartureOf(clients, snap.rssi));
        && clients == d.kept && pastClients == old(pastClients) + d.removed && regulars == Macs(d.visited)
        && Views(clients) == old(Views(d.kept))
        && Views(pastClients) == old(Views(pastClients)) + old(Views(d.removed))
      ensures forall x :: x in clients ==> x in old(clients)
      ensures forall m :: m in regulars ==> m in Macs(clients)
    {
      ghost var d := DepartureOf(clients, snap.rssi);
      DepartureWithin(clients, snap.rssi);
      DepartureShape(clients, Gone(clients, snap.rssi), 0, [], []);
      MacsWithin(d.visited, d.kept);
      label Start:
      MeasureQueue(snap, now);
      ghost var visited;
      regulars, visited := Depart();
      ViewsUnchanged@Start(d.kept);
      ViewsUnchanged@Start(old(pastClients));
      ViewsUnchanged@Start(d.removed);
      ViewsConcat(old(pastClients), d.removed);
    }

    /**
      The loop shared by `update_service_time` and `update_waiting_time`: the
      chosen counter of the last `AVG_NUMBER` past clients, newest first, or of
      the last active clients while nobody has left.
    */
    method CollectCounters(k: Counter, ghost past: seq<ClientView>, ghost active: seq<ClientView>) returns (samples: seq<real>)
      requires Views(pastClients) == past && Views(clients) == active
      ensures samples == CounterValues(Window(past, active), k)
    {
      var source := if |pastClients| > 0 then pastClients else clients;
      samples := [];
      var i := 0;
      while i < |source| && i < AVG_NUMBER
        invariant i <= |source| && i <= AVG_NUMBER
        invariant |samples| == i
        invariant forall j :: 0 <= j < i ==> samples[j] == CounterOf(source[|source| - 1 - j].View(), k)
      {
        var c := source[|source| - 1 - i];
        var t := if k == ServiceCounter then c.serviceTime else c.waitingTime;
        samples := samples + [t];
        i := i + 1;
      }
      ghost var w := Window(past, active);
      forall j | 0 <= j < i
        ensures samples[j] == CounterValues(w, k)[j]
      {
        assert w[j] == Views(source)[|source| - 1 - j];
      }
    }

    /**
      `update_service_time`: the mean service time of the window. With no past
      and no active client, `statistics.mean` raises (`ok` false) and the
      average keeps its value.
    */
    method UpdateServiceTime() returns (ok: bool)
      requires Valid()
      modifies this
      ensures Valid()
      ensures var w := old(WindowAverage(Views(pastClients), Views(clients), ServiceCounter));
        && (ok <==> w.Success?) && avgServiceTime == if ok then w.value else old(avgServiceTime)
      ensures clients == old(clients) && pastClients == old(pastClients) && stations == old(stations) && times == old(times)
      ensures Views(clients) == old(Views(clients)) && Views(pastClients) == old(Views(pastClients))
      ensures avgWaitingTime == old(avgWaitingTime)
    {
      ghost var past, active := Views(pastClients), Views(clients);
      ghost var w := WindowAverage(past, active, ServiceCounter);
      var samples := CollectCounters(ServiceCounter, past, active);
      if |samples| == 0 {
        ok := false;
        return;
      }
      avgServiceTime := Mean(samples);
      ok := true;
      assert w == Success(avgServiceTime);
    }

    /**
      `update_waiting_time`: the mean waiting time of the window. When somebody
      has left, the source assigns that mean twice; both assignments store the
      same value, so it is assigned once here. With no past and no active
      client it raises (`ok` false) and the average keeps its value.
    */
    method UpdateWaitingTime() returns (ok: bool)
      requires Valid()
      modifies this
      ensures Valid()
      ensures var w := old(WindowAverage(Views(pastClients), Views(clients), WaitingCounter));
        && (ok <==> w.Success?) && avgWaitingTime == if ok then w.value else old(avgWaitingTime)
      ensures clients == old(clients) && pastClients == old(pastClients) && stations == old(stations) && times == old(times)
      ensures Views(clients) == old(Views(clients)) && Views(pastClients) == old(Views(pastClients))
      ensures avgServiceTime == old(avgServiceTime)
    {
      ghost var past, active := Views(pastClients), Views(clients);
      ghost var w := WindowAverage(past, active, WaitingCounter);
      var samples := CollectCounters(WaitingCounter, past, active);
      if |samples| == 0 {
        ok := false;
        return;
      }
      avgWaitingTime := Mean(samples);
      ok := true;
      assert w == Success(avgWaitingTime);
    }

    /**
      `update_clients_expected_time`: every active client's expected wait
      becomes the people ahead of it times the average service time; past
      clients are left alone.
    */
    method UpdateClientsExpectedTime()
      requires Valid()
      modifies clients
      ensures Valid()
      ensures Views(clients) == old(WithExpected(Views(clients), avgServiceTime))
      ensures Views(pastClients) == old(Views(pastClients))
      ensures unchanged(this)
      ensures forall i :: 0 <= i < |clients| ==> clients[i].expectedWaitTime == ExpectedWait(clients[i].distance, avgServiceTime)
    {
      var i := 0;
      while i < |clients|
        invariant 0 <= i <= |clients|
        invariant forall j :: 0 <= j < |clients| ==>
          clients[j].View() == if j < i then old(clients[j].View()).(expected := ExpectedWait(old(clients[j].distance), avgServiceTime))
                               else old(clients[j].View())
        invariant forall a :: a in pastClients ==> unchanged(a)
        invariant forall a :: a in clients + pastClients ==> a.state == old(a.state)
        invariant Distinct(clients + pastClients)
      {
        OthersOf(clients, pastClients, i);
        var c := clients[i];
        var dist := c.distance;
        c.SetExpectedTime(ExpectedWait(dist, avgServiceTime));
        i := i + 1;
      }
      forall j | 0 <= j < |pastClients|
        ensures unchanged(pastClients[j]) && unchanged(pastClients[j].rssiBuffer)
      {
        assert pastClients[j] in pastClients;
      }
      ViewsUnchanged(pastClients);
    }

    /** Every active client carries the expected wait of its distance, and both averages are those of the window. */
    ghost predicate Settled()
      reads this, clients, pastClients, BufferSet(clients), BufferSet(pastClients)
    {
      && WindowAverage(Views(pastClients), Views(clients), ServiceCounter) == Success(avgServiceTime)
      && WindowAverage(Views(pastClients), Views(clients), WaitingCounter) == Success(avgWaitingTime)
      && forall i :: 0 <= i < |clients| ==> clients[i].expectedWaitTime == ExpectedWait(clients[i].distance, avgServiceTime)
    }

    /**
      `update_ap`: the list update `s`, the two averages and the expected waits,
      stopping at the first exception (`ok` false): the KeyError of the steady
      pass or the empty mean. When the mean raised, the state is the one the
      list update left.
    */
    method UpdateAp(snap: Snapshot, now: real, table: Table) returns (ok: bool)
      requires Valid() && Calibrated(table) && snap.Valid()
      modifies this, desk, clients, BufferSet(clients)
      ensures Valid()
      ensures stations == snap && times == Bounded(old(times) + [now], 2)
      ensures var d := old(DepartureOf(clients, snap.rssi));
        var s := ListOutcome(old(Views(d.kept)), Macs(d.visited), old(desk.busy), snap, Elapsed(times), table);
        && pastClients == old(pastClients) + d.removed
        && Views(pastClients) == old(Views(pastClients)) + old(Views(d.removed))
        && (ok <==> s.Success? && WindowAverage(Views(pastClients), s.value.views, ServiceCounter).Success?)
        && (ok ==> Views(clients) == WithExpected(s.value.views, avgServiceTime) && desk.busy == s.value.busy)
        && (!ok ==> ClientListUpdated(snap, table, s.Success?))
      ensures !ok ==> avgWaitingTime == old(avgWaitingTime) && avgServiceTime == old(avgServiceTime)
      ensures ok ==> Settled()
      ensures forall m :: m in snap.macs ==> m in Macs(clients)
    {
      ok := UpdateClientList(snap, now, table);
      if ok {
        ok := UpdateTimes();
      }
    }

    /**
      The part of `update_ap` after the list update: `ok` is false exactly when
      the mean of the service times raised, and then nothing changes; otherwise
      the averages are those of the window and every active client carries the
      expected wait of the new average service time.
    */
    method UpdateTimes() returns (ok: bool)
      requires Valid()
      modifies this, clients
      ensures Valid()
      ensures clients == old(clients) && pastClients == old(pastClients)
      ensures stations == old(stations) && times == old(times)
      ensures Views(pastClients) == old(Views(pastClients))
      ensures ok <==> old(WindowAverage(Views(pastClients), Views(clients), ServiceCounter)).Success?
      ensures Views(clients) == if ok then WithExpected(old(Views(clients)), avgServiceTime) else old(Views(clients))
      ensures !ok ==> avgWaitingTime == old(avgWaitingTime) && avgServiceTime == old(avgServiceTime)
      ensures ok ==> Settled()
    {
      ghost var past, active := Views(pastClients), Views(clients);
      ok := UpdateServiceTime();
      if !ok {
        return;
      }
      ok := UpdateWaitingTime();
      assert ok;
      ghost var avgService := avgServiceTime;
      UpdateClientsExpectedTime();
      assert Views(pastClients) == past && Views(clients) == WithExpected(active, avgService);
      WindowIgnoresExpected(past, active, avgService, ServiceCounter);
      WindowIgnoresExpected(past, active, avgService, WaitingCounter);
    }

    /** `find_client`: the first active client with that MAC, or `None`. */
    method FindClient(mac: Mac) returns (c: Client?)
      ensures c == null <==> mac !in Macs(clients)
      ensures c != null ==> c == clients[FirstIndex(Macs(clients), mac)]
    {
      var i := 0;
      while i < |clients|
        invariant 0 <= i <= |clients|
        invariant forall j :: 0 <= j < i ==> clients[j].mac != mac
      {
        if clients[i].mac == mac {
          return clients[i];
        }
        i := i + 1;
      }
      return null;
    }

    /** `get_ap_times`: the average waiting time, then the average service time. */
    method GetApTimes() returns (waiting: real, service: real)
      ensures waiting == avgWaitingTime && service == avgServiceTime
    {
      return avgWaitingTime, avgServiceTime;
    }
  }
}
