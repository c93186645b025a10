/**
  Vocabulary shared by both generations of the tracker: device identifiers,
  client states, one observation snapshot, and the departure loop that walks
  the active client list while removing from it.
*/
module Tracking {

  /** A device's hardware address, as printed by `iw`. */
  type Mac = string

  /** The client states; a closed type, so the "impossible state" branch cannot arise. */
  datatype State = Waiting | Service | Leaving

  /** Position of a state along waiting -> service -> leaving. */
  function Rank(s: State): nat
  {
    match s
    case Waiting => 0
    case Service => 1
    case Leaving => 2
  }

  /**
    One reading of the access point: a dictionary from MAC to RSSI. `macs`
    lists its keys in the dictionary's iteration order (the order the stations
    were reported), `rssi` maps each key to its signal strength.
  */
  datatype Snapshot = Snapshot(macs: seq<Mac>, rssi: map<Mac, int>)
  {
    ghost predicate Valid()
    {
      Distinct(macs) && (forall m :: m in rssi <==> m in macs)
    }
  }

  predicate Distinct<T(==)>(s: seq<T>)
  {
    forall i, j :: 0 <= i < j < |s| ==> s[i] != s[j]
  }

  lemma {:induction false} DistinctCounts<T>(s: seq<T>)
    requires Distinct(s)
    ensures forall x :: multiset(s)[x] <= 1
  {
    if s != [] {
      var p := s[..|s| - 1];
      assert s == p + [s[|s| - 1]];
      assert Distinct(p);
      DistinctCounts(p);
      assert s[|s| - 1] !in p;
    }
  }

  lemma RepeatedCount<T>(b: seq<T>, i: nat, j: nat)
    requires i < j < |b| && b[i] == b[j]
    ensures multiset(b)[b[j]] >= 2
  {
    assert b == b[..j] + b[j..];
    assert b[i] in b[..j];
    assert b[j] in b[j..];
  }

  /** Two arrangements of the same elements are both free of repeats or both not. */
  lemma DistinctPermutation<T>(a: seq<T>, b: seq<T>)
    requires multiset(a) == multiset(b)
    requires Distinct(a)
    ensures Distinct(b)
  {
    DistinctCounts(a);
    forall i, j | 0 <= i < j < |b|
      ensures b[i] != b[j]
    {
      if b[i] == b[j] {
        RepeatedCount(b, i, j);
        assert false;
      }
    }
  }

  function Min(a: int, b: int): int
  {
    if a <= b then a else b
  }

  /** The index of the first occurrence of `x` in `s`. */
  function FirstIndex<T(==)>(s: seq<T>, x: T): (r: nat)
    requires x in s
    ensures r < |s| && s[r] == x
    ensures forall j :: 0 <= j < r ==> s[j] != x
  {
    if s[0] == x then 0 else 1 + FirstIndex(s[1..], x)
  }

  /** The lists one departure pass leaves behind. */
  datatype Departed<T> = Departed(kept: seq<T>, removed: seq<T>, visited: seq<T>)

  /**
    The departure loop of `update_client_list` as Python runs it: a `for` loop over
    the active list that removes the client it is looking at. Python's list
    iterator keeps its own index, so after a removal the next client slides into
    the examined slot and the index moves past it. `gone` holds the clients that
    should leave; `removed` collects those moved to the past list, in visit
    order, and `visited` those examined and kept (their MACs are the
    "regulars").
  */
  function Departure<T(==)>(cs: seq<T>, gone: set<T>, i: nat, removed: seq<T>, visited: seq<T>): Departed<T>
    decreases |cs| - i
  {
    if i >= |cs| then Departed(cs, removed, visited)
    else if cs[i] in gone then Departure(cs[..i] + cs[i + 1..], gone, i + 1, removed + [cs[i]], visited)
    else Departure(cs, gone, i + 1, removed, visited + [cs[i]])
  }

  /** The departure pass neither loses nor duplicates a client: it only moves some to the removed list. */
  lemma {:induction false} DepartureConserves<T>(cs: seq<T>, gone: set<T>, i: nat, removed: seq<T>, visited: seq<T>)
    ensures var r := Departure(cs, gone, i, removed, visited);
      multiset(r.kept) + multiset(r.removed) == multiset(cs) + multiset(removed)
    decreases |cs| - i
  {
    if i < |cs| {
      if cs[i] in gone {
        assert cs == cs[..i] + [cs[i]] + cs[i + 1..];
        DepartureConserves(cs[..i] + cs[i + 1..], gone, i + 1, removed + [cs[i]], visited);
      } else {
        DepartureConserves(cs, gone, i + 1, removed, visited + [cs[i]]);
      }
    }
  }

  /**
    The removed list only grows at its end and only by clients that should
    leave; the visited list only grows at its end, by kept clients that should
    stay; the clients before the current index are never touched again.
  */
  ghost predicate Shaped<T>(cs: seq<T>, gone: set<T>, i: nat, removed: seq<T>, visited: seq<T>, r: Departed<T>)
  {
    && |r.kept| >= Min(i, |cs|) && r.kept[..Min(i, |cs|)] == cs[..Min(i, |cs|)]
    && |r.removed| >= |removed| && r.removed[..|removed|] == removed
    && (forall x :: x in r.removed[|removed|..] ==> x in gone)
    && |r.visited| >= |visited| && r.visited[..|visited|] == visited
    && (forall x :: x in r.visited[|visited|..] ==> x !in gone)
    && (forall x :: x in r.visited ==> x in r.kept)
  }

  lemma {:induction false} DepartureShape<T>(cs: seq<T>, gone: set<T>, i: nat, removed: seq<T>, visited: seq<T>)
    requires forall x :: x in visited ==> x in cs[..Min(i, |cs|)]
    ensures Shaped(cs, gone, i, removed, visited, Departure(cs, gone, i, removed, visited))
    decreases |cs| - i
  {
    if i < |cs| {
      if cs[i] in gone {
        var cs' := cs[..i] + cs[i + 1..];
        assert cs'[..i] == cs[..i];
        var m := Min(i + 1, |cs'|);
        assert m >= i && cs'[..m][..i] == cs[..i];
        DepartureShape(cs', gone, i + 1, removed + [cs[i]], visited);
        RemovalShaped(cs, gone, i, removed, visited);
      } else {
        assert cs[..i + 1] == cs[..i] + [cs[i]];
        DepartureShape(cs, gone, i + 1, removed, visited + [cs[i]]);
        VisitShaped(cs, gone, i, removed, visited);
      }
    }
  }

  /** The shape survives a step that removes the client at `i`. */
  lemma RemovalShaped<T>(cs: seq<T>, gone: set<T>, i: nat, removed: seq<T>, visited: seq<T>)
    requires i < |cs| && cs[i] in gone
    requires var cs' := cs[..i] + cs[i + 1..];
      Shaped(cs', gone, i + 1, removed + [cs[i]], visited, Departure(cs', gone, i + 1, removed + [cs[i]], visited))
    ensures Shaped(cs, gone, i, removed, visited, Departure(cs, gone, i, removed, visited))
  {
    var cs' := cs[..i] + cs[i + 1..];
    assert cs'[..i] == cs[..i];
    var m := Min(i + 1, |cs'|);
    var r := Departure(cs', gone, i + 1, removed + [cs[i]], visited);
    assert Departure(cs, gone, i, removed, visited) == r;
    assert r.kept[..i] == r.kept[..m][..i];
    assert r.removed[..|removed|] == r.removed[..|removed| + 1][..|removed|];
    assert r.removed[|removed|..] == [cs[i]] + r.removed[|removed| + 1..];
  }

  /** The shape survives a step that keeps the client at `i`. */
  lemma VisitShaped<T>(cs: seq<T>, gone: set<T>, i: nat, removed: seq<T>, visited: seq<T>)
    requires i < |cs| && cs[i] !in gone
    requires Shaped(cs, gone, i + 1, removed, visited + [cs[i]], Departure(cs, gone, i + 1, removed, visited + [cs[i]]))
    ensures Shaped(cs, gone, i, removed, visited, Departure(cs, gone, i, removed, visited))
  {
    var r := Departure(cs, gone, i + 1, removed, visited + [cs[i]]);
    assert Departure(cs, gone, i, removed, visited) == r;
    assert r.kept[..i] == r.kept[..i + 1][..i];
    assert r.visited[..|visited|] == r.visited[..|visited| + 1][..|visited|];
    assert r.visited[|visited|..] == [cs[i]] + r.visited[|visited| + 1..];
  }

  /**
    The client right behind a removed one is never examined: when the first
    client leaves, the second stays in the active list whether or not it
    should leave too.
  */
  lemma SuccessorOfRemovedIsSkipped<T>(cs: seq<T>, gone: set<T>)
    requires |cs| >= 2 && cs[0] in gone
    ensures var r := Departure(cs, gone, 0, [], []);
      cs[1] in r.kept && |r.removed| > 0 && r.removed[0] == cs[0]
  {
    var cs' := cs[1..];
    assert cs' == cs[..0] + cs[0 + 1..];
    assert [] + [cs[0]] == [cs[0]];
    DepartureShape(cs', gone, 1, [cs[0]], []);
    var r := Departure(cs', gone, 1, [cs[0]], []);
    assert Departure(cs, gone, 0, [], []) == r;
    assert r.kept[..1] == cs'[..1];
    assert r.removed[..1] == [cs[0]];
  }

  /** A worked case: of three clients, the first two due to leave, only the first goes. */
  lemma DepartureExample()
    ensures Departure([1, 2, 3], {1, 2}, 0, [], []) == Departed([2, 3], [1], [3])
  {
    assert [1, 2, 3][..0] + [1, 2, 3][1..] == [2, 3];
    assert [2, 3][1] !in {1, 2};
  }
}
