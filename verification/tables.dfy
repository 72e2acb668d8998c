/** Queries over the three tables, the consistency conditions the handlers
    keep, and the lemmas showing that an entry, an exit and a new lot each
    keep them. */
module Tables {
  import opened Models

  /** Ids of the open visits of one client at one lot: the rows the query
      on client_id, parking_id and `time_out == None` returns. */
  function OpenFor(visits: map<int, ClientParking>, clientId: int, parkingId: int): (r: set<int>)
    ensures r <= visits.Keys && r <= OpenAt(visits, parkingId)
    ensures forall id :: id in r ==> visits[id].clientId == clientId && visits[id].IsOpen()
  {
    set id | id in visits && visits[id].clientId == clientId
                          && visits[id].parkingId == parkingId
                          && visits[id].IsOpen()
  }

  /** Ids of the open visits at one lot, whoever the client. */
  ghost function OpenAt(visits: map<int, ClientParking>, parkingId: int): set<int>
  {
    set id | id in visits && visits[id].parkingId == parkingId && visits[id].IsOpen()
  }

  /** Whether some lot already has this address. */
  predicate AddressTaken(lots: map<int, Parking>, address: string)
    ensures AddressTaken(lots, address) <==> address in (set id | id in lots :: lots[id].address)
  {
    exists id :: id in lots && lots[id].address == address
  }

  /** `m` is the least element of `s`. */
  ghost predicate IsLeast(m: int, s: set<int>)
  {
    m in s && forall x :: x in s ==> m <= x
  }

  lemma {:induction false} LeastExists(s: set<int>)
    requires s != {}
    ensures exists m :: IsLeast(m, s)
  {
    if forall x :: x !in s {
      assert false;
    }
    var y :| y in s;
    if s == {y} {
      assert IsLeast(y, s);
    } else {
      LeastExists(s - {y});
      var m :| IsLeast(m, s - {y});
      assert forall x :: x in s ==> x == y || x in s - {y};
      if y < m {
        assert IsLeast(y, s);
      } else {
        assert IsLeast(m, s);
      }
    }
  }

  /** The least id of a non-empty set: the row a table scan meets first. */
  function Least(s: set<int>): (m: int)
    requires s != {}
    ensures m in s && forall x :: x in s ==> m <= x
  {
    LeastExists(s);
    var m :| m in s && forall x :: x in s ==> m <= x;
    m
  }

  /** The lot after one client has parked there. */
  function Occupied(lot: Parking): (r: Parking)
    ensures r.countAvailablePlaces == lot.countAvailablePlaces - 1
    ensures r.(countAvailablePlaces := lot.countAvailablePlaces) == lot
  {
    lot.(countAvailablePlaces := lot.countAvailablePlaces - 1)
  }

  /** The lot after one client has left it. */
  function Vacated(lot: Parking): (r: Parking)
    ensures r.countAvailablePlaces == lot.countAvailablePlaces + 1
    ensures Occupied(r) == lot
  {
    lot.(countAvailablePlaces := lot.countAvailablePlaces + 1)
  }

  /** A visit closed at clock reading `now`. */
  function Closed(visit: ClientParking, now: nat): (r: ClientParking)
    ensures !r.IsOpen() && r.timeOut == Some(now)
    ensures r.(timeOut := visit.timeOut) == visit
  {
    visit.(timeOut := Some(now))
  }

  // ---------------------------------------------------------------------
  // Consistency of the tables

  /** The next id to be handed out is the one SQLite gives a new row: 1 in
      an empty table, otherwise the largest stored id plus one. Every stored
      id is positive and below it. */
  ghost predicate IdsBelow<T>(m: map<int, T>, next: int)
  {
    && 0 < next
    && (forall id :: id in m ==> 0 < id < next)
    && (if m == map[] then next == 1 else next - 1 in m)
  }

  /** No two lots share an address. */
  ghost predicate UniqueAddresses(lots: map<int, Parking>)
  {
    forall i, j :: i in lots && j in lots && lots[i].address == lots[j].address ==> i == j
  }

  /** A (client, lot) pair has at most one open visit. */
  ghost predicate OneOpenPerPair(visits: map<int, ClientParking>)
  {
    forall i, j ::
      i in visits && j in visits && visits[i].IsOpen() && visits[j].IsOpen() &&
      visits[i].clientId == visits[j].clientId && visits[i].parkingId == visits[j].parkingId
      ==> i == j
  }

  /** Every visit names an existing lot. */
  ghost predicate VisitsAtKnownLots(lots: map<int, Parking>, visits: map<int, ClientParking>)
  {
    forall id :: id in visits ==> visits[id].parkingId in lots
  }

  /** Conservation of places: at every lot, the available places plus the
      open visits make up the capacity. */
  ghost predicate PlacesConserved(lots: map<int, Parking>, visits: map<int, ClientParking>)
  {
    forall pid :: pid in lots ==>
      lots[pid].countAvailablePlaces + |OpenAt(visits, pid)| == lots[pid].countPlaces
  }

  /** A lot whose capacity is not negative never has a negative count of
      available places. */
  ghost predicate NeverOverdrawn(lots: map<int, Parking>)
  {
    forall pid :: pid in lots && lots[pid].countPlaces >= 0 ==> lots[pid].countAvailablePlaces >= 0
  }

  ghost predicate Consistent(
    clients: map<int, Client>, lots: map<int, Parking>, visits: map<int, ClientParking>,
    nextClientId: int, nextLotId: int, nextVisitId: int)
  {
    && IdsBelow(clients, nextClientId)
    && IdsBelow(lots, nextLotId)
    && IdsBelow(visits, nextVisitId)
    && UniqueAddresses(lots)
    && OneOpenPerPair(visits)
    && VisitsAtKnownLots(lots, visits)
    && PlacesConserved(lots, visits)
    && NeverOverdrawn(lots)
  }

  // ---------------------------------------------------------------------
  // How the open-visit sets change

  lemma OpenAtAfterEntry(visits: map<int, ClientParking>, id: int, visit: ClientParking, pid: int)
    requires id !in visits && visit.IsOpen()
    ensures OpenAt(visits[id := visit], pid) ==
              if visit.parkingId == pid then OpenAt(visits, pid) + {id} else OpenAt(visits, pid)
  {
  }

  lemma OpenAtAfterExit(visits: map<int, ClientParking>, id: int, now: nat, pid: int)
    requires id in visits && visits[id].IsOpen()
    ensures OpenAt(visits[id := Closed(visits[id], now)], pid) ==
              if visits[id].parkingId == pid then OpenAt(visits, pid) - {id} else OpenAt(visits, pid)
  {
  }

  /** Adding a visit at a fresh id adds that id to the open visits of its
      own pair, if it is open, and leaves every other pair's as it was. */
  lemma OpenForAfterInsert(visits: map<int, ClientParking>, id: int, visit: ClientParking, clientId: int, parkingId: int)
    requires id !in visits
    ensures OpenFor(visits[id := visit], clientId, parkingId) ==
              if visit.clientId == clientId && visit.parkingId == parkingId && visit.IsOpen()
              then OpenFor(visits, clientId, parkingId) + {id}
              else OpenFor(visits, clientId, parkingId)
  {
  }

  /** Open-visit uniqueness bounds the open visits of every pair by one. */
  lemma AtMostOneOpen(visits: map<int, ClientParking>, clientId: int, parkingId: int)
    requires OneOpenPerPair(visits)
    ensures |OpenFor(visits, clientId, parkingId)| <= 1
  {
    var s := OpenFor(visits, clientId, parkingId);
    if s != {} {
      if forall y :: y !in s {
        assert false;
      }
      var x :| x in s;
      forall y | y in s ensures y == x {
        assert visits[y].clientId == visits[x].clientId && visits[y].parkingId == visits[x].parkingId;
      }
      assert s == {x};
    }
  }

  /** Under open-visit uniqueness, an open visit of a pair is the only one,
      so the first one a scan meets is that visit. */
  lemma OnlyOpenVisit(visits: map<int, ClientParking>, clientId: int, parkingId: int)
    requires OneOpenPerPair(visits) && OpenFor(visits, clientId, parkingId) != {}
    ensures OpenFor(visits, clientId, parkingId) == {Least(OpenFor(visits, clientId, parkingId))}
  {
  }

  /** Conservation bounds the available places of every lot of
      non-negative capacity between zero and the capacity. */
  lemma WithinCapacity(lots: map<int, Parking>, visits: map<int, ClientParking>, pid: int)
    requires PlacesConserved(lots, visits) && NeverOverdrawn(lots)
    requires pid in lots && lots[pid].countPlaces >= 0
    ensures 0 <= lots[pid].countAvailablePlaces <= lots[pid].countPlaces
  {
  }

  // ---------------------------------------------------------------------
  // Preservation

  /** Storing a lot at a fresh id under an unused address keeps addresses unique. */
  lemma UniqueAfterRegister(lots: map<int, Parking>, id: int, lot: Parking)
    requires UniqueAddresses(lots) && id !in lots && !AddressTaken(lots, lot.address)
    ensures UniqueAddresses(lots[id := lot])
  {
  }

  /** Storing a row at the next id and counting on by one keeps the ids
      as SQLite hands them out. */
  lemma IdsBelowAfterInsert<T>(m: map<int, T>, next: int, v: T)
    requires IdsBelow(m, next)
    ensures next !in m
    ensures IdsBelow(m[next := v], next + 1)
  {
    var m' := m[next := v];
    assert (next + 1) - 1 in m';
    forall id | id in m' ensures 0 < id < next + 1 {
      if id != next {
        assert id in m;
      }
    }
  }

  /** Storing a new client keeps the tables consistent. */
  lemma NewClientKeepsConsistent(
    clients: map<int, Client>, lots: map<int, Parking>, visits: map<int, ClientParking>,
    nextClientId: int, nextLotId: int, nextVisitId: int, client: Client)
    requires Consistent(clients, lots, visits, nextClientId, nextLotId, nextVisitId)
    ensures nextClientId !in clients
    ensures Consistent(clients[nextClientId := client], lots, visits, nextClientId + 1, nextLotId, nextVisitId)
  {
    IdsBelowAfterInsert(clients, nextClientId, client);
  }

  /** Storing a new lot under an unused address, with all of its places
      available, keeps the tables consistent. */
  lemma NewLotKeepsConsistent(
    clients: map<int, Client>, lots: map<int, Parking>, visits: map<int, ClientParking>,
    nextClientId: int, nextLotId: int, nextVisitId: int, lot: Parking)
    requires Consistent(clients, lots, visits, nextClientId, nextLotId, nextVisitId)
    requires !AddressTaken(lots, lot.address) && lot.countAvailablePlaces == lot.countPlaces
    ensures nextLotId !in lots
    ensures Consistent(clients, lots[nextLotId := lot], visits, nextClientId, nextLotId + 1, nextVisitId)
  {
    var lots' := lots[nextLotId := lot];
    IdsBelowAfterInsert(lots, nextLotId, lot);
    UniqueAfterRegister(lots, nextLotId, lot);
    forall pid | pid in lots'
      ensures lots'[pid].countAvailablePlaces + |OpenAt(visits, pid)| == lots'[pid].countPlaces
    {
      if pid == nextLotId {
        assert forall id :: id in visits ==> visits[id].parkingId != nextLotId;
        assert OpenAt(visits, pid) == {};
      } else {
        assert lots'[pid] == lots[pid];
      }
    }
  }

  /** An entry (one place taken, one open visit added at the same lot)
      keeps every lot's places conserved. */
  lemma ConservedAfterEntry(
    lots: map<int, Parking>, visits: map<int, ClientParking>,
    clientId: int, parkingId: int, id: int, now: nat)
    requires PlacesConserved(lots, visits)
    requires parkingId in lots && id !in visits
    ensures PlacesConserved(lots[parkingId := Occupied(lots[parkingId])],
                            visits[id := ClientParking(clientId, parkingId, now, None)])
  {
    var lots', visits' := lots[parkingId := Occupied(lots[parkingId])],
                          visits[id := ClientParking(clientId, parkingId, now, None)];
    forall pid | pid in lots'
      ensures lots'[pid].countAvailablePlaces + |OpenAt(visits', pid)| == lots'[pid].countPlaces
    {
      OpenAtAfterEntry(visits, id, ClientParking(clientId, parkingId, now, None), pid);
    }
  }

  /** An exit (one open visit closed, one place freed at its lot) keeps
      every lot's places conserved. */
  lemma ConservedAfterExit(lots: map<int, Parking>, visits: map<int, ClientParking>, id: int, now: nat)
    requires PlacesConserved(lots, visits)
    requires id in visits && visits[id].IsOpen() && visits[id].parkingId in lots
    ensures var pid := visits[id].parkingId;
            PlacesConserved(lots[pid := Vacated(lots[pid])], visits[id := Closed(visits[id], now)])
  {
    var pid := visits[id].parkingId;
    var lots', visits' := lots[pid := Vacated(lots[pid])], visits[id := Closed(visits[id], now)];
    forall q | q in lots'
      ensures lots'[q].countAvailablePlaces + |OpenAt(visits', q)| == lots'[q].countPlaces
    {
      OpenAtAfterExit(visits, id, now, q);
    }
  }

  /** An entry for a pair with no open visit keeps open visits unique per pair. */
  lemma OnePerPairAfterEntry(visits: map<int, ClientParking>, clientId: int, parkingId: int, id: int, now: nat)
    requires OneOpenPerPair(visits) && id !in visits && OpenFor(visits, clientId, parkingId) == {}
    ensures OneOpenPerPair(visits[id := ClientParking(clientId, parkingId, now, None)])
  {
    var after := visits[id := ClientParking(clientId, parkingId, now, None)];
    assert forall k :: k in visits ==> k !in OpenFor(visits, clientId, parkingId);
    forall i, j | i in after && j in after && after[i].IsOpen() && after[j].IsOpen() &&
                  after[i].clientId == after[j].clientId && after[i].parkingId == after[j].parkingId
      ensures i == j
    {
      if i != id && j != id {
        assert after[i] == visits[i] && after[j] == visits[j];
      }
    }
  }

  /** Closing a visit keeps open visits unique per pair. */
  lemma OnePerPairAfterExit(visits: map<int, ClientParking>, id: int, now: nat)
    requires OneOpenPerPair(visits) && id in visits
    ensures OneOpenPerPair(visits[id := Closed(visits[id], now)])
  {
  }

  /** A full entry step keeps the tables consistent. */
  lemma EntryKeepsConsistent(
    clients: map<int, Client>, lots: map<int, Parking>, visits: map<int, ClientParking>,
    nextClientId: int, nextLotId: int, nextVisitId: int,
    clientId: int, parkingId: int, now: nat)
    requires Consistent(clients, lots, visits, nextClientId, nextLotId, nextVisitId)
    requires parkingId in lots && lots[parkingId].countAvailablePlaces != 0
    requires OpenFor(visits, clientId, parkingId) == {}
    ensures Consistent(clients, lots[parkingId := Occupied(lots[parkingId])],
                       visits[nextVisitId := ClientParking(clientId, parkingId, now, None)],
                       nextClientId, nextLotId, nextVisitId + 1)
  {
    var visits' := visits[nextVisitId := ClientParking(clientId, parkingId, now, None)];
    IdsBelowAfterInsert(visits, nextVisitId, ClientParking(clientId, parkingId, now, None));
    ConservedAfterEntry(lots, visits, clientId, parkingId, nextVisitId, now);
    OnePerPairAfterEntry(visits, clientId, parkingId, nextVisitId, now);
    var lots' := lots[parkingId := Occupied(lots[parkingId])];
    assert UniqueAddresses(lots') by {
      forall i, j | i in lots' && j in lots' && lots'[i].address == lots'[j].address ensures i == j {
        assert lots[i].address == lots'[i].address && lots[j].address == lots'[j].address;
      }
    }
  }

  /** A full exit step keeps the tables consistent. */
  lemma ExitKeepsConsistent(
    clients: map<int, Client>, lots: map<int, Parking>, visits: map<int, ClientParking>,
    nextClientId: int, nextLotId: int, nextVisitId: int,
    id: int, now: nat)
    requires Consistent(clients, lots, visits, nextClientId, nextLotId, nextVisitId)
    requires id in visits && visits[id].IsOpen()
    ensures var pid := visits[id].parkingId;
            Consistent(clients, lots[pid := Vacated(lots[pid])], visits[id := Closed(visits[id], now)],
                       nextClientId, nextLotId, nextVisitId)
  {
    var pid := visits[id].parkingId;
    ConservedAfterExit(lots, visits, id, now);
    OnePerPairAfterExit(visits, id, now);
    var lots' := lots[pid := Vacated(lots[pid])];
    assert UniqueAddresses(lots') by {
      forall i, j | i in lots' && j in lots' && lots'[i].address == lots'[j].address ensures i == j {
        assert lots[i].address == lots'[i].address && lots[j].address == lots'[j].address;
      }
    }
  }

  /** An exit undoes an entry of the same pair on the lots, and leaves the
      entry's visit closed at the exit time. */
  lemma {:induction false} ExitUndoesEntry(
    lots: map<int, Parking>, visits: map<int, ClientParking>,
    id: int, clientId: int, parkingId: int, timeIn: nat, timeOut: nat)
    requires parkingId in lots
    ensures var entered := lots[parkingId := Occupied(lots[parkingId])];
            entered[parkingId := Vacated(entered[parkingId])] == lots
    ensures var entered := visits[id := ClientParking(clientId, parkingId, timeIn, None)];
            entered[id := Closed(entered[id], timeOut)]
            == visits[id := ClientParking(clientId, parkingId, timeIn, Some(timeOut))]
  {
    var entered := lots[parkingId := Occupied(lots[parkingId])];
    assert Vacated(entered[parkingId]) == lots[parkingId];
    assert entered[parkingId := lots[parkingId]] == lots;
  }
}
