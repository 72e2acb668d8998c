/** The request handlers of the parking service: registering a client,
    registering a parking lot, a client entering a lot and a client leaving
    it. Each handler runs an ordered chain of checks (the first that fails
    decides the response and nothing is stored) and, when every check
    passes, updates the tables in one step. */
module App {
  import opened Models
  import opened Tables

  /** A refused request: the HTTP status and the `reason` the response carries. */
  datatype Rejection = Rejection(status: int, reason: string)

  /** What a handler answers: the status and the id of the row it created
      or updated, or a rejection. */
  datatype Response = Success(status: int, id: int) | Rejected(why: Rejection)

  const NoName := "Client has to have name"
  const NoSurname := "Client has to have surname"
  const NoAddress := "Parking has to have address"
  const DuplicateAddress := "Already have parking with such address"
  const NoPlaces := "Parking has to have parking lots"
  const EnterNeedsClientId := "Need to specify \"client_id\" parameter"
  const EnterNeedsParkingId := "Need to specify \"parking_id\" parameter"
  const UnknownParking := "Parking doesn't exist"
  const ParkingClosed := "Parking is closed"
  const ParkingFull := "Parking is full"
  const UnknownClient := "Client doesn't exist"
  const NoCar := "Cannot enter parking without car"
  const AlreadyParked := "This client is already at this parking"
  const LeaveNeedsClientId := "Need to specify client_id"
  const LeaveNeedsParkingId := "Need to specify parking_id"
  const NoParkingLog := "Cannot find parking log"
  const LeaveUnknownClient := "Cannot find client with this client_id"
  const NoCreditCard := "No credit card added, cannot process payment"

  // ---------------------------------------------------------------------
  // The guard chains

  /** The checks of client registration: a name, then a surname. */
  function NewClientCheck(name: Option<string>, surname: Option<string>): (r: Option<Rejection>)
    ensures r.None? <==> TextTruthy(name) && TextTruthy(surname)
    ensures r.Some? ==> r.value.status == 400
    ensures !TextTruthy(name) ==> r.value.reason == NoName
  {
    if !TextTruthy(name) then Some(Rejection(400, NoName))
    else if !TextTruthy(surname) then Some(Rejection(400, NoSurname))
    else None
  }

  /** The checks of lot registration: an address, an address no lot has
      yet, then a truthy number of places. */
  function NewParkingCheck(lots: map<int, Parking>, address: Option<string>, countPlaces: Option<int>): (r: Option<Rejection>)
    ensures r.None? <==> TextTruthy(address) && !AddressTaken(lots, address.value) && IntTruthy(countPlaces)
    ensures r.Some? ==> r.value.status == 400
    ensures TextTruthy(address) && AddressTaken(lots, address.value) ==> r.value.reason == DuplicateAddress
  {
    if !TextTruthy(address) then Some(Rejection(400, NoAddress))
    else if AddressTaken(lots, address.value) then Some(Rejection(400, DuplicateAddress))
    else if !IntTruthy(countPlaces) then Some(Rejection(400, NoPlaces))
    else None
  }

  /** The eight checks of entering a lot, in the order the handler runs them. */
  function EnterCheck(
    clients: map<int, Client>, lots: map<int, Parking>, visits: map<int, ClientParking>,
    clientId: Option<int>, parkingId: Option<int>): (r: Option<Rejection>)
    ensures r.Some? ==> r.value.status in {400, 404, 409}
    ensures r.None? <==>
              && IntTruthy(clientId) && IntTruthy(parkingId)
              && parkingId.value in lots && clientId.value in clients
              && FlagTruthy(lots[parkingId.value].isOpened)
              && lots[parkingId.value].countAvailablePlaces != 0
              && TextTruthy(clients[clientId.value].carNumber)
              && OpenFor(visits, clientId.value, parkingId.value) == {}
  {
    if !IntTruthy(clientId) then Some(Rejection(400, EnterNeedsClientId))
    else if !IntTruthy(parkingId) then Some(Rejection(400, EnterNeedsParkingId))
    else
      var cid, pid := clientId.value, parkingId.value;
      if pid !in lots then Some(Rejection(404, UnknownParking))
      else if !FlagTruthy(lots[pid].isOpened) then Some(Rejection(409, ParkingClosed))
      else if lots[pid].countAvailablePlaces == 0 then Some(Rejection(409, ParkingFull))
      else if cid !in clients then Some(Rejection(404, UnknownClient))
      else if !TextTruthy(clients[cid].carNumber) then Some(Rejection(409, NoCar))
      else if OpenFor(visits, cid, pid) != {} then Some(Rejection(409, AlreadyParked))
      else None
  }

  /** The five checks of leaving a lot, in the order the handler runs them. */
  function LeaveCheck(
    clients: map<int, Client>, visits: map<int, ClientParking>,
    clientId: Option<int>, parkingId: Option<int>): (r: Option<Rejection>)
    ensures r.Some? ==> r.value.status in {400, 402, 404}
    ensures r.None? <==>
              && IntTruthy(clientId) && IntTruthy(parkingId)
              && OpenFor(visits, clientId.value, parkingId.value) != {}
              && clientId.value in clients
              && TextTruthy(clients[clientId.value].creditCard)
    ensures r == Some(Rejection(402, NoCreditCard)) ==>
              && IntTruthy(clientId) && IntTruthy(parkingId)
              && OpenFor(visits, clientId.value, parkingId.value) != {}
              && clientId.value in clients
  {
    if !IntTruthy(clientId) then Some(Rejection(400, LeaveNeedsClientId))
    else if !IntTruthy(parkingId) then Some(Rejection(400, LeaveNeedsParkingId))
    else
      var cid, pid := clientId.value, parkingId.value;
      if OpenFor(visits, cid, pid) == {} then Some(Rejection(404, NoParkingLog))
      else if cid !in clients then Some(Rejection(404, LeaveUnknownClient))
      else if !TextTruthy(clients[cid].creditCard) then Some(Rejection(402, NoCreditCard))
      else None
  }

  // ---------------------------------------------------------------------
  // Properties of the guard chains

  /** Client registration answers each missing field with its own reason,
      the name before the surname. */
  lemma NewClientCheckOrder(name: Option<string>, surname: Option<string>)
    ensures !TextTruthy(name) ==> NewClientCheck(name, surname) == Some(Rejection(400, NoName))
    ensures TextTruthy(name) && !TextTruthy(surname)
            ==> NewClientCheck(name, surname) == Some(Rejection(400, NoSurname))
  {
  }

  /** Lot registration answers a missing address, a used address and a falsy
      count each with its own reason, in that order. */
  lemma NewParkingCheckOrder(lots: map<int, Parking>, address: Option<string>, countPlaces: Option<int>)
    ensures !TextTruthy(address)
            ==> NewParkingCheck(lots, address, countPlaces) == Some(Rejection(400, NoAddress))
    ensures TextTruthy(address) && AddressTaken(lots, address.value)
            ==> NewParkingCheck(lots, address, countPlaces) == Some(Rejection(400, DuplicateAddress))
    ensures TextTruthy(address) && !AddressTaken(lots, address.value) && !IntTruthy(countPlaces)
            ==> NewParkingCheck(lots, address, countPlaces) == Some(Rejection(400, NoPlaces))
  {
  }

  /** Each check of entering a lot, reached with every earlier one passed,
      gives its own status and reason. */
  lemma EnterCheckOrder(
    clients: map<int, Client>, lots: map<int, Parking>, visits: map<int, ClientParking>,
    clientId: Option<int>, parkingId: Option<int>)
    ensures !IntTruthy(clientId)
            ==> EnterCheck(clients, lots, visits, clientId, parkingId) == Some(Rejection(400, EnterNeedsClientId))
    ensures IntTruthy(clientId) && !IntTruthy(parkingId)
            ==> EnterCheck(clients, lots, visits, clientId, parkingId) == Some(Rejection(400, EnterNeedsParkingId))
    ensures IntTruthy(clientId) && IntTruthy(parkingId) && parkingId.value !in lots
            ==> EnterCheck(clients, lots, visits, clientId, parkingId) == Some(Rejection(404, UnknownParking))
    ensures IntTruthy(clientId) && IntTruthy(parkingId) && parkingId.value in lots
            && !FlagTruthy(lots[parkingId.value].isOpened)
            ==> EnterCheck(clients, lots, visits, clientId, parkingId) == Some(Rejection(409, ParkingClosed))
    ensures IntTruthy(clientId) && IntTruthy(parkingId) && parkingId.value in lots
            && FlagTruthy(lots[parkingId.value].isOpened)
            && lots[parkingId.value].countAvailablePlaces == 0
            ==> EnterCheck(clients, lots, visits, clientId, parkingId) == Some(Rejection(409, ParkingFull))
    ensures IntTruthy(clientId) && IntTruthy(parkingId) && parkingId.value in lots
            && FlagTruthy(lots[parkingId.value].isOpened)
            && lots[parkingId.value].countAvailablePlaces != 0
            && clientId.value !in clients
            ==> EnterCheck(clients, lots, visits, clientId, parkingId) == Some(Rejection(404, UnknownClient))
    ensures IntTruthy(clientId) && IntTruthy(parkingId) && parkingId.value in lots
            && FlagTruthy(lots[parkingId.value].isOpened)
            && lots[parkingId.value].countAvailablePlaces != 0
            && clientId.value in clients && !TextTruthy(clients[clientId.value].carNumber)
            ==> EnterCheck(clients, lots, visits, clientId, parkingId) == Some(Rejection(409, NoCar))
    ensures IntTruthy(clientId) && IntTruthy(parkingId) && parkingId.value in lots
            && FlagTruthy(lots[parkingId.value].isOpened)
            && lots[parkingId.value].countAvailablePlaces != 0
            && clientId.value in clients && TextTruthy(clients[clientId.value].carNumber)
            && OpenFor(visits, clientId.value, parkingId.value) != {}
            ==> EnterCheck(clients, lots, visits, clientId, parkingId) == Some(Rejection(409, AlreadyParked))
  {
  }

  /** Each check of leaving a lot, reached with every earlier one passed,
      gives its own status and reason. */
  lemma LeaveCheckOrder(
    clients: map<int, Client>, visits: map<int, ClientParking>,
    clientId: Option<int>, parkingId: Option<int>)
    ensures !IntTruthy(clientId)
            ==> LeaveCheck(clients, visits, clientId, parkingId) == Some(Rejection(400, LeaveNeedsClientId))
    ensures IntTruthy(clientId) && !IntTruthy(parkingId)
            ==> LeaveCheck(clients, visits, clientId, parkingId) == Some(Rejection(400, LeaveNeedsParkingId))
    ensures IntTruthy(clientId) && IntTruthy(parkingId)
            && OpenFor(visits, clientId.value, parkingId.value) == {}
            ==> LeaveCheck(clients, visits, clientId, parkingId) == Some(Rejection(404, NoParkingLog))
    ensures IntTruthy(clientId) && IntTruthy(parkingId)
            && OpenFor(visits, clientId.value, parkingId.value) != {}
            && clientId.value !in clients
            ==> LeaveCheck(clients, visits, clientId, parkingId) == Some(Rejection(404, LeaveUnknownClient))
    ensures IntTruthy(clientId) && IntTruthy(parkingId)
            && OpenFor(visits, clientId.value, parkingId.value) != {}
            && clientId.value in clients && !TextTruthy(clients[clientId.value].creditCard)
            ==> LeaveCheck(clients, visits, clientId, parkingId) == Some(Rejection(402, NoCreditCard))
  {
  }

  /** A lot given with a falsy count is refused, but a negative count is
      accepted: only None and 0 are rejected. */
  lemma NegativeCountAccepted(lots: map<int, Parking>, address: string, countPlaces: int)
    requires address != "" && !AddressTaken(lots, address) && countPlaces < 0
    ensures NewParkingCheck(lots, Some(address), Some(countPlaces)) == None
    ensures NewParkingCheck(lots, Some(address), Some(0)) == Some(Rejection(400, NoPlaces))
  {
  }

  /** Once the ids are given and the lot exists and is open, entry is
      refused as full exactly when no place is available. */
  lemma FullIffNoPlaceLeft(
    clients: map<int, Client>, lots: map<int, Parking>, visits: map<int, ClientParking>,
    clientId: Option<int>, parkingId: Option<int>)
    requires IntTruthy(clientId) && IntTruthy(parkingId)
    requires parkingId.value in lots && FlagTruthy(lots[parkingId.value].isOpened)
    ensures EnterCheck(clients, lots, visits, clientId, parkingId) == Some(Rejection(409, ParkingFull))
            <==> lots[parkingId.value].countAvailablePlaces == 0
  {
  }

  /** A lot of negative capacity whose places are conserved is never
      reported full: its count of available places stays below zero. */
  lemma NegativeCapacityNeverFull(
    clients: map<int, Client>, lots: map<int, Parking>, visits: map<int, ClientParking>,
    clientId: Option<int>, parkingId: Option<int>)
    requires PlacesConserved(lots, visits)
    requires IntTruthy(parkingId) && parkingId.value in lots && lots[parkingId.value].countPlaces < 0
    ensures EnterCheck(clients, lots, visits, clientId, parkingId) != Some(Rejection(409, ParkingFull))
  {
  }

  /** Once every earlier check passes, entry is refused as "already at this
      parking" exactly when the client has an open visit at this lot. */
  lemma AlreadyParkedIffOpenVisit(
    clients: map<int, Client>, lots: map<int, Parking>, visits: map<int, ClientParking>,
    clientId: Option<int>, parkingId: Option<int>)
    requires IntTruthy(clientId) && IntTruthy(parkingId)
    requires parkingId.value in lots && FlagTruthy(lots[parkingId.value].isOpened)
    requires lots[parkingId.value].countAvailablePlaces != 0
    requires clientId.value in clients && TextTruthy(clients[clientId.value].carNumber)
    ensures EnterCheck(clients, lots, visits, clientId, parkingId) == Some(Rejection(409, AlreadyParked))
            <==> OpenFor(visits, clientId.value, parkingId.value) != {}
  {
  }

  /** A visit of another client, or at another lot, changes nothing about
      whether a client may enter this lot. */
  lemma OpenVisitElsewhereDoesNotBlock(
    clients: map<int, Client>, lots: map<int, Parking>, visits: map<int, ClientParking>,
    clientId: Option<int>, parkingId: Option<int>, id: int, visit: ClientParking)
    requires IntTruthy(clientId) && IntTruthy(parkingId) && id !in visits
    requires visit.clientId != clientId.value || visit.parkingId != parkingId.value
    ensures EnterCheck(clients, lots, visits[id := visit], clientId, parkingId)
            == EnterCheck(clients, lots, visits, clientId, parkingId)
  {
  }

  /** Leaving looks for the open visit before it looks at the client: with
      no open visit the answer is 404, whatever the client's card. */
  lemma NoLogBeforeNoCard(
    clients: map<int, Client>, visits: map<int, ClientParking>,
    clientId: Option<int>, parkingId: Option<int>)
    requires IntTruthy(clientId) && IntTruthy(parkingId)
    requires OpenFor(visits, clientId.value, parkingId.value) == {}
    ensures LeaveCheck(clients, visits, clientId, parkingId) == Some(Rejection(404, NoParkingLog))
  {
  }

  // ---------------------------------------------------------------------
  // The service

  class ParkingService {
    var clients: map<int, Client>
    var lots: map<int, Parking>
    var visits: map<int, ClientParking>
    var nextClientId: int
    var nextLotId: int
    var nextVisitId: int

    ghost predicate Valid()
      reads this
    {
      Consistent(clients, lots, visits, nextClientId, nextLotId, nextVisitId)
    }

    /** Empty tables. */
    constructor ()
      ensures Valid()
      ensures clients == map[] && lots == map[] && visits == map[]
      ensures nextClientId == 1 && nextLotId == 1 && nextVisitId == 1
    {
      clients, lots, visits := map[], map[], map[];
      nextClientId, nextLotId, nextVisitId := 1, 1, 1;
    }

    /** Tables loaded as they stand, provided they are consistent. */
    constructor Load(
      clients: map<int, Client>, lots: map<int, Parking>, visits: map<int, ClientParking>,
      nextClientId: int, nextLotId: int, nextVisitId: int)
      requires Consistent(clients, lots, visits, nextClientId, nextLotId, nextVisitId)
      ensures Valid()
      ensures this.clients == clients && this.lots == lots && this.visits == visits
      ensures this.nextClientId == nextClientId && this.nextLotId == nextLotId
      ensures this.nextVisitId == nextVisitId
    {
      this.clients, this.lots, this.visits := clients, lots, visits;
      this.nextClientId, this.nextLotId, this.nextVisitId := nextClientId, nextLotId, nextVisitId;
    }

    /** Registers a client, storing the four fields as given. */
    method NewClient(name: Option<string>, surname: Option<string>, carNumber: Option<string>, creditCard: Option<string>)
      returns (r: Response)
      requires Valid()
      modifies this
      ensures Valid()
      ensures NewClientCheck(name, surname).Some? ==>
                r == Rejected(NewClientCheck(name, surname).value) && unchanged(this)
      ensures NewClientCheck(name, surname).None? ==>
                && r == Success(201, old(nextClientId))
                && old(nextClientId) !in old(clients)
                && clients == old(clients)[old(nextClientId) := Client(name.value, surname.value, creditCard, carNumber)]
                && nextClientId == old(nextClientId) + 1
                && lots == old(lots) && visits == old(visits)
                && nextLotId == old(nextLotId) && nextVisitId == old(nextVisitId)
    {
      var rejection := NewClientCheck(name, surname);
      if rejection.Some? {
        return Rejected(rejection.value);
      }
      var client := Client(name.value, surname.value, creditCard, carNumber);
      NewClientKeepsConsistent(clients, lots, visits, nextClientId, nextLotId, nextVisitId, client);
      clients := clients[nextClientId := client];
      r := Success(201, nextClientId);
      nextClientId := nextClientId + 1;
    }

    /** Registers a lot with every place available; the `opened` field defaults to
        true when the request leaves it out. */
    method NewParkingZone(address: Option<string>, openedField: Field<bool>, countPlaces: Option<int>)
      returns (r: Response)
      requires Valid()
      modifies this
      ensures Valid()
      ensures NewParkingCheck(old(lots), address, countPlaces).Some? ==>
                r == Rejected(NewParkingCheck(old(lots), address, countPlaces).value) && unchanged(this)
      ensures NewParkingCheck(old(lots), address, countPlaces).None? ==>
                && r == Success(201, old(nextLotId))
                && old(nextLotId) !in old(lots)
                && lots == old(lots)[old(nextLotId) :=
                     Parking(address.value, GetOr(openedField, true), countPlaces.value, countPlaces.value)]
                && nextLotId == old(nextLotId) + 1
                && clients == old(clients) && visits == old(visits)
                && nextClientId == old(nextClientId) && nextVisitId == old(nextVisitId)
      ensures r.Success? && openedField.Absent? ==> FlagTruthy(lots[r.id].isOpened)
    {
      var rejection := NewParkingCheck(lots, address, countPlaces);
      if rejection.Some? {
        return Rejected(rejection.value);
      }
      var lot := Parking(address.value, GetOr(openedField, true), countPlaces.value, countPlaces.value);
      NewLotKeepsConsistent(clients, lots, visits, nextClientId, nextLotId, nextVisitId, lot);
      lots := lots[nextLotId := lot];
      r := Success(201, nextLotId);
      nextLotId := nextLotId + 1;
    }

    /** A client enters a lot: one place taken there, one open visit
        stamped `now` added. */
    method EnterParking(clientId: Option<int>, parkingId: Option<int>, now: nat) returns (r: Response)
      requires Valid()
      modifies this
      ensures Valid()
      ensures EnterCheck(old(clients), old(lots), old(visits), clientId, parkingId).Some? ==>
                r == Rejected(EnterCheck(old(clients), old(lots), old(visits), clientId, parkingId).value)
                && unchanged(this)
      ensures EnterCheck(old(clients), old(lots), old(visits), clientId, parkingId).None? ==>
                var pid := parkingId.value;
                && r == Success(201, old(nextVisitId))
                && old(nextVisitId) !in old(visits)
                && lots == old(lots)[pid := Occupied(old(lots)[pid])]
                && visits == old(visits)[old(nextVisitId) := ClientParking(clientId.value, pid, now, None)]
                && nextVisitId == old(nextVisitId) + 1
                && clients == old(clients)
                && nextClientId == old(nextClientId) && nextLotId == old(nextLotId)
    {
      var rejection := EnterCheck(clients, lots, visits, clientId, parkingId);
      if rejection.Some? {
        return Rejected(rejection.value);
      }
      var cid, pid := clientId.value, parkingId.value;
      EntryKeepsConsistent(clients, lots, visits, nextClientId, nextLotId, nextVisitId, cid, pid, now);
      lots := lots[pid := Occupied(lots[pid])];
      visits := visits[nextVisitId := ClientParking(cid, pid, now, None)];
      r := Success(201, nextVisitId);
      nextVisitId := nextVisitId + 1;
    }

    /** A client leaves a lot: the first open visit of the pair closed at
        `now`, one place freed at the lot. */
    method LeaveParking(clientId: Option<int>, parkingId: Option<int>, now: nat) returns (r: Response)
      requires Valid()
      modifies this
      ensures Valid()
      ensures LeaveCheck(old(clients), old(visits), clientId, parkingId).Some? ==>
                r == Rejected(LeaveCheck(old(clients), old(visits), clientId, parkingId).value)
                && unchanged(this)
      ensures LeaveCheck(old(clients), old(visits), clientId, parkingId).None? ==>
                var cid, pid := clientId.value, parkingId.value;
                var id := Least(OpenFor(old(visits), cid, pid));
                && r == Success(200, id)
                && OpenFor(old(visits), cid, pid) == {id}
                && pid in old(lots)
                && lots == old(lots)[pid := Vacated(old(lots)[pid])]
                && visits == old(visits)[id := Closed(old(visits)[id], now)]
                && clients == old(clients)
                && nextClientId == old(nextClientId) && nextLotId == old(nextLotId)
                && nextVisitId == old(nextVisitId)
      ensures r.Success? && now > old(visits)[r.id].timeIn ==>
                visits[r.id].timeOut.Some? && visits[r.id].timeOut.value > visits[r.id].timeIn
    {
      var rejection := LeaveCheck(clients, visits, clientId, parkingId);
      if rejection.Some? {
        return Rejected(rejection.value);
      }
      var cid, pid := clientId.value, parkingId.value;
      var id := Least(OpenFor(visits, cid, pid));
      OnlyOpenVisit(visits, cid, pid);
      ExitKeepsConsistent(clients, lots, visits, nextClientId, nextLotId, nextVisitId, id, now);
      lots := lots[pid := Vacated(lots[pid])];
      visits := visits[id := Closed(visits[id], now)];
      r := Success(200, id);
    }

    /** A client enters a lot and then leaves it: when both succeed, every
        lot is as before and the visit is closed. */
    method EnterThenLeave(clientId: Option<int>, parkingId: Option<int>, timeIn: nat, timeOut: nat)
      returns (entered: Response, left: Response)
      requires Valid()
      modifies this
      ensures Valid()
      ensures entered.Success? ==>
                IntTruthy(clientId) && IntTruthy(parkingId) && clientId.value in old(clients)
      ensures entered.Success? ==>
                (left.Success? <==> TextTruthy(old(clients)[clientId.value].creditCard))
      ensures entered.Success? && left.Success? ==>
                && left.id == entered.id
                && lots == old(lots)
                && visits == old(visits)[entered.id :=
                     ClientParking(clientId.value, parkingId.value, timeIn, Some(timeOut))]
    {
      entered := EnterParking(clientId, parkingId, timeIn);
      ghost var lotsIn, visitsIn := lots, visits;
      if entered.Success? {
        var cid, pid := clientId.value, parkingId.value;
        OpenForAfterInsert(old(visits), entered.id, ClientParking(cid, pid, timeIn, None), cid, pid);
        assert OpenFor(visitsIn, cid, pid) == {entered.id};
        assert clients == old(clients);
      }
      left := LeaveParking(clientId, parkingId, timeOut);
      if entered.Success? && left.Success? {
        ExitUndoesEntry(old(lots), old(visits), entered.id, clientId.value, parkingId.value, timeIn, timeOut);
      }
    }
  }
}
