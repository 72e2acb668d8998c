/** Worked requests against the service, following the repository's test
    suite: each method builds the tables, sends the requests and states the
    responses the handlers give. */
module Scenarios {
  import opened Models
  import opened Tables
  import opened App

  /** The tables the test fixture starts from: two clients with a car and a
      card, one lot of two places of which one is taken by the second
      client's open visit, stamped `now`. */
  function FixtureClients(): map<int, Client>
  {
    map[1 := Client("name", "surname", Some("1234 1234 1234 1234"), Some("A123AA123")),
        2 := Client("Another name", "One mor client", Some("2344 5673 8909 8765"), Some("T456HC234"))]
  }

  function FixtureLots(): map<int, Parking>
  {
    map[1 := Parking("address", Some(true), 2, 1)]
  }

  function FixtureVisits(now: nat): map<int, ClientParking>
  {
    map[1 := ClientParking(2, 1, now, None)]
  }

  /** The fixture's tables are consistent: in particular the one open visit
      and the one available place make up the lot's two places. */
  lemma FixtureConsistent(now: nat)
    ensures Consistent(FixtureClients(), FixtureLots(), FixtureVisits(now), 3, 2, 2)
  {
    assert 2 in FixtureClients() && IdsBelow(FixtureClients(), 3);
    assert 1 in FixtureLots() && IdsBelow(FixtureLots(), 2);
    assert 1 in FixtureVisits(now) && IdsBelow(FixtureVisits(now), 2);
    assert OpenAt(FixtureVisits(now), 1) == {1};
  }

  /** The first client of the fixture takes the lot's last place; the
      second client, already parked there, is then refused as full, since
      fullness is checked before an open visit is looked for. */
  method FixtureFillUp(now: nat) returns (service: ParkingService, enter: Response, again: Response)
    ensures fresh(service) && service.Valid()
    ensures enter == Success(201, 2)
    ensures again == Rejected(Rejection(409, ParkingFull))
    ensures service.clients == FixtureClients()
    ensures service.lots == map[1 := Parking("address", Some(true), 2, 0)]
    ensures service.visits == FixtureVisits(now)[2 := ClientParking(1, 1, now + 1, None)]
  {
    FixtureConsistent(now);
    service := new ParkingService.Load(FixtureClients(), FixtureLots(), FixtureVisits(now), 3, 2, 2);
    assert OpenFor(service.visits, 1, 1) == {};
    enter := service.EnterParking(Some(1), Some(1), now + 1);
    again := service.EnterParking(Some(2), Some(1), now + 2);
  }

  /** From the fixture: client 1 fills the lot, client 2 is refused as
      full, then client 2 leaves and frees a place. */
  method FixtureEnterAndLeave(now: nat) returns (enter: Response, again: Response, leave: Response, placesAfter: int)
    ensures enter == Success(201, 2)
    ensures again == Rejected(Rejection(409, ParkingFull))
    ensures leave == Success(200, 1)
    ensures placesAfter == 1
  {
    var service;
    service, enter, again := FixtureFillUp(now);
    assert OpenFor(service.visits, 2, 1) == {1};
    leave := service.LeaveParking(Some(2), Some(1), now + 3);
    placesAfter := service.lots[1].countAvailablePlaces;
  }

  /** One open lot of ten places and a client with a car but no card. */
  method OneLotCardlessClient() returns (service: ParkingService)
    ensures fresh(service) && service.Valid()
    ensures service.lots == map[1 := Parking("address", Some(true), 10, 10)]
    ensures service.clients == map[1 := Client("test", "test", None, Some("car_num"))]
    ensures service.visits == map[] && service.nextVisitId == 1
  {
    service := new ParkingService();
    var lot := service.NewParkingZone(Some("address"), Absent, Some(10));
    var client := service.NewClient(Some("test"), Some("test"), Some("car_num"), None);
  }

  /** Leaving without an open visit is refused with 404 even for a client
      who has no card; with an open visit but no card it is refused with
      402 and the visit stays open. */
  method LeaveWithoutCard() returns (noLog: Response, noCard: Response, stillOpen: bool)
    ensures noLog == Rejected(Rejection(404, NoParkingLog))
    ensures noCard == Rejected(Rejection(402, NoCreditCard))
    ensures stillOpen
  {
    var service := OneLotCardlessClient();
    assert OpenFor(service.visits, 1, 1) == {};
    noLog := service.LeaveParking(Some(1), Some(1), 5);
    var enter := service.EnterParking(Some(1), Some(1), 6);
    assert OpenFor(service.visits, 1, 1) == {1};
    noCard := service.LeaveParking(Some(1), Some(1), 7);
    stillOpen := service.visits[1].IsOpen();
  }

  /** Registering a second lot at the same address is refused and the first
      lot keeps its ten places. */
  method SameAddressTwice() returns (first: Response, second: Response, places: int)
    ensures first == Success(201, 1)
    ensures second == Rejected(Rejection(400, DuplicateAddress))
    ensures places == 10
  {
    var service := new ParkingService();
    first := service.NewParkingZone(Some("X"), Absent, Some(10));
    assert service.lots[1].address == "X";
    second := service.NewParkingZone(Some("X"), Absent, Some(5));
    places := service.lots[1].countPlaces;
  }

  /** A lot registered as closed refuses entry, even to a client with a car. */
  method ClosedLot() returns (closed: Response)
    ensures closed == Rejected(Rejection(409, ParkingClosed))
  {
    var service := new ParkingService();
    var lot := service.NewParkingZone(Some("some_address"), Present(Some(false)), Some(1));
    var client := service.NewClient(Some("name"), Some("surname"), Some("A123AA123"), None);
    closed := service.EnterParking(Some(1), Some(1), 1);
  }

  /** Two open lots, "first" with two places and "second" with one, and a
      client with a car, registered in that order on an empty service. */
  method TwoLotsOneClient() returns (service: ParkingService)
    ensures fresh(service) && service.Valid()
    ensures service.lots == map[1 := Parking("first", Some(true), 2, 2),
                                2 := Parking("second", Some(true), 1, 1)]
    ensures service.clients == map[1 := Client("name", "surname", None, Some("A123AA123"))]
    ensures service.visits == map[]
    ensures service.nextVisitId == 1
  {
    service := new ParkingService();
    var lot1 := service.NewParkingZone(Some("first"), Absent, Some(2));
    assert !AddressTaken(service.lots, "second");
    var lot2 := service.NewParkingZone(Some("second"), Present(Some(true)), Some(1));
    var client := service.NewClient(Some("name"), Some("surname"), Some("A123AA123"), None);
  }

  /** A client parked at a lot with places to spare cannot enter it again,
      but may still enter another lot. */
  method EnterTwiceAndElsewhere() returns (first: Response, twice: Response, elsewhere: Response)
    ensures first == Success(201, 1)
    ensures twice == Rejected(Rejection(409, AlreadyParked))
    ensures elsewhere == Success(201, 2)
  {
    var service := TwoLotsOneClient();
    assert OpenFor(service.visits, 1, 1) == {};
    first := service.EnterParking(Some(1), Some(1), 2);
    assert OpenFor(service.visits, 1, 1) == {1};
    twice := service.EnterParking(Some(1), Some(1), 3);
    assert OpenFor(service.visits, 1, 2) == {};
    elsewhere := service.EnterParking(Some(1), Some(2), 3);
  }
}
