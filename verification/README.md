# Parking occupancy rules, modelled in Dafny

This project models the core of a small parking-operator service. The service
keeps three tables:

- clients, each with a name, a surname, an optional car number and an optional
  credit card;
- parking lots, each with an address, an `opened` flag, a capacity
  (`count_places`) and a counter of available places
  (`count_available_places`);
- visit records (`client_parking`), each naming a client and a lot, with the
  time the client came in and, once they leave, the time they left.

It answers four requests: register a client, register a lot, a client enters
a lot, and a client leaves a lot. Each handler runs an ordered chain of checks.
The first check that fails decides the response, as an HTTP status and a reason
string, and nothing is stored. When every check passes, the handler updates the
tables in one step.

Layout:

- `models.dfy` (module `Models`): the rows of the three tables. It also holds
  Python truthiness for request fields. A missing key and JSON null both read
  as `None`. An id of `0` and an empty string count as missing too. A lot's
  `opened` column is truthy only when it holds `true`.
- `tables.dfy` (module `Tables`): the open-visit queries and the consistency
  conditions the handlers keep, with the lemmas proving they are kept:
  - ids are positive, and each table's next id is 1 when the table is empty
    and otherwise its largest id plus one;
  - addresses are unique;
  - each (client, lot) pair has at most one open visit;
  - every visit names an existing lot;
  - places are conserved: available places plus open visits equal the
    capacity at every lot;
  - a lot of non-negative capacity never has a negative count of available
    places.
- `app.dfy` (module `App`): the four guard chains as functions
  (`NewClientCheck`, `NewParkingCheck`, `EnterCheck`, `LeaveCheck`) and lemmas
  about their order. It also holds the class `ParkingService`: its fields are
  the three tables and the id counters, and each handler method runs its check
  chain and then updates the fields.
- `scenarios.dfy` (module `Scenarios`): requests from the repository's test
  suite, replayed against the class, with the responses they get. It also
  proves that the test fixture's tables are consistent.

The clock is a natural-number parameter `now`, supplied by the caller.
Ids are handed out by counters that start at 1. SQLite gives a new row the
largest rowid plus one, and no row is ever deleted, so the counters give the
same ids. The leave handler takes the first row its open-visit query returns.
The model takes that to be the row with the least id, which is the order of a
SQLite table scan. Under open-visit uniqueness that row is the only match
anyway (`Tables.OnlyOpenVisit`).

Points where the code's behaviour is easy to misread, and which the model
keeps as the code has them:

- Lot registration checks for a duplicate address before it checks the count
  of places. The duplicate is answered with 400.
- Lot registration rejects only a falsy count (missing or `0`). A negative
  capacity is accepted (`App.NegativeCountAccepted`). Such a lot's count of
  available places stays at or below its (negative) capacity, so it never
  reaches 0 and the lot is never reported full
  (`App.NegativeCapacityNeverFull`). So the bound
  `0 <= count_available_places <= count_places` holds only for lots of
  non-negative capacity (`Tables.WithinCapacity`).
- Entering first checks that both ids are given (400).
- Leaving checks, between the open-visit lookup and the card check, that the
  client exists (404).
- A `client_parking` row's client is not required to exist. SQLite does not
  enforce foreign keys by default, and the leave handler has an explicit branch
  for an unknown client.

## Model

| member | source | states |
|---|---|---|
| `Models.GetOr` | main/app.py:62 | a key absent from the request reads as the default; a key present reads as what it holds, JSON null included |
| `Models.IntTruthy` | main/app.py:91-96 | the falsy id or count values are exactly a missing value and 0 (also the tests at lines 72 and 137-142) |
| `Models.TextTruthy` | main/app.py:42-47 | the falsy text values are exactly a missing value and the empty string (also the tests at lines 65, 111 and 157) |
| `Models.FlagTruthy` | main/app.py:102-103 | the values of the `opened` column that read as closed are exactly null and false |
| `Tables.OpenFor` | main/app.py:115-118 | the open-visit query returns stored ids only, each an open visit of that client at that lot, and a subset of the lot's open visits (same query at lines 144-148) |
| `Tables.AddressTaken` | main/app.py:68-69 | an address is taken exactly when it is among the addresses of the stored lots |
| `Tables.Occupied` | main/app.py:123 | entering takes one available place and changes nothing else about the lot |
| `Tables.Vacated` | main/app.py:162 | leaving frees one available place, undoing an entry exactly |
| `Tables.Closed` | main/app.py:164-165 | leaving stamps the visit's time out with `now`, so it is no longer open, and changes nothing else about it |
| `Tables.Least` | main/app.py:144-164 | the record taken is a member of the open-visit set with no smaller id in it |
| `Tables.OnlyOpenVisit` | main/app.py:144-164 | under open-visit uniqueness, a non-empty open-visit set of a pair is exactly the record the leave handler takes |
| `Tables.AtMostOneOpen` | main/app.py:115-121 | under open-visit uniqueness, every (client, lot) pair has 0 or 1 open visits |
| `Tables.OpenForAfterInsert` | main/app.py:115-127 | a new visit adds its id to the open visits of its own pair only; other pairs' open visits are unchanged |
| `Tables.WithinCapacity` | main/app.py:104-123 | conservation plus the non-negativity invariant give `0 <= count_available_places <= count_places` for every lot of non-negative capacity |
| `Tables.UniqueAfterRegister` | main/app.py:68-81 | storing a lot under an address no lot has keeps addresses unique |
| `Tables.ConservedAfterEntry` | main/app.py:123-127 | taking one place and adding one open visit at the same lot keeps every lot's places conserved |
| `Tables.ConservedAfterExit` | main/app.py:161-165 | freeing one place and closing one open visit at its lot keeps every lot's places conserved |
| `Tables.OnePerPairAfterEntry` | main/app.py:115-127 | adding an open visit for a pair that had none keeps open visits unique per pair |
| `Tables.OnePerPairAfterExit` | main/app.py:164-165 | closing a visit keeps open visits unique per pair |
| `Tables.IdsBelowAfterInsert` | main/app.py:53-54 | storing a row at the next id and counting on keeps that id the largest stored id plus one, as SQLite hands out rowids; the id was unused |
| `Tables.ExitUndoesEntry` | main/app.py:123-127 | the exit update at main/app.py:161-165 applied after the entry update on the same pair gives back the old lots, and leaves the entry's visit closed at the exit time |
| `Tables.NewClientKeepsConsistent` | main/app.py:49-54 | storing a client at the next id keeps every consistency condition; the id was unused |
| `Tables.NewLotKeepsConsistent` | main/app.py:76-81 | storing a lot under an unused address with all places available keeps every consistency condition, including conservation at the new lot |
| `Tables.EntryKeepsConsistent` | main/app.py:115-128 | a successful entry keeps every consistency condition |
| `Tables.ExitKeepsConsistent` | main/app.py:161-166 | a successful exit keeps every consistency condition |
| `App.NewClientCheck` | main/app.py:42-47 | accepted exactly when name and surname are both truthy; every refusal is 400; a missing name is reported before a missing surname |
| `App.NewParkingCheck` | main/app.py:65-74 | accepted exactly when the address is truthy, unused, and the count is truthy; every refusal is 400; a used address is reported whatever the count |
| `App.EnterCheck` | main/app.py:91-121 | entry is accepted exactly when both ids are given, the lot and client exist, the lot is open, its available count is not 0, the client has a car, and the pair has no open visit; refusals are 400, 404 or 409 |
| `App.LeaveCheck` | main/app.py:137-159 | leaving is accepted exactly when both ids are given, the pair has an open visit, the client exists and has a card; refusals are 400, 402 or 404; a 402 implies an open visit was found |
| `App.NewClientCheckOrder` | main/app.py:42-47 | a missing name gives 400 'Client has to have name' whatever the surname; a given name with a missing surname gives 400 'Client has to have surname' (tests/test_app.py:27-46) |
| `App.NewParkingCheckOrder` | main/app.py:65-74 | a missing address gives 400 'Parking has to have address' first; then a used address gives 400 'Already have parking with such address'; then a falsy count gives 400 'Parking has to have parking lots' (tests/test_app.py:63-90) |
| `App.EnterCheckOrder` | main/app.py:91-121 | for each of the eight checks, reached with every earlier one passed, a failure gives that check's own answer: 400 for a missing client id, then 400 for a missing lot id, 404 for an unknown lot, 409 closed, 409 full, 404 for an unknown client, 409 for no car, 409 already parked (tests/test_app.py:108-205) |
| `App.LeaveCheckOrder` | main/app.py:137-159 | for each of the five checks, reached with every earlier one passed, a failure gives that check's own answer: 400 for a missing client id, then 400 for a missing lot id, 404 'Cannot find parking log', 404 'Cannot find client with this client_id', 402 for no card (tests/test_app.py:252-295) |
| `App.NegativeCountAccepted` | main/app.py:72-74 | a negative count of places passes the checks, while `0` is refused with 'Parking has to have parking lots' |
| `App.FullIffNoPlaceLeft` | main/app.py:104-105 | once ids are given and the lot exists and is open, entry is refused as full exactly when the available count is 0 |
| `App.NegativeCapacityNeverFull` | main/app.py:104-105 | a lot of negative capacity with conserved places is never reported full |
| `App.AlreadyParkedIffOpenVisit` | main/app.py:115-121 | once every earlier check passes, entry is refused as already present exactly when the pair has an open visit |
| `App.OpenVisitElsewhereDoesNotBlock` | main/app.py:115-121 | a visit of another client or at another lot does not change the entry decision |
| `App.NoLogBeforeNoCard` | main/app.py:144-159 | with no open visit for the pair, leaving is refused with 404 'Cannot find parking log', whatever the client's card |
| `App.ParkingService.constructor` | main/app.py:14-15 | the service starts with empty tables, which are consistent |
| `App.ParkingService.Load` | tests/conftest.py:16-34 | tables written directly into the store are taken as they stand, provided they are consistent, which includes each counter being the table's largest id plus one (1 for an empty table), so later inserts get the ids SQLite would give |
| `App.ParkingService.NewClient` | main/app.py:35-56 | a refusal changes nothing; otherwise exactly one client is stored at a fresh id, with name, surname, car number and card as given, and nothing else changes |
| `App.ParkingService.NewParkingZone` | main/app.py:59-83 | a refusal changes nothing; otherwise exactly one lot is stored at a fresh id with available places equal to its capacity; `opened` is true when absent from the request; addresses stay unique |
| `App.ParkingService.EnterParking` | main/app.py:86-130 | a refusal changes nothing; otherwise only that lot's available count drops by 1, and one record is added with time in `now` and no time out; consistency is kept |
| `App.ParkingService.LeaveParking` | main/app.py:134-168 | a refusal changes nothing, so the time out stays unset; otherwise the pair's only open record gets time out `now`, and that lot's available count rises by 1; when `now` is later than the time in, time out exceeds time in |
| `App.ParkingService.EnterThenLeave` | main/app.py:123-127 | chains the entry update with the exit update at main/app.py:161-165 on the same pair (the two test cases at tests/test_app.py:209-228 each run one half): after a successful entry, leaving the same pair succeeds exactly when the client has a card; when it does, every lot's counts are as before and the record is closed |
| `Scenarios.FixtureConsistent` | tests/conftest.py:18-33 | the fixture's tables (one lot of 2 places, 1 available, 1 open visit) satisfy every consistency condition |
| `Scenarios.FixtureFillUp` | tests/test_app.py:124-137 | from the fixture: client 1 enters (201) and takes the last place; client 2 is refused with 409 'Parking is full'; the tables afterwards are stated in full |
| `Scenarios.FixtureEnterAndLeave` | tests/test_app.py:124-137 | the entry steps of the full-lot test, then the leave step of tests/test_app.py:220-228: client 1 enters (201); client 2 is refused with 409 'Parking is full'; client 2 leaves (200) and the lot has 1 place again |
| `Scenarios.LeaveWithoutCard` | tests/test_app.py:262-277 | a cardless client with no open visit gets 404 'Cannot find parking log' as in tests/test_app.py:252-258 (where the client has a card), not 402; after entering, the same client gets 402 and the visit stays open |
| `Scenarios.SameAddressTwice` | tests/test_app.py:81-90 | a second lot at the same address is refused with 400; the first lot keeps its 10 places |
| `Scenarios.ClosedLot` | tests/test_app.py:108-120 | a lot registered with `opened: false` refuses entry with 409 'Parking is closed' |
| `Scenarios.EnterTwiceAndElsewhere` | tests/test_app.py:179-191 | a second entry of the same pair is refused with 409; the same client may enter another lot |

## Left out

- HTTP routing, reading `request.json`, `jsonify` and the JSON bodies (`to_json`) are left out. A response is modelled as its status plus either the id of the row it created or updated, or the reason string.
- The database session (`add`, `commit`, `remove`, `create_all`, the database URI, the teardown hook) is left out. Each handler is modelled as one atomic change of the class's fields.
- `datetime.datetime.now()` is replaced by the caller-supplied natural number `now`.
- `get_all_clients` and `get_client_by_id` are left out. They only read, and the latter fails on an unknown id.
- Concurrent requests are left out. The code has no locking, and the model runs requests one at a time.
- Request fields of other JSON types are left out. Ids are integers, names and addresses are strings, and `opened` is a boolean or null.
- The column length limits (`String(50)`, `String(10)`, `String(100)`) are left out. SQLite does not enforce them.
- Integer width is left out. Ids and counts are unbounded integers in the model and are assumed to fit SQLite's 64-bit INTEGER. An id or count outside that range makes the database driver raise an overflow error (HTTP 500, nothing stored); the model does not have that path and answers such a request as it would any other value.
- The crash in `leave_parking` when a visit's lot does not exist is left out. The invariant that every visit names an existing lot excludes it.
- The test fixtures' factories (Faker, random capacities) and the pytest wiring are left out.
- Tables.WithinCapacity: states `0 <= count_available_places <= count_places` only for lots of non-negative capacity. The code accepts a negative capacity, and such a lot's available count is negative from the start.
