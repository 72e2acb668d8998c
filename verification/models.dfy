/** The three tables of the parking service (clients, parking lots and the
    client-parking visit log) and the way a handler reads a JSON request:
    a missing key and JSON null both read as `None`, and every "is it
    given?" test is Python truthiness. */
module Models {

  datatype Option<+T> = None | Some(value: T)

  /** A request field read with a default, as `data.get(key, default)` reads
      it: the key is either absent (the default applies) or present, holding
      JSON null or a value. */
  datatype Field<+T> = Absent | Present(value: Option<T>)

  function GetOr<T>(f: Field<T>, default: T): (r: Option<T>)
    ensures f == Absent ==> r == Some(default)
    ensures f != Absent ==> r == f.value
  {
    match f
    case Absent => Some(default)
    case Present(v) => v
  }

  /** Truthiness of an integer field: None and 0 are both falsy. */
  predicate IntTruthy(x: Option<int>)
    ensures !IntTruthy(x) <==> x in {None, Some(0)}
  {
    x.Some? && x.value != 0
  }

  /** Truthiness of a text field: None and the empty string are both falsy. */
  predicate TextTruthy(s: Option<string>)
    ensures !TextTruthy(s) <==> s in {None, Some("")}
  {
    s.Some? && s.value != ""
  }

  /** Truthiness of a nullable boolean column: only true is truthy. */
  predicate FlagTruthy(b: Option<bool>)
    ensures !FlagTruthy(b) <==> b in {None, Some(false)}
  {
    b.Some? && b.value
  }

  /** A row of table `client`. */
  datatype Client = Client(
    name: string,
    surname: string,
    creditCard: Option<string>,
    carNumber: Option<string>)

  /** A row of table `parking`. `isOpened` is the nullable column `opened`. */
  datatype Parking = Parking(
    address: string,
    isOpened: Option<bool>,
    countPlaces: int,
    countAvailablePlaces: int)

  /** A row of table `client_parking`: one visit of a client to a lot.
      Times are clock readings; `timeOut == None` means the client is
      still parked there. */
  datatype ClientParking = ClientParking(
    clientId: int,
    parkingId: int,
    timeIn: nat,
    timeOut: Option<nat>)
  {
    predicate IsOpen()
    {
      timeOut.None?
    }
  }
}
