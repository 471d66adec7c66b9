/** Record shapes of the cinema application: halls, seats, sessions, orders and
    session seats, as the database stores them.  Amounts of money are whole
    cents (the application stores decimals with two places), times of day are
    seconds since midnight and dates are day numbers. */
module CinemaModels {

  type Money = int
  type Time = int
  type Date = int

  type HallId = nat
  type SessionId = nat
  type SeatId = nat
  type OrderId = nat
  type UserId = nat

  datatype Option<T> = None | Some(value: T)

  /** A hall.  The record itself puts no bound on `rows` or `seatsPerRow`:
      positivity is only enforced by the form and serializer validators. */
  datatype MovieHall = MovieHall(id: HallId, name: string, rows: int, seatsPerRow: int)

  /** A physical seat; it belongs to exactly one hall. */
  datatype Seat = Seat(rowNumber: int, seatNumber: int, hall: HallId)

  /** A screening of a movie in a hall on `sessionDate`, sold while the
      validity window `dateStart`..`dateEnd` is open. */
  datatype Session = Session(
    id: SessionId,
    movie: nat,
    timeStart: Time,
    timeEnd: Time,
    dateStart: Date,
    dateEnd: Date,
    sessionDate: Date,
    price: Money,
    hall: HallId)

  /** One purchase of one user. */
  datatype Order = Order(user: UserId, purchasePrice: Money)

  /** One seat of one session.  The link to an order is optional (a nullable
      one-to-one field). */
  datatype SessionSeat = SessionSeat(session: SessionId, seat: SeatId, isBooked: bool, order: Option<OrderId>)

  /** A session seat as it is created: not booked and linked to no order. */
  function NewSessionSeat(session: SessionId, seat: SeatId): (r: SessionSeat)
    ensures r.session == session && r.seat == seat
    ensures !r.isBooked && r.order == None
  {
    SessionSeat(session, seat, false, None)
  }

  /** The display string of a director or an actor: the name, one space, the surname. */
  function DisplayName(name: string, surname: string): (r: string)
    ensures |r| == |name| + 1 + |surname|
    ensures r[..|name|] == name && r[|name|] == ' ' && r[|name| + 1..] == surname
  {
    name + " " + surname
  }

  /** Splits a string at its first space; the inverse of `DisplayName` for names
      without a space. */
  function SplitAtFirstSpace(s: string): (string, string)
  {
    if s == [] then ([], [])
    else if s[0] == ' ' then ([], s[1..])
    else
      var rest := SplitAtFirstSpace(s[1..]);
      ([s[0]] + rest.0, rest.1)
  }

  /** A display string determines the name and the surname it was built from,
      as long as the name holds no space. */
  lemma {:induction false} DisplayNameRoundTrip(name: string, surname: string)
    requires ' ' !in name
    ensures SplitAtFirstSpace(DisplayName(name, surname)) == (name, surname)
  {
    if name != [] {
      var s := DisplayName(name, surname);
      assert s[0] == name[0] && name[0] != ' ';
      assert s[1..] == DisplayName(name[1..], surname);
      DisplayNameRoundTrip(name[1..], surname);
      assert [name[0]] + name[1..] == name;
    } else {
      assert DisplayName(name, surname) == [' '] + surname;
    }
  }
}
