/** The booking engine: affordability, the "already booked?" scan and order
    creation over the session-seat and order tables. */
module Booking {
  import opened CinemaModels
  import opened CoreModels

  /** `is_buying`: the selection costs no more than the user's balance. */
  predicate IsBuying(count: nat, price: Money, money: Money)
  {
    count * price <= money
  }

  /** The affordability check holds exactly when the balance covers what an
      order of `count` seats at `price` adds to the user's total spent. */
  lemma IsBuyingIffBalanceCoversOrder(orders: seq<Order>, user: UserId, count: nat, price: Money, money: Money)
    ensures IsBuying(count, price, money) <==>
      TotalSpent(orders + Repeat(Order(user, price), count), user) - TotalSpent(orders, user) <= money
  {
    BookingTotals(orders, user, price, count, user);
  }

  /** Every selected key names a stored session seat. */
  predicate AllStored(seats: map<nat, SessionSeat>, selected: seq<nat>)
  {
    forall i | 0 <= i < |selected| :: selected[i] in seats
  }

  /** Some selected seat is already booked. */
  predicate AnyBooked(seats: map<nat, SessionSeat>, selected: seq<nat>)
    requires AllStored(seats, selected)
  {
    exists i :: 0 <= i < |selected| && seats[selected[i]].isBooked
  }

  /** The selected keys whose seats are booked, one entry per occurrence, in
      selection order: the errors the scan reports. */
  function BookedAmong(seats: map<nat, SessionSeat>, selected: seq<nat>): seq<nat>
    requires AllStored(seats, selected)
  {
    if selected == [] then []
    else
      var last := selected[|selected| - 1];
      BookedAmong(seats, selected[..|selected| - 1]) + if seats[last].isBooked then [last] else []
  }

  /** A key is reported exactly when it is selected and its seat is booked, so
      the report is empty exactly when no selected seat is booked. */
  lemma {:induction false} BookedAmongMembers(seats: map<nat, SessionSeat>, selected: seq<nat>, x: nat)
    requires AllStored(seats, selected)
    ensures x in BookedAmong(seats, selected) <==> x in selected && seats[x].isBooked
    ensures |BookedAmong(seats, selected)| == 0 <==> !AnyBooked(seats, selected)
  {
    if selected != [] {
      var n := |selected| - 1;
      var prefix := selected[..n];
      BookedAmongMembers(seats, prefix, x);
      assert selected == prefix + [selected[n]];
      if AnyBooked(seats, prefix) {
        var i :| 0 <= i < |prefix| && seats[prefix[i]].isBooked;
        assert selected[i] == prefix[i];
      }
      if AnyBooked(seats, selected) && !seats[selected[n]].isBooked {
        var i :| 0 <= i < |selected| && seats[selected[i]].isBooked;
        assert prefix[i] == selected[i];
      }
    }
  }

  /** The session-seat table after the selected seats were linked to orders
      numbered from `base`, one per position: each seat takes the order of its
      first occurrence in the selection (the update of a repeated key applies
      only its first entry), later occurrences leave it as it is. */
  function Link(seats: map<nat, SessionSeat>, selected: seq<nat>, base: nat): (r: map<nat, SessionSeat>)
    ensures r.Keys == seats.Keys
  {
    if selected == [] then seats
    else
      var i := |selected| - 1;
      var prev := Link(seats, selected[..i], base);
      var id := selected[i];
      if id in selected[..i] || id !in prev then prev
      else prev[id := prev[id].(isBooked := true, order := Some(base + i))]
  }

  /** A seat that is not selected is left as it was. */
  lemma {:induction false} LinkLeavesOthers(seats: map<nat, SessionSeat>, selected: seq<nat>, base: nat, id: nat)
    requires id in seats && id !in selected
    ensures Link(seats, selected, base)[id] == seats[id]
  {
    if selected != [] {
      var i := |selected| - 1;
      assert id !in selected[..i];
      LinkLeavesOthers(seats, selected[..i], base, id);
    }
  }

  /** A selected seat becomes booked and linked to the order of the position
      where it first occurs, keeping its session and its seat. */
  lemma {:induction false} LinkFirstOccurrence(seats: map<nat, SessionSeat>, selected: seq<nat>, base: nat, j: nat)
    requires j < |selected| && selected[j] in seats && selected[j] !in selected[..j]
    ensures Link(seats, selected, base)[selected[j]] == seats[selected[j]].(isBooked := true, order := Some(base + j))
  {
    var i := |selected| - 1;
    var prefix := selected[..i];
    if j == i {
      LinkLeavesOthers(seats, prefix, base, selected[j]);
    } else {
      assert prefix[..j] == selected[..j] && prefix[j] == selected[j];
      LinkFirstOccurrence(seats, prefix, base, j);
    }
  }

  /** Every selected stored seat ends up booked. */
  lemma LinkBooksSelection(seats: map<nat, SessionSeat>, selected: seq<nat>, base: nat, id: nat)
    requires id in seats && id in selected
    ensures Link(seats, selected, base)[id].isBooked
    ensures Link(seats, selected, base)[id].order.Some?
    ensures base <= Link(seats, selected, base)[id].order.value < base + |selected|
  {
    var j := FirstOccurrenceExists(selected, id);
    LinkFirstOccurrence(seats, selected, base, j);
  }

  /** The first position of `x` in `s`. */
  lemma {:induction false} FirstOccurrenceExists(s: seq<nat>, x: nat) returns (j: nat)
    requires x in s
    ensures j < |s| && s[j] == x && x !in s[..j]
  {
    if s[0] == x {
      j := 0;
    } else {
      var k := FirstOccurrenceExists(s[1..], x);
      j := k + 1;
      assert s[..j] == [s[0]] + s[1..][..k];
    }
  }

  /** Session seats link to stored orders only, only booked seats carry an
      order, and no order is linked to two seats (the one-to-one field). */
  predicate Linked(seats: map<nat, SessionSeat>, orderCount: nat)
  {
    && (forall id | id in seats && seats[id].order.Some? :: seats[id].isBooked && seats[id].order.value < orderCount)
    && (forall a, b | a in seats && b in seats && a != b && seats[a].order.Some? :: seats[a].order != seats[b].order)
  }

  /** Linking the selection to `|selected|` fresh orders keeps the tables
      consistent. */
  lemma {:induction false} LinkKeepsLinked(seats: map<nat, SessionSeat>, selected: seq<nat>, base: nat)
    requires Linked(seats, base)
    ensures Linked(Link(seats, selected, base), base + |selected|)
  {
    if selected != [] {
      var i := |selected| - 1;
      LinkKeepsLinked(seats, selected[..i], base);
    }
  }

  /** Freshly created session seats, booked by nobody and linked to no order,
      are consistent with any order table. */
  lemma NewSeatsLinked(seats: map<nat, SessionSeat>, orderCount: nat)
    requires forall id | id in seats :: seats[id] == NewSessionSeat(seats[id].session, seats[id].seat)
    ensures Linked(seats, orderCount)
  {
  }

  /** Placing `n` orders of `owner` at `price` adds `n * price` to the owner's
      total spent and leaves every other user's total as it was. */
  lemma BookingTotals(orders: seq<Order>, owner: UserId, price: Money, n: nat, user: UserId)
    ensures TotalSpent(orders + Repeat(Order(owner, price), n), user)
         == TotalSpent(orders, user) + (if user == owner then n * price else 0)
  {
    TotalSpentAppend(orders, Repeat(Order(owner, price), n), user);
    TotalSpentRepeat(owner, price, n, user);
  }

  /** The database tables the booking engine reads and writes. */
  class Store {
    var sessionSeats: map<nat, SessionSeat>
    var orders: seq<Order>

    ghost predicate Valid()
      reads this
    {
      Linked(sessionSeats, |orders|)
    }

    /** Tables already consistent with each other. */
    constructor (sessionSeats: map<nat, SessionSeat>, orders: seq<Order>)
      requires Linked(sessionSeats, |orders|)
      ensures this.sessionSeats == sessionSeats && this.orders == orders
      ensures Valid()
    {
      this.sessionSeats := sessionSeats;
      this.orders := orders;
    }

    /** The tables of a newly opened cinema: fresh session seats and no order. */
    constructor Opened(sessionSeats: map<nat, SessionSeat>)
      requires forall id | id in sessionSeats ::
        sessionSeats[id] == NewSessionSeat(sessionSeats[id].session, sessionSeats[id].seat)
      ensures this.sessionSeats == sessionSeats && this.orders == []
      ensures Valid()
    {
      this.sessionSeats := sessionSeats;
      this.orders := [];
      new;
      NewSeatsLinked(sessionSeats, 0);
    }

    /** `is_booked`: scans every selected seat, with no early exit, reporting
        each one that is already booked; changes nothing. */
    method IsBooked(selected: seq<nat>) returns (booked: bool, reports: seq<nat>)
      requires AllStored(sessionSeats, selected)
      ensures reports == BookedAmong(sessionSeats, selected)
      ensures booked <==> AnyBooked(sessionSeats, selected)
    {
      booked := false;
      reports := [];
      var i := 0;
      while i < |selected|
        invariant 0 <= i <= |selected|
        invariant reports == BookedAmong(sessionSeats, selected[..i])
        invariant booked <==> AnyBooked(sessionSeats, selected[..i])
      {
        var id := selected[i];
        assert selected[..i + 1][..i] == selected[..i];
        if sessionSeats[id].isBooked {
          booked := true;
          reports := reports + [id];
        }
        assert AnyBooked(sessionSeats, selected[..i]) ==> AnyBooked(sessionSeats, selected[..i + 1]);
        i := i + 1;
      }
      assert selected[..i] == selected;
    }

    /** `create_order`: when no selected seat is booked, one order per selected
        key at the session price, each seat booked and linked, and one debit of
        the price per key (a repeated key is charged twice); otherwise nothing
        changes.  Affordability is not checked here. */
    method CreateOrder(user: User, selected: seq<nat>, price: Money) returns (placed: bool)
      requires AllStored(sessionSeats, selected)
      requires user.persisted
      modifies this, user
      ensures placed <==> !old(AnyBooked(sessionSeats, selected))
      ensures !placed ==> sessionSeats == old(sessionSeats) && orders == old(orders) && user.money == old(user.money)
      ensures placed ==> orders == old(orders) + Repeat(Order(user.id, price), |selected|)
      ensures placed ==> sessionSeats == Link(old(sessionSeats), selected, |old(orders)|)
      ensures placed ==> forall id | id in selected ::
        sessionSeats[id].isBooked && sessionSeats[id].order.Some? &&
        |old(orders)| <= sessionSeats[id].order.value < |orders| && orders[sessionSeats[id].order.value] == Order(user.id, price)
      ensures placed ==> user.money == old(user.money) - |selected| * price
      ensures placed ==> (IsBuying(|selected|, price, old(user.money)) <==> user.money >= 0)
      ensures user.money + TotalSpent(orders, user.id) == old(user.money + TotalSpent(orders, user.id))
      ensures forall v: UserId | v != user.id :: TotalSpent(orders, v) == old(TotalSpent(orders, v))
      ensures old(Valid()) ==> Valid()
      ensures user.persisted
    {
      placed := false;
      var booked, _ := IsBooked(selected);
      if !booked {
        ghost var base := |orders|;
        ghost var seats0 := sessionSeats;
        var i := 0;
        while i < |selected|
          invariant 0 <= i <= |selected|
          invariant orders == old(orders) + Repeat(Order(user.id, price), i)
          invariant sessionSeats == Link(seats0, selected[..i], base)
          invariant user.money == old(user.money) - i * price
          invariant user.persisted
        {
          var id := selected[i];
          var order := Order(user.id, price);
          var orderId := |orders|;
          orders := orders + [order];
          assert selected[..i + 1][..i] == selected[..i];
          if id !in selected[..i] {
            sessionSeats := sessionSeats[id := sessionSeats[id].(isBooked := true, order := Some(orderId))];
          }
          user.BuyTicket(price);
          assert old(user.money) - i * price - price == old(user.money) - (i + 1) * price;
          i := i + 1;
        }
        assert selected[..i] == selected;
        placed := true;
        forall id | id in selected
          ensures sessionSeats[id].isBooked && sessionSeats[id].order.Some? &&
                  base <= sessionSeats[id].order.value < |orders| && orders[sessionSeats[id].order.value] == Order(user.id, price)
        {
          LinkBooksSelection(seats0, selected, base, id);
        }
        BookingTotals(old(orders), user.id, price, |selected|, user.id);
        forall v: UserId | v != user.id ensures TotalSpent(orders, v) == old(TotalSpent(orders, v)) {
          BookingTotals(old(orders), user.id, price, |selected|, v);
        }
        if Linked(seats0, base) {
          LinkKeepsLinked(seats0, selected, base);
        }
      }
    }
  }
}
