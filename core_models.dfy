/** The user account and its wallet. */
module CoreModels {
  import opened CinemaModels

  /** The balance every account receives on its first save: 200.00. */
  const StartingGrant: Money := 20000

  /** A user.  `persisted` stands for "has a primary key": it is false until
      the first save. */
  class User {
    const id: UserId
    var persisted: bool
    var money: Money

    /** A user object not yet saved, with whatever balance was supplied. */
    constructor (id: UserId, money: Money)
      ensures this.id == id && !persisted && this.money == money
    {
      this.id := id;
      persisted := false;
      this.money := money;
    }

    /** Saving: the first save replaces the balance with the starting grant,
        whatever was supplied; later saves keep the balance. */
    method Save()
      modifies this
      ensures persisted
      ensures money == if old(persisted) then old(money) else StartingGrant
    {
      if !persisted {
        money := StartingGrant;
      }
      persisted := true;
    }

    /** Debits the price of one ticket and saves.  There is no floor: the
        balance may become negative. */
    method BuyTicket(price: Money)
      modifies this
      ensures persisted
      ensures money == if old(persisted) then old(money) - price else StartingGrant
    {
      money := money - price;
      Save();
    }
  }

  /** Two debits leave the balance one debit of their sum would leave. */
  method BuyTwoTickets(u: User, first: Money, second: Money)
    requires u.persisted
    modifies u
    ensures u.persisted && u.money == old(u.money) - (first + second)
  {
    u.BuyTicket(first);
    u.BuyTicket(second);
  }

  /** The sum of the purchase prices of the orders of `user` (0 when there are none). */
  function TotalSpent(orders: seq<Order>, user: UserId): (r: Money)
    ensures (forall i | 0 <= i < |orders| :: orders[i].user != user) ==> r == 0
    ensures (forall i | 0 <= i < |orders| :: orders[i].purchasePrice >= 0) ==> r >= 0
  {
    if orders == [] then 0
    else
      var rest := TotalSpent(orders[1..], user);
      if orders[0].user == user then orders[0].purchasePrice + rest else rest
  }

  /** The total over two lists of orders is the sum of their totals. */
  lemma {:induction false} TotalSpentAppend(a: seq<Order>, b: seq<Order>, user: UserId)
    ensures TotalSpent(a + b, user) == TotalSpent(a, user) + TotalSpent(b, user)
  {
    if a != [] {
      assert (a + b)[1..] == a[1..] + b;
      TotalSpentAppend(a[1..], b, user);
    } else {
      assert a + b == b;
    }
  }

  /** `n` copies of one order. */
  function Repeat(o: Order, n: nat): (r: seq<Order>)
    ensures |r| == n && forall i | 0 <= i < n :: r[i] == o
  {
    if n == 0 then [] else Repeat(o, n - 1) + [o]
  }

  /** `n` orders of `owner` at one price add `n` times that price to the owner's
      total and nothing to anyone else's. */
  lemma {:induction false} TotalSpentRepeat(owner: UserId, price: Money, n: nat, user: UserId)
    ensures TotalSpent(Repeat(Order(owner, price), n), user) == if user == owner then n * price else 0
  {
    if n > 0 {
      var o := Order(owner, price);
      TotalSpentRepeat(owner, price, n - 1, user);
      TotalSpentAppend(Repeat(o, n - 1), [o], user);
      assert TotalSpent([o], user) == if user == owner then price else 0;
      assert (n - 1) * price + price == n * price;
    }
  }
}
