/** Orders, trades and the side conventions shared by every order book (internal/matching/types.go). */
module Orders {

  const BUY := 1
  const SELL := 2

  datatype Order = Order(id: nat, side: int, price: int, qty: int, user: nat)

  datatype Trade = Trade(taker: nat, maker: nat, price: int, qty: int)

  /** Price p is strictly better than q for a resting order on the given side. */
  predicate Better(ask: bool, p: int, q: int) {
    if ask then p < q else p > q
  }

  /** A resting order priced `maker` can trade against a taker limited to `limit`. */
  predicate Crosses(ask: bool, maker: int, limit: int) {
    !Better(ask, limit, maker)
  }

  ghost predicate Sorted(ask: bool, s: seq<Order>) {
    forall i, j :: 0 <= i < j < |s| ==> !Better(ask, s[j].price, s[i].price)
  }

  ghost predicate Positive(s: seq<Order>) {
    forall o :: o in s ==> o.qty > 0
  }

  ghost predicate DistinctIds(s: seq<Order>) {
    forall i, j :: 0 <= i < j < |s| ==> s[i].id != s[j].id
  }

  ghost function SumQty(s: seq<Order>): int {
    if s == [] then 0 else s[0].qty + SumQty(s[1..])
  }

  ghost function Traded(ts: seq<Trade>): int {
    if ts == [] then 0 else ts[0].qty + Traded(ts[1..])
  }

  /** The orders of s at one price, in queue order. */
  ghost function AtPrice(s: seq<Order>, p: int): seq<Order> {
    if s == [] then []
    else if s[0].price == p then [s[0]] + AtPrice(s[1..], p)
    else AtPrice(s[1..], p)
  }
}
