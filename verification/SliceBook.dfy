/** The sorted-slice book: binary-search insertion, scanning cancel, and the reference matching
    loop (internal/matching/book_naive.go, match.go). The two mirrored halves of the source are
    one method each, told which side it works on. */
module SliceBook {
  import opened Basics
  import opened Orders
  import opened BookSpec
  import opened BookRuns

  lemma TurnKeeps(ask: bool, s: seq<Order>, exec: int)
    requires s != [] && Positive(s) && Sorted(ask, s) && exec <= s[0].qty
    ensures var t := AfterTurn(s, exec); Positive(t) && Sorted(ask, t)
  {
  }

  class NaiveOrderBook {
    var bids: seq<Order>
    var asks: seq<Order>

    ghost function View(): Book
      reads this
    {
      Book(bids, asks)
    }

    ghost predicate Ordered()
      reads this
    {
      Sorted(false, bids) && Sorted(true, asks)
    }

    constructor ()
      ensures View() == EMPTY && Ordered()
    {
      bids, asks := [], [];
    }

    function Side(ask: bool): seq<Order>
      reads this
    {
      if ask then asks else bids
    }

    method SetSide(ask: bool, s: seq<Order>)
      modifies this
      ensures View() == old(View()).With(ask, s)
    {
      if ask {
        asks := s;
      } else {
        bids := s;
      }
    }

    /** Binary search for the slot after every order at the same or a better price. */
    method Insert(ask: bool, o: Order)
      requires Ordered()
      modifies this
      ensures Ordered()
      ensures View() == old(View()).With(ask, Inserted(ask, old(Side(ask)), o))
    {
      var s := Side(ask);
      var lo, hi := 0, |s|;
      while lo < hi
        invariant 0 <= lo <= hi <= |s|
        invariant forall i :: 0 <= i < lo ==> !Better(ask, o.price, s[i].price)
        invariant forall i :: hi <= i < |s| ==> Better(ask, o.price, s[i].price)
      {
        var mid := (lo + hi) / 2;
        if Better(ask, s[mid].price, o.price) {
          lo := mid + 1;
        } else if Better(ask, o.price, s[mid].price) {
          hi := mid;
        } else {
          lo := mid + 1;
        }
      }
      InsertedAt(ask, s, o, lo);
      InsertedKeeps(ask, s, o);
      SetSide(ask, s[..lo] + [o] + s[lo..]);
    }

    /** Everything that is not a buy goes to the asks. */
    method Add(o: Order) returns (ok: bool)
      requires Ordered()
      modifies this
      ensures Ordered()
      ensures ok == (o.qty > 0)
      ensures View() == if !ok then old(View())
                        else old(View()).With(o.side != BUY, Inserted(o.side != BUY, old(Side(o.side != BUY)), o))
    {
      if o.qty <= 0 {
        return false;
      }
      Insert(o.side != BUY, o);
      return true;
    }

    method PopBest(ask: bool)
      requires Side(ask) != []
      modifies this
      ensures View() == old(View()).With(ask, old(Side(ask))[1..])
    {
      SetSide(ask, Side(ask)[1..]);
    }

    /** Takes from the front of the side until the taker is filled, the side is empty or the
        price no longer crosses. */
    method MatchSide(ask: bool, taker: Order) returns (trades: seq<Trade>, rest: int)
      requires Ordered() && Positive(Side(ask)) && taker.qty > 0
      modifies this
      ensures Ordered() && Positive(Side(ask)) && rest >= 0
      ensures View() == old(View()).With(ask, Side(ask))
      ensures Match(trades, rest, Side(ask)) == MatchQueue(ask, taker.id, taker.price, taker.qty, old(Side(ask)))
    {
      trades, rest := [], taker.qty;
      ghost var goal := MatchQueue(ask, taker.id, taker.price, taker.qty, Side(ask));
      while rest > 0 && |Side(ask)| > 0
        invariant rest >= 0 && Ordered() && Positive(Side(ask))
        invariant View() == old(View()).With(ask, Side(ask))
        invariant goal == Onto(trades, MatchQueue(ask, taker.id, taker.price, rest, Side(ask)))
        decreases |Side(ask)|, rest
      {
        hide MatchQueue, Sorted, Positive;
        var maker := Side(ask)[0];
        if !Crosses(ask, maker.price, taker.price) {
          break;
        }
        var exec := Min(rest, maker.qty);
        MatchOne(ask, taker.id, taker.price, rest, Side(ask), trades);
        TurnKeeps(ask, Side(ask), exec);
        trades := trades + [Trade(taker.id, maker.id, maker.price, exec)];
        rest := rest - exec;
        if maker.qty - exec == 0 {
          PopBest(ask);
        } else {
          SetSide(ask, [maker.(qty := maker.qty - exec)] + Side(ask)[1..]);
        }
      }
    }

    /** Matches against the other side; what is left of the taker rests. */
    method SubmitLimit(taker: Order) returns (trades: seq<Trade>)
      requires Ordered() && Positive(bids) && Positive(asks)
      modifies this
      ensures Ordered() && Positive(bids) && Positive(asks)
      ensures View() == SubmitOrder(old(View()), taker).0
      ensures trades == SubmitOrder(old(View()), taker).1.trades
    {
      trades := [];
      if !Tradable(taker) {
        return;
      }
      var ask := taker.side == BUY;
      var rest;
      trades, rest := MatchSide(ask, taker);
      if rest > 0 {
        ghost var t := Side(!ask);
        InsertedKeeps(!ask, t, taker.(qty := rest));
        Insert(!ask, taker.(qty := rest));
      }
    }

    /** Scans the bids, then the asks. */
    method Cancel(id: nat) returns (ok: bool)
      modifies this
      ensures View() == CancelOrder(old(View()), id).0
      ensures Cancelled(ok) == CancelOrder(old(View()), id).1
    {
      for side := 0 to 2
        invariant View() == old(View())
        invariant side > 0 ==> Find(bids, id) == |bids|
        invariant side > 1 ==> Find(asks, id) == |asks|
      {
        var s := Side(side == 1);
        for i := 0 to |s|
          invariant View() == old(View())
          invariant forall j :: 0 <= j < i ==> s[j].id != id
        {
          if s[i].id == id {
            SetSide(side == 1, Without(s, i));
            return true;
          }
        }
      }
      return false;
    }
  }
}
