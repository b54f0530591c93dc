/** What the book emits for a command (internal/engine/interfaces.go, HeapBookAdapter.go). */
module Events {
  import opened Orders

  datatype Emitted =
    | Accepted(req: nat, order: nat, user: nat)
    | Rejected(req: nat, order: nat, user: nat)
    | Added(req: nat, order: nat, user: nat)
    | Cancelled(req: nat, order: nat)
    | Traded(req: nat, maker: nat, taker: nat, price: int, qty: int)

  function TradeEvents(req: nat, trades: seq<Trade>): (evs: seq<Emitted>)
    ensures |evs| == |trades|
    ensures forall i :: 0 <= i < |evs| ==>
              evs[i] == Traded(req, trades[i].maker, trades[i].taker, trades[i].price, trades[i].qty)
  {
    seq(|trades|, i requires 0 <= i < |trades| =>
      Traded(req, trades[i].maker, trades[i].taker, trades[i].price, trades[i].qty))
  }

  /** Accepted, then the trades in order, then Added exactly when something rests. */
  function SubmitEvents(req: nat, o: Order, trades: seq<Trade>, rest: int): seq<Emitted> {
    [Accepted(req, o.id, o.user)] + TradeEvents(req, trades) + (if rest > 0 then [Added(req, o.id, o.user)] else [])
  }

  function CancelEvents(req: nat, id: nat, ok: bool): seq<Emitted> {
    if ok then [Cancelled(req, id)] else [Rejected(req, id, 0)]
  }
}
