/** The engine's view of the heap book (internal/engine/HeapBookAdapter.go): match, turn trades
    into events, rest the remainder. */
module Adapter {
  import opened Orders
  import opened BookRuns
  import opened HeapModel
  import opened Events
  import HeapBook

  class HeapBookAdapter {
    const book: HeapBook.LevelOrderBookHeap

    constructor (book: HeapBook.LevelOrderBookHeap)
      ensures this.book == book
    {
      this.book := book;
    }

    method SubmitLimit(req: nat, id: nat, user: nat, side: int, price: int, qty: int) returns (evs: seq<Emitted>)
      requires book.Valid()
      modifies book.Repr()
      ensures book.Valid() && fresh(book.Repr() - old(book.Repr()))
      ensures var o := Order(id, side, price, qty, user);
              var (b, out) := SubmitBuckets(old(book.Abs()), o);
              book.Abs() == b && evs == SubmitEvents(req, o, out.trades, out.rest)
    {
      hide HeapBook.LevelOrderBookHeap.Valid, MatchBuckets, AddBuckets;
      var taker := Order(id, side, price, qty, user);
      evs := [Accepted(req, id, user)];
      var trades, rest := book.MatchLimitEmit(taker);
      evs := evs + TradeEvents(req, trades);
      if rest > 0 {
        book.Add(taker.(qty := rest));
        evs := evs + [Added(req, id, user)];
      }
    }

    method Cancel(req: nat, id: nat) returns (ok: bool, evs: seq<Emitted>)
      requires book.Valid()
      modifies book.Repr()
      ensures book.Repr() == old(book.Repr()) && (book.Valid() <==> !old(book.Collides(id)))
      ensures (book.Abs(), BookRuns.Cancelled(ok)) == CancelBuckets(old(book.Abs()), id)
      ensures evs == CancelEvents(req, id, ok)
    {
      hide HeapBook.LevelOrderBookHeap.Valid, CancelBuckets;
      ok := book.Cancel(id);
      evs := if ok then [Events.Cancelled(req, id)] else [Rejected(req, id, 0)];
    }
  }
}
