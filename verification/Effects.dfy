/** What a command does to the book and what its events say, told by the fields of the command alone
    (internal/engine/actor.go, engine.go, HeapBookAdapter.go). */
module Effects {
  import opened Basics
  import opened Orders
  import opened BookSpec
  import opened Events
  import opened HeapHistory
  import opened HeapEngine
  import opened HeapRefinement
  import opened Engine
  import opened Codecs
  import Runs = BookRuns

  // ---- what the events of a command must tell -----------------------------------------------------

  /** A trade of the taker `id` with a resting order, at that order's price and within the taker's. */
  ghost predicate TradeTold(e: Emitted, req: nat, maker: Order, id: nat, side: int, price: int) {
    && e.Traded? && e.req == req && e.maker == maker.id && e.taker == id && e.price == maker.price
    && 0 < e.qty <= maker.qty
    && (if side == BUY then maker.price <= price else maker.price >= price)
  }

  /** The events of a submit: accepted, one trade with each of the first orders of the other side, all but
      the last of them complete, and added exactly when something is left. */
  ghost predicate SubmitTold(es: seq<Emitted>, s: seq<Order>, left: int, req: nat, id: nat, user: nat, side: int,
                             price: int) {
    var n := |es| - 1 - (if left > 0 then 1 else 0);
    && 0 <= n <= |s| && es[0] == Accepted(req, id, user)
    && (left > 0 ==> Last(es) == Added(req, id, user))
    && (forall i :: 0 <= i < n ==> TradeTold(es[i + 1], req, s[i], id, side, price))
    && (forall i :: 0 <= i < n - 1 ==> es[i + 1].Traded? && es[i + 1].qty == s[i].qty)
  }

  /** The side a taker met: each order is short of what the trades that name it took, and gone if that was
      all; nothing that is left would have met a taker with something left. */
  ghost predicate Served(es: seq<Emitted>, s: seq<Order>, s': seq<Order>, left: int, side: int, price: int) {
    && (forall y :: y in s ==> 0 <= Named(es, y.id) <= y.qty)
    && (forall y :: y in s && Named(es, y.id) < y.qty ==> y.(qty := y.qty - Named(es, y.id)) in s')
    && (forall x :: x in s' ==> exists y :: y in s && Named(es, y.id) < y.qty && x == y.(qty := y.qty - Named(es, y.id)))
    && (left > 0 ==> forall x :: x in s' ==> if side == BUY then x.price > price else x.price < price)
  }

  /** The taker's own side: what is left of it rests as it was submitted, last among its price. */
  ghost predicate Rested(t: seq<Order>, t': seq<Order>, left: int, id: nat, user: nat, side: int, price: int) {
    if left == 0 then t' == t
    else
      exists k :: 0 <= k <= |t| && LastOfPrice(t, k, side, price)
                  && t' == t[..k] + [Order(id, side, price, left, user)] + t[k..]
  }

  ghost predicate LastOfPrice(t: seq<Order>, k: nat, side: int, price: int)
    requires k <= |t|
  {
    && (forall i :: 0 <= i < k ==> if side == BUY then t[i].price >= price else t[i].price <= price)
    && (forall i :: k <= i < |t| ==> if side == BUY then t[i].price < price else t[i].price > price)
  }

  ghost predicate SubmitDone(b: Runs.Book, b': Runs.Book, es: seq<Emitted>, req: nat, id: nat, user: nat, side: int,
                             price: int, qty: int) {
    var left := qty - Named(es, id);
    && left >= 0 && (b'.Live(id) <==> left > 0)
    && SubmitTold(es, b.Side(side == BUY), left, req, id, user, side, price)
    && Served(es, b.Side(side == BUY), b'.Side(side == BUY), left, side, price)
    && Rested(b.Side(side != BUY), b'.Side(side != BUY), left, id, user, side, price)
  }

  /** The order with this id leaves its queue, the others keep their places. */
  ghost predicate Departed(t: seq<Order>, t': seq<Order>, id: nat) {
    if forall x :: x in t ==> x.id != id then t' == t
    else exists k :: 0 <= k < |t| && t[k].id == id && t' == t[..k] + t[k + 1..]
  }

  ghost predicate CancelDone(b: Runs.Book, b': Runs.Book, es: seq<Emitted>, req: nat, id: nat, ok: bool) {
    && ok == b.Live(id) && !b'.Live(id) && Departed(b.bids, b'.bids, id) && Departed(b.asks, b'.asks, id)
    && es == [if b.Live(id) then Events.Cancelled(req, id) else Rejected(req, id, 0)]
  }

  // ---- one submit ------------------------------------------------------------------------------------

  lemma {:induction false} AllTaken(trades: seq<Trade>, id: nat)
    requires forall i :: 0 <= i < |trades| ==> trades[i].taker == id && trades[i].maker != id
    ensures Runs.Filled(trades, id) == Orders.Traded(trades)
  {
    if trades != [] {
      AllTaken(trades[1..], id);
    }
  }

  lemma {:induction false} HeldPositive(s: seq<Order>, id: nat)
    requires Positive(s)
    ensures Runs.Held(s, id) >= 0
    ensures Runs.Held(s, id) > 0 <==> exists x :: x in s && x.id == id
  {
    if s != [] {
      assert s == [s[0]] + s[1..];
      assert Positive(s[1..]);
      HeldPositive(s[1..], id);
      if exists x :: x in s && x.id == id {
        var x :| x in s && x.id == id;
        assert x == s[0] || x in s[1..];
      }
      if s[0].id == id {
        assert s[0] in s;
      }
    }
  }

  lemma OneHolder(s: seq<Order>, x: Order, y: Order)
    requires DistinctIds(s) && x in s && y in s && x.id == y.id
    ensures x == y
  {
  }

  /** What one order of the side gave up is what the trades say. */
  lemma OneServed(ask: bool, o: Order, s: seq<Order>, y: Order)
    requires Sorted(ask, s) && Positive(s) && DistinctIds(s) && y in s && y.id != o.id
    ensures var m := MatchQueue(ask, o.id, o.price, o.qty, s); var took := Runs.Filled(m.trades, y.id);
            && 0 <= took <= y.qty && (took < y.qty ==> y.(qty := y.qty - took) in m.book)
            && forall x :: x in m.book && x.id == y.id ==> took < y.qty && x.qty == y.qty - took
  {
    var m := MatchQueue(ask, o.id, o.price, o.qty, s);
    Runs.MatchedSide(ask, o, s);
    Runs.MatchConserves(ask, o.id, o.price, o.qty, s, y.id);
    Runs.HeldOne(s, y.id);
    Runs.HeldOne(m.book, y.id);
    HeldPositive(m.book, y.id);
    MatchRemains(ask, o.id, o.price, o.qty, s);
    hide MatchQueue, Runs.Filled, Runs.Held, Sorted, DistinctIds;
    forall x | x in m.book && x.id == y.id
      ensures x == y.(qty := x.qty)
    {
      RemainsOf(s, m.book, x);
      var z :| z in s && x == z.(qty := x.qty);
      OneHolder(s, y, z);
    }
  }

  lemma RemainsOf(s: seq<Order>, t: seq<Order>, x: Order)
    requires Remains(s, t) && x in t
    ensures exists y :: y in s && x == y.(qty := x.qty)
  {
    var u := s[|s| - |t|..];
    assert forall y :: y in u ==> y in s;
    var i :| 0 <= i < |t| && t[i] == x;
    assert u[i] in s && x == u[i].(qty := x.qty);
  }

  lemma SideServed(o: Order, s: seq<Order>, es: seq<Emitted>)
    requires Runs.Tradable(o) && Sorted(o.side == BUY, s) && Positive(s) && DistinctIds(s)
    requires forall y :: y in s ==> y.id != o.id
    requires var m := MatchQueue(o.side == BUY, o.id, o.price, o.qty, s);
             forall id :: Named(es, id) == Runs.Filled(m.trades, id)
    ensures var m := MatchQueue(o.side == BUY, o.id, o.price, o.qty, s); Served(es, s, m.book, m.rest, o.side, o.price)
  {
    var ask := o.side == BUY;
    var m := MatchQueue(ask, o.id, o.price, o.qty, s);
    RestMeansNoCross(ask, o.id, o.price, o.qty, s);
    MatchRemains(ask, o.id, o.price, o.qty, s);
    hide MatchQueue, Runs.Filled, Named, Sorted, DistinctIds, Positive, Remains;
    forall y | y in s
      ensures 0 <= Named(es, y.id) <= y.qty && (Named(es, y.id) < y.qty ==> y.(qty := y.qty - Named(es, y.id)) in m.book)
    {
      OneServed(ask, o, s, y);
    }
    forall x | x in m.book
      ensures exists y :: y in s && Named(es, y.id) < y.qty && x == y.(qty := y.qty - Named(es, y.id))
    {
      RemainsOf(s, m.book, x);
      var y :| y in s && x == y.(qty := x.qty);
      OneServed(ask, o, s, y);
    }
  }

  /** The events of a submit are accepted, the trades in order, and added exactly when something is left. */
  lemma EventsTell(req: nat, o: Order, s: seq<Order>, trades: seq<Trade>, rest: int)
    requires Runs.Tradable(o) && Hits(o.side == BUY, o.id, o.price, s, trades) && FullButLast(s, trades) && rest >= 0
    ensures SubmitTold(SubmitEvents(req, o, trades, rest), s, rest, req, o.id, o.user, o.side, o.price)
  {
    var es := SubmitEvents(req, o, trades, rest);
    forall i | 0 <= i < |trades|
      ensures es[i + 1] == Traded(req, trades[i].maker, trades[i].taker, trades[i].price, trades[i].qty)
    {
    }
  }

  lemma QueuedRests(t: seq<Order>, t': seq<Order>, o: Order)
    requires (o.side == BUY || o.side == SELL) && o.qty > 0 && Runs.Queued(o.side == SELL, t, o, t')
    ensures Rested(t, t', o.qty, o.id, o.user, o.side, o.price) && o in t'
  {
    var k :| 0 <= k <= |t| && t' == t[..k] + [o] + t[k..] && Runs.QueuedAt(o.side == SELL, t, o, k);
    assert LastOfPrice(t, k, o.side, o.price);
    assert t'[k] == o;
  }

  lemma TakenIsFilled(b: Runs.Book, o: Order)
    requires b.Sound() && Runs.Tradable(o) && !b.Live(o.id)
    ensures var out := Runs.SubmitOrder(b, o).1; out.Submitted? && Runs.Filled(out.trades, o.id) == o.qty - out.rest
  {
    Runs.SubmitOutcome(b, o);
    var s, trades := b.Side(o.side == BUY), Runs.SubmitOrder(b, o).1.trades;
    hide Runs.SubmitOrder, Orders.Traded, FullButLast, Leftover, Runs.Queued;
    forall i | 0 <= i < |trades|
      ensures trades[i].taker == o.id && trades[i].maker != o.id
    {
      assert s[i] in s;
    }
    AllTaken(trades, o.id);
  }

  /** A submit under an id that is not live: the book and the events. */
  lemma SubmitTells(b: Runs.Book, o: Order, req: nat)
    requires b.Sound() && Runs.Tradable(o) && !b.Live(o.id)
    ensures var (b', out) := Runs.SubmitOrder(b, o);
            SubmitDone(b, b', EventsOf(Runs.Submit(o), out, req), req, o.id, o.user, o.side, o.price, o.qty)
  {
    var (b', out) := Runs.SubmitOrder(b, o);
    hide *;
    Runs.SubmitOutcome(b, o);
    TakenIsFilled(b, o);
    SubmitEmits(b, o, req);
    MeetsSide(b, o, req);
    OwnSide(b, o);
    OnlyRests(b, b', EventsOf(Runs.Submit(o), out, req), o, out.rest);
    DoneIs(b, b', EventsOf(Runs.Submit(o), out, req), req, o, out.rest);
  }

  lemma DoneIs(b: Runs.Book, b': Runs.Book, es: seq<Emitted>, req: nat, o: Order, rest: int)
    requires Runs.Tradable(o) && rest >= 0 && rest == o.qty - Named(es, o.id) && (b'.Live(o.id) <==> rest > 0)
    requires SubmitTold(es, b.Side(o.side == BUY), rest, req, o.id, o.user, o.side, o.price)
    requires Served(es, b.Side(o.side == BUY), b'.Side(o.side == BUY), rest, o.side, o.price)
    requires Rested(b.Side(o.side != BUY), b'.Side(o.side != BUY), rest, o.id, o.user, o.side, o.price)
    ensures SubmitDone(b, b', es, req, o.id, o.user, o.side, o.price, o.qty)
  {
    hide SubmitTold, Served, Rested, Named, Runs.Book.Live, Runs.Book.Side;
  }

  lemma SubmitEmits(b: Runs.Book, o: Order, req: nat)
    requires b.Sound() && Runs.Tradable(o)
    ensures var out := Runs.SubmitOrder(b, o).1; var es := EventsOf(Runs.Submit(o), out, req);
            && out.Submitted? && SubmitTold(es, b.Side(o.side == BUY), out.rest, req, o.id, o.user, o.side, o.price)
            && forall id :: Named(es, id) == Runs.Filled(out.trades, id)
  {
    Runs.SubmitOutcome(b, o);
    var out := Runs.SubmitOrder(b, o).1;
    hide Runs.SubmitOrder, SubmitTold, SubmitEvents, Hits, FullButLast, Leftover, Runs.Queued, Named, Runs.Filled;
    hide Orders.Traded;
    EventsTell(req, o, b.Side(o.side == BUY), out.trades, out.rest);
    forall id
      ensures Named(EventsOf(Runs.Submit(o), out, req), id) == Runs.Filled(out.trades, id)
    {
      StepNamed(b, Runs.Submit(o), req, id);
    }
  }

  lemma MeetsSide(b: Runs.Book, o: Order, req: nat)
    requires b.Sound() && Runs.Tradable(o) && !b.Live(o.id)
    ensures var (b', out) := Runs.SubmitOrder(b, o);
            && out.Submitted?
            && Served(EventsOf(Runs.Submit(o), out, req), b.Side(o.side == BUY), b'.Side(o.side == BUY), out.rest,
                      o.side, o.price)
  {
    SubmitEmits(b, o, req);
    hide EventsOf, SubmitTold, Served, Named, Runs.Filled, MatchQueue, Inserted, Sorted, DistinctIds, Positive;
    SideServed(o, b.Side(o.side == BUY), EventsOf(Runs.Submit(o), Runs.SubmitOrder(b, o).1, req));
  }

  lemma OwnSide(b: Runs.Book, o: Order)
    requires b.Sound() && Runs.Tradable(o)
    ensures var (b', out) := Runs.SubmitOrder(b, o); var t, t' := b.Side(o.side != BUY), b'.Side(o.side != BUY);
            && out.Submitted? && Rested(t, t', out.rest, o.id, o.user, o.side, o.price)
            && if out.rest == 0 then t' == t else o.(qty := out.rest) in t'
  {
    Runs.SubmitOutcome(b, o);
    var (b', out) := Runs.SubmitOrder(b, o);
    hide Runs.SubmitOrder, Hits, FullButLast, Leftover, Orders.Traded, Runs.Queued;
    if out.rest > 0 {
      hide Rested;
      QueuedRests(b.Side(o.side != BUY), b'.Side(o.side != BUY), o.(qty := out.rest));
    }
  }

  lemma OnlyRests(b: Runs.Book, b': Runs.Book, es: seq<Emitted>, o: Order, rest: int)
    requires Runs.Tradable(o) && !b.Live(o.id) && rest >= 0
    requires Served(es, b.Side(o.side == BUY), b'.Side(o.side == BUY), rest, o.side, o.price)
    requires rest == 0 ==> b'.Side(o.side != BUY) == b.Side(o.side != BUY)
    requires rest > 0 ==> o.(qty := rest) in b'.Side(o.side != BUY)
    ensures b'.Live(o.id) <==> rest > 0
  {
    hide Named;
  }

  // ---- one cancel ------------------------------------------------------------------------------------

  lemma TakenOut(t: seq<Order>, i: nat)
    requires i < |t| && DistinctIds(t)
    ensures Departed(t, Runs.Without(t, i), t[i].id) && forall x :: x in Runs.Without(t, i) ==> x.id != t[i].id
  {
    assert t[i] in t;
    assert Runs.Without(t, i) == t[..i] + t[i + 1..];
  }

  /** A cancel takes exactly the order it names off the book, and says whether there was one. */
  lemma CancelTells(b: Runs.Book, id: nat, req: nat)
    requires b.Sound()
    ensures var (b', out) := Runs.CancelOrder(b, id); var ok := out == Runs.Cancelled(true);
            CancelDone(b, b', CancelEvents(req, id, ok), req, id, ok)
  {
    hide Runs.Without, Runs.Find, Sorted, DistinctIds, Positive, Departed;
    var i, j := Runs.Find(b.bids, id), Runs.Find(b.asks, id);
    Finds(b.bids, id);
    Finds(b.asks, id);
    if i < |b.bids| {
      TakenOut(b.bids, i);
    } else if j < |b.asks| {
      TakenOut(b.asks, j);
    }
  }

  lemma Finds(t: seq<Order>, id: nat)
    ensures Runs.Find(t, id) < |t| <==> exists x :: x in t && x.id == id
    ensures Runs.Find(t, id) < |t| ==> t[Runs.Find(t, id)] in t && t[Runs.Find(t, id)].id == id
    ensures Runs.Find(t, id) == |t| ==> Departed(t, t, id)
  {
    hide Runs.Find;
    if Runs.Find(t, id) == |t| {
      assert forall x :: x in t ==> x.id != id;
    }
  }

  /** Every command of a history that gives no id twice, on the reference book: what it does and what is told. */
  lemma HistoryTells(cs: seq<Runs.Command>, i: nat)
    requires Runs.OncePerId(cs) && i < |cs|
    ensures var b, b' := Runs.Run(cs[..i]), Runs.Run(cs[..i + 1]); var es := EventsOf(cs[i], Runs.Step(b, cs[i]).1, i);
            match cs[i]
            case Submit(o) =>
              if Runs.Tradable(o) then SubmitDone(b, b', es, i, o.id, o.user, o.side, o.price, o.qty)
              else b' == b && es == [Accepted(i, o.id, o.user)] + (if o.qty > 0 then [Added(i, o.id, o.user)] else [])
            case Cancel(id) => CancelDone(b, b', es, i, id, b.Live(id))
  {
    assert cs[..i + 1][..i] == cs[..i] && Runs.OncePerId(cs[..i]);
    Runs.RunValid(cs[..i]);
    var b := Runs.Run(cs[..i]);
    hide SubmitDone, Runs.SubmitOrder, Runs.CancelOrder, Runs.Run, Departed, SubmitEvents;
    match cs[i]
    case Submit(o) =>
      FreshSubmit(cs, i);
      if Runs.Tradable(o) {
        SubmitTells(b, o, i);
      } else {
        IdleTells(b, o, i);
      }
    case Cancel(id) =>
      CancelTells(b, id, i);
  }

  lemma IdleTells(b: Runs.Book, o: Order, req: nat)
    requires !Runs.Tradable(o)
    ensures var (b', out) := Runs.SubmitOrder(b, o);
            b' == b && EventsOf(Runs.Submit(o), out, req) ==
                       [Accepted(req, o.id, o.user)] + (if o.qty > 0 then [Added(req, o.id, o.user)] else [])
  {
    var head := [Accepted(req, o.id, o.user)];
    assert head + TradeEvents(req, []) == head;
  }

  // ---- the engine's commands -------------------------------------------------------------------------

  /** A logged submit under an id that is not live, on replay and, if it passes the validation, live. */
  lemma SubmitReplays(b: Runs.Book, c: Command)
    requires b.Sound() && c.typ == CMD_SUBMIT && c.qty > 0 && (c.side == 1 || c.side == 2) && !b.Live(c.order)
    ensures var (b', es) := Replayed(SliceOrderBook(), b, c);
            && SubmitDone(b, b', es, c.req, c.order, c.user, c.side, c.price, c.qty)
            && (c.order != 0 && c.price > 0 ==> Live(SliceOrderBook(), b, c) == (b', es, true))
  {
    hide SubmitDone, Runs.SubmitOrder, Runs.Book.Live, Runs.Book.Sound, SubmitEvents;
    SubmitTells(b, Order(c.order, c.side, c.price, c.qty, c.user), c.req);
  }

  /** A logged submit without quantity or with an unknown side: the book stays, though `added` may be told. */
  lemma IdleReplays(b: Runs.Book, c: Command)
    requires c.typ == CMD_SUBMIT && !(c.qty > 0 && (c.side == 1 || c.side == 2))
    ensures Replayed(SliceOrderBook(), b, c) ==
            (b, [Accepted(c.req, c.order, c.user)] + (if c.qty > 0 then [Added(c.req, c.order, c.user)] else []))
  {
    IdleTells(b, Order(c.order, c.side, c.price, c.qty, c.user), c.req);
  }

  /** A logged cancel; live, a miss is told a second time. */
  lemma CancelReplays(b: Runs.Book, c: Command)
    requires b.Sound() && c.typ == CMD_CANCEL
    ensures var (b', es) := Replayed(SliceOrderBook(), b, c);
            && CancelDone(b, b', es, c.req, c.cancel, b.Live(c.cancel))
            && (c.cancel != 0 ==>
                  Live(SliceOrderBook(), b, c) ==
                  (b', if b.Live(c.cancel) then es else es + [Rejected(c.req, c.cancel, 0)], true))
  {
    CancelTells(b, c.cancel, c.req);
    hide Runs.CancelOrder, Runs.Book.Live, Runs.Book.Sound, Departed;
    var es := Replayed(SliceOrderBook(), b, c).1;
    assert es + [] == es;
  }

  /** What the running actor refuses: it tells so and nothing else, and only an unknown kind gets an
      end marker. */
  lemma LiveRefuses(b: Runs.Book, c: Command)
    ensures c.typ == CMD_SUBMIT && (c.order == 0 || c.qty <= 0 || c.price <= 0 || !(c.side == 1 || c.side == 2)) ==>
              Live(SliceOrderBook(), b, c) == (b, [Rejected(c.req, c.order, c.user)], false)
    ensures c.typ == CMD_CANCEL && c.cancel == 0 ==>
              Live(SliceOrderBook(), b, c) == (b, [Rejected(c.req, 0, 0)], false)
    ensures c.typ != CMD_SUBMIT && c.typ != CMD_CANCEL ==>
              Live(SliceOrderBook(), b, c) == (b, [Rejected(c.req, c.order, c.user)], true)
  {
    hide Runs.SubmitOrder, Runs.CancelOrder;
  }
}
