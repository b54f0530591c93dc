/** The pointer book driven through the engine's adapter over a whole history. */
module HeapHistory {
  import opened Basics
  import opened Orders
  import opened BookSpec
  import opened BookRuns
  import opened HeapModel
  import opened HeapRefinement
  import opened Events
  import Adapter
  import HeapBook

  function EventsOf(c: Command, out: Outcome, req: nat): seq<Emitted> {
    match c
    case Submit(o) => if out.Submitted? then SubmitEvents(req, o, out.trades, out.rest) else []
    case Cancel(id) => CancelEvents(req, id, out == BookRuns.Cancelled(true))
  }

  lemma NothingShared(h: Buckets, b: Book)
    requires b.Valid() && Holds(h, b)
    ensures forall p :: Queue(h.asks.levels, p) == [] || Queue(h.bids.levels, p) == []
  {
    forall p
      ensures Queue(h.asks.levels, p) == [] || Queue(h.bids.levels, p) == []
    {
      if Queue(h.asks.levels, p) != [] {
        var a := Queue(h.asks.levels, p)[0];
        RelKeyed(true, h.asks.levels, b.asks);
        RelMember(true, h.asks.levels, b.asks, a);
        NoSharedPrice(h, b, a);
      }
    }
  }

  method Serve(adapter: Adapter.HeapBookAdapter, c: Command, req: nat) returns (evs: seq<Emitted>)
    requires adapter.book.Valid()
    requires forall p :: Queue(adapter.book.asks.queues, p) == [] || Queue(adapter.book.bids.queues, p) == []
    modifies adapter.book.Repr()
    ensures adapter.book.Valid() && fresh(adapter.book.Repr() - old(adapter.book.Repr()))
    ensures var (b, out) := StepBuckets(old(adapter.book.Abs()), c);
            adapter.book.Abs() == b && evs == EventsOf(c, out, req)
  {
    hide HeapBook.LevelOrderBookHeap.Valid, CancelBuckets, MatchBuckets, AddBuckets;
    match c {
      case Submit(o) =>
        evs := adapter.SubmitLimit(req, o.id, o.user, o.side, o.price, o.qty);
      case Cancel(id) =>
        var ok;
        ok, evs := adapter.Cancel(req, id);
    }
  }

  method ServeFrom(adapter: Adapter.HeapBookAdapter, cs: seq<Command>, i: nat) returns (outs: seq<seq<Emitted>>)
    requires OncePerId(cs) && TrapFree(cs) && i <= |cs|
    requires adapter.book.Valid() && adapter.book.Abs() == RunBuckets(cs[..i])
    modifies adapter.book.Repr()
    ensures |outs| == |cs| - i
    ensures forall j :: i <= j < |cs| ==> outs[j - i] == EventsOf(cs[j], Step(Run(cs[..j]), cs[j]).1, j)
    ensures adapter.book.Valid() && Holds(adapter.book.Abs(), Run(cs))
    decreases |cs| - i
  {
    hide HeapBook.LevelOrderBookHeap.Valid, HeapBook.LevelOrderBookHeap.Repr, Holds, StepBuckets, Step, EventsOf;
    hide TrapFree, OncePerId, Run, RunBuckets;
    if i == |cs| {
      AtTheEnd(cs);
      return [];
    }
    OnTheWay(cs, i);
    Reachable(cs, i);
    var evs := Serve(adapter, cs[i], i);
    outs := ServeFrom(adapter, cs, i + 1);
    outs := [evs] + outs;
  }

  lemma AtTheEnd(cs: seq<Command>)
    requires OncePerId(cs) && TrapFree(cs)
    ensures Holds(RunBuckets(cs[..|cs|]), Run(cs))
  {
    RunRefines(cs, |cs|);
    assert cs[..|cs|] == cs;
  }

  lemma OnTheWay(cs: seq<Command>, i: nat)
    requires OncePerId(cs) && TrapFree(cs) && i < |cs|
    ensures StepBuckets(RunBuckets(cs[..i]), cs[i]) == (RunBuckets(cs[..i + 1]), Step(Run(cs[..i]), cs[i]).1)
  {
    hide Holds, TrapFree, OncePerId, StepBuckets, Step;
    RunRefines(cs, i);
    StepRefines(cs, i);
    assert cs[..i + 1][..i] == cs[..i];
  }

  /** Linked lists, index, pool and lazy heaps together emit, for every command of a history that
      submits each id once and never traps, exactly what the sorted-slice book calls for. */
  method RunHistory(cs: seq<Command>) returns (outs: seq<seq<Emitted>>, adapter: Adapter.HeapBookAdapter)
    requires OncePerId(cs) && TrapFree(cs)
    ensures |outs| == |cs|
    ensures forall i :: 0 <= i < |cs| ==> outs[i] == EventsOf(cs[i], Step(Run(cs[..i]), cs[i]).1, i)
    ensures adapter.book.Valid() && Holds(adapter.book.Abs(), Run(cs))
  {
    hide HeapBook.LevelOrderBookHeap.Valid, Holds, StepBuckets, Step, EventsOf, TrapFree, OncePerId;
    var book := new HeapBook.LevelOrderBookHeap();
    adapter := new Adapter.HeapBookAdapter(book);
    outs := ServeFrom(adapter, cs, 0);
  }

  lemma Reachable(cs: seq<Command>, i: nat)
    requires OncePerId(cs) && TrapFree(cs) && i <= |cs|
    ensures forall p :: Queue(RunBuckets(cs[..i]).asks.levels, p) == [] || Queue(RunBuckets(cs[..i]).bids.levels, p) == []
  {
    RunRefines(cs, i);
    assert OncePerId(cs[..i]);
    RunValid(cs[..i]);
    NothingShared(RunBuckets(cs[..i]), Run(cs[..i]));
  }

  // ---- the ledger told by the events ---------------------------------------------------------------

  /** The quantity of the Trade events that name an order, as maker or as taker. */
  ghost function Named(evs: seq<Emitted>, id: nat): int
    decreases |evs|
  {
    if evs == [] then 0 else Named(Init(evs), id) + NamedBy(Last(evs), id)
  }

  ghost function NamedBy(e: Emitted, id: nat): int {
    if e.Traded? then (if e.maker == id then e.qty else 0) + (if e.taker == id then e.qty else 0) else 0
  }

  lemma {:induction false} NamedAppend(a: seq<Emitted>, b: seq<Emitted>, id: nat)
    ensures Named(a + b, id) == Named(a, id) + Named(b, id)
    decreases |b|
  {
    if b == [] {
      assert a + b == a;
    } else {
      NamedAppend(a, Init(b), id);
      assert Init(a + b) == a + Init(b);
    }
  }

  /** The Trade events of a match tell, for every order, exactly the quantity it gave or took. */
  lemma {:induction false} TradeEventsNamed(req: nat, trades: seq<Trade>, id: nat)
    ensures Named(TradeEvents(req, trades), id) == Filled(trades, id)
    decreases |trades|
  {
    if trades != [] {
      TradeEventsNamed(req, Init(trades), id);
      FilledAppend(Init(trades), [Last(trades)], id);
      assert Init(trades) + [Last(trades)] == trades;
      assert Init(TradeEvents(req, trades)) == TradeEvents(req, Init(trades));
      assert [Last(trades)][1..] == [];
    }
  }

  lemma NamedOne(e: Emitted, id: nat)
    ensures Named([e], id) == NamedBy(e, id)
  {
    assert Init([e]) == [];
  }

  lemma StepNamed(b: Book, c: Command, req: nat, id: nat)
    ensures Named(EventsOf(c, Step(b, c).1, req), id) == Filled(StepTrades(b, c), id)
  {
    var out := Step(b, c).1;
    match c {
      case Submit(o) =>
        var head, trades := [Accepted(req, o.id, o.user)], TradeEvents(req, out.trades);
        var tail := if out.rest > 0 then [Added(req, o.id, o.user)] else [];
        hide TradeEvents, SubmitOrder, Filled;
        TradeEventsNamed(req, out.trades, id);
        NamedAppend(head + trades, tail, id);
        NamedAppend(head, trades, id);
        NamedOne(head[0], id);
        NamedOne(Added(req, o.id, o.user), id);
      case Cancel(cancelled) =>
        NamedOne(CancelEvents(req, cancelled, out == BookRuns.Cancelled(true))[0], id);
    }
  }

  /** Everything a history emits, in order. */
  ghost function Stream(cs: seq<Command>): seq<Emitted>
    decreases |cs|
  {
    if cs == [] then []
    else Stream(Init(cs)) + EventsOf(Last(cs), Step(Run(Init(cs)), Last(cs)).1, |cs| - 1)
  }

  lemma {:induction false} StreamNamed(cs: seq<Command>, id: nat)
    ensures Named(Stream(cs), id) == Filled(Tape(cs), id)
    decreases |cs|
  {
    if cs != [] {
      StreamNamed(Init(cs), id);
      StepNamed(Run(Init(cs)), Last(cs), |cs| - 1, id);
      hide Step, EventsOf, StepTrades, Named, Filled;
      NamedAppend(Stream(Init(cs)), EventsOf(Last(cs), Step(Run(Init(cs)), Last(cs)).1, |cs| - 1), id);
      FilledAppend(Tape(Init(cs)), StepTrades(Run(Init(cs)), Last(cs)), id);
    }
  }

  /** Ledger over the events: after any history with fresh ids each live order rests with what it was
      submitted with less the quantity of all Trade events that name it. */
  lemma EventLedger(cs: seq<Command>, o: Order)
    requires OncePerId(cs) && (o in Run(cs).bids || o in Run(cs).asks)
    ensures o.qty == SubmittedQty(cs, o.id) - Named(Stream(cs), o.id)
  {
    hide SubmittedQty, Filled, Tape, Named, Stream, Run, OncePerId;
    LiveOrderLedger(cs, o);
    StreamNamed(cs, o.id);
  }
}
