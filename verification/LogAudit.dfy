/** What the bytes of the event log say about the commands and the book (internal/engine/actor.go,
    outbox.go): told by the decoded records and the commands' fields alone. */
module LogAudit {
  import opened Basics
  import opened Bytes
  import opened Orders
  import opened Events
  import opened HeapHistory
  import opened HeapEngine
  import opened Engine
  import opened Codecs
  import opened Recovery
  import opened Effects
  import Publisher
  import Runs = BookRuns

  ghost function Read(ps: seq<seq<byte>>): (evs: seq<Event>)
    requires Publisher.Readable(ps)
    ensures |evs| == |ps| && forall i :: 0 <= i < |ps| ==> evs[i] == DecodedEv(ps[i]).value
  {
    seq(|ps|, i requires 0 <= i < |ps| => DecodedEv(ps[i]).value)
  }

  /** The quantity of the trade records that name an order, as maker or as taker. */
  ghost function LogNamed(evs: seq<Event>, id: nat): int
    decreases |evs|
  {
    if evs == [] then 0
    else
      var e := Last(evs);
      LogNamed(Init(evs), id) +
      (if e.typ == EV_TRADE then (if e.maker == id then e.qty else 0) + (if e.taker == id then e.qty else 0) else 0)
  }

  /** The records of one command, without its end marker, are numbered through. */
  ghost predicate Stamps(evs: seq<Event>, n: nat, req: nat) {
    forall i :: 0 <= i < |evs| ==> evs[i].seqNo == n && evs[i].idx == i % 0x1_0000 && evs[i].req == req
  }

  ghost predicate NoOrder(e: Event) {
    e.order == 0 && e.user == 0
  }

  ghost predicate NoTrade(e: Event) {
    e.maker == 0 && e.taker == 0 && e.price == 0 && e.qty == 0
  }

  ghost predicate Marks(e: Event, n: nat) {
    e.typ == EV_CMD_END && e.seqNo == n && e.idx == 0 && e.req == 0 && NoOrder(e) && NoTrade(e)
  }

  ghost predicate TradeLogged(e: Event, maker: Order, c: Command) {
    && e.typ == EV_TRADE && e.maker == maker.id && e.taker == c.order && e.price == maker.price
    && 0 < e.qty <= maker.qty && NoOrder(e)
    && (if c.side == 1 then maker.price <= c.price else maker.price >= c.price)
  }

  ghost predicate About(e: Event, typ: byte, order: nat, user: nat) {
    e.typ == typ && e.order == order && e.user == user && NoTrade(e)
  }

  /** The records of a submit, given the queue it met. */
  ghost predicate SubmitLogged(evs: seq<Event>, s: seq<Order>, c: Command) {
    var left := c.qty - LogNamed(evs, c.order);
    var m := |evs| - 1 - (if left > 0 then 1 else 0);
    && 0 <= m <= |s| && About(evs[0], EV_ACCEPTED, c.order, c.user)
    && (left > 0 ==> About(Last(evs), EV_ADDED, c.order, c.user))
    && (forall i :: 0 <= i < m ==> TradeLogged(evs[i + 1], s[i], c))
  }

  /** The records of one command, its end marker last. */
  ghost predicate CommandLogged(evs: seq<Event>, b: Runs.Book, c: Command, n: nat) {
    && evs != [] && Marks(Last(evs), n) && Stamps(Init(evs), n, c.req)
    && (if c.typ == CMD_CANCEL then
          |evs| == 2 && About(evs[0], if b.Live(c.cancel) then EV_CANCELLED else EV_REJECTED, c.cancel, 0)
        else if c.qty > 0 && (c.side == 1 || c.side == 2) then
          SubmitLogged(Init(evs), b.Side(c.side == 1), c)
        else
          && |evs| == (if c.qty > 0 then 3 else 2) && About(evs[0], EV_ACCEPTED, c.order, c.user)
          && (c.qty > 0 ==> About(evs[1], EV_ADDED, c.order, c.user)))
  }

  // ---- from events to records ------------------------------------------------------------------------

  ghost predicate Fits(e: Emitted) {
    match e
    case Traded(req, maker, taker, price, qty) =>
      && req < TWO64 && maker < TWO64 && taker < TWO64
      && -0x8000_0000_0000_0000 <= price < 0x8000_0000_0000_0000 && 0 <= qty < 0x8000_0000_0000_0000
    case Cancelled(req, order) => req < TWO64 && order < TWO64
    case _ => e.req < TWO64 && e.order < TWO64 && e.user < TWO64
  }

  /** The record says what was emitted. */
  ghost predicate Says(ev: Event, e: Emitted) {
    && ev.req == e.req
    && match e
       case Accepted(req, order, user) => About(ev, EV_ACCEPTED, order, user)
       case Rejected(req, order, user) => About(ev, EV_REJECTED, order, user)
       case Added(req, order, user) => About(ev, EV_ADDED, order, user)
       case Cancelled(req, order) => About(ev, EV_CANCELLED, order, 0)
       case Traded(req, maker, taker, price, qty) =>
         ev.typ == EV_TRADE && ev.maker == maker && ev.taker == taker && ev.price == price && ev.qty == qty && NoOrder(ev)
  }

  lemma StampSays(n: u64, i: nat, e: Emitted)
    requires Fits(e)
    ensures var ev := Stamped(n, i, e); ev.seqNo == n && ev.idx == i % 0x1_0000 && Says(ev, e)
  {
  }

  lemma ReadRecords(n: u64, es: seq<Emitted>)
    requires forall i :: 0 <= i < |es| ==> Fits(es[i])
    ensures Publisher.Readable(Records(n, es))
    ensures var evs := Read(Records(n, es));
            && |evs| == |es| + 1 && Marks(Last(evs), n)
            && forall i :: 0 <= i < |es| ==> evs[i].seqNo == n && evs[i].idx == i % 0x1_0000 && Says(evs[i], es[i])
  {
    var ps := Records(n, es);
    forall i | 0 <= i < |ps|
      ensures DecodedEv(ps[i]).Ok?
      ensures if i == |es| then Marks(DecodedEv(ps[i]).value, n)
              else var ev := DecodedEv(ps[i]).value; ev.seqNo == n && ev.idx == i % 0x1_0000 && Says(ev, es[i])
    {
      if i == |es| {
        EvRoundTrip(EndMarker(n));
      } else {
        StampedDecodes(n, i, es[i]);
        StampSays(n, i, es[i]);
        hide Says, Fits, Stamped, DecodedEv, EncodedEv;
      }
    }
    hide DecodedEv, EncodedEv, Says, Fits;
  }

  lemma {:induction false} LogNamedAppend(a: seq<Event>, b: seq<Event>, id: nat)
    ensures LogNamed(a + b, id) == LogNamed(a, id) + LogNamed(b, id)
    decreases |b|
  {
    if b == [] {
      assert a + b == a;
    } else {
      LogNamedAppend(a, Init(b), id);
      assert Init(a + b) == a + Init(b);
    }
  }

  lemma {:induction false} NamedAsSaid(evs: seq<Event>, es: seq<Emitted>, id: nat)
    requires |evs| == |es| && forall i :: 0 <= i < |es| ==> Says(evs[i], es[i])
    ensures LogNamed(evs, id) == Named(es, id)
    decreases |es|
  {
    if es != [] {
      NamedAsSaid(Init(evs), Init(es), id);
      assert Says(Last(evs), Last(es));
    }
  }

  lemma MarkNamesNobody(evs: seq<Event>, n: nat, id: nat)
    requires evs != [] && Marks(Last(evs), n)
    ensures LogNamed(evs, id) == LogNamed(Init(evs), id)
  {
  }

  /** Ids, prices and quantities as they fit the records. */
  ghost predicate Ranged(s: seq<Order>) {
    forall x :: x in s ==>
      && x.id < TWO64 && -0x8000_0000_0000_0000 <= x.price < 0x8000_0000_0000_0000 && 0 < x.qty < 0x8000_0000_0000_0000
  }

  lemma SubmitFits(es: seq<Emitted>, s: seq<Order>, left: int, c: Command)
    requires Ranged(s) && SubmitTold(es, s, left, c.req, c.order, c.user, c.side, c.price)
    ensures forall i :: 0 <= i < |es| ==> Fits(es[i]) && es[i].req == c.req
  {
    var n := |es| - 1 - (if left > 0 then 1 else 0);
    forall i | 0 <= i < |es|
      ensures Fits(es[i]) && es[i].req == c.req
    {
      if 0 < i <= n {
        assert s[i - 1] in s;
        assert TradeTold(es[i - 1 + 1], c.req, s[i - 1], c.order, c.side, c.price);
      }
    }
  }

  lemma SubmitSaid(evs: seq<Event>, es: seq<Emitted>, s: seq<Order>, c: Command)
    requires (c.side == 1 || c.side == 2) && |evs| == |es| && forall i :: 0 <= i < |es| ==> Says(evs[i], es[i])
    requires SubmitTold(es, s, c.qty - Named(es, c.order), c.req, c.order, c.user, c.side, c.price)
    ensures SubmitLogged(evs, s, c)
  {
    NamedAsSaid(evs, es, c.order);
    hide Named, LogNamed;
    var left := c.qty - Named(es, c.order);
    var n := |es| - 1 - (if left > 0 then 1 else 0);
    assert Says(evs[0], es[0]);
    if left > 0 {
      assert Says(evs[|es| - 1], es[|es| - 1]);
    }
    forall i | 0 <= i < n
      ensures TradeLogged(evs[i + 1], s[i], c)
    {
      assert Says(evs[i + 1], es[i + 1]);
      assert TradeTold(es[i + 1], c.req, s[i], c.order, c.side, c.price);
    }
  }

  /** A command the book may meet: a cancel, or a submit under an id that is not live. */
  ghost predicate Admissible(b: Runs.Book, c: Command) {
    c.typ == CMD_CANCEL || (c.typ == CMD_SUBMIT && !b.Live(c.order))
  }

  lemma EffectsFit(b: Runs.Book, c: Command)
    requires b.Sound() && Ranged(b.bids) && Ranged(b.asks) && Admissible(b, c)
    ensures var es := Replayed(SliceOrderBook(), b, c).1;
            && (forall i :: 0 <= i < |es| ==> Fits(es[i]))
            && forall i :: 0 <= i < |es| ==> es[i].req == c.req
  {
    hide Replayed, SliceOrderBook, Ranged, Runs.Book.Sound, Runs.Book.Live, Served, Rested, Named;
    var es := Replayed(SliceOrderBook(), b, c).1;
    if c.typ == CMD_CANCEL {
      CancelReplays(b, c);
    } else if c.qty > 0 && (c.side == 1 || c.side == 2) {
      SubmitReplays(b, c);
      SubmitFits(es, b.Side(c.side == BUY), c.qty - Named(es, c.order), c);
    } else {
      IdleReplays(b, c);
    }
  }

  /** The decoded records of a command, its end marker last, say what it emitted. */
  ghost predicate Reads(evs: seq<Event>, es: seq<Emitted>, n: nat) {
    && |evs| == |es| + 1 && Marks(Last(evs), n)
    && forall i :: 0 <= i < |es| ==> evs[i].seqNo == n && evs[i].idx == i % 0x1_0000 && Says(evs[i], es[i])
  }

  lemma ReadsSubmit(b: Runs.Book, b': Runs.Book, c: Command, n: nat, evs: seq<Event>, es: seq<Emitted>)
    requires c.typ != CMD_CANCEL && c.qty > 0 && (c.side == 1 || c.side == 2) && Reads(evs, es, n)
    requires forall i :: 0 <= i < |es| ==> es[i].req == c.req
    requires SubmitDone(b, b', es, c.req, c.order, c.user, c.side, c.price, c.qty)
    ensures CommandLogged(evs, b, c, n)
  {
    hide SubmitTold, SubmitLogged, Served, Rested, Named, LogNamed;
    SubmitSaid(Init(evs), es, b.Side(c.side == 1), c);
    hide About;
  }

  lemma ReadsIdle(b: Runs.Book, c: Command, n: nat, evs: seq<Event>, es: seq<Emitted>)
    requires c.typ != CMD_CANCEL && !(c.qty > 0 && (c.side == 1 || c.side == 2)) && Reads(evs, es, n)
    requires es == [Accepted(c.req, c.order, c.user)] + (if c.qty > 0 then [Added(c.req, c.order, c.user)] else [])
    ensures CommandLogged(evs, b, c, n)
  {
    assert Says(evs[0], es[0]);
    if c.qty > 0 {
      assert Says(evs[1], es[1]);
    }
  }

  lemma ReadsCancel(b: Runs.Book, b': Runs.Book, c: Command, n: nat, evs: seq<Event>, es: seq<Emitted>)
    requires c.typ == CMD_CANCEL && Reads(evs, es, n) && CancelDone(b, b', es, c.req, c.cancel, b.Live(c.cancel))
    ensures CommandLogged(evs, b, c, n)
  {
    hide Departed, Runs.Book.Live;
    assert Says(evs[0], es[0]);
  }

  lemma ReadsNamed(evs: seq<Event>, es: seq<Emitted>, n: nat, id: nat)
    requires Reads(evs, es, n)
    ensures LogNamed(evs, id) == Named(es, id)
  {
    hide LogNamed, Named, Says;
    MarkNamesNobody(evs, n, id);
    NamedAsSaid(Init(evs), es, id);
  }

  /** The records of one command, decoded, and the quantity they name for each id. */
  lemma RecordsTell(b: Runs.Book, c: Command, n: u64)
    requires b.Sound() && Ranged(b.bids) && Ranged(b.asks) && Admissible(b, c)
    ensures var es := Replayed(SliceOrderBook(), b, c).1; var ps := Records(n, es);
            && Publisher.Readable(ps) && CommandLogged(Read(ps), b, c, n)
            && forall id :: LogNamed(Read(ps), id) == Named(es, id)
  {
    var (b', es) := Replayed(SliceOrderBook(), b, c);
    hide Replayed, SliceOrderBook, Records, CommandLogged, LogNamed, Named, SubmitDone, CancelDone, Ranged;
    hide Runs.Book.Sound, Runs.Book.Live, Fits, Says;
    EffectsFit(b, c);
    ReadRecords(n, es);
    var evs := Read(Records(n, es));
    forall id
      ensures LogNamed(evs, id) == Named(es, id)
    {
      ReadsNamed(evs, es, n, id);
    }
    if c.typ == CMD_CANCEL {
      CancelReplays(b, c);
      ReadsCancel(b, b', c, n, evs, es);
    } else if c.qty > 0 && (c.side == 1 || c.side == 2) {
      SubmitReplays(b, c);
      ReadsSubmit(b, b', c, n, evs, es);
    } else {
      IdleReplays(b, c);
      ReadsIdle(b, c, n, evs, es);
    }
  }

  // ---- the book told by the two logs -------------------------------------------------------------------

  ghost predicate Rests(b: Runs.Book, x: Order) {
    x in b.bids || x in b.asks
  }

  /** The order is the command's, short of what the trade records name it for. */
  ghost predicate OwnedBy(c: Command, x: Order, log: seq<Event>) {
    c.typ == CMD_SUBMIT && x == Order(c.order, c.side, c.price, c.qty - LogNamed(log, c.order), c.user)
  }

  ghost predicate Owned(cs: seq<Command>, x: Order, log: seq<Event>) {
    exists k :: 0 <= k < |cs| && OwnedBy(cs[k], x, log)
  }

  /** Some submit gave this order id. */
  ghost predicate Given(cs: seq<Command>, id: nat) {
    exists k :: 0 <= k < |cs| && cs[k].typ == CMD_SUBMIT && cs[k].order == id
  }

  /** No order id is given twice. */
  ghost predicate FreshIds(cs: seq<Command>) {
    forall i, k :: 0 <= i < k < |cs| && cs[i].typ == CMD_SUBMIT && cs[k].typ == CMD_SUBMIT ==> cs[i].order != cs[k].order
  }

  /** The book is the one both logs tell: each order is a command's, with its price, side and user, short of
      what the trade records name it for; and these name no id that no command gave. */
  ghost predicate Audited(cs: seq<Command>, b: Runs.Book, log: seq<Event>) {
    && b.Valid()
    && (forall x :: Rests(b, x) ==> Owned(cs, x, log))
    && (forall id :: LogNamed(log, id) >= 0 && (LogNamed(log, id) > 0 ==> Given(cs, id)))
  }

  /** How one command changes the book: orders lose what they traded, or go; at most the command's own
      order comes. */
  ghost predicate Changes(b: Runs.Book, b': Runs.Book, es: seq<Emitted>, c: Command) {
    && (forall x :: Rests(b', x) ==>
          || (c.typ == CMD_SUBMIT && x == Order(c.order, c.side, c.price, c.qty - Named(es, c.order), c.user))
          || exists y :: Rests(b, y) && x == y.(qty := y.qty - Named(es, y.id)))
    && (forall id :: Named(es, id) >= 0 && (Named(es, id) > 0 ==> b.Live(id) || (c.typ == CMD_SUBMIT && id == c.order)))
  }

  lemma {:induction false} NamedNot(es: seq<Emitted>, id: nat)
    requires forall e :: e in es && e.Traded? ==> e.maker != id && e.taker != id
    ensures Named(es, id) == 0
    decreases |es|
  {
    if es != [] {
      NamedNot(Init(es), id);
    }
  }

  lemma {:induction false} NamedCounts(es: seq<Emitted>, id: nat)
    requires forall e :: e in es && e.Traded? ==> e.qty >= 0
    ensures Named(es, id) >= 0
    decreases |es|
  {
    if es != [] {
      NamedCounts(Init(es), id);
      assert Last(es) in es;
    }
  }

  lemma SubmitCounts(es: seq<Emitted>, s: seq<Order>, left: int, c: Command, id: nat)
    requires SubmitTold(es, s, left, c.req, c.order, c.user, c.side, c.price)
    ensures Named(es, id) >= 0
  {
    var n := |es| - 1 - (if left > 0 then 1 else 0);
    forall e | e in es && e.Traded?
      ensures e.qty >= 0
    {
      var i :| 0 <= i < |es| && es[i] == e;
      if 0 < i <= n {
        assert TradeTold(es[i - 1 + 1], c.req, s[i - 1], c.order, c.side, c.price);
      }
    }
    NamedCounts(es, id);
  }

  lemma SubmitNames(es: seq<Emitted>, s: seq<Order>, left: int, c: Command, id: nat)
    requires SubmitTold(es, s, left, c.req, c.order, c.user, c.side, c.price)
    requires id != c.order && forall y :: y in s ==> y.id != id
    ensures Named(es, id) == 0
  {
    var n := |es| - 1 - (if left > 0 then 1 else 0);
    forall e | e in es && e.Traded?
      ensures e.maker != id && e.taker != id
    {
      var i :| 0 <= i < |es| && es[i] == e;
      if 0 < i <= n {
        assert TradeTold(es[i - 1 + 1], c.req, s[i - 1], c.order, c.side, c.price);
        assert s[i - 1] in s;
      }
    }
    NamedNot(es, id);
  }

  lemma SubmitChanges(b: Runs.Book, b': Runs.Book, es: seq<Emitted>, c: Command)
    requires b.Sound() && c.typ == CMD_SUBMIT && (c.side == 1 || c.side == 2) && !b.Live(c.order)
    requires SubmitDone(b, b', es, c.req, c.order, c.user, c.side, c.price, c.qty)
    ensures Changes(b, b', es, c)
  {
    hide Named, SubmitTold, Served, Rested, Runs.Book.Sound, Runs.Book.Live;
    forall id
      ensures Named(es, id) >= 0 && (Named(es, id) > 0 ==> b.Live(id) || id == c.order)
    {
      SubmitCounts(es, b.Side(c.side == BUY), c.qty - Named(es, c.order), c, id);
      if id != c.order && !b.Live(id) {
        NotOnSide(b, c.side == BUY, id);
        SubmitNames(es, b.Side(c.side == BUY), c.qty - Named(es, c.order), c, id);
      }
    }
    forall x | Rests(b', x)
      ensures x == Order(c.order, c.side, c.price, c.qty - Named(es, c.order), c.user)
              || exists y :: Rests(b, y) && x == y.(qty := y.qty - Named(es, y.id))
    {
      if x in b'.Side(c.side == BUY) {
        MetChanges(b, b', es, c, x);
      } else {
        OwnChanges(b, b', es, c, x);
      }
    }
  }

  lemma NotOnSide(b: Runs.Book, ask: bool, id: nat)
    requires !b.Live(id)
    ensures forall y :: y in b.Side(ask) ==> y.id != id
  {
  }

  lemma MetChanges(b: Runs.Book, b': Runs.Book, es: seq<Emitted>, c: Command, x: Order)
    requires SubmitDone(b, b', es, c.req, c.order, c.user, c.side, c.price, c.qty) && x in b'.Side(c.side == BUY)
    ensures exists y :: Rests(b, y) && x == y.(qty := y.qty - Named(es, y.id))
  {
    hide Named, SubmitTold, Rested, Runs.Book.Live;
    var s := b.Side(c.side == BUY);
    var y :| y in s && x == y.(qty := y.qty - Named(es, y.id));
    assert Rests(b, y);
  }

  lemma OwnChanges(b: Runs.Book, b': Runs.Book, es: seq<Emitted>, c: Command, x: Order)
    requires b.Sound() && !b.Live(c.order) && x in b'.Side(c.side != BUY)
    requires SubmitDone(b, b', es, c.req, c.order, c.user, c.side, c.price, c.qty)
    ensures x == Order(c.order, c.side, c.price, c.qty - Named(es, c.order), c.user)
            || exists y :: Rests(b, y) && x == y.(qty := y.qty - Named(es, y.id))
  {
    hide Named, SubmitTold, Served, Sorted, DistinctIds, Positive, LastOfPrice;
    var s, t := b.Side(c.side == BUY), b.Side(c.side != BUY);
    if x in t {
      SubmitNames(es, s, c.qty - Named(es, c.order), c, x.id);
      assert Rests(b, x) && x == x.(qty := x.qty - Named(es, x.id));
    }
  }

  lemma IdleChanges(b: Runs.Book, es: seq<Emitted>, c: Command)
    requires forall e :: e in es ==> !e.Traded?
    ensures Changes(b, b, es, c)
  {
    forall id
      ensures Named(es, id) == 0
    {
      NamedNot(es, id);
    }
    hide Named;
    forall x | Rests(b, x)
      ensures exists y :: Rests(b, y) && x == y.(qty := y.qty - Named(es, y.id))
    {
      assert x == x.(qty := x.qty - Named(es, x.id));
    }
  }

  lemma CancelChanges(b: Runs.Book, b': Runs.Book, es: seq<Emitted>, c: Command)
    requires CancelDone(b, b', es, c.req, c.cancel, b.Live(c.cancel))
    ensures Changes(b, b', es, c)
  {
    IdleChanges(b, es, c);
    hide Named, Runs.Book.Live;
    assert forall x :: Rests(b', x) ==> Rests(b, x);
  }

  lemma CommandChanges(b: Runs.Book, c: Command)
    requires b.Sound() && Admissible(b, c)
    ensures var (b', es) := Replayed(SliceOrderBook(), b, c); Changes(b, b', es, c)
  {
    hide Replayed, SliceOrderBook, Changes, SubmitDone, CancelDone, Runs.Book.Sound, Runs.Book.Live;
    var (b', es) := Replayed(SliceOrderBook(), b, c);
    if c.typ == CMD_CANCEL {
      CancelReplays(b, c);
      CancelChanges(b, b', es, c);
    } else if c.qty > 0 && (c.side == 1 || c.side == 2) {
      SubmitReplays(b, c);
      SubmitChanges(b, b', es, c);
    } else {
      IdleReplays(b, c);
      IdleChanges(b, es, c);
    }
  }

  lemma CommandKeepsValid(b: Runs.Book, c: Command)
    requires b.Valid() && Admissible(b, c)
    ensures Replayed(SliceOrderBook(), b, c).0.Valid()
  {
    hide Runs.Book.Valid, Runs.Book.Live, Runs.SubmitOrder, Runs.CancelOrder, SubmitEvents, CancelEvents;
    if c.typ == CMD_CANCEL {
      Runs.CancelKeepsValid(b, c.cancel);
    } else {
      Runs.SubmitKeepsValid(b, Order(c.order, c.side, c.price, c.qty, c.user));
    }
  }

  lemma AuditStep(cs: seq<Command>, b: Runs.Book, log: seq<Event>, c: Command, b': Runs.Book, es: seq<Emitted>,
                  evs: seq<Event>)
    requires Audited(cs, b, log) && Changes(b, b', es, c) && b'.Valid() && FreshIds(cs + [c])
    requires forall id :: LogNamed(evs, id) == Named(es, id)
    ensures Audited(cs + [c], b', log + evs)
  {
    hide Named, LogNamed, Runs.Book.Valid;
    forall id
      ensures LogNamed(log + evs, id) == LogNamed(log, id) + Named(es, id)
    {
      LogNamedAppend(log, evs, id);
    }
    forall x | Rests(b', x)
      ensures Owned(cs + [c], x, log + evs)
    {
      if c.typ == CMD_SUBMIT && x == Order(c.order, c.side, c.price, c.qty - Named(es, c.order), c.user) {
        NotGiven(cs, c);
        assert OwnedBy((cs + [c])[|cs|], x, log + evs);
      } else {
        var y :| Rests(b, y) && x == y.(qty := y.qty - Named(es, y.id));
        var k :| 0 <= k < |cs| && OwnedBy(cs[k], y, log);
        assert OwnedBy((cs + [c])[k], x, log + evs);
      }
    }
    forall id
      ensures LogNamed(log + evs, id) >= 0 && (LogNamed(log + evs, id) > 0 ==> Given(cs + [c], id))
    {
      if LogNamed(log, id) > 0 {
        StillGiven(cs, c, id);
      } else if b.Live(id) {
        LiveIsGiven(cs, b, log, id);
        StillGiven(cs, c, id);
      } else {
        assert (cs + [c])[|cs|].order == c.order;
      }
    }
  }

  lemma NotGiven(cs: seq<Command>, c: Command)
    requires FreshIds(cs + [c]) && c.typ == CMD_SUBMIT
    ensures !Given(cs, c.order)
  {
    assert (cs + [c])[|cs|] == c;
    assert forall k :: 0 <= k < |cs| ==> (cs + [c])[k] == cs[k];
  }

  lemma StillGiven(cs: seq<Command>, c: Command, id: nat)
    requires Given(cs, id)
    ensures Given(cs + [c], id)
  {
    var k :| 0 <= k < |cs| && cs[k].typ == CMD_SUBMIT && cs[k].order == id;
    assert (cs + [c])[k] == cs[k];
  }

  lemma LiveIsGiven(cs: seq<Command>, b: Runs.Book, log: seq<Event>, id: nat)
    requires Audited(cs, b, log) && b.Live(id)
    ensures Given(cs, id)
  {
    hide LogNamed, Runs.Book.Valid;
    var x :| (x in b.bids || x in b.asks) && x.id == id;
    assert Rests(b, x);
    var k :| 0 <= k < |cs| && OwnedBy(cs[k], x, log);
  }

  lemma AuditedFits(cs: seq<Command>, b: Runs.Book, log: seq<Event>, c: Command)
    requires Audited(cs, b, log) && FreshIds(cs + [c]) && (c.typ == CMD_SUBMIT || c.typ == CMD_CANCEL)
    ensures b.Sound() && Ranged(b.bids) && Ranged(b.asks) && Admissible(b, c)
  {
    hide LogNamed;
    if c.typ == CMD_SUBMIT && b.Live(c.order) {
      LiveIsGiven(cs, b, log, c.order);
      NotGiven(cs, c);
    }
    forall x | Rests(b, x)
      ensures x.id < TWO64 && -0x8000_0000_0000_0000 <= x.price < 0x8000_0000_0000_0000 && x.qty < 0x8000_0000_0000_0000
    {
      var k :| 0 <= k < |cs| && OwnedBy(cs[k], x, log);
    }
  }

  lemma LastFresh(cs: seq<Command>)
    requires cs != [] && FreshIds(cs)
    ensures FreshIds(Init(cs)) && Init(cs) + [Last(cs)] == cs
  {
  }

  lemma ReadAppend(a: seq<seq<byte>>, b: seq<seq<byte>>)
    requires Publisher.Readable(a) && Publisher.Readable(b)
    ensures Publisher.Readable(a + b) && Read(a + b) == Read(a) + Read(b)
  {
    hide DecodedEv;
    forall i | 0 <= i < |a + b|
      ensures DecodedEv((a + b)[i]).Ok?
    {
      assert (a + b)[i] == if i < |a| then a[i] else b[i - |a|];
    }
    assert Read(a + b) == Read(a) + Read(b);
  }

  /** Audit: after every history that gives no order id twice, well formed or not, the book is the one that
      the two logs tell, byte for byte. */
  lemma {:induction false} BookOfTheLogs(cs: History)
    requires Loggable(cs) && FreshIds(cs)
    ensures Publisher.Readable(EventLog(SliceOrderBook(), cs))
    ensures Audited(cs, BookAfter(SliceOrderBook(), cs), Read(EventLog(SliceOrderBook(), cs)))
    decreases |cs|
  {
    hide Audited, Replayed, Records, SliceOrderBook, Changes, Publisher.Readable, Read;
    if cs == [] {
      NothingAudited();
    } else {
      var before, c := Init(cs), Last(cs);
      LastFresh(cs);
      BookOfTheLogs(before);
      var b := BookAfter(SliceOrderBook(), before);
      var (b', es) := Replayed(SliceOrderBook(), b, c);
      AuditedFits(before, b, Read(EventLog(SliceOrderBook(), before)), c);
      RecordsTell(b, c, |cs|);
      CommandChanges(b, c);
      StaysValid(before, b, Read(EventLog(SliceOrderBook(), before)), c);
      AuditStep(before, b, Read(EventLog(SliceOrderBook(), before)), c, b', es, Read(Records(|cs|, es)));
      ReadAppend(EventLog(SliceOrderBook(), before), Records(|cs|, es));
    }
  }

  lemma StaysValid(cs: seq<Command>, b: Runs.Book, log: seq<Event>, c: Command)
    requires Audited(cs, b, log) && Admissible(b, c)
    ensures Replayed(SliceOrderBook(), b, c).0.Valid()
  {
    hide Replayed, SliceOrderBook, Runs.Book.Valid, Runs.Book.Live, LogNamed;
    CommandKeepsValid(b, c);
  }

  lemma NothingAudited()
    ensures SliceOrderBook().empty == Runs.Book([], [])
    ensures Publisher.Readable([]) && Audited([], Runs.Book([], []), Read([]))
  {
  }

  lemma SegmentStarts<B>(ob: OrderBook<B>, cs: History, n: nat)
    requires n < |cs|
    ensures EventLog(ob, cs[..n]) <= EventLog(ob, cs[..n + 1]) <= EventLog(ob, cs)
  {
    hide EventLog;
    LogGrows(ob, cs[..n + 1]);
    LogPrefix(ob, cs, n + 1);
    assert Init(cs[..n + 1]) == cs[..n];
  }

  /** The records that the command after the first n added to the event log. */
  ghost function Segment<B>(ob: OrderBook<B>, cs: History, n: nat): (ps: seq<seq<byte>>)
    requires n < |cs|
    ensures EventLog(ob, cs[..n]) + ps == EventLog(ob, cs[..n + 1]) <= EventLog(ob, cs)
  {
    SegmentStarts(ob, cs, n);
    hide EventLog;
    EventLog(ob, cs[..n + 1])[|EventLog(ob, cs[..n])|..]
  }

  lemma SegmentIs<B>(ob: OrderBook<B>, cs: History, n: nat)
    requires n < |cs|
    ensures Segment(ob, cs, n) == Records(n + 1, Replayed(ob, BookAfter(ob, cs[..n]), cs[n]).1)
  {
    hide EventLog, Segment, Records, Replayed, BookAfter;
    assert Init(cs[..n + 1]) == cs[..n] && Last(cs[..n + 1]) == cs[n];
    EventLogStep(ob, cs[..n + 1]);
    var before := EventLog(ob, cs[..n]);
    assert Segment(ob, cs, n) == (before + Segment(ob, cs, n))[|before|..];
  }

  lemma FreshPrefix(cs: seq<Command>, n: nat)
    requires n < |cs| && FreshIds(cs)
    ensures FreshIds(cs[..n]) && FreshIds(cs[..n] + [cs[n]])
  {
    assert cs[..n] + [cs[n]] == cs[..n + 1];
  }

  /** Every command of such a history is in the event log by its own fields: accepted, its trades with
      the orders it met at their prices, added or cancelled or rejected, numbered and marked. */
  lemma LogTells(cs: History, n: nat)
    requires Loggable(cs) && FreshIds(cs) && n < |cs|
    ensures Publisher.Readable(Segment(SliceOrderBook(), cs, n))
    ensures CommandLogged(Read(Segment(SliceOrderBook(), cs, n)), BookAfter(SliceOrderBook(), cs[..n]), cs[n], n + 1)
  {
    hide Audited, Replayed, Records, SliceOrderBook, Publisher.Readable, Read, EventLog, CommandLogged;
    FreshPrefix(cs, n);
    BookOfTheLogs(cs[..n]);
    SegmentIs(SliceOrderBook(), cs, n);
    var b := BookAfter(SliceOrderBook(), cs[..n]);
    AuditedFits(cs[..n], b, Read(EventLog(SliceOrderBook(), cs[..n])), cs[n]);
    RecordsTell(b, cs[n], n + 1);
  }

  lemma StepReplays(b: Runs.Book, c: Command)
    requires c.typ == CMD_SUBMIT || c.typ == CMD_CANCEL
    ensures Replayed(SliceOrderBook(), b, c).0 == Runs.Step(b, AsBookCommand(c)).0
  {
    hide Runs.SubmitOrder, Runs.CancelOrder, SubmitEvents, CancelEvents;
  }

  lemma {:induction false} SliceBookAfter(cs: seq<Command>)
    requires Loggable(cs)
    ensures BookAfter(SliceOrderBook(), cs) == Runs.Run(AsBookCommands(cs))
    decreases |cs|
  {
    if cs != [] {
      hide Replayed, SliceOrderBook, Runs.Step;
      InitCommands(cs);
      SliceBookAfter(Init(cs));
      StepReplays(BookAfter(SliceOrderBook(), Init(cs)), Last(cs));
    } else {
      NothingAudited();
    }
  }

  lemma NamedOfStep(b: Runs.Book, c: Command, id: nat)
    requires c.typ == CMD_SUBMIT || c.typ == CMD_CANCEL
    ensures Named(Replayed(SliceOrderBook(), b, c).1, id) == Runs.Filled(Runs.StepTrades(b, AsBookCommand(c)), id)
  {
    StepNamed(b, AsBookCommand(c), c.req, id);
    hide Named, Runs.Filled, SubmitEvents, CancelEvents, Runs.SubmitOrder, Runs.CancelOrder;
  }

  /** The trade records name each id with exactly the quantity of the trades that name it. */
  lemma {:induction false} LogIsTape(cs: History, id: nat)
    requires Loggable(cs) && FreshIds(cs)
    ensures Publisher.Readable(EventLog(SliceOrderBook(), cs))
    ensures LogNamed(Read(EventLog(SliceOrderBook(), cs)), id) == Runs.Filled(Runs.Tape(AsBookCommands(cs)), id)
    decreases |cs|
  {
    hide Audited, Replayed, Records, SliceOrderBook, Publisher.Readable, Read, Runs.StepTrades, Named, Runs.Filled, LogNamed;
    hide Runs.Run;
    BookOfTheLogs(cs);
    if cs != [] {
      var before, c := Init(cs), Last(cs);
      LastFresh(cs);
      LogIsTape(before, id);
      BookOfTheLogs(before);
      var b, log := BookAfter(SliceOrderBook(), before), EventLog(SliceOrderBook(), before);
      var recs := Records(|cs|, Replayed(SliceOrderBook(), b, c).1);
      AuditedFits(before, b, Read(log), c);
      RecordsTell(b, c, |cs|);
      ReadAppend(log, recs);
      LogNamedAppend(Read(log), Read(recs), id);
      NamedOfStep(b, c, id);
      InitCommands(cs);
      SliceBookAfter(before);
      Runs.FilledAppend(Runs.Tape(AsBookCommands(before)), Runs.StepTrades(b, AsBookCommand(c)), id);
    } else {
      NothingNamed(id);
    }
  }

  lemma NothingNamed(id: nat)
    ensures Publisher.Readable([]) && LogNamed(Read([]), id) == 0 == Runs.Filled([], id)
  {
  }

  // ---- what the running actor writes for a command it refuses ------------------------------------------

  lemma ReadLive(n: u64, es: seq<Emitted>)
    requires forall i :: 0 <= i < |es| ==> Fits(es[i])
    ensures Publisher.Readable(LiveRecords(n, es, false)) && |LiveRecords(n, es, false)| == |es|
    ensures forall i :: 0 <= i < |es| ==> Says(Read(LiveRecords(n, es, false))[i], es[i])
    ensures forall i :: 0 <= i < |es| ==> Read(LiveRecords(n, es, false))[i].seqNo == n
  {
    var ps := LiveRecords(n, es, false);
    forall i | 0 <= i < |ps|
      ensures DecodedEv(ps[i]).Ok? && DecodedEv(ps[i]).value.seqNo == n && Says(DecodedEv(ps[i]).value, es[i])
    {
      StampedDecodes(n, i, es[i]);
      StampSays(n, i, es[i]);
    }
    hide Says, Fits, DecodedEv, EncodedEv;
  }

  /** A submit that fails the validation leaves one record, its rejection, and no end marker; a cancel without
      an id the same. */
  lemma RefusalsLogged(b: Runs.Book, c: Command, n: u64)
    requires || (c.typ == CMD_SUBMIT && (c.order == 0 || c.qty <= 0 || c.price <= 0 || !(c.side == 1 || c.side == 2)))
             || (c.typ == CMD_CANCEL && c.cancel == 0)
    ensures var (b', es, ended) := Live(SliceOrderBook(), b, c); var ps := LiveRecords(n, es, ended);
            && b' == b && Publisher.Readable(ps) && |ps| == 1
            && var e := Read(ps)[0];
               && e.seqNo == n && e.req == c.req
               && (if c.typ == CMD_SUBMIT then About(e, EV_REJECTED, c.order, c.user) else About(e, EV_REJECTED, 0, 0))
  {
    LiveRefuses(b, c);
    var es := Live(SliceOrderBook(), b, c).1;
    hide Live, SliceOrderBook, LiveRecords, Publisher.Readable;
    ReadLive(n, es);
  }
}
