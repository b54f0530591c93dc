/** The two-sided reference book, its command histories and the ledger every history obeys. */
module BookRuns {
  import opened Basics
  import opened Orders
  import opened BookSpec

  datatype Book = Book(bids: seq<Order>, asks: seq<Order>) {
    function Side(ask: bool): seq<Order> {
      if ask then asks else bids
    }

    function With(ask: bool, s: seq<Order>): Book {
      if ask then this.(asks := s) else this.(bids := s)
    }

    /** Both sides in priority order, live quantities only, one order per id. */
    ghost predicate Sound() {
      && Sorted(false, bids) && Sorted(true, asks)
      && Positive(bids) && Positive(asks)
      && DistinctIds(bids) && DistinctIds(asks)
      && (forall d, a :: d in bids && a in asks ==> d.id != a.id)
    }

    /** And not crossed. */
    ghost predicate Valid() {
      Sound() && forall d, a :: d in bids && a in asks ==> d.price < a.price
    }

    ghost predicate Live(id: nat) {
      exists o :: (o in bids || o in asks) && o.id == id
    }
  }

  const EMPTY := Book([], [])

  datatype Command = Submit(order: Order) | Cancel(id: nat)

  /** The visible result of one command: the trades and the unfilled rest, or the cancel's answer. */
  datatype Outcome = Submitted(trades: seq<Trade>, rest: int) | Cancelled(ok: bool)

  predicate Tradable(o: Order) {
    o.qty > 0 && (o.side == BUY || o.side == SELL)
  }

  function SubmitOrder(b: Book, o: Order): (Book, Outcome) {
    if !Tradable(o) then (b, Submitted([], if o.qty > 0 then o.qty else 0))
    else
      var ask := o.side == BUY;
      var m := MatchQueue(ask, o.id, o.price, o.qty, b.Side(ask));
      var b' := b.With(ask, m.book);
      (if m.rest > 0 then b'.With(!ask, Inserted(!ask, b'.Side(!ask), o.(qty := m.rest))) else b',
       Submitted(m.trades, m.rest))
  }

  /** Index of the first order with the id, or |s|. */
  function Find(s: seq<Order>, id: nat): (i: nat)
    ensures i <= |s| && (i < |s| ==> s[i].id == id)
    ensures forall j :: 0 <= j < i ==> s[j].id != id
  {
    if s == [] || s[0].id == id then 0 else 1 + Find(s[1..], id)
  }

  function Without(s: seq<Order>, i: nat): seq<Order>
    requires i < |s|
  {
    s[..i] + s[i + 1..]
  }

  /** The scanning cancel looks at the bids first. */
  function CancelOrder(b: Book, id: nat): (Book, Outcome) {
    var i := Find(b.bids, id);
    if i < |b.bids| then (b.(bids := Without(b.bids, i)), Cancelled(true))
    else
      var j := Find(b.asks, id);
      if j < |b.asks| then (b.(asks := Without(b.asks, j)), Cancelled(true))
      else (b, Cancelled(false))
  }

  function Step(b: Book, c: Command): (Book, Outcome) {
    match c
    case Submit(o) => SubmitOrder(b, o)
    case Cancel(id) => CancelOrder(b, id)
  }

  function Run(cs: seq<Command>): Book {
    if cs == [] then EMPTY else Step(Run(cs[..|cs| - 1]), cs[|cs| - 1]).0
  }

  // ---- the ledger --------------------------------------------------------------------------

  ghost function Held(s: seq<Order>, id: nat): int {
    if s == [] then 0 else (if s[0].id == id then s[0].qty else 0) + Held(s[1..], id)
  }

  ghost function Resting(b: Book, id: nat): int {
    Held(b.bids, id) + Held(b.asks, id)
  }

  /** What the trades took from the order with this id, as maker or as taker. */
  ghost function Filled(ts: seq<Trade>, id: nat): int {
    if ts == [] then 0
    else (if ts[0].maker == id then ts[0].qty else 0) + (if ts[0].taker == id then ts[0].qty else 0)
         + Filled(ts[1..], id)
  }

  ghost function StepTrades(b: Book, c: Command): seq<Trade> {
    var out := Step(b, c).1;
    if out.Submitted? then out.trades else []
  }

  ghost function StepSubmitted(c: Command, id: nat): int {
    if c.Submit? && c.order.id == id && Tradable(c.order) then c.order.qty else 0
  }

  ghost function StepWithdrawn(b: Book, c: Command, id: nat): int {
    if c.Cancel? then Resting(b, id) - Resting(Step(b, c).0, id) else 0
  }

  /** Every trade of a history, in order. */
  ghost function Tape(cs: seq<Command>): seq<Trade> {
    if cs == [] then []
    else Tape(cs[..|cs| - 1]) + StepTrades(Run(cs[..|cs| - 1]), cs[|cs| - 1])
  }

  ghost function SubmittedQty(cs: seq<Command>, id: nat): int {
    if cs == [] then 0
    else SubmittedQty(cs[..|cs| - 1], id) + StepSubmitted(cs[|cs| - 1], id)
  }

  /** Quantity that cancels took off the book. */
  ghost function WithdrawnQty(cs: seq<Command>, id: nat): int {
    if cs == [] then 0
    else WithdrawnQty(cs[..|cs| - 1], id) + StepWithdrawn(Run(cs[..|cs| - 1]), cs[|cs| - 1], id)
  }

  lemma {:induction false} FilledAppend(a: seq<Trade>, b: seq<Trade>, id: nat)
    ensures Filled(a + b, id) == Filled(a, id) + Filled(b, id)
  {
    if a == [] {
      assert a + b == b;
    } else {
      FilledAppend(a[1..], b, id);
      assert (a + b)[1..] == a[1..] + b;
    }
  }

  /** For every id, matching moves quantity from the queue to the trades and nowhere else. */
  lemma {:induction false} MatchConserves(ask: bool, taker: nat, limit: int, qty: int, s: seq<Order>, id: nat)
    ensures var m := MatchQueue(ask, taker, limit, qty, s);
            Held(s, id) - Held(m.book, id) + (if id == taker then qty - m.rest else 0) == Filled(m.trades, id)
    decreases |s|
  {
    var m := MatchQueue(ask, taker, limit, qty, s);
    if qty <= 0 || s == [] || !Crosses(ask, s[0].price, limit) {
    } else {
      var exec := Min(qty, s[0].qty);
      if s[0].qty == exec {
        MatchConserves(ask, taker, limit, qty - exec, s[1..], id);
        assert m.trades[1..] == MatchQueue(ask, taker, limit, qty - exec, s[1..]).trades;
      } else {
        assert m.trades[1..] == [];
        assert m.book[1..] == s[1..];
      }
    }
  }

  lemma {:induction false} InsertedHeld(ask: bool, s: seq<Order>, o: Order, id: nat)
    ensures Held(Inserted(ask, s, o), id) == Held(s, id) + (if o.id == id then o.qty else 0)
  {
    if s != [] {
      if Better(ask, o.price, s[0].price) {
        assert ([o] + s)[1..] == s;
      } else {
        InsertedHeld(ask, s[1..], o, id);
        assert Inserted(ask, s, o)[1..] == Inserted(ask, s[1..], o);
      }
    }
  }

  lemma StepConserves(b: Book, c: Command, id: nat)
    ensures var b' := Step(b, c).0;
            Resting(b, id) + StepSubmitted(c, id)
            == Resting(b', id) + Filled(StepTrades(b, c), id) + StepWithdrawn(b, c, id)
  {
    if c.Submit? && Tradable(c.order) {
      var o := c.order;
      var ask := o.side == BUY;
      var m := MatchQueue(ask, o.id, o.price, o.qty, b.Side(ask));
      MatchConserves(ask, o.id, o.price, o.qty, b.Side(ask), id);
      RestNonNegative(ask, o.id, o.price, o.qty, b.Side(ask));
      InsertedHeld(!ask, b.Side(!ask), o.(qty := m.rest), id);
    }
  }

  lemma {:induction false} RestNonNegative(ask: bool, taker: nat, limit: int, qty: int, s: seq<Order>)
    requires qty >= 0
    ensures MatchQueue(ask, taker, limit, qty, s).rest >= 0
    decreases |s|
  {
    if !(qty <= 0 || s == [] || !Crosses(ask, s[0].price, limit)) && s[0].qty == Min(qty, s[0].qty) {
      RestNonNegative(ask, taker, limit, qty - s[0].qty, s[1..]);
    }
  }

  /** Ledger: over every history whatsoever and for every id, the quantity submitted is the
      quantity traded plus the quantity still resting plus the quantity cancelled. */
  lemma {:induction false} LedgerBalances(cs: seq<Command>, id: nat)
    ensures SubmittedQty(cs, id) == Filled(Tape(cs), id) + Resting(Run(cs), id) + WithdrawnQty(cs, id)
  {
    if cs != [] {
      var before := cs[..|cs| - 1];
      LedgerBalances(before, id);
      StepConserves(Run(before), cs[|cs| - 1], id);
      FilledAppend(Tape(before), StepTrades(Run(before), cs[|cs| - 1]), id);
    }
  }

  // ---- what every step keeps ---------------------------------------------------------------

  lemma InsertedDistinct(ask: bool, s: seq<Order>, o: Order)
    requires Sorted(ask, s) && DistinctIds(s) && forall x :: x in s ==> x.id != o.id
    ensures DistinctIds(Inserted(ask, s, o))
  {
    var k := InsertIndex(ask, s, o);
    InsertedAt(ask, s, o, k);
  }

  lemma {:induction false} InsertIndex(ask: bool, s: seq<Order>, o: Order) returns (k: nat)
    requires Sorted(ask, s)
    ensures k <= |s|
    ensures forall i :: 0 <= i < k ==> !Better(ask, o.price, s[i].price)
    ensures k < |s| ==> Better(ask, o.price, s[k].price)
  {
    if s == [] || Better(ask, o.price, s[0].price) {
      k := 0;
    } else {
      k := InsertIndex(ask, s[1..], o);
      k := k + 1;
      forall i | 0 <= i < k
        ensures !Better(ask, o.price, s[i].price)
      {
        if i > 0 {
          assert s[i] == s[1..][i - 1];
        }
      }
    }
  }

  lemma MatchedSide(ask: bool, o: Order, s: seq<Order>)
    requires Sorted(ask, s) && Positive(s) && DistinctIds(s)
    ensures var m := MatchQueue(ask, o.id, o.price, o.qty, s);
            && Sorted(ask, m.book) && Positive(m.book) && DistinctIds(m.book)
            && (forall x :: x in m.book ==> exists y :: y in s && y.id == x.id && y.price == x.price)
            && (m.rest > 0 ==> forall x :: x in m.book ==> !Crosses(ask, x.price, o.price))
  {
    MatchRemains(ask, o.id, o.price, o.qty, s);
    var t := MatchQueue(ask, o.id, o.price, o.qty, s).book;
    RemainsKeeps(ask, s, t);
    RestMeansNoCross(ask, o.id, o.price, o.qty, s);
    forall x | x in t
      ensures exists y :: y in s && y.id == x.id && y.price == x.price
    {
      var i :| 0 <= i < |s| && s[i].id == x.id && s[i].price == x.price;
      assert s[i] in s;
    }
  }

  /** What a submit does, said about the order as it was given: it hits the first orders of the other side
      within its own price, all but the last of them completely; what it does not get rests with its own id,
      side, price and user behind everything better or equal; nothing else changes. */
  lemma SubmitOutcome(b: Book, o: Order)
    requires b.Sound() && Tradable(o)
    ensures SubmitOrder(b, o).1.Submitted?
    ensures var (b', out) := SubmitOrder(b, o); var ask := o.side == BUY; var s, t := b.Side(ask), b.Side(!ask);
            && Traded(out.trades) + out.rest == o.qty && out.rest >= 0
            && Hits(ask, o.id, o.price, s, out.trades) && FullButLast(s, out.trades)
            && b'.Side(ask) == Leftover(s, out.trades)
            && (out.rest == 0 ==> b'.Side(!ask) == t)
            && (out.rest > 0 ==>
                  && (forall x :: x in b'.Side(ask) ==> !Crosses(ask, x.price, o.price))
                  && Queued(!ask, t, o.(qty := out.rest), b'.Side(!ask)))
  {
    var ask := o.side == BUY;
    MatchMeetsContract(ask, o.id, o.price, o.qty, b.Side(ask));
    RestMeansNoCross(ask, o.id, o.price, o.qty, b.Side(ask));
    var rest := MatchQueue(ask, o.id, o.price, o.qty, b.Side(ask)).rest;
    InsertedIsQueued(!ask, b.Side(!ask), o.(qty := rest));
    hide MatchQueue, Inserted, Hits, FullButLast, Leftover, Traded, Queued, Crosses;
  }

  /** The queue t with o behind every better or equal order and before every worse one. */
  ghost predicate Queued(ask: bool, t: seq<Order>, o: Order, t': seq<Order>) {
    exists k :: 0 <= k <= |t| && t' == t[..k] + [o] + t[k..] && QueuedAt(ask, t, o, k)
  }

  ghost predicate QueuedAt(ask: bool, t: seq<Order>, o: Order, k: nat)
    requires k <= |t|
  {
    && (forall i :: 0 <= i < k ==> !Better(ask, o.price, t[i].price))
    && (forall i :: k <= i < |t| ==> Better(ask, o.price, t[i].price))
  }

  lemma InsertedIsQueued(ask: bool, t: seq<Order>, o: Order)
    requires Sorted(ask, t)
    ensures Queued(ask, t, o, Inserted(ask, t, o))
  {
    var k := InsertIndex(ask, t, o);
    InsertedAt(ask, t, o, k);
    assert QueuedAt(ask, t, o, k);
  }

  /** A submit under an id that is not resting keeps the book ordered, positive, duplicate-free
      and uncrossed. */
  lemma SubmitKeepsValid(b: Book, o: Order)
    requires b.Valid() && !b.Live(o.id)
    ensures SubmitOrder(b, o).0.Valid()
  {
    if Tradable(o) {
      var ask := o.side == BUY;
      var s, t := b.Side(ask), b.Side(!ask);
      MatchedSide(ask, o, s);
      var m := MatchQueue(ask, o.id, o.price, o.qty, s);
      if m.rest > 0 {
        InsertedKeeps(!ask, t, o.(qty := m.rest));
        InsertedDistinct(!ask, t, o.(qty := m.rest));
        RestingSideValid(ask, o.(qty := m.rest), s, m.book, t);
      }
    }
  }

  lemma RestingSideValid(ask: bool, o: Order, s: seq<Order>, s': seq<Order>, t: seq<Order>)
    requires forall x, y :: x in s && y in t ==> Better(!ask, x.price, y.price) && x.id != y.id
    requires forall x :: x in s' ==> exists y :: y in s && y.id == x.id && y.price == x.price
    requires forall x :: x in s' ==> !Crosses(ask, x.price, o.price)
    requires forall x :: x in s ==> x.id != o.id
    requires Sorted(!ask, t)
    ensures forall x, y :: x in s' && y in Inserted(!ask, t, o) ==> Better(!ask, x.price, y.price) && x.id != y.id
  {
    InsertedKeeps(!ask, t, o);
  }

  lemma WithoutKeeps(ask: bool, s: seq<Order>, i: nat)
    requires i < |s| && Sorted(ask, s) && Positive(s) && DistinctIds(s)
    ensures var t := Without(s, i);
            && Sorted(ask, t) && Positive(t) && DistinctIds(t)
            && (forall x :: x in t ==> x in s && x.id != s[i].id)
            && (forall x :: x in s && x.id != s[i].id ==> x in t)
  {
  }

  /** Exactly the live ids can be cancelled, and a cancelled id is no longer live. */
  lemma CancelKeepsValid(b: Book, id: nat)
    requires b.Valid()
    ensures CancelOrder(b, id).0.Valid()
    ensures !CancelOrder(b, id).0.Live(id)
    ensures CancelOrder(b, id).1.ok <==> b.Live(id)
  {
    var i, j := Find(b.bids, id), Find(b.asks, id);
    if i < |b.bids| {
      WithoutKeeps(false, b.bids, i);
    } else if j < |b.asks| {
      WithoutKeeps(true, b.asks, j);
    }
  }

  // ---- whole runs ---------------------------------------------------------------------------

  /** No two submits of the history carry the same id. */
  ghost predicate OncePerId(cs: seq<Command>) {
    forall i, j :: 0 <= i < j < |cs| && cs[i].Submit? && cs[j].Submit? ==> cs[i].order.id != cs[j].order.id
  }

  ghost predicate Mentions(cs: seq<Command>, id: nat) {
    exists i :: 0 <= i < |cs| && cs[i].Submit? && cs[i].order.id == id
  }

  lemma StepLive(b: Book, c: Command, id: nat)
    requires b.Valid() && Step(b, c).0.Live(id)
    ensures b.Live(id) || (c.Submit? && c.order.id == id)
  {
    if c.Submit? && Tradable(c.order) {
      var o := c.order;
      var ask := o.side == BUY;
      MatchedSide(ask, o, b.Side(ask));
      InsertedKeeps(!ask, b.Side(!ask), o.(qty := MatchQueue(ask, o.id, o.price, o.qty, b.Side(ask)).rest));
    }
  }

  /** After every run with fresh ids: both queues in priority order, every quantity positive,
      no id twice, and best bid strictly below best ask. */
  lemma {:induction false} RunValid(cs: seq<Command>)
    requires OncePerId(cs)
    ensures Run(cs).Valid()
    ensures forall id :: Run(cs).Live(id) ==> Mentions(cs, id)
  {
    if cs != [] {
      var before, c := cs[..|cs| - 1], cs[|cs| - 1];
      RunValid(before);
      forall id | Run(cs).Live(id)
        ensures Mentions(cs, id)
      {
        StepLive(Run(before), c, id);
        if Run(before).Live(id) {
          var i :| 0 <= i < |before| && before[i].Submit? && before[i].order.id == id;
          assert cs[i] == before[i];
        }
      }
      match c
      case Submit(o) =>
        assert !Mentions(before, o.id);
        SubmitKeepsValid(Run(before), o);
      case Cancel(id) =>
        CancelKeepsValid(Run(before), id);
    }
  }

  lemma {:induction false} HeldOne(s: seq<Order>, id: nat)
    requires DistinctIds(s)
    ensures (forall o :: o in s ==> o.id != id) ==> Held(s, id) == 0
    ensures forall o :: o in s && o.id == id ==> Held(s, id) == o.qty
  {
    if s != [] {
      HeldOne(s[1..], id);
      assert s == [s[0]] + s[1..];
    }
  }

  /** Under fresh ids a live order has never been cancelled. */
  lemma {:induction false} LiveNotWithdrawn(cs: seq<Command>, id: nat)
    requires OncePerId(cs)
    ensures WithdrawnQty(cs, id) != 0 ==> Mentions(cs, id) && !Run(cs).Live(id)
  {
    if cs != [] {
      var before, c := cs[..|cs| - 1], cs[|cs| - 1];
      var b := Run(before);
      RunValid(before);
      LiveNotWithdrawn(before, id);
      if WithdrawnQty(cs, id) != 0 {
        if WithdrawnQty(before, id) != 0 {
          var i :| 0 <= i < |before| && before[i].Submit? && before[i].order.id == id;
          assert cs[i] == before[i];
          if Run(cs).Live(id) {
            StepLive(b, c, id);
          }
        } else {
          CancelWithdraws(b, c.id, id);
          var i :| 0 <= i < |before| && before[i].Submit? && before[i].order.id == id;
          assert cs[i] == before[i];
        }
      }
    }
  }

  lemma CancelWithdraws(b: Book, cancelled: nat, id: nat)
    requires b.Valid() && StepWithdrawn(b, Cancel(cancelled), id) != 0
    ensures b.Live(id) && cancelled == id && !CancelOrder(b, cancelled).0.Live(id)
  {
    CancelKeepsValid(b, cancelled);
    var i, j := Find(b.bids, cancelled), Find(b.asks, cancelled);
    if i < |b.bids| {
      HeldWithout(b.bids, i, id);
    } else if j < |b.asks| {
      HeldWithout(b.asks, j, id);
    }
  }

  lemma {:induction false} HeldWithout(s: seq<Order>, i: nat, id: nat)
    requires i < |s|
    ensures Held(s, id) - Held(Without(s, i), id) == if s[i].id == id then s[i].qty else 0
  {
    if i == 0 {
      assert Without(s, 0) == s[1..];
    } else {
      HeldWithout(s[1..], i - 1, id);
      assert Without(s, i)[1..] == Without(s[1..], i - 1);
    }
  }

  /** Each live order's resting quantity is what it was submitted with minus the sum of the
      trades that name it. */
  lemma LiveOrderLedger(cs: seq<Command>, o: Order)
    requires OncePerId(cs)
    requires o in Run(cs).bids || o in Run(cs).asks
    ensures o.qty == SubmittedQty(cs, o.id) - Filled(Tape(cs), o.id)
  {
    RunValid(cs);
    LedgerBalances(cs, o.id);
    LiveNotWithdrawn(cs, o.id);
    HeldOne(Run(cs).bids, o.id);
    HeldOne(Run(cs).asks, o.id);
  }
}
