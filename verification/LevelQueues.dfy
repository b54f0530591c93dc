/** The level book on values: level queues with a cached best price against the sorted queue
    (internal/matching/level_book.go). */
module LevelQueues {
  import opened Orders
  import opened BookSpec
  import opened BookRuns
  import opened HeapModel
  import opened HeapRefinement

  /** Level by level the sorted queue s, and no level is empty. */
  ghost predicate Stocked(ask: bool, queues: map<int, seq<Order>>, s: seq<Order>) {
    Rel(ask, queues, s) && Tidy(queues)
  }

  /** The same while matching in level p, which may have run empty; no order of s is better. */
  ghost predicate Eating(ask: bool, queues: map<int, seq<Order>>, s: seq<Order>, p: int) {
    && Rel(ask, queues, s) && p in queues
    && (forall r :: r in queues && r != p ==> queues[r] != [])
    && (forall o :: o in s ==> !Better(ask, o.price, p))
  }

  /** What a full scan of the levels finds. */
  ghost predicate Scanned(ask: bool, queues: map<int, seq<Order>>, has: bool, best: int) {
    && (has ==> best in queues && queues[best] != [])
    && (forall p :: p in queues && queues[p] != [] ==> has && !Better(ask, p, best))
  }

  // ---- the best level ----------------------------------------------------------------------------

  lemma StartEating(ask: bool, queues: map<int, seq<Order>>, s: seq<Order>)
    requires Stocked(ask, queues, s) && s != []
    ensures s[0].price in queues && Eating(ask, queues, s, s[0].price) && queues[s[0].price] != []
  {
    AtPriceMember(s, s[0].price, s[0]);
    assert AtPrice(s, s[0].price) == Queue(queues, s[0].price);
    forall o | o in s
      ensures !Better(ask, o.price, s[0].price)
    {
      var i :| 0 <= i < |s| && s[i] == o;
    }
  }

  /** The best of the level prices is the price of the first order. */
  lemma BestLevel(ask: bool, queues: map<int, seq<Order>>, s: seq<Order>)
    requires Stocked(ask, queues, s)
    ensures s == [] ==> queues == map[]
    ensures s != [] ==> s[0].price in queues && forall p :: p in queues ==> !Better(ask, p, s[0].price)
  {
    if s != [] {
      StartEating(ask, queues, s);
    }
    forall p | p in queues
      ensures s != [] && !Better(ask, p, s[0].price)
    {
      assert AtPrice(s, p) == Queue(queues, p);
      var o := queues[p][0];
      AtPriceMember(s, p, o);
      var i :| 0 <= i < |s| && s[i] == o;
    }
    if s == [] {
      assert forall p :: p !in queues;
      assert queues == map[];
    }
  }

  /** A scan finds the first price of the sorted queue, and nothing else passes for one. */
  lemma ScanIsFirst(ask: bool, queues: map<int, seq<Order>>, has: bool, best: int, s: seq<Order>)
    requires Stocked(ask, queues, s)
    ensures Scanned(ask, queues, has, best) <==> has == (s != []) && (has ==> best == s[0].price)
  {
    BestLevel(ask, queues, s);
    hide Rel;
    if s != [] && Scanned(ask, queues, has, best) {
      assert !Better(ask, s[0].price, best);
    }
  }

  // ---- one execution -----------------------------------------------------------------------------

  lemma EatingThere(ask: bool, queues: map<int, seq<Order>>, s: seq<Order>, p: int)
    requires Eating(ask, queues, s, p)
    ensures p in queues
  {
  }

  /** The head of the best level is the head of the sorted queue. */
  lemma BestHead(ask: bool, queues: map<int, seq<Order>>, s: seq<Order>, p: int)
    requires Eating(ask, queues, s, p) && queues[p] != []
    ensures s != [] && s[0].price == p && queues[p][0] == s[0]
  {
    var q := AtPrice(s, p);
    assert q == Queue(queues, p);
    AtPriceMember(s, p, q[0]);
  }

  lemma {:induction false} AtPriceTurn(s: seq<Order>, exec: int, p: int)
    requires s != []
    ensures AtPrice(AfterTurn(s, exec), p) ==
            if p == s[0].price then AfterTurn(AtPrice(s, p), exec) else AtPrice(s, p)
  {
    if s[0].qty != exec {
      var t := AfterTurn(s, exec);
      assert t[1..] == s[1..];
    }
  }

  /** One maker's turn in the level is one turn of the sorted queue. */
  lemma TurnEats(ask: bool, queues: map<int, seq<Order>>, s: seq<Order>, p: int, exec: int)
    requires Eating(ask, queues, s, p) && queues[p] != []
    ensures s != [] && Eating(ask, queues[p := AfterTurn(queues[p], exec)], AfterTurn(s, exec), p)
  {
    BestHead(ask, queues, s, p);
    var queues' := queues[p := AfterTurn(queues[p], exec)];
    forall r
      ensures AtPrice(AfterTurn(s, exec), r) == Queue(queues', r)
    {
      AtPriceTurn(s, exec, r);
      assert AtPrice(s, r) == Queue(queues, r);
    }
    TurnSorted(ask, s, exec, p);
  }

  lemma TurnSorted(ask: bool, s: seq<Order>, exec: int, p: int)
    requires s != [] && Sorted(ask, s) && forall o :: o in s ==> !Better(ask, o.price, p)
    ensures Sorted(ask, AfterTurn(s, exec)) && forall o :: o in AfterTurn(s, exec) ==> !Better(ask, o.price, p)
  {
    var t := AfterTurn(s, exec);
    forall i | 0 <= i < |t|
      ensures !Better(ask, t[i].price, p)
    {
      assert t[i].price == if s[0].qty == exec then s[i + 1].price else s[i].price;
      assert s[if s[0].qty == exec then i + 1 else i] in s;
    }
  }

  lemma TurnPositive(s: seq<Order>, exec: int)
    requires s != [] && Positive(s) && exec <= s[0].qty
    ensures Positive(AfterTurn(s, exec)) && s[0].qty > 0
  {
  }

  /** Leaving the level: it stays the best one, or it is empty and goes. */
  lemma StopEating(ask: bool, queues: map<int, seq<Order>>, s: seq<Order>, p: int)
    requires Eating(ask, queues, s, p)
    ensures queues[p] != [] ==> Stocked(ask, queues, s) && s != [] && s[0].price == p
    ensures queues[p] == [] ==> Stocked(ask, queues - {p}, s)
  {
    if queues[p] != [] {
      BestHead(ask, queues, s, p);
    } else {
      RelDropEmpty(ask, queues, s, p);
    }
  }

  // ---- resting and cancelling ----------------------------------------------------------------------

  function Appended(queues: map<int, seq<Order>>, o: Order): map<int, seq<Order>> {
    queues[o.price := Queue(queues, o.price) + [o]]
  }

  lemma AddStocks(ask: bool, queues: map<int, seq<Order>>, s: seq<Order>, o: Order)
    requires Stocked(ask, queues, s)
    ensures Stocked(ask, Appended(queues, o), Inserted(ask, s, o))
  {
    InsertedSorts(ask, s, o);
    var t, queues' := Inserted(ask, s, o), Appended(queues, o);
    hide Inserted, AtPrice, Sorted;
    forall r
      ensures AtPrice(t, r) == Queue(queues', r)
    {
      AtPriceInserted(ask, s, o, r);
      assert AtPrice(s, r) == Queue(queues, r);
      assert AtPrice(s, r) + [] == AtPrice(s, r);
    }
  }

  lemma InsertedFirst(ask: bool, s: seq<Order>, o: Order)
    ensures var t := Inserted(ask, s, o);
            t != [] && t[0].price == if s == [] || Better(ask, o.price, s[0].price) then o.price else s[0].price
  {
  }

  /** Resting keeps the cache right when it is set to the better of the two prices. */
  lemma AddScans(ask: bool, queues: map<int, seq<Order>>, s: seq<Order>, o: Order, has: bool, best: int)
    requires Stocked(ask, queues, s) && Scanned(ask, queues, has, best)
    ensures Scanned(ask, Appended(queues, o), true, if !has || Better(ask, o.price, best) then o.price else best)
  {
    ScanIsFirst(ask, queues, has, best, s);
    AddStocks(ask, queues, s, o);
    InsertedFirst(ask, s, o);
    ScanIsFirst(ask, Appended(queues, o), true, if !has || Better(ask, o.price, best) then o.price else best,
                Inserted(ask, s, o));
    hide Stocked, Scanned, Inserted, Appended;
  }

  /** The levels after the k-th order of level p is unlinked, and the level deleted if that empties it. */
  function Taken(queues: map<int, seq<Order>>, p: int, k: nat): map<int, seq<Order>>
    requires p in queues && k < |queues[p]|
  {
    if |queues[p]| == 1 then queues - {p} else queues[p := Without(queues[p], k)]
  }

  /** Unlinking an order of a level takes that order out of the sorted queue. */
  lemma TakeStocks(ask: bool, queues: map<int, seq<Order>>, s: seq<Order>, p: int, k: nat)
    requires Stocked(ask, queues, s) && DistinctIds(s) && p in queues && k < |queues[p]|
    ensures var o := queues[p][k]; var j := Find(s, o.id);
            && o.price == p && j < |s| && s[j] == o && Stocked(ask, Taken(queues, p, k), Without(s, j))
  {
    RelKeyed(ask, queues, s);
    RelUnlink(ask, queues, s, p, k);
    var queues' := queues[p := Without(queues[p], k)];
    var t := Without(s, Find(s, queues[p][k].id));
    hide Rel, Find;
    if |queues[p]| == 1 {
      assert Queue(queues', p) == [];
      RelDropEmpty(ask, queues', t, p);
      assert queues' - {p} == queues - {p};
    } else {
      assert |Without(queues[p], k)| == |queues[p]| - 1;
    }
  }

  /** Unless the best level goes, the cached best price stays right. */
  lemma TakeScans(ask: bool, queues: map<int, seq<Order>>, p: int, k: nat, has: bool, best: int)
    requires Scanned(ask, queues, has, best) && p in queues && k < |queues[p]|
    ensures has && (|queues[p]| > 1 || p != best) ==> Scanned(ask, Taken(queues, p, k), has, best)
  {
    assert |Without(queues[p], k)| == |queues[p]| - 1;
    hide Without;
  }

  // ---- matching ----------------------------------------------------------------------------------

  lemma MatchStops(ask: bool, taker: Order, rest: int, s: seq<Order>, trades: seq<Trade>)
    requires rest == 0 || s == [] || !Crosses(ask, s[0].price, taker.price)
    ensures Onto(trades, MatchQueue(ask, taker.id, taker.price, rest, s)) == Match(trades, rest, s)
  {
    assert trades + [] == trades;
  }

  // ---- the reference book along the way ------------------------------------------------------------

  lemma SideSound(b: Book, ask: bool)
    requires b.Sound()
    ensures Positive(b.Side(ask)) && Sorted(ask, b.Side(ask)) && DistinctIds(b.Side(ask))
  {
  }

  /** The reference book once the taker has matched and before it rests. */
  function Matched(b: Book, o: Order): Book {
    var ask := o.side == BUY;
    b.With(ask, MatchQueue(ask, o.id, o.price, o.qty, b.Side(ask)).book)
  }

  /** Where a submit leads: to the reference book, except that a remainder under an id the index still
      knows after matching is dropped. */
  ghost function Landed(b: Book, o: Order, gone: set<nat>): Book {
    if Tradable(o) && (o.id in gone || Matched(b, o).Live(o.id)) then Matched(b, o) else SubmitOrder(b, o).0
  }

  lemma LandsWithout(b: Book, o: Order, gone: set<nat>)
    requires !Tradable(o) || MatchQueue(o.side == BUY, o.id, o.price, o.qty, b.Side(o.side == BUY)).rest <= 0
    ensures Landed(b, o, gone) == if Tradable(o) then Matched(b, o) else b
    ensures !Tradable(o) ==> SubmitOrder(b, o).1.trades == []
  {
  }

  lemma AfterMatchSound(b: Book, o: Order)
    requires b.Sound() && Tradable(o)
    ensures Matched(b, o).Sound()
  {
    MatchedSide(o.side == BUY, o, b.Side(o.side == BUY));
    hide MatchQueue;
  }

  /** Resting an order, whatever it crosses on the other side. */
  lemma RestSound(b: Book, ask: bool, o: Order)
    requires b.Sound() && !b.Live(o.id) && o.qty > 0
    ensures b.With(ask, Inserted(ask, b.Side(ask), o)).Sound()
  {
    var t := b.Side(ask);
    SideSound(b, ask);
    NoneLive(b, o.id);
    RestSide(ask, t, o);
    hide Inserted, Sorted, DistinctIds, Positive, Book.Live;
    assert forall x, y :: x in b.Side(!ask) && y in Inserted(ask, t, o) ==> x.id != y.id;
  }

  lemma CancelSound(b: Book, id: nat)
    requires b.Sound()
    ensures CancelOrder(b, id).0.Sound()
  {
    var i, j := Find(b.bids, id), Find(b.asks, id);
    if i < |b.bids| {
      WithoutKeeps(false, b.bids, i);
    } else if j < |b.asks| {
      WithoutKeeps(true, b.asks, j);
    }
    hide Sorted, Positive, DistinctIds, Without, Find;
  }

  lemma NoneLive(b: Book, id: nat)
    requires !b.Live(id)
    ensures forall x :: x in b.bids || x in b.asks ==> x.id != id
    ensures CancelOrder(b, id) == (b, Cancelled(false))
  {
    NotFound(b.bids, id);
    NotFound(b.asks, id);
  }

  lemma NotFound(s: seq<Order>, id: nat)
    requires forall x :: x in s ==> x.id != id
    ensures Find(s, id) == |s|
  {
  }

  lemma RestSide(ask: bool, t: seq<Order>, o: Order)
    requires Sorted(ask, t) && Positive(t) && DistinctIds(t) && o.qty > 0 && forall x :: x in t ==> x.id != o.id
    ensures var t' := Inserted(ask, t, o);
            Sorted(ask, t') && Positive(t') && DistinctIds(t') && forall x :: x in t' <==> x == o || x in t
  {
    InsertedKeeps(ask, t, o);
    InsertedDistinct(ask, t, o);
    hide Inserted, Sorted, DistinctIds;
  }

  /** The scanning cancel finds the order where the index says. */
  lemma CancelFinds(b: Book, ask: bool, o: Order)
    requires b.Sound() && o in b.Side(ask)
    ensures var k := Find(b.Side(ask), o.id);
            && k < |b.Side(ask)| && b.Side(ask)[k] == o
            && CancelOrder(b, o.id) == (b.With(ask, Without(b.Side(ask), k)), Cancelled(true))
  {
    FindMember(b.Side(ask), o);
    if ask {
      assert forall d :: d in b.bids ==> d.id != o.id;
      NotFound(b.bids, o.id);
    }
  }
}
