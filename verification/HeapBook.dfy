/** The price-bucket book over linked lists with lazily cleaned heaps and a node pool
    (internal/matching/levell_book_heap.go). The mirrored ask and bid code of the source is one
    method each, told which side it works on. Every method is tied to the value model. */
module HeapBook {
  import opened Basics
  import opened Orders
  import opened BookSpec
  import opened BookRuns
  import opened HeapModel
  import opened LevelList
  import BookSide

  class LevelOrderBookHeap {
    const asks: BookSide.BookSide
    const bids: BookSide.BookSide
    const pool: NodePool
    var byID: map<nat, Node>

    function Side(ask: bool): BookSide.BookSide {
      if ask then asks else bids
    }

    ghost function Abs(): Buckets
      reads asks, bids
    {
      Buckets(bids.Abs(), asks.Abs())
    }

    ghost function Repr(): set<object>
      reads this, asks, bids, pool
    {
      {this, pool} + pool.repr + asks.Repr() + bids.Repr()
    }

    /** Two sides, the pool and the index share nothing. */
    ghost predicate Separate(x: BookSide.BookSide, y: BookSide.BookSide)
      reads this, x, y, pool
    {
      x.Repr() !! y.Repr() && x.Repr() !! {this, pool} + pool.repr && y.Repr() !! {this, pool} + pool.repr
    }

    /** The index maps exactly the ids of linked orders to their nodes. */
    ghost predicate Indexes(x: BookSide.BookSide, y: BookSide.BookSide)
      reads `byID, x`nodes, y`nodes, x.nodes`order, y.nodes`order
    {
      && (forall n :: n in x.nodes + y.nodes ==> n.order.id in byID && byID[n.order.id] == n)
      && (forall id :: id in byID ==> byID[id] in x.nodes + y.nodes && byID[id].order.id == id)
    }

    /** The invariant of the book, either side first. */
    ghost predicate Paired(x: BookSide.BookSide, y: BookSide.BookSide)
      reads this, x, y, pool, pool.repr, x.Repr(), y.Repr()
    {
      Separate(x, y) && x.Valid() && y.Valid() && pool.Valid() && Indexes(x, y)
    }

    ghost predicate Valid()
      reads this, asks, bids, pool, pool.repr, asks.Repr(), bids.Repr()
    {
      asks.ask && !bids.ask && Paired(asks, bids)
    }

    lemma EitherFirst(ask: bool)
      requires asks.ask && !bids.ask
      ensures Paired(asks, bids) <==> Paired(Side(ask), Side(!ask))
    {
    }

    constructor ()
      ensures Valid() && Abs() == NOTHING && fresh(Repr())
    {
      hide Valid, BookSide.BookSide.Valid, BookSide.BookSide.Repr, BookSide.BookSide.Abs, NodePool.Valid;
      asks := new BookSide.BookSide(true);
      bids := new BookSide.BookSide(false);
      pool := new NodePool();
      byID := map[];
      new;
      StartsValid();
    }

    lemma StartsValid()
      requires asks.ask && !bids.ask && asks.Valid() && bids.Valid() && pool.Valid() && byID == map[]
      requires asks.Repr() !! bids.Repr() && this !in asks.Repr() + bids.Repr()
      requires asks.nodes == {} == bids.nodes == pool.repr && pool !in asks.Repr() + bids.Repr()
      ensures Valid()
    {
      hide BookSide.BookSide.LevelsValid, BookSide.BookSide.HeapValid;
    }

    method OpenLevel(x: BookSide.BookSide, y: BookSide.BookSide, p: int) returns (lv: Level)
      requires Paired(x, y)
      modifies x, x.heap
      ensures Paired(x, y) && p in x.levels && x.levels[p] == lv && lv in x.owned && lv.repr <= x.nodes
      ensures old(x.owned) <= x.owned && fresh(x.owned - old(x.owned)) && x.nodes == old(x.nodes)
      ensures x.Abs() == Opened(old(x.Abs()), p)
    {
      hide BookSide.BookSide.LevelsValid, BookSide.BookSide.HeapValid, NodePool.Valid, Indexes;
      lv := x.OpenLevel(p);
    }

    method GetNode(x: BookSide.BookSide, y: BookSide.BookSide, o: Order, lv: Level, side: int) returns (n: Node)
      requires Paired(x, y)
      modifies pool, pool.repr
      ensures Paired(x, y) && pool.repr <= old(pool.repr) && n !in pool.repr && (n in old(pool.repr) || fresh(n))
      ensures n !in x.nodes && n !in y.Repr() && x.Abs() == old(x.Abs())
      ensures n.order == o && n.lv == lv && n.side == side
    {
      hide BookSide.BookSide.LevelsValid, BookSide.BookSide.HeapValid, NodePool.Valid, Indexes;
      n := pool.Get(o, lv, side);
    }

    method Link(x: BookSide.BookSide, y: BookSide.BookSide, lv: Level, n: Node)
      requires Paired(x, y) && n !in x.nodes && n !in y.Repr() && n !in pool.repr
      requires n.order.price in x.levels && x.levels[n.order.price] == lv && lv in x.owned && lv.repr <= x.nodes
      requires n.lv == lv && n.side == (if x.ask then SELL else BUY)
      modifies x, lv, n`prev, n`next, lv.repr`next
      ensures Separate(x, y) && x.Valid() && y.Valid() && pool.Valid()
      ensures x.nodes == old(x.nodes) + {n} && x.owned == old(x.owned)
      ensures x.Abs() == Appended(old(x.Abs()), n.order)
    {
      hide BookSide.BookSide.LevelsValid, BookSide.BookSide.HeapValid, NodePool.Valid, Indexes;
      x.LevelKeys();
      x.Append(lv, n);
    }

    method Hang(x: BookSide.BookSide, y: BookSide.BookSide, lv: Level, n: Node)
      requires Paired(x, y) && n !in x.nodes && n !in y.Repr() && n !in pool.repr && n.order.id !in byID
      requires n.order.price in x.levels && x.levels[n.order.price] == lv && lv in x.owned && lv.repr <= x.nodes
      requires n.lv == lv && n.side == (if x.ask then SELL else BUY)
      modifies `byID, x, lv, n`prev, n`next, lv.repr`next
      ensures Paired(x, y) && x.nodes == old(x.nodes) + {n} && x.owned == old(x.owned)
      ensures x.Abs() == Appended(old(x.Abs()), n.order)
    {
      hide BookSide.BookSide.Valid, BookSide.BookSide.Repr, BookSide.BookSide.Abs, NodePool.Valid, Appended;
      Link(x, y, lv, n);
      byID := byID[n.order.id := n];
    }

    lemma SidesSeparate(x: BookSide.BookSide, y: BookSide.BookSide)
      requires Paired(x, y)
      ensures x.Repr() !! y.Repr() && x != y && this !in x.Repr() + y.Repr() && pool !in x.Repr() + y.Repr()
      ensures pool.repr !! y.Repr()
    {
      hide BookSide.BookSide.Valid, NodePool.Valid, Indexes;
    }

    lemma ReprIs(ask: bool)
      ensures Repr() == {this, pool} + pool.repr + Side(ask).Repr() + Side(!ask).Repr()
    {
      hide BookSide.BookSide.Repr;
    }

    /** Rests an order: its level, a node, the tail of the queue, the index. */
    method RestOn(x: BookSide.BookSide, y: BookSide.BookSide, o: Order)
      requires Paired(x, y) && o.id !in byID
      modifies `byID, x.Repr(), pool, pool.repr
      ensures Paired(x, y) && pool.repr <= old(pool.repr)
      ensures fresh(x.Repr() - old(x.Repr()) - old(pool.repr))
      ensures x.Abs() == AddHalf(old(x.Abs()), o) && y.Abs() == old(y.Abs()) && y.Repr() == old(y.Repr())
    {
      hide Paired, AddHalf, Opened, Appended;
      SidesSeparate(x, y);
      OpenThenAppend(x.Abs(), o);
      var lv := OpenLevel(x, y, o.price);
      var n := GetNode(x, y, o, lv, if x.ask then SELL else BUY);
      Hang(x, y, lv, n);
    }

    method UnlinkFrom(x: BookSide.BookSide, y: BookSide.BookSide, n: Node) returns (ghost k: nat)
      requires Paired(x, y) && n in x.nodes
      modifies `byID, x`queues, x`nodes, x.owned, x.nodes`prev, x.nodes`next
      ensures Paired(x, y) && x.nodes == old(x.nodes) - {n} && x.owned == old(x.owned)
      ensures byID == old(byID) - {n.order.id} && n !in y.Repr()
      ensures TakenAt(old(x.Abs()), n.order, k) && x.Abs() == Taken(old(x.Abs()), n.order.price, k)
      ensures old(n.lv) != null && (old(n.lv.head) == n ==> k == 0)
      ensures old(n.lv.price) == n.order.price && old(n.lv).size == |Queue(x.queues, n.order.price)|
    {
      hide BookSide.BookSide.LevelsValid, BookSide.BookSide.HeapValid, NodePool.Valid;
      x.PlacedIn(n);
      k := x.Unlink(n);
      x.LevelQueue(n.lv.price);
      byID := byID - {n.order.id};
    }

    method PutNode(x: BookSide.BookSide, y: BookSide.BookSide, n: Node)
      requires Paired(x, y) && n !in x.Repr() && n !in y.Repr() && n !in pool.repr
      modifies pool, n
      ensures Paired(x, y) && pool.repr == old(pool.repr) + {n} && n.side == 0
    {
      hide BookSide.BookSide.LevelsValid, BookSide.BookSide.HeapValid, NodePool.Valid, Indexes;
      pool.Put(n);
    }

    /** Takes a node off its level, out of the index and back to the pool. */
    method TakeOff(x: BookSide.BookSide, y: BookSide.BookSide, n: Node) returns (ghost k: nat)
      requires Paired(x, y) && n in x.nodes
      modifies `byID, x`queues, x`nodes, x.owned, x.nodes, pool
      ensures Paired(x, y) && x.nodes == old(x.nodes) - {n} && x.owned == old(x.owned)
      ensures pool.repr == old(pool.repr) + {n} && n.side == 0
      ensures byID == old(byID) - {old(n.order.id)}
      ensures TakenAt(old(x.Abs()), old(n.order), k) && x.Abs() == Taken(old(x.Abs()), old(n.order.price), k)
      ensures old(n.lv) != null && (old(n.lv.head) == n ==> k == 0)
      ensures old(n.lv.price) == old(n.order.price) && old(n.lv).size == |Queue(x.queues, old(n.order.price))|
    {
      hide BookSide.BookSide.Valid, NodePool.Valid, Indexes, Taken, TakenAt;
      k := UnlinkFrom(x, y, n);
      PutNode(x, y, n);
    }

    // ---- cancel ------------------------------------------------------------------------------

    /** A queued order is where the index says. */
    lemma Located(ask: bool, p: int, i: nat, id: nat)
      requires Valid() && At(Abs(), ask, p, i, id)
      ensures id in byID && byID[id] in Side(ask).nodes && byID[id].order.price == p
      ensures p in Side(ask).levels && i < |Side(ask).levels[p].nodes| && Side(ask).levels[p].nodes[i] == byID[id]
    {
      hide BookSide.BookSide.LevelsValid, BookSide.BookSide.HeapValid, NodePool.Valid;
      var x := Side(ask);
      x.LevelKeys();
      var n := x.NodeOf(p, i);
      x.PlacedIn(n);
      x.LevelAt(p);
    }

    lemma NotIndexed(id: nat)
      requires Valid() && id !in byID
      ensures !Indexed(Abs(), id)
    {
      if Indexed(Abs(), id) {
        var ask, p, i: nat :| At(Abs(), ask, p, i, id);
        Located(ask, p, i, id);
      }
    }

    /** No two places hold the same id. */
    lemma OnePlace(ask: bool, p: int, i: nat, ask': bool, p': int, i': nat, id: nat)
      requires Valid() && At(Abs(), ask, p, i, id) && At(Abs(), ask', p', i', id)
      ensures ask == ask' && p == p' && i == i'
    {
      Located(ask, p, i, id);
      Located(ask', p', i', id);
      SidesApart(byID[id]);
      Side(ask).SamePlace(p, i, i');
    }

    lemma SidesApart(n: Node)
      requires Valid()
      ensures !(n in asks.nodes && n in bids.nodes)
    {
    }

    lemma CancelIs(ask: bool, p: int, k: nat, id: nat)
      requires Valid() && At(Abs(), ask, p, k, id)
      ensures CancelBuckets(Abs(), id) == (Unlinked(Abs(), ask, p, k), Cancelled(true))
    {
      hide Valid, At, Unlinked;
      forall ask', p', k': nat | At(Abs(), ask', p', k', id)
        ensures ask' == ask && p' == p && k' == k
      {
        OnePlace(ask, p, k, ask', p', k', id);
      }
    }

    method DropLevel(ask: bool, p: int)
      requires Valid()
      modifies Side(ask)`levels, Side(ask)`queues
      ensures Valid() <==> Queue(old(Side(ask).queues), p) == []
      ensures Abs() == old(Abs()).With(ask, Dropped(old(Abs()).Side(ask), p)) && Repr() == old(Repr())
    {
      hide BookSide.BookSide.LevelsValid, BookSide.BookSide.HeapValid, NodePool.Valid, Indexes;
      EitherFirst(ask);
      Side(ask).DropLevel(p);
      EitherFirst(ask);
    }

    /** The last ask of a price at which bids rest: cancelling it deletes the level of the bids. */
    ghost predicate Collides(id: nat)
      reads this, asks, bids
    {
      exists p :: At(Abs(), true, p, 0, id) && |asks.queues[p]| == 1 && Queue(bids.queues, p) != []
    }

    lemma SideOf(n: Node)
      requires Valid() && n in asks.nodes + bids.nodes
      ensures n in Side(n.side == SELL).nodes && n.lv != null && n.lv in Side(n.side == SELL).owned
      ensures n.lv.price == n.order.price
    {
      hide BookSide.BookSide.LevelsValid, BookSide.BookSide.HeapValid, NodePool.Valid;
      if n in asks.nodes {
        asks.PlacedIn(n);
      } else {
        bids.PlacedIn(n);
      }
    }

    method TakeOffSide(ask: bool, n: Node) returns (ghost k: nat)
      requires Valid() && n in Side(ask).nodes
      modifies `byID, Side(ask)`queues, Side(ask)`nodes, Side(ask).owned, Side(ask).nodes, pool
      ensures Valid() && Repr() == old(Repr()) && n.side == 0
      ensures var h := old(Abs()).Side(ask); var o := old(n.order);
              && TakenAt(h, o, k) && Abs() == old(Abs()).With(ask, Taken(h, o.price, k))
      ensures old(n.lv) != null && old(n.lv.price) == old(n.order.price) && (old(n.lv.head) == n ==> k == 0)
      ensures old(n.lv).size == |Queue(Side(ask).queues, old(n.order.price))|
    {
      hide Paired;
      EitherFirst(ask);
      k := TakeOff(Side(ask), Side(!ask), n);
      EitherFirst(ask);
    }

    /** Unlinks the node first; by the time the emptied level is to be deleted the pool has wiped
        the node's side, so the test always takes the branch of the bids. */
    method CancelNode(n: Node, lv: Level) returns (ghost k: nat)
      requires Valid() && n in asks.nodes + bids.nodes && n.lv == lv
      modifies Repr()
      ensures Repr() == old(Repr())
      ensures var ask := old(n.side) == SELL;
              && At(old(Abs()), ask, lv.price, k, old(n.order.id))
              && Abs() == Unlinked(old(Abs()), ask, lv.price, k)
              && (Valid() <==> !(ask && |old(asks.queues)[lv.price]| == 1 && Queue(old(bids.queues), lv.price) != []))
    {
      hide Paired;
      SideOf(n);
      k := TakeOffSide(n.side == SELL, n);
      if lv.Empty() {
        DropLevel(n.side == SELL, lv.price);
      }
    }

    /** Cancels by id. The answer and the new state are the model's; the book stays well formed exactly when
        the level deleted from the bids was empty. */
    method Cancel(id: nat) returns (ok: bool)
      requires Valid()
      modifies Repr()
      ensures Repr() == old(Repr()) && (Valid() <==> !old(Collides(id)))
      ensures (Abs(), Cancelled(ok)) == CancelBuckets(old(Abs()), id)
    {
      if id !in byID {
        NotIndexed(id);
        return false;
      }
      var n := byID[id];
      ghost var ask, p, b := n.side == SELL, n.order.price, Abs();
      SideOf(n);
      ghost var i := Side(ask).PlaceOf(n);
      CancelIs(ask, p, i, id);
      forall ask', p', j: nat | At(b, ask', p', j, id)
        ensures ask' == ask && p' == p && j == i
      {
        OnePlace(ask, p, i, ask', p', j, id);
      }
      ghost var k := CancelNode(n, n.lv);
      return true;
    }

    // ---- matching ----------------------------------------------------------------------------

    lemma HeadAt(ask: bool, p: int)
      requires Valid() && p in Side(ask).levels
      ensures var x, lv := Side(ask), Side(ask).levels[p];
              && lv in x.owned && lv.price == p && p in x.queues && lv.size == |x.queues[p]|
              && (lv.size > 0 ==> lv.head != null && lv.head in x.nodes && lv.head.lv == lv
                                  && lv.head.order == x.queues[p][0] && lv.head.order.price == p)
    {
      hide BookSide.BookSide.LevelsValid, BookSide.BookSide.HeapValid, NodePool.Valid, Indexes;
      var x := Side(ask);
      x.LevelAt(p);
      x.LevelQueue(p);
      if x.levels[p].size > 0 {
        x.HeadOf(p);
        x.PlacedIn(x.levels[p].head);
      }
    }

    method ReduceOn(x: BookSide.BookSide, y: BookSide.BookSide, lv: Level, exec: int)
      requires Paired(x, y) && lv.price in x.levels && x.levels[lv.price] == lv && Queue(x.queues, lv.price) != []
      requires lv in x.owned && lv.head != null && lv.head in x.nodes
      modifies x`queues, lv`queue, lv.head`order
      ensures Paired(x, y) && Repr() == old(Repr())
      ensures x.Abs() == Reduced(old(x.Abs()), lv.price, exec)
    {
      hide BookSide.BookSide.LevelsValid, BookSide.BookSide.HeapValid, NodePool.Valid;
      x.ReduceHead(lv, exec);
    }

    method ReduceSide(ask: bool, lv: Level, exec: int)
      requires Valid() && lv.price in Side(ask).levels && Side(ask).levels[lv.price] == lv
      requires lv in Side(ask).owned && lv.head != null && lv.head in Side(ask).nodes
      requires Queue(Side(ask).queues, lv.price) != []
      modifies Side(ask)`queues, lv`queue, lv.head`order
      ensures Valid() && Repr() == old(Repr())
      ensures Abs() == old(Abs()).With(ask, Reduced(old(Abs()).Side(ask), lv.price, exec))
    {
      hide Paired;
      EitherFirst(ask);
      ReduceOn(Side(ask), Side(!ask), lv, exec);
      EitherFirst(ask);
    }

    /** One execution against the head of a level. */
    method FillOne(ask: bool, lv: Level, taker: Order, qty: int) returns (t: Trade)
      requires Valid() && lv.price in Side(ask).levels && Side(ask).levels[lv.price] == lv && lv.size > 0
      modifies Repr()
      ensures Valid() && Repr() == old(Repr()) && Side(ask).levels == old(Side(ask).levels)
      ensures var q := Queue(old(Side(ask).queues), lv.price);
              && q != [] && q[0].price == lv.price
              && t == Trade(taker.id, q[0].id, q[0].price, Min(qty, q[0].qty))
              && Abs() == old(Abs()).With(ask, Requeued(old(Abs()).Side(ask), lv.price, AfterTurn(q, t.qty)))
    {
      hide Paired, Reduced, Taken, Requeued, AfterTurn;
      HeadAt(ask, lv.price);
      ghost var h := Abs().Side(ask);
      var mn := lv.head;
      var maker := mn.order;
      var exec := Min(qty, maker.qty);
      t := Trade(taker.id, maker.id, lv.price, exec);
      TurnIs(h, lv.price, exec);
      if maker.qty - exec == 0 {
        ghost var k := TakeOffSide(ask, mn);
      } else {
        ReduceSide(ask, lv, exec);
      }
    }

    /** One turn of the inner loop: b is the book when the loop began, q the level's queue now. */
    method FillTurn(ask: bool, lv: Level, taker: Order, rest: int, ghost b: Buckets, ghost q: seq<Order>,
                    ghost trades: seq<Trade>)
      returns (t: Trade)
      requires Valid() && lv.price in Side(ask).levels && Side(ask).levels[lv.price] == lv && lv.size == |q| > 0
      requires rest > 0 && Crosses(ask, lv.price, taker.price)
      requires Abs() == b.With(ask, Requeued(b.Side(ask), lv.price, q))
      modifies Repr()
      ensures Valid() && Repr() == old(Repr()) && Side(ask).levels == old(Side(ask).levels)
      ensures var q' := AfterTurn(q, t.qty);
              && Abs() == b.With(ask, Requeued(b.Side(ask), lv.price, q')) && lv.size == |q'|
              && Onto(trades, MatchQueue(ask, taker.id, taker.price, rest, q))
                 == Onto(trades + [t], MatchQueue(ask, taker.id, taker.price, rest - t.qty, q'))
              && (|q'| < |q| || (|q'| == |q| && t.qty == rest))
    {
      hide Valid, Requeued, MatchQueue, AfterTurn, Onto, BookSide.BookSide.Repr;
      ghost var h, p := b.Side(ask), lv.price;
      RequeuedAt(h, p, q);
      t := FillOne(ask, lv, taker, rest);
      MatchOne(ask, taker.id, taker.price, rest, q, trades);
      RequeuedTwice(h, p, q, AfterTurn(q, t.qty));
      TurnShrinks(q, t.qty);
      RequeuedAt(h, p, AfterTurn(q, t.qty));
      HeadAt(ask, p);
    }

    /** Executes against one level until the taker is filled or the level is empty. */
    method FillLevel(ask: bool, lv: Level, taker: Order, qty: int) returns (trades: seq<Trade>, rest: int)
      requires Valid() && lv.price in Side(ask).levels && Side(ask).levels[lv.price] == lv
      requires Crosses(ask, lv.price, taker.price)
      modifies Repr()
      ensures Valid() && Repr() == old(Repr()) && Side(ask).levels == old(Side(ask).levels)
      ensures var m := MatchQueue(ask, taker.id, taker.price, qty, Queue(old(Side(ask).queues), lv.price));
              && trades == m.trades && rest == m.rest
              && Abs() == old(Abs()).With(ask, Requeued(old(Abs()).Side(ask), lv.price, m.book))
              && (rest > 0 ==> m.book == [])
    {
      hide Valid, Requeued, MatchQueue, AfterTurn, Onto, BookSide.BookSide.Repr;
      trades, rest := [], qty;
      ghost var b := Abs();
      HeadAt(ask, lv.price);
      RequeuedSame(b.Side(ask), lv.price);
      ghost var q := b.Side(ask).levels[lv.price];
      ghost var goal := MatchQueue(ask, taker.id, taker.price, qty, q);
      OntoNothing(goal);
      while rest > 0 && !lv.Empty()
        invariant Valid() && Repr() == old(Repr()) && Side(ask).levels == old(Side(ask).levels)
        invariant Abs() == b.With(ask, Requeued(b.Side(ask), lv.price, q)) && lv.size == |q|
        invariant goal == Onto(trades, MatchQueue(ask, taker.id, taker.price, rest, q))
        decreases |q|, rest
      {
        var t := FillTurn(ask, lv, taker, rest, b, q, trades);
        q := AfterTurn(q, t.qty);
        trades := trades + [t];
        rest := rest - t.qty;
      }
      MatchStops(ask, taker.id, taker.price, rest, q);
      OntoEnd(trades, rest, q);
    }

    /** Best price of a side; stale heap entries are thrown away on the way. */
    method BestPrice(ask: bool) returns (r: Option<int>)
      requires Valid()
      modifies Side(ask)`known, Side(ask).heap
      ensures Valid() && Repr() == old(Repr())
      ensures var h := old(Abs()).Side(ask);
              && Abs() == old(Abs()).With(ask, Pruned(ask, h))
              && r == if Visible(h) == {} then None else Some(BestOf(ask, Visible(h)))
    {
      hide BookSide.BookSide.LevelsValid, BookSide.BookSide.HeapValid, NodePool.Valid, Indexes, Visible, Pruned, BestOf;
      EitherFirst(ask);
      r := Side(ask).Best();
      EitherFirst(ask);
    }

    /** Fills against the level of one price and deletes it when that empties it; the heap entry
        stays behind. */
    method MatchLevel(ask: bool, p: int, taker: Order, qty: int) returns (trades: seq<Trade>, rest: int)
      requires Valid() && p in Side(ask).levels && Crosses(ask, p, taker.price)
      modifies Repr()
      ensures Valid() && Repr() == old(Repr())
      ensures var h := old(Abs()).Side(ask);
              var m := MatchQueue(ask, taker.id, taker.price, qty, Queue(h.levels, p));
              && trades == m.trades && rest == m.rest && (rest > 0 ==> m.book == [])
              && Abs() == old(Abs()).With(ask, Left(h, p, m.book))
    {
      hide Valid, MatchQueue, Requeued, Dropped;
      ghost var h := Abs().Side(ask);
      HeadAt(ask, p);
      var lv := Side(ask).levels[p];
      trades, rest := FillLevel(ask, lv, taker, qty);
      HeadAt(ask, p);
      RequeuedAt(h, p, MatchQueue(ask, taker.id, taker.price, qty, Queue(h.levels, p)).book);
      if lv.Empty() {
        DropLevel(ask, lv.price);
      }
    }

    /** Walks the levels from the best price while it crosses. The branch for a best price without
        orders is never taken. */
    method MatchEmit(ask: bool, taker: Order) returns (trades: seq<Trade>, rest: int)
      requires Valid() && taker.qty > 0
      modifies Repr()
      ensures Valid() && Repr() == old(Repr())
      ensures Abs() == old(Abs()).With(ask, Abs().Side(ask))
      ensures HalfMatch(trades, rest, Abs().Side(ask))
              == MatchHalf(ask, taker.id, taker.price, taker.qty, old(Abs()).Side(ask))
    {
      hide Valid, MatchHalf, MatchQueue, Pruned, Visible, BestOf, Left;
      trades, rest := [], taker.qty;
      ghost var b := Abs();
      OntoNoTrades(MatchHalf(ask, taker.id, taker.price, taker.qty, b.Side(ask)));
      while rest > 0
        invariant Valid() && Repr() == old(Repr()) && Abs() == b.With(ask, Abs().Side(ask))
        invariant MatchHalf(ask, taker.id, taker.price, taker.qty, b.Side(ask))
                  == OntoHalf(trades, MatchHalf(ask, taker.id, taker.price, rest, Abs().Side(ask)))
        decreases |Abs().Side(ask).levels|, rest
      {
        ghost var h, qty := Abs().Side(ask), rest;
        var best := BestPrice(ask);
        if best.None? || !Crosses(ask, best.value, taker.price) {
          NoMatch(ask, taker.id, taker.price, rest, h);
          OntoHalfEnd(trades, rest, Abs().Side(ask));
          return;
        }
        BestInLevels(ask, h);
        LevelsTracked(ask);
        HeadAt(ask, best.value);
        if best.value !in Side(ask).levels || Side(ask).levels[best.value].Empty() {
          assert false;
        }
        var ts;
        ts, rest := MatchLevel(ask, best.value, taker, rest);
        LevelMatched(ask, taker.id, taker.price, qty, h, trades);
        trades := trades + ts;
      }
      MatchHalfStops(ask, taker.id, taker.price, rest, Abs().Side(ask));
      OntoHalfEnd(trades, rest, Abs().Side(ask));
    }

    lemma LevelsTracked(ask: bool)
      requires Valid()
      ensures Side(ask).levels.Keys == Side(ask).queues.Keys
    {
      Side(ask).LevelKeys();
    }

    // ---- the entry points --------------------------------------------------------------------

    lemma IsIndexed(id: nat)
      requires Valid()
      ensures id in byID <==> Indexed(Abs(), id)
    {
      if id in byID {
        var n := byID[id];
        var ask := n.side == SELL;
        SideOf(n);
        var i := Side(ask).PlaceOf(n);
        assert At(Abs(), ask, n.lv.price, i, id);
      } else {
        NotIndexed(id);
      }
    }

    /** Rests an order; non-positive quantities, known ids and unknown sides are ignored. */
    method Add(o: Order)
      requires Valid()
      modifies Repr()
      ensures Valid() && fresh(Repr() - old(Repr()))
      ensures Abs() == AddBuckets(old(Abs()), o)
    {
      hide Paired, AddHalf, Indexed, BookSide.BookSide.Repr, BookSide.BookSide.Abs;
      IsIndexed(o.id);
      if o.qty <= 0 || o.id in byID || !(o.side == BUY || o.side == SELL) {
        return;
      }
      var ask := o.side == SELL;
      EitherFirst(ask);
      ReprIs(ask);
      RestOn(Side(ask), Side(!ask), o);
      ReprIs(ask);
      EitherFirst(ask);
    }

    /** Matches without resting and reports what is left. */
    method MatchLimitEmit(taker: Order) returns (trades: seq<Trade>, rest: int)
      requires Valid()
      modifies Repr()
      ensures Valid() && Repr() == old(Repr())
      ensures (Abs(), trades, rest) == MatchBuckets(old(Abs()), taker)
    {
      hide Valid, MatchHalf;
      if taker.qty <= 0 {
        return [], 0;
      }
      if taker.side == BUY {
        trades, rest := MatchEmit(true, taker);
      } else if taker.side == SELL {
        trades, rest := MatchEmit(false, taker);
      } else {
        return [], taker.qty;
      }
    }
  }

  /** The half after the level p kept the queue q; an empty one is deleted. */
  function Left(h: Half, p: int, q: seq<Order>): Half {
    if q == [] then Dropped(Requeued(h, p, q), p) else Requeued(h, p, q)
  }

  lemma OntoHalfEnd(trades: seq<Trade>, rest: int, h: Half)
    ensures OntoHalf(trades, HalfMatch([], rest, h)) == HalfMatch(trades, rest, h)
  {
    assert trades + [] == trades;
  }

  ghost function OntoHalf(trades: seq<Trade>, m: HalfMatch): HalfMatch {
    m.(trades := trades + m.trades)
  }

  lemma OntoNoTrades(m: HalfMatch)
    ensures OntoHalf([], m) == m
  {
    assert [] + m.trades == m.trades;
  }

  lemma BestInLevels(ask: bool, h: Half)
    requires Visible(h) != {}
    ensures BestOf(ask, Visible(h)) in h.levels && Pruned(ask, h).levels == h.levels
    ensures h.levels[BestOf(ask, Visible(h))] != []
  {
  }

  /** One turn of the outer loop. */
  lemma LevelMatched(ask: bool, taker: nat, limit: int, qty: int, h: Half, trades: seq<Trade>)
    requires qty > 0 && Visible(h) != {} && Crosses(ask, BestOf(ask, Visible(h)), limit)
    requires var m := MatchQueue(ask, taker, limit, qty, Queue(h.levels, BestOf(ask, Visible(h))));
             m.rest > 0 ==> m.book == []
    ensures var p := BestOf(ask, Visible(h));
            var m := MatchQueue(ask, taker, limit, qty, Queue(h.levels, p));
            var h2 := Left(Pruned(ask, h), p, m.book);
            && OntoHalf(trades, MatchHalf(ask, taker, limit, qty, h))
               == OntoHalf(trades + m.trades, MatchHalf(ask, taker, limit, m.rest, h2))
            && |h2.levels| <= |h.levels| && (m.book == [] ==> |h2.levels| < |h.levels|)
  {
    var p := BestOf(ask, Visible(h));
    var m := MatchQueue(ask, taker, limit, qty, Queue(h.levels, p));
    LevelsShrink(h.levels, p);
    var h1 := Requeued(Pruned(ask, h), p, m.book);
    if m.book == [] {
      assert Dropped(h1, p) == Pruned(ask, h).(levels := h.levels - {p});
      var ts := MatchHalf(ask, taker, limit, m.rest, Dropped(h1, p)).trades;
      assert trades + (m.trades + ts) == (trades + m.trades) + ts;
    } else {
      assert h1.levels.Keys == h.levels.Keys;
      assert |h1.levels| == |h1.levels.Keys| && |h.levels| == |h.levels.Keys|;
      assert (trades + m.trades) + [] == trades + m.trades;
    }
  }

  lemma NoMatch(ask: bool, taker: nat, limit: int, qty: int, h: Half)
    requires qty > 0 && (Visible(h) == {} || !Crosses(ask, BestOf(ask, Visible(h)), limit))
    ensures MatchHalf(ask, taker, limit, qty, h) == HalfMatch([], qty, Pruned(ask, h))
  {
  }

  lemma MatchHalfStops(ask: bool, taker: nat, limit: int, qty: int, h: Half)
    requires qty <= 0
    ensures MatchHalf(ask, taker, limit, qty, h) == HalfMatch([], qty, h)
  {
  }

  lemma OntoEnd(trades: seq<Trade>, rest: int, q: seq<Order>)
    ensures Onto(trades, Match([], rest, q)) == Match(trades, rest, q)
  {
  }

  lemma MatchStops(ask: bool, taker: nat, limit: int, qty: int, s: seq<Order>)
    requires qty <= 0 || s == []
    ensures MatchQueue(ask, taker, limit, qty, s) == Match([], qty, s)
  {
  }

  lemma TurnShrinks(q: seq<Order>, exec: int)
    requires q != []
    ensures |AfterTurn(q, exec)| == if q[0].qty == exec then |q| - 1 else |q|
  {
  }

  lemma RequeuedSame(h: Half, p: int)
    requires p in h.levels
    ensures Requeued(h, p, h.levels[p]) == h
  {
  }

  lemma RequeuedAt(h: Half, p: int, q: seq<Order>)
    ensures p in Requeued(h, p, q).levels && Queue(Requeued(h, p, q).levels, p) == q
  {
  }

  lemma RequeuedTwice(h: Half, p: int, q: seq<Order>, r: seq<Order>)
    ensures Requeued(Requeued(h, p, q), p, r) == Requeued(h, p, r)
  {
  }

  lemma TurnIs(h: Half, p: int, exec: int)
    requires Queue(h.levels, p) != []
    ensures var q := h.levels[p];
            Requeued(h, p, AfterTurn(q, exec)) == if q[0].qty == exec then Taken(h, p, 0) else Reduced(h, p, exec)
  {
    assert Without(h.levels[p], 0) == h.levels[p][1..];
  }

  function Requeued(h: Half, p: int, q: seq<Order>): Half {
    h.(levels := h.levels[p := q])
  }

  function Reduced(h: Half, p: int, exec: int): Half
    requires Queue(h.levels, p) != []
  {
    var q := h.levels[p];
    h.(levels := h.levels[p := [q[0].(qty := q[0].qty - exec)] + q[1..]])
  }

  function Dropped(h: Half, p: int): Half {
    h.(levels := h.levels - {p})
  }

  ghost predicate TakenAt(h: Half, o: Order, k: nat) {
    o.price in h.levels && k < |h.levels[o.price]| && h.levels[o.price][k] == o
  }

  /** A half whose level p has lost its k-th order; the level itself stays. */
  ghost function Taken(h: Half, p: int, k: nat): Half
    requires p in h.levels && k < |h.levels[p]|
  {
    h.(levels := h.levels[p := Without(h.levels[p], k)])
  }

  function Opened(h: Half, p: int): Half {
    if p in h.levels then h else Half(h.levels[p := []], h.heap + {p})
  }

  function Appended(h: Half, o: Order): Half {
    h.(levels := h.levels[o.price := Queue(h.levels, o.price) + [o]])
  }

  lemma OpenThenAppend(h: Half, o: Order)
    ensures AddHalf(h, o) == Appended(Opened(h, o.price), o)
  {
    if o.price !in h.levels {
      assert [] + [o] == [o];
    }
  }
}
